/**
 * `Array.prototype.sort()` without a comparator, on arrays of strings: the
 * strings are ordered lexicographically by character code. `Sort` is an
 * insertion sort; `SortedUnique` shows that any other correct sort would give
 * the same array, so the choice of algorithm does not matter.
 */
module Sorting {

  /** `a` comes no later than `b` in lexicographic character-code order. */
  predicate LessEq(a: string, b: string)
    decreases |a|
  {
    a == [] || (b != [] && (a[0] < b[0] || (a[0] == b[0] && LessEq(a[1..], b[1..]))))
  }

  lemma {:induction false} LessEqTotal(a: string, b: string)
    ensures LessEq(a, b) || LessEq(b, a)
    decreases |a|
  {
    if a != [] && b != [] && a[0] == b[0] {
      LessEqTotal(a[1..], b[1..]);
    }
  }

  lemma {:induction false} LessEqReflexive(a: string)
    ensures LessEq(a, a)
    decreases |a|
  {
    if a != [] {
      LessEqReflexive(a[1..]);
    }
  }

  lemma {:induction false} LessEqTrans(a: string, b: string, c: string)
    requires LessEq(a, b) && LessEq(b, c)
    ensures LessEq(a, c)
    decreases |a|
  {
    if a != [] && a[0] == b[0] && b[0] == c[0] {
      LessEqTrans(a[1..], b[1..], c[1..]);
    }
  }

  lemma {:induction false} LessEqAntisymmetric(a: string, b: string)
    requires LessEq(a, b) && LessEq(b, a)
    ensures a == b
    decreases |a|
  {
    if a != [] {
      LessEqAntisymmetric(a[1..], b[1..]);
      assert a == [a[0]] + a[1..] && b == [b[0]] + b[1..];
    }
  }

  predicate Sorted(ws: seq<string>) {
    forall i, j :: 0 <= i < j < |ws| ==> LessEq(ws[i], ws[j])
  }

  /** Every element of `ws` is at least `w`. */
  predicate AllAtLeast(w: string, ws: seq<string>) {
    forall x :: x in ws ==> LessEq(w, x)
  }

  lemma SortedCons(w: string, ws: seq<string>)
    requires Sorted(ws) && AllAtLeast(w, ws)
    ensures Sorted([w] + ws)
  {
    var r := [w] + ws;
    forall i, j | 0 <= i < j < |r| ensures LessEq(r[i], r[j]) {
      if i == 0 {
        assert r[j] == ws[j - 1] && r[j] in ws;
      } else {
        assert r[i] == ws[i - 1] && r[j] == ws[j - 1];
      }
    }
  }

  /** Insert `w` into the sorted array `ws`, before the first element it does not exceed. */
  function Insert(w: string, ws: seq<string>): (r: seq<string>)
    requires Sorted(ws)
    ensures Sorted(r)
    ensures multiset(r) == multiset(ws) + multiset{w}
    decreases |ws|
  {
    if ws == [] then [w]
    else if LessEq(w, ws[0]) then
      InsertFront(w, ws);
      [w] + ws
    else
      var rest := Insert(w, ws[1..]);
      InsertBehind(w, ws, rest);
      assert ws == [ws[0]] + ws[1..];
      [ws[0]] + rest
  }

  lemma InsertFront(w: string, ws: seq<string>)
    requires Sorted(ws) && ws != [] && LessEq(w, ws[0])
    ensures Sorted([w] + ws)
  {
    forall x | x in ws ensures LessEq(w, x) {
      var k :| 0 <= k < |ws| && ws[k] == x;
      if k > 0 {
        LessEqTrans(w, ws[0], x);
      }
    }
    SortedCons(w, ws);
  }

  lemma InsertBehind(w: string, ws: seq<string>, rest: seq<string>)
    requires Sorted(ws) && ws != [] && !LessEq(w, ws[0])
    requires Sorted(rest) && multiset(rest) == multiset(ws[1..]) + multiset{w}
    ensures Sorted([ws[0]] + rest)
  {
    LessEqTotal(w, ws[0]);
    forall x | x in rest ensures LessEq(ws[0], x) {
      assert x in multiset(rest);
      if x != w {
        assert x in multiset(ws[1..]);
        var k :| 0 <= k < |ws[1..]| && ws[1..][k] == x;
        assert ws[k + 1] == x;
      }
    }
    SortedCons(ws[0], rest);
  }

  /** `words.sort()`: the sorted permutation of `ws`. */
  function Sort(ws: seq<string>): (r: seq<string>)
    ensures Sorted(r)
    ensures multiset(r) == multiset(ws)
    decreases |ws|
  {
    if ws == [] then []
    else
      assert ws == [ws[0]] + ws[1..];
      Insert(ws[0], Sort(ws[1..]))
  }

  /** The first element of a sorted array is its least. */
  lemma SortedHead(a: seq<string>, x: string)
    requires Sorted(a) && x in a
    ensures LessEq(a[0], x)
  {
    var i :| 0 <= i < |a| && a[i] == x;
    if i == 0 {
      LessEqReflexive(x);
    }
  }

  lemma SortedTail(a: seq<string>)
    requires Sorted(a) && a != []
    ensures Sorted(a[1..])
  {
    forall i, j | 0 <= i < j < |a[1..]| ensures LessEq(a[1..][i], a[1..][j]) {
      assert a[1..][i] == a[i + 1] && a[1..][j] == a[j + 1];
    }
  }

  /** Two sorted arrays with the same elements start alike and agree on the rest. */
  lemma SortedHeads(a: seq<string>, b: seq<string>)
    requires Sorted(a) && Sorted(b) && multiset(a) == multiset(b) && a != []
    ensures b != [] && a[0] == b[0] && multiset(a[1..]) == multiset(b[1..])
  {
    assert a[0] in multiset(b);
    assert b[0] in multiset(a);
    SortedHead(b, a[0]);
    SortedHead(a, b[0]);
    LessEqAntisymmetric(a[0], b[0]);
    MultisetTail(a);
    MultisetTail(b);
  }

  lemma MultisetTail(a: seq<string>)
    requires a != []
    ensures multiset(a[1..]) == multiset(a) - multiset{a[0]}
  {
    assert a == [a[0]] + a[1..];
  }

  /** Two sorted arrays with the same elements are equal. */
  lemma {:induction false} SortedUnique(a: seq<string>, b: seq<string>)
    requires Sorted(a) && Sorted(b) && multiset(a) == multiset(b)
    ensures a == b
    decreases |a|
  {
    if a == [] {
      assert |b| == |multiset(b)| == 0;
    } else {
      SortedHeads(a, b);
      SortedTail(a);
      SortedTail(b);
      SortedUnique(a[1..], b[1..]);
      assert a == [a[0]] + a[1..] && b == [b[0]] + b[1..];
    }
  }
}
