/**
 * The JavaScript string and array built-ins that the build script relies on,
 * stated over Dafny sequences: `trim`, `split`, `replaceAll`, `join`, `at`,
 * `startsWith`, `endsWith`, ASCII `toLowerCase`/`toUpperCase`, and the
 * array methods `map` and `filter`.
 */
module Text {

  datatype Option<T> = None | Some(value: T)

  // ---------------------------------------------------------------------------
  // Characters. `\s` and `trim` are modelled on the ASCII whitespace set, and
  // case mapping on the ASCII letters.
  // ---------------------------------------------------------------------------

  predicate IsSpace(c: char) {
    c == ' ' || c == '\t' || c == '\n' || c == '\r' || c == '\U{B}' || c == '\U{C}'
  }

  predicate IsUpper(c: char) { 'A' <= c <= 'Z' }

  predicate IsLower(c: char) { 'a' <= c <= 'z' }

  /** True when no character of `w` is whitespace. */
  predicate NoSpace(w: string) {
    forall c :: c in w ==> !IsSpace(c)
  }

  /** True when every character of `w` is whitespace. */
  predicate AllSpace(w: string) {
    forall c :: c in w ==> IsSpace(c)
  }

  function UpperChar(c: char): (r: char)
    ensures !IsLower(r)
    ensures IsLower(c) ==> IsUpper(r) && r as int == c as int - 32
    ensures !IsLower(c) ==> r == c
  {
    if IsLower(c) then (c as int - 32) as char else c
  }

  function LowerChar(c: char): (r: char)
    ensures !IsUpper(r)
    ensures IsUpper(c) ==> IsLower(r) && UpperChar(r) == c
    ensures !IsUpper(c) ==> r == c
    ensures IsSpace(r) <==> IsSpace(c)
  {
    if IsUpper(c) then (c as int + 32) as char else c
  }

  /** `String.prototype.toLowerCase`, ASCII only. */
  function LowerStr(s: string): (r: string)
    ensures |r| == |s|
    ensures forall c :: c in r ==> !IsUpper(c)
  {
    seq(|s|, i requires 0 <= i < |s| => LowerChar(s[i]))
  }

  /** `String.prototype.toUpperCase`, ASCII only. */
  function UpperStr(s: string): (r: string)
    ensures |r| == |s|
    ensures forall c :: c in r ==> !IsLower(c)
  {
    seq(|s|, i requires 0 <= i < |s| => UpperChar(s[i]))
  }

  lemma LowerStrAppend(a: string, b: string)
    ensures LowerStr(a + b) == LowerStr(a) + LowerStr(b)
  {
    assert forall i :: 0 <= i < |a + b| ==> LowerStr(a + b)[i] == (LowerStr(a) + LowerStr(b))[i];
  }

  // ---------------------------------------------------------------------------
  // trim
  // ---------------------------------------------------------------------------

  /** Length of the longest prefix of `s` made of whitespace. */
  function SpaceRun(s: string): (n: nat)
    ensures n <= |s| && AllSpace(s[..n])
    ensures n < |s| ==> !IsSpace(s[n])
  {
    if s != [] && IsSpace(s[0]) then 1 + SpaceRun(s[1..]) else 0
  }

  /** Length of the longest prefix of `s` without whitespace. */
  function NonSpaceRun(s: string): (n: nat)
    ensures n <= |s| && NoSpace(s[..n])
    ensures n < |s| ==> IsSpace(s[n])
  {
    if s != [] && !IsSpace(s[0]) then 1 + NonSpaceRun(s[1..]) else 0
  }

  /** The run lengths are determined by where the first change happens. */
  lemma {:induction false} NonSpaceRunAt(s: string, n: nat)
    requires n <= |s| && NoSpace(s[..n]) && (n < |s| ==> IsSpace(s[n]))
    ensures NonSpaceRun(s) == n
    decreases n
  {
    if n > 0 {
      assert s[0] in s[..n];
      assert s[1..][..n - 1] == s[..n][1..];
      NonSpaceRunAt(s[1..], n - 1);
    }
  }

  lemma {:induction false} SpaceRunAt(s: string, n: nat)
    requires n <= |s| && AllSpace(s[..n]) && (n < |s| ==> !IsSpace(s[n]))
    ensures SpaceRun(s) == n
    decreases n
  {
    if n > 0 {
      assert s[0] in s[..n];
      assert s[1..][..n - 1] == s[..n][1..];
      SpaceRunAt(s[1..], n - 1);
    }
  }

  /** `s` without its trailing whitespace. */
  function TrimEnd(s: string): (r: string)
    ensures r <= s
    ensures AllSpace(s[|r|..])
    ensures r == [] || !IsSpace(r[|r| - 1])
  {
    if s != [] && IsSpace(s[|s| - 1]) then TrimEnd(s[..|s| - 1]) else s
  }

  /** `String.prototype.trim`: drops leading and trailing whitespace. */
  function Trim(s: string): (r: string)
    ensures r == [] || (!IsSpace(r[0]) && !IsSpace(r[|r| - 1]))
    ensures NoSpace(s) ==> r == s
  {
    TrimEnd(s[SpaceRun(s)..])
  }

  // ---------------------------------------------------------------------------
  // split
  // ---------------------------------------------------------------------------

  /**
   * `s.split(/\s+/)`: the pieces between maximal runs of whitespace. A leading
   * or trailing run yields an empty first or last piece, and the empty string
   * splits into one empty piece, as in JavaScript.
   */
  function SplitOnSpaceRuns(s: string): (r: seq<string>)
    ensures |r| >= 1
    decreases |s|
  {
    var i := NonSpaceRun(s);
    if i == |s| then [s]
    else
      var j := i + SpaceRun(s[i..]);
      [s[..i]] + SplitOnSpaceRuns(s[j..])
  }

  /** The first piece ends where the first run of whitespace starts; the rest follows that run. */
  lemma SplitOnSpaceRunsFirst(s: string, i: nat, j: nat)
    requires i == NonSpaceRun(s) < |s| && j == i + SpaceRun(s[i..])
    ensures SplitOnSpaceRuns(s) == [s[..i]] + SplitOnSpaceRuns(s[j..])
  {
  }

  /** Index of the first `d` in `s`, or `|s|` when there is none. */
  function IndexOf(s: string, d: char): (n: nat)
    ensures n <= |s|
    ensures forall k :: 0 <= k < n ==> s[k] != d
    ensures n < |s| ==> s[n] == d
  {
    if s == [] || s[0] == d then 0 else 1 + IndexOf(s[1..], d)
  }

  /** `s.split(d)` for a one-character separator. */
  function SplitOn(s: string, d: char): (r: seq<string>)
    ensures |r| >= 1
    ensures forall k :: 0 <= k < |r| ==> d !in r[k]
    decreases |s|
  {
    var i := IndexOf(s, d);
    if i == |s| then [s] else [s[..i]] + SplitOn(s[i + 1..], d)
  }

  /** `Array.prototype.join(sep)`. */
  function Join(ls: seq<string>, sep: string): string
  {
    if |ls| == 0 then ""
    else if |ls| == 1 then ls[0]
    else ls[0] + sep + Join(ls[1..], sep)
  }

  /** `Array.prototype.join("")`. */
  function Concat(ls: seq<string>): string
  {
    Join(ls, "")
  }

  lemma ConcatCons(w: string, ws: seq<string>)
    ensures Concat([w] + ws) == w + Concat(ws)
  {
    if ws == [] {
      assert [w] + ws == [w];
      assert w + "" == w;
    } else {
      assert ([w] + ws)[1..] == ws;
    }
  }

  lemma JoinAppend(a: seq<string>, b: seq<string>, sep: string)
    requires |a| >= 1 && |b| >= 1
    ensures Join(a + b, sep) == Join(a, sep) + sep + Join(b, sep)
    decreases |a|
  {
    if |a| == 1 {
      assert (a + b)[1..] == b;
    } else {
      assert (a + b)[1..] == a[1..] + b;
      JoinAppend(a[1..], b, sep);
    }
  }

  /** A join of two header lines, a body and a last line followed by a final separator. */
  lemma JoinFramed(h1: string, h2: string, body: seq<string>, t: string, sep: string)
    requires |body| >= 1
    ensures Join([h1, h2] + body + [t, ""], sep) == h1 + sep + h2 + sep + Join(body, sep) + sep + t + sep
  {
    JoinAppend([h1, h2], body, sep);
    JoinAppend([h1, h2] + body, [t, ""], sep);
    assert Join([h1, h2], sep) == h1 + sep + h2 by {
      assert [h1, h2][1..] == [h2];
    }
    assert Join([t, ""], sep) == t + sep + "" by {
      assert [t, ""][1..] == [""];
    }
    assert t + sep + "" == t + sep;
  }

  /** Joining the pieces of a split with the separator gives the string back. */
  lemma {:induction false} JoinSplitOn(s: string, d: char)
    ensures Join(SplitOn(s, d), [d]) == s
    decreases |s|
  {
    var i := IndexOf(s, d);
    if i < |s| {
      JoinSplitOn(s[i + 1..], d);
      assert s == s[..i] + [d] + s[i + 1..];
    }
  }

  /** Splitting a join recovers the pieces, when no piece holds the separator. */
  lemma {:induction false} SplitOnJoin(ls: seq<string>, d: char)
    requires |ls| >= 1
    requires forall k :: 0 <= k < |ls| ==> d !in ls[k]
    ensures SplitOn(Join(ls, [d]), d) == ls
    decreases |ls|
  {
    var s := Join(ls, [d]);
    if |ls| == 1 {
      assert IndexOf(s, d) == |s|;
    } else {
      var rest := Join(ls[1..], [d]);
      assert s == ls[0] + [d] + rest;
      assert s[|ls[0]|] == d;
      assert forall k :: 0 <= k < |ls[0]| ==> s[k] == ls[0][k];
      assert IndexOf(s, d) == |ls[0]|;
      assert s[..|ls[0]|] == ls[0];
      assert s[|ls[0]| + 1..] == rest;
      SplitOnJoin(ls[1..], d);
    }
  }

  /**
   * The last piece of `s.split(d)` is what follows the last `d`: here the
   * last `d` sits at index `k`.
   */
  lemma {:induction false} SplitOnLast(s: string, d: char, k: nat)
    requires k < |s| && s[k] == d
    requires d !in s[k + 1..]
    ensures Last(SplitOn(s, d)) == s[k + 1..]
    decreases |s|
  {
    var i := IndexOf(s, d);
    assert i <= k;
    if i == k {
      IndexOfAbsent(s[k + 1..], d);
    } else {
      var t := s[i + 1..];
      assert SplitOn(s, d) == [s[..i]] + SplitOn(t, d);
      assert t[k - i - 1] == d;
      assert t[k - i..] == s[k + 1..];
      SplitOnLast(t, d, k - i - 1);
    }
  }

  lemma {:induction false} IndexOfAbsent(s: string, d: char)
    requires d !in s
    ensures IndexOf(s, d) == |s|
    decreases |s|
  {
    if s != [] {
      assert s[0] in s;
      assert forall c :: c in s[1..] ==> c in s;
      IndexOfAbsent(s[1..], d);
    }
  }

  function Last<T>(xs: seq<T>): T
    requires |xs| >= 1
  {
    xs[|xs| - 1]
  }

  /** `xs.at(k)`: a negative `k` counts from the end; out of range gives `undefined`. */
  function At<T>(xs: seq<T>, k: int): (r: Option<T>)
    ensures r.Some? <==> -|xs| <= k < |xs|
    ensures k < 0 && r.Some? ==> r.value == xs[|xs| + k]
    ensures 0 <= k && r.Some? ==> r.value == xs[k]
  {
    if 0 <= k < |xs| then Some(xs[k])
    else if -|xs| <= k < 0 then Some(xs[|xs| + k])
    else None
  }

  // ---------------------------------------------------------------------------
  // replaceAll, startsWith, endsWith
  // ---------------------------------------------------------------------------

  /**
   * `s.replaceAll(pat, rep)` for a non-empty string pattern: occurrences are
   * found left to right and do not overlap; replacement text is not rescanned.
   */
  function ReplaceAll(s: string, pat: string, rep: string): (r: string)
    requires |pat| > 0
    ensures |pat| == 1 && pat[0] !in rep ==> pat[0] !in r
    ensures |pat| == 1 && pat[0] !in s ==> r == s
    decreases |s|
  {
    if s == [] then ""
    else if pat <= s then rep + ReplaceAll(s[|pat|..], pat, rep)
    else [s[0]] + ReplaceAll(s[1..], pat, rep)
  }

  /** Replacing a one-character pattern acts on each character alone. */
  lemma {:induction false} ReplaceAllAppend(a: string, b: string, c: char, rep: string)
    ensures ReplaceAll(a + b, [c], rep) == ReplaceAll(a, [c], rep) + ReplaceAll(b, [c], rep)
    decreases |a|
  {
    if a != [] {
      assert (a + b)[1..] == a[1..] + b;
      ReplaceAllAppend(a[1..], b, c, rep);
    } else {
      assert a + b == b;
    }
  }

  /** Replacing a one-character pattern in a one-character string. */
  lemma ReplaceAllChar(c: char, p: char, rep: string)
    ensures ReplaceAll([c], [p], rep) == if c == p then rep else [c]
  {
    assert [c][1..] == [];
  }

  /** With a pattern that starts with `d`, a prefix free of `d` passes through unchanged. */
  lemma {:induction false} ReplaceAllSkip(t: string, rest: string, pat: string, rep: string)
    requires |pat| > 0 && pat[0] !in t
    ensures ReplaceAll(t + rest, pat, rep) == t + ReplaceAll(rest, pat, rep)
    decreases |t|
  {
    if t == [] {
      assert t + rest == rest;
    } else {
      assert (t + rest)[0] == t[0] != pat[0];
      assert (t + rest)[1..] == t[1..] + rest;
      ReplaceAllSkip(t[1..], rest, pat, rep);
    }
  }

  /** `s.startsWith(p)`. */
  predicate StartsWith(s: string, p: string) {
    p <= s
  }

  /** `s.endsWith(p)`. */
  predicate EndsWith(s: string, p: string) {
    |p| <= |s| && s[|s| - |p|..] == p
  }

  // ---------------------------------------------------------------------------
  // Array.prototype.map and Array.prototype.filter
  // ---------------------------------------------------------------------------

  function Map<A, B>(xs: seq<A>, f: A -> B): (r: seq<B>)
    ensures |r| == |xs|
    ensures forall k :: 0 <= k < |xs| ==> r[k] == f(xs[k])
  {
    if xs == [] then [] else [f(xs[0])] + Map(xs[1..], f)
  }

  lemma MapAppend<A, B>(a: seq<A>, b: seq<A>, f: A -> B)
    ensures Map(a + b, f) == Map(a, f) + Map(b, f)
  {
  }

  function Select<T>(xs: seq<T>, p: T -> bool): (r: seq<T>)
    ensures |r| <= |xs|
    ensures forall k :: 0 <= k < |r| ==> p(r[k])
  {
    if xs == [] then []
    else if p(xs[0]) then [xs[0]] + Select(xs[1..], p)
    else Select(xs[1..], p)
  }

  /** `filter` keeps exactly the elements that pass, with their multiplicities. */
  lemma {:induction false} SelectCount<T>(xs: seq<T>, p: T -> bool, x: T)
    ensures multiset(Select(xs, p))[x] == if p(x) then multiset(xs)[x] else 0
  {
    if xs != [] {
      SelectCount(xs[1..], p, x);
      assert xs == [xs[0]] + xs[1..];
    }
  }

  lemma SelectMember<T>(xs: seq<T>, p: T -> bool, x: T)
    ensures x in Select(xs, p) <==> x in xs && p(x)
  {
    SelectCount(xs, p, x);
  }

  lemma {:induction false} SelectAppend<T>(a: seq<T>, b: seq<T>, p: T -> bool)
    ensures Select(a + b, p) == Select(a, p) + Select(b, p)
    decreases |a|
  {
    if a == [] {
      assert a + b == b;
    } else {
      assert (a + b)[1..] == a[1..] + b;
      SelectAppend(a[1..], b, p);
    }
  }

  predicate NoDuplicates<T(==)>(xs: seq<T>) {
    forall i, j :: 0 <= i < j < |xs| ==> xs[i] != xs[j]
  }

  /** Two lists without repeats and without a common element join into one without repeats. */
  lemma NoDuplicatesAppend<T>(a: seq<T>, b: seq<T>)
    requires NoDuplicates(a) && NoDuplicates(b)
    requires forall i, j :: 0 <= i < |a| && 0 <= j < |b| ==> a[i] != b[j]
    ensures NoDuplicates(a + b)
  {
    var c := a + b;
    forall i, j | 0 <= i < j < |c| ensures c[i] != c[j] {
      if j < |a| {
        assert c[i] == a[i] && c[j] == a[j];
      } else if i < |a| {
        assert c[i] == a[i] && c[j] == b[j - |a|];
      } else {
        assert c[i] == b[i - |a|] && c[j] == b[j - |a|];
      }
    }
  }

  /** Every element of `xs` is longer than `n`. */
  predicate AllLonger(xs: seq<string>, n: nat) {
    forall k :: 0 <= k < |xs| ==> |xs[k]| > n
  }

  /** No element of `xs` holds the character `d`. */
  predicate NoneHolds(xs: seq<string>, d: char) {
    forall k :: 0 <= k < |xs| ==> d !in xs[k]
  }

  /**
   * Short elements without repeats, followed by two disjoint lists of long
   * elements without repeats, have no repeats at all.
   */
  lemma NoDuplicatesBands(a: seq<string>, p: seq<string>, q: seq<string>, n: nat)
    requires NoDuplicates(a) && NoDuplicates(p) && NoDuplicates(q)
    requires forall i, j :: 0 <= i < |p| && 0 <= j < |q| ==> p[i] != q[j]
    requires forall k :: 0 <= k < |a| ==> |a[k]| <= n
    requires AllLonger(p, n) && AllLonger(q, n)
    ensures NoDuplicates(a + p + q)
  {
    NoDuplicatesAppend(p, q);
    var pq := p + q;
    forall i, j | 0 <= i < |a| && 0 <= j < |pq| ensures a[i] != pq[j] {
      if j < |p| {
        assert pq[j] == p[j];
      } else {
        assert pq[j] == q[j - |p|];
      }
    }
    NoDuplicatesAppend(a, pq);
    assert a + p + q == a + pq;
  }

  lemma NoneHoldsAppend(a: seq<string>, b: seq<string>, d: char)
    requires NoneHolds(a, d) && NoneHolds(b, d)
    ensures NoneHolds(a + b, d)
  {
    forall k | 0 <= k < |a + b| ensures d !in (a + b)[k] {
      if k < |a| {
        assert (a + b)[k] == a[k];
      } else {
        assert (a + b)[k] == b[k - |a|];
      }
    }
  }

  /** `needle` occurs somewhere in `s`. */
  predicate Contains(s: string, needle: string)
    decreases |s|
  {
    needle <= s || (s != [] && Contains(s[1..], needle))
  }

  lemma {:induction false} ContainsAfter(a: string, b: string, needle: string)
    requires Contains(b, needle)
    ensures Contains(a + b, needle)
    decreases |a|
  {
    if a == [] {
      assert a + b == b;
    } else {
      assert (a + b)[1..] == a[1..] + b;
      ContainsAfter(a[1..], b, needle);
    }
  }

  lemma {:induction false} ContainsBefore(a: string, b: string, needle: string)
    requires Contains(a, needle)
    ensures Contains(a + b, needle)
    decreases |a|
  {
    if needle <= a {
      assert needle <= a + b;
    } else {
      assert (a + b)[1..] == a[1..] + b;
      ContainsBefore(a[1..], b, needle);
    }
  }

  /** A string is found between any two others. */
  lemma ContainsBetween(a: string, needle: string, b: string)
    ensures Contains(a + needle + b, needle)
  {
    assert needle <= needle + b;
    ContainsAfter(a, needle + b, needle);
    assert a + needle + b == a + (needle + b);
  }

  /** What occurs in the middle piece occurs in the whole. */
  lemma ContainsMiddle(a: string, b: string, c: string, needle: string)
    requires Contains(b, needle)
    ensures Contains(a + b + c, needle)
  {
    ContainsAfter(a, b, needle);
    ContainsBefore(a + b, c, needle);
  }

  /** Each piece of a `join("")` occurs in the result. */
  lemma {:induction false} ConcatContains(ps: seq<string>, k: nat)
    requires k < |ps|
    ensures Contains(Concat(ps), ps[k])
    decreases k
  {
    if |ps| == 1 {
      assert ps[0] <= Concat(ps);
    } else {
      assert Concat(ps) == ps[0] + Concat(ps[1..]);
      if k == 0 {
        assert ps[0] <= Concat(ps);
      } else {
        ConcatContains(ps[1..], k - 1);
        ContainsAfter(ps[0], Concat(ps[1..]), ps[k]);
      }
    }
  }
}
