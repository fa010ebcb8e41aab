/**
 * The string part of `readWordList` (scripts/build-set.mjs): trim the file's
 * text, split it on runs of whitespace, trim and lowercase each piece and drop
 * the empty ones. `Words` is an independent scanning definition of the same
 * token list, used to state what the pipeline produces.
 */
module WordList {
  import opened Text

  function LowerTrim(w: string): string
  {
    LowerStr(Trim(w))
  }

  predicate NonEmpty(w: string) {
    w != []
  }

  /** `raw.trim().split(/\s+/).map(w => w.trim().toLowerCase()).filter(Boolean)`. */
  function ReadWordList(text: string): seq<string>
  {
    Select(Map(SplitOnSpaceRuns(Trim(text)), LowerTrim), NonEmpty)
  }

  /** Reference definition: the maximal whitespace-free runs of `s`, lowercased, left to right. */
  function Words(s: string): seq<string>
    decreases |s|
  {
    if s == [] then []
    else if IsSpace(s[0]) then Words(s[1..])
    else
      var n := NonSpaceRun(s);
      [LowerStr(s[..n])] + Words(s[n..])
  }

  /** A well-formed token: non-empty, free of whitespace and of upper-case letters. */
  predicate IsToken(w: string) {
    w != [] && NoSpace(w) && forall c :: c in w ==> !IsUpper(c)
  }

  /** Leading whitespace contributes no token. */
  lemma {:induction false} WordsSkipSpaces(s: string, k: nat)
    requires k <= |s| && AllSpace(s[..k])
    ensures Words(s[k..]) == Words(s)
    decreases k
  {
    if k > 0 {
      assert s[0] in s[..k];
      assert s[1..][..k - 1] == s[..k][1..];
      WordsSkipSpaces(s[1..], k - 1);
      assert s[1..][k - 1..] == s[k..];
    }
  }

  /** A trailing whitespace character contributes no token. */
  lemma {:induction false} WordsTrailingSpace(s: string, c: char)
    requires IsSpace(c)
    ensures Words(s + [c]) == Words(s)
    decreases |s|
  {
    var t := s + [c];
    if s == [] {
      assert t[1..] == [];
    } else if IsSpace(s[0]) {
      assert t[1..] == s[1..] + [c];
      WordsTrailingSpace(s[1..], c);
    } else {
      var n := NonSpaceRun(s);
      assert t[..n] == s[..n];
      assert n < |s| ==> t[n] == s[n];
      NonSpaceRunAt(t, n);
      assert t[n..] == s[n..] + [c];
      WordsTrailingSpace(s[n..], c);
    }
  }

  lemma {:induction false} WordsTrimEnd(s: string)
    ensures Words(TrimEnd(s)) == Words(s)
    decreases |s|
  {
    if s != [] && IsSpace(s[|s| - 1]) {
      WordsTrimEnd(s[..|s| - 1]);
      WordsTrailingSpace(s[..|s| - 1], s[|s| - 1]);
      assert s[..|s| - 1] + [s[|s| - 1]] == s;
    }
  }

  lemma WordsTrim(s: string)
    ensures Words(Trim(s)) == Words(s)
  {
    var k := SpaceRun(s);
    WordsSkipSpaces(s, k);
    WordsTrimEnd(s[k..]);
  }

  /** Split, trim, lowercase and drop empties: that is `Words`, for any text. */
  lemma {:induction false} PipelineIsWords(s: string)
    ensures Select(Map(SplitOnSpaceRuns(s), LowerTrim), NonEmpty) == Words(s)
    decreases |s|
  {
    var i := NonSpaceRun(s);
    if i == |s| {
      PipelineNoSpace(s);
    } else {
      var j := i + SpaceRun(s[i..]);
      PipelineIsWords(s[j..]);
      PipelineSplitCase(s, i, j);
    }
  }

  /** The first piece ends at whitespace: it is followed by the pieces of what comes after the run. */
  lemma PipelineSplitCase(s: string, i: nat, j: nat)
    requires i == NonSpaceRun(s) < |s| && j == i + SpaceRun(s[i..])
    requires Select(Map(SplitOnSpaceRuns(s[j..]), LowerTrim), NonEmpty) == Words(s[j..])
    ensures Select(Map(SplitOnSpaceRuns(s), LowerTrim), NonEmpty) == Words(s)
  {
    var rest := s[j..];
    var head := if i == 0 then [] else [LowerStr(s[..i])];
    SplitOnSpaceRunsFirst(s, i, j);
    PipelineStep(s[..i], SplitOnSpaceRuns(rest));
    assert Select(Map(SplitOnSpaceRuns(s), LowerTrim), NonEmpty) == head + Words(rest);
    WordsLeadingToken(s, i, j);
  }

  /** `Words` reads the first token up to `i` and skips the run of whitespace up to `j`. */
  lemma WordsLeadingToken(s: string, i: nat, j: nat)
    requires i == NonSpaceRun(s) < |s| && j == i + SpaceRun(s[i..])
    ensures Words(s) == (if i == 0 then [] else [LowerStr(s[..i])]) + Words(s[j..])
  {
    WordsSkipSpaces(s[i..], j - i);
    assert s[i..][j - i..] == s[j..];
    if i == 0 {
      WordsSkipSpaces(s, j);
    } else {
      assert Words(s) == [LowerStr(s[..i])] + Words(s[i..]);
    }
  }

  /** Text without whitespace is one piece, kept when non-empty. */
  lemma PipelineNoSpace(s: string)
    requires NonSpaceRun(s) == |s|
    ensures Select(Map(SplitOnSpaceRuns(s), LowerTrim), NonEmpty) == Words(s)
  {
    assert s[..|s|] == s;
    assert NoSpace(s);
    assert Map([s], LowerTrim) == [LowerStr(s)];
    if s != [] {
      assert s[|s|..] == [];
      assert Words(s) == [LowerStr(s)] + Words([]);
    }
  }

  /** One piece of the split goes through `map` and `filter` on its own. */
  lemma PipelineStep(w: string, pieces: seq<string>)
    requires NoSpace(w)
    ensures Select(Map([w] + pieces, LowerTrim), NonEmpty)
         == (if w == [] then [] else [LowerStr(w)]) + Select(Map(pieces, LowerTrim), NonEmpty)
  {
    assert ([w] + pieces)[1..] == pieces;
    assert Map([w] + pieces, LowerTrim) == [LowerStr(w)] + Map(pieces, LowerTrim);
  }

  /** `readWordList`'s string processing yields exactly the tokens of the text. */
  lemma ReadWordListIsWords(text: string)
    ensures ReadWordList(text) == Words(text)
  {
    PipelineIsWords(Trim(text));
    WordsTrim(text);
  }

  /** Every token is non-empty, has no whitespace and no upper-case letter. */
  lemma {:induction false} WordsAreTokens(s: string)
    ensures forall k :: 0 <= k < |Words(s)| ==> IsToken(Words(s)[k])
    decreases |s|
  {
    if s != [] {
      if IsSpace(s[0]) {
        WordsAreTokens(s[1..]);
      } else {
        var n := NonSpaceRun(s);
        WordsAreTokens(s[n..]);
        var w := LowerStr(s[..n]);
        assert w[0] == LowerChar(s[0]);
        forall c | c in w ensures !IsSpace(c) {
          var k :| 0 <= k < |w| && w[k] == c;
          assert w[k] == LowerChar(s[k]);
        }
      }
    }
  }

  predicate NotSpace(c: char) {
    !IsSpace(c)
  }

  /** `s` with its whitespace removed. */
  function StripSpaces(s: string): string
  {
    Select(s, NotSpace)
  }

  /**
   * The tokens keep the input's order: glued together they spell the
   * input's non-whitespace characters, lowercased, in sequence.
   */
  lemma {:induction false} WordsInOrder(s: string)
    ensures Concat(Words(s)) == LowerStr(StripSpaces(s))
    decreases |s|
  {
    if s != [] {
      if IsSpace(s[0]) {
        WordsInOrder(s[1..]);
      } else {
        var n := NonSpaceRun(s);
        WordsInOrder(s[n..]);
        StripSpacesToken(s, n);
        LowerStrAppend(s[..n], StripSpaces(s[n..]));
        ConcatCons(LowerStr(s[..n]), Words(s[n..]));
      }
    }
  }

  /** Stripping whitespace keeps a leading token whole. */
  lemma StripSpacesToken(s: string, n: nat)
    requires n <= |s| && NoSpace(s[..n])
    ensures StripSpaces(s) == s[..n] + StripSpaces(s[n..])
  {
    assert s == s[..n] + s[n..];
    SelectAppend(s[..n], s[n..], NotSpace);
    NoSpaceSelect(s[..n]);
  }

  lemma {:induction false} NoSpaceSelect(s: string)
    requires NoSpace(s)
    ensures Select(s, NotSpace) == s
    decreases |s|
  {
    if s != [] {
      assert NoSpace(s[1..]) by {
        forall c | c in s[1..] ensures !IsSpace(c) {
          assert c in s;
        }
      }
      NoSpaceSelect(s[1..]);
      assert s == [s[0]] + s[1..];
    }
  }

  /** What `readWordList` returns, stated without reference to its algorithm. */
  lemma ReadWordListTokens(text: string)
    ensures forall k :: 0 <= k < |ReadWordList(text)| ==> IsToken(ReadWordList(text)[k])
    ensures Concat(ReadWordList(text)) == LowerStr(StripSpaces(text))
  {
    ReadWordListIsWords(text);
    WordsAreTokens(text);
    WordsInOrder(text);
  }
}
