/**
 * `escapeHtml` (scripts/build-set.mjs): five `replaceAll` calls that turn the
 * markup characters into character references, `&` first. The module gives a
 * per-character reference definition, the safety property of the output and
 * a decoder that undoes the escaping.
 */
module Escape {
  import opened Text

  const AmpEntity: string := "&amp;"
  const LtEntity: string := "&lt;"
  const GtEntity: string := "&gt;"
  const QuotEntity: string := "&quot;"
  const AposEntity: string := "&#039;"

  /** `escapeHtml(s)`, in the order of its `replaceAll` chain. */
  function EscapeHtml(s: string): string
  {
    var a := ReplaceAll(s, "&", AmpEntity);
    var b := ReplaceAll(a, "<", LtEntity);
    var c := ReplaceAll(b, ">", GtEntity);
    var d := ReplaceAll(c, "\"", QuotEntity);
    ReplaceAll(d, "'", AposEntity)
  }

  predicate IsMarkup(c: char) {
    c == '&' || c == '<' || c == '>' || c == '"' || c == '\''
  }

  /** What one character becomes in the output. */
  function EscapeChar(c: char): (r: string)
    ensures IsMarkup(c) <==> r != [c]
  {
    match c
    case '&' => AmpEntity
    case '<' => LtEntity
    case '>' => GtEntity
    case '"' => QuotEntity
    case '\'' => AposEntity
    case _ => [c]
  }

  /** Reference definition: escape each character on its own. */
  function EscapeEach(s: string): string
  {
    if s == [] then [] else EscapeChar(s[0]) + EscapeEach(s[1..])
  }

  /** The text at `t`'s start is one of the five character references. */
  predicate BeginsEntity(t: string) {
    StartsWith(t, AmpEntity) || StartsWith(t, LtEntity) || StartsWith(t, GtEntity)
    || StartsWith(t, QuotEntity) || StartsWith(t, AposEntity)
  }

  lemma EscapeHtmlAppend(x: string, y: string)
    ensures EscapeHtml(x + y) == EscapeHtml(x) + EscapeHtml(y)
  {
    var a1, a2 := ReplaceAll(x, "&", AmpEntity), ReplaceAll(y, "&", AmpEntity);
    ReplaceAllAppend(x, y, '&', AmpEntity);
    var b1, b2 := ReplaceAll(a1, "<", LtEntity), ReplaceAll(a2, "<", LtEntity);
    ReplaceAllAppend(a1, a2, '<', LtEntity);
    var c1, c2 := ReplaceAll(b1, ">", GtEntity), ReplaceAll(b2, ">", GtEntity);
    ReplaceAllAppend(b1, b2, '>', GtEntity);
    var d1, d2 := ReplaceAll(c1, "\"", QuotEntity), ReplaceAll(c2, "\"", QuotEntity);
    ReplaceAllAppend(c1, c2, '"', QuotEntity);
    ReplaceAllAppend(d1, d2, '\'', AposEntity);
  }

  lemma EscapeHtmlChar(c: char)
    ensures EscapeHtml([c]) == EscapeChar(c)
  {
    if c == '&' {
      EscapeHtmlAmp();
    } else if c == '<' {
      EscapeHtmlLt();
    } else if c == '>' {
      EscapeHtmlGt();
    } else if c == '"' {
      EscapeHtmlQuot();
    } else if c == '\'' {
      EscapeHtmlApos();
    } else {
      EscapeHtmlOther(c);
    }
  }

  lemma EscapeHtmlAmp()
    ensures EscapeHtml("&") == AmpEntity
  {
    ReplaceAllChar('&', '&', AmpEntity);
    assert '<' !in AmpEntity && '>' !in AmpEntity && '"' !in AmpEntity && '\'' !in AmpEntity;
  }

  lemma EscapeHtmlLt()
    ensures EscapeHtml("<") == LtEntity
  {
    ReplaceAllChar('<', '&', AmpEntity);
    ReplaceAllChar('<', '<', LtEntity);
    assert '>' !in LtEntity && '"' !in LtEntity && '\'' !in LtEntity;
  }

  lemma EscapeHtmlGt()
    ensures EscapeHtml(">") == GtEntity
  {
    ReplaceAllChar('>', '&', AmpEntity);
    ReplaceAllChar('>', '<', LtEntity);
    ReplaceAllChar('>', '>', GtEntity);
    assert '"' !in GtEntity && '\'' !in GtEntity;
  }

  lemma EscapeHtmlQuot()
    ensures EscapeHtml("\"") == QuotEntity
  {
    ReplaceAllChar('"', '&', AmpEntity);
    ReplaceAllChar('"', '<', LtEntity);
    ReplaceAllChar('"', '>', GtEntity);
    ReplaceAllChar('"', '"', QuotEntity);
    assert '\'' !in QuotEntity;
  }

  lemma EscapeHtmlApos()
    ensures EscapeHtml("'") == AposEntity
  {
    ReplaceAllChar('\'', '&', AmpEntity);
    ReplaceAllChar('\'', '<', LtEntity);
    ReplaceAllChar('\'', '>', GtEntity);
    ReplaceAllChar('\'', '"', QuotEntity);
    ReplaceAllChar('\'', '\'', AposEntity);
  }

  lemma EscapeHtmlOther(c: char)
    requires !IsMarkup(c)
    ensures EscapeHtml([c]) == [c]
  {
    ReplaceAllChar(c, '&', AmpEntity);
    ReplaceAllChar(c, '<', LtEntity);
    ReplaceAllChar(c, '>', GtEntity);
    ReplaceAllChar(c, '"', QuotEntity);
    ReplaceAllChar(c, '\'', AposEntity);
  }

  /** The replaceAll chain escapes each character independently. */
  lemma {:induction false} EscapeHtmlIsEscapeEach(s: string)
    ensures EscapeHtml(s) == EscapeEach(s)
    decreases |s|
  {
    if s == [] {
      assert EscapeHtml(s) == [];
    } else {
      assert s == [s[0]] + s[1..];
      EscapeHtmlAppend([s[0]], s[1..]);
      EscapeHtmlChar(s[0]);
      EscapeHtmlIsEscapeEach(s[1..]);
    }
  }

  lemma {:induction false} EscapeEachSafe(s: string)
    ensures forall i :: 0 <= i < |EscapeEach(s)| ==> !IsMarkup(EscapeEach(s)[i]) || EscapeEach(s)[i] == '&'
    ensures forall i :: 0 <= i < |EscapeEach(s)| && EscapeEach(s)[i] == '&' ==> BeginsEntity(EscapeEach(s)[i..])
    decreases |s|
  {
    if s != [] {
      EscapeEachSafe(s[1..]);
      var x, y := EscapeChar(s[0]), EscapeEach(s[1..]);
      var r := x + y;
      assert r == EscapeEach(s);
      forall i | 0 <= i < |r|
        ensures !IsMarkup(r[i]) || r[i] == '&'
        ensures r[i] == '&' ==> BeginsEntity(r[i..])
      {
        if i < |x| {
          if r[i] == '&' {
            assert i == 0 && IsMarkup(s[0]);
            assert x <= r[i..];
          }
        } else {
          assert r[i] == y[i - |x|];
          assert r[i..] == y[i - |x|..];
        }
      }
    }
  }

  /**
   * The output of `escapeHtml` holds no raw `<`, `>`, `"` or `'`, and every
   * `&` in it begins one of the five character references.
   */
  lemma EscapeHtmlSafe(s: string)
    ensures forall i :: 0 <= i < |EscapeHtml(s)| ==>
      var c := EscapeHtml(s)[i]; c != '<' && c != '>' && c != '"' && c != '\''
    ensures forall i :: 0 <= i < |EscapeHtml(s)| && EscapeHtml(s)[i] == '&' ==>
      BeginsEntity(EscapeHtml(s)[i..])
  {
    EscapeHtmlIsEscapeEach(s);
    EscapeEachSafe(s);
  }

  // ---------------------------------------------------------------------------
  // Decoding
  // ---------------------------------------------------------------------------

  /**
   * The inverse of `escapeHtml`: `replaceAll` of each character reference in
   * the reverse order of the escaping, so that `&amp;` is decoded last.
   */
  function UnescapeHtml(t: string): string
  {
    var a := ReplaceAll(t, AposEntity, "'");
    var b := ReplaceAll(a, QuotEntity, "\"");
    var c := ReplaceAll(b, GtEntity, ">");
    var d := ReplaceAll(c, LtEntity, "<");
    ReplaceAll(d, AmpEntity, "&")
  }

  /** Escaping in which the characters of `raw` stand for themselves. */
  function EscapeExcept(s: string, raw: set<char>): string
  {
    if s == [] then []
    else (if s[0] in raw then [s[0]] else EscapeChar(s[0])) + EscapeExcept(s[1..], raw)
  }

  lemma {:induction false} EscapeExceptNone(s: string)
    ensures EscapeExcept(s, {}) == EscapeEach(s)
    decreases |s|
  {
    if s != [] {
      EscapeExceptNone(s[1..]);
    }
  }

  lemma {:induction false} EscapeExceptAll(s: string)
    ensures EscapeExcept(s, {'&', '<', '>', '"', '\''}) == s
    decreases |s|
  {
    if s != [] {
      EscapeExceptAll(s[1..]);
      assert s == [s[0]] + s[1..];
    }
  }

  /**
   * Decoding the reference of `m` turns exactly the escaped `m`s back into
   * `m`, as long as `&` is still escaped: every `&` then begins a reference,
   * and the five references differ in their second character.
   */
  lemma {:induction false} DecodeStep(s: string, raw: set<char>, m: char)
    requires IsMarkup(m) && m !in raw && '&' !in raw
    ensures ReplaceAll(EscapeExcept(s, raw), EscapeChar(m), [m]) == EscapeExcept(s, raw + {m})
    decreases |s|
  {
    if s == [] {
      assert EscapeExcept(s, raw) == [];
    } else {
      var c := s[0];
      var pat := EscapeChar(m);
      var rest := EscapeExcept(s[1..], raw);
      var x := if c in raw then [c] else EscapeChar(c);
      assert EscapeExcept(s, raw) == x + rest;
      DecodeStep(s[1..], raw, m);
      if c == m {
        assert x == pat;
        assert (x + rest)[|pat|..] == rest;
      } else if c in raw || !IsMarkup(c) {
        assert x == [c] && c != '&';
        ReplaceAllSkip(x, rest, pat, [m]);
      } else {
        SkipOtherEntity(c, m, rest);
      }
    }
  }

  lemma EntityShape(c: char)
    requires IsMarkup(c)
    ensures |EscapeChar(c)| >= 4 && EscapeChar(c)[0] == '&' && '&' !in EscapeChar(c)[1..]
  {
  }

  /** The five references already differ in their second character. */
  lemma EntitiesDiffer(c: char, m: char)
    requires IsMarkup(c) && IsMarkup(m) && c != m
    ensures EscapeChar(c)[1] != EscapeChar(m)[1]
  {
  }

  /** Decoding the reference of `m` leaves the reference of another character alone. */
  lemma SkipOtherEntity(c: char, m: char, rest: string)
    requires IsMarkup(c) && IsMarkup(m) && c != m
    ensures ReplaceAll(EscapeChar(c) + rest, EscapeChar(m), [m])
         == EscapeChar(c) + ReplaceAll(rest, EscapeChar(m), [m])
  {
    var x, pat := EscapeChar(c), EscapeChar(m);
    EntityShape(c);
    EntityShape(m);
    EntitiesDiffer(c, m);
    assert (x + rest)[1] == x[1] != pat[1];
    assert !(pat <= x + rest);
    assert (x + rest)[1..] == x[1..] + rest;
    ReplaceAllSkip(x[1..], rest, pat, [m]);
    assert x == [x[0]] + x[1..];
  }

  /** Decoding recovers the input: `escapeHtml` is left-invertible. */
  lemma UnescapeEscape(s: string)
    ensures UnescapeHtml(EscapeHtml(s)) == s
  {
    EscapeHtmlIsEscapeEach(s);
    EscapeExceptNone(s);
    UnescapeEscapeExcept(s);
  }

  /** The five decoding steps, each undoing one character's escaping. */
  lemma UnescapeEscapeExcept(s: string)
    ensures UnescapeHtml(EscapeExcept(s, {})) == s
  {
    var r1: set<char> := {'\''};
    var r2: set<char> := {'\'', '"'};
    var r3: set<char> := {'\'', '"', '>'};
    var r4: set<char> := {'\'', '"', '>', '<'};
    DecodeStep(s, {}, '\'');
    assert {} + {'\''} == r1;
    DecodeStep(s, r1, '"');
    assert r1 + {'"'} == r2;
    DecodeStep(s, r2, '>');
    assert r2 + {'>'} == r3;
    DecodeStep(s, r3, '<');
    assert r3 + {'<'} == r4;
    DecodeStep(s, r4, '&');
    assert r4 + {'&'} == {'&', '<', '>', '"', '\''};
    EscapeExceptAll(s);
  }
}
