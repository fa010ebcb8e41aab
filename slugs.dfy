/**
 * URL paths of the generated pages: `slugPrefix`, `slugSuffix`, the directory
 * name that `writePageDir` derives from a path, and the hub page's recovery of
 * the letter or ending back out of a path.
 */
module Slugs {
  import opened Text

  const PrefixSlugStem: string := "5-letter-words-starting-with-"
  const SuffixSlugStem: string := "5-letter-words-ending-in-"
  const PrefixSlugHead: string := "/" + PrefixSlugStem
  const SuffixSlugHead: string := "/" + SuffixSlugStem

  /** `slugPrefix(ch)`. */
  function SlugPrefix(ch: string): string
  {
    PrefixSlugHead + ch + "/"
  }

  /** `slugSuffix(suf)`. */
  function SlugSuffix(suf: string): string
  {
    SuffixSlugHead + suf + "/"
  }

  /**
   * `urlPath.replace(/^\/|\/$/g, "")`: at most one `/` is removed at the start
   * and at most one at the end; a lone `/` becomes empty.
   */
  function PageDir(urlPath: string): string
  {
    var a := if urlPath != [] && urlPath[0] == '/' then urlPath[1..] else urlPath;
    if a != [] && a[|a| - 1] == '/' then a[..|a| - 1] else a
  }

  /** Stripping the slashes of `/d/` gives the directory name `d` back. */
  lemma PageDirOfWrapped(d: string)
    ensures PageDir("/" + d + "/") == d
  {
    var p := "/" + d + "/";
    assert p[1..] == d + "/";
    assert (d + "/")[..|d|] == d;
  }

  /** A path without slashes at its ends is its own directory name. */
  lemma PageDirOfBare(p: string)
    requires p == [] || (p[0] != '/' && p[|p| - 1] != '/')
    ensures PageDir(p) == p
  {
  }

  /** `writePageDir` puts a prefix page in the directory named after its path. */
  lemma PageDirOfSlugPrefix(ch: string)
    ensures PageDir(SlugPrefix(ch)) == PrefixSlugStem + ch
  {
    Regroup(PrefixSlugStem, ch);
    PageDirOfWrapped(PrefixSlugStem + ch);
  }

  lemma PageDirOfSlugSuffix(suf: string)
    ensures PageDir(SlugSuffix(suf)) == SuffixSlugStem + suf
  {
    Regroup(SuffixSlugStem, suf);
    PageDirOfWrapped(SuffixSlugStem + suf);
  }

  lemma Regroup(stem: string, key: string)
    ensures "/" + stem + key + "/" == "/" + (stem + key) + "/"
  {
  }

  // ---------------------------------------------------------------------------
  // The hub page's labels
  // ---------------------------------------------------------------------------

  /** `p.at(-2)`: the letter a prefix page's path ends in. */
  function PrefixKey(p: string): Option<char>
  {
    At(p, -2)
  }

  /** `p.split("-").at(-1).replaceAll("/", "")`: the ending a suffix page's path ends in. */
  function SuffixKey(p: string): string
  {
    ReplaceAll(Last(SplitOn(p, '-')), "/", "")
  }

  /** The hub reads back the letter of a prefix page. */
  lemma PrefixKeyOfSlug(ch: char)
    ensures PrefixKey(SlugPrefix([ch])) == Some(ch)
  {
    var p := SlugPrefix([ch]);
    assert p[|p| - 2] == ch;
  }

  /** The hub reads back the ending of a suffix page, when it holds no `-` or `/`. */
  lemma SuffixKeyOfSlug(suf: string)
    requires '-' !in suf && '/' !in suf
    ensures SuffixKey(SlugSuffix(suf)) == suf
  {
    var p := SlugSuffix(suf);
    var k := |SuffixSlugHead| - 1;
    assert p[k] == '-';
    assert p[k + 1..] == suf + "/";
    assert '-' !in suf + "/";
    SplitOnLast(p, '-', k);
    ReplaceAllAppend(suf, "/", '/', "");
    ReplaceAllChar('/', '/', "");
    assert suf + "" == suf;
  }

  lemma SlugPrefixInjective(a: string, b: string)
    requires SlugPrefix(a) == SlugPrefix(b)
    ensures a == b
  {
    var n := |PrefixSlugHead|;
    assert a == SlugPrefix(a)[n..|SlugPrefix(a)| - 1];
    assert b == SlugPrefix(b)[n..|SlugPrefix(b)| - 1];
  }

  lemma SlugSuffixInjective(a: string, b: string)
    requires SlugSuffix(a) == SlugSuffix(b)
    ensures a == b
  {
    var n := |SuffixSlugHead|;
    assert a == SlugSuffix(a)[n..|SlugSuffix(a)| - 1];
    assert b == SlugSuffix(b)[n..|SlugSuffix(b)| - 1];
  }

  lemma SlugLengths(x: string)
    ensures |SlugPrefix(x)| == |PrefixSlugHead| + |x| + 1 >= 31
    ensures |SlugSuffix(x)| == |SuffixSlugHead| + |x| + 1 >= 26
  {
  }

  /** A slug is one line when its key is. */
  lemma SlugSingleLine(x: string)
    requires '\n' !in x
    ensures '\n' !in SlugPrefix(x) && '\n' !in SlugSuffix(x)
  {
    assert '\n' !in PrefixSlugStem;
    assert '\n' !in SuffixSlugStem;
  }

  /** A prefix page and a suffix page never share a path. */
  lemma SlugsDisjoint(a: string, b: string)
    ensures SlugPrefix(a) != SlugSuffix(b)
  {
    assert SlugPrefix(a)[16] == 's' && SlugSuffix(b)[16] == 'e';
  }
}
