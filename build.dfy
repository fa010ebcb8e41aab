/**
 * The build itself: keep the five-letter answers, emit one list page per
 * starting letter with at least 15 words and one per listed ending with at
 * least 30, then the hub page and the sitemap. Writing files is replaced by
 * returning what would be written, in order.
 */
module Build {
  import opened Text
  import opened WordList
  import opened Sorting
  import opened Slugs
  import opened Render

  const MinPrefixWords: nat := 15
  const MinSuffixWords: nat := 30
  const Letters: string := "abcdefghijklmnopqrstuvwxyz"
  const Suffixes: seq<string> := ["er", "ed", "ly", "al", "el", "st", "th", "es", "s"]

  /** The related links every list page carries. */
  const Related: seq<Link> := [Link(HubUrl, "All 5-letter word lists"), Link("/", "Open the solver")]

  /**
   * A page `writePageDir` would write: its URL path and what its contents are
   * rendered from, a `pageHtml` argument or the two lists the hub links.
   */
  datatype PageFile =
    | ListFile(urlPath: string, page: PageSpec)
    | HubFile(urlPath: string, prefixPages: seq<string>, suffixPages: seq<string>)

  /** The hub's letter labels read `at(-2)` of every prefix page path. */
  predicate Renderable(f: PageFile) {
    f.HubFile? ==> Keyed(f.prefixPages)
  }

  /** The contents of the file. */
  function Html(f: PageFile): string
    requires Renderable(f)
  {
    match f
    case ListFile(_, page) => PageHtml(page)
    case HubFile(_, prefixPages, suffixPages) => HubHtml(prefixPages, suffixPages)
  }

  predicate IsFiveLetter(w: string) {
    |w| == 5
  }

  /** `readWordList(ANSWERS_PATH).filter(w => w.length === 5)`, given the file's text. */
  function Answers(text: string): seq<string>
  {
    Select(ReadWordList(text), IsFiveLetter)
  }

  /** The answers are exactly the five-character tokens of the text. */
  lemma AnswersMember(text: string, w: string)
    ensures w in Answers(text) <==> w in Words(text) && |w| == 5
  {
    SelectMember(ReadWordList(text), IsFiveLetter, w);
    ReadWordListIsWords(text);
  }

  lemma AnswersAreTokens(text: string)
    ensures forall k :: 0 <= k < |Answers(text)| ==> IsToken(Answers(text)[k]) && |Answers(text)[k]| == 5
  {
    var a := Answers(text);
    ReadWordListTokens(text);
    forall k | 0 <= k < |a| ensures IsToken(a[k]) && |a[k]| == 5 {
      assert a[k] in a;
      SelectMember(ReadWordList(text), IsFiveLetter, a[k]);
      var j :| 0 <= j < |ReadWordList(text)| && ReadWordList(text)[j] == a[k];
    }
  }

  // ---------------------------------------------------------------------------
  // The word group of one page
  // ---------------------------------------------------------------------------

  function StartsWithLetter(ch: char): string -> bool
  {
    w => StartsWith(w, [ch])
  }

  function EndsWithSuffix(suf: string): string -> bool
  {
    w => EndsWith(w, suf)
  }

  /** `answers.filter(w => w.startsWith(ch)).sort()`. */
  function PrefixGroup(answers: seq<string>, ch: char): seq<string>
  {
    Sort(Select(answers, StartsWithLetter(ch)))
  }

  /** `answers.filter(w => w.endsWith(suf)).sort()`. */
  function SuffixGroup(answers: seq<string>, suf: string): seq<string>
  {
    Sort(Select(answers, EndsWithSuffix(suf)))
  }

  /**
   * A prefix group is sorted and holds each answer starting with `ch` as often
   * as the answers do, and nothing else.
   */
  lemma PrefixGroupIs(answers: seq<string>, ch: char, w: string)
    ensures Sorted(PrefixGroup(answers, ch))
    ensures multiset(PrefixGroup(answers, ch))[w] == if StartsWith(w, [ch]) then multiset(answers)[w] else 0
    ensures w in PrefixGroup(answers, ch) <==> w in answers && StartsWith(w, [ch])
  {
    SelectCount(answers, StartsWithLetter(ch), w);
    SelectMember(answers, StartsWithLetter(ch), w);
    assert w in PrefixGroup(answers, ch) <==> w in multiset(PrefixGroup(answers, ch));
  }

  lemma SuffixGroupIs(answers: seq<string>, suf: string, w: string)
    ensures Sorted(SuffixGroup(answers, suf))
    ensures multiset(SuffixGroup(answers, suf))[w] == if EndsWith(w, suf) then multiset(answers)[w] else 0
    ensures w in SuffixGroup(answers, suf) <==> w in answers && EndsWith(w, suf)
  {
    SelectCount(answers, EndsWithSuffix(suf), w);
    SelectMember(answers, EndsWithSuffix(suf), w);
    assert w in SuffixGroup(answers, suf) <==> w in multiset(SuffixGroup(answers, suf));
  }

  /** The group is the only sorted array with those elements. */
  lemma PrefixGroupUnique(answers: seq<string>, ch: char, g: seq<string>)
    requires Sorted(g)
    requires multiset(g) == multiset(Select(answers, StartsWithLetter(ch)))
    ensures g == PrefixGroup(answers, ch)
  {
    SortedUnique(g, PrefixGroup(answers, ch));
  }

  // ---------------------------------------------------------------------------
  // Page specifications
  // ---------------------------------------------------------------------------

  const PrefixTitleHead: string := "5-letter words starting with "
  const SuffixTitleHead: string := "5-letter words ending in "
  const PrefixDescriptionTail: string := ". Browse the word list and narrow puzzles faster."
  const SuffixDescriptionTail: string := ". Browse the word list and filter patterns faster."
  const IntroOpen: string := "<p>Browse <strong>"
  const PrefixIntroTail: string :=
    "</strong>. Useful for Wordle-style puzzles and pattern matching.</p>\n"
    + "<p>Combine this with excluded letters in the solver to narrow results quickly.</p>"
  const SuffixIntroTail: string :=
    "</strong>.</p>\n"
    + "<p>Tip: endings often constrain vowel placement—use the solver to lock the middle letters.</p>"

  function PrefixTitle(ch: char): string
  {
    PrefixTitleHead + [UpperChar(ch)]
  }

  function SuffixTitle(suf: string): string
  {
    SuffixTitleHead + UpperStr(suf)
  }

  /**
   * The `pageHtml` argument of the page for letter `ch`; the introduction
   * repeats the title in bold.
   */
  function PrefixPage(ch: char, words: seq<string>): PageSpec
  {
    var title := PrefixTitle(ch);
    PageSpec(
      title,
      Site + SlugPrefix([ch]),
      title + PrefixDescriptionTail,
      title,
      IntroOpen + title + PrefixIntroTail,
      words,
      Related)
  }

  /** The `pageHtml` argument of the page for ending `suf`. */
  function SuffixPage(suf: string, words: seq<string>): PageSpec
  {
    var title := SuffixTitle(suf);
    PageSpec(
      title,
      Site + SlugSuffix(suf),
      title + SuffixDescriptionTail,
      title,
      IntroOpen + title + SuffixIntroTail,
      words,
      Related)
  }

  /** The loop's `continue` test for a letter: the page is not thin. */
  function KeepsPrefix(answers: seq<string>): char -> bool
  {
    ch => |PrefixGroup(answers, ch)| >= MinPrefixWords
  }

  function KeepsSuffix(answers: seq<string>): string -> bool
  {
    suf => |SuffixGroup(answers, suf)| >= MinSuffixWords
  }

  /** The path of a letter's page; the hub reads the letter back from it. */
  function PrefixSlugOf(ch: char): (r: string)
    ensures |r| >= 2 && PrefixKey(r) == Some(ch)
  {
    PrefixKeyOfSlug(ch);
    SlugPrefix([ch])
  }

  function PrefixFileOf(answers: seq<string>): char -> PageFile
  {
    ch => PrefixFile(answers, ch)
  }

  function SuffixFileOf(answers: seq<string>): string -> PageFile
  {
    suf => SuffixFile(answers, suf)
  }

  /** The letters that get a page, in alphabetical order. */
  function PrefixKept(answers: seq<string>): string
  {
    Select(Letters, KeepsPrefix(answers))
  }

  /** The endings that get a page, in the order of the list. */
  function SuffixKept(answers: seq<string>): seq<string>
  {
    Select(Suffixes, KeepsSuffix(answers))
  }

  function PrefixPages(answers: seq<string>): seq<string>
  {
    Map(PrefixKept(answers), PrefixSlugOf)
  }

  function SuffixPages(answers: seq<string>): seq<string>
  {
    Map(SuffixKept(answers), SlugSuffix)
  }

  // ---------------------------------------------------------------------------
  // The build
  // ---------------------------------------------------------------------------

  /**
   * The script's top level, given the text of the answers file: the list
   * pages of the two loops, then the hub page, in the order they are
   * written, and the contents of `sitemap.xml`.
   */
  method BuildSite(text: string)
    returns (prefixPages: seq<string>, suffixPages: seq<string>, files: seq<PageFile>,
             urls: seq<string>, sitemap: string)
    ensures prefixPages == PrefixPages(Answers(text))
    ensures suffixPages == SuffixPages(Answers(text))
    ensures files == Map(PrefixKept(Answers(text)), PrefixFileOf(Answers(text)))
                   + Map(SuffixKept(Answers(text)), SuffixFileOf(Answers(text)))
                   + [HubFile(HubUrl, prefixPages, suffixPages)]
    ensures Keyed(prefixPages)
    ensures urls == SitemapUrls(prefixPages, suffixPages)
    ensures sitemap == SitemapXml(urls)
  {
    var answers := Answers(text);
    var prefixFiles, suffixFiles;
    prefixPages, prefixFiles := PrefixLoop(answers, Letters);
    suffixPages, suffixFiles := SuffixLoop(answers, Suffixes);
    PrefixPushedIsFilterMap(answers, Letters);
    SuffixPushedIsFilterMap(answers, Suffixes);
    PrefixPagesKeyed(answers);
    files := prefixFiles + suffixFiles + [HubFile(HubUrl, prefixPages, suffixPages)];
    urls := SitemapUrls(prefixPages, suffixPages);
    sitemap := SitemapXml(urls);
  }

  /** The hub can read a letter out of every prefix page path. */
  lemma PrefixPagesKeyed(answers: seq<string>)
    ensures Keyed(PrefixPages(answers))
  {
  }

  /** The file written for letter `ch`. */
  function PrefixFile(answers: seq<string>, ch: char): PageFile
  {
    ListFile(SlugPrefix([ch]), PrefixPage(ch, PrefixGroup(answers, ch)))
  }

  /** The file written for ending `suf`. */
  function SuffixFile(answers: seq<string>, suf: string): PageFile
  {
    ListFile(SlugSuffix(suf), SuffixPage(suf, SuffixGroup(answers, suf)))
  }

  /** What `prefixPages` holds after the loop has visited `letters`. */
  function PrefixPushed(answers: seq<string>, letters: string): seq<string>
    decreases |letters|
  {
    if letters == [] then []
    else
      var ch := letters[|letters| - 1];
      PrefixPushed(answers, letters[..|letters| - 1])
      + (if |PrefixGroup(answers, ch)| >= MinPrefixWords then [SlugPrefix([ch])] else [])
  }

  /** The files the loop has written after visiting `letters`, in order. */
  function PrefixWritten(answers: seq<string>, letters: string): seq<PageFile>
    decreases |letters|
  {
    if letters == [] then []
    else
      var ch := letters[|letters| - 1];
      PrefixWritten(answers, letters[..|letters| - 1])
      + (if |PrefixGroup(answers, ch)| >= MinPrefixWords then [PrefixFile(answers, ch)] else [])
  }

  function SuffixPushed(answers: seq<string>, suffixes: seq<string>): seq<string>
    decreases |suffixes|
  {
    if suffixes == [] then []
    else
      var suf := suffixes[|suffixes| - 1];
      SuffixPushed(answers, suffixes[..|suffixes| - 1])
      + (if |SuffixGroup(answers, suf)| >= MinSuffixWords then [SlugSuffix(suf)] else [])
  }

  function SuffixWritten(answers: seq<string>, suffixes: seq<string>): seq<PageFile>
    decreases |suffixes|
  {
    if suffixes == [] then []
    else
      var suf := suffixes[|suffixes| - 1];
      SuffixWritten(answers, suffixes[..|suffixes| - 1])
      + (if |SuffixGroup(answers, suf)| >= MinSuffixWords then [SuffixFile(answers, suf)] else [])
  }

  /** The `for (const ch of ...)` loop: the prefix pages pushed and the files written, in order. */
  method PrefixLoop(answers: seq<string>, letters: string)
    returns (pages: seq<string>, files: seq<PageFile>)
    ensures pages == PrefixPushed(answers, letters)
    ensures files == PrefixWritten(answers, letters)
  {
    pages := [];
    files := [];
    var i := 0;
    while i < |letters|
      invariant 0 <= i <= |letters|
      invariant pages == PrefixPushed(answers, letters[..i])
      invariant files == PrefixWritten(answers, letters[..i])
    {
      var ch := letters[i];
      var words := PrefixGroup(answers, ch);
      assert letters[..i + 1][..i] == letters[..i];
      if |words| >= MinPrefixWords {
        var urlPath := SlugPrefix([ch]);
        pages := pages + [urlPath];
        files := files + [ListFile(urlPath, PrefixPage(ch, words))];
      }
      i := i + 1;
    }
    assert letters[..i] == letters;
  }

  /** The `for (const suf of suffixes)` loop. */
  method SuffixLoop(answers: seq<string>, suffixes: seq<string>)
    returns (pages: seq<string>, files: seq<PageFile>)
    ensures pages == SuffixPushed(answers, suffixes)
    ensures files == SuffixWritten(answers, suffixes)
  {
    pages := [];
    files := [];
    var j := 0;
    while j < |suffixes|
      invariant 0 <= j <= |suffixes|
      invariant pages == SuffixPushed(answers, suffixes[..j])
      invariant files == SuffixWritten(answers, suffixes[..j])
    {
      var suf := suffixes[j];
      var words := SuffixGroup(answers, suf);
      assert suffixes[..j + 1][..j] == suffixes[..j];
      if |words| >= MinSuffixWords {
        var urlPath := SlugSuffix(suf);
        pages := pages + [urlPath];
        files := files + [ListFile(urlPath, SuffixPage(suf, words))];
      }
      j := j + 1;
    }
    assert suffixes[..j] == suffixes;
  }

  /** The loop's pages and files are the filter-then-map of the letters. */
  lemma {:induction false} PrefixPushedIsFilterMap(answers: seq<string>, letters: string)
    ensures PrefixPushed(answers, letters) == Map(Select(letters, KeepsPrefix(answers)), PrefixSlugOf)
    ensures PrefixWritten(answers, letters) == Map(Select(letters, KeepsPrefix(answers)), PrefixFileOf(answers))
    decreases |letters|
  {
    if letters != [] {
      var n := |letters| - 1;
      PrefixPushedIsFilterMap(answers, letters[..n]);
      FilterMapStep(letters, n, KeepsPrefix(answers), PrefixSlugOf);
      FilterMapStep(letters, n, KeepsPrefix(answers), PrefixFileOf(answers));
      KeepsPrefixIs(answers, letters[n]);
      PrefixFileIs(answers, letters[n]);
      assert letters[..n + 1] == letters;
    }
  }

  lemma {:induction false} SuffixPushedIsFilterMap(answers: seq<string>, suffixes: seq<string>)
    ensures SuffixPushed(answers, suffixes) == Map(Select(suffixes, KeepsSuffix(answers)), SlugSuffix)
    ensures SuffixWritten(answers, suffixes) == Map(Select(suffixes, KeepsSuffix(answers)), SuffixFileOf(answers))
    decreases |suffixes|
  {
    if suffixes != [] {
      var n := |suffixes| - 1;
      SuffixPushedIsFilterMap(answers, suffixes[..n]);
      FilterMapStep(suffixes, n, KeepsSuffix(answers), SlugSuffix);
      FilterMapStep(suffixes, n, KeepsSuffix(answers), SuffixFileOf(answers));
      KeepsSuffixIs(answers, suffixes[n]);
      SuffixFileIs(answers, suffixes[n]);
      assert suffixes[..n + 1] == suffixes;
    }
  }

  lemma KeepsPrefixIs(answers: seq<string>, ch: char)
    ensures KeepsPrefix(answers)(ch) == (|PrefixGroup(answers, ch)| >= MinPrefixWords)
  {
  }

  lemma PrefixFileIs(answers: seq<string>, ch: char)
    ensures PrefixFileOf(answers)(ch) == PrefixFile(answers, ch)
  {
  }

  lemma KeepsSuffixIs(answers: seq<string>, suf: string)
    ensures KeepsSuffix(answers)(suf) == (|SuffixGroup(answers, suf)| >= MinSuffixWords)
  {
  }

  lemma SuffixFileIs(answers: seq<string>, suf: string)
    ensures SuffixFileOf(answers)(suf) == SuffixFile(answers, suf)
  {
  }

  /** One more element of the loop: it is mapped and appended exactly when it passes the filter. */
  lemma FilterMapStep<A, B>(xs: seq<A>, i: nat, keep: A -> bool, f: A -> B)
    requires i < |xs|
    ensures Map(Select(xs[..i + 1], keep), f)
         == Map(Select(xs[..i], keep), f) + (if keep(xs[i]) then [f(xs[i])] else [])
  {
    assert xs[..i + 1] == xs[..i] + [xs[i]];
    SelectAppend(xs[..i], [xs[i]], keep);
    MapAppend(Select(xs[..i], keep), Select([xs[i]], keep), f);
  }

  // ---------------------------------------------------------------------------
  // What the build produces
  // ---------------------------------------------------------------------------

  /** A letter gets a page exactly when it has at least 15 answers. */
  lemma PrefixPageEmitted(answers: seq<string>, ch: char)
    ensures SlugPrefix([ch]) in PrefixPages(answers)
        <==> ch in Letters && |PrefixGroup(answers, ch)| >= MinPrefixWords
  {
    PrefixSlugMember(PrefixKept(answers), ch);
    SelectMember(Letters, KeepsPrefix(answers), ch);
    KeepsPrefixIs(answers, ch);
  }

  /** An ending gets a page exactly when it is listed and has at least 30 answers. */
  lemma SuffixPageEmitted(answers: seq<string>, suf: string)
    ensures SlugSuffix(suf) in SuffixPages(answers)
        <==> suf in Suffixes && |SuffixGroup(answers, suf)| >= MinSuffixWords
  {
    SuffixSlugMember(SuffixKept(answers), suf);
    SelectMember(Suffixes, KeepsSuffix(answers), suf);
    KeepsSuffixIs(answers, suf);
  }

  /** A letter's path is among the paths of `kept` exactly when the letter is. */
  lemma PrefixSlugMember(kept: string, ch: char)
    ensures SlugPrefix([ch]) in Map(kept, PrefixSlugOf) <==> ch in kept
  {
    var pages := Map(kept, PrefixSlugOf);
    if SlugPrefix([ch]) in pages {
      var k :| 0 <= k < |pages| && pages[k] == SlugPrefix([ch]);
      SlugPrefixInjective([kept[k]], [ch]);
      assert kept[k] == [kept[k]][0];
    }
    if ch in kept {
      var k :| 0 <= k < |kept| && kept[k] == ch;
      assert pages[k] == SlugPrefix([ch]);
    }
  }

  lemma SuffixSlugMember(kept: seq<string>, suf: string)
    ensures SlugSuffix(suf) in Map(kept, SlugSuffix) <==> suf in kept
  {
    var pages := Map(kept, SlugSuffix);
    if SlugSuffix(suf) in pages {
      var k :| 0 <= k < |pages| && pages[k] == SlugSuffix(suf);
      SlugSuffixInjective(kept[k], suf);
    }
    if suf in kept {
      var k :| 0 <= k < |kept| && kept[k] == suf;
      assert pages[k] == SlugSuffix(suf);
    }
  }

  predicate Increasing(s: string) {
    forall i, j :: 0 <= i < j < |s| ==> s[i] < s[j]
  }

  lemma LettersIncreasing()
    ensures Increasing(Letters)
  {
  }

  lemma {:induction false} SelectIncreasing(s: string, keep: char -> bool)
    requires Increasing(s)
    ensures Increasing(Select(s, keep))
    decreases |s|
  {
    if s != [] {
      var rest := Select(s[1..], keep);
      assert Increasing(s[1..]) by {
        forall i, j | 0 <= i < j < |s[1..]| ensures s[1..][i] < s[1..][j] {
          assert s[1..][i] == s[i + 1] && s[1..][j] == s[j + 1];
        }
      }
      SelectIncreasing(s[1..], keep);
      if keep(s[0]) {
        forall k | 0 <= k < |rest| ensures s[0] < rest[k] {
          SelectMember(s[1..], keep, rest[k]);
          assert rest[k] in rest;
          var m :| 0 <= m < |s[1..]| && s[1..][m] == rest[k];
          assert s[m + 1] == rest[k];
        }
        var r := [s[0]] + rest;
        forall i, j | 0 <= i < j < |r| ensures r[i] < r[j] {
          if i > 0 {
            assert r[i] == rest[i - 1] && r[j] == rest[j - 1];
          } else {
            assert r[j] == rest[j - 1];
          }
        }
      }
    }
  }

  /**
   * The hub lists the prefix pages in alphabetical order of the letter it
   * reads back from each path, and no letter twice.
   */
  lemma PrefixPagesOrdered(answers: seq<string>)
    ensures forall k :: 0 <= k < |PrefixPages(answers)| ==>
              PrefixPages(answers)[k] == SlugPrefix([PrefixKept(answers)[k]])
              && PrefixKey(PrefixPages(answers)[k]) == Some(PrefixKept(answers)[k])
    ensures forall i, j :: 0 <= i < j < |PrefixPages(answers)| ==>
              PrefixKey(PrefixPages(answers)[i]).value < PrefixKey(PrefixPages(answers)[j]).value
    ensures NoDuplicates(PrefixPages(answers))
  {
    var kept := PrefixKept(answers);
    var pages := PrefixPages(answers);
    LettersIncreasing();
    SelectIncreasing(Letters, KeepsPrefix(answers));
    forall k | 0 <= k < |pages| ensures PrefixKey(pages[k]) == Some(kept[k]) {
      PrefixKeyOfSlug(kept[k]);
    }
  }

  lemma {:induction false} SelectNoDuplicates<T>(xs: seq<T>, keep: T -> bool)
    requires NoDuplicates(xs)
    ensures NoDuplicates(Select(xs, keep))
    decreases |xs|
  {
    if xs != [] {
      var rest := Select(xs[1..], keep);
      assert NoDuplicates(xs[1..]) by {
        forall i, j | 0 <= i < j < |xs[1..]| ensures xs[1..][i] != xs[1..][j] {
          assert xs[1..][i] == xs[i + 1] && xs[1..][j] == xs[j + 1];
        }
      }
      SelectNoDuplicates(xs[1..], keep);
      if keep(xs[0]) {
        SelectMember(xs[1..], keep, xs[0]);
        assert xs[0] !in xs[1..];
        var r := [xs[0]] + rest;
        forall i, j | 0 <= i < j < |r| ensures r[i] != r[j] {
          if i > 0 {
            assert r[i] == rest[i - 1] && r[j] == rest[j - 1];
          } else {
            assert r[j] == rest[j - 1] && r[j] in rest;
          }
        }
      }
    }
  }

  lemma SuffixesDistinct()
    ensures NoDuplicates(Suffixes)
  {
  }

  /** The suffix pages follow the order of the list of endings, each at most once. */
  lemma SuffixPagesOrdered(answers: seq<string>)
    ensures forall k :: 0 <= k < |SuffixPages(answers)| ==>
              SuffixPages(answers)[k] == SlugSuffix(SuffixKept(answers)[k])
              && SuffixKey(SuffixPages(answers)[k]) == SuffixKept(answers)[k]
    ensures NoDuplicates(SuffixPages(answers))
  {
    var kept := SuffixKept(answers);
    var pages := SuffixPages(answers);
    SuffixesDistinct();
    SelectNoDuplicates(Suffixes, KeepsSuffix(answers));
    forall k | 0 <= k < |pages| ensures SuffixKey(pages[k]) == kept[k] {
      assert kept[k] in kept;
      SelectMember(Suffixes, KeepsSuffix(answers), kept[k]);
      SuffixPlain(kept[k]);
      SuffixKeyOfSlug(kept[k]);
    }
  }

  /** No listed ending holds a `-`, a `/` or a newline. */
  lemma SuffixPlain(suf: string)
    requires suf in Suffixes
    ensures '-' !in suf && '/' !in suf && '\n' !in suf
  {
  }

  /** Every word of a prefix group is a five-letter token of the text that starts with the letter. */
  lemma PrefixGroupWords(text: string, ch: char, w: string)
    requires w in PrefixGroup(Answers(text), ch)
    ensures |w| == 5 && w in Words(text) && StartsWith(w, [ch])
  {
    PrefixGroupIs(Answers(text), ch, w);
    AnswersMember(text, w);
  }

  lemma SuffixGroupWords(text: string, suf: string, w: string)
    requires w in SuffixGroup(Answers(text), suf)
    ensures |w| == 5 && w in Words(text) && EndsWith(w, suf)
  {
    SuffixGroupIs(Answers(text), suf, w);
    AnswersMember(text, w);
  }

  /** A letter's page shows its title, its word count and its words. */
  lemma PrefixFileShows(answers: seq<string>, ch: char)
    ensures var html, words := Html(PrefixFile(answers, ch)), PrefixGroup(answers, ch);
            Contains(html, TitleElement(PrefixTitle(ch))) && Contains(html, TotalLine(|words|))
            && Contains(html, WordGrid(words))
  {
    var p := PrefixPage(ch, PrefixGroup(answers, ch));
    PageHtmlShowsTitle(p);
    PageHtmlShowsTotal(p);
    PageHtmlShowsWords(p);
  }

  lemma SuffixFileShows(answers: seq<string>, suf: string)
    ensures var html, words := Html(SuffixFile(answers, suf)), SuffixGroup(answers, suf);
            Contains(html, TitleElement(SuffixTitle(suf))) && Contains(html, TotalLine(|words|))
            && Contains(html, WordGrid(words))
  {
    var p := SuffixPage(suf, SuffixGroup(answers, suf));
    PageHtmlShowsTitle(p);
    PageHtmlShowsTotal(p);
    PageHtmlShowsWords(p);
  }

  /** The letters are lower-case, so no page path breaks a sitemap line. */
  lemma LettersLower()
    ensures forall c :: c in Letters ==> IsLower(c)
  {
  }

  /** Prefix page paths are one line each and longer than every fixed path. */
  lemma PrefixPagesPlain(answers: seq<string>)
    ensures AllLonger(PrefixPages(answers), |HubUrl|) && NoneHolds(PrefixPages(answers), '\n')
  {
    var kept, pages := PrefixKept(answers), PrefixPages(answers);
    PrefixPagesOrdered(answers);
    LettersLower();
    forall k | 0 <= k < |pages| ensures |pages[k]| > |HubUrl| && '\n' !in pages[k] {
      assert kept[k] in kept;
      SelectMember(Letters, KeepsPrefix(answers), kept[k]);
      SlugLengths([kept[k]]);
      SlugSingleLine([kept[k]]);
    }
  }

  lemma SuffixPagesPlain(answers: seq<string>)
    ensures AllLonger(SuffixPages(answers), |HubUrl|) && NoneHolds(SuffixPages(answers), '\n')
  {
    var kept, pages := SuffixKept(answers), SuffixPages(answers);
    SuffixPagesOrdered(answers);
    forall k | 0 <= k < |pages| ensures |pages[k]| > |HubUrl| && '\n' !in pages[k] {
      assert kept[k] in kept;
      SelectMember(Suffixes, KeepsSuffix(answers), kept[k]);
      SuffixPlain(kept[k]);
      SlugLengths(kept[k]);
      SlugSingleLine(kept[k]);
    }
  }

  /** No prefix page shares its path with a suffix page. */
  lemma PagesDisjoint(answers: seq<string>)
    ensures forall i, j :: 0 <= i < |PrefixPages(answers)| && 0 <= j < |SuffixPages(answers)| ==>
              PrefixPages(answers)[i] != SuffixPages(answers)[j]
  {
    PrefixPagesOrdered(answers);
    SuffixPagesOrdered(answers);
    forall i, j | 0 <= i < |PrefixPages(answers)| && 0 <= j < |SuffixPages(answers)|
      ensures PrefixPages(answers)[i] != SuffixPages(answers)[j]
    {
      SlugsDisjoint([PrefixKept(answers)[i]], SuffixKept(answers)[j]);
    }
  }

  /**
   * The build's sitemap lists every path once, and read line by line it is
   * the two header lines, one `<url><loc>` line per path in order, the
   * closing tag and the empty remainder after the final newline.
   */
  lemma SitemapOfBuild(answers: seq<string>)
    ensures NoDuplicates(SitemapUrls(PrefixPages(answers), SuffixPages(answers)))
    ensures var urls := SitemapUrls(PrefixPages(answers), SuffixPages(answers));
            SplitOn(SitemapXml(urls), '\n') == [XmlDecl, UrlsetOpen] + Map(urls, UrlLine) + [UrlsetClose, ""]
  {
    var p, q := PrefixPages(answers), SuffixPages(answers);
    PrefixPagesOrdered(answers);
    SuffixPagesOrdered(answers);
    PrefixPagesPlain(answers);
    SuffixPagesPlain(answers);
    PagesDisjoint(answers);
    SitemapUrlsDistinct(p, q);
    SitemapUrlsSingleLine(p, q);
    SitemapLines(SitemapUrls(p, q));
  }
}
