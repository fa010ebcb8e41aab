/**
 * The text the build writes: `pageHtml` for a list page, the hub page that
 * links every list page, and `sitemap.xml`. Fixed markup is kept as named
 * constants; the style sheet's rules are not reproduced.
 */
module Render {
  import opened Text
  import opened Escape
  import opened Slugs

  const Site: string := "https://letterpatternsolver.com"
  const HubUrl: string := "/5-letter-word-lists/"

  datatype Link = Link(href: string, text: string)

  /** The argument object of `pageHtml`. */
  datatype PageSpec = PageSpec(
    title: string,
    canonical: string,
    description: string,
    h1: string,
    introHtml: string,
    words: seq<string>,
    related: seq<Link>)

  // ---------------------------------------------------------------------------
  // `${n}` for a natural number
  // ---------------------------------------------------------------------------

  predicate IsDigit(c: char) { '0' as int <= c as int <= '9' as int }

  function DigitChar(d: nat): (c: char)
    requires d < 10
    ensures IsDigit(c) && c as int - '0' as int == d
  {
    ('0' as int + d) as char
  }

  /** The decimal numeral of `n`, as a template literal prints it. */
  function NatToString(n: nat): (r: string)
    ensures |r| >= 1
    ensures forall c :: c in r ==> IsDigit(c)
    ensures r[0] == '0' ==> n == 0
  {
    if n < 10 then [DigitChar(n)] else NatToString(n / 10) + [DigitChar(n % 10)]
  }

  /** The value of a string of decimal digits. */
  function ParseNat(s: string): nat
    requires forall c :: c in s ==> IsDigit(c)
  {
    if s == [] then 0
    else
      var d := s[|s| - 1];
      assert d in s;
      assert IsDigit(d);
      assert forall c :: c in s[..|s| - 1] ==> c in s;
      10 * ParseNat(s[..|s| - 1]) + (d as int - '0' as int)
  }

  /** The numeral read back gives the number: the page's total is recoverable. */
  lemma {:induction false} ParseNatToString(n: nat)
    ensures ParseNat(NatToString(n)) == n
    decreases n
  {
    var s := NatToString(n);
    if n >= 10 {
      ParseNatToString(n / 10);
      assert s[..|s| - 1] == NatToString(n / 10);
    }
  }

  // ---------------------------------------------------------------------------
  // pageHtml
  // ---------------------------------------------------------------------------

  // The fixed markup of a list page, in document order.
  const HeadOpen: string :=
    "<!doctype html>\n<html lang=\"en\">\n<head>\n  <meta charset=\"utf-8\" />\n"
    + "  <meta name=\"viewport\" content=\"width=device-width,initial-scale=1\" />\n  "
  const DescriptionOpen: string := "\n  <meta name=\"description\" content=\""
  const CanonicalOpen: string := "\" />\n  <link rel=\"canonical\" href=\""
  const RobotsLine: string := "\" />\n  <meta name=\"robots\" content=\"index,follow\" />\n  "
  const PageStyle: string := "<style>…</style>"
  const HeadClose: string := "\n</head>\n"
  const SiteHeader: string :=
    "<header>\n  <a href=\"/\">Solver</a>\n  <a href=\"/5-letter-word-lists/\">Word lists</a>\n"
    + "  <a href=\"/about/\">About</a>\n  <a href=\"/privacy/\">Privacy</a>\n"
    + "  <a href=\"/contact/\">Contact</a>\n</header>"
  const BodyOpen: string := "<body>\n" + SiteHeader + "\n\n"
  const HeadingOpen: string := "<main>\n  <h1>"
  const CardOpen: string := "</h1>\n  <div class=\"card\">\n    "
  const IntroBreak: string := "\n    "
  const CardClose: string := "\n  </div>\n\n"
  const TotalOpen: string := "<p class=\"meta\"><strong>Total:</strong> "
  const WordsHeading: string := "  <h2>Words</h2>\n  "
  const GridOpen: string := "<div class=\"grid\"><ul>"
  const GridClose: string := "</ul></div>"
  const RelatedHeading: string := "\n\n  <h2>Related</h2>\n  <ul>"
  const PageTip: string :=
    "<p class=\"meta\">Tip: For more control (known letters, exclusions, positions), "
    + "use the <a href=\"/\">solver</a>.</p>"
  const RelatedClose: string := "</ul>\n\n  " + PageTip + "\n</main>\n\n"
  const PageFooter: string := "<footer>\n  <a href=\"/privacy/\">Privacy Policy</a>\n</footer>\n</body>\n</html>"
  const LinkOpen: string := "<li><a href=\""
  const LinkClose: string := "</a></li>"

  function WordItem(w: string): string
  {
    "<li>" + w + "</li>"
  }

  function LinkItem(r: Link): string
  {
    LinkOpen + r.href + "\">" + r.text + LinkClose
  }

  /** The line that reports how many words the page lists. */
  function TotalLine(n: nat): string
  {
    TotalOpen + NatToString(n) + "</p>"
  }

  /** The word grid: one list item per word, in order, not escaped. */
  function WordGrid(words: seq<string>): string
  {
    GridOpen + Concat(Map(words, WordItem)) + GridClose
  }

  function TitleElement(title: string): string
  {
    "<title>" + EscapeHtml(title) + "</title>"
  }

  /** `<head>` of a list page, from the doctype through `</head>`. */
  function PageHead(p: PageSpec): string
  {
    HeadOpen + TitleElement(p.title) + HeadMeta(p)
  }

  /** The description, canonical link, robots directive and style sheet. */
  function HeadMeta(p: PageSpec): string
  {
    DescriptionOpen + EscapeHtml(p.description) + CanonicalOpen + p.canonical
    + RobotsLine + PageStyle + HeadClose
  }

  /** The heading and the card holding the introduction and the total. */
  function PageCard(p: PageSpec): string
  {
    CardTop(p) + TotalLine(|p.words|) + CardClose
  }

  /** The card up to the total line. */
  function CardTop(p: PageSpec): string
  {
    HeadingOpen + EscapeHtml(p.h1) + CardOpen + p.introHtml + IntroBreak
  }

  /** The related links and the tip, through `</main>`. */
  function RelatedList(related: seq<Link>): string
  {
    RelatedHeading + Concat(Map(related, LinkItem)) + RelatedClose
  }

  /** The word grid, then the related links. */
  function PageLists(p: PageSpec): string
  {
    WordsHeading + WordGrid(p.words) + RelatedList(p.related)
  }

  /** `<main>`: the card, then the lists. */
  function PageMain(p: PageSpec): string
  {
    PageCard(p) + PageLists(p)
  }

  /** `<body>` through the end of the document. */
  function PageBody(p: PageSpec): string
  {
    BodyOpen + PageMain(p) + PageFooter
  }

  /** `pageHtml(spec)`. */
  function PageHtml(p: PageSpec): string
  {
    PageHead(p) + PageBody(p)
  }

  /** The document's `<title>` is the escaped title. */
  lemma PageHtmlShowsTitle(p: PageSpec)
    ensures Contains(PageHtml(p), TitleElement(p.title))
  {
    HeadShowsTitle(p);
    ContainsBefore(PageHead(p), PageBody(p), TitleElement(p.title));
  }

  lemma HeadShowsTitle(p: PageSpec)
    ensures Contains(PageHead(p), TitleElement(p.title))
  {
    ContainsBetween(HeadOpen, TitleElement(p.title), HeadMeta(p));
  }

  /** A needle in `<main>` is in the page. */
  lemma MainInPage(p: PageSpec, needle: string)
    requires Contains(PageMain(p), needle)
    ensures Contains(PageHtml(p), needle)
  {
    ContainsMiddle(BodyOpen, PageMain(p), PageFooter, needle);
    ContainsAfter(PageHead(p), PageBody(p), needle);
  }

  /** The card reports the number of words. */
  lemma PageHtmlShowsTotal(p: PageSpec)
    ensures Contains(PageHtml(p), TotalLine(|p.words|))
  {
    CardShowsTotal(p);
    ContainsBefore(PageCard(p), PageLists(p), TotalLine(|p.words|));
    MainInPage(p, TotalLine(|p.words|));
  }

  lemma CardShowsTotal(p: PageSpec)
    ensures Contains(PageCard(p), TotalLine(|p.words|))
  {
    ContainsBetween(CardTop(p), TotalLine(|p.words|), CardClose);
  }

  /** The page lists its words in the grid. */
  lemma PageHtmlShowsWords(p: PageSpec)
    ensures Contains(PageHtml(p), WordGrid(p.words))
  {
    ListsShowWords(p);
    ContainsAfter(PageCard(p), PageLists(p), WordGrid(p.words));
    MainInPage(p, WordGrid(p.words));
  }

  lemma ListsShowWords(p: PageSpec)
    ensures Contains(PageLists(p), WordGrid(p.words))
  {
    ContainsBetween(WordsHeading, WordGrid(p.words), RelatedList(p.related));
  }

  /** Each word has its own item in the grid, in the order of the list. */
  lemma WordGridShows(words: seq<string>, k: nat)
    requires k < |words|
    ensures Contains(WordGrid(words), WordItem(words[k]))
  {
    var items := Map(words, WordItem);
    ConcatContains(items, k);
    ContainsAfter(GridOpen, Concat(items), WordItem(words[k]));
    ContainsBefore(GridOpen + Concat(items), GridClose, WordItem(words[k]));
  }

  // ---------------------------------------------------------------------------
  // The hub page
  // ---------------------------------------------------------------------------

  const PrefixLabel: string := "\">Starting with "
  const SuffixLabel: string := "\">Ending in "

  /** One link of the "Starting letter" column; `at(-2)` throws on shorter paths. */
  function PrefixLink(p: string): string
    requires |p| >= 2
  {
    LinkOpen + p + PrefixLabel + [UpperChar(PrefixKey(p).value)] + LinkClose
  }

  /** One link of the "Common endings" column. */
  function SuffixLink(p: string): string
  {
    LinkOpen + p + SuffixLabel + UpperStr(SuffixKey(p)) + LinkClose
  }

  /** Every path is long enough for `at(-2)` to find a character. */
  predicate Keyed(pages: seq<string>) {
    forall k :: 0 <= k < |pages| ==> |pages[k]| >= 2
  }

  /** `prefixPages.map(...).join("")`. */
  function PrefixLinks(pages: seq<string>): string
    requires Keyed(pages)
  {
    if pages == [] then "" else PrefixLink(pages[0]) + PrefixLinks(pages[1..])
  }

  /** `suffixPages.map(...).join("")`. */
  function SuffixLinks(pages: seq<string>): string
  {
    if pages == [] then "" else SuffixLink(pages[0]) + SuffixLinks(pages[1..])
  }

  // The fixed markup of the hub page, in document order.
  const HubHead: string :=
    "<!doctype html>\n<html lang=\"en\"><head>\n  <meta charset=\"utf-8\" />\n"
    + "  <meta name=\"viewport\" content=\"width=device-width,initial-scale=1\" />\n"
    + "  <title>5-letter word lists | LetterPatternSolver</title>\n"
    + "  <meta name=\"description\" content=\""
    + "Browse curated 5-letter word lists by starting letter and common endings.\" />\n"
    + "  <link rel=\"canonical\" href=\"" + Site + HubUrl + "\" />\n"
    + "  <meta name=\"robots\" content=\"index,follow\" />\n  " + PageStyle + "\n</head>\n"
  const HubIntro: string :=
    "<main>\n  <h1>5-letter word lists</h1>\n"
    + "  <p>These curated pages target common searches (starting letters and popular endings). "
    + "For full pattern control, use the <a href=\"/\">solver</a>.</p>\n\n"
    + "  <div class=\"cols\">\n    <div class=\"card\">\n      <h2>Starting letter</h2>\n      <ul>"
  const HubTop: string := HubHead + "<body>\n" + SiteHeader + "\n" + HubIntro
  const HubMiddle: string :=
    "</ul>\n    </div>\n    <div class=\"card\">\n      <h2>Common endings</h2>\n      <ul>"
  const HubBottom: string :=
    "</ul>\n    </div>\n  </div>\n</main>\n"
    + "<footer><a href=\"/privacy/\">Privacy Policy</a></footer>\n</body></html>"

  /** The hub page: both link columns, in the order of the page lists. */
  function HubHtml(prefixPages: seq<string>, suffixPages: seq<string>): string
    requires Keyed(prefixPages)
  {
    HubTop + PrefixLinks(prefixPages) + HubMiddle + SuffixLinks(suffixPages) + HubBottom
  }

  /** A prefix page is listed under its own letter, upper-cased as in its title. */
  lemma PrefixLinkOfSlug(ch: char)
    ensures PrefixLink(SlugPrefix([ch]))
         == LinkOpen + SlugPrefix([ch]) + PrefixLabel + [UpperChar(ch)] + LinkClose
  {
    PrefixKeyOfSlug(ch);
  }

  /** A suffix page is listed under its own ending, upper-cased as in its title. */
  lemma SuffixLinkOfSlug(suf: string)
    requires '-' !in suf && '/' !in suf
    ensures SuffixLink(SlugSuffix(suf))
         == LinkOpen + SlugSuffix(suf) + SuffixLabel + UpperStr(suf) + LinkClose
  {
    SuffixKeyOfSlug(suf);
  }

  // ---------------------------------------------------------------------------
  // sitemap.xml
  // ---------------------------------------------------------------------------

  const StaticPaths: seq<string> := ["/", HubUrl, "/about/", "/privacy/", "/contact/"]
  const XmlDecl: string := "<?xml version=\"1.0\" encoding=\"UTF-8\"?>"
  const SitemapHost: string := "http://www.sitemaps.org"
  const SitemapSchema: string := "/schemas/sitemap/0.9"
  const SitemapNamespace: string := SitemapHost + SitemapSchema
  const UrlsetOpen: string := "<urlset xmlns=\"" + SitemapNamespace + "\">"
  const UrlsetClose: string := "</urlset>"

  /** The fixed paths are distinct, one line each and at most as long as the hub's. */
  lemma StaticPathsFacts()
    ensures NoDuplicates(StaticPaths)
    ensures forall k :: 0 <= k < |StaticPaths| ==> |StaticPaths[k]| <= |HubUrl| && '\n' !in StaticPaths[k]
  {
    assert '\n' !in HubUrl;
  }

  /** Every path the sitemap lists: the fixed pages, then the prefix pages, then the suffix pages. */
  function SitemapUrls(prefixPages: seq<string>, suffixPages: seq<string>): seq<string>
  {
    StaticPaths + prefixPages + suffixPages
  }

  /**
   * The sitemap lists every path once, provided the page paths have no
   * repeats, no prefix page shares a path with a suffix page, and every page
   * path is longer than the longest fixed path.
   */
  lemma SitemapUrlsDistinct(prefixPages: seq<string>, suffixPages: seq<string>)
    requires NoDuplicates(prefixPages) && NoDuplicates(suffixPages)
    requires forall i, j :: 0 <= i < |prefixPages| && 0 <= j < |suffixPages| ==> prefixPages[i] != suffixPages[j]
    requires AllLonger(prefixPages, |HubUrl|) && AllLonger(suffixPages, |HubUrl|)
    ensures NoDuplicates(SitemapUrls(prefixPages, suffixPages))
  {
    StaticPathsFacts();
    NoDuplicatesBands(StaticPaths, prefixPages, suffixPages, |HubUrl|);
  }

  /** The sitemap's paths are one line each when the page paths are, and there are at least five. */
  lemma SitemapUrlsSingleLine(prefixPages: seq<string>, suffixPages: seq<string>)
    requires NoneHolds(prefixPages, '\n') && NoneHolds(suffixPages, '\n')
    ensures |SitemapUrls(prefixPages, suffixPages)| >= 5
    ensures NoneHolds(SitemapUrls(prefixPages, suffixPages), '\n')
  {
    StaticPathsFacts();
    NoneHoldsAppend(StaticPaths, prefixPages, '\n');
    NoneHoldsAppend(StaticPaths + prefixPages, suffixPages, '\n');
  }

  const LocOpen: string := "  <url><loc>"
  const LocClose: string := "</loc></url>"

  function UrlLine(u: string): string
  {
    LocOpen + Site + u + LocClose
  }

  function SitemapXml(urls: seq<string>): string
  {
    XmlDecl + "\n" + UrlsetOpen + "\n" + Join(Map(urls, UrlLine), "\n") + "\n" + UrlsetClose + "\n"
  }

  /**
   * Read line by line, the sitemap is its two header lines, one
   * `<url><loc>` line per path in order, the closing tag and the empty
   * remainder after the final newline.
   */
  lemma SitemapLines(urls: seq<string>)
    requires |urls| >= 1
    requires forall k :: 0 <= k < |urls| ==> '\n' !in urls[k]
    ensures SplitOn(SitemapXml(urls), '\n')
         == [XmlDecl, UrlsetOpen] + Map(urls, UrlLine) + [UrlsetClose, ""]
  {
    var body := Map(urls, UrlLine);
    var lines := [XmlDecl, UrlsetOpen] + body + [UrlsetClose, ""];
    JoinFramed(XmlDecl, UrlsetOpen, body, UrlsetClose, "\n");
    UrlLinesSingle(urls);
    HeaderLinesSingle();
    FramedLinesSingle(XmlDecl, UrlsetOpen, body, UrlsetClose, '\n');
    SplitOnJoin(lines, '\n');
  }

  lemma FramedLinesSingle(h1: string, h2: string, body: seq<string>, t: string, d: char)
    requires d !in h1 && d !in h2 && d !in t
    requires forall k :: 0 <= k < |body| ==> d !in body[k]
    ensures forall k :: 0 <= k < |[h1, h2] + body + [t, ""]| ==> d !in ([h1, h2] + body + [t, ""])[k]
  {
    var lines := [h1, h2] + body + [t, ""];
    forall k | 0 <= k < |lines| ensures d !in lines[k] {
      if 2 <= k < 2 + |body| {
        assert lines[k] == body[k - 2];
      }
    }
  }

  lemma HeaderLinesSingle()
    ensures '\n' !in XmlDecl && '\n' !in UrlsetOpen && '\n' !in UrlsetClose
  {
    NamespaceSingle();
  }

  lemma NamespaceSingle()
    ensures '\n' !in SitemapNamespace
  {
    assert '\n' !in SitemapHost;
    assert '\n' !in SitemapSchema;
  }

  lemma UrlPartsSingle()
    ensures '\n' !in LocOpen && '\n' !in Site && '\n' !in LocClose
  {
  }

  lemma UrlLinesSingle(urls: seq<string>)
    requires forall k :: 0 <= k < |urls| ==> '\n' !in urls[k]
    ensures forall k :: 0 <= k < |urls| ==> '\n' !in Map(urls, UrlLine)[k]
  {
    UrlPartsSingle();
    forall k | 0 <= k < |urls| ensures '\n' !in UrlLine(urls[k]) {
    }
  }
}
