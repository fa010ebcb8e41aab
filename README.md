# Word-list site builder, modelled in Dafny

`scripts/build-set.mjs` is a build script for a static site.
- It reads a list of answer words and keeps the five-letter ones.
- For every letter a–z that starts at least 15 of them, it writes a list page. It does the same for each of nine fixed endings that end at least 30 of them.
- It then writes a hub page linking every list page, and a `sitemap.xml` naming the fixed pages and the list pages.

This project models that pipeline and proves properties of the model. The model consists of:

- **Escape** (`escape.dfy`): `escapeHtml` is the five chained `replaceAll` calls. The module adds a per-character reference definition, the safety property of the output, and a decoder that inverts it.
- **WordList** (`wordlist.dfy`): the string part of `readWordList`, meaning trim, split on whitespace runs, trim and lower-case each piece, and drop the empty ones. `Words` is an independent scanning definition of the same tokens.
- **Sorting** (`sorting.dfy`): `Array.prototype.sort()` on strings, as an insertion sort by character code. The module proves that the sorted permutation is unique.
- **Slugs** (`slugs.dfy`): `slugPrefix` and `slugSuffix`, and the directory name that `writePageDir` strips out of a path. It also covers the hub's recovery of the letter (`at(-2)`) or the ending (`split("-").at(-1)` with the slashes removed) from a path.
- **Render** (`render.dfy`): `pageHtml`, the hub page, the sitemap URL list and `sitemap.xml`. Fixed markup is a set of named constants.
- **Build** (`build.dfy`): the script's top level, lifted into the method `BuildSite`.
  - It takes the answers file's text.
  - It runs the two loops as `while` loops, each appending to its page list and its list of written files.
  - It returns the prefix and suffix page lists, every file it would write (path plus what the contents are rendered from) in write order, the sitemap URL list and the sitemap text.
  - Each loop is proved against a back-recursive specification function. Separate lemmas tie those functions to a filter-then-map form, and the ordering, threshold and sitemap properties are proved about that form.
- **Text** (`text.dfy`): string and sequence primitives. These are JavaScript's `trim`, `split`, `join`, `replaceAll`, `startsWith`, `endsWith` and `at`, plus `map` and `filter`.

## Model

| member | source | states |
|---|---|---|
| Escape.EscapeHtmlIsEscapeEach | scripts/build-set.mjs:86-93 | The five chained replacements, `&` first, are the same as replacing every character by its own entity in one pass. No entity introduced by a later step is escaped again. |
| Escape.EscapeHtmlAppend | scripts/build-set.mjs:86-93 | Escaping a concatenation is the concatenation of the escaped parts. |
| Escape.EscapeHtmlChar | scripts/build-set.mjs:88-92 | A one-character string escapes to that character's entity, or to itself when it is not a markup character. |
| Escape.EscapeChar | scripts/build-set.mjs:88-92 | A character is changed exactly when it is one of `& < > " '`. |
| Escape.EscapeHtmlSafe | scripts/build-set.mjs:86-93 | The output holds no `<`, `>`, `"` or `'`, and every `&` in it begins one of `&amp;`, `&lt;`, `&gt;`, `&quot;`, `&#039;`. |
| Escape.UnescapeEscape | scripts/build-set.mjs:86-93 | Replacing the five entities back, with `&amp;` last, recovers the input exactly. |
| WordList.ReadWordListIsWords | scripts/build-set.mjs:18-19 | The trim/split/map/filter pipeline gives exactly the lower-cased maximal whitespace-free runs of the text, left to right. |
| WordList.ReadWordListTokens | scripts/build-set.mjs:19 | Every token is non-empty, free of whitespace and free of upper-case letters. The tokens concatenated are the text with its whitespace removed, lower-cased, so they keep the input's order and miss nothing. |
| WordList.WordsTrim | scripts/build-set.mjs:18 | Trimming the text first does not change its tokens. |
| WordList.PipelineIsWords | scripts/build-set.mjs:19 | On any string, splitting on whitespace runs, trimming and lower-casing each piece, and dropping empty pieces gives the reference tokens. |
| Sorting.Sort | scripts/build-set.mjs:114 | The result of `sort()` is sorted by character code and is a permutation of its input. |
| Sorting.SortedUnique | scripts/build-set.mjs:114 | Two sorted permutations of the same multiset are equal, so any correct sort gives this result. |
| Sorting.Insert | scripts/build-set.mjs:114 | Inserting into a sorted array keeps it sorted and adds exactly one element. |
| Sorting.LessEqTotal | scripts/build-set.mjs:114 | Two strings are always comparable in code-unit order. |
| Sorting.LessEqTrans | scripts/build-set.mjs:114 | Code-unit order is transitive. |
| Sorting.LessEqAntisymmetric | scripts/build-set.mjs:114 | Two strings that are each at most the other are equal. |
| Slugs.PrefixKeyOfSlug | scripts/build-set.mjs:95-97 | `at(-2)` of `slugPrefix(ch)` is `ch`. |
| Slugs.SuffixKeyOfSlug | scripts/build-set.mjs:99-101 | For an ending without `-` or `/`, the last `-`-separated piece of `slugSuffix(suf)` with its slashes removed is `suf`. |
| Slugs.PageDirOfWrapped | scripts/build-set.mjs:104 | Stripping one leading and one trailing `/` from `/d/` gives `d`. |
| Slugs.PageDirOfBare | scripts/build-set.mjs:104 | A path with no slash at either end is left unchanged. |
| Slugs.PageDirOfSlugPrefix | scripts/build-set.mjs:95-97 | A prefix page is written into the directory `5-letter-words-starting-with-<ch>`. |
| Slugs.PageDirOfSlugSuffix | scripts/build-set.mjs:99-101 | A suffix page is written into the directory `5-letter-words-ending-in-<suf>`. |
| Slugs.SlugPrefixInjective | scripts/build-set.mjs:95-97 | Different letters give different paths. |
| Slugs.SlugSuffixInjective | scripts/build-set.mjs:99-101 | Different endings give different paths. |
| Slugs.SlugsDisjoint | scripts/build-set.mjs:95-101 | No prefix path equals a suffix path. |
| Render.ParseNatToString | scripts/build-set.mjs:67 | The decimal rendering of the word count reads back as the count. |
| Render.PageHtmlShowsTitle | scripts/build-set.mjs:36 | The page has a `<title>` element holding the escaped title. |
| Render.PageHtmlShowsTotal | scripts/build-set.mjs:67 | The page contains the line `<strong>Total:</strong> n`, where n is the number of words it lists. |
| Render.PageHtmlShowsWords | scripts/build-set.mjs:70-71 | The page contains the grid with one `<li>` per word, in order. |
| Render.WordGridShows | scripts/build-set.mjs:28 | Every word has its own `<li>` item in the grid. |
| Render.PrefixLinkOfSlug | scripts/build-set.mjs:166-168 | The hub links each prefix page under its own letter, upper-cased. |
| Render.SuffixLinkOfSlug | scripts/build-set.mjs:169-171 | The hub links each suffix page under its own ending, upper-cased, when the ending holds no `-` or `/`. |
| Render.StaticPathsFacts | scripts/build-set.mjs:218-223 | The five fixed paths are distinct and single-line, and none is longer than the hub path. |
| Render.SitemapUrlsDistinct | scripts/build-set.mjs:218-226 | The URL list has no repeats when the page paths have none, are disjoint, and are longer than every fixed path. |
| Render.SitemapUrlsSingleLine | scripts/build-set.mjs:218-226 | The URL list has at least five entries, and none holds a newline when no page path does. |
| Render.SitemapLines | scripts/build-set.mjs:228-232 | Split at newlines, the sitemap reads as the XML declaration, the `<urlset>` line, one `<url><loc>` line per URL in order, `</urlset>`, and the empty rest after the final newline. |
| Build.AnswersMember | scripts/build-set.mjs:109 | A word is an answer exactly when it is a token of the file and has five characters. |
| Build.AnswersAreTokens | scripts/build-set.mjs:109 | Every answer is a well-formed token of length 5. |
| Build.PrefixGroupIs | scripts/build-set.mjs:114 | A letter's group is sorted, and holds each answer starting with that letter exactly as often as the answers do, and nothing else. |
| Build.SuffixGroupIs | scripts/build-set.mjs:141 | An ending's group is sorted, and holds each answer ending in it exactly as often as the answers do, and nothing else. |
| Build.PrefixGroupUnique | scripts/build-set.mjs:114 | The group is the only sorted arrangement of the filtered answers. |
| Build.PrefixGroupWords | scripts/build-set.mjs:109-114 | Every word of a letter's group has length 5, is a token of the file and starts with the letter. |
| Build.SuffixGroupWords | scripts/build-set.mjs:141 | Every word of an ending's group has length 5, is a token of the file and ends in the ending. |
| Build.PrefixLoop | scripts/build-set.mjs:112-135 | The letter loop pushes a letter's path, and writes its page, exactly when its sorted group has at least 15 words, in the order of the letters. |
| Build.SuffixLoop | scripts/build-set.mjs:138-162 | The ending loop pushes an ending's path, and writes its page, exactly when its sorted group has at least 30 words, in the order of the list. |
| Build.PrefixPushedIsFilterMap | scripts/build-set.mjs:113-118 | The letter loop's output is the map, over the kept letters, of their paths and files. |
| Build.SuffixPushedIsFilterMap | scripts/build-set.mjs:140-145 | The ending loop's output is the map, over the kept endings, of their paths and files. |
| Build.BuildSite | scripts/build-set.mjs:109-233 | The build returns both page lists. It writes the letter pages, then the ending pages, then the hub page linking both lists. The URL list is the fixed paths followed by the two page lists, and the sitemap is the rendering of that list. |
| Build.PrefixPageEmitted | scripts/build-set.mjs:113-118 | A letter's path is in `prefixPages` exactly when it is a letter a–z with at least 15 answers. |
| Build.SuffixPageEmitted | scripts/build-set.mjs:138-145 | An ending's path is in `suffixPages` exactly when it is one of the nine endings with at least 30 answers. |
| Build.PrefixPagesOrdered | scripts/build-set.mjs:113-118 | The k-th prefix path is the path of the k-th kept letter. The hub reads that letter back from it. The letters strictly increase, and no path repeats. |
| Build.SuffixPagesOrdered | scripts/build-set.mjs:138-145 | The k-th suffix path is the path of the k-th kept ending, in list order. The hub reads that ending back from it, and no path repeats. |
| Build.PrefixFileShows | scripts/build-set.mjs:120-134 | A letter's page shows its title, `Total:` equal to its group's length, and the group's words. |
| Build.SuffixFileShows | scripts/build-set.mjs:147-161 | An ending's page shows its title, `Total:` equal to its group's length, and the group's words. |
| Build.PagesDisjoint | scripts/build-set.mjs:95-101 | No emitted prefix path equals an emitted suffix path. |
| Build.PrefixPagesPlain | scripts/build-set.mjs:117-118 | Prefix paths are single-line and longer than every fixed path. |
| Build.SuffixPagesPlain | scripts/build-set.mjs:144-145 | Suffix paths are single-line and longer than every fixed path. |
| Build.SitemapOfBuild | scripts/build-set.mjs:218-232 | The build's sitemap names every path exactly once, and has one `<url><loc>` line per path in order, framed by the header and the closing tag. |

## Left out

- File I/O, `path.join`, `path.dirname`, `ensureDir` and `console.log` are not modelled (lines 1, 9, 12-14, 18, 22-25, 105, 233, 235). `BuildSite` takes the answers file's text as a parameter. It returns what would be written instead of writing it.
- File contents are given by what they are rendered from. A list page's file holds its `pageHtml` argument, and the hub's file holds the two page lists. `Build.Html` renders either one.
- The CSS rules of the two `<style>` blocks (lines 40-52 and 181-189) are not reproduced. Both pages carry the same placeholder constant `PageStyle`, although the real sheets differ. The rest of the fixed markup is kept, including its line breaks.
- Case conversion and whitespace are ASCII only. `toLowerCase` and `toUpperCase` map only `A`–`Z` and `a`–`z`. The JavaScript `\s` class is modelled as space, tab, newline, vertical tab, form feed and carriage return, without the Unicode spaces.
- Strings are sequences of characters. `length` counts characters, and `sort()` compares characters by their code, not UTF-16 code units.
- Render.PrefixLink and Render.HubHtml require every prefix path to have at least two characters, where `at(-2)` would otherwise give `undefined` to `toUpperCase()` and throw. Every path the build passes meets this, as `BuildSite` ensures.
- Page escaping follows the code, not the design notes. The notes describe escaping all interpolated text. The code escapes only `title`, `description` and `h1` (lines 36, 37, 64). The words, the introduction, the canonical URL and the related links go in raw, and the model does the same.
