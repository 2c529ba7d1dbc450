# uv-docs-mcp core, modelled in Dafny

This project models the core logic of `uv-docs-mcp`, an MCP server that serves
the uv documentation. The model covers three parts.

- **The documentation extractor and the text normalisers** (`src/uv_docs/cache.py`).
  - `clean_text` and `clean_code`.
  - The sibling walk that turns the CLI, settings and resolver reference
    pages into elements with titled subsections.
  - The resolver description scan.
  - The version oracle with its docs-page fallback.
  - The cache manager's reads, writes, `is_cache_valid`, `clear_cache` and
    `initialize`, over an abstract store.
- **The relevance ranker of the `search-documentation` tool**, and the tool
  dispatch (`src/uv_docs/tools.py`).
  - Corpus building.
  - The three-pass score, counted in quarter points.
  - The `> 0.25` threshold.
  - The reverse sort on `(score, text)` tuples and the top-3 cut.
- **The `update-cache` tool** (`src/uv_docs/tools/cache.py`). It skips when
  the cache is valid and the refresh is not forced. Otherwise it writes the
  version record first, then fetches and writes each section best-effort,
  with a per-section report.

Files and modules:

- `wrappers.dfy` (`Wrappers`): `Option` and `Result`.
- `text.dfy` (`Text`): Python's whitespace set, `split`, `join`, `strip`,
  `lower` and substring test. It also holds `clean_text` and `clean_code`.
- `document.dfy` (`Document`): the cached document model: subsection,
  element and section payload.
- `extractor.dfy` (`Extractor`): pages as sequences of abstract sibling nodes,
  and the walk as a fold. The fold is proved equal to a declarative
  reference definition.
- `store.dfy` (`CacheStore`): the cache directory as a map from cache file to
  contents, the version oracle, `is_cache_valid`, `clear_cache` and `initialize`.
- `refresh.dfy` (`CacheTool`): `call_cache_tool` and the refresh.
- `ordering.dfy` (`Ordering`): Python's `str` order and tuple order, and an
  insertion sort proved to produce the unique sorted permutation.
- `tools.dfy` (`Tools`): corpus, relevance, ranking, search reply, `call_tool`.

Collaborators the model cannot see are parameters or inputs:

- Unicode NFKC normalisation is a function parameter `nfkc`.
- `difflib.get_close_matches(kw, [name, section], n=1, cutoff=0.6)` being
  non-empty is a predicate parameter `close`.
- HTTP replies are data:
  - `PypiReply` and `DocsReply` for the version;
  - a `Result<Page, string>` per section page, where `Failure` is a fetch
    that raised;
  - a `WriteOutcome` per file write.
- `Page` is the parsed `.md-content` container as a sequence of nodes. Each
  node carries the `get_text(strip=True)` text that the source reads from it.

Behaviour worth noting:

- `fetch_current_version` (`src/uv_docs/cache.py:112-136`) raises on a
  network error or on a 200 reply from PyPI that is not JSON; only a reply
  without `info.version` falls back to the docs page.
  `CacheStore.CurrentVersion` returns `Failure` for the raising cases.
- `initialize` (`src/uv_docs/cache.py:36-58`) runs all sections inside one
  `try`, so the first failing section abandons the rest. The `unknown`
  version is written only when no version file exists after the failure.
- The refresh (`src/uv_docs/tools.py:50-98`) writes nothing when the version
  fetch raises and replies "Failed to update cache".
- Search ties are not kept in discovery order: `results.sort(reverse=True)`
  (`src/uv_docs/tools.py:198`) on `(score, text)` tuples orders equal
  scores by the result text, descending.
- A blank query is not an error (`src/uv_docs/tools.py:186-203`): it yields
  "No matching resources found.". A missing `query` argument raises
  `ValueError` (`src/uv_docs/tools.py:101-102`), and a `query` that is not a
  string raises when `split()` is called on it (`src/uv_docs/tools.py:186`).
- `clear_cache` (`src/uv_docs/cache.py:98-101`) deletes every `*.json` file,
  the version record included.
- Same-titled General buckets are never merged: at most one General bucket
  exists per element (`src/uv_docs/cache.py:188-232`). Character
  substitution (`src/uv_docs/cache.py:142-150`) covers U+2013 but no other
  dash.

## Model

| member | source | states |
|---|---|---|
| Text.WordsShape | src/uv_docs/cache.py:154 | every token of `split()` is a non-empty run without whitespace, and there are no tokens exactly when the text is all whitespace |
| Text.JoinWords | src/uv_docs/cache.py:154 | joining the tokens with single spaces and splitting again gives back the same tokens |
| Text.StripShape | src/uv_docs/cache.py:155 | `strip()` returns the middle slice of its input with whitespace only removed at the two ends; the result does not start or end with whitespace; already-trimmed text is unchanged |
| Text.SubstituteChar | src/uv_docs/cache.py:142-153 | curly double quotes become `"`, curly single quotes `'`, U+2013 `-`, newline and tab a space; no rewritten character survives; other characters are kept |
| Text.CleanTextShape | src/uv_docs/cache.py:138-155 | `clean_text` output has no newline or tab, no whitespace at either end and no double space, and none of the rewritten characters; its tokens are exactly the tokens of the substituted NFKC text, and it is empty exactly when that text is all whitespace |
| Text.CleanText | src/uv_docs/cache.py:138-155 | `clean_text` as written: NFKC, the replacement table, `' '.join(split())`, `strip()`; what its result is stated by Text.CleanTextShape |
| Text.ExpandTabsShape | src/uv_docs/cache.py:160 | after `replace('\t', '    ')` no tab remains, the length grows by three per tab, the newline count is unchanged, and text without tabs is unchanged |
| Text.ExpandTabsAppend | src/uv_docs/cache.py:160 | expanding a concatenation expands each part in place |
| Text.ExpandTabsChar | src/uv_docs/cache.py:160 | a tab becomes four spaces and every other character stays itself; with Text.ExpandTabsAppend this determines the expansion of every text |
| Text.CleanCodeShape | src/uv_docs/cache.py:157-161 | `clean_code` output holds no tab and is the tab-expanded text with only the surrounding whitespace removed, so interior newlines and indentation are kept |
| Text.CleanCode | src/uv_docs/cache.py:157-161 | `clean_code` as written: NFKC, tab expansion, `strip()`; what its result is stated by Text.CleanCodeShape |
| Text.LastWord | src/uv_docs/cache.py:134 | for text that is not blank, `split()[-1]` equals the token found by scanning back from the right end |
| Text.PaddedContains | src/uv_docs/tools.py:128-132 | a whole-word occurrence `" kw " in " text "` implies `kw in text`, so the 0.5 branch is the only other way to score in the second pass |
| Extractor.DlLines | src/uv_docs/cache.py:208-212 | a dl contributes one `"term: def"` line per zipped dt/dd pair, so the shorter list bounds the count, with both sides cleaned |
| Extractor.Step | src/uv_docs/cache.py:188-212 | one sibling of the walk: an h3/h4 flushes the General bucket and opens a subsection, a prose node appends its cleaned line to the open subsection or to General, a dl adds its option lines (the settings and resolver walks, src/uv_docs/cache.py:263-289 and src/uv_docs/cache.py:352-378, have their own branches); its overall effect is stated by Extractor.WalkIsReference |
| Extractor.Walk | src/uv_docs/cache.py:186-214 | the `while` loop over the siblings after an h2, one Step each; its result is stated by Extractor.WalkIsReference |
| Extractor.FilterNonEmpty | src/uv_docs/cache.py:225 | every kept subsection has content, and a subsection is among the kept ones exactly when it is in the list and has content; the list never grows, and is unchanged when every subsection has content |
| Extractor.FilterAppend | src/uv_docs/cache.py:225 | filtering a concatenation filters each part and concatenates the results |
| Extractor.FilterSingleton | src/uv_docs/cache.py:225 | a single subsection is kept exactly when it has content; with Extractor.FilterAppend this determines the filter: the non-empty subsections, in their order |
| Extractor.WalkIsReference | src/uv_docs/cache.py:181-225 | the sibling-walk state machine (General bucket, current heading, Options bucket, final filter) yields exactly: the General lines before the first h3/h4, then one subsection per h3/h4 with the lines up to the next heading, then Options, with empty subsections dropped |
| Extractor.HeadedTitles | src/uv_docs/cache.py:188-199 | there is one heading subsection per h3/h4, in order, titled with the cleaned heading text; same-titled headings are never merged |
| Extractor.OptionsOnlyOnCli | src/uv_docs/cache.py:261-291 | the settings and resolver walks have no dl branch, so they never produce Options lines |
| Extractor.LinesBeforeNode | src/uv_docs/cache.py:200-206 | before the first h3/h4, each prose node appends its line to the General bucket at its own position |
| Extractor.HighlightLine | src/uv_docs/cache.py:281-289 | on the settings and resolver pages, a highlight div adds exactly one `"Example:\n" + clean_code(pre)` line at its position when it holds a pre, and nothing otherwise |
| Extractor.ContentLine | src/uv_docs/cache.py:201-206 | the line a p, pre, ul, ol or highlight node contributes, per page, as written; stated by Extractor.LinesBeforeNode and Extractor.HighlightLine |
| Extractor.DocumentationShape | src/uv_docs/cache.py:188-225 | no emitted subsection is empty; a General subsection, if present, is first and holds exactly the lines before the first heading; Options, if present, is last and aggregates every dt/dd pair of the element; in between come the non-empty heading subsections |
| Extractor.Finish | src/uv_docs/cache.py:216-225 | appending General and Options and dropping empty subsections, as written; stated by Extractor.DocumentationShape and Extractor.WalkIsReference |
| Extractor.DescriptionStopsAtHeading | src/uv_docs/cache.py:333-344 | the resolver description scan ignores everything from the first h2/h3/h4 on |
| Extractor.DescriptionFrom | src/uv_docs/cache.py:333-344 | the resolver description scan as written; stated by Extractor.DescriptionStopsAtHeading |
| Extractor.SegmentFrom | src/uv_docs/cache.py:186-187 | the siblings an element's walk consumes contain no h2 |
| Extractor.SegmentLocal | src/uv_docs/cache.py:186-187 | the walk from an h2 takes exactly the siblings up to the next h2, whatever precedes the h2 or follows that next h2 |
| Extractor.ElementLocal | src/uv_docs/cache.py:175-231 | an element depends only on its h2 and the siblings up to the next h2: nodes before it and from the next h2 on do not affect it |
| Extractor.ElementAtIsOf | src/uv_docs/cache.py:175-231 | the element the source loop builds at an h2 (name, description, walked documentation) equals the one the reference description gives from that h2 and the siblings up to the next h2 |
| Extractor.ElementAt | src/uv_docs/cache.py:175-231 | the element the source loop builds at an h2, as written; stated by Extractor.ElementAtIsOf |
| Extractor.H2Positions | src/uv_docs/cache.py:175 | the h2 positions are listed in strictly increasing document order, and every h2 from the start position on is listed |
| Extractor.H2Segment | src/uv_docs/cache.py:186-187 | the siblings the walk of the m-th h2 visits are exactly the nodes strictly between it and the next h2, or the end of the container |
| Extractor.ElementIsOwnSegment | src/uv_docs/cache.py:175-231 | the m-th element built is the one the reference description gives from the m-th h2 and the nodes strictly between it and the next h2 |
| Extractor.Elements | src/uv_docs/cache.py:175-231 | `for section in content.find_all('h2')` as written: one element per h2 position; what each element is stated by Extractor.ExtractPageShape |
| Extractor.ExtractPage | src/uv_docs/cache.py:169-237 | the CLI fetch as written, and alike the settings (src/uv_docs/cache.py:239-308) and resolver (src/uv_docs/cache.py:310-398) fetches; its payload is stated by Extractor.ExtractPageShape |
| Extractor.ExtractPageShape | src/uv_docs/cache.py:169-237 | a page without a content container gives `{}`; a resolver page gives `{}` exactly when it has no h2 (src/uv_docs/cache.py:324-327); otherwise the payload names the section and holds one element per h2, in document order, named after that h2 and equal to the element the reference description builds from the nodes strictly between that h2 and the next one, so nothing outside that stretch affects it |
| Extractor.PageElementIsOf | src/uv_docs/cache.py:186-187 | the element the reference builds from the nodes strictly between the m-th h2 and the next one is the element of the segment the walk of that h2 visits |
| CacheStore.StemInjective | src/uv_docs/cache.py:76-78 | distinct cache files have distinct file names |
| CacheStore.ReadFile | src/uv_docs/cache.py:60-69 | a missing or unparsable cache file reads as `{}`; otherwise the stored JSON is returned (get_cached_section, src/uv_docs/cache.py:80-90, alike) |
| CacheStore.Write | src/uv_docs/cache.py:71-74 | after a completed write the file reads back as the written JSON; a write that raised after truncating reads as `{}`; one that raised before opening changes nothing; no other file changes (update_section, src/uv_docs/cache.py:92-96, alike) |
| CacheStore.Clear | src/uv_docs/cache.py:98-101 | after `clear_cache` every file reads as `{}`, the version record is gone, and the cache is never valid |
| CacheStore.FirstMention | src/uv_docs/cache.py:129-132 | the scan picks the first element text whose lower-cased form contains `version`, or none when no text does |
| CacheStore.MentionNotBlank | src/uv_docs/cache.py:130-134 | a text that mentions `version` is not blank, so `split()[-1]` is defined on it |
| CacheStore.FallbackVersionIsLastToken | src/uv_docs/cache.py:128-136 | the fallback version is the last whitespace token of the first text mentioning the version, when that text contains a space; it is `unknown` when no text mentions it or that text has no space |
| CacheStore.FallbackVersion | src/uv_docs/cache.py:126-136 | the docs-page fallback as written; its result is stated by CacheStore.FallbackVersionIsLastToken |
| CacheStore.CurrentVersion | src/uv_docs/cache.py:112-136 | a 200 PyPI reply with `info.version` gives that version; a network error, or a 200 reply whose body is not JSON, raises; any other reply falls back to the docs page, which raises when unreachable |
| CacheStore.IsCacheValid | src/uv_docs/cache.py:103-110 | the cache is valid exactly when the version fetch succeeds and the stored file is the version record holding that same version; a missing or corrupt record, or a fetch that raises, gives false |
| CacheStore.VersionField | src/uv_docs/cache.py:108 | `.get('version')` on a cache file, as written; stated by CacheStore.IsCacheValid |
| CacheStore.SectionTurn | src/uv_docs/cache.py:50-51 | one section turn of either section loop: the file of that section ends up holding the extracted payload after a completed write, an unparsable file after a write that truncated and raised, and otherwise what it held before; no other file changes |
| CacheStore.WriteSections | src/uv_docs/cache.py:49-51 | sections are fetched and written in order until one raises; every section before it reads back its extracted payload; the failing section is left as it was, except that a write which raised after truncating leaves a file that no longer parses; every later section is left as it was; the version record is not touched |
| CacheStore.Initialize | src/uv_docs/cache.py:34-58 | an existing version record means nothing is done; otherwise the version, then each section, is written, and the first exception abandons the rest; after an exception, `unknown` is written exactly when no version file exists at that point, that is when the version fetch raised or the version write raised before touching the file; a version write that truncated leaves an unparsable version file and no `unknown` record; only the `unknown` write can escape, and with no escape a version file always exists afterwards; the failing section is left as it was, or unparsable after a truncating write |
| CacheTool.SectionActions | src/uv_docs/tools/cache.py:64-68 | the section loop never writes the version record and fetches only the sections it has reached |
| CacheTool.SectionStep | src/uv_docs/tools/cache.py:65-73 | one section turn: a failed fetch leaves the store alone and reports `Failed to update`; a fetched section is written and reported with its element count if the write completes, and reported as failed if the write raises, leaving the file as it was or, after truncation, unparsable; no other file changes |
| CacheTool.ExpectedReport | src/uv_docs/tools/cache.py:66-73 | the report line of one section: its element count after a completed write, `Failed to update` with the error of the raising fetch or write |
| CacheTool.ReportLine | src/uv_docs/tools/cache.py:69-73 | the text of one report line, as written; which line each section gets is stated by CacheTool.ExpectedReport and CacheTool.RefreshSections |
| CacheTool.RefreshSections | src/uv_docs/tools/cache.py:64-73 | every section gets one report line, in the order cli, settings, resolver; a failing section does not stop later ones; each completed write reads back the extracted payload; a truncating failed write leaves an unparsable file, and any other failure leaves the file as it was; the version record is not touched |
| CacheTool.ExpectedReply | src/uv_docs/tools/cache.py:43-90 | the refresh reply stated without its steps, the reference that CacheTool.Refresh is proved to meet |
| CacheTool.Refresh | src/uv_docs/tools/cache.py:39-90 | the reply equals the step-free reference `ExpectedReply`, and the store satisfies `RefreshEffect`: not forced and valid gives "up to date" with nothing written; a raising version fetch gives one failure message with nothing written; a raising version write gives one failure message with no section fetched or written; otherwise the version record is written first, then each section, with one report per section carrying the element count (0 without `elements`) or the error |
| CacheTool.CallCacheTool | src/uv_docs/tools/cache.py:28-91 | any name other than `update-cache` raises `Unknown cache tool` and changes nothing; `update-cache` answers with the rendered reference reply of the refresh, forced when the `force` argument is truthy, and leaves the store the refresh leaves; a forced refresh never answers "up to date" |
| CacheTool.Render | src/uv_docs/tools/cache.py:44-90 | the three reply texts as written; that they cannot be confused is stated by CacheTool.RenderDistinct |
| CacheTool.RenderDistinct | src/uv_docs/tools/cache.py:44-90 | replies of different kinds (up to date, updated, failed) render to different texts, and two failures with different errors render differently |
| CacheTool.RenderSignature | src/uv_docs/tools/cache.py:44-90 | the up-to-date text starts `Cache i`, the update text `Cache u`, the failure text `F` |
| Ordering.LexLeqTotal | src/uv_docs/tools.py:198 | Python's string order is total |
| Ordering.LexLeqAntisym | src/uv_docs/tools.py:198 | Python's string order is antisymmetric |
| Ordering.LexLeqTrans | src/uv_docs/tools.py:198 | Python's string order is transitive |
| Ordering.Insert | src/uv_docs/tools.py:198 | inserting into a sorted list keeps it sorted in reverse tuple order and adds exactly that element |
| Ordering.SortDesc | src/uv_docs/tools.py:198 | `sort(reverse=True)` on `(score, text)` gives a permutation sorted by score descending, then text descending |
| Ordering.SortedUnique | src/uv_docs/tools.py:198 | two lists sorted this way that hold the same elements are equal |
| Tools.Titles | src/uv_docs/tools.py:155-161 | the title list holds every subsection title other than General and Options, and nothing else; one subsection gives its own title unless it is General or Options, and nothing otherwise |
| Tools.TitlesAppend | src/uv_docs/tools.py:155-161 | the titles of a concatenation are the titles of the parts, in order, so with the one-subsection case the list is fixed element by element |
| Tools.ContentTextFirstThree | src/uv_docs/tools.py:164-171 | only the first three content lines of each subsection reach the content text |
| Tools.ContentText | src/uv_docs/tools.py:165-171 | `content_text` as written; stated by Tools.ContentTextFirstThree |
| Tools.ResourcesOf | src/uv_docs/tools.py:151-183 | one resource per element, in order, with path `uv-docs://{section}/{lowercased name}` and search text `name description titles content` |
| Tools.MakeResource | src/uv_docs/tools.py:152-183 | one resource as written: path, name, description, search text, section, content text; its contents are stated by Tools.ResourcesOf |
| Tools.SectionResources | src/uv_docs/tools.py:149-151 | a cached section without `elements` (missing, corrupt, `{}`) contributes no resource |
| Tools.StoredResources | src/uv_docs/tools.py:145-151 | one cached section contributes as many resources as its file holds elements (none when the file is missing, corrupt or `{}`), all tagged with that section, and the i-th resource is the one built from the i-th stored element |
| Tools.Corpus | src/uv_docs/tools.py:145-151 | the corpus holds as many resources as the three cached sections hold elements, in three blocks: first exactly the resources of the cli file, then those of the settings file, then those of the resolver file, each block tagged with its section |
| Tools.Keywords | src/uv_docs/tools.py:186 | the keywords are the lower-cased whitespace tokens of the query |
| Tools.BlankQueryNoKeywords | src/uv_docs/tools.py:186 | a blank query has no keywords |
| Tools.SectionWeight | src/uv_docs/tools.py:114-117 | the section part of the first pass is exactly 3 when the keyword equals the section, exactly 2 when it occurs in the section without equalling it, and 0 exactly when it does not occur in it |
| Tools.NameWeight | src/uv_docs/tools.py:119-123 | the name part of the first pass is exactly 2 when the keyword equals the lower-cased name, exactly 1 when it occurs in the name without equalling it, and 0 exactly when it does not occur in it |
| Tools.FirstPassWeight | src/uv_docs/tools.py:112-123 | one keyword adds its section weight plus its name weight; so nothing exactly when it occurs in neither the section nor the name, and at most 5 |
| Tools.FirstPass | src/uv_docs/tools.py:111-123 | the first pass of one keyword is that keyword's weight; it adds nothing exactly when no keyword occurs in the section or the name, at least 3 when some keyword equals the section, at most 5 per keyword |
| Tools.FirstPassAppend | src/uv_docs/tools.py:111-123 | the first pass is a sum over the keywords: a concatenation of keyword lists scores the sum of the parts |
| Tools.SecondPassWeight | src/uv_docs/tools.py:126-132 | one keyword adds 0.75 exactly when it occurs as a whole word (`" kw " in " text "`), 0.5 exactly when it occurs but not as a whole word, and something exactly when it occurs in the search text |
| Tools.SecondPass | src/uv_docs/tools.py:125-132 | the second pass of one keyword is that keyword's weight; it adds nothing exactly when no keyword occurs in the search text; at most 0.75 per keyword |
| Tools.SecondPassAppend | src/uv_docs/tools.py:125-132 | the second pass is a sum over the keywords: a concatenation of keyword lists scores the sum of the parts |
| Tools.FuzzyPass | src/uv_docs/tools.py:134-139 | one keyword adds 0.25 when `get_close_matches` pairs it with the name or the section and nothing otherwise; the pass adds nothing exactly when no keyword is close, and 0.25 per keyword exactly when every keyword is close |
| Tools.FuzzyPassAppend | src/uv_docs/tools.py:134-139 | the fuzzy pass is a sum over the keywords: a concatenation of keyword lists scores the sum of the parts |
| Tools.ExactScore | src/uv_docs/tools.py:111-132 | the first two passes score nothing exactly when no keyword occurs in the section, the lower-cased name or the lower-cased search text |
| Tools.Relevance | src/uv_docs/tools.py:104-141 | the score is never below the first two passes; at 1.0 or more it is exactly theirs; below 1.0 it is theirs plus the fuzzy pass (0.25 per keyword close to the name or the section), so it rises exactly when some keyword is close and by 0.25 per keyword when all are; no keywords score 0; at most 5.75 per keyword; a keyword equal to the section puts the entry over the threshold |
| Tools.Scored | src/uv_docs/tools.py:189-195 | there are at most as many results as resources, every kept score is above 0.25, and one resource gives its `(score, text)` pair when it scores above 0.25 and nothing otherwise |
| Tools.ScoredAppend | src/uv_docs/tools.py:189-195 | the results of a concatenated corpus are the results of the parts, in order and with repetition, so with the one-resource case each resource contributes its pair exactly once |
| Tools.ScoredMembers | src/uv_docs/tools.py:189-195 | a `(score, text)` pair is among the results exactly when it belongs to some resource scoring above 0.25 |
| Tools.ScoredSound | src/uv_docs/tools.py:189-195 | every result pair is the `(score, text)` of some resource scoring above 0.25 |
| Tools.ScoredComplete | src/uv_docs/tools.py:189-195 | every resource scoring above 0.25 contributes its `(score, text)` pair |
| Tools.RankIsTop | src/uv_docs/tools.py:197-199 | the reply keeps min(3, n) results in non-increasing order, and every kept result is at or above every dropped one |
| Tools.Rank | src/uv_docs/tools.py:197-199 | `sort(reverse=True)` then the first three as written; stated by Tools.RankIsTop and Tools.RankIgnoresOrder |
| Tools.RankIgnoresOrder | src/uv_docs/tools.py:198-199 | two result lists holding the same results counted with repetition (the same multiset), in any order, rank the same, so ties go by text and not by discovery order |
| Tools.NoMatchIffNothingScores | src/uv_docs/tools.py:189-205 | the reply is "No matching resources found." exactly when no resource scores above 0.25 |
| Tools.SearchReply | src/uv_docs/tools.py:186-205 | the search reply as written; stated by Tools.NoMatchIffNothingScores and Tools.BlankQueryFindsNothing |
| Tools.Format | src/uv_docs/tools.py:194 | the result text of one resource, as written; the pairs it enters are stated by Tools.ScoredMembers |
| Tools.BlankQueryFindsNothing | src/uv_docs/tools.py:186-202 | a blank query yields "No matching resources found." |
| Tools.CallTool | src/uv_docs/tools.py:42-209 | `update-cache` answers with the rendered reference reply of the refresh and leaves the store the refresh leaves, exactly as `call_cache_tool` (src/uv_docs/tools.py:50-98); `search-documentation` without arguments, with an empty object or without `query` raises `Missing required argument: query`, with a boolean `query` raises `'bool' object has no attribute 'split'`, and with a string `query` answers with the search reply over the cached corpus; any other name raises `Unknown tool`; only `update-cache` changes the store |

## Left out

- Network and file I/O. The aiohttp sessions, aiofiles reads and writes, and
  `Path` operations are replaced by inputs: replies, fetch results and write
  outcomes. The store is a map from cache file to contents.
- Cache directory selection, `mkdir`, and `exists` checks on a real file
  system. A file exists when its key is in the map.
- BeautifulSoup:
  - parsing, selectors and tree search are not modelled;
  - a page is the list of the container's children, and all h2 elements are
    assumed to be children of the container, while `find_all('h2')` also finds
    nested ones;
  - the text of `find_next('p')` after an h2 is an input field of the h2 node;
  - the class tests for highlight and admonition divs are decided by the node
    constructor;
  - the docs-page version scan takes the texts of the `p`, `span` and `div`
    elements in document order as its input.
- JSON:
  - serialisation and parsing are not modelled;
  - a cache file holds a version record or a section payload, or does not
    parse;
  - the `"type"` key of a payload is omitted, because no reader uses it;
  - other JSON shapes in a cache file are not modelled.
- Tool arguments are booleans or strings. A non-string `query` is modelled as
  the `AttributeError` its `.split()` raises. Other argument types are left out.
- Text.Lower: lower-cases ASCII letters only. Python's full Unicode case
  mapping is a foreign table not reproduced here.
- `unicodedata.normalize('NFKC', …)` is the parameter `nfkc`, and
  `difflib.get_close_matches` is the parameter `close`. Neither algorithm is
  modelled.
- `str.title()` on the three section names is written out as `Cli`,
  `Settings` and `Resolver`.
- Floating point. Every weight and every sum is a multiple of 0.25, which
  binary floating point represents exactly at these sizes, so quarter-point
  integers are used.
- `clear_cache` is modelled as removing every file. An `unlink` failure
  part-way through, and foreign `*.json` files in the directory, are not
  modelled.
- `print` calls in `initialize`, `list_tools`, the MCP server wiring,
  prompts, resources and the placeholder tools are out of scope. Async
  scheduling and concurrent refreshes are also out: every operation runs
  sequentially.
- Text decoding errors of HTTP replies and of cache files are not modelled.
