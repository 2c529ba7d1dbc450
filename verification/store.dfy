/** The cache manager of `src/uv_docs/cache.py` over an abstract store: the
    cache directory is a map from a file's stem (`version`, `cli`, ...) to
    what that `<stem>.json` file holds, network replies are inputs, and a
    write that raises is an input outcome. */
module CacheStore {
  import opened Wrappers
  import opened Text
  import opened Document
  import opened Extractor

  // ---------------------------------------------------------------------
  // The store
  // ---------------------------------------------------------------------

  /** A parsed cache file: the version record `{"version": v}` or a section
      payload (the payload `Empty` is the JSON object `{}`). */
  datatype Json = VersionInfo(version: string) | Doc(payload: Payload)

  /** A cache file's text either parses as JSON or it does not. */
  datatype Entry = Corrupt | Stored(json: Json)

  /** A cache file: `version.json` or the file of one section. */
  datatype Key = VersionFile | SectionFile(kind: PageKind)

  /** The cache directory: what each `<stem>.json` file holds. */
  type Store = map<Key, Entry>

  /** The file stem, as `get_section_cache_path` and `version_file` name it. */
  function Stem(key: Key): string {
    match key
    case VersionFile => "version"
    case SectionFile(kind) => SectionName(kind)
  }

  /** Distinct cache files have distinct names. */
  lemma StemInjective(a: Key, b: Key)
    requires Stem(a) == Stem(b)
    ensures a == b
  {
    var cli, settings, resolver := SectionFile(CliPage), SectionFile(SettingsPage), SectionFile(ResolverPage);
    assert Stem(cli)[0] == 'c' && Stem(settings)[0] == 's' && Stem(resolver)[0] == 'r' && Stem(VersionFile)[0] == 'v';
    assert a.SectionFile? && b.SectionFile? ==> a.kind == b.kind;
  }

  const VersionKey: Key := VersionFile

  /** The documentation sections, in the order the source visits them. */
  const Kinds: seq<PageKind> := [CliPage, SettingsPage, ResolverPage]

  /** `{}` */
  const EmptyObject: Json := Doc(Empty)

  /** The file of the `m`-th section: `cli.json`, `settings.json`, `resolver.json`. */
  function SectionKey(m: nat): Key
    requires m < 3
  {
    SectionFile(Kinds[m])
  }

  /** The three section files and the version file are four distinct files. */
  lemma SectionKeyDistinct(m: nat, n: nat)
    requires m < 3 && n < 3
    ensures SectionKey(m) != VersionKey
    ensures m != n ==> SectionKey(m) != SectionKey(n)
  {
    assert Kinds[0] == CliPage && Kinds[1] == SettingsPage && Kinds[2] == ResolverPage;
  }

  /** `key`'s file is the same in `a` as in `b`. */
  predicate SameEntry(a: Store, b: Store, key: Key) {
    (key in a <==> key in b) && (key in a ==> a[key] == b[key])
  }

  // ---------------------------------------------------------------------
  // Reads and writes
  // ---------------------------------------------------------------------

  /** `get_cached_version` / `get_cached_section`: the parsed file, where a
      missing file and one that does not parse both read as `{}`. */
  function ReadFile(store: Store, key: Key): (j: Json)
    ensures key !in store ==> j == EmptyObject
    ensures key in store && store[key].Corrupt? ==> j == EmptyObject
    ensures key in store && store[key].Stored? ==> j == store[key].json
  {
    if key in store && store[key].Stored? then store[key].json else EmptyObject
  }

  /** `d.get('version')` on a parsed file. */
  function VersionField(j: Json): Option<string> {
    match j
    case VersionInfo(v) => Some(v)
    case Doc(_) => None
  }

  /** How a write (`open(path, 'w')` then `write`) ends: it completes, or it
      raises, having truncated the file or before touching it. */
  datatype WriteOutcome = Written | WriteFailed(error: string, truncated: bool)

  /** The store after writing `json` to `key` with outcome `w`. */
  function Write(store: Store, key: Key, json: Json, w: WriteOutcome): (r: Store)
    ensures w.Written? ==> key in r && ReadFile(r, key) == json
    ensures w.WriteFailed? && w.truncated ==> key in r && ReadFile(r, key) == EmptyObject
    ensures w.WriteFailed? && !w.truncated ==> r == store
    ensures forall k :: k != key ==> SameEntry(r, store, k)
  {
    match w
    case Written => store[key := Stored(json)]
    case WriteFailed(_, truncated) => if truncated then store[key := Corrupt] else store
  }

  /** `clear_cache`: every `*.json` file is unlinked, the version record
      included, so nothing reads back and no version compares equal. */
  function Clear(store: Store): (r: Store)
    ensures forall key :: ReadFile(r, key) == EmptyObject
    ensures VersionKey !in r
    ensures forall pypi, docs :: !IsCacheValid(pypi, docs, r)
  {
    map[]
  }

  // ---------------------------------------------------------------------
  // fetch_current_version
  // ---------------------------------------------------------------------

  /** What the PyPI JSON reply says: it does not parse, it lacks `info` or
      `info.version`, or it names a version. */
  datatype PypiInfo = NotJson(error: string) | NoVersion | InfoVersion(version: string)

  datatype PypiReply = PypiUnreachable(error: string) | PypiResponse(status: int, info: PypiInfo)

  /** The docs CLI page: unreachable, or the texts of its `p`, `span` and
      `div` elements in document order. */
  datatype DocsReply = DocsUnreachable(error: string) | DocsPage(texts: seq<string>)

  /** The element text names the version: its lower-cased text contains `version`. */
  predicate Mentions(t: string) {
    Contains(Lower(t), "version")
  }

  /** The first index at or after `j` whose text mentions the version. */
  function FirstMention(texts: seq<string>, j: nat): (r: Option<nat>)
    requires j <= |texts|
    ensures r.Some? ==> j <= r.value < |texts| && Mentions(texts[r.value])
    ensures r.Some? ==> forall k :: j <= k < r.value ==> !Mentions(texts[k])
    ensures r.None? ==> forall k :: j <= k < |texts| ==> !Mentions(texts[k])
    decreases |texts| - j
  {
    if j == |texts| then None
    else if Mentions(texts[j]) then Some(j)
    else FirstMention(texts, j + 1)
  }

  /** The docs-page fallback: the last token of the first text mentioning
      the version, provided that text holds a space; `unknown` otherwise. */
  function FallbackVersion(texts: seq<string>): string {
    match FirstMention(texts, 0)
    case None => "unknown"
    case Some(i) => if ' ' in texts[i] then TrailingWord(texts[i]) else "unknown"
  }

  /** `fetch_current_version`: the PyPI version when the reply is a 200 that
      names one, the docs-page fallback otherwise; a network error, or a 200
      whose body does not parse, raises. */
  function CurrentVersion(pypi: PypiReply, docs: DocsReply): (r: Result<string, string>)
    ensures pypi.PypiUnreachable? ==> r == Failure(pypi.error)
    ensures pypi.PypiResponse? && pypi.status == 200 && pypi.info.InfoVersion? ==> r == Success(pypi.info.version)
    ensures pypi.PypiResponse? && pypi.status == 200 && pypi.info.NotJson? ==> r == Failure(pypi.info.error)
    ensures pypi.PypiResponse? && (pypi.status != 200 || pypi.info.NoVersion?) ==>
              r == (match docs
                    case DocsUnreachable(e) => Failure(e)
                    case DocsPage(texts) => Success(FallbackVersion(texts)))
  {
    match pypi
    case PypiUnreachable(e) => Failure(e)
    case PypiResponse(status, info) =>
      if status == 200 && info.InfoVersion? then Success(info.version)
      else if status == 200 && info.NotJson? then Failure(info.error)
      else match docs
        case DocsUnreachable(e) => Failure(e)
        case DocsPage(texts) => Success(FallbackVersion(texts))
  }

  /** A string holding a needle that starts with a non-space character
      holds a non-space character. */
  lemma {:induction false} ContainsWord(hay: string, needle: string)
    requires |needle| > 0 && !IsSpace(needle[0]) && Contains(hay, needle)
    ensures !AllSpace(hay)
    decreases |hay|
  {
    if StartsWith(hay, needle) {
      assert hay[0] == needle[0];
    } else {
      ContainsWord(hay[1..], needle);
      var i :| 0 <= i < |hay[1..]| && !IsSpace(hay[1..][i]);
      assert hay[i + 1] == hay[1..][i];
    }
  }

  /** A text that mentions the version is not blank, so it has a last token. */
  lemma MentionNotBlank(t: string)
    requires Mentions(t)
    ensures !AllSpace(t)
  {
    var v := "version";
    assert v[0] == 'v' && !IsSpace('v');
    ContainsWord(Lower(t), v);
    var lt := Lower(t);
    var i :| 0 <= i < |lt| && !IsSpace(lt[i]);
    assert lt[i] == LowerChar(t[i]);
  }

  /** The fallback scan: the result is `version_text.split()[-1]` for the
      first text mentioning the version when that text holds a space, and
      `unknown` when there is no such text or it holds no space. */
  lemma FallbackVersionIsLastToken(texts: seq<string>)
    ensures var v := FallbackVersion(texts);
            match FirstMention(texts, 0)
            case None => v == "unknown"
            case Some(i) =>
              && (forall k :: 0 <= k < i ==> !Mentions(texts[k]))
              && (' ' !in texts[i] ==> v == "unknown")
              && (' ' in texts[i] ==> |Words(texts[i])| > 0 && v == Words(texts[i])[|Words(texts[i])| - 1] && IsWord(v))
  {
    match FirstMention(texts, 0)
    case None =>
    case Some(i) =>
      var t := texts[i];
      assert FallbackVersion(texts) == if ' ' in t then TrailingWord(t) else "unknown";
      MentionLastToken(t);
  }

  /** A text that mentions the version has a last token, and the scan back
      from its right end finds it. */
  lemma MentionLastToken(t: string)
    requires Mentions(t)
    ensures |Words(t)| > 0 && Words(t)[|Words(t)| - 1] == TrailingWord(t) && IsWord(TrailingWord(t))
  {
    MentionNotBlank(t);
    LastWord(t);
  }

  // ---------------------------------------------------------------------
  // is_cache_valid
  // ---------------------------------------------------------------------

  /** `is_cache_valid`: the fetched version equals the `version` of the
      stored record; a fetch that raises gives false. */
  function IsCacheValid(pypi: PypiReply, docs: DocsReply, store: Store): (b: bool)
    ensures b <==> && CurrentVersion(pypi, docs).Success?
                   && VersionKey in store
                   && store[VersionKey] == Stored(VersionInfo(CurrentVersion(pypi, docs).value))
  {
    match CurrentVersion(pypi, docs)
    case Failure(_) => false
    case Success(v) => VersionField(ReadFile(store, VersionKey)) == Some(v)
  }

  // ---------------------------------------------------------------------
  // initialize
  // ---------------------------------------------------------------------

  /** The `m`-th section fetch (`pages[m]`) or its write raises. */
  predicate SectionFails(pages: seq<Result<Page, string>>, writes: seq<WriteOutcome>, m: nat)
    requires m < |pages| && m < |writes|
  {
    pages[m].Failure? || writes[m].WriteFailed?
  }

  /** The payload `fetch_*_documentation` returns for the `m`-th section. */
  function SectionPayload(nfkc: string -> string, pages: seq<Result<Page, string>>, m: nat): Payload
    requires m < 3 && m < |pages| && pages[m].Success?
  {
    ExtractPage(Kinds[m], nfkc, pages[m].value)
  }

  /** The `m`-th section's fetch returns and its write raises after
      truncating the file. */
  predicate Truncates(pages: seq<Result<Page, string>>, writes: seq<WriteOutcome>, m: nat)
    requires m < |pages| && m < |writes|
  {
    pages[m].Success? && writes[m].WriteFailed? && writes[m].truncated
  }

  /** No section fetch or write before section `i` raises. */
  predicate SectionsClear(pages: seq<Result<Page, string>>, writes: seq<WriteOutcome>, i: nat)
    requires i <= |pages| && i <= |writes|
  {
    forall m :: 0 <= m < i ==> !SectionFails(pages, writes, m)
  }

  /** Nothing raised in `initialize` before section `i`: the version fetch
      and write, and the fetches and writes of the sections before `i`. */
  predicate ClearBefore(version: Result<string, string>, versionWrite: WriteOutcome,
                        pages: seq<Result<Page, string>>, writes: seq<WriteOutcome>, i: nat)
    requires i <= |pages| && i <= |writes|
  {
    version.Success? && versionWrite.Written? && SectionsClear(pages, writes, i)
  }

  /** What the file of section `m` holds once its turn has run from `start`:
      the extracted payload after a completed write; an unparsable file
      after a write that truncated it and raised; otherwise (the fetch
      raised, or the write raised before touching the file) what it held
      before. */
  predicate SectionOutcome(start: Store, r: Store, nfkc: string -> string, pages: seq<Result<Page, string>>,
                           writes: seq<WriteOutcome>, m: nat)
    requires m < 3 && |pages| == 3 && |writes| == 3
  {
    && (pages[m].Success? && writes[m].Written? ==> ReadFile(r, SectionKey(m)) == Doc(SectionPayload(nfkc, pages, m)))
    && (Truncates(pages, writes, m) ==> SectionKey(m) in r && r[SectionKey(m)] == Corrupt)
    && (SectionFails(pages, writes, m) && !Truncates(pages, writes, m) ==> SameEntry(r, start, SectionKey(m)))
  }

  /** A section's outcome depends only on that section's file, before and
      after. */
  lemma SectionOutcomeMoves(start: Store, start': Store, r: Store, r': Store, nfkc: string -> string,
                            pages: seq<Result<Page, string>>, writes: seq<WriteOutcome>, m: nat)
    requires m < 3 && |pages| == 3 && |writes| == 3
    requires SectionOutcome(start, r, nfkc, pages, writes, m)
    requires SameEntry(start', start, SectionKey(m)) && SameEntry(r', r, SectionKey(m))
    ensures SectionOutcome(start', r', nfkc, pages, writes, m)
  {
  }

  /** The turn of section `m` in either section loop: its page, when the
      fetch returned, is extracted and written with outcome `writes[m]`. */
  function SectionTurn(store: Store, nfkc: string -> string, pages: seq<Result<Page, string>>,
                       writes: seq<WriteOutcome>, m: nat): (r: Store)
    requires m < 3 && |pages| == 3 && |writes| == 3
    ensures SectionOutcome(store, r, nfkc, pages, writes, m)
    ensures forall k :: k != SectionKey(m) ==> SameEntry(r, store, k)
  {
    if pages[m].Success? then Write(store, SectionKey(m), Doc(SectionPayload(nfkc, pages, m)), writes[m]) else store
  }

  /** With no version record before, `initialize` leaves none behind its
      first exception: the version fetch raised, or the version write raised
      before touching the file. A truncating version write leaves a file. */
  predicate VersionLost(version: Result<string, string>, versionWrite: WriteOutcome) {
    version.Failure? || (versionWrite.WriteFailed? && !versionWrite.truncated)
  }

  /** The section loop of `initialize`: fetch and write each section in
      order until one of them raises (`failed`). The sections written before
      read back their payloads; the failing section is left as it was,
      unless its write truncated the file, which then no longer parses; the
      later sections are left as they were. */
  method WriteSections(start: Store, nfkc: string -> string, pages: seq<Result<Page, string>>,
                       writes: seq<WriteOutcome>)
    returns (r: Store, failed: bool)
    requires |pages| == 3 && |writes| == 3
    ensures failed <==> !SectionsClear(pages, writes, 3)
    ensures forall m :: 0 <= m < 3 && SectionsClear(pages, writes, m) ==> SectionOutcome(start, r, nfkc, pages, writes, m)
    ensures forall m :: 0 <= m < 3 && !SectionsClear(pages, writes, m) ==> SameEntry(r, start, SectionKey(m))
    ensures SameEntry(r, start, VersionKey)
  {
    r := start;
    failed := false;
    var i := 0;
    while i < 3 && !failed
      invariant 0 <= i <= 3
      invariant !failed ==> SectionsClear(pages, writes, i)
      invariant failed ==> 0 < i && SectionsClear(pages, writes, i - 1) && SectionFails(pages, writes, i - 1)
      invariant forall m :: 0 <= m < i ==> SectionOutcome(start, r, nfkc, pages, writes, m)
      invariant forall m :: i <= m < 3 ==> SameEntry(r, start, SectionKey(m))
      invariant SameEntry(r, start, VersionKey)
    {
      var next := SectionTurn(r, nfkc, pages, writes, i);
      forall m | 0 <= m < 3
        ensures SectionKey(m) != VersionKey && (m != i ==> SectionKey(m) != SectionKey(i))
      {
        SectionKeyDistinct(m, i);
      }
      forall m | 0 <= m <= i
        ensures SectionOutcome(start, next, nfkc, pages, writes, m)
      {
        if m < i {
          SectionOutcomeMoves(start, start, r, next, nfkc, pages, writes, m);
        } else {
          SectionOutcomeMoves(r, start, next, next, nfkc, pages, writes, m);
        }
      }
      r := next;
      failed := SectionFails(pages, writes, i);
      i := i + 1;
    }
  }

  /** `initialize`. When there is no version record it fetches the version
      (`pypi`, `docs`), writes it, then fetches (`pages`) and writes
      (`writes`) the sections in order inside one `try`, so the first
      exception abandons the remaining sections; after an exception, if
      still no version record exists, `{"version": "unknown"}` is written
      (`fallbackWrite`), and an exception there escapes (`raised`). */
  method Initialize(store: Store, nfkc: string -> string, pypi: PypiReply, docs: DocsReply,
                    versionWrite: WriteOutcome, pages: seq<Result<Page, string>>,
                    writes: seq<WriteOutcome>, fallbackWrite: WriteOutcome)
    returns (r: Store, raised: Option<string>)
    requires |pages| == 3 && |writes| == 3
    ensures VersionKey in store ==> r == store && raised == None
    ensures raised.Some? <==> VersionKey !in store && VersionLost(CurrentVersion(pypi, docs), versionWrite)
                              && fallbackWrite.WriteFailed?
    ensures raised.Some? ==> raised == Some(fallbackWrite.error)
    ensures raised.None? ==> VersionKey in r
    ensures VersionKey !in store && ClearBefore(CurrentVersion(pypi, docs), versionWrite, pages, writes, 0) ==>
              ReadFile(r, VersionKey) == VersionInfo(CurrentVersion(pypi, docs).value)
    ensures VersionKey !in store && VersionLost(CurrentVersion(pypi, docs), versionWrite) && fallbackWrite.Written? ==>
              ReadFile(r, VersionKey) == VersionInfo("unknown")
    ensures VersionKey !in store && CurrentVersion(pypi, docs).Success? && versionWrite.WriteFailed? && versionWrite.truncated ==>
              VersionKey in r && r[VersionKey] == Corrupt
    ensures forall m :: 0 <= m < 3 && VersionKey !in store && ClearBefore(CurrentVersion(pypi, docs), versionWrite, pages, writes, m) ==>
              SectionOutcome(store, r, nfkc, pages, writes, m)
    ensures forall m :: 0 <= m < 3 && !ClearBefore(CurrentVersion(pypi, docs), versionWrite, pages, writes, m) ==>
              SameEntry(r, store, SectionKey(m))
  {
    if VersionKey in store {
      return store, None;
    }
    var version := CurrentVersion(pypi, docs);
    var s := store;
    var failed := true;
    if version.Success? {
      s := Write(s, VersionKey, VersionInfo(version.value), versionWrite);
      if versionWrite.Written? {
        var written := s;
        s, failed := WriteSections(written, nfkc, pages, writes);
        forall m | 0 <= m < 3 && SectionsClear(pages, writes, m)
          ensures SectionOutcome(store, s, nfkc, pages, writes, m)
        {
          SectionKeyDistinct(m, m);
          SectionOutcomeMoves(written, store, s, s, nfkc, pages, writes, m);
        }
      }
    }
    raised := None;
    if failed && VersionKey !in s {
      s := Write(s, VersionKey, VersionInfo("unknown"), fallbackWrite);
      if fallbackWrite.WriteFailed? {
        raised := Some(fallbackWrite.error);
      }
    }
    r := s;
  }
}
