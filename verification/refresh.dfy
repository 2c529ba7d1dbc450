/** The `update-cache` tool of `src/uv_docs/tools/cache.py` (mirrored in the
    `update-cache` branch of `src/uv_docs/tools.py`): skip when the cache is
    valid and no refresh is forced; otherwise write the version record, then
    fetch and write every section best-effort, and report per section. */
module CacheTool {
  import opened Wrappers
  import opened Text
  import opened Document
  import opened Extractor
  import opened CacheStore

  // ---------------------------------------------------------------------
  // Tool arguments
  // ---------------------------------------------------------------------

  /** A value in the tool's `arguments` object. */
  datatype ArgValue = Flag(flag: bool) | Str(text: string)

  /** The `arguments` of a tool call: `None`, or an object. */
  type Arguments = Option<map<string, ArgValue>>

  /** Python truthiness of an argument value. */
  predicate Truthy(v: ArgValue) {
    match v
    case Flag(b) => b
    case Str(s) => |s| > 0
  }

  /** `(arguments or {}).get("force", False)`, taken for its truth value. */
  predicate Forced(args: Arguments) {
    args.Some? && "force" in args.value && Truthy(args.value["force"])
  }

  // ---------------------------------------------------------------------
  // The reply
  // ---------------------------------------------------------------------

  /** One line of the per-section report. */
  datatype SectionReport = Cached(title: string, count: nat) | SectionFailed(title: string, error: string)

  datatype Reply =
    | UpToDate
    | Updated(version: string, reports: seq<SectionReport>)
    | RefreshFailed(error: string)

  /** `section.title()` for the `m`-th section. */
  function SectionTitle(m: nat): string
    requires m < 3
  {
    ["Cli", "Settings", "Resolver"][m]
  }

  function ReportLine(rep: SectionReport): string {
    match rep
    case Cached(title, count) => "- " + title + ": " + NatToString(count) + " elements cached"
    case SectionFailed(title, error) => "- " + title + ": Failed to update (" + error + ")"
  }

  function ReportLines(reports: seq<SectionReport>): (lines: seq<string>)
    ensures |lines| == |reports|
    ensures forall m :: 0 <= m < |reports| ==> lines[m] == ReportLine(reports[m])
  {
    if |reports| == 0 then [] else [ReportLine(reports[0])] + ReportLines(reports[1..])
  }

  /** The text of the tool's single `TextContent`. */
  function Render(reply: Reply): string {
    match reply
    case UpToDate => "Cache is up to date with current UV version"
    case Updated(version, reports) =>
      "Cache updated successfully:\n- UV Version: " + version + "\n" + Join(ReportLines(reports), "\n")
    case RefreshFailed(error) => "Failed to update cache: " + error
  }

  // ---------------------------------------------------------------------
  // The refresh
  // ---------------------------------------------------------------------

  /** An observable step of the refresh: fetching a section, writing a file. */
  datatype Action = FetchSection(m: nat) | WriteFile(key: Key)

  /** The steps section `m` takes: it is fetched, and written when the
      fetch returned. */
  function StepActions(pages: seq<Result<Page, string>>, m: nat): seq<Action>
    requires m < |pages| <= 3
  {
    [FetchSection(m)] + (if pages[m].Success? then [WriteFile(SectionKey(m))] else [])
  }

  /** The steps of the first `n` turns of the section loop, in order. None
      of them touches the version record, and only sections below `n` are
      fetched. */
  function SectionActions(pages: seq<Result<Page, string>>, n: nat): (acts: seq<Action>)
    requires n <= |pages| <= 3
    ensures forall j :: 0 <= j < |acts| ==> acts[j] != WriteFile(VersionKey)
    ensures forall j :: 0 <= j < |acts| && acts[j].FetchSection? ==> acts[j].m < n
  {
    if n == 0 then []
    else
      SectionActions(pages, n - 1) + StepActions(pages, n - 1)
  }

  /** The report line for section `m`, from its fetch and write outcomes. */
  function ExpectedReport(nfkc: string -> string, pages: seq<Result<Page, string>>,
                          writes: seq<WriteOutcome>, m: nat): SectionReport
    requires m < 3 && |pages| == 3 && |writes| == 3
  {
    match pages[m]
    case Failure(e) => SectionFailed(SectionTitle(m), e)
    case Success(_) =>
      match writes[m]
      case WriteFailed(e, _) => SectionFailed(SectionTitle(m), e)
      case Written => Cached(SectionTitle(m), ElementCount(SectionPayload(nfkc, pages, m)))
  }

  /** What one turn of the section loop leaves: the store, the report line
      and the fetches and writes it made. */
  datatype Turn = Turn(store: Store, report: SectionReport, actions: seq<Action>)

  /** One turn of the section loop: fetch section `m`, write it when the
      fetch returned, and report the outcome. */
  function SectionStep(store: Store, nfkc: string -> string, pages: seq<Result<Page, string>>,
                       writes: seq<WriteOutcome>, m: nat): (step: Turn)
    requires m < 3 && |pages| == 3 && |writes| == 3
    ensures step.report == ExpectedReport(nfkc, pages, writes, m)
    ensures step.actions == StepActions(pages, m)
    ensures SectionOutcome(store, step.store, nfkc, pages, writes, m)
    ensures forall k :: k != SectionKey(m) ==> SameEntry(step.store, store, k)
  {
    Turn(SectionTurn(store, nfkc, pages, writes, m), ExpectedReport(nfkc, pages, writes, m), StepActions(pages, m))
  }

  /** The three report lines, in section order. */
  function ExpectedReports(nfkc: string -> string, pages: seq<Result<Page, string>>,
                           writes: seq<WriteOutcome>): (reports: seq<SectionReport>)
    requires |pages| == 3 && |writes| == 3
  {
    [ExpectedReport(nfkc, pages, writes, 0), ExpectedReport(nfkc, pages, writes, 1), ExpectedReport(nfkc, pages, writes, 2)]
  }

  /** The section loop of the refresh: each section is fetched and written
      in turn, and a failure is reported without stopping the loop. */
  method RefreshSections(start: Store, nfkc: string -> string, pages: seq<Result<Page, string>>,
                         writes: seq<WriteOutcome>)
    returns (r: Store, reports: seq<SectionReport>, trace: seq<Action>)
    requires |pages| == 3 && |writes| == 3
    ensures trace == SectionActions(pages, 3)
    ensures reports == ExpectedReports(nfkc, pages, writes)
    ensures forall m :: 0 <= m < 3 ==> SectionOutcome(start, r, nfkc, pages, writes, m)
    ensures SameEntry(r, start, VersionKey)
  {
    r := start;
    reports := [];
    trace := [];
    var i := 0;
    while i < 3
      invariant 0 <= i <= 3
      invariant reports == ExpectedReports(nfkc, pages, writes)[..i]
      invariant trace == SectionActions(pages, i)
      invariant forall m :: 0 <= m < i ==> SectionOutcome(start, r, nfkc, pages, writes, m)
      invariant forall m :: i <= m < 3 ==> SameEntry(r, start, SectionKey(m))
      invariant SameEntry(r, start, VersionKey)
    {
      var step := SectionStep(r, nfkc, pages, writes, i);
      forall m | 0 <= m < 3
        ensures SectionKey(m) != VersionKey && (m != i ==> SectionKey(m) != SectionKey(i))
      {
        SectionKeyDistinct(m, i);
      }
      forall m | 0 <= m <= i
        ensures SectionOutcome(start, step.store, nfkc, pages, writes, m)
      {
        if m < i {
          SectionOutcomeMoves(start, start, r, step.store, nfkc, pages, writes, m);
        } else {
          SectionOutcomeMoves(r, start, step.store, step.store, nfkc, pages, writes, m);
        }
      }
      r := step.store;
      assert ExpectedReports(nfkc, pages, writes)[..i + 1] == reports + [step.report];
      reports := reports + [step.report];
      trace := trace + step.actions;
      i := i + 1;
    }
  }

  /** The reply the refresh gives, stated without its steps: up to date when
      the check passes unforced; the first exception of the version fetch or
      write; otherwise the fetched version and one report per section. */
  function ExpectedReply(store: Store, nfkc: string -> string, force: bool,
                         checkPypi: PypiReply, checkDocs: DocsReply, pypi: PypiReply, docs: DocsReply,
                         versionWrite: WriteOutcome, pages: seq<Result<Page, string>>, writes: seq<WriteOutcome>): Reply
    requires |pages| == 3 && |writes| == 3
  {
    if !force && IsCacheValid(checkPypi, checkDocs, store) then UpToDate
    else match CurrentVersion(pypi, docs)
      case Failure(e) => RefreshFailed(e)
      case Success(v) =>
        match versionWrite
        case WriteFailed(e, _) => RefreshFailed(e)
        case Written => Updated(v, ExpectedReports(nfkc, pages, writes))
  }

  /** What the refresh leaves in the store `r`, given its reply: nothing
      changes unless the version was fetched; a failed version write touches
      only the version record; after an update the version record holds the
      version, every written section reads back its payload, a truncated
      section file no longer parses, and every other section is as before. */
  predicate RefreshEffect(store: Store, r: Store, nfkc: string -> string, pypi: PypiReply, docs: DocsReply,
                          versionWrite: WriteOutcome, pages: seq<Result<Page, string>>, writes: seq<WriteOutcome>,
                          reply: Reply)
    requires |pages| == 3 && |writes| == 3
  {
    && (reply == UpToDate ==> r == store)
    && (reply.RefreshFailed? ==>
          r == (match CurrentVersion(pypi, docs)
                case Failure(_) => store
                case Success(v) => Write(store, VersionKey, VersionInfo(v), versionWrite)))
    && (reply.Updated? ==>
          && ReadFile(r, VersionKey) == VersionInfo(reply.version)
          && forall m :: 0 <= m < 3 ==> SectionOutcome(store, r, nfkc, pages, writes, m))
  }

  /** The refresh of `call_cache_tool`. `check` is the version fetch inside
      `is_cache_valid`, `pypi`/`docs` the one after it; `versionWrite`,
      `pages` and `writes` are the outcomes of the version write and of
      the section fetches and writes. `trace` lists the fetches and writes
      in the order they happen. */
  method Refresh(store: Store, nfkc: string -> string, force: bool,
                 checkPypi: PypiReply, checkDocs: DocsReply, pypi: PypiReply, docs: DocsReply,
                 versionWrite: WriteOutcome, pages: seq<Result<Page, string>>, writes: seq<WriteOutcome>)
    returns (r: Store, reply: Reply, trace: seq<Action>)
    requires |pages| == 3 && |writes| == 3
    // skipped: nothing written
    ensures !force && IsCacheValid(checkPypi, checkDocs, store) ==> reply == UpToDate && r == store && trace == []
    ensures reply == UpToDate ==> !force && IsCacheValid(checkPypi, checkDocs, store)
    // the version fetch raises: nothing written
    ensures (force || !IsCacheValid(checkPypi, checkDocs, store)) && CurrentVersion(pypi, docs).Failure? ==>
              reply == RefreshFailed(CurrentVersion(pypi, docs).error) && r == store && trace == []
    // the version write raises: no section fetched or written
    ensures (force || !IsCacheValid(checkPypi, checkDocs, store)) && CurrentVersion(pypi, docs).Success? && versionWrite.WriteFailed? ==>
              && reply == RefreshFailed(versionWrite.error)
              && trace == [WriteFile(VersionKey)]
              && forall m :: 0 <= m < 3 ==> SameEntry(r, store, SectionKey(m))
    // the version is written first, then every section in order
    ensures reply.Updated? ==>
              && CurrentVersion(pypi, docs).Success? && versionWrite.Written?
              && reply.version == CurrentVersion(pypi, docs).value
              && ReadFile(r, VersionKey) == VersionInfo(reply.version)
              && trace == [WriteFile(VersionKey)] + SectionActions(pages, 3)
              && |reply.reports| == 3
              && forall m :: 0 <= m < 3 ==> reply.reports[m] == ExpectedReport(nfkc, pages, writes, m)
    ensures reply == ExpectedReply(store, nfkc, force, checkPypi, checkDocs, pypi, docs, versionWrite, pages, writes)
    ensures RefreshEffect(store, r, nfkc, pypi, docs, versionWrite, pages, writes, reply)
  {
    if !force && IsCacheValid(checkPypi, checkDocs, store) {
      return store, UpToDate, [];
    }
    var version := CurrentVersion(pypi, docs);
    if version.Failure? {
      return store, RefreshFailed(version.error), [];
    }
    r := Write(store, VersionKey, VersionInfo(version.value), versionWrite);
    trace := [WriteFile(VersionKey)];
    if versionWrite.WriteFailed? {
      return r, RefreshFailed(versionWrite.error), trace;
    }
    var reports, acts;
    var written := r;
    r, reports, acts := RefreshSections(written, nfkc, pages, writes);
    forall m | 0 <= m < 3
      ensures SectionOutcome(store, r, nfkc, pages, writes, m)
    {
      SectionKeyDistinct(m, m);
      SectionOutcomeMoves(written, store, r, r, nfkc, pages, writes, m);
    }
    trace := trace + acts;
    reply := Updated(version.value, reports);
  }

  /** `call_cache_tool`: any name other than `update-cache` raises
      `ValueError`; otherwise the refresh runs, forced when the `force`
      argument is truthy, and its reply is rendered. */
  method CallCacheTool(name: string, args: Arguments, store: Store, nfkc: string -> string,
                       checkPypi: PypiReply, checkDocs: DocsReply, pypi: PypiReply, docs: DocsReply,
                       versionWrite: WriteOutcome, pages: seq<Result<Page, string>>, writes: seq<WriteOutcome>)
    returns (r: Store, out: Result<string, string>)
    requires |pages| == 3 && |writes| == 3
    ensures name != "update-cache" ==> r == store && out == Failure("Unknown cache tool: " + name)
    ensures name == "update-cache" && !Forced(args) && IsCacheValid(checkPypi, checkDocs, store) ==>
              r == store && out == Success("Cache is up to date with current UV version")
    ensures name == "update-cache" ==>
              && out == Success(Render(ExpectedReply(store, nfkc, Forced(args), checkPypi, checkDocs, pypi, docs,
                                                     versionWrite, pages, writes)))
              && RefreshEffect(store, r, nfkc, pypi, docs, versionWrite, pages, writes,
                               ExpectedReply(store, nfkc, Forced(args), checkPypi, checkDocs, pypi, docs,
                                             versionWrite, pages, writes))
    ensures name == "update-cache" && Forced(args) ==> out.Success? && out.value != Render(UpToDate)
  {
    if name != "update-cache" {
      return store, Failure("Unknown cache tool: " + name);
    }
    var reply, trace;
    r, reply, trace := Refresh(store, nfkc, Forced(args), checkPypi, checkDocs, pypi, docs, versionWrite, pages, writes);
    out := Success(Render(reply));
    if Forced(args) {
      RenderDistinct(reply, UpToDate);
    }
  }

  /** The first and seventh characters of each kind of reply: `C`/`i` for
      up to date, `C`/`u` for an update, `F` for a failure. */
  lemma RenderSignature(reply: Reply)
    ensures |Render(reply)| > 6
    ensures Render(reply)[0] == (if reply.RefreshFailed? then 'F' else 'C')
    ensures reply.UpToDate? ==> Render(reply)[6] == 'i'
    ensures reply.Updated? ==> Render(reply)[6] == 'u'
  {
    match reply
    case UpToDate =>
      var u := Render(UpToDate);
      assert u[0] == 'C' && u[6] == 'i';
    case Updated(version, reports) =>
      var head := "Cache updated successfully:\n- UV Version: ";
      var b := head + version + "\n";
      assert Render(reply) == b + Join(ReportLines(reports), "\n");
      assert b[0] == head[0] == 'C';
      assert b[6] == head[6] == 'u';
    case RefreshFailed(error) =>
      var head := "Failed to update cache: ";
      assert Render(reply) == head + error;
      assert Render(reply)[0] == head[0] == 'F';
  }

  /** Replies of different kinds render to different texts, and so do two
      failures with different errors: a caller can tell from the text alone
      whether the cache was up to date, updated, or not updated and why. */
  lemma RenderDistinct(a: Reply, b: Reply)
    ensures a.UpToDate? != b.UpToDate? || a.Updated? != b.Updated? ==> Render(a) != Render(b)
    ensures a.RefreshFailed? && b.RefreshFailed? && a != b ==> Render(a) != Render(b)
  {
    RenderSignature(a);
    RenderSignature(b);
    if a.RefreshFailed? && b.RefreshFailed? && Render(a) == Render(b) {
      var head := "Failed to update cache: ";
      assert Render(a) == head + a.error && Render(b) == head + b.error;
      assert a.error == Render(a)[|head|..] == Render(b)[|head|..] == b.error;
    }
  }
}
