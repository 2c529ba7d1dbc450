/** The documentation extractor of `CacheManager`: the bodies of
    `fetch_cli_documentation`, `fetch_settings_documentation` and
    `fetch_resolver_documentation` once the page has been fetched and parsed.

    A page is the sequence of sibling nodes inside its `.md-content`
    container.  Each `h2` starts an element; the walk over the following
    siblings up to the next `h2` is a small state machine with a pending
    "General" bucket, an optional current heading subsection and (CLI page
    only) an "Options" bucket.  The walk is proved equal to a declarative
    reference: General lines, then one subsection per heading, then Options,
    with empty subsections dropped. */
module Extractor {
  import opened Wrappers
  import opened Text
  import opened Document

  /** A sibling node of the content container.  Text fields hold the node's
      `get_text(strip=True)` before cleaning. */
  datatype Node =
    | H2(text: string, nextP: Option<string>)      // h2; nextP is the text of `find_next('p')`, if any
    | SubHeading(text: string)                     // h3 or h4
    | Para(text: string)                           // p
    | Pre(text: string)                            // a bare pre
    | ListBlock(text: string, items: seq<string>)  // ul or ol, with the texts of its li descendants
    | Dl(terms: seq<string>, defs: seq<string>)    // dl, with the texts of its dt and dd descendants
    | HighlightDiv(pre: Option<string>)            // div.highlight or div.highlight-default, with its pre's text joined by "\n"
    | AdmonitionDiv(text: string)                  // div.admonition
    | Other                                        // anything else

  datatype PageKind = CliPage | SettingsPage | ResolverPage

  /** A parsed page: either it has no `.md-content` container, or the container's children. */
  datatype Page = NoContainer | Container(nodes: seq<Node>)

  function SectionName(kind: PageKind): string {
    match kind
    case CliPage => "cli"
    case SettingsPage => "settings"
    case ResolverPage => "resolver"
  }

  function LineSeq(line: Option<string>): seq<string> {
    match line
    case Some(l) => [l]
    case None => []
  }

  // ---------------------------------------------------------------------
  // What one node contributes
  // ---------------------------------------------------------------------

  /** The line a prose or code node adds to the current subsection or to the
      General bucket.  The CLI page takes p, pre, ul and ol; the settings and
      resolver pages take p, ul and ol, plus `"Example:\n" + code` for a
      highlight div that contains a pre. */
  function ContentLine(kind: PageKind, nfkc: string -> string, n: Node): Option<string> {
    match n
    case Para(t) => Some(CleanText(nfkc, t))
    case ListBlock(t, _) => Some(CleanText(nfkc, t))
    case Pre(t) => if kind == CliPage then Some(CleanText(nfkc, t)) else None
    case HighlightDiv(pre) =>
      if kind != CliPage && pre.Some? then Some("Example:\n" + CleanCode(nfkc, pre.value)) else None
    case _ => None
  }

  /** `[f"{dt}: {dd}" for dt, dd in zip(dts, dds)]` after cleaning both sides:
      one line per pair, so the shorter list bounds the count. */
  function DlLines(nfkc: string -> string, terms: seq<string>, defs: seq<string>): (lines: seq<string>)
    ensures |lines| == if |terms| < |defs| then |terms| else |defs|
    ensures forall i :: 0 <= i < |lines| ==>
              lines[i] == CleanText(nfkc, terms[i]) + ": " + CleanText(nfkc, defs[i])
  {
    if |terms| == 0 || |defs| == 0 then []
    else [CleanText(nfkc, terms[0]) + ": " + CleanText(nfkc, defs[0])] + DlLines(nfkc, terms[1..], defs[1..])
  }

  /** The Options lines a node adds: only a dl, and only on the CLI page. */
  function OptionLines(kind: PageKind, nfkc: string -> string, n: Node): seq<string> {
    if kind == CliPage && n.Dl? then DlLines(nfkc, n.terms, n.defs) else []
  }

  // ---------------------------------------------------------------------
  // The walk
  // ---------------------------------------------------------------------

  /** The walk's state: subsections already emitted, the current heading
      subsection (once an h3/h4 has been seen), the pending General lines and
      the Options lines. */
  datatype WalkState = WalkState(
    done: seq<Subsection>,
    current: Option<Subsection>,
    general: seq<string>,
    options: seq<string>)

  const Start := WalkState([], None, [], [])

  function GeneralSub(lines: seq<string>): seq<Subsection> {
    if |lines| == 0 then [] else [Subsection("General", lines)]
  }

  function OptionsSub(lines: seq<string>): seq<Subsection> {
    if |lines| == 0 then [] else [Subsection("Options", lines)]
  }

  function CurrentSeq(current: Option<Subsection>): seq<Subsection> {
    match current
    case Some(s) => [s]
    case None => []
  }

  /** The subsections the source's `documentation` list holds in this state,
      in its order: emitted ones, the current heading, then General. */
  function Body(st: WalkState): seq<Subsection> {
    st.done + CurrentSeq(st.current) + GeneralSub(st.general)
  }

  /** Append lines where prose goes: to the current heading subsection if
      there is one, otherwise to the General bucket. */
  function Absorb(st: WalkState, lines: seq<string>): WalkState {
    match st.current
    case Some(cur) => st.(current := Some(cur.(content := cur.content + lines)))
    case None => st.(general := st.general + lines)
  }

  /** One iteration of the sibling loop. */
  function Step(kind: PageKind, nfkc: string -> string, st: WalkState, n: Node): WalkState {
    match n
    case SubHeading(t) =>
      // flush General, then open a new heading subsection
      WalkState(Body(st), Some(Subsection(CleanText(nfkc, t), [])), [], st.options)
    case Dl(terms, defs) =>
      if kind == CliPage then st.(options := st.options + DlLines(nfkc, terms, defs)) else st
    case _ =>
      match ContentLine(kind, nfkc, n)
      case Some(line) => Absorb(st, [line])
      case None => st
  }

  /** The walk over a segment of siblings, left to right. */
  function Walk(kind: PageKind, nfkc: string -> string, st: WalkState, seg: seq<Node>): WalkState
    decreases |seg|
  {
    if |seg| == 0 then st else Walk(kind, nfkc, Step(kind, nfkc, st, seg[0]), seg[1..])
  }

  /** `while next_elem and next_elem.name != 'h2'`, starting at sibling `j`. */
  function WalkFrom(kind: PageKind, nfkc: string -> string, st: WalkState, nodes: seq<Node>, j: nat): WalkState
    decreases |nodes| - j
  {
    if j >= |nodes| || nodes[j].H2? then st
    else WalkFrom(kind, nfkc, Step(kind, nfkc, st, nodes[j]), nodes, j + 1)
  }

  /** `[s for s in documentation if s["content"]]`: keeps the non-empty
      subsections, in order. */
  function FilterNonEmpty(subs: seq<Subsection>): (r: seq<Subsection>)
    ensures forall i :: 0 <= i < |r| ==> |r[i].content| > 0
    ensures forall s :: s in r <==> s in subs && |s.content| > 0
    ensures |r| <= |subs|
    ensures (forall i :: 0 <= i < |subs| ==> |subs[i].content| > 0) ==> r == subs
  {
    if |subs| == 0 then []
    else if |subs[0].content| > 0 then [subs[0]] + FilterNonEmpty(subs[1..])
    else FilterNonEmpty(subs[1..])
  }

  /** Finalisation: append General and Options, drop empty subsections. */
  function Finish(st: WalkState): seq<Subsection> {
    FilterNonEmpty(Body(st) + OptionsSub(st.options))
  }

  // ---------------------------------------------------------------------
  // The declarative reference
  // ---------------------------------------------------------------------

  /** Lines of the nodes before the first h3/h4 of the segment. */
  function LinesBefore(kind: PageKind, nfkc: string -> string, seg: seq<Node>): seq<string>
    decreases |seg|
  {
    if |seg| == 0 || seg[0].SubHeading? then []
    else LineSeq(ContentLine(kind, nfkc, seg[0])) + LinesBefore(kind, nfkc, seg[1..])
  }

  /** One subsection per h3/h4, titled by its cleaned text and holding the
      lines up to the next h3/h4. */
  function Headed(kind: PageKind, nfkc: string -> string, seg: seq<Node>): seq<Subsection>
    decreases |seg|
  {
    if |seg| == 0 then []
    else if seg[0].SubHeading? then
      [Subsection(CleanText(nfkc, seg[0].text), LinesBefore(kind, nfkc, seg[1..]))] + Headed(kind, nfkc, seg[1..])
    else Headed(kind, nfkc, seg[1..])
  }

  /** Every Options line of the segment, whatever heading it sits under. */
  function AllOptionLines(kind: PageKind, nfkc: string -> string, seg: seq<Node>): seq<string>
    decreases |seg|
  {
    if |seg| == 0 then [] else OptionLines(kind, nfkc, seg[0]) + AllOptionLines(kind, nfkc, seg[1..])
  }

  /** The h3/h4 texts of a segment, in order. */
  function HeadingTexts(seg: seq<Node>): seq<string>
    decreases |seg|
  {
    if |seg| == 0 then []
    else if seg[0].SubHeading? then [seg[0].text] + HeadingTexts(seg[1..])
    else HeadingTexts(seg[1..])
  }

  /** The documentation an element gets, stated without a state machine. */
  function ReferenceDoc(kind: PageKind, nfkc: string -> string, seg: seq<Node>): seq<Subsection> {
    FilterNonEmpty(
      GeneralSub(LinesBefore(kind, nfkc, seg))
      + Headed(kind, nfkc, seg)
      + OptionsSub(AllOptionLines(kind, nfkc, seg)))
  }

  // ---------------------------------------------------------------------
  // Walk = reference
  // ---------------------------------------------------------------------

  lemma ConcatAssoc<T>(a: seq<T>, b: seq<T>, c: seq<T>)
    ensures a + b + c == a + (b + c)
  {
  }

  lemma ConsIndex<T>(x: T, s: seq<T>, m: nat)
    requires 0 < m <= |s|
    ensures ([x] + s)[m] == s[m - 1]
  {
  }

  lemma AbsorbTwice(st: WalkState, a: seq<string>, b: seq<string>)
    ensures Absorb(Absorb(st, a), b) == Absorb(st, a + b)
  {
    match st.current
    case Some(cur) =>
      assert cur.content + a + b == cur.content + (a + b);
    case None =>
      assert st.general + a + b == st.general + (a + b);
  }

  lemma AbsorbNothing(st: WalkState)
    ensures Absorb(st, []) == st
  {
    match st.current
    case Some(cur) =>
      assert cur.content + [] == cur.content;
    case None =>
      assert st.general + [] == st.general;
  }

  /** A non-heading node adds its line where prose goes; only the Options
      lines may change besides. */
  lemma StepAbsorbs(kind: PageKind, nfkc: string -> string, st: WalkState, n: Node, tail: seq<string>)
    requires !n.SubHeading?
    ensures Body(Absorb(Step(kind, nfkc, st, n), tail))
         == Body(Absorb(st, LineSeq(ContentLine(kind, nfkc, n)) + tail))
  {
    var line := ContentLine(kind, nfkc, n);
    if n.Dl? {
      assert line == None;
      assert [] + tail == tail;
      match st.current
      case Some(cur) =>
      case None =>
    } else if line.None? {
      assert Step(kind, nfkc, st, n) == st;
      assert [] + tail == tail;
    } else {
      assert Step(kind, nfkc, st, n) == Absorb(st, [line.value]);
      AbsorbTwice(st, [line.value], tail);
    }
  }

  /** A heading flushes the state and opens a subsection that collects what follows. */
  lemma StepOpens(kind: PageKind, nfkc: string -> string, st: WalkState, n: Node, tail: seq<string>)
    requires n.SubHeading?
    ensures Body(Absorb(Step(kind, nfkc, st, n), tail))
         == Body(st) + [Subsection(CleanText(nfkc, n.text), tail)]
  {
    assert [] + tail == tail;
  }

  /** The inductive step of `WalkBody` at an h3/h4. */
  lemma WalkBodyHeading(kind: PageKind, nfkc: string -> string, st: WalkState, n: Node, rest: seq<Node>)
    requires n.SubHeading?
    requires Body(Walk(kind, nfkc, Step(kind, nfkc, st, n), rest))
          == Body(Absorb(Step(kind, nfkc, st, n), LinesBefore(kind, nfkc, rest))) + Headed(kind, nfkc, rest)
    ensures Body(Walk(kind, nfkc, st, [n] + rest))
         == Body(Absorb(st, LinesBefore(kind, nfkc, [n] + rest))) + Headed(kind, nfkc, [n] + rest)
  {
    var seg := [n] + rest;
    assert seg[0] == n && seg[1..] == rest;
    var tail := LinesBefore(kind, nfkc, rest);
    var sub := Subsection(CleanText(nfkc, n.text), tail);
    assert LinesBefore(kind, nfkc, seg) == [];
    assert Headed(kind, nfkc, seg) == [sub] + Headed(kind, nfkc, rest);
    StepOpens(kind, nfkc, st, n, tail);
    AbsorbNothing(st);
    ConcatAssoc(Body(st), [sub], Headed(kind, nfkc, rest));
  }

  /** The inductive step of `WalkBody` at any other node. */
  lemma WalkBodyProse(kind: PageKind, nfkc: string -> string, st: WalkState, n: Node, rest: seq<Node>)
    requires !n.SubHeading?
    requires Body(Walk(kind, nfkc, Step(kind, nfkc, st, n), rest))
          == Body(Absorb(Step(kind, nfkc, st, n), LinesBefore(kind, nfkc, rest))) + Headed(kind, nfkc, rest)
    ensures Body(Walk(kind, nfkc, st, [n] + rest))
         == Body(Absorb(st, LinesBefore(kind, nfkc, [n] + rest))) + Headed(kind, nfkc, [n] + rest)
  {
    var seg := [n] + rest;
    assert seg[0] == n && seg[1..] == rest;
    var tail := LinesBefore(kind, nfkc, rest);
    LinesBeforeCons(kind, nfkc, n, rest);
    assert Headed(kind, nfkc, seg) == Headed(kind, nfkc, rest);
    StepAbsorbs(kind, nfkc, st, n, tail);
  }

  /** The walk's emitted subsections are those of the state it starts in, with
      the lines before the first heading appended where prose goes, followed
      by one subsection per heading. */
  lemma {:induction false} WalkBody(kind: PageKind, nfkc: string -> string, st: WalkState, seg: seq<Node>)
    ensures Body(Walk(kind, nfkc, st, seg))
         == Body(Absorb(st, LinesBefore(kind, nfkc, seg))) + Headed(kind, nfkc, seg)
    decreases |seg|
  {
    if |seg| == 0 {
      AbsorbNothing(st);
    } else {
      var n := seg[0];
      var rest := seg[1..];
      assert seg == [n] + rest;
      WalkBody(kind, nfkc, Step(kind, nfkc, st, n), rest);
      if n.SubHeading? {
        WalkBodyHeading(kind, nfkc, st, n, rest);
      } else {
        WalkBodyProse(kind, nfkc, st, n, rest);
      }
    }
  }

  lemma StepOptions(kind: PageKind, nfkc: string -> string, st: WalkState, n: Node)
    ensures Step(kind, nfkc, st, n).options == st.options + OptionLines(kind, nfkc, n)
  {
    if !n.Dl? || kind != CliPage {
      assert OptionLines(kind, nfkc, n) == [];
      assert st.options + [] == st.options;
      if !n.SubHeading? && !n.Dl? {
        match ContentLine(kind, nfkc, n)
        case Some(line) =>
          assert Absorb(st, [line]).options == st.options;
        case None =>
      }
    }
  }

  /** The walk collects every dl line of the segment into the Options bucket. */
  lemma {:induction false} WalkOptions(kind: PageKind, nfkc: string -> string, st: WalkState, seg: seq<Node>)
    ensures Walk(kind, nfkc, st, seg).options == st.options + AllOptionLines(kind, nfkc, seg)
    decreases |seg|
  {
    if |seg| == 0 {
      assert st.options + [] == st.options;
    } else {
      var n := seg[0];
      var st1 := Step(kind, nfkc, st, n);
      WalkOptions(kind, nfkc, st1, seg[1..]);
      StepOptions(kind, nfkc, st, n);
      assert Walk(kind, nfkc, st, seg) == Walk(kind, nfkc, st1, seg[1..]);
      assert AllOptionLines(kind, nfkc, seg) == OptionLines(kind, nfkc, n) + AllOptionLines(kind, nfkc, seg[1..]);
      ConcatAssoc(st.options, OptionLines(kind, nfkc, n), AllOptionLines(kind, nfkc, seg[1..]));
    }
  }

  /** The state machine computes the reference documentation. */
  lemma WalkIsReference(kind: PageKind, nfkc: string -> string, seg: seq<Node>)
    ensures Finish(Walk(kind, nfkc, Start, seg)) == ReferenceDoc(kind, nfkc, seg)
  {
    WalkBody(kind, nfkc, Start, seg);
    WalkOptions(kind, nfkc, Start, seg);
    var lines := LinesBefore(kind, nfkc, seg);
    assert Absorb(Start, lines) == WalkState([], None, [] + lines, []);
    assert [] + lines == lines;
    assert Body(Absorb(Start, lines)) == GeneralSub(lines);
    assert [] + AllOptionLines(kind, nfkc, seg) == AllOptionLines(kind, nfkc, seg);
  }

  // ---------------------------------------------------------------------
  // Consequences of the reference form
  // ---------------------------------------------------------------------

  lemma {:induction false} FilterAppend(a: seq<Subsection>, b: seq<Subsection>)
    ensures FilterNonEmpty(a + b) == FilterNonEmpty(a) + FilterNonEmpty(b)
    decreases |a|
  {
    if |a| == 0 {
      assert a + b == b;
    } else {
      assert (a + b)[1..] == a[1..] + b;
      FilterAppend(a[1..], b);
    }
  }

  /** A single subsection is kept exactly when it has content. With
      `FilterAppend` this fixes the filter on every list: the non-empty
      subsections, each kept, in their original order. */
  lemma FilterSingleton(s: Subsection)
    ensures FilterNonEmpty([s]) == if |s.content| > 0 then [s] else []
  {
    assert [s][1..] == [];
  }

  /** One subsection per h3/h4, titled by its cleaned text, in heading order:
      named headings are never merged, even when their titles coincide. */
  lemma {:induction false} HeadedTitles(kind: PageKind, nfkc: string -> string, seg: seq<Node>)
    ensures |Headed(kind, nfkc, seg)| == |HeadingTexts(seg)|
    ensures forall m :: 0 <= m < |HeadingTexts(seg)| ==>
              Headed(kind, nfkc, seg)[m].title == CleanText(nfkc, HeadingTexts(seg)[m])
    decreases |seg|
  {
    if |seg| > 0 {
      var rest := seg[1..];
      HeadedTitles(kind, nfkc, rest);
      var hs := Headed(kind, nfkc, rest);
      var ts := HeadingTexts(rest);
      if seg[0].SubHeading? {
        var t := seg[0].text;
        var sub := Subsection(CleanText(nfkc, t), LinesBefore(kind, nfkc, rest));
        assert Headed(kind, nfkc, seg) == [sub] + hs;
        assert HeadingTexts(seg) == [t] + ts;
        forall m | 0 < m < |ts| + 1
          ensures ([sub] + hs)[m].title == CleanText(nfkc, ([t] + ts)[m])
        {
          ConsIndex(sub, hs, m);
          ConsIndex(t, ts, m);
        }
      } else {
        assert Headed(kind, nfkc, seg) == hs;
        assert HeadingTexts(seg) == ts;
      }
    }
  }

  /** The dl lines of the whole segment: none on the settings and resolver pages. */
  lemma {:induction false} OptionsOnlyOnCli(kind: PageKind, nfkc: string -> string, seg: seq<Node>)
    requires kind != CliPage
    ensures AllOptionLines(kind, nfkc, seg) == []
    decreases |seg|
  {
    if |seg| > 0 {
      OptionsOnlyOnCli(kind, nfkc, seg[1..]);
    }
  }

  /** One step of `LinesBefore` on a node that is not a heading. */
  lemma LinesBeforeCons(kind: PageKind, nfkc: string -> string, x: Node, t: seq<Node>)
    requires !x.SubHeading?
    ensures LinesBefore(kind, nfkc, [x] + t) == LineSeq(ContentLine(kind, nfkc, x)) + LinesBefore(kind, nfkc, t)
  {
    assert ([x] + t)[0] == x;
    assert ([x] + t)[1..] == t;
  }

  /** The inductive step of `LinesBeforeNode`: a leading non-heading node
      contributes its line in front on both sides. */
  lemma LinesBeforeNodeStep(kind: PageKind, nfkc: string -> string, x: Node, a: seq<Node>, n: Node, b: seq<Node>)
    requires !x.SubHeading?
    requires LinesBefore(kind, nfkc, a + [n] + b) ==
             LinesBefore(kind, nfkc, a) + LineSeq(ContentLine(kind, nfkc, n)) + LinesBefore(kind, nfkc, b)
    ensures LinesBefore(kind, nfkc, [x] + a + [n] + b) ==
            LinesBefore(kind, nfkc, [x] + a) + LineSeq(ContentLine(kind, nfkc, n)) + LinesBefore(kind, nfkc, b)
  {
    var head := LineSeq(ContentLine(kind, nfkc, x));
    var rest := LinesBefore(kind, nfkc, a);
    var line := LineSeq(ContentLine(kind, nfkc, n));
    var tail := LinesBefore(kind, nfkc, b);
    assert [x] + a + [n] + b == [x] + (a + [n] + b);
    LinesBeforeCons(kind, nfkc, x, a + [n] + b);
    LinesBeforeCons(kind, nfkc, x, a);
    ConcatAssoc(head, rest, line);
    ConcatAssoc(head, rest + line, tail);
  }

  /** Before the first h3/h4, a node adds its line (if any) at its position. */
  lemma {:induction false} LinesBeforeNode(kind: PageKind, nfkc: string -> string, a: seq<Node>, n: Node, b: seq<Node>)
    requires !n.SubHeading?
    requires forall i :: 0 <= i < |a| ==> !a[i].SubHeading?
    ensures LinesBefore(kind, nfkc, a + [n] + b) ==
            LinesBefore(kind, nfkc, a) + LineSeq(ContentLine(kind, nfkc, n)) + LinesBefore(kind, nfkc, b)
    decreases |a|
  {
    if |a| == 0 {
      assert a + [n] + b == [n] + b;
      LinesBeforeCons(kind, nfkc, n, b);
    } else {
      var a' := a[1..];
      assert a == [a[0]] + a';
      LinesBeforeNode(kind, nfkc, a', n, b);
      LinesBeforeNodeStep(kind, nfkc, a[0], a', n, b);
    }
  }

  /** On the settings and resolver pages a highlight div before the next
      h3/h4 adds, at its position, exactly one line `"Example:\n" + code`
      when it holds a pre, and nothing when it does not. */
  lemma HighlightLine(kind: PageKind, nfkc: string -> string, a: seq<Node>, pre: Option<string>, b: seq<Node>)
    requires kind != CliPage
    requires forall i :: 0 <= i < |a| ==> !a[i].SubHeading?
    ensures LinesBefore(kind, nfkc, a + [HighlightDiv(pre)] + b) ==
            LinesBefore(kind, nfkc, a)
            + (if pre.Some? then ["Example:\n" + CleanCode(nfkc, pre.value)] else [])
            + LinesBefore(kind, nfkc, b)
  {
    LinesBeforeNode(kind, nfkc, a, HighlightDiv(pre), b);
  }

  /** Shape of an element's documentation: no empty subsection; at most one
      General subsection from the bucket, first, holding exactly the lines
      before the first heading; then the non-empty heading subsections; then,
      exactly when some dl supplied a pair, one Options subsection, last,
      aggregating every pair of the element. */
  lemma DocumentationShape(kind: PageKind, nfkc: string -> string, seg: seq<Node>)
    ensures var doc := ReferenceDoc(kind, nfkc, seg);
            var general := LinesBefore(kind, nfkc, seg);
            var opts := AllOptionLines(kind, nfkc, seg);
            && (forall i :: 0 <= i < |doc| ==> |doc[i].content| > 0)
            && doc == GeneralSub(general) + FilterNonEmpty(Headed(kind, nfkc, seg)) + OptionsSub(opts)
            && (|general| > 0 ==> doc[0] == Subsection("General", general))
            && (|opts| > 0 ==> doc[|doc| - 1] == Subsection("Options", opts))
  {
    var general := LinesBefore(kind, nfkc, seg);
    var headed := Headed(kind, nfkc, seg);
    var opts := AllOptionLines(kind, nfkc, seg);
    FilterAppend(GeneralSub(general) + headed, OptionsSub(opts));
    FilterAppend(GeneralSub(general), headed);
    assert FilterNonEmpty(GeneralSub(general)) == GeneralSub(general);
    assert FilterNonEmpty(OptionsSub(opts)) == OptionsSub(opts);
  }

  // ---------------------------------------------------------------------
  // Resolver description scan
  // ---------------------------------------------------------------------

  /** The pieces the resolver description scan adds for one node: `" " + text`
      for a p or an admonition div, `"\n- " + item` per li of a ul/ol. */
  function DescriptionPiece(nfkc: string -> string, n: Node): string {
    match n
    case Para(t) => " " + CleanText(nfkc, t)
    case AdmonitionDiv(t) => " " + CleanText(nfkc, t)
    case ListBlock(_, items) => ListItems(nfkc, items)
    case _ => ""
  }

  function ListItems(nfkc: string -> string, items: seq<string>): string
    decreases |items|
  {
    if |items| == 0 then "" else "\n- " + CleanText(nfkc, items[0]) + ListItems(nfkc, items[1..])
  }

  /** The scan loop from sibling `j` while the node is not h2, h3 or h4. */
  function DescriptionFrom(nfkc: string -> string, nodes: seq<Node>, j: nat): string
    decreases |nodes| - j
  {
    if j >= |nodes| || nodes[j].H2? || nodes[j].SubHeading? then ""
    else DescriptionPiece(nfkc, nodes[j]) + DescriptionFrom(nfkc, nodes, j + 1)
  }

  /** The same scan over a segment. */
  function DescriptionOf(nfkc: string -> string, seg: seq<Node>): string
    decreases |seg|
  {
    if |seg| == 0 || seg[0].H2? || seg[0].SubHeading? then ""
    else DescriptionPiece(nfkc, seg[0]) + DescriptionOf(nfkc, seg[1..])
  }

  /** The resolver description is built only from the nodes before the
      element's first h3/h4: whatever follows the first heading is ignored. */
  lemma {:induction false} DescriptionStopsAtHeading(nfkc: string -> string, seg: seq<Node>, more: seq<Node>)
    requires more == [] || more[0].SubHeading? || more[0].H2?
    ensures DescriptionOf(nfkc, seg + more) == DescriptionOf(nfkc, seg)
    decreases |seg|
  {
    if |seg| == 0 {
      assert seg + more == more;
    } else {
      assert (seg + more)[1..] == seg[1..] + more;
      DescriptionStopsAtHeading(nfkc, seg[1..], more);
    }
  }

  // ---------------------------------------------------------------------
  // Elements and pages
  // ---------------------------------------------------------------------

  /** The siblings after position `j` up to (not including) the next h2. */
  function SegmentFrom(nodes: seq<Node>, j: nat): (seg: seq<Node>)
    ensures forall i :: 0 <= i < |seg| ==> !seg[i].H2?
    decreases |nodes| - j
  {
    if j >= |nodes| || nodes[j].H2? then [] else [nodes[j]] + SegmentFrom(nodes, j + 1)
  }

  /** The element for the h2 at position `i`, as the source loop computes it:
      name from the heading, description from `find_next('p')` (or, on the
      resolver page, from the description scan), documentation from the walk. */
  function ElementAt(kind: PageKind, nfkc: string -> string, nodes: seq<Node>, i: nat): Element
    requires i < |nodes| && nodes[i].H2?
  {
    var description :=
      if kind == ResolverPage then Strip(DescriptionFrom(nfkc, nodes, i + 1))
      else CleanText(nfkc, nodes[i].nextP.GetOr(""));
    Element(CleanText(nfkc, nodes[i].text), description, Finish(WalkFrom(kind, nfkc, Start, nodes, i + 1)))
  }

  /** The element an h2 node and the segment after it determine. */
  function ElementOf(kind: PageKind, nfkc: string -> string, h: Node, seg: seq<Node>): Element
    requires h.H2?
  {
    var description :=
      if kind == ResolverPage then Strip(DescriptionOf(nfkc, seg))
      else CleanText(nfkc, h.nextP.GetOr(""));
    Element(CleanText(nfkc, h.text), description, ReferenceDoc(kind, nfkc, seg))
  }

  lemma {:induction false} WalkFromIsWalk(kind: PageKind, nfkc: string -> string, st: WalkState, nodes: seq<Node>, j: nat)
    ensures WalkFrom(kind, nfkc, st, nodes, j) == Walk(kind, nfkc, st, SegmentFrom(nodes, j))
    decreases |nodes| - j
  {
    if j < |nodes| && !nodes[j].H2? {
      WalkFromIsWalk(kind, nfkc, Step(kind, nfkc, st, nodes[j]), nodes, j + 1);
      assert SegmentFrom(nodes, j)[1..] == SegmentFrom(nodes, j + 1);
    }
  }

  lemma {:induction false} DescriptionFromIsOf(nfkc: string -> string, nodes: seq<Node>, j: nat)
    ensures DescriptionFrom(nfkc, nodes, j) == DescriptionOf(nfkc, SegmentFrom(nodes, j))
    decreases |nodes| - j
  {
    if j < |nodes| && !nodes[j].H2? {
      DescriptionFromIsOf(nfkc, nodes, j + 1);
      assert SegmentFrom(nodes, j)[1..] == SegmentFrom(nodes, j + 1);
    }
  }

  /** The walk stops at the next h2: the segment after position |pre| is
      exactly `seg` whatever `pre` is and whatever follows the next h2. */
  lemma {:induction false} SegmentLocal(pre: seq<Node>, seg: seq<Node>, post: seq<Node>)
    requires forall i :: 0 <= i < |seg| ==> !seg[i].H2?
    requires post == [] || post[0].H2?
    ensures SegmentFrom(pre + seg + post, |pre|) == seg
    decreases |seg|
  {
    var nodes := pre + seg + post;
    if |seg| == 0 {
      assert nodes == pre + post;
    } else {
      assert nodes == (pre + [seg[0]]) + seg[1..] + post;
      SegmentLocal(pre + [seg[0]], seg[1..], post);
    }
  }

  /** An element depends only on its h2 and the siblings before the next h2:
      nodes before the h2 and nodes from the next h2 on never affect it. */
  lemma ElementLocal(kind: PageKind, nfkc: string -> string, pre: seq<Node>, h: Node, seg: seq<Node>, post: seq<Node>)
    requires h.H2?
    requires forall i :: 0 <= i < |seg| ==> !seg[i].H2?
    requires post == [] || post[0].H2?
    ensures var nodes := pre + [h] + seg + post;
            ElementAt(kind, nfkc, nodes, |pre|) == ElementOf(kind, nfkc, h, seg)
  {
    var front := pre + [h];
    var nodes := front + seg + post;
    assert pre + [h] + seg + post == nodes;
    assert nodes[|pre|] == h;
    SegmentLocal(front, seg, post);
    assert SegmentFrom(nodes, |pre| + 1) == seg;
    ElementAtIsOf(kind, nfkc, nodes, |pre|);
  }

  /** The element at an h2 is the one its following segment determines. */
  lemma ElementAtIsOf(kind: PageKind, nfkc: string -> string, nodes: seq<Node>, i: nat)
    requires i < |nodes| && nodes[i].H2?
    ensures ElementAt(kind, nfkc, nodes, i) == ElementOf(kind, nfkc, nodes[i], SegmentFrom(nodes, i + 1))
  {
    var seg := SegmentFrom(nodes, i + 1);
    WalkFromIsWalk(kind, nfkc, Start, nodes, i + 1);
    DescriptionFromIsOf(nfkc, nodes, i + 1);
    WalkIsReference(kind, nfkc, seg);
  }

  /** The positions of the h2 nodes from position `j` on, in document order. */
  function H2Positions(nodes: seq<Node>, j: nat): (ps: seq<nat>)
    ensures forall m :: 0 <= m < |ps| ==> j <= ps[m] < |nodes| && nodes[ps[m]].H2?
    ensures forall m, m' :: 0 <= m < m' < |ps| ==> ps[m] < ps[m']
    ensures forall i :: j <= i < |nodes| && nodes[i].H2? ==> i in ps
    decreases |nodes| - j
  {
    if j >= |nodes| then []
    else if nodes[j].H2? then [j] + H2Positions(nodes, j + 1)
    else H2Positions(nodes, j + 1)
  }

  /** `for section in content.find_all('h2')`: one element per h2, built
      from that h2's position. */
  function Elements(kind: PageKind, nfkc: string -> string, nodes: seq<Node>): seq<Element> {
    var ps := H2Positions(nodes, 0);
    seq(|ps|, m requires 0 <= m < |ps| => ElementAt(kind, nfkc, nodes, ps[m]))
  }

  /** The payload a fetched page yields: `{}` without a content container, and
      on the resolver page also when there is no h2; otherwise a
      documentation section with one element per h2. */
  function ExtractPage(kind: PageKind, nfkc: string -> string, page: Page): Payload {
    match page
    case NoContainer => Empty
    case Container(nodes) =>
      if kind == ResolverPage && |H2Positions(nodes, 0)| == 0 then Empty
      else DocSection(SectionName(kind), Elements(kind, nfkc, nodes))
  }

  /** Where the `m`-th h2's segment ends: at the next h2, or at the end of
      the nodes after the last h2. */
  function SegmentEnd(nodes: seq<Node>, m: nat): (e: nat)
    requires m < |H2Positions(nodes, 0)|
    ensures H2Positions(nodes, 0)[m] < e <= |nodes|
  {
    var ps := H2Positions(nodes, 0);
    if m + 1 < |ps| then ps[m + 1] else |nodes|
  }

  /** A segment is the slice up to the first h2 at or after its start. */
  lemma {:induction false} SegmentSlice(nodes: seq<Node>, j: nat, k: nat)
    requires j <= k <= |nodes|
    requires forall i :: j <= i < k ==> !nodes[i].H2?
    requires k == |nodes| || nodes[k].H2?
    ensures SegmentFrom(nodes, j) == nodes[j..k]
    decreases k - j
  {
    if j < k {
      SegmentSlice(nodes, j + 1, k);
      assert nodes[j..k] == [nodes[j]] + nodes[j + 1..k];
    }
  }

  /** The segment of the `m`-th h2 is exactly the nodes strictly between it
      and the next h2 (or the end). */
  lemma H2Segment(nodes: seq<Node>, m: nat)
    requires m < |H2Positions(nodes, 0)|
    ensures var ps := H2Positions(nodes, 0);
            SegmentFrom(nodes, ps[m] + 1) == nodes[ps[m] + 1..SegmentEnd(nodes, m)]
  {
    var ps := H2Positions(nodes, 0);
    var e := SegmentEnd(nodes, m);
    forall i | ps[m] + 1 <= i < e
      ensures !nodes[i].H2?
    {
      forall m' | 0 <= m' < |ps|
        ensures ps[m'] != i
      {
        if m' > m {
          assert ps[m + 1] <= ps[m'];
        }
      }
    }
    SegmentSlice(nodes, ps[m] + 1, e);
  }

  /** What a fetched page yields: `{}` without a content container; on the
      resolver page also `{}` exactly when there is no h2; otherwise the
      section's name and one element per h2, in document order, each named
      after its h2 and built by the reference description from the nodes
      strictly between that h2 and the next one, and from nothing else. */
  lemma ExtractPageShape(kind: PageKind, nfkc: string -> string, page: Page)
    ensures var p := ExtractPage(kind, nfkc, page);
            && (page.NoContainer? ==> p == Empty)
            && (page.Container? && kind != ResolverPage ==> p.DocSection?)
            && (page.Container? && kind == ResolverPage ==> (p.DocSection? <==> |H2Positions(page.nodes, 0)| > 0))
            && (p.DocSection? ==>
                  var ps := H2Positions(page.nodes, 0);
                  && p.section == SectionName(kind)
                  && |p.elements| == |ps|
                  && forall m :: 0 <= m < |p.elements| ==>
                       && p.elements[m].name == CleanText(nfkc, page.nodes[ps[m]].text)
                       && p.elements[m] == PageElement(kind, nfkc, page.nodes, m))
  {
    var p := ExtractPage(kind, nfkc, page);
    if p.DocSection? {
      forall m | 0 <= m < |p.elements|
        ensures p.elements[m] == PageElement(kind, nfkc, page.nodes, m)
      {
        ElementIsOwnSegment(kind, nfkc, page.nodes, m);
      }
    }
  }

  /** The element of the `m`-th h2, built from that h2 and the nodes
      strictly between it and the next h2. */
  function PageElement(kind: PageKind, nfkc: string -> string, nodes: seq<Node>, m: nat): Element
    requires m < |H2Positions(nodes, 0)|
  {
    var ps := H2Positions(nodes, 0);
    ElementOf(kind, nfkc, nodes[ps[m]], nodes[ps[m] + 1..SegmentEnd(nodes, m)])
  }

  /** The `m`-th element the source loop builds is the one its own h2 and
      segment determine. */
  lemma ElementIsOwnSegment(kind: PageKind, nfkc: string -> string, nodes: seq<Node>, m: nat)
    requires m < |H2Positions(nodes, 0)|
    ensures Elements(kind, nfkc, nodes)[m] == PageElement(kind, nfkc, nodes, m)
  {
    var i := H2Positions(nodes, 0)[m];
    ElementsAt(kind, nfkc, nodes, m);
    ElementAtIsOf(kind, nfkc, nodes, i);
    PageElementIsOf(kind, nfkc, nodes, m);
  }

  /** The `m`-th element is built at the `m`-th h2. */
  lemma ElementsAt(kind: PageKind, nfkc: string -> string, nodes: seq<Node>, m: nat)
    requires m < |H2Positions(nodes, 0)|
    ensures Elements(kind, nfkc, nodes)[m] == ElementAt(kind, nfkc, nodes, H2Positions(nodes, 0)[m])
  {
  }

  /** `PageElement` reads the segment the walk of the `m`-th h2 visits. */
  lemma PageElementIsOf(kind: PageKind, nfkc: string -> string, nodes: seq<Node>, m: nat)
    requires m < |H2Positions(nodes, 0)|
    ensures var i := H2Positions(nodes, 0)[m];
            PageElement(kind, nfkc, nodes, m) == ElementOf(kind, nfkc, nodes[i], SegmentFrom(nodes, i + 1))
  {
    H2Segment(nodes, m);
  }
}
