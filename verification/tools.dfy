/** The `search-documentation` tool and the tool dispatch of
    `src/uv_docs/tools.py`: a corpus built from the cached sections, a
    three-pass additive relevance score, a threshold, a sort on
    `(score, text)` tuples and a top-3 cut. Scores count quarter points,
    since every weight is a multiple of 0.25. */
module Tools {
  import opened Wrappers
  import opened Text
  import opened Document
  import opened Extractor
  import opened CacheStore
  import opened CacheTool
  import opened Ordering

  // ---------------------------------------------------------------------
  // The corpus
  // ---------------------------------------------------------------------

  /** One searchable resource, built from one cached element. */
  datatype Resource = Resource(path: string, name: string, description: string,
                               searchText: string, section: string, content: string)

  /** The titles that enter the search text: every subsection title except
      `General` and `Options`, in order. */
  function Titles(docs: seq<Subsection>): (ts: seq<string>)
    ensures |ts| <= |docs|
    ensures forall j :: 0 <= j < |ts| ==> ts[j] != "General" && ts[j] != "Options"
    ensures forall k :: 0 <= k < |docs| && docs[k].title != "General" && docs[k].title != "Options" ==>
              docs[k].title in ts
    ensures forall j :: 0 <= j < |ts| ==> exists k :: 0 <= k < |docs| && docs[k].title == ts[j]
    ensures |docs| == 1 ==> ts == if docs[0].title != "General" && docs[0].title != "Options" then [docs[0].title] else []
  {
    if |docs| == 0 then []
    else
      var rest := Titles(docs[1..]);
      assert forall k :: 1 <= k < |docs| ==> docs[k] == docs[1..][k - 1];
      if docs[0].title == "General" || docs[0].title == "Options" then rest
      else [docs[0].title] + rest
  }

  /** The titles of a concatenation are the titles of the parts, in order. */
  lemma {:induction false} TitlesAppend(a: seq<Subsection>, b: seq<Subsection>)
    ensures Titles(a + b) == Titles(a) + Titles(b)
    decreases |a|
  {
    if |a| > 0 {
      assert (a + b)[1..] == a[1..] + b;
      TitlesAppend(a[1..], b);
    } else {
      assert a + b == b;
    }
  }

  /** At most the first three content lines of a subsection. */
  function FirstThree(lines: seq<string>): seq<string> {
    if |lines| <= 3 then lines else lines[..3]
  }

  /** `content_text`: for every subsection, a space and then its first
      three content lines joined by spaces. */
  function ContentText(docs: seq<Subsection>): string {
    if |docs| == 0 then ""
    else ContentText(docs[..|docs| - 1]) + " " + Join(FirstThree(docs[|docs| - 1].content), " ")
  }

  /** Only the first three lines of each subsection reach the search text:
      two documentations with as many subsections, agreeing subsection by
      subsection on those lines, give the same content text. */
  lemma {:induction false} ContentTextFirstThree(a: seq<Subsection>, b: seq<Subsection>)
    requires |a| == |b|
    requires forall k :: 0 <= k < |a| ==> FirstThree(a[k].content) == FirstThree(b[k].content)
    ensures ContentText(a) == ContentText(b)
  {
    if |a| > 0 {
      ContentTextFirstThree(a[..|a| - 1], b[..|b| - 1]);
    }
  }

  /** The resource for element `e` of `section`: path
      `uv-docs://{section}/{lowercased name}` and search text
      `{name} {description} {titles} {content}`. */
  function MakeResource(section: string, e: Element): Resource {
    var content := ContentText(e.documentation);
    Resource("uv-docs://" + section + "/" + Lower(e.name), e.name, e.description,
             e.name + " " + e.description + " " + Join(Titles(e.documentation), ", ") + " " + content,
             section, content)
  }

  /** The resources of one cached section file: one per element when the
      payload has `elements`, none otherwise. */
  function SectionResources(section: string, j: Json): (rs: seq<Resource>)
    ensures j.Doc? && j.payload.DocSection? ==>
              |rs| == |j.payload.elements| &&
              forall i :: 0 <= i < |rs| ==> rs[i] == MakeResource(section, j.payload.elements[i])
    ensures !(j.Doc? && j.payload.DocSection?) ==> rs == []
    ensures forall i :: 0 <= i < |rs| ==> rs[i].section == section
  {
    if j.Doc? && j.payload.DocSection? then ResourcesOf(section, j.payload.elements) else []
  }

  function ResourcesOf(section: string, es: seq<Element>): (rs: seq<Resource>)
    ensures |rs| == |es|
    ensures forall i :: 0 <= i < |rs| ==> rs[i] == MakeResource(section, es[i])
    ensures forall i :: 0 <= i < |rs| ==> rs[i].section == section
  {
    if |es| == 0 then [] else [MakeResource(section, es[0])] + ResourcesOf(section, es[1..])
  }

  /** Every resource belongs to one of the three documentation sections. */
  predicate InSections(rs: seq<Resource>) {
    forall i :: 0 <= i < |rs| ==> rs[i].section in ["cli", "settings", "resolver"]
  }

  lemma InSectionsAppend(a: seq<Resource>, b: seq<Resource>)
    requires InSections(a) && InSections(b)
    ensures InSections(a + b)
  {
    forall i | 0 <= i < |a + b| ensures (a + b)[i].section in ["cli", "settings", "resolver"] {
      if i < |a| { assert (a + b)[i] == a[i]; } else { assert (a + b)[i] == b[i - |a|]; }
    }
  }

  /** The resources of the `m`-th cached section, `cli`, `settings` or
      `resolver`: as many as the file holds elements, all of that section. */
  function StoredResources(store: Store, m: nat): (rs: seq<Resource>)
    requires m < 3
    ensures |rs| == ElementsStored(store, m)
    ensures forall i :: 0 <= i < |rs| ==> rs[i].section == SectionName(Kinds[m])
    ensures ReadFile(store, SectionKey(m)).Doc? && ReadFile(store, SectionKey(m)).payload.DocSection? ==>
              forall i :: 0 <= i < |rs| ==>
                rs[i] == MakeResource(SectionName(Kinds[m]), ReadFile(store, SectionKey(m)).payload.elements[i])
    ensures InSections(rs)
  {
    SectionResources(SectionName(Kinds[m]), ReadFile(store, SectionKey(m)))
  }

  /** All resources, section by section in the order `cli`, `settings`,
      `resolver`. */
  function Corpus(store: Store): (rs: seq<Resource>)
    ensures |rs| == ElementsStored(store, 0) + ElementsStored(store, 1) + ElementsStored(store, 2)
    ensures InSections(rs)
    ensures forall i :: 0 <= i < |rs| ==>
              rs[i].section == (if i < ElementsStored(store, 0) then "cli"
                                else if i < ElementsStored(store, 0) + ElementsStored(store, 1) then "settings"
                                else "resolver")
    ensures var n0, n1 := ElementsStored(store, 0), ElementsStored(store, 1);
            && rs[..n0] == StoredResources(store, 0)
            && rs[n0..n0 + n1] == StoredResources(store, 1)
            && rs[n0 + n1..] == StoredResources(store, 2)
  {
    var cli := StoredResources(store, 0);
    var settings := StoredResources(store, 1);
    var resolver := StoredResources(store, 2);
    assert Kinds[0] == CliPage && Kinds[1] == SettingsPage && Kinds[2] == ResolverPage;
    assert SectionName(CliPage) == "cli" && SectionName(SettingsPage) == "settings"
        && SectionName(ResolverPage) == "resolver";
    CorpusBlocks(cli, settings, resolver);
    BlockContents(cli, settings, resolver);
    InSectionsAppend(cli, settings);
    InSectionsAppend(cli + settings, resolver);
    cli + settings + resolver
  }

  /** Concatenated blocks of one section each keep that section, block by
      block. */
  lemma CorpusBlocks(cli: seq<Resource>, settings: seq<Resource>, resolver: seq<Resource>)
    requires forall i :: 0 <= i < |cli| ==> cli[i].section == "cli"
    requires forall i :: 0 <= i < |settings| ==> settings[i].section == "settings"
    requires forall i :: 0 <= i < |resolver| ==> resolver[i].section == "resolver"
    ensures var rs := cli + settings + resolver;
            forall i :: 0 <= i < |rs| ==>
              rs[i].section == (if i < |cli| then "cli" else if i < |cli| + |settings| then "settings" else "resolver")
  {
    var rs := cli + settings + resolver;
    forall i | 0 <= i < |rs|
      ensures rs[i].section == (if i < |cli| then "cli" else if i < |cli| + |settings| then "settings" else "resolver")
    {
      if i < |cli| {
        assert rs[i] == cli[i];
      } else if i < |cli| + |settings| {
        assert rs[i] == settings[i - |cli|];
      } else {
        assert rs[i] == resolver[i - |cli| - |settings|];
      }
    }
  }

  /** Each block of a three-block concatenation is the slice at its offset. */
  lemma BlockContents(a: seq<Resource>, b: seq<Resource>, c: seq<Resource>)
    ensures var rs := a + b + c;
            rs[..|a|] == a && rs[|a|..|a| + |b|] == b && rs[|a| + |b|..] == c
  {
    var rs := a + b + c;
    assert rs == a + (b + c);
    assert rs[|a|..] == b + c;
    assert rs[|a|..|a| + |b|] == (b + c)[..|b|];
  }

  /** The number of elements the `m`-th section file holds, 0 when it is
      missing, corrupt or has no `elements`. */
  function ElementsStored(store: Store, m: nat): nat
    requires m < 3
  {
    match ReadFile(store, SectionKey(m))
    case Doc(p) => ElementCount(p)
    case VersionInfo(_) => 0
  }

  // ---------------------------------------------------------------------
  // Relevance
  // ---------------------------------------------------------------------

  /** `[k.lower() for k in query.split()]` */
  function Keywords(query: string): (kws: seq<string>)
    ensures |kws| == |Words(query)|
    ensures forall i :: 0 <= i < |kws| ==> kws[i] == Lower(Words(query)[i])
  {
    LowerAll(Words(query))
  }

  function LowerAll(ws: seq<string>): (r: seq<string>)
    ensures |r| == |ws|
    ensures forall i :: 0 <= i < |r| ==> r[i] == Lower(ws[i])
  {
    if |ws| == 0 then [] else [Lower(ws[0])] + LowerAll(ws[1..])
  }

  /** A blank query has no keywords. */
  lemma BlankQueryNoKeywords(query: string)
    requires AllSpace(query)
    ensures Keywords(query) == []
  {
    WordsShape(query);
  }

  /** First pass, section part: 3 for the exact section, else 2 for a
      part of it. */
  function SectionWeight(kw: string, section: string): (q: nat)
    ensures q == 12 <==> kw == section
    ensures q == 8 <==> kw != section && Contains(section, kw)
    ensures q == 0 <==> !Contains(section, kw)
  {
    assert kw == section ==> StartsWith(section, kw);
    if kw == section then 12 else if Contains(section, kw) then 8 else 0
  }

  /** First pass, name part: 2 for the exact (lower-cased) name, else 1 for
      a part of it. */
  function NameWeight(kw: string, name: string): (q: nat)
    ensures q == 8 <==> kw == name
    ensures q == 4 <==> kw != name && Contains(name, kw)
    ensures q == 0 <==> !Contains(name, kw)
  {
    assert kw == name ==> StartsWith(name, kw);
    if kw == name then 8 else if Contains(name, kw) then 4 else 0
  }

  /** First pass, one keyword: the section part plus the name part. */
  function FirstPassWeight(kw: string, section: string, name: string): (q: nat)
    ensures q == SectionWeight(kw, section) + NameWeight(kw, name)
    ensures q <= 20
    ensures q == 0 <==> !Contains(section, kw) && !Contains(name, kw)
    ensures kw == section ==> q >= 12
    ensures Contains(section, kw) ==> q >= 8
    ensures kw == name ==> q >= 8
    ensures Contains(name, kw) ==> q >= 4
  {
    SectionWeight(kw, section) + NameWeight(kw, name)
  }

  /** Second pass, one keyword: 0.75 for a whole-word occurrence in the
      (lower-cased) search text, else 0.5 for any occurrence. */
  function SecondPassWeight(kw: string, text: string): (q: nat)
    ensures q <= 3
    ensures q > 0 <==> Contains(text, kw)
    ensures q == 3 <==> Contains(" " + text + " ", " " + kw + " ")
    ensures q == 2 <==> Contains(text, kw) && !Contains(" " + text + " ", " " + kw + " ")
  {
    if Contains(" " + text + " ", " " + kw + " ") then
      PaddedContains(text, kw);
      3
    else if Contains(text, kw) then 2
    else 0
  }

  /** The first pass sums `FirstPassWeight` over the keywords; it scores
      nothing exactly when no keyword occurs in the section or the name. */
  function FirstPass(kws: seq<string>, section: string, name: string): (q: nat)
    ensures q <= 20 * |kws|
    ensures forall k :: 0 <= k < |kws| && kws[k] == section ==> q >= 12
    ensures q == 0 <==> forall k :: 0 <= k < |kws| ==> !Contains(section, kws[k]) && !Contains(name, kws[k])
    ensures |kws| == 1 ==> q == FirstPassWeight(kws[0], section, name)
  {
    if |kws| == 0 then 0
    else
      assert forall k :: 1 <= k < |kws| ==> kws[k] == kws[1..][k - 1];
      FirstPassWeight(kws[0], section, name) + FirstPass(kws[1..], section, name)
  }

  /** The second pass sums `SecondPassWeight` over the keywords; it scores
      nothing exactly when no keyword occurs in the search text. */
  function SecondPass(kws: seq<string>, text: string): (q: nat)
    ensures q <= 3 * |kws|
    ensures q == 0 <==> forall k :: 0 <= k < |kws| ==> !Contains(text, kws[k])
    ensures |kws| == 1 ==> q == SecondPassWeight(kws[0], text)
  {
    if |kws| == 0 then 0
    else
      assert forall k :: 1 <= k < |kws| ==> kws[k] == kws[1..][k - 1];
      SecondPassWeight(kws[0], text) + SecondPass(kws[1..], text)
  }

  /** Third pass: a quarter point per keyword that `get_close_matches`
      (the parameter `close`) pairs with the name or the section. */
  function FuzzyPass(kws: seq<string>, name: string, section: string,
                     close: (string, seq<string>) -> bool): (q: nat)
    ensures q <= |kws|
    ensures q == 0 <==> forall k :: 0 <= k < |kws| ==> !close(kws[k], [name, section])
    ensures q == |kws| <==> forall k :: 0 <= k < |kws| ==> close(kws[k], [name, section])
    ensures |kws| == 1 ==> q == (if close(kws[0], [name, section]) then 1 else 0)
  {
    if |kws| == 0 then 0
    else
      assert forall k :: 1 <= k < |kws| ==> kws[k] == kws[1..][k - 1];
      (if close(kws[0], [name, section]) then 1 else 0) + FuzzyPass(kws[1..], name, section, close)
  }

  /** Each pass is a sum over the keywords: scoring a concatenation of
      keyword lists adds the scores of the parts. */
  lemma {:induction false} FirstPassAppend(a: seq<string>, b: seq<string>, section: string, name: string)
    ensures FirstPass(a + b, section, name) == FirstPass(a, section, name) + FirstPass(b, section, name)
    decreases |a|
  {
    if |a| > 0 {
      assert (a + b)[1..] == a[1..] + b;
      FirstPassAppend(a[1..], b, section, name);
    } else {
      assert a + b == b;
    }
  }

  lemma {:induction false} SecondPassAppend(a: seq<string>, b: seq<string>, text: string)
    ensures SecondPass(a + b, text) == SecondPass(a, text) + SecondPass(b, text)
    decreases |a|
  {
    if |a| > 0 {
      assert (a + b)[1..] == a[1..] + b;
      SecondPassAppend(a[1..], b, text);
    } else {
      assert a + b == b;
    }
  }

  lemma {:induction false} FuzzyPassAppend(a: seq<string>, b: seq<string>, name: string, section: string,
                                           close: (string, seq<string>) -> bool)
    ensures FuzzyPass(a + b, name, section, close) == FuzzyPass(a, name, section, close) + FuzzyPass(b, name, section, close)
    decreases |a|
  {
    if |a| > 0 {
      assert (a + b)[1..] == a[1..] + b;
      FuzzyPassAppend(a[1..], b, name, section, close);
    } else {
      assert a + b == b;
    }
  }

  /** The score of the first two passes: nothing exactly when no keyword
      occurs in the section, the name or the search text. */
  function ExactScore(kws: seq<string>, res: Resource): (q: nat)
    ensures q == 0 <==> forall k :: 0 <= k < |kws| ==>
              !Contains(res.section, kws[k]) && !Contains(Lower(res.name), kws[k]) &&
              !Contains(Lower(res.searchText), kws[k])
  {
    FirstPass(kws, res.section, Lower(res.name)) + SecondPass(kws, Lower(res.searchText))
  }

  /** `calculate_relevance`, in quarter points: the fuzzy pass runs only
      when the first two passes scored below 1.0, and then adds a quarter
      point for each keyword close to the name or the section. */
  function Relevance(kws: seq<string>, res: Resource, close: (string, seq<string>) -> bool): (q: nat)
    ensures ExactScore(kws, res) <= q
    ensures ExactScore(kws, res) >= 4 ==> q == ExactScore(kws, res)
    ensures ExactScore(kws, res) < 4 ==> q <= ExactScore(kws, res) + |kws|
    ensures ExactScore(kws, res) < 4 ==> q == ExactScore(kws, res) + FuzzyPass(kws, Lower(res.name), res.section, close)
    ensures ExactScore(kws, res) < 4 ==>
              (q > ExactScore(kws, res) <==>
               exists k :: 0 <= k < |kws| && close(kws[k], [Lower(res.name), res.section]))
    ensures ExactScore(kws, res) < 4 && (forall k :: 0 <= k < |kws| ==> close(kws[k], [Lower(res.name), res.section])) ==>
              q == ExactScore(kws, res) + |kws|
    ensures q <= 23 * |kws|
    ensures |kws| == 0 ==> q == 0
    ensures forall k :: 0 <= k < |kws| && kws[k] == res.section ==> q > 1
  {
    var exact := ExactScore(kws, res);
    if exact < 4 then exact + FuzzyPass(kws, Lower(res.name), res.section, close) else exact
  }

  // ---------------------------------------------------------------------
  // Filtering, ordering, truncation
  // ---------------------------------------------------------------------

  /** The formatted result text of a resource. */
  function Format(res: Resource): string {
    "Resource: " + res.path + "\nName: " + res.name + "\nDescription: " + res.description
  }

  function HitOf(kws: seq<string>, res: Resource, close: (string, seq<string>) -> bool): Hit {
    (Relevance(kws, res, close), Format(res))
  }

  /** The `(score, text)` pairs of the resources scoring above 0.25, in
      corpus order. */
  function Scored(kws: seq<string>, corpus: seq<Resource>, close: (string, seq<string>) -> bool): (hits: seq<Hit>)
    ensures |hits| <= |corpus|
    ensures forall i :: 0 <= i < |hits| ==> hits[i].0 > 1
    ensures |corpus| == 1 ==>
              hits == if Relevance(kws, corpus[0], close) > 1 then [HitOf(kws, corpus[0], close)] else []
  {
    if |corpus| == 0 then []
    else
      var rest := Scored(kws, corpus[1..], close);
      if Relevance(kws, corpus[0], close) > 1 then [HitOf(kws, corpus[0], close)] + rest else rest
  }

  /** Scoring keeps corpus order and multiplicity: the hits of a
      concatenation are the hits of the parts, in order. */
  lemma {:induction false} ScoredAppend(kws: seq<string>, a: seq<Resource>, b: seq<Resource>,
                                        close: (string, seq<string>) -> bool)
    ensures Scored(kws, a + b, close) == Scored(kws, a, close) + Scored(kws, b, close)
    decreases |a|
  {
    if |a| > 0 {
      assert (a + b)[1..] == a[1..] + b;
      ScoredAppend(kws, a[1..], b, close);
    } else {
      assert a + b == b;
    }
  }

  /** Every scored pair comes from a resource scoring above 0.25. */
  lemma {:induction false} ScoredSound(kws: seq<string>, corpus: seq<Resource>, close: (string, seq<string>) -> bool)
    ensures forall h :: h in Scored(kws, corpus, close) ==>
              exists k :: 0 <= k < |corpus| && Relevance(kws, corpus[k], close) > 1 && h == HitOf(kws, corpus[k], close)
    decreases |corpus|
  {
    if |corpus| > 0 {
      var tail := corpus[1..];
      ScoredSound(kws, tail, close);
      var rest := Scored(kws, tail, close);
      forall h | h in Scored(kws, corpus, close)
        ensures exists k :: 0 <= k < |corpus| && Relevance(kws, corpus[k], close) > 1 && h == HitOf(kws, corpus[k], close)
      {
        if h in rest {
          var k :| 0 <= k < |tail| && Relevance(kws, tail[k], close) > 1 && h == HitOf(kws, tail[k], close);
          assert tail[k] == corpus[k + 1];
        } else {
          assert Relevance(kws, corpus[0], close) > 1 && h == HitOf(kws, corpus[0], close);
        }
      }
    }
  }

  /** Every resource scoring above 0.25 contributes its pair. */
  lemma {:induction false} ScoredComplete(kws: seq<string>, corpus: seq<Resource>, close: (string, seq<string>) -> bool)
    ensures forall k :: 0 <= k < |corpus| && Relevance(kws, corpus[k], close) > 1 ==>
              HitOf(kws, corpus[k], close) in Scored(kws, corpus, close)
    decreases |corpus|
  {
    if |corpus| > 0 {
      var tail := corpus[1..];
      ScoredComplete(kws, tail, close);
      forall k | 0 <= k < |corpus| && Relevance(kws, corpus[k], close) > 1
        ensures HitOf(kws, corpus[k], close) in Scored(kws, corpus, close)
      {
        if k > 0 {
          assert corpus[k] == tail[k - 1];
        }
      }
    }
  }

  /** A pair is among the scored results exactly when it is the
      `(score, text)` of some resource scoring above 0.25. */
  lemma {:induction false} ScoredMembers(kws: seq<string>, corpus: seq<Resource>, close: (string, seq<string>) -> bool)
    ensures forall h :: h in Scored(kws, corpus, close) <==>
              exists k :: 0 <= k < |corpus| && Relevance(kws, corpus[k], close) > 1 && h == HitOf(kws, corpus[k], close)
  {
    ScoredSound(kws, corpus, close);
    ScoredComplete(kws, corpus, close);
  }

  /** `results.sort(reverse=True)` then `results[:3]`. */
  function Rank(hits: seq<Hit>): seq<Hit> {
    var sorted := SortDesc(hits);
    if |sorted| <= 3 then sorted else sorted[..3]
  }

  /** The hits the cut drops. */
  function Dropped(hits: seq<Hit>): seq<Hit> {
    var sorted := SortDesc(hits);
    if |sorted| <= 3 then [] else sorted[3..]
  }

  /** The ranking keeps the best `min(3, n)` hits, in order: what it keeps
      and what it drops make up the hits, and every kept hit is at or above
      every dropped one. */
  lemma RankIsTop(hits: seq<Hit>)
    ensures var top, rest := Rank(hits), Dropped(hits);
            && |top| == (if |hits| <= 3 then |hits| else 3)
            && SortedDesc(top)
            && multiset(top) + multiset(rest) == multiset(hits)
            && forall i, j :: 0 <= i < |top| && 0 <= j < |rest| ==> Above(top[i], rest[j])
  {
    var sorted := SortDesc(hits);
    assert |sorted| == |multiset(sorted)| == |multiset(hits)| == |hits|;
    if |sorted| > 3 {
      assert sorted == sorted[..3] + sorted[3..];
      var top, rest := Rank(hits), Dropped(hits);
      forall i, j | 0 <= i < |top| && 0 <= j < |rest| ensures Above(top[i], rest[j]) {
        assert top[i] == sorted[i] && rest[j] == sorted[3 + j];
      }
    }
  }

  /** Ties are broken by the result text, not by discovery order: any
      rearrangement of the hits ranks the same. */
  lemma RankIgnoresOrder(a: seq<Hit>, b: seq<Hit>)
    requires multiset(a) == multiset(b)
    ensures Rank(a) == Rank(b)
  {
    SortedUnique(SortDesc(a), SortDesc(b));
  }

  /** The reply text of a search over the given keywords. */
  function SearchReply(kws: seq<string>, corpus: seq<Resource>, close: (string, seq<string>) -> bool): string {
    var top := Rank(Scored(kws, corpus, close));
    if |top| == 0 then "No matching resources found."
    else "Best matching resources:\n\n" + Join(Texts(top), "\n\n")
  }

  function Texts(hits: seq<Hit>): (ts: seq<string>)
    ensures |ts| == |hits|
    ensures forall i :: 0 <= i < |ts| ==> ts[i] == hits[i].1
  {
    if |hits| == 0 then [] else [hits[0].1] + Texts(hits[1..])
  }

  /** The search reports no match exactly when no resource scores above
      0.25. */
  lemma {:induction false} NoMatchIffNothingScores(kws: seq<string>, corpus: seq<Resource>,
                                                   close: (string, seq<string>) -> bool)
    ensures SearchReply(kws, corpus, close) == "No matching resources found." <==>
            forall k :: 0 <= k < |corpus| ==> Relevance(kws, corpus[k], close) <= 1
  {
    var hits := Scored(kws, corpus, close);
    ScoredMembers(kws, corpus, close);
    RankIsTop(hits);
    var top := Rank(hits);
    if |top| > 0 {
      var reply := SearchReply(kws, corpus, close);
      assert reply[0] == 'B' != "No matching resources found."[0];
      assert hits[0] in hits;
      var k :| 0 <= k < |corpus| && Relevance(kws, corpus[k], close) > 1 && hits[0] == HitOf(kws, corpus[k], close);
    } else {
      forall k | 0 <= k < |corpus| ensures Relevance(kws, corpus[k], close) <= 1 {
        var c := corpus[k];
        assert Relevance(kws, c, close) > 1 ==> HitOf(kws, c, close) in hits;
      }
    }
  }

  /** A blank query matches nothing. */
  lemma BlankQueryFindsNothing(query: string, corpus: seq<Resource>, close: (string, seq<string>) -> bool)
    requires AllSpace(query)
    ensures SearchReply(Keywords(query), corpus, close) == "No matching resources found."
  {
    BlankQueryNoKeywords(query);
    NoMatchIffNothingScores(Keywords(query), corpus, close);
  }

  // ---------------------------------------------------------------------
  // call_tool
  // ---------------------------------------------------------------------

  /** `call_tool`. `update-cache` runs the refresh (the same flow as
      `call_cache_tool`); `search-documentation` needs a non-empty
      `arguments` object with a string `query`; any other name raises
      `ValueError`. A raise is a `Failure` carrying its message. */
  method CallTool(name: string, args: Arguments, store: Store, nfkc: string -> string,
                  close: (string, seq<string>) -> bool,
                  checkPypi: PypiReply, checkDocs: DocsReply, pypi: PypiReply, docs: DocsReply,
                  versionWrite: WriteOutcome, pages: seq<Result<Page, string>>, writes: seq<WriteOutcome>)
    returns (r: Store, out: Result<string, string>)
    requires |pages| == 3 && |writes| == 3
    ensures name != "update-cache" ==> r == store
    ensures name == "update-cache" ==>
              && out == Success(Render(ExpectedReply(store, nfkc, Forced(args), checkPypi, checkDocs, pypi, docs,
                                                     versionWrite, pages, writes)))
              && RefreshEffect(store, r, nfkc, pypi, docs, versionWrite, pages, writes,
                               ExpectedReply(store, nfkc, Forced(args), checkPypi, checkDocs, pypi, docs,
                                             versionWrite, pages, writes))
    ensures name == "search-documentation" && (args.None? || |args.value| == 0 || "query" !in args.value) ==>
              out == Failure("Missing required argument: query")
    ensures name == "search-documentation" && args.Some? && "query" in args.value && args.value["query"].Str? ==>
              out == Success(SearchReply(Keywords(args.value["query"].text), Corpus(store), close))
    ensures name == "search-documentation" && args.Some? && "query" in args.value && args.value["query"].Flag? ==>
              out == Failure("'bool' object has no attribute 'split'")
    ensures name != "update-cache" && name != "search-documentation" ==> out == Failure("Unknown tool: " + name)
  {
    if name == "update-cache" {
      r, out := CallCacheTool(name, args, store, nfkc, checkPypi, checkDocs, pypi, docs, versionWrite, pages, writes);
    } else if name == "search-documentation" {
      r := store;
      if args.None? || |args.value| == 0 || "query" !in args.value {
        out := Failure("Missing required argument: query");
      } else {
        match args.value["query"] {
          case Str(query) =>
            out := Success(SearchReply(Keywords(query), Corpus(store), close));
          case Flag(_) =>
            out := Failure("'bool' object has no attribute 'split'");
        }
      }
    } else {
      r := store;
      out := Failure("Unknown tool: " + name);
    }
  }
}
