/**
 The searcher agent (agents/searcher.py). For every outline entry it queries four
 search tools with `topic: cleaned entry`, keeps the dict items of the tools that
 answered with a list, tags each kept item with the entry as written and appends it to
 the section's results; the per-section lists are then concatenated in outline order
 into the evidence pool the writer reads.
 */
module Searcher {
  import opened Strings
  import opened Records
  import opened Utils

  /** The four search tools, each called with a query and a maximum number of results;
      awaiting one with `return_exceptions=True` gives its list or its exception. */
  datatype Providers = Providers(
    tavily: (string, nat) -> Outcome,
    arxiv: (string, nat) -> Outcome,
    scholar: (string, nat) -> Outcome,
    news: (string, nat) -> Outcome)

  /** The query sent for one outline entry: the topic, a colon and the cleaned entry.
      Nothing follows the colon exactly when the entry is made only of markers. */
  function SectionQuery(topic: string, section: string): (q: string)
    ensures topic + ": " <= q && |q| <= |topic| + 2 + |section|
    ensures |q| == |topic| + 2 <==> AllMarkers(section)
  {
    CleanSectionTitleEmpty(section);
    topic + ": " + CleanSectionTitle(section)
  }

  /** The four provider results for a query, in the order they are gathered. */
  function Outcomes(p: Providers, query: string): (outs: seq<Outcome>)
    ensures |outs| == 4
    ensures outs[0] == p.tavily(query, 5) && outs[1] == p.arxiv(query, 3)
    ensures outs[2] == p.scholar(query, 3) && outs[3] == p.news(query, 3)
  {
    [p.tavily(query, 5), p.arxiv(query, 3), p.scholar(query, 3), p.news(query, 3)]
  }

  /** A record tagged with the section it was found for: `section` is set, overwriting
      any earlier value, and every other field is kept. */
  function Tag(f: Fields, section: string): (r: Fields)
    ensures r.Keys == f.Keys + {SectionKey}
    ensures r[SectionKey] == Str(section)
    ensures forall k :: k in f && k != SectionKey ==> r[k] == f[k]
  {
    f[SectionKey := Str(section)]
  }

  /** The tagged dict items of one provider list, in list order. */
  function Tagged(elems: seq<Element>, section: string): (r: seq<Fields>)
    ensures |r| == DictCount(elems)
  {
    if elems == [] then []
    else
      var last := elems[|elems| - 1];
      Tagged(elems[..|elems| - 1], section) + (if last.DictItem? then [Tag(last.fields, section)] else [])
  }

  /** The tagged dict items of every provider that answered with a list, in provider order;
      a provider that raised contributes nothing. */
  function Harvest(outs: seq<Outcome>, section: string): (r: seq<Fields>)
    ensures |r| == ItemCount(outs)
  {
    if outs == [] then []
    else
      var last := outs[|outs| - 1];
      Harvest(outs[..|outs| - 1], section) + (if last.Items? then Tagged(last.elems, section) else [])
  }

  /** What `search_section` returns for one outline entry. */
  function SectionEvidence(p: Providers, topic: string, section: string): seq<Fields> {
    Harvest(Outcomes(p, SectionQuery(topic, section)), section)
  }

  /** `search_section`: the four providers are queried with the section's query and
      their results are collected. */
  method SearchSection(p: Providers, section: string, topic: string) returns (results: seq<Fields>)
    ensures results == SectionEvidence(p, topic, section)
  {
    var query := SectionQuery(topic, section);
    var outs := Outcomes(p, query);
    results := CollectResults(outs, section);
  }

  /** The loop of `search_section` over the gathered results: it walks the provider
      results and then each list, appending every dict item tagged with the section as
      written, and skips a provider that raised. */
  method CollectResults(outs: seq<Outcome>, section: string) returns (results: seq<Fields>)
    ensures results == Harvest(outs, section)
  {
    results := [];
    var i := 0;
    while i < |outs|
      invariant 0 <= i <= |outs|
      invariant results == Harvest(outs[..i], section)
    {
      match outs[i] {
        case Items(elems) =>
          ghost var before := results;
          var j := 0;
          while j < |elems|
            invariant 0 <= j <= |elems|
            invariant results == before + Tagged(elems[..j], section)
          {
            if elems[j].DictItem? {
              results := results + [Tag(elems[j].fields, section)];
            }
            assert elems[..j + 1][..j] == elems[..j];
            j := j + 1;
          }
          assert elems[..j] == elems;
        case Failed(_) =>
      }
      assert outs[..i + 1][..i] == outs[..i];
      i := i + 1;
    }
    assert outs[..i] == outs;
  }

  /** Bullets or numbers in front of an outline entry and whitespace after it do not
      change what is looked up: the entry is searched with the query of its clean title. */
  lemma SectionQueryIgnoresMarkers(topic: string, m: string, core: string, w: string)
    requires AllMarkers(m) && AllSpace(w)
    requires core != [] && !IsMarker(core[0]) && !IsSpace(core[|core| - 1])
    ensures SectionQuery(topic, m + core + w) == SectionQuery(topic, core)
  {
    CleanSectionTitleWrapped(m, core, w);
    CleanSectionTitleKeeps(core);
  }

  /** The tagged items of two runs of elements are those of the first, then the second. */
  lemma {:induction false} TaggedAppend(a: seq<Element>, b: seq<Element>, section: string)
    ensures Tagged(a + b, section) == Tagged(a, section) + Tagged(b, section)
  {
    if b == [] {
      assert a + b == a;
    } else {
      var b' := b[..|b| - 1];
      assert (a + b)[..|a + b| - 1] == a + b';
      TaggedAppend(a, b', section);
    }
  }

  /** Provider order is kept: the harvest of two runs of results is that of the first,
      then that of the second. */
  lemma {:induction false} HarvestAppend(a: seq<Outcome>, b: seq<Outcome>, section: string)
    ensures Harvest(a + b, section) == Harvest(a, section) + Harvest(b, section)
  {
    if b == [] {
      assert a + b == a;
    } else {
      var b' := b[..|b| - 1];
      assert (a + b)[..|a + b| - 1] == a + b';
      HarvestAppend(a, b', section);
    }
  }

  /** A provider that raised contributes nothing, wherever it stands. */
  lemma HarvestSkipsFailed(a: seq<Outcome>, error: string, b: seq<Outcome>, section: string)
    ensures Harvest(a + [Failed(error)] + b, section) == Harvest(a + b, section)
  {
    HarvestAppend(a + [Failed(error)], b, section);
    HarvestAppend(a, [Failed(error)], section);
    HarvestAppend(a, b, section);
    assert Harvest([Failed(error)], section) == [];
  }

  /** The items of a section are exactly the dict items of its lists, each with the
      section tag set and every other field as the provider returned it. */
  lemma {:induction false} TaggedMember(elems: seq<Element>, section: string, f: Fields)
    ensures f in Tagged(elems, section) <==> exists g :: DictItem(g) in elems && f == Tag(g, section)
  {
    if elems != [] {
      var init, last := elems[..|elems| - 1], elems[|elems| - 1];
      TaggedMember(init, section, f);
      assert elems == init + [last];
      if exists g :: DictItem(g) in elems && f == Tag(g, section) {
        var g :| DictItem(g) in elems && f == Tag(g, section);
        if DictItem(g) != last {
          assert DictItem(g) in init;
        }
      }
    }
  }

  /** Every harvested item comes from a dict item of a provider that answered with a list,
      and carries the section tag. */
  lemma {:induction false} HarvestMember(outs: seq<Outcome>, section: string, f: Fields)
    requires f in Harvest(outs, section)
    ensures SectionKey in f && f[SectionKey] == Str(section)
    ensures exists k, g :: 0 <= k < |outs| && outs[k].Items? && DictItem(g) in outs[k].elems && f == Tag(g, section)
  {
    var init, last := outs[..|outs| - 1], outs[|outs| - 1];
    if f in Harvest(init, section) {
      HarvestMember(init, section, f);
      var k, g :| 0 <= k < |init| && init[k].Items? && DictItem(g) in init[k].elems && f == Tag(g, section);
      assert outs[k] == init[k];
    } else {
      TaggedMember(last.elems, section, f);
      var g :| DictItem(g) in last.elems && f == Tag(g, section);
      assert outs[|outs| - 1] == last;
    }
  }

  /** The number of dict items in a provider list. */
  function DictCount(elems: seq<Element>): nat {
    if elems == [] then 0
    else DictCount(elems[..|elems| - 1]) + (if elems[|elems| - 1].DictItem? then 1 else 0)
  }

  /** The number of dict items across the providers that answered with a list. */
  function ItemCount(outs: seq<Outcome>): nat {
    if outs == [] then 0
    else
      var last := outs[|outs| - 1];
      ItemCount(outs[..|outs| - 1]) + (if last.Items? then DictCount(last.elems) else 0)
  }

  /** What awaiting one section's task yields: its list, or the exception it raised. */
  datatype SectionTask = Done(items: seq<Fields>) | Crashed(error: string)

  /** The number of records the finished tasks returned. */
  function FinishedLength(tasks: seq<SectionTask>): nat {
    if tasks == [] then 0
    else
      var last := tasks[|tasks| - 1];
      FinishedLength(tasks[..|tasks| - 1]) + (if last.Done? then |last.items| else 0)
  }

  /** The per-section lists concatenated in task order; a crashed task adds nothing. */
  function Flatten(tasks: seq<SectionTask>): (pool: seq<Fields>)
    ensures |pool| == FinishedLength(tasks)
  {
    if tasks == [] then []
    else
      var last := tasks[|tasks| - 1];
      Flatten(tasks[..|tasks| - 1]) + (if last.Done? then last.items else [])
  }

  predicate NothingFound(search: string -> seq<Fields>, outline: seq<string>) {
    forall k :: 0 <= k < |outline| ==> search(outline[k]) == []
  }

  /** The concatenation is empty exactly when every entry's list is. */
  lemma {:induction false} ConcatEmpty(search: string -> seq<Fields>, outline: seq<string>)
    ensures Concat(search, outline) == [] <==> NothingFound(search, outline)
  {
    if outline != [] {
      var init := outline[..|outline| - 1];
      ConcatEmpty(search, init);
      assert forall k :: 0 <= k < |init| ==> init[k] == outline[k];
    }
  }

  /** The lists `search` gives for the entries of an outline, concatenated in outline order. */
  function Concat(search: string -> seq<Fields>, outline: seq<string>): seq<Fields> {
    if outline == [] then []
    else Concat(search, outline[..|outline| - 1]) + search(outline[|outline| - 1])
  }

  /** The evidence pool for an outline: the sections' results in outline order. */
  function Pool(p: Providers, topic: string, outline: seq<string>): (pool: seq<Fields>)
    ensures pool == [] <==> NothingFound(s => SectionEvidence(p, topic, s), outline)
  {
    ConcatEmpty(s => SectionEvidence(p, topic, s), outline);
    Concat(s => SectionEvidence(p, topic, s), outline)
  }

  /** The flattening loop of `_run_concurrent_searches`: every list is added to the
      result with `extend`, every exception is skipped. */
  method CollectSections(tasks: seq<SectionTask>) returns (pool: seq<Fields>)
    ensures pool == Flatten(tasks)
  {
    pool := [];
    for k := 0 to |tasks|
      invariant pool == Flatten(tasks[..k])
    {
      if tasks[k].Done? {
        pool := pool + tasks[k].items;
      }
      assert tasks[..k + 1][..k] == tasks[..k];
    }
    assert tasks[..|tasks|] == tasks;
  }

  /** `_run_concurrent_searches`: one search per outline entry, gathered in outline order,
      then flattened. */
  method RunConcurrentSearches(p: Providers, outline: seq<string>, topic: string) returns (pool: seq<Fields>)
    ensures pool == Pool(p, topic, outline)
  {
    var tasks: seq<SectionTask> := [];
    for k := 0 to |outline|
      invariant Flatten(tasks) == Pool(p, topic, outline[..k])
    {
      var items := SearchSection(p, outline[k], topic);
      tasks := tasks + [Done(items)];
      assert outline[..k + 1][..k] == outline[..k];
    }
    assert outline[..|outline|] == outline;
    pool := CollectSections(tasks);
  }

  /** `run_searcher_agent`: an empty outline gives an empty pool; otherwise the pool of
      the outline. */
  method RunSearcherAgent(p: Providers, outline: seq<string>, topic: string) returns (pool: seq<Fields>)
    ensures outline == [] ==> pool == []
    ensures pool == Pool(p, topic, outline)
  {
    if outline == [] {
      return [];
    }
    pool := RunConcurrentSearches(p, outline, topic);
  }

  /** Task order is kept: flattening two runs of tasks gives the first's items, then the second's. */
  lemma {:induction false} FlattenAppend(a: seq<SectionTask>, b: seq<SectionTask>)
    ensures Flatten(a + b) == Flatten(a) + Flatten(b)
  {
    if b == [] {
      assert a + b == a;
    } else {
      var b' := b[..|b| - 1];
      assert (a + b)[..|a + b| - 1] == a + b';
      FlattenAppend(a, b');
    }
  }

  /** A section task that raised contributes nothing, wherever it stands. */
  lemma FlattenSkipsCrashed(a: seq<SectionTask>, error: string, b: seq<SectionTask>)
    ensures Flatten(a + [Crashed(error)] + b) == Flatten(a + b)
  {
    FlattenAppend(a + [Crashed(error)], b);
    FlattenAppend(a, [Crashed(error)]);
    FlattenAppend(a, b);
    assert Flatten([Crashed(error)]) == [];
  }

  /** Outline order is kept: the pool of two runs of entries is the first's, then the second's. */
  lemma PoolAppend(p: Providers, topic: string, a: seq<string>, b: seq<string>)
    ensures Pool(p, topic, a + b) == Pool(p, topic, a) + Pool(p, topic, b)
  {
    ConcatAppend(s => SectionEvidence(p, topic, s), a, b);
  }

  lemma {:induction false} ConcatAppend(search: string -> seq<Fields>, a: seq<string>, b: seq<string>)
    ensures Concat(search, a + b) == Concat(search, a) + Concat(search, b)
  {
    if b == [] {
      assert a + b == a;
    } else {
      var b' := b[..|b| - 1];
      assert (a + b)[..|a + b| - 1] == a + b' && (a + b)[|a + b| - 1] == b[|b| - 1];
      ConcatAppend(search, a, b');
    }
  }

  /** Every item of the pool is tagged with an entry of the outline. */
  lemma {:induction false} PoolTagsInOutline(p: Providers, topic: string, outline: seq<string>, f: Fields)
    requires f in Pool(p, topic, outline)
    ensures SectionKey in f && f[SectionKey].Str? && f[SectionKey].s in outline
  {
    var init, last := outline[..|outline| - 1], outline[|outline| - 1];
    if f in Pool(p, topic, init) {
      PoolTagsInOutline(p, topic, init, f);
      assert forall s :: s in init ==> s in outline;
    } else {
      HarvestMember(Outcomes(p, SectionQuery(topic, last)), last, f);
    }
  }
}
