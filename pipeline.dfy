/**
 How the searcher's pool and the writer's selection fit together. The lemmas compose
 `run_searcher_agent` with `run_writer_agent(writer, pool)` directly; they do not go
 through graph.py, whose writer node passes three arguments to that two-argument
 function. The search tools are functions of the query, so equal outline entries are
 taken to get equal answers.
 */
module Pipeline {
  import opened Strings
  import opened Records
  import opened Utils
  import opened Searcher
  import opened Writer

  /** The outline entries equal to a heading, in outline order. */
  function Matching(outline: seq<string>, h: string): (r: seq<string>)
    ensures forall k :: 0 <= k < |r| ==> r[k] == h
    ensures |r| > 0 <==> h in outline
  {
    if outline == [] then []
    else
      var init, last := outline[..|outline| - 1], outline[|outline| - 1];
      assert outline == init + [last];
      Matching(init, h) + (if last == h then [h] else [])
  }

  lemma PoolSnoc(p: Providers, topic: string, outline: seq<string>)
    requires outline != []
    ensures Pool(p, topic, outline) == Pool(p, topic, outline[..|outline| - 1]) + SectionEvidence(p, topic, outline[|outline| - 1])
  {
  }

  /** Among records that all carry the tag `s`, a heading selects all of them when it is
      `s` and none otherwise. */
  lemma {:induction false} ContextOfTagged(items: seq<Fields>, s: string, h: string)
    requires forall f :: f in items ==> SectionKey in f && f[SectionKey] == Str(s)
    ensures SectionContext(items, h) == if s == h then items else []
  {
    if items != [] {
      var init := items[..|items| - 1];
      assert forall f :: f in init ==> f in items;
      ContextOfTagged(init, s, h);
      var last := items[|items| - 1];
      assert items == init + [last];
      assert SectionKey in last;
    }
  }

  /** The writer's selection for a heading out of the searcher's pool is the evidence
      searched for the outline entries equal to that heading, in outline order. */
  lemma {:induction false} PoolContext(p: Providers, topic: string, outline: seq<string>, h: string)
    ensures SectionContext(Pool(p, topic, outline), h) == Pool(p, topic, Matching(outline, h))
  {
    if outline != [] {
      var init, last := outline[..|outline| - 1], outline[|outline| - 1];
      PoolSnoc(p, topic, outline);
      SectionContextAppend(Pool(p, topic, init), SectionEvidence(p, topic, last), h);
      PoolContext(p, topic, init, h);
      EvidenceContext(p, topic, last, h);
      if last == h {
        PoolExtend(p, topic, Matching(init, h), h);
      } else {
        assert Matching(init, h) + [] == Matching(init, h);
      }
    }
  }

  /** The evidence searched for one entry is selected whole by that entry and not at all
      by any other heading. */
  lemma EvidenceContext(p: Providers, topic: string, s: string, h: string)
    ensures SectionContext(SectionEvidence(p, topic, s), h) == if s == h then SectionEvidence(p, topic, s) else []
  {
    var evidence := SectionEvidence(p, topic, s);
    forall f | f in evidence ensures SectionKey in f && f[SectionKey] == Str(s) {
      HarvestMember(Outcomes(p, SectionQuery(topic, s)), s, f);
    }
    ContextOfTagged(evidence, s, h);
  }

  lemma PoolExtend(p: Providers, topic: string, entries: seq<string>, h: string)
    ensures Pool(p, topic, entries + [h]) == Pool(p, topic, entries) + SectionEvidence(p, topic, h)
  {
    PoolAppend(p, topic, entries, [h]);
    PoolSnoc(p, topic, [h]);
  }

  /** The evidence searched for copies of one entry is empty exactly when one search for
      it is. */
  lemma {:induction false} PoolOfCopies(p: Providers, topic: string, copies: seq<string>, h: string)
    requires copies != [] && forall k :: 0 <= k < |copies| ==> copies[k] == h
    ensures Pool(p, topic, copies) == [] <==> SectionEvidence(p, topic, h) == []
  {
    PoolSnoc(p, topic, copies);
    if |copies| > 1 {
      PoolOfCopies(p, topic, copies[..|copies| - 1], h);
    }
  }

  /** An entry that occurs once in the outline gets exactly the evidence searched for it. */
  lemma UniqueEntryContext(p: Providers, topic: string, outline: seq<string>, k: nat)
    requires k < |outline| && forall m :: 0 <= m < |outline| && m != k ==> outline[m] != outline[k]
    ensures SectionContext(Pool(p, topic, outline), outline[k]) == SectionEvidence(p, topic, outline[k])
  {
    var h := outline[k];
    MatchingOnce(outline, k);
    PoolContext(p, topic, outline, h);
    PoolSnoc(p, topic, [h]);
  }

  lemma {:induction false} MatchingOnce(outline: seq<string>, k: nat)
    requires k < |outline| && forall m :: 0 <= m < |outline| && m != k ==> outline[m] != outline[k]
    ensures Matching(outline, outline[k]) == [outline[k]]
  {
    var h := outline[k];
    var init, last := outline[..|outline| - 1], outline[|outline| - 1];
    if k == |outline| - 1 {
      assert h !in init;
    } else {
      assert init[k] == h;
      MatchingOnce(init, k);
    }
  }

  /** Through the writer's entry point, only outline entries are written. */
  lemma WrittenHeadingsAreOutlineEntries(p: Providers, topic: string, outline: seq<string>, h: string)
    requires h in UniqueSections(Pool(p, topic, outline))
    ensures h in outline
  {
    var pool := Pool(p, topic, outline);
    UniqueSectionsMember(pool, h);
    var f :| f in pool && SectionKey in f && f[SectionKey] == Str(h);
    PoolTagsInOutline(p, topic, outline, f);
  }

  /** Through the writer's entry point, an outline entry is written exactly when its
      searches found something (a non-empty entry, as the planner always gives). */
  lemma WrittenExactlyWithEvidence(p: Providers, topic: string, outline: seq<string>, h: string)
    requires h in outline && h != ""
    ensures h in UniqueSections(Pool(p, topic, outline)) <==> SectionEvidence(p, topic, h) != []
  {
    var pool := Pool(p, topic, outline);
    PoolContext(p, topic, outline, h);
    PoolOfCopies(p, topic, Matching(outline, h), h);
    UniqueSectionsMember(pool, h);
    if SectionEvidence(p, topic, h) != [] {
      var f := SectionContext(pool, h)[0];
      SectionContextMember(pool, h, f);
    } else if h in UniqueSections(pool) {
      WrittenHeadingsHaveContext(pool, h);
    }
  }

  /** Written over the outline, there is one section per entry, and entry `k` gets the
      fixed "Insufficient information" body when its searches found nothing; it has
      records to send to the writer model exactly when they found something. */
  lemma OutlineSectionFallback(writer: WriterModel, p: Providers, topic: string, outline: seq<string>, k: nat)
    requires k < |outline|
    ensures var pool := Pool(p, topic, outline);
      var h := outline[k];
      |WriteOutline(writer, outline, pool)| == |outline|
      && (SectionContext(pool, h) == [] <==> SectionEvidence(p, topic, h) == [])
      && (SectionEvidence(p, topic, h) == [] ==>
            WriteOutline(writer, outline, pool)[k] == Header(CleanSectionTitle(h)) + Insufficient)
  {
    PoolContext(p, topic, outline, outline[k]);
    PoolOfCopies(p, topic, Matching(outline, outline[k]), outline[k]);
  }

  /** As written, the writer's entry point takes its headings from the pool rather than
      from the outline: an entry whose searches found nothing gets no section at all, and
      the others come in ascending order rather than outline order. */
  lemma HeadingsFromPool(writer: WriterModel, outline: seq<string>, pool: seq<Fields>)
    requires outline == ["C", "B", "A"]
    requires pool == [map[SectionKey := Str("B")], map[SectionKey := Str("A")]]
    ensures UniqueSections(pool) == ["A", "B"]
    ensures |RunWriterAgent(writer, pool)| == 2 && |WriteOutline(writer, outline, pool)| == 3
  {
    TagsOfTwo(pool);
    SortedOfTwo();
  }

  lemma TagsOfTwo(pool: seq<Fields>)
    requires pool == [map[SectionKey := Str("B")], map[SectionKey := Str("A")]]
    ensures Tags(pool) == ["B", "A"]
  {
    var b, a := pool[0], pool[1];
    assert Truthy(Get(b, SectionKey, Null)) && Truthy(Get(a, SectionKey, Null));
    assert pool[..1] == [b] && [b][..0] == pool[..0];
    assert Tags([b]) == ["B"];
  }

  lemma SortedOfTwo()
    ensures SortedDistinct(["B", "A"]) == ["A", "B"]
  {
    var one: seq<string> := ["B"];
    assert ["B", "A"][..1] == one && one[..0] == [];
    assert SortedDistinct(one) == one;
    assert Less("A", "B");
  }
}
