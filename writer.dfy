/**
 The writer agent (agents/writer.py). The sections it writes are the distinct section
 tags found in the evidence pool, in ascending order. For each one it selects the
 pool's records tagged with exactly that heading, formats them into a context string
 and asks the writer model for the section body; the body is put under a `###` header
 holding the cleaned heading. A heading without records gets a fixed body and no
 model call, and a failed call gets an error body.
 */
module Writer {
  import opened Strings
  import opened Records
  import opened Utils

  const BlockSeparator := "\n\n---\n\n"
  const Insufficient := "Insufficient information to write this section."
  const ApiErrorPrefix := "Error: Could not generate content for this section due to an API error: "
  const NoResults := "Error: No search results were provided to the writer."

  /** The writer model, called with the cleaned heading and the context string. */
  type WriterModel = (string, string) -> Reply

  /** A pool record that belongs to a heading: a non-empty dict whose tag is that exact
      heading, as written in the outline. */
  predicate Relevant(res: Fields, heading: string) {
    res != map[] && Get(res, SectionKey, Null) == Str(heading)
  }

  /** The records of the pool that belong to a heading, in pool order. */
  function SectionContext(pool: seq<Fields>, heading: string): (ctx: seq<Fields>)
    ensures |ctx| <= |pool|
    ensures forall k :: 0 <= k < |ctx| ==> Relevant(ctx[k], heading)
  {
    if pool == [] then []
    else
      var last := pool[|pool| - 1];
      SectionContext(pool[..|pool| - 1], heading) + (if Relevant(last, heading) then [last] else [])
  }

  /** The content shown for a record: its summary if that is a non-empty string, otherwise
      its content, otherwise "N/A". */
  function ContentOf(res: Fields): (v: Value)
    ensures Truthy(Get(res, "summary", Null)) ==> v == res["summary"]
    ensures !Truthy(Get(res, "summary", Null)) && "content" in res ==> v == res["content"]
    ensures !Truthy(Get(res, "summary", Null)) && "content" !in res ==> v == Str("N/A")
  {
    var summary := Get(res, "summary", Null);
    if Truthy(summary) then summary else Get(res, "content", Str("N/A"))
  }

  /** The block of the context string that shows one record: its title line first, its
      content last. */
  function ContextBlock(res: Fields): (block: string)
    ensures "**Source Title:** " <= block
    ensures EndsWith(block, Render(ContentOf(res)))
  {
    var content := Render(ContentOf(res));
    var front := "**Source Title:** " + Render(Get(res, "title", Str("N/A"))) + "\n**Content:** ";
    assert (front + content)[|front + content| - |content|..] == content;
    "**Source Title:** " + Render(Get(res, "title", Str("N/A"))) + "\n**Content:** " + Render(ContentOf(res))
  }

  /** One block per record, in record order. */
  function Blocks(ctx: seq<Fields>): (r: seq<string>)
    ensures |r| == |ctx|
    ensures forall k :: 0 <= k < |ctx| ==> r[k] == ContextBlock(ctx[k])
  {
    seq(|ctx|, k requires 0 <= k < |ctx| => ContextBlock(ctx[k]))
  }

  /** The context string handed to the writer model: empty without records, otherwise
      it starts with the first record's block and ends with the last one's. */
  function ContextString(ctx: seq<Fields>): (text: string)
    ensures ctx == [] ==> text == ""
    ensures ctx != [] ==> ContextBlock(ctx[0]) <= text && EndsWith(text, ContextBlock(ctx[|ctx| - 1]))
  {
    var blocks := Blocks(ctx);
    if blocks == [] then ""
    else
      JoinStartsWithFirst(BlockSeparator, blocks);
      JoinEndsWithLast(BlockSeparator, blocks);
      Join(BlockSeparator, blocks)
  }

  /** The header every written section starts with: a level-three heading line holding
      the cleaned heading, then a blank line. */
  function Header(cleaned: string): (h: string)
    ensures |h| == |cleaned| + 6
    ensures "### " <= h && h[4..4 + |cleaned|] == cleaned
    ensures EndsWith(h, "\n\n")
  {
    "### " + cleaned + "\n\n"
  }

  /** `write_section`: a heading without records gets the fixed body and the model is not
      consulted; otherwise the body is the model's answer, or an error body if it raised.
      Every result starts with the header of the cleaned heading. */
  function WriteSection(writer: WriterModel, heading: string, pool: seq<Fields>): (r: string)
    ensures Header(CleanSectionTitle(heading)) <= r
    ensures SectionContext(pool, heading) == [] ==> r == Header(CleanSectionTitle(heading)) + Insufficient
    ensures SectionContext(pool, heading) != [] ==>
      var reply := writer(CleanSectionTitle(heading), ContextString(SectionContext(pool, heading)));
      r == Header(CleanSectionTitle(heading)) + (if reply.Ok? then reply.content else ApiErrorPrefix + reply.message)
  {
    var cleaned := CleanSectionTitle(heading);
    var body := SectionBody(writer, cleaned, SectionContext(pool, heading));
    assert Header(cleaned) <= Header(cleaned) + body;
    Header(cleaned) + body
  }

  /** What follows the header: the fixed body without records, else the model's answer
      or the error body. */
  function SectionBody(writer: WriterModel, cleaned: string, ctx: seq<Fields>): (body: string)
    ensures ctx == [] ==> body == Insufficient
    ensures ctx != [] && writer(cleaned, ContextString(ctx)).Ok? ==> body == writer(cleaned, ContextString(ctx)).content
    ensures ctx != [] && writer(cleaned, ContextString(ctx)).Err? ==>
      body == ApiErrorPrefix + writer(cleaned, ContextString(ctx)).message
  {
    if ctx == [] then Insufficient
    else
      match writer(cleaned, ContextString(ctx))
      case Ok(content) => content
      case Err(message) => ApiErrorPrefix + message
  }

  /** The tags `_run_concurrent_writes` collects: the section of every record whose
      section is a non-empty string, in pool order. */
  function Tags(pool: seq<Fields>): (tags: seq<string>)
    ensures |tags| <= |pool|
    ensures forall k :: 0 <= k < |tags| ==> tags[k] != ""
  {
    if pool == [] then []
    else
      var last := pool[|pool| - 1];
      Tags(pool[..|pool| - 1]) + (if last != map[] && Truthy(Get(last, SectionKey, Null)) then [last[SectionKey].s] else [])
  }

  /** The headings that get written: the distinct tags, in ascending order, none empty. */
  function UniqueSections(pool: seq<Fields>): (headings: seq<string>)
    ensures StrictlySorted(headings)
    ensures forall h :: h in headings ==> h != ""
  {
    SortedDistinct(Tags(pool))
  }

  /** One section per heading, in heading order, each under its cleaned heading. */
  function WriteAll(writer: WriterModel, headings: seq<string>, pool: seq<Fields>): (sections: seq<string>)
    ensures |sections| == |headings|
    ensures forall k :: 0 <= k < |headings| ==> Header(CleanSectionTitle(headings[k])) <= sections[k]
  {
    seq(|headings|, k requires 0 <= k < |headings| => WriteSection(writer, headings[k], pool))
  }

  /** `_run_concurrent_writes`: every heading of the pool is written, in ascending order.
      Every heading has records, so the empty-context branch of `write_section` is never
      taken: every section body is the writer model's answer or the error body (the
      model's own answer may still be the "Insufficient information" sentence). */
  function RunConcurrentWrites(writer: WriterModel, pool: seq<Fields>): (sections: seq<string>)
    ensures |sections| == |UniqueSections(pool)|
    ensures forall k :: 0 <= k < |sections| ==>
      var h := UniqueSections(pool)[k];
      var reply := writer(CleanSectionTitle(h), ContextString(SectionContext(pool, h)));
      sections[k] == Header(CleanSectionTitle(h)) + (if reply.Ok? then reply.content else ApiErrorPrefix + reply.message)
  {
    HeadingsHaveContext(pool);
    WriteAll(writer, UniqueSections(pool), pool)
  }

  /** Every heading chosen from the pool has records. */
  lemma HeadingsHaveContext(pool: seq<Fields>)
    ensures forall h :: h in UniqueSections(pool) ==> SectionContext(pool, h) != []
  {
    forall h | h in UniqueSections(pool) ensures SectionContext(pool, h) != [] {
      WrittenHeadingsHaveContext(pool, h);
    }
  }

  /** `run_writer_agent`: an empty pool gives the single error entry; otherwise one section
      per heading of the pool. */
  function RunWriterAgent(writer: WriterModel, pool: seq<Fields>): (sections: seq<string>)
    ensures pool == [] ==> sections == [NoResults]
    ensures pool != [] ==> |sections| == |UniqueSections(pool)|
    ensures pool != [] ==> forall k :: 0 <= k < |sections| ==>
      Header(CleanSectionTitle(UniqueSections(pool)[k])) <= sections[k]
  {
    if pool == [] then [NoResults] else RunConcurrentWrites(writer, pool)
  }

  /** Pool order is kept: the records of two runs of the pool are the first's, then the second's. */
  lemma {:induction false} SectionContextAppend(a: seq<Fields>, b: seq<Fields>, heading: string)
    ensures SectionContext(a + b, heading) == SectionContext(a, heading) + SectionContext(b, heading)
  {
    if b == [] {
      assert a + b == a;
    } else {
      var b' := b[..|b| - 1];
      assert (a + b)[..|a + b| - 1] == a + b' && (a + b)[|a + b| - 1] == b[|b| - 1];
      SectionContextAppend(a, b', heading);
    }
  }

  /** The records selected for a heading are exactly the pool records tagged with it. */
  lemma {:induction false} SectionContextMember(pool: seq<Fields>, heading: string, f: Fields)
    ensures f in SectionContext(pool, heading) <==> f in pool && SectionKey in f && f[SectionKey] == Str(heading)
  {
    if pool != [] {
      var init := pool[..|pool| - 1];
      SectionContextMember(init, heading, f);
      assert pool == init + [pool[|pool| - 1]];
    }
  }

  /** The tags collected are exactly the non-empty section strings of the pool. */
  lemma {:induction false} TagsMember(pool: seq<Fields>, h: string)
    ensures h in Tags(pool) <==> h != "" && exists f :: f in pool && SectionKey in f && f[SectionKey] == Str(h)
  {
    if pool != [] {
      var init, last := pool[..|pool| - 1], pool[|pool| - 1];
      TagsMember(init, h);
      assert pool == init + [last];
      if h != "" && exists f :: f in pool && SectionKey in f && f[SectionKey] == Str(h) {
        var f :| f in pool && SectionKey in f && f[SectionKey] == Str(h);
        if f != last {
          assert f in init;
        }
      }
    }
  }

  /** The headings written are exactly the non-empty section tags of the pool, each once,
      in strictly ascending order. */
  lemma UniqueSectionsMember(pool: seq<Fields>, h: string)
    ensures StrictlySorted(UniqueSections(pool))
    ensures h in UniqueSections(pool) <==> h != "" && exists f :: f in pool && SectionKey in f && f[SectionKey] == Str(h)
  {
    TagsMember(pool, h);
  }

  /** The order the records arrive in does not matter for which headings are written, nor
      for the order they are written in. */
  lemma UniqueSectionsOrderFree(pool: seq<Fields>, other: seq<Fields>)
    requires forall f :: f in pool <==> f in other
    ensures UniqueSections(pool) == UniqueSections(other)
  {
    forall h ensures h in UniqueSections(pool) <==> h in UniqueSections(other) {
      UniqueSectionsMember(pool, h);
      UniqueSectionsMember(other, h);
    }
    SortedUnique(UniqueSections(pool), UniqueSections(other));
  }

  /** Every heading that is written has records: through `run_writer_agent` the fixed
      "Insufficient information" body is never produced by the empty-context branch. */
  lemma WrittenHeadingsHaveContext(pool: seq<Fields>, h: string)
    requires h in UniqueSections(pool)
    ensures SectionContext(pool, h) != []
  {
    UniqueSectionsMember(pool, h);
    var f :| f in pool && SectionKey in f && f[SectionKey] == Str(h);
    SectionContextMember(pool, h, f);
  }

  /** The context string has one block per record, separated by the block separator: it
      splits at every record boundary. */
  lemma ContextStringSplit(a: seq<Fields>, b: seq<Fields>)
    requires a != [] && b != []
    ensures ContextString(a + b) == ContextString(a) + BlockSeparator + ContextString(b)
  {
    var blocks := Blocks(a) + Blocks(b);
    BlocksAppend(a, b);
    assert blocks[..|a|] == Blocks(a) && blocks[|a|..] == Blocks(b);
    JoinSplitAt(BlockSeparator, blocks, |a|);
  }

  lemma BlocksAppend(a: seq<Fields>, b: seq<Fields>)
    ensures Blocks(a + b) == Blocks(a) + Blocks(b)
  {
    var x, y := Blocks(a + b), Blocks(a) + Blocks(b);
    forall k | 0 <= k < |x| ensures x[k] == y[k] {
      if k < |a| {
        assert (a + b)[k] == a[k];
      } else {
        assert (a + b)[k] == b[k - |a|];
      }
    }
  }

  /** The context string for a single record is that record's block. */
  lemma ContextStringSingle(res: Fields)
    ensures ContextString([res]) == ContextBlock(res)
  {
    assert Blocks([res]) == [ContextBlock(res)];
  }

  /** `write_section` as the writer's entry point would run it over an outline: every
      entry gets a section, in outline order, with the fixed body where it has no records. */
  function WriteOutline(writer: WriterModel, outline: seq<string>, pool: seq<Fields>): (sections: seq<string>)
    ensures |sections| == |outline|
    ensures forall k :: 0 <= k < |outline| ==> Header(CleanSectionTitle(outline[k])) <= sections[k]
    ensures forall k :: 0 <= k < |outline| && SectionContext(pool, outline[k]) == [] ==>
      sections[k] == Header(CleanSectionTitle(outline[k])) + Insufficient
    ensures forall k :: 0 <= k < |outline| && SectionContext(pool, outline[k]) != [] ==>
      var reply := writer(CleanSectionTitle(outline[k]), ContextString(SectionContext(pool, outline[k])));
      sections[k] == Header(CleanSectionTitle(outline[k])) + (if reply.Ok? then reply.content else ApiErrorPrefix + reply.message)
  {
    WriteAll(writer, outline, pool)
  }
}
