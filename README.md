# Research-report pipeline: the text and evidence handling, modelled in Dafny

The system turns a research topic into a Markdown report in four stages:

1. The **planner** asks a language model for an outline. It keeps the non-blank stripped lines of the answer and rejects an empty outline or one longer than fifty entries.
2. The **searcher** queries four search tools for every outline entry. It tags each dict result with the entry it was found for, as written, and concatenates everything into one evidence pool.
3. The **writer** chooses its headings as the distinct section tags of the pool, sorted. For each heading it selects the matching records, formats them into a context string and asks a model for the section body.
4. The **editor** joins the sections with a horizontal rule and asks a model to polish the result.

`clean_section_title` turns an outline entry into a query fragment and a header. The Tavily tool normalises web results into four-field records.

This model covers that data handling. The modules are:

- `Strings`: the Python `str` operations involved.
- `Records`: dict values, provider results and model replies.
- `Utils`, `Planner`, `Searcher`, `WebSearchTools`, `Writer` and `Editor`: one per source file.
- `Pipeline`: lemmas that connect the searcher's pool to the writer's selection.

Modelling choices:

- **Imperative parts.** The step-by-step parts are methods with loop invariants, proved equal to specification functions: the searcher's nested tagging loop, its gathering and flattening loops and the Tavily formatting loop. Everything else is functions and lemmas.
- **Language models.** Each model is a function parameter that returns `Ok(content)` or `Err(message)`. `Err` stands for the exception raised by the call.
- **Search tools.** The four tools are function parameters that return a list of elements or `Failed(error)`. Being functions of the query, they give the same answer to the same query: two equal outline entries are taken to get the same results, where the running program issues a separate call for each.
- **Whitespace and digits.** These follow Python's definitions on ASCII: whitespace is space, 9–13 and 28–31; digits are `0`–`9`.
- **Section order.** The code has no revision loop, and the writer orders its sections by pool tag in code-point order (the order `sorted` gives strings, so `Zeta` comes before `alpha` and `10. X` before `2. X`), not by outline position.
- **Composition.** The `Pipeline` lemmas feed the searcher's pool straight into `run_writer_agent(writer, pool)`. They do not go through graph.py, whose writer node cannot call that function as written.

## Model

| member | source | states |
|---|---|---|
| `Strings.IsSpace` | agents/utils.py:9 | the characters `\s` and `str.strip()` treat as whitespace, on ASCII: space, 9–13 and 28–31 |
| `Strings.IsDigit` | agents/utils.py:9 | the characters `\d` matches, on ASCII: `0` to `9` |
| `Strings.LeadingSpaces` | agents/utils.py:9 | the count of leading whitespace: every counted character is whitespace and the next one is not |
| `Strings.TrailingSpaces` | agents/utils.py:9 | the count of trailing whitespace: every counted character is whitespace and the one before is not |
| `Strings.StripEnd` | agents/planner.py:51 | where `strip` stops keeping text: everything after it is whitespace, and the last kept character is not |
| `Strings.Strip` | agents/planner.py:51 | `str.strip()` never lengthens the text, and its result neither starts nor ends with whitespace |
| `Strings.StripKeepsOut` | agents/planner.py:51 | stripping never brings in a character the text did not hold |
| `Strings.StripBlank` | agents/planner.py:51 | a line strips to nothing exactly when it is all whitespace |
| `Strings.StripIdempotent` | agents/utils.py:9 | stripping twice is stripping once |
| `Strings.StripKeeps` | agents/utils.py:9 | text with no whitespace at either end is its own strip |
| `Strings.StripTrailing` | agents/utils.py:9 | whitespace after a text with clean ends is exactly what `strip` removes |
| `Strings.Join` | agents/editor.py:64 | `sep.join(parts)`: no parts give the empty string, one part gives itself, and otherwise the first part, the separator and the join of the rest |
| `Strings.JoinStartsWithFirst` | agents/editor.py:64 | `sep.join(parts)` starts with the first part |
| `Strings.JoinEndsWithLast` | agents/editor.py:64 | `sep.join(parts)` ends with the last part |
| `Strings.JoinSplitAt` | agents/editor.py:64 | a join splits at every part boundary into the join before it, one separator and the join after it |
| `Strings.JoinLength` | agents/editor.py:64 | a join holds every part and exactly one separator between each pair of neighbours |
| `Strings.Split` | agents/planner.py:51 | `str.split('\n')` gives at least one piece, and no piece holds the separator |
| `Strings.SplitJoin` | agents/planner.py:51 | joining the pieces of a split with the separator gives back the text |
| `Strings.SplitPieceChars` | agents/planner.py:51 | every character of every piece comes from the text |
| `Strings.Less` | agents/writer.py:81 | Python's `<` on `str`, which `sorted` uses: code-point lexicographic order, where a proper prefix comes first |
| `Strings.LessIrreflexive` | agents/writer.py:81 | Python's string `<` is irreflexive |
| `Strings.LessTransitive` | agents/writer.py:81 | Python's string `<` is transitive |
| `Strings.LessTotal` | agents/writer.py:81 | Python's string `<` is total on distinct strings |
| `Strings.Insert` | agents/writer.py:81 | inserting into a strictly ascending list keeps it strictly ascending and adds exactly the new string |
| `Strings.SortedDistinct` | agents/writer.py:81 | `sorted(set(xs))` is strictly ascending and holds exactly the strings of `xs` |
| `Strings.SortedUnique` | agents/writer.py:81 | two strictly ascending lists with the same members are equal, so `sorted(set(xs))` depends only on the members of `xs` |
| `Records.Get` | agents/writer.py:51 | `d.get(key, default)` gives the stored value when the key is present, `None` included, and the default otherwise |
| `Records.Truthy` | agents/writer.py:60 | Python truthiness of a dict value: `None` and the empty string are false, every other string is true |
| `Records.Render` | agents/writer.py:59-60 | how an f-string shows a value: a string as itself, `None` as `None` |
| `Utils.IsMarker` | agents/utils.py:9 | the character class `[*\s\d\.\-]`: `*`, whitespace, digits, `.` and `-` |
| `Utils.LeadingRun` | agents/utils.py:9 | the anchored character-class match is the longest leading run of class characters |
| `Utils.CleanSectionTitle` | agents/utils.py:3-10 | the cleaned title is never longer than the input, does not start with `*`, whitespace, a digit, `.` or `-`, and does not end in whitespace |
| `Utils.CleanSectionTitlePiece` | agents/utils.py:9-10 | the cleaned title is a contiguous piece of the input; all that was cut before it are marker characters and all that was cut after it is whitespace |
| `Utils.CleanSectionTitleIdempotent` | agents/utils.py:9 | cleaning twice is cleaning once |
| `Utils.CleanSectionTitleEmpty` | agents/utils.py:9 | a title cleans to the empty string exactly when it consists only of marker characters |
| `Utils.CleanSectionTitleKeeps` | agents/utils.py:9 | a title that starts with a non-marker and ends with a non-space is returned unchanged |
| `Utils.CleanSectionTitleWrapped` | agents/utils.py:9 | whatever markers stand in front of a clean title and whatever whitespace follows it, cleaning gives back the title |
| `Utils.CleanSectionTitleExample` | agents/planner.py:31 | the example outline line `* A. Background on Topic` cleans to `A. Background on Topic` |
| `Utils.CleanSectionTitleKeepsHashes` | agents/utils.py:8-9 | as written, `## Introduction` is returned unchanged, while the cleaning the comment describes gives `Introduction` |
| `Utils.CleanHeadingTitle` | agents/utils.py:8 | the cleaning the comment describes: the result never starts with `#` or a marker and never ends in whitespace |
| `Utils.CleanHeadingTitleAgrees` | agents/utils.py:8-9 | on titles without `#`, the described cleaning and the written one agree |
| `Planner.RunPlanner` | agents/planner.py:48-61 | the outline always has 1 to 50 entries; a failed call gives `Error in planner: ` plus the message; a parse with 0 or more than 50 entries gives the single invalid-outline entry; otherwise the parse |
| `Planner.KeepStripped` | agents/planner.py:51 | the list comprehension over the lines: at most one entry per line, each non-blank and stripped |
| `Planner.ParseOutline` | agents/planner.py:51 | the outline read from the answer: at most one entry per line of `split('\n')`, each non-blank and stripped |
| `Planner.KeepStrippedMembers` | agents/planner.py:51 | the outline entries are exactly the non-empty stripped lines |
| `Planner.KeepStrippedAppend` | agents/planner.py:51 | line order is kept: the outline of two runs of lines is the outline of the first, then of the second |
| `Planner.ParseOutlineEntries` | agents/planner.py:51 | every entry is non-empty, stripped, free of line breaks, and the strip of some line of the answer |
| `Planner.BlankResponseRejected` | agents/planner.py:53-55 | an answer of only whitespace gives exactly the invalid-outline entry |
| `Searcher.SectionQuery` | agents/searcher.py:19-20 | the query starts with the topic and `: `, is never longer than topic, separator and entry together, and has nothing after the separator exactly when the entry is all markers |
| `Searcher.Outcomes` | agents/searcher.py:26-35 | four results in gather order: Tavily with 5 results, then arXiv, Semantic Scholar and news with 3 each |
| `Searcher.SectionEvidence` | agents/searcher.py:18-49 | the value `search_section` returns: the tagged dict items collected from the four providers queried with the entry's query |
| `Searcher.SearchSection` | agents/searcher.py:18-35 | `search_section` returns the section's evidence: the collected results of the four providers queried with the section's query |
| `Searcher.CollectResults` | agents/searcher.py:37-49 | the nested loop returns the tagged dict items of every provider that answered with a list, in provider and list order, and skips a provider that raised |
| `Searcher.Tag` | agents/searcher.py:43 | tagging sets `section` to the title as written, overwriting any earlier value, and keeps every other field and no new key besides `section` |
| `Searcher.Tagged` | agents/searcher.py:41-44 | one provider list gives one tagged item per dict element |
| `Searcher.Harvest` | agents/searcher.py:39-46 | the items of a section number exactly the dict items across the providers that answered with a list |
| `Searcher.SectionQueryIgnoresMarkers` | agents/searcher.py:19-20 | an entry made of markers, a clean title and trailing whitespace is searched with the query of the clean title, so entries that differ only there get the same query |
| `Searcher.TaggedAppend` | agents/searcher.py:41-44 | list order is kept within one provider's answer |
| `Searcher.HarvestAppend` | agents/searcher.py:39-44 | provider order is kept: the items of two runs of providers are the first's, then the second's |
| `Searcher.HarvestSkipsFailed` | agents/searcher.py:45-46 | a provider that raised contributes nothing, wherever it stands |
| `Searcher.TaggedMember` | agents/searcher.py:42-44 | a section's items from one list are exactly its dict items with `section` set to the title as written and every other field unchanged |
| `Searcher.HarvestMember` | agents/searcher.py:43 | every item carries `section` equal to the uncleaned title and comes from a dict item of a list answer |
| `Searcher.CollectSections` | agents/searcher.py:68-75 | the flattening loop concatenates every section list in order and skips every exception |
| `Searcher.Flatten` | agents/searcher.py:68-73 | the flattened pool holds exactly as many records as the finished section tasks returned |
| `Searcher.Concat` | agents/searcher.py:62-71 | the per-entry lists concatenated in outline order |
| `Searcher.ConcatEmpty` | agents/searcher.py:62-71 | the concatenation is empty exactly when every entry's list is |
| `Searcher.Pool` | agents/searcher.py:62-75 | the evidence pool is empty exactly when every outline entry's search found nothing |
| `Searcher.RunConcurrentSearches` | agents/searcher.py:62-75 | searching every entry in outline order and flattening the results gives the pool of the outline |
| `Searcher.RunSearcherAgent` | agents/searcher.py:81-92 | an empty outline gives an empty pool; otherwise the outline's pool |
| `Searcher.FlattenAppend` | agents/searcher.py:68-71 | section order is kept by the flattening |
| `Searcher.FlattenSkipsCrashed` | agents/searcher.py:72-73 | a section task that raised contributes nothing, wherever it stands |
| `Searcher.PoolAppend` | agents/searcher.py:62-65 | outline order is kept: the pool of two runs of entries is the first's, then the second's |
| `Searcher.ConcatAppend` | agents/searcher.py:69-71 | concatenating per-entry lists respects concatenation of the entries |
| `Searcher.PoolTagsInOutline` | agents/searcher.py:43 | every item of the pool is tagged with an entry of the outline |
| `WebSearchTools.Normalise` | tools/web_search_tools.py:31-45 | a dict or a string element becomes one record with exactly the keys title, summary, url and source, and source "Tavily Web Search"; any other element is dropped |
| `WebSearchTools.Formatted` | tools/web_search_tools.py:29-45 | never more records than elements, each with the fixed keys and source |
| `WebSearchTools.SearchTavily` | tools/web_search_tools.py:17-51 | no API key gives []; an exception or a non-list answer gives []; a list answer gives its formatted records |
| `WebSearchTools.FormattedAppend` | tools/web_search_tools.py:31-45 | answer order is kept |
| `WebSearchTools.FormattedLength` | tools/web_search_tools.py:30-45 | exactly the elements that are neither dicts nor strings are dropped |
| `WebSearchTools.NormaliseDict` | tools/web_search_tools.py:34-36 | a present key keeps its value, `None` included; the defaults are used only for missing keys |
| `Writer.ContentOf` | agents/writer.py:60 | the content shown is the summary when it is a non-empty string, otherwise the content, otherwise "N/A" |
| `Writer.Relevant` | agents/writer.py:51 | the filter `res and res.get('section') == section_topic`: a non-empty dict whose `section` is exactly the heading |
| `Writer.SectionContext` | agents/writer.py:49-52 | the selection never holds more records than the pool, and every record in it is a non-empty dict tagged with the heading as written |
| `Writer.ContextBlock` | agents/writer.py:59-60 | a record's block starts with the title label and ends with the record's content, shown as an f-string shows it |
| `Writer.Blocks` | agents/writer.py:58-61 | one block per selected record, in record order |
| `Writer.BlocksAppend` | agents/writer.py:58-61 | the blocks of two runs of records are the first's, then the second's |
| `Writer.ContextString` | agents/writer.py:58-62 | the context string is empty without records, and otherwise starts with the first record's block and ends with the last one's |
| `Writer.Header` | agents/writer.py:68 | the header is `### `, the cleaned heading and a blank line |
| `Writer.SectionBody` | agents/writer.py:54-73 | without records the body is the fixed "Insufficient information" text; otherwise it is the model's answer, or the API-error text plus the message |
| `Writer.WriteSection` | agents/writer.py:37-73 | every result starts with `### ` plus the cleaned heading and a blank line; without records the body is the fixed "Insufficient information" text whatever the model; otherwise it is the model's answer, or the API-error text plus the message |
| `Writer.Tags` | agents/writer.py:81 | the tags collected are no more than the pool's records, and none is empty |
| `Writer.UniqueSections` | agents/writer.py:81 | the headings are strictly ascending and none is empty |
| `Writer.WriteAll` | agents/writer.py:83-88 | one section per heading, in heading order, each starting with the header of its cleaned heading |
| `Writer.RunConcurrentWrites` | agents/writer.py:75-89 | one section per distinct tag, in ascending code-point order, and every section's body is the writer model's answer or the API-error text: the empty-context branch (agents/writer.py:54-56) is never taken, though the model's own answer may still be that sentence |
| `Writer.RunWriterAgent` | agents/writer.py:97-99 | an empty pool gives exactly the no-results entry; otherwise one section per distinct tag, each under its cleaned heading |
| `Writer.SectionContextAppend` | agents/writer.py:49-52 | the selection keeps pool order |
| `Writer.SectionContextMember` | agents/writer.py:49-52 | the selected records are exactly the pool records whose `section` equals the heading as written |
| `Writer.TagsMember` | agents/writer.py:81 | the collected tags are exactly the non-empty `section` strings of the pool |
| `Writer.UniqueSectionsMember` | agents/writer.py:81 | the headings written are strictly ascending and are exactly the non-empty section tags of the pool |
| `Writer.UniqueSectionsOrderFree` | agents/writer.py:81 | the headings and their order do not depend on the order or repetition of the pool's records |
| `Writer.WrittenHeadingsHaveContext` | agents/writer.py:54-56 | every heading the writer chooses has records, so its empty-context branch is never taken |
| `Writer.ContextStringSplit` | agents/writer.py:58-62 | the context string is one block per record joined by the separator: it splits at every record boundary |
| `Writer.ContextStringSingle` | agents/writer.py:58-62 | a single record's context string is its block |
| `Writer.WriteOutline` | graph.py:45-48 | written over the outline: one section per entry, in outline order, each under its cleaned heading, with the fixed body where the entry has no records and the model's answer or the error body where it has |
| `Editor.Collate` | agents/editor.py:64 | no sections collate to the empty string |
| `Editor.RunEditorAgent` | agents/editor.py:66-75 | the report is the model's answer, or exactly "Error: Could not produce the final report." when the call raised |
| `Editor.CollateSingle` | agents/editor.py:64 | a single section collates to itself |
| `Editor.CollateOrder` | agents/editor.py:64 | section i ends the collation up to it, and the separator and section i+1 follow directly |
| `Editor.CollateLength` | agents/editor.py:64 | the collation starts with the first section, ends with the last, and holds exactly one separator between neighbours |
| `Pipeline.Matching` | agents/writer.py:51 | the outline entries equal to a heading: empty exactly when the heading is not in the outline |
| `Pipeline.ContextOfTagged` | agents/writer.py:51 | among records all tagged `s`, a heading selects all of them when it is `s` and none otherwise |
| `Pipeline.EvidenceContext` | agents/writer.py:49-52 | the records one entry's search found are selected whole by that entry, as written, and not at all by any other heading |
| `Pipeline.PoolContext` | agents/writer.py:49-52 | the writer's selection from the searcher's pool is the evidence searched for the outline entries equal to that heading |
| `Pipeline.UniqueEntryContext` | agents/writer.py:49-52 | an entry that occurs once in the outline gets exactly the evidence searched for it |
| `Pipeline.WrittenHeadingsAreOutlineEntries` | agents/writer.py:81 | only outline entries are written |
| `Pipeline.WrittenExactlyWithEvidence` | agents/writer.py:81 | a non-empty outline entry is written exactly when its searches found something |
| `Pipeline.OutlineSectionFallback` | agents/writer.py:54-56 | written over the outline, an entry gets the fixed body when its searches found nothing, and has records exactly when they found something |
| `Pipeline.HeadingsFromPool` | agents/writer.py:81 | as written, the outline `C, B, A` with no evidence for `C` gives two sections, `A` then `B`, where the outline has three |

## Left out

- Concurrency is not modelled: asyncio tasks, semaphores, `gather` and the sleeps. `gather` keeps input order, so each is modelled as a sequential map.
- Logging is not modelled.
- Module-level environment reading is not modelled. The Tavily API key is a parameter.
- Language-model internals are not modelled: prompts, model construction and `get_*_agent`. Each call is a parameter returning a reply or an error.
- The academic and news search tools are not part of this model; the searcher sees them only as providers. The same holds for the PDF parser, the Streamlit front end, the graph rendering and the critiquer schema.
- graph.py's nodes and graph building are not part of this model. Its writer node calls `run_writer_agent` with three arguments while that function takes two, so that call cannot succeed as written. Only the intent its comments state at graph.py:45-48 is used, for `Writer.WriteOutline`.
- Python's Unicode whitespace and digit classes are not modelled. Only their ASCII members are.
- The searcher's and writer's guards against a non-list argument are not modelled, because the model's types only admit lists.
- The outer `except` branches of `search_section`, `run_searcher_agent` and `run_writer_agent` are not modelled. Nothing they guard can raise in the model.
- In-place tagging is not modelled. `search_section` sets `section` on the provider's own dicts; the model builds tagged copies, and nothing else holds those dicts.
- Dict values other than strings and `None` are not modelled.
- `max_results` is passed to the providers but not enforced by the model.
- A section task raising inside `_run_concurrent_searches` is modelled only in `CollectSections`. `SearchSection` itself never raises in the model.
- `Pipeline.PoolContext`: for an entry that occurs more than once, the evidence of the equal entries is the same search repeated, because equal queries are assumed to get equal answers. The running program calls the providers once per occurrence, and those calls can answer differently.
- `Pipeline.PoolOfCopies`: holds only because equal queries are assumed to get equal answers. The running program calls the providers once per occurrence, and one call can fail while another succeeds.
- `Pipeline.WrittenExactlyWithEvidence`: for an entry that occurs more than once, it holds only because equal queries are assumed to get equal answers. In the running program the entry is written when any of its searches found something.
- `Pipeline.OutlineSectionFallback`: for an entry that occurs more than once, its "no records exactly when the search found nothing" part holds only because equal queries are assumed to get equal answers.
- `Editor.Collate`: its contract states only the empty case. The order, length and single-section properties are the lemmas next to it.

## Findings

| source | as written | input that shows it | evidently intended | confidence | as-written member | corrected member |
|---|---|---|---|---|---|---|
| agents/writer.py:81 | the headings written are the distinct section tags of the pool, sorted in code-point order, so entries without evidence vanish and outline order is lost | outline `C, B, A` where the searches for `C` find nothing | every outline entry is written, in outline order, with the fixed "Insufficient information" body where there is no evidence (the fix comment at graph.py:45-48; the fallback at agents/writer.py:54-56) | medium, not executed | `Pipeline.HeadingsFromPool` | `Writer.WriteOutline` |
| agents/utils.py:9 | the character class `[*\s\d\.\-]` has no `#`, so Markdown heading marks stay | `## Introduction` is returned unchanged | `#` is removed as well, as the comment on line 8 says | medium, not executed | `Utils.CleanSectionTitleKeepsHashes` | `Utils.CleanHeadingTitle` |
