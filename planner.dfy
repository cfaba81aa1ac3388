/**
 The post-processing of `run_planner_agent` (agents/planner.py): the planner model's
 answer is cut into lines, each line is stripped, blank lines are dropped, and an
 outline that is empty or longer than fifty sections is replaced by an error entry.
 */
module Planner {
  import opened Strings
  import opened Records

  const MaxSections := 50
  const InvalidOutline := "Error: Planner failed to generate a valid outline."
  const PlannerErrorPrefix := "Error in planner: "

  /** `[line.strip() for line in lines if line.strip()]`: at most one entry per line,
      each non-blank and already stripped. */
  function KeepStripped(lines: seq<string>): (r: seq<string>)
    ensures |r| <= |lines|
    ensures forall k :: 0 <= k < |r| ==> r[k] != "" && Strip(r[k]) == r[k]
  {
    if lines == [] then []
    else
      var line := Strip(lines[0]);
      StripIdempotent(lines[0]);
      (if line != "" then [line] else []) + KeepStripped(lines[1..])
  }

  /** The outline read from a response text: at most one entry per line of the text,
      each non-blank and already stripped. */
  function ParseOutline(content: string): (r: seq<string>)
    ensures |r| <= |Split(content, '\n')|
    ensures forall k :: 0 <= k < |r| ==> r[k] != "" && Strip(r[k]) == r[k]
  {
    KeepStripped(Split(content, '\n'))
  }

  /** `run_planner_agent` once the model call has answered or raised: the outline always
      has between one and fifty entries. */
  function RunPlanner(reply: Reply): (outline: seq<string>)
    ensures 1 <= |outline| <= MaxSections
    ensures reply.Err? ==> outline == [PlannerErrorPrefix + reply.message]
    ensures reply.Ok? ==>
      var parsed := ParseOutline(reply.content);
      outline == if 1 <= |parsed| <= MaxSections then parsed else [InvalidOutline]
  {
    match reply
    case Err(message) => [PlannerErrorPrefix + message]
    case Ok(content) =>
      var parsed := ParseOutline(content);
      if |parsed| == 0 || |parsed| > MaxSections then [InvalidOutline] else parsed
  }

  /** The outline entries are exactly the stripped lines that are not blank. */
  lemma {:induction false} KeepStrippedMembers(lines: seq<string>, e: string)
    ensures e in KeepStripped(lines) <==> e != "" && exists k :: 0 <= k < |lines| && Strip(lines[k]) == e
  {
    if lines != [] {
      KeepStrippedMembers(lines[1..], e);
      if e != "" && Strip(lines[0]) != e && exists k :: 0 <= k < |lines| && Strip(lines[k]) == e {
        var k :| 0 <= k < |lines| && Strip(lines[k]) == e;
        assert Strip(lines[1..][k - 1]) == e;
      }
    }
  }

  /** Lines keep their order: the outline of two runs of lines is the outline of the
      first followed by that of the second. */
  lemma {:induction false} KeepStrippedAppend(a: seq<string>, b: seq<string>)
    ensures KeepStripped(a + b) == KeepStripped(a) + KeepStripped(b)
  {
    if a != [] {
      assert (a + b)[1..] == a[1..] + b;
      KeepStrippedAppend(a[1..], b);
      var head := if Strip(a[0]) != "" then [Strip(a[0])] else [];
      assert KeepStripped(a + b) == head + KeepStripped(a[1..] + b);
      assert KeepStripped(a) == head + KeepStripped(a[1..]);
    } else {
      assert a + b == b;
    }
  }

  /** An outline entry as the planner keeps it: non-blank, stripped, on one line. */
  predicate CleanEntry(e: string) {
    e != "" && Strip(e) == e && '\n' !in e
  }

  /** `e` is the stripped form of one of the lines. */
  predicate ReadFrom(lines: seq<string>, e: string) {
    exists n :: 0 <= n < |lines| && Strip(lines[n]) == e
  }

  /** Every outline entry is a non-blank, stripped piece of one line of the response:
      it holds no line break and no surrounding whitespace. */
  lemma ParseOutlineEntries(content: string)
    ensures forall e :: e in ParseOutline(content) ==> CleanEntry(e) && ReadFrom(Split(content, '\n'), e)
  {
    var lines := Split(content, '\n');
    forall e | e in ParseOutline(content) ensures CleanEntry(e) && ReadFrom(lines, e) {
      var n := KeptLine(lines, e);
      assert '\n' !in lines[n];
      StripKeepsOut(lines[n], '\n');
    }
  }

  /** The line an outline entry was read from. */
  lemma KeptLine(lines: seq<string>, e: string) returns (n: nat)
    requires e in KeepStripped(lines)
    ensures n < |lines| && Strip(lines[n]) == e && e != "" && Strip(e) == e
  {
    KeepStrippedMembers(lines, e);
    n :| 0 <= n < |lines| && Strip(lines[n]) == e;
    StripIdempotent(lines[n]);
  }

  /** A response of blank lines gives the error entry. */
  lemma BlankResponseRejected(content: string)
    requires AllSpace(content)
    ensures RunPlanner(Ok(content)) == [InvalidOutline]
  {
    var lines := Split(content, '\n');
    forall n | 0 <= n < |lines| ensures Strip(lines[n]) == "" {
      forall q | 0 <= q < |lines[n]| ensures IsSpace(lines[n][q]) {
        SplitPieceChars(content, '\n', n, q);
      }
      StripBlank(lines[n]);
    }
    if ParseOutline(content) != [] {
      KeepStrippedMembers(lines, ParseOutline(content)[0]);
    }
  }
}
