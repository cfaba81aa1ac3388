/**
 `clean_section_title` (agents/utils.py): the outline line that names a section is
 turned into a search query fragment and a section header by removing the bullet,
 numbering and emphasis characters in front of it and the whitespace around it.
 */
module Utils {
  import opened Strings

  /** The character class `[*\s\d\.\-]` of the cleaning pattern. */
  predicate IsMarker(c: char) {
    c == '*' || IsSpace(c) || IsDigit(c) || c == '.' || c == '-'
  }

  predicate AllMarkers(s: string) {
    forall i :: 0 <= i < |s| ==> IsMarker(s[i])
  }

  /** The length of the longest run of characters satisfying `mark` that `s` starts with.
      `re.sub(r'^[*\s\d\.\-]+', '', s)` removes the first `LeadingRun(s, IsMarker)`
      characters: the pattern is anchored at the start of the string, so its one match
      is the longest leading run of marker characters. */
  function LeadingRun(s: string, mark: char -> bool): (n: nat)
    ensures n <= |s|
    ensures forall i :: 0 <= i < n ==> mark(s[i])
    ensures n < |s| ==> !mark(s[n])
  {
    if |s| > 0 && mark(s[0]) then
      var m := LeadingRun(s[1..], mark);
      assert forall i :: 1 <= i < 1 + m ==> s[i] == s[1..][i - 1];
      1 + m
    else 0
  }

  /** `clean_section_title`: the leading run of markers is removed, then the result is
      stripped. It never grows, never starts with a marker and never ends in whitespace. */
  function CleanSectionTitle(title: string): (r: string)
    ensures |r| <= |title|
    ensures r == [] || !IsMarker(r[0])
    ensures r == [] || !IsSpace(r[|r| - 1])
  {
    var d := title[LeadingRun(title, IsMarker)..];
    assert d != [] ==> d[0] == title[LeadingRun(title, IsMarker)];
    assert d != [] ==> LeadingSpaces(d) == 0;
    Strip(d)
  }

  /** The cleaned title is one piece of the input: what was cut in front is all markers
      and what was cut behind is all whitespace. */
  lemma CleanSectionTitlePiece(title: string)
    ensures var r, i := CleanSectionTitle(title), LeadingRun(title, IsMarker);
      i + |r| <= |title| && r == title[i..i + |r|]
      && (forall k :: 0 <= k < i ==> IsMarker(title[k]))
      && (forall k :: i + |r| <= k < |title| ==> IsSpace(title[k]))
  {
    var i := LeadingRun(title, IsMarker);
    var d := title[i..];
    if d != [] {
      assert d[0] == title[i];
      assert LeadingSpaces(d) == 0;
      var j := StripEnd(d);
      assert CleanSectionTitle(title) == d[..j];
      forall k | i + j <= k < |title| ensures IsSpace(title[k]) {
        assert title[k] == d[k - i];
      }
    }
  }

  /** Cleaning a cleaned title changes nothing. */
  lemma CleanSectionTitleIdempotent(title: string)
    ensures CleanSectionTitle(CleanSectionTitle(title)) == CleanSectionTitle(title)
  {
    var r := CleanSectionTitle(title);
    if r != [] {
      CleanSectionTitleKeeps(r);
    }
  }

  /** A title cleans to nothing exactly when it is made only of marker characters. */
  lemma CleanSectionTitleEmpty(title: string)
    ensures CleanSectionTitle(title) == "" <==> AllMarkers(title)
  {
    var i := LeadingRun(title, IsMarker);
    if i < |title| {
      var d := title[i..];
      assert d[0] == title[i];
      StripBlank(d);
    }
  }

  /** A title that starts with a character the pattern does not remove and ends without
      whitespace is returned unchanged. */
  lemma CleanSectionTitleKeeps(title: string)
    requires title != [] && !IsMarker(title[0]) && !IsSpace(title[|title| - 1])
    ensures CleanSectionTitle(title) == title
  {
    assert LeadingRun(title, IsMarker) == 0;
    assert title[0..] == title;
    StripKeeps(title);
  }

  /** Whatever markers stand in front of a clean title and whatever whitespace follows it,
      cleaning gives back the title. */
  lemma CleanSectionTitleWrapped(m: string, core: string, w: string)
    requires AllMarkers(m) && AllSpace(w)
    requires core != [] && !IsMarker(core[0]) && !IsSpace(core[|core| - 1])
    ensures CleanSectionTitle(m + core + w) == core
  {
    var s := m + core + w;
    assert s[|m|] == core[0];
    assert LeadingRun(s, IsMarker) == |m|;
    assert s[|m|..] == core + w;
    StripTrailing(core, w);
  }

  /** A line of the planner's example outline loses its bullet and keeps its lettering. */
  lemma CleanSectionTitleExample(line: string)
    requires line == "* A. Background on Topic"
    ensures CleanSectionTitle(line) == "A. Background on Topic"
  {
    var rest := line[2..];
    assert rest == "A. Background on Topic";
    assert IsMarker(line[0]) && IsMarker(line[1]) && !IsMarker(line[2]);
    assert line[1..][1..] == rest;
    assert LeadingRun(rest, IsMarker) == 0;
    assert LeadingRun(line, IsMarker) == 2;
    StripKeeps(rest);
  }

  /** The character class the comment of `clean_section_title` describes: the pattern's
      characters and also `#`, the Markdown heading marker. */
  predicate IsHeadingMarker(c: char) {
    IsMarker(c) || c == '#'
  }

  /** `clean_section_title` as its comment describes it: the leading run of markers and
      `#` characters is removed, then the result is stripped. */
  function CleanHeadingTitle(title: string): (r: string)
    ensures |r| <= |title|
    ensures r == [] || !IsHeadingMarker(r[0])
    ensures r == [] || !IsSpace(r[|r| - 1])
  {
    var d := title[LeadingRun(title, IsHeadingMarker)..];
    assert d != [] ==> d[0] == title[LeadingRun(title, IsHeadingMarker)];
    assert d != [] ==> LeadingSpaces(d) == 0;
    Strip(d)
  }

  /** On a title without `#` the described cleaning and the written one agree. */
  lemma CleanHeadingTitleAgrees(title: string)
    requires '#' !in title
    ensures CleanHeadingTitle(title) == CleanSectionTitle(title)
  {
    assert LeadingRun(title, IsHeadingMarker) == LeadingRun(title, IsMarker) by {
      HashFreeRuns(title);
    }
  }

  lemma {:induction false} HashFreeRuns(s: string)
    requires '#' !in s
    ensures LeadingRun(s, IsHeadingMarker) == LeadingRun(s, IsMarker)
  {
    if |s| > 0 {
      assert s[0] != '#';
      if IsMarker(s[0]) {
        assert '#' !in s[1..] by {
          assert forall c :: c in s[1..] ==> c in s;
        }
        HashFreeRuns(s[1..]);
      }
    }
  }

  /** As written, a Markdown heading keeps its `#` marks: the pattern's class has no `#`,
      although the comment above it names `#` among the characters removed. */
  lemma CleanSectionTitleKeepsHashes(line: string)
    requires line == "## Introduction"
    ensures CleanSectionTitle(line) == line
    ensures CleanHeadingTitle(line) == "Introduction"
  {
    assert !IsMarker(line[0]);
    CleanSectionTitleKeeps(line);
    var rest := line[3..];
    assert rest == "Introduction";
    assert IsHeadingMarker(line[0]) && IsHeadingMarker(line[1]) && IsHeadingMarker(line[2]) && !IsHeadingMarker(line[3]);
    assert line[1..][1..][1..] == rest;
    assert LeadingRun(rest, IsHeadingMarker) == 0;
    assert LeadingRun(line[1..][1..], IsHeadingMarker) == 1;
    assert LeadingRun(line[1..], IsHeadingMarker) == 2;
    assert LeadingRun(line, IsHeadingMarker) == 3;
    StripKeeps(rest);
  }
}
