/**
 The editor agent (agents/editor.py): the written sections are collated into one text,
 separated by a horizontal rule, and handed with the topic to the editor model; its
 answer is the report, and a failed call gives a fixed error text.
 */
module Editor {
  import opened Strings
  import opened Records

  const SectionSeparator := "\n\n---\n\n"
  const EditorFailure := "Error: Could not produce the final report."

  /** The editor model, called with the topic and the collated sections. */
  type EditorModel = (string, string) -> Reply

  /** The sections in order, with the separator between neighbours only. */
  function Collate(sections: seq<string>): (text: string)
    ensures sections == [] ==> text == ""
  {
    Join(SectionSeparator, sections)
  }

  /** `run_editor_agent`: the model's answer, or the fixed error text if it raised. */
  function RunEditorAgent(editor: EditorModel, topic: string, sections: seq<string>): (report: string)
    ensures editor(topic, Collate(sections)).Ok? ==> report == editor(topic, Collate(sections)).content
    ensures editor(topic, Collate(sections)).Err? ==> report == EditorFailure
  {
    match editor(topic, Collate(sections))
    case Ok(content) => content
    case Err(_) => EditorFailure
  }

  /** A single section is collated to itself. */
  lemma CollateSingle(section: string)
    ensures Collate([section]) == section
  {
  }

  /** Section order is kept: section `i` ends the collation of the sections up to it, and
      the separator and then section `i + 1` follow directly. */
  lemma CollateOrder(sections: seq<string>, i: nat)
    requires i + 1 < |sections|
    ensures var before, after := Collate(sections[..i + 1]), Collate(sections[i + 1..]);
      Collate(sections) == before + SectionSeparator + after
      && EndsWith(before, sections[i])
      && sections[i + 1] <= after
  {
    JoinSplitAt(SectionSeparator, sections, i + 1);
    JoinEndsWithLast(SectionSeparator, sections[..i + 1]);
    assert sections[..i + 1][i] == sections[i];
    assert sections[i + 1..][0] == sections[i + 1];
    JoinStartsWithFirst(SectionSeparator, sections[i + 1..]);
  }

  /** The collated text holds every section and one separator between each pair of
      neighbours, and nothing else: no separator before the first or after the last. */
  lemma CollateLength(sections: seq<string>)
    requires sections != []
    ensures |Collate(sections)| == TotalLength(sections) + (|sections| - 1) * |SectionSeparator|
    ensures sections[0] <= Collate(sections)
    ensures EndsWith(Collate(sections), sections[|sections| - 1])
  {
    JoinLength(SectionSeparator, sections);
    JoinStartsWithFirst(SectionSeparator, sections);
    JoinEndsWithLast(SectionSeparator, sections);
  }
}
