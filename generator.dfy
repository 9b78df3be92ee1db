/**
 * The placeholder loop of `generate_resume_docx` in
 * app/services/resume/generator.py: each top-level paragraph of a template
 * is checked for six placeholders in a fixed order, and a paragraph that
 * contains one has its whole text replaced by the matching resume content.
 * Every check reads the paragraph's current text, which an earlier check may
 * already have overwritten.
 */
module Generator {
  import opened Wrappers
  import opened Text
  import opened Docx

  /** The resume JSON: the `Summary` string and the list-valued sections, when present. */
  datatype ResumeJson = ResumeJson(summary: Option<string>, lists: map<string, seq<string>>)

  /** What a placeholder is replaced by: the summary, or a section's list joined by a separator. */
  datatype Content = SummaryText | JoinedList(key: string, separator: string)

  datatype Placeholder = Placeholder(token: string, content: Content)

  /** The placeholders in the order they are checked. */
  const Placeholders: seq<Placeholder> := [
    Placeholder("{{SUMMARY}}", SummaryText),
    Placeholder("{{SKILLS}}", JoinedList("Skills", ", ")),
    Placeholder("{{EXPERIENCE}}", JoinedList("Experience", "\n")),
    Placeholder("{{EDUCATION}}", JoinedList("Education", "\n")),
    Placeholder("{{PROJECTS}}", JoinedList("Projects", "\n")),
    Placeholder("{{CERTIFICATIONS}}", JoinedList("Certifications", "\n"))
  ]

  /** `resume_json.get(key, [])`. */
  function List(json: ResumeJson, key: string): seq<string> {
    if key in json.lists then json.lists[key] else []
  }

  /** The text a placeholder's paragraph receives. */
  function Value(json: ResumeJson, ph: Placeholder): string {
    match ph.content
    case SummaryText => json.summary.GetOr("")
    case JoinedList(key, separator) => Join(List(json, key), separator)
  }

  /** `para.text = x`: the runs are replaced by a single unstyled run holding `x`. */
  function SetText(x: string): (p: Paragraph)
    ensures ParagraphText(p) == x
  {
    var runs := [Run(x, false, false)];
    assert runs[1..] == [] && RunsText(runs[1..]) == "";
    assert x + "" == x;
    Paragraph(runs)
  }

  /** One check: a paragraph containing the token gets the placeholder's value as its text. */
  function Check(p: Paragraph, json: ResumeJson, ph: Placeholder): Paragraph {
    if Contains(ParagraphText(p), ph.token) then SetText(Value(json, ph)) else p
  }

  /** The checks of `phs`, in order, each on the paragraph the previous ones left. */
  function Checks(p: Paragraph, json: ResumeJson, phs: seq<Placeholder>): Paragraph {
    if phs == [] then p
    else Check(Checks(p, json, phs[..|phs| - 1]), json, phs[|phs| - 1])
  }

  /** A paragraph after the loop body has run on it. */
  function Filled(p: Paragraph, json: ResumeJson): Paragraph {
    Checks(p, json, Placeholders)
  }

  function FilledParagraphs(ps: seq<Paragraph>, json: ResumeJson): seq<Paragraph> {
    seq(|ps|, k requires 0 <= k < |ps| => Filled(ps[k], json))
  }

  //////////////////////////////////////////////////////////////////////////
  // The loop
  //////////////////////////////////////////////////////////////////////////

  /** `if token in para.text: para.text = value`. */
  method ApplyCheck(para: Paragraph, json: ResumeJson, ph: Placeholder) returns (q: Paragraph)
    ensures q == Check(para, json, ph)
  {
    q := para;
    if Contains(ParagraphText(para), ph.token) {
      q := SetText(Value(json, ph));
    }
  }

  /** The six checks of the loop body, on one paragraph, in the order of `Placeholders`. */
  method FillParagraph(para: Paragraph, json: ResumeJson) returns (q: Paragraph)
    ensures q == Filled(para, json)
  {
    q := para;
    q := ApplyCheck(q, json, Placeholders[0]);
    ChecksSnoc(para, json, Placeholders, 0);
    assert q == Checks(para, json, Placeholders[..1]);
    q := ApplyCheck(q, json, Placeholders[1]);
    ChecksSnoc(para, json, Placeholders, 1);
    q := ApplyCheck(q, json, Placeholders[2]);
    ChecksSnoc(para, json, Placeholders, 2);
    q := ApplyCheck(q, json, Placeholders[3]);
    ChecksSnoc(para, json, Placeholders, 3);
    q := ApplyCheck(q, json, Placeholders[4]);
    ChecksSnoc(para, json, Placeholders, 4);
    q := ApplyCheck(q, json, Placeholders[5]);
    ChecksSnoc(para, json, Placeholders, 5);
    assert Placeholders[..6] == Placeholders;
  }

  /** `for para in doc.paragraphs: ...`; the tables are not visited. */
  method FillTemplate(doc: Document, json: ResumeJson)
    modifies doc
    ensures doc.paragraphs == FilledParagraphs(old(doc.paragraphs), json)
    ensures doc.tables == old(doc.tables)
  {
    ghost var ps := doc.paragraphs;
    var i := 0;
    while i < |doc.paragraphs|
      invariant 0 <= i <= |doc.paragraphs| == |ps|
      invariant doc.tables == old(doc.tables)
      invariant forall k :: 0 <= k < i ==> doc.paragraphs[k] == Filled(ps[k], json)
      invariant forall k :: i <= k < |ps| ==> doc.paragraphs[k] == ps[k]
    {
      var para := FillParagraph(doc.paragraphs[i], json);
      doc.paragraphs := doc.paragraphs[i := para];
      i := i + 1;
    }
  }

  //////////////////////////////////////////////////////////////////////////
  // Properties
  //////////////////////////////////////////////////////////////////////////

  /** The checks of a longer prefix are one more check after those of the shorter one. */
  lemma ChecksSnoc(p: Paragraph, json: ResumeJson, phs: seq<Placeholder>, k: int)
    requires 0 <= k < |phs|
    ensures Checks(p, json, phs[..k + 1]) == Check(Checks(p, json, phs[..k]), json, phs[k])
  {
    assert phs[..k + 1][..k] == phs[..k];
  }

  /** Running two lists of checks one after the other is running their concatenation. */
  lemma {:induction false} ChecksAppend(p: Paragraph, json: ResumeJson, a: seq<Placeholder>, b: seq<Placeholder>)
    ensures Checks(p, json, a + b) == Checks(Checks(p, json, a), json, b)
  {
    if b == [] {
      assert a + b == a;
    } else {
      ChecksAppend(p, json, a, b[..|b| - 1]);
      assert (a + b)[..|a + b| - 1] == a + b[..|b| - 1];
    }
  }

  /** A paragraph containing none of the tokens comes out unchanged. */
  lemma {:induction false} ChecksWithoutTokens(p: Paragraph, json: ResumeJson, phs: seq<Placeholder>)
    requires forall j :: 0 <= j < |phs| ==> !Contains(ParagraphText(p), phs[j].token)
    ensures Checks(p, json, phs) == p
  {
    if phs != [] {
      var init := phs[..|phs| - 1];
      forall j | 0 <= j < |init|
        ensures !Contains(ParagraphText(p), init[j].token)
      {
        assert init[j] == phs[j];
      }
      ChecksWithoutTokens(p, json, init);
    }
  }

  /** The checks up to the first token the paragraph contains leave it holding that placeholder's value. */
  lemma FirstTokenFires(p: Paragraph, json: ResumeJson, phs: seq<Placeholder>, k: int)
    requires 0 <= k < |phs|
    requires Contains(ParagraphText(p), phs[k].token)
    requires forall j :: 0 <= j < k ==> !Contains(ParagraphText(p), phs[j].token)
    ensures Checks(p, json, phs[..k + 1]) == SetText(Value(json, phs[k]))
  {
    var before := phs[..k];
    forall j | 0 <= j < |before|
      ensures !Contains(ParagraphText(p), before[j].token)
    {
      assert before[j] == phs[j];
    }
    ChecksWithoutTokens(p, json, before);
    ChecksSnoc(p, json, phs, k);
  }

  /**
   * When the first token a paragraph contains is that of `phs[k]`, and that
   * placeholder's value contains none of the later tokens, the paragraph ends
   * up holding exactly that value.
   */
  lemma FirstTokenWins(p: Paragraph, json: ResumeJson, phs: seq<Placeholder>, k: int)
    requires 0 <= k < |phs|
    requires Contains(ParagraphText(p), phs[k].token)
    requires forall j :: 0 <= j < k ==> !Contains(ParagraphText(p), phs[j].token)
    requires forall j :: k < j < |phs| ==> !Contains(Value(json, phs[k]), phs[j].token)
    ensures Checks(p, json, phs) == SetText(Value(json, phs[k]))
  {
    var upTo, after := phs[..k + 1], phs[k + 1..];
    var filled := SetText(Value(json, phs[k]));
    FirstTokenFires(p, json, phs, k);
    forall j | 0 <= j < |after|
      ensures !Contains(ParagraphText(filled), after[j].token)
    {
      assert after[j] == phs[k + 1 + j];
    }
    ChecksWithoutTokens(filled, json, after);
    assert phs == upTo + after;
    ChecksAppend(p, json, upTo, after);
  }

  /**
   * A value that itself contains the next placeholder's token is overwritten
   * by that placeholder's value: the checks read the current text.
   */
  lemma ValueWithNextTokenReplaced(p: Paragraph, json: ResumeJson, phs: seq<Placeholder>, k: int)
    requires 0 <= k < |phs| - 1
    requires Contains(ParagraphText(p), phs[k].token)
    requires forall j :: 0 <= j < k ==> !Contains(ParagraphText(p), phs[j].token)
    requires Contains(Value(json, phs[k]), phs[k + 1].token)
    ensures Checks(p, json, phs[..k + 2]) == SetText(Value(json, phs[k + 1]))
  {
    FirstTokenFires(p, json, phs, k);
    ChecksSnoc(p, json, phs, k + 1);
  }

  /** With the template's own placeholders: a paragraph whose first placeholder is `Placeholders[k]` gets that placeholder's content. */
  lemma FilledByFirstPlaceholder(p: Paragraph, json: ResumeJson, k: int)
    requires 0 <= k < |Placeholders|
    requires Contains(ParagraphText(p), Placeholders[k].token)
    requires forall j :: 0 <= j < k ==> !Contains(ParagraphText(p), Placeholders[j].token)
    requires forall j :: k < j < |Placeholders| ==> !Contains(Value(json, Placeholders[k]), Placeholders[j].token)
    ensures ParagraphText(Filled(p, json)) == Value(json, Placeholders[k])
    ensures |Filled(p, json).runs| == 1
  {
    FirstTokenWins(p, json, Placeholders, k);
  }

  /**
   * The loop keeps the number of paragraphs, and every paragraph that
   * contains none of the six placeholders is left as it was.
   */
  lemma FilledParagraphsKeep(ps: seq<Paragraph>, json: ResumeJson)
    ensures |FilledParagraphs(ps, json)| == |ps|
    ensures forall k :: 0 <= k < |ps| && (forall j :: 0 <= j < |Placeholders| ==> !Contains(ParagraphText(ps[k]), Placeholders[j].token)) ==>
      FilledParagraphs(ps, json)[k] == ps[k]
  {
    forall k | 0 <= k < |ps| && (forall j :: 0 <= j < |Placeholders| ==> !Contains(ParagraphText(ps[k]), Placeholders[j].token))
      ensures FilledParagraphs(ps, json)[k] == ps[k]
    {
      ChecksWithoutTokens(ps[k], json, Placeholders);
    }
  }
}
