/**
 * `replace_and_style` in app/services/resume/replacer.py: every top-level
 * paragraph and every table cell whose text contains the old sentence is
 * emptied and rebuilt from the new sentence, one run per space-separated
 * word, each run made bold or italic when the word (without surrounding
 * punctuation) is in the corresponding word list.
 */
module Replacer {
  import opened Wrappers
  import opened Text
  import opened Docx

  /** The characters `word.strip(",.!?;:")` removes. */
  const Punctuation: set<char> := {',', '.', '!', '?', ';', ':'}

  /** One call's arguments, with `bold_words or []` and `italic_words or []` already applied. */
  datatype Replacement = Replacement(from: string, to: string, bold: seq<string>, italic: seq<string>)

  /** The arguments as the caller passes them: an absent word list is an empty one. */
  function MakeReplacement(from: string, to: string, boldWords: Option<seq<string>>, italicWords: Option<seq<string>>): Replacement {
    Replacement(from, to, boldWords.GetOr([]), italicWords.GetOr([]))
  }

  /** `word.strip(",.!?;:")`: the form looked up in the word lists. */
  function CleanWord(word: string): string {
    StripChars(word, Punctuation)
  }

  /** `to_sentence.split(" ")`. */
  function Words(to: string): seq<string> {
    SplitOn(to, {' '})
  }

  /** The run `add_run(word + " ")` after its bold and italic flags are set. */
  function StyledRun(word: string, e: Replacement): Run {
    Run(word + " ", CleanWord(word) in e.bold, CleanWord(word) in e.italic)
  }

  /** The runs added for some words, in order. */
  function StyledRuns(words: seq<string>, e: Replacement): seq<Run> {
    seq(|words|, k requires 0 <= k < |words| => StyledRun(words[k], e))
  }

  /** The runs after `run.text = ""` on each: their styles stay. */
  function Cleared(runs: seq<Run>): seq<Run> {
    seq(|runs|, k requires 0 <= k < |runs| => runs[k].(text := ""))
  }

  /** A paragraph after its runs are cleared and the new sentence's runs appended. */
  function Rebuilt(p: Paragraph, e: Replacement): Paragraph {
    Paragraph(Cleared(p.runs) + StyledRuns(Words(e.to), e))
  }

  /** A top-level paragraph after the paragraph loop has visited it. */
  function ReplacedParagraph(p: Paragraph, e: Replacement): Paragraph {
    if Contains(ParagraphText(p), e.from) then Rebuilt(p, e) else p
  }

  /**
   * A cell after the table loop has visited it: `cell.text = ""` leaves one
   * paragraph holding one empty run, and `add_paragraph` appends a second
   * paragraph that receives the new runs.
   */
  function RewrittenCell(c: Cell, e: Replacement): Cell {
    if Contains(CellText(c), e.from) then
      Cell([Paragraph([Run("", false, false)]), Paragraph(StyledRuns(Words(e.to), e))])
    else c
  }

  function RewrittenRow(r: Row, e: Replacement): Row {
    Row(seq(|r.cells|, k requires 0 <= k < |r.cells| => RewrittenCell(r.cells[k], e)))
  }

  function RewrittenTable(t: Table, e: Replacement): Table {
    Table(seq(|t.rows|, k requires 0 <= k < |t.rows| => RewrittenRow(t.rows[k], e)))
  }

  function ReplacedParagraphs(ps: seq<Paragraph>, e: Replacement): seq<Paragraph> {
    seq(|ps|, k requires 0 <= k < |ps| => ReplacedParagraph(ps[k], e))
  }

  function RewrittenTables(ts: seq<Table>, e: Replacement): seq<Table> {
    seq(|ts|, k requires 0 <= k < |ts| => RewrittenTable(ts[k], e))
  }

  //////////////////////////////////////////////////////////////////////////
  // The loops
  //////////////////////////////////////////////////////////////////////////

  /** `for word in to_sentence.split(" ")`: add a run per word and style it. */
  method StyleWords(e: Replacement) returns (runs: seq<Run>)
    ensures runs == StyledRuns(Words(e.to), e)
  {
    var words := Words(e.to);
    runs := [];
    var i := 0;
    while i < |words|
      invariant 0 <= i <= |words|
      invariant |runs| == i
      invariant forall k :: 0 <= k < i ==> runs[k] == StyledRun(words[k], e)
    {
      var word := words[i];
      var run := Run(word + " ", false, false);
      var clean := CleanWord(word);
      if clean in e.bold {
        run := run.(bold := true);
      }
      if clean in e.italic {
        run := run.(italic := true);
      }
      runs := runs + [run];
      i := i + 1;
    }
  }

  /** `for run in para.runs: run.text = ""`. */
  method ClearRuns(runs: seq<Run>) returns (cleared: seq<Run>)
    ensures cleared == Cleared(runs)
  {
    cleared := runs;
    var i := 0;
    while i < |cleared|
      invariant 0 <= i <= |cleared| == |runs|
      invariant forall k :: 0 <= k < i ==> cleared[k] == runs[k].(text := "")
      invariant forall k :: i <= k < |runs| ==> cleared[k] == runs[k]
    {
      cleared := cleared[i := cleared[i].(text := "")];
      i := i + 1;
    }
  }

  /** The body of the paragraph loop for a paragraph that contains the old sentence. */
  method RebuildParagraph(p: Paragraph, e: Replacement) returns (q: Paragraph)
    ensures q == Rebuilt(p, e)
  {
    var cleared := ClearRuns(p.runs);
    var added := StyleWords(e);
    q := Paragraph(cleared + added);
  }

  /** `for cell in row.cells`: rewrite each cell that contains the old sentence. */
  method RewriteRow(r: Row, e: Replacement) returns (r': Row)
    ensures r' == RewrittenRow(r, e)
  {
    var cells := r.cells;
    var i := 0;
    while i < |cells|
      invariant 0 <= i <= |cells| == |r.cells|
      invariant forall k :: 0 <= k < i ==> cells[k] == RewrittenCell(r.cells[k], e)
      invariant forall k :: i <= k < |cells| ==> cells[k] == r.cells[k]
    {
      if Contains(CellText(cells[i]), e.from) {
        var added := StyleWords(e);
        cells := cells[i := Cell([Paragraph([Run("", false, false)]), Paragraph(added)])];
      }
      i := i + 1;
    }
    r' := Row(cells);
  }

  /** `for row in table.rows`. */
  method RewriteTable(t: Table, e: Replacement) returns (t': Table)
    ensures t' == RewrittenTable(t, e)
  {
    var rows := t.rows;
    var i := 0;
    while i < |rows|
      invariant 0 <= i <= |rows| == |t.rows|
      invariant forall k :: 0 <= k < i ==> rows[k] == RewrittenRow(t.rows[k], e)
      invariant forall k :: i <= k < |rows| ==> rows[k] == t.rows[k]
    {
      var row := RewriteRow(rows[i], e);
      rows := rows[i := row];
      i := i + 1;
    }
    t' := Table(rows);
  }

  /** `replace_and_style(doc, from_sentence, to_sentence, bold_words, italic_words)`. */
  method ReplaceAndStyle(doc: Document, from: string, to: string,
                         boldWords: Option<seq<string>>, italicWords: Option<seq<string>>)
    modifies doc
    ensures doc.paragraphs == ReplacedParagraphs(old(doc.paragraphs), MakeReplacement(from, to, boldWords, italicWords))
    ensures doc.tables == RewrittenTables(old(doc.tables), MakeReplacement(from, to, boldWords, italicWords))
  {
    var e := MakeReplacement(from, to, boldWords, italicWords);
    ghost var ps := doc.paragraphs;
    var i := 0;
    while i < |doc.paragraphs|
      invariant 0 <= i <= |doc.paragraphs| == |ps|
      invariant doc.tables == old(doc.tables)
      invariant forall k :: 0 <= k < i ==> doc.paragraphs[k] == ReplacedParagraph(ps[k], e)
      invariant forall k :: i <= k < |ps| ==> doc.paragraphs[k] == ps[k]
    {
      var para := doc.paragraphs[i];
      if Contains(ParagraphText(para), e.from) {
        para := RebuildParagraph(para, e);
        doc.paragraphs := doc.paragraphs[i := para];
      }
      i := i + 1;
    }
    ghost var ts := doc.tables;
    var j := 0;
    while j < |doc.tables|
      invariant 0 <= j <= |doc.tables| == |ts|
      invariant doc.paragraphs == ReplacedParagraphs(ps, e)
      invariant forall k :: 0 <= k < j ==> doc.tables[k] == RewrittenTable(ts[k], e)
      invariant forall k :: j <= k < |ts| ==> doc.tables[k] == ts[k]
    {
      var table := RewriteTable(doc.tables[j], e);
      doc.tables := doc.tables[j := table];
      j := j + 1;
    }
  }

  //////////////////////////////////////////////////////////////////////////
  // Properties
  //////////////////////////////////////////////////////////////////////////

  /** Cleared runs contribute no text. */
  lemma {:induction false} ClearedText(runs: seq<Run>)
    ensures RunsText(Cleared(runs)) == ""
  {
    if runs != [] {
      assert Cleared(runs)[1..] == Cleared(runs[1..]);
      ClearedText(runs[1..]);
    }
  }

  /** The runs of some words read as the words joined by spaces, plus one trailing space. */
  lemma {:induction false} StyledText(words: seq<string>, e: Replacement)
    requires words != []
    ensures RunsText(StyledRuns(words, e)) == Join(words, " ") + " "
  {
    var runs := StyledRuns(words, e);
    if |words| == 1 {
      assert runs[1..] == [];
    } else {
      assert runs[1..] == StyledRuns(words[1..], e);
      StyledText(words[1..], e);
    }
  }

  /** A rebuilt paragraph reads exactly as the new sentence followed by a space. */
  lemma RebuiltText(p: Paragraph, e: Replacement)
    ensures ParagraphText(Rebuilt(p, e)) == e.to + " "
  {
    var words := Words(e.to);
    RunsTextConcat(Cleared(p.runs), StyledRuns(words, e));
    ClearedText(p.runs);
    StyledText(words, e);
    SplitJoin(e.to, ' ');
  }

  /** The rebuilt paragraph keeps its old runs and gains one run per space of the new sentence, plus one. */
  lemma RebuiltRunCount(p: Paragraph, e: Replacement)
    ensures |Rebuilt(p, e).runs| == |p.runs| + Count(e.to, ' ') + 1
  {
    SplitCount(e.to, ' ');
  }

  /**
   * In a rebuilt paragraph the old runs keep their styles with empty text,
   * and the run for the `k`-th word reads `word + " "` and is bold (italic)
   * exactly when the word's punctuation-stripped form is a bold (italic) word.
   */
  lemma RebuiltRuns(p: Paragraph, e: Replacement, k: int)
    requires 0 <= k < |Words(e.to)|
    ensures forall j :: 0 <= j < |p.runs| ==>
      Rebuilt(p, e).runs[j] == Run("", p.runs[j].bold, p.runs[j].italic)
    ensures var run := Rebuilt(p, e).runs[|p.runs| + k];
      var word := Words(e.to)[k];
      run.text == word + " " && (run.bold <==> StripChars(word, Punctuation) in e.bold)
      && (run.italic <==> StripChars(word, Punctuation) in e.italic)
  {
  }

  /** Punctuation at either end of a word does not change how it is styled. */
  lemma PunctuationIgnored(word: string, c: char)
    requires c in Punctuation
    ensures CleanWord(word + [c]) == CleanWord(word)
    ensures CleanWord([c] + word) == CleanWord(word)
  {
    assert word + [c] == [] + word + [c];
    StripCharsPadding([], word, [c], Punctuation);
    assert [c] + word == [c] + word + [];
    StripCharsPadding([c], word, [], Punctuation);
  }

  /** Without word lists (`None` or empty) no new run is styled. */
  lemma UnlistedUnstyled(p: Paragraph, from: string, to: string)
    ensures var q := Rebuilt(p, MakeReplacement(from, to, None, None));
      forall j :: |p.runs| <= j < |q.runs| ==> !q.runs[j].bold && !q.runs[j].italic
  {
  }

  /**
   * Every top-level paragraph containing the old sentence is rewritten to the
   * new one, and every other paragraph is left as it was.
   */
  lemma ReplacedParagraphsText(ps: seq<Paragraph>, e: Replacement)
    ensures |ReplacedParagraphs(ps, e)| == |ps|
    ensures forall k :: 0 <= k < |ps| && Contains(ParagraphText(ps[k]), e.from) ==>
      ParagraphText(ReplacedParagraphs(ps, e)[k]) == e.to + " "
    ensures forall k :: 0 <= k < |ps| && !Contains(ParagraphText(ps[k]), e.from) ==>
      ReplacedParagraphs(ps, e)[k] == ps[k]
  {
    forall k | 0 <= k < |ps| && Contains(ParagraphText(ps[k]), e.from)
      ensures ParagraphText(ReplacedParagraphs(ps, e)[k]) == e.to + " "
    {
      RebuiltText(ps[k], e);
    }
  }

  /**
   * A rewritten cell holds two paragraphs, an empty one and the new runs, so
   * it reads as a newline followed by the new sentence and a space.
   */
  lemma RewrittenCellText(c: Cell, e: Replacement)
    requires Contains(CellText(c), e.from)
    ensures |RewrittenCell(c, e).paragraphs| == 2
    ensures RewrittenCell(c, e).paragraphs[1] == Paragraph(StyledRuns(Words(e.to), e))
    ensures CellText(RewrittenCell(c, e)) == "\n" + e.to + " "
  {
    var empty := Paragraph([Run("", false, false)]);
    var added := Paragraph(StyledRuns(Words(e.to), e));
    TwoParagraphCellText(empty, added);
    assert Rebuilt(Paragraph([]), e) == added by {
      assert Cleared([]) + StyledRuns(Words(e.to), e) == StyledRuns(Words(e.to), e);
    }
    RebuiltText(Paragraph([]), e);
    assert ParagraphText(empty) == "";
  }

  /** When the old sentence occurs in no paragraph and no cell, the document is unchanged. */
  lemma AbsentLeavesDocument(ps: seq<Paragraph>, ts: seq<Table>, e: Replacement)
    requires forall k :: 0 <= k < |ps| ==> !Contains(ParagraphText(ps[k]), e.from)
    requires forall t, r, c :: 0 <= t < |ts| && 0 <= r < |ts[t].rows| && 0 <= c < |ts[t].rows[r].cells| ==>
      !Contains(CellText(ts[t].rows[r].cells[c]), e.from)
    ensures ReplacedParagraphs(ps, e) == ps
    ensures RewrittenTables(ts, e) == ts
  {
    forall t | 0 <= t < |ts|
      ensures RewrittenTable(ts[t], e) == ts[t]
    {
      forall r | 0 <= r < |ts[t].rows|
        ensures RewrittenRow(ts[t].rows[r], e) == ts[t].rows[r]
      {
        assert RewrittenRow(ts[t].rows[r], e).cells == ts[t].rows[r].cells;
      }
      assert RewrittenTable(ts[t], e).rows == ts[t].rows;
    }
  }
}
