/**
 * The part of a Word document the resume services see: top-level paragraphs
 * and tables; a table is rows of cells, a cell holds paragraphs, a paragraph
 * is a sequence of styled runs. This stands for the python-docx objects they
 * are handed, reduced to what `text`, `runs`, `cells` and `paragraphs` read.
 */
module Docx {
  import opened Text

  datatype Run = Run(text: string, bold: bool, italic: bool)

  datatype Paragraph = Paragraph(runs: seq<Run>)

  datatype Cell = Cell(paragraphs: seq<Paragraph>)

  datatype Row = Row(cells: seq<Cell>)

  datatype Table = Table(rows: seq<Row>)

  /** The concatenated text of some runs. */
  function RunsText(runs: seq<Run>): string {
    if runs == [] then "" else runs[0].text + RunsText(runs[1..])
  }

  /** `paragraph.text`: its runs' texts, in order. */
  function ParagraphText(p: Paragraph): string {
    RunsText(p.runs)
  }

  /** `paragraph.text` of each paragraph. */
  function Texts(ps: seq<Paragraph>): (r: seq<string>)
    ensures |r| == |ps| && forall i :: 0 <= i < |ps| ==> r[i] == ParagraphText(ps[i])
  {
    seq(|ps|, i requires 0 <= i < |ps| => ParagraphText(ps[i]))
  }

  /** `cell.text`: its paragraphs' texts joined by newlines. */
  function CellText(c: Cell): string {
    Join(Texts(c.paragraphs), "\n")
  }

  lemma {:induction false} RunsTextConcat(a: seq<Run>, b: seq<Run>)
    ensures RunsText(a + b) == RunsText(a) + RunsText(b)
  {
    if a == [] {
      assert a + b == b;
    } else {
      assert (a + b)[1..] == a[1..] + b;
      RunsTextConcat(a[1..], b);
    }
  }

  /** A two-paragraph cell reads as its paragraphs' texts around one newline. */
  lemma TwoParagraphCellText(a: Paragraph, b: Paragraph)
    ensures CellText(Cell([a, b])) == ParagraphText(a) + "\n" + ParagraphText(b)
  {
    var texts := Texts([a, b]);
    assert texts == [ParagraphText(a), ParagraphText(b)];
    assert texts[1..] == [ParagraphText(b)];
    assert Join(texts[1..], "\n") == ParagraphText(b);
  }

  /** A document the services read and change in place. */
  class Document {
    var paragraphs: seq<Paragraph>
    var tables: seq<Table>

    constructor (paragraphs: seq<Paragraph>, tables: seq<Table>)
      ensures this.paragraphs == paragraphs && this.tables == tables
    {
      this.paragraphs := paragraphs;
      this.tables := tables;
    }
  }
}
