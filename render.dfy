/** The FPDF document the converters draw on, reduced to the ordered log of
    drawing calls made on it. Layout, line wrapping, automatic page breaks
    and the bytes of `output()` are not part of this model; everything the
    scripts decide (which call, in which order, with which text, font and
    cell width) is. */
module Render {
  import opened Wrappers

  /** A font selection `set_font("Arial", style, size)`: style 'B' or "". */
  datatype Font = Font(bold: bool, size: nat)

  const Regular12 := Font(false, 12)
  const Regular10 := Font(false, 10)

  /** One drawing call on the FPDF object. `Cell` is `cell(w, h, txt,
      border=1 if border, ln=True if newLine)`; `Ln(None)` is `ln()` (a break
      of the last cell's height) and `Ln(Some(g))` is `ln(g)`. */
  datatype Event =
    | AddPage
    | SetFont(font: Font)
    | SetAutoPageBreak(margin: nat)
    | Cell(width: real, height: nat, text: string, border: bool, newLine: bool)
    | MultiCell(height: nat, text: string)
    | Ln(gap: Option<nat>)

  // ---------------------------------------------------------------------
  // Observations of a log. Each is defined on the last call, so that
  // appending one call is one unfolding, and each distributes over `+`.

  /** The number of pages the log opens. */
  function Pages(log: seq<Event>): nat {
    if log == [] then 0
    else Pages(log[..|log| - 1]) + (if log[|log| - 1].AddPage? then 1 else 0)
  }

  /** The font in effect after the log, if any was set. */
  function CurrentFont(log: seq<Event>): Option<Font> {
    if log == [] then None
    else if log[|log| - 1].SetFont? then Some(log[|log| - 1].font)
    else CurrentFont(log[..|log| - 1])
  }

  /** The texts of the title lines: cells that end their line (`ln=True`). */
  function Titles(log: seq<Event>): seq<string> {
    if log == [] then []
    else
      var e := log[|log| - 1];
      Titles(log[..|log| - 1]) + (if e.Cell? && e.newLine then [e.text] else [])
  }

  /** The texts of the wrapped paragraphs (`multi_cell`), in order. */
  function Paragraphs(log: seq<Event>): seq<string> {
    if log == [] then []
    else
      var e := log[|log| - 1];
      Paragraphs(log[..|log| - 1]) + (if e.MultiCell? then [e.text] else [])
  }

  /** The number of bordered table cells. */
  function TableCells(log: seq<Event>): nat {
    if log == [] then 0
    else
      var e := log[|log| - 1];
      TableCells(log[..|log| - 1]) + (if e.Cell? && e.border then 1 else 0)
  }

  /** The number of plain `ln()` calls, which end table rows. */
  function RowEnds(log: seq<Event>): nat {
    if log == [] then 0
    else RowEnds(log[..|log| - 1]) + (if log[|log| - 1] == Ln(None) then 1 else 0)
  }

  /** Every bordered table cell holds at most `limit` characters. */
  predicate CellsWithin(log: seq<Event>, limit: nat) {
    forall i :: 0 <= i < |log| ==> log[i].Cell? && log[i].border ==> |log[i].text| <= limit
  }

  lemma {:induction false} PagesConcat(a: seq<Event>, b: seq<Event>)
    ensures Pages(a + b) == Pages(a) + Pages(b)
  {
    if b == [] {
      assert a + b == a;
    } else {
      PagesConcat(a, b[..|b| - 1]);
      assert (a + b)[..|a + b| - 1] == a + b[..|b| - 1];
    }
  }

  lemma {:induction false} TitlesConcat(a: seq<Event>, b: seq<Event>)
    ensures Titles(a + b) == Titles(a) + Titles(b)
  {
    if b == [] {
      assert a + b == a;
    } else {
      TitlesConcat(a, b[..|b| - 1]);
      assert (a + b)[..|a + b| - 1] == a + b[..|b| - 1];
    }
  }

  lemma {:induction false} ParagraphsConcat(a: seq<Event>, b: seq<Event>)
    ensures Paragraphs(a + b) == Paragraphs(a) + Paragraphs(b)
  {
    if b == [] {
      assert a + b == a;
    } else {
      ParagraphsConcat(a, b[..|b| - 1]);
      assert (a + b)[..|a + b| - 1] == a + b[..|b| - 1];
    }
  }

  lemma {:induction false} TableCellsConcat(a: seq<Event>, b: seq<Event>)
    ensures TableCells(a + b) == TableCells(a) + TableCells(b)
  {
    if b == [] {
      assert a + b == a;
    } else {
      TableCellsConcat(a, b[..|b| - 1]);
      assert (a + b)[..|a + b| - 1] == a + b[..|b| - 1];
    }
  }

  lemma {:induction false} RowEndsConcat(a: seq<Event>, b: seq<Event>)
    ensures RowEnds(a + b) == RowEnds(a) + RowEnds(b)
  {
    if b == [] {
      assert a + b == a;
    } else {
      RowEndsConcat(a, b[..|b| - 1]);
      assert (a + b)[..|a + b| - 1] == a + b[..|b| - 1];
    }
  }

  /** The font after `a + b` is the last one `b` sets, else the one after `a`. */
  lemma {:induction false} CurrentFontConcat(a: seq<Event>, b: seq<Event>)
    ensures CurrentFont(a + b) == if CurrentFont(b).Some? then CurrentFont(b) else CurrentFont(a)
  {
    if b == [] {
      assert a + b == a;
    } else {
      CurrentFontConcat(a, b[..|b| - 1]);
      assert (a + b)[..|a + b| - 1] == a + b[..|b| - 1];
    }
  }

  /** Regrouping a concatenation; stated once so that callers need not fall
      back on element-wise equality. */
  lemma AppendAssoc<T>(a: seq<T>, b: seq<T>, c: seq<T>)
    ensures a + b + c == a + (b + c)
  {
  }

  lemma AppendEmpty<T>(a: seq<T>)
    ensures a + [] == a && [] + a == a
  {
  }

  /** The observations of a one-call log. */
  lemma ObserveSingle(e: Event)
    ensures Pages([e]) == (if e.AddPage? then 1 else 0)
    ensures Titles([e]) == (if e.Cell? && e.newLine then [e.text] else [])
    ensures Paragraphs([e]) == (if e.MultiCell? then [e.text] else [])
    ensures TableCells([e]) == (if e.Cell? && e.border then 1 else 0)
    ensures RowEnds([e]) == (if e == Ln(None) then 1 else 0)
  {
    assert [e][..0] == [];
  }

  // Appending one call adds that call's observation, one lemma per observation.

  lemma PagesSnoc(a: seq<Event>, e: Event)
    ensures Pages(a + [e]) == Pages(a) + (if e.AddPage? then 1 else 0)
  {
    assert (a + [e])[..|a|] == a;
  }

  lemma TitlesSnoc(a: seq<Event>, e: Event)
    ensures Titles(a + [e]) == Titles(a) + (if e.Cell? && e.newLine then [e.text] else [])
  {
    assert (a + [e])[..|a|] == a;
  }

  lemma ParagraphsSnoc(a: seq<Event>, e: Event)
    ensures Paragraphs(a + [e]) == Paragraphs(a) + (if e.MultiCell? then [e.text] else [])
  {
    assert (a + [e])[..|a|] == a;
  }

  lemma TableCellsSnoc(a: seq<Event>, e: Event)
    ensures TableCells(a + [e]) == TableCells(a) + (if e.Cell? && e.border then 1 else 0)
  {
    assert (a + [e])[..|a|] == a;
  }

  lemma RowEndsSnoc(a: seq<Event>, e: Event)
    ensures RowEnds(a + [e]) == RowEnds(a) + (if e == Ln(None) then 1 else 0)
  {
    assert (a + [e])[..|a|] == a;
  }

  /** All counting observations distribute over concatenation. */
  lemma ObserveConcat(a: seq<Event>, b: seq<Event>)
    ensures Pages(a + b) == Pages(a) + Pages(b)
    ensures Titles(a + b) == Titles(a) + Titles(b)
    ensures Paragraphs(a + b) == Paragraphs(a) + Paragraphs(b)
    ensures TableCells(a + b) == TableCells(a) + TableCells(b)
    ensures RowEnds(a + b) == RowEnds(a) + RowEnds(b)
  {
    PagesConcat(a, b);
    TitlesConcat(a, b);
    ParagraphsConcat(a, b);
    TableCellsConcat(a, b);
    RowEndsConcat(a, b);
  }

  lemma CellsWithinConcat(a: seq<Event>, b: seq<Event>, limit: nat)
    requires CellsWithin(a, limit) && CellsWithin(b, limit)
    ensures CellsWithin(a + b, limit)
  {
    forall i | 0 <= i < |a + b| && (a + b)[i].Cell? && (a + b)[i].border
      ensures |(a + b)[i].text| <= limit
    {
      if i >= |a| {
        assert (a + b)[i] == b[i - |a|];
      }
    }
  }

  // ---------------------------------------------------------------------
  // The FPDF object

  /** An FPDF document: the calls made on it so far, and the state FPDF keeps
      from them (the current page number and the current font). */
  class Fpdf {
    var log: seq<Event>
    var page: nat
    var font: Option<Font>

    ghost predicate Valid()
      reads this
    {
      page == Pages(log) && font == CurrentFont(log)
    }

    /** `FPDF()`: no page and no font yet. */
    constructor ()
      ensures Valid() && log == []
    {
      log, page, font := [], 0, None;
    }

    method AddPage()
      requires Valid()
      modifies this
      ensures Valid() && log == old(log) + [Event.AddPage]
      ensures page == old(page) + 1 && font == old(font)
    {
      log := log + [Event.AddPage];
      page := page + 1;
      assert log[..|log| - 1] == old(log);
    }

    method SetFont(f: Font)
      requires Valid()
      modifies this
      ensures Valid() && log == old(log) + [Event.SetFont(f)]
      ensures page == old(page) && font == Some(f)
    {
      log := log + [Event.SetFont(f)];
      font := Some(f);
      assert log[..|log| - 1] == old(log);
    }

    method SetAutoPageBreak(margin: nat)
      requires Valid()
      modifies this
      ensures Valid() && log == old(log) + [Event.SetAutoPageBreak(margin)]
      ensures page == old(page) && font == old(font)
    {
      log := log + [Event.SetAutoPageBreak(margin)];
      assert log[..|log| - 1] == old(log);
    }

    method Cell(width: real, height: nat, text: string, border: bool, newLine: bool)
      requires Valid()
      modifies this
      ensures Valid() && log == old(log) + [Event.Cell(width, height, text, border, newLine)]
      ensures page == old(page) && font == old(font)
    {
      log := log + [Event.Cell(width, height, text, border, newLine)];
      assert log[..|log| - 1] == old(log);
    }

    method MultiCell(height: nat, text: string)
      requires Valid()
      modifies this
      ensures Valid() && log == old(log) + [Event.MultiCell(height, text)]
      ensures page == old(page) && font == old(font)
    {
      log := log + [Event.MultiCell(height, text)];
      assert log[..|log| - 1] == old(log);
    }

    method Ln(gap: Option<nat>)
      requires Valid()
      modifies this
      ensures Valid() && log == old(log) + [Event.Ln(gap)]
      ensures page == old(page) && font == old(font)
    {
      log := log + [Event.Ln(gap)];
      assert log[..|log| - 1] == old(log);
    }
  }
}
