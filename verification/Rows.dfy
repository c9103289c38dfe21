/** The lines a text becomes on paper: which glyphs stand on each, and why each ends. Lines know nothing of pages. */
module Rows {
  import opened Bytes
  import opened Glyphs
  import opened Layout
  import opened PostScript

  // ----- the lines of a text -----

  datatype End = Newline | Feed | Folded | Last

  /** A line on the page: what stands on it, whether something was cut off, and why it ends. */
  datatype Row = Row(items: seq<Event>, cut: bool, end: End)

  const BLANK_ROW := Row([], false, Last)

  predicate IsBreak(o: Options, c: byte) {
    c == NEWLINE || (o.interpret && c == FORM_FEED)
  }

  /** In which column a line has got to. */
  function ColumnIn(items: seq<Event>): nat {
    if items == [] then 0
    else
      match items[|items| - 1]
      case Column(n) => n
      case Glyph(_, _) => ColumnIn(items[..|items| - 1]) + 1
      case _ => ColumnIn(items[..|items| - 1])
  }

  /** The first multiple of the tab size beyond both the column and the width in Courier. */
  function TabAfter(o: Options, items: seq<Event>): nat
    requires o.tabsize > 0
  {
    var width := Position(o.w, items) / COURIER_WX;
    ((if width > ColumnIn(items) then width else ColumnIn(items)) / o.tabsize + 1) * o.tabsize
  }

  /** What a character puts on its line, where that brings the line to, and what it puts on a new one instead. */
  datatype Piece = Piece(here: seq<Event>, reach: nat, there: seq<Event>)

  function PieceOf(o: Options, items: seq<Event>, c: Char): Piece
    requires o.tabsize > 0
  {
    if o.interpret && c.c == TAB then
      Piece([Column(TabAfter(o, items))], TabAfter(o, items) * COURIER_WX, [Column(0)])
    else
      var codes := Expand(o.w, o.format, c.face, c.c);
      var shown := Shown(Some(c.face), codes);
      Piece(shown, Position(o.w, items) + TotalWidth(o.w, c.face, codes), shown)
  }

  /** One character more. Lines are filled as long as what comes next fits; what does not begins a new line, or is
      cut off with what follows it. */
  function NextRows(o: Options, rows: seq<Row>, c: Char): (r: seq<Row>)
    requires o.tabsize > 0 && rows != []
    ensures r != []
  {
    var done, row := rows[..|rows| - 1], rows[|rows| - 1];
    if IsBreak(o, c.c) then EndRow(rows, if c.c == NEWLINE then Newline else Feed)
    else if row.cut then rows
    else
      var piece := PieceOf(o, row.items, c);
      if piece.reach <= o.wxperline then AddTo(rows, piece.here)
      else if o.folding then AddTo(EndRow(rows, Folded), piece.there)
      else done + [row.(cut := true)]
  }

  function EndRow(rows: seq<Row>, end: End): (r: seq<Row>)
    requires rows != []
    ensures r != []
  {
    rows[..|rows| - 1] + [rows[|rows| - 1].(end := end), BLANK_ROW]
  }

  function AddTo(rows: seq<Row>, items: seq<Event>): (r: seq<Row>)
    requires rows != []
    ensures r != []
  {
    var row := rows[|rows| - 1];
    rows[..|rows| - 1] + [row.(items := row.items + items)]
  }

  function RowsOf(o: Options, text: seq<Char>): (rows: seq<Row>)
    requires o.tabsize > 0
    ensures rows != []
  {
    if text == [] then [BLANK_ROW] else NextRows(o, RowsOf(o, text[..|text| - 1]), text[|text| - 1])
  }

  // ----- what comes next -----

  lemma OneMore<T>(s: seq<T>, e: T)
    ensures (s + [e])[..|s|] == s && (s + [e])[|s|] == e
  {
  }

  function Items(rows: seq<Row>): seq<seq<Event>> {
    seq(|rows|, k requires 0 <= k < |rows| => rows[k].items)
  }

  lemma ItemsAdded(rows: seq<Row>, items: seq<Event>)
    requires rows != []
    ensures Items(AddTo(rows, items)) == Items(rows)[..|rows| - 1] + [Items(rows)[|rows| - 1] + items]
    ensures |AddTo(rows, items)| == |rows|
    ensures forall k :: 0 <= k < |rows| ==> AddTo(rows, items)[k].end == rows[k].end
  {
  }

  lemma {:induction false} ShownReach(w: Widths, items: seq<Event>, f: Face, codes: seq<byte>)
    ensures Position(w, items + Shown(Some(f), codes)) == Position(w, items) + TotalWidth(w, f, codes)
    ensures ColumnIn(items + Shown(Some(f), codes)) == ColumnIn(items) + |codes|
    decreases |codes|
  {
    var shown := Shown(Some(f), codes);
    if codes == [] {
      assert items + shown == items;
    } else {
      var init, c := codes[..|codes| - 1], codes[|codes| - 1];
      ShownReach(w, items, f, init);
      assert items + shown == (items + Shown(Some(f), init)) + [Glyph(f, c)];
      OneMore(items + Shown(Some(f), init), Glyph(f, c));
    }
  }

  lemma ColumnReach(w: Widths, items: seq<Event>, n: nat)
    ensures Position(w, items + [Column(n)]) == n * COURIER_WX && ColumnIn(items + [Column(n)]) == n
  {
    OneMore(items, Column(n));
  }

  lemma PieceStands(o: Options, items: seq<Event>, c: Char)
    requires o.tabsize > 0
    ensures var piece := PieceOf(o, items, c);
      && (forall k :: 0 <= k < |piece.here| ==> IsGlyph(piece.here[k]) || piece.here[k].Column?)
      && (forall k :: 0 <= k < |piece.there| ==> IsGlyph(piece.there[k]) || piece.there[k].Column?)
      && Position(o.w, items + piece.here) == piece.reach
  {
    hide Position, TabAfter, TotalWidth, Expand;
    if o.interpret && c.c == TAB {
      ColumnReach(o.w, items, TabAfter(o, items));
    } else {
      ShownReach(o.w, items, c.face, Expand(o.w, o.format, c.face, c.c));
    }
  }

  lemma PieceShape(o: Options, items: seq<Event>, c: Char)
    requires o.tabsize > 0 && !(o.interpret && c.c == TAB)
    ensures var codes := Expand(o.w, o.format, c.face, c.c);
      var shown := Shown(Some(c.face), codes);
      PieceOf(o, items, c) == Piece(shown, Position(o.w, items) + TotalWidth(o.w, c.face, codes), shown)
  {
    hide Position, TotalWidth, Expand, Shown;
  }

  // ----- what this says of the text -----

  /** The text between its line breaks. */
  function TextLines(o: Options, text: seq<Char>): (lines: seq<seq<Char>>)
    ensures lines != []
  {
    if text == [] then [[]]
    else
      var lines, c := TextLines(o, text[..|text| - 1]), text[|text| - 1];
      if IsBreak(o, c.c) then lines + [[]] else lines[..|lines| - 1] + [lines[|lines| - 1] + [c]]
  }

  /** The line breaks of a text, in order. */
  function BreaksOf(o: Options, text: seq<Char>): seq<End> {
    if text == [] then []
    else
      var breaks, c := BreaksOf(o, text[..|text| - 1]), text[|text| - 1];
      if IsBreak(o, c.c) then breaks + [if c.c == NEWLINE then Newline else Feed] else breaks
  }

  /** How rows end, in order, apart from those that are folded. */
  function BreaksIn(rows: seq<Row>): seq<End> {
    if rows == [] then []
    else
      BreaksIn(rows[..|rows| - 1]) +
        (var end := rows[|rows| - 1].end; if end == Newline || end == Feed then [end] else [])
  }

  function CountFolded(rows: seq<Row>): nat {
    if rows == [] then 0 else CountFolded(rows[..|rows| - 1]) + (if rows[|rows| - 1].end == Folded then 1 else 0)
  }

  /** Rows end where the text has its breaks, in the same order, and where they are folded. */
  lemma {:induction false} RowsEnd(o: Options, text: seq<Char>)
    requires o.tabsize > 0
    ensures var rows := RowsOf(o, text);
      && BreaksIn(rows) == BreaksOf(o, text) && |rows| - 1 == |BreaksOf(o, text)| + CountFolded(rows)
      && rows[|rows| - 1].end == Last
    decreases |text|
  {
    hide PieceOf;
    if text == [] {
      OneBlank();
    } else {
      var init, c := text[..|text| - 1], text[|text| - 1];
      RowsEnd(o, init);
      EndsNext(o, RowsOf(o, init), c);
    }
  }

  lemma OneBlank()
    ensures BreaksIn([BLANK_ROW]) == [] && CountFolded([BLANK_ROW]) == 0
  {
    assert [BLANK_ROW][..0] == [];
  }

  lemma EndsNext(o: Options, rows: seq<Row>, c: Char)
    requires o.tabsize > 0 && rows != [] && rows[|rows| - 1].end == Last
    ensures var rows' := NextRows(o, rows, c);
      && BreaksIn(rows') ==
           BreaksIn(rows) + (if IsBreak(o, c.c) then [if c.c == NEWLINE then Newline else Feed] else [])
      && |rows'| - CountFolded(rows') == |rows| - CountFolded(rows) + (if IsBreak(o, c.c) then 1 else 0)
      && rows'[|rows'| - 1].end == Last
  {
    hide PieceOf, BreaksIn, CountFolded;
    var row := rows[|rows| - 1];
    LastEnds(rows, row.(cut := true));
    assert BreaksIn(rows) + [] == BreaksIn(rows);
    if IsBreak(o, c.c) {
      MoreEnds(rows, if c.c == NEWLINE then Newline else Feed);
    } else if !row.cut {
      var piece := PieceOf(o, row.items, c);
      LastEnds(rows, row.(items := row.items + piece.here));
      if piece.reach > o.wxperline && o.folding {
        MoreEnds(rows, Folded);
        LastEnds(EndRow(rows, Folded), BLANK_ROW.(items := [] + piece.there));
      }
    }
  }

  lemma OneEnd(rows: seq<Row>, row: Row)
    ensures BreaksIn(rows + [row]) ==
      BreaksIn(rows) + (if row.end == Newline || row.end == Feed then [row.end] else [])
    ensures CountFolded(rows + [row]) == CountFolded(rows) + (if row.end == Folded then 1 else 0)
  {
    OneMore(rows, row);
  }

  /** The last row in another form. */
  lemma LastEnds(rows: seq<Row>, row: Row)
    requires rows != [] && row.end == rows[|rows| - 1].end
    ensures BreaksIn(rows[..|rows| - 1] + [row]) == BreaksIn(rows)
    ensures CountFolded(rows[..|rows| - 1] + [row]) == CountFolded(rows)
  {
    OneMore(rows[..|rows| - 1], row);
  }

  /** A last row that has not ended does not matter. */
  lemma NoEnd(rows: seq<Row>)
    requires rows != [] && rows[|rows| - 1].end == Last
    ensures BreaksIn(rows) == BreaksIn(rows[..|rows| - 1]) && CountFolded(rows) == CountFolded(rows[..|rows| - 1])
  {
  }

  lemma EndedApart(rows: seq<Row>, end: End)
    requires rows != []
    ensures EndRow(rows, end) == rows[..|rows| - 1] + [rows[|rows| - 1].(end := end)] + [BLANK_ROW]
  {
  }

  lemma MoreEnds(rows: seq<Row>, end: End)
    requires rows != [] && rows[|rows| - 1].end == Last
    ensures BreaksIn(EndRow(rows, end)) == BreaksIn(rows) + (if end == Newline || end == Feed then [end] else [])
    ensures CountFolded(EndRow(rows, end)) == CountFolded(rows) + (if end == Folded then 1 else 0)
  {
    var done, row := rows[..|rows| - 1], rows[|rows| - 1].(end := end);
    NoEnd(rows);
    EndedApart(rows, end);
    hide BreaksIn, CountFolded, EndRow;
    OneEnd(done, row);
    OneEnd(done + [row], BLANK_ROW);
  }

  /** Here too much for line `k` comes next. It begins a new line, or is cut off. */
  predicate TooMuch(o: Options, rows: seq<Row>, k: nat, c: Char)
    requires o.tabsize > 0 && k < |rows|
  {
    var piece := PieceOf(o, rows[k].items, c);
    && !IsBreak(o, c.c) && Position(o.w, rows[k].items + piece.here) > o.wxperline
    && (rows[k].end == Folded ==> o.folding && k + 1 < |rows| && piece.there <= rows[k + 1].items)
    && (rows[k].cut ==> !o.folding)
  }

  /** A line is folded, or something cut off, only where what comes next in the text does not fit. */
  ghost predicate BrokenWhereFull(o: Options, rows: seq<Row>, text: seq<Char>)
    requires o.tabsize > 0
  {
    forall k :: 0 <= k < |rows| && (rows[k].end == Folded || rows[k].cut) ==>
      exists i :: 0 <= i < |text| && TooMuch(o, rows, k, text[i])
  }

  lemma {:induction false} BrokenWhenFull(o: Options, text: seq<Char>)
    requires o.tabsize > 0
    ensures BrokenWhereFull(o, RowsOf(o, text), text)
    decreases |text|
  {
    hide PieceOf;
    if text != [] {
      var init, c := text[..|text| - 1], text[|text| - 1];
      BrokenWhenFull(o, init);
      RowsEnd(o, init);
      hide BrokenWhereFull, NextRows;
      StaysFull(o, RowsOf(o, init), init, c);
      assert init + [c] == text;
    }
  }

  lemma StaysFull(o: Options, rows: seq<Row>, text: seq<Char>, c: Char)
    requires o.tabsize > 0 && rows != [] && rows[|rows| - 1].end == Last && BrokenWhereFull(o, rows, text)
    ensures BrokenWhereFull(o, NextRows(o, rows, c), text + [c])
  {
    var rows', n := NextRows(o, rows, c), |rows| - 1;
    forall k | 0 <= k < |rows'| && (rows'[k].end == Folded || rows'[k].cut)
      ensures exists i :: 0 <= i < |text + [c]| && TooMuch(o, rows', k, (text + [c])[i])
    {
      NextFull(o, rows, c, k);
      hide TooMuch, NextRows;
      if k < |rows| && (rows[k].end == Folded || rows[k].cut) {
        var i :| 0 <= i < |text| && TooMuch(o, rows, k, text[i]);
        TooMuchStill(o, rows, c, k, text[i]);
        assert (text + [c])[i] == text[i];
      } else {
        assert (text + [c])[|text|] == c;
      }
    }
  }

  /** Only the last line can change, and only by what comes next. */
  lemma NextFull(o: Options, rows: seq<Row>, c: Char, k: nat)
    requires o.tabsize > 0 && rows != [] && rows[|rows| - 1].end == Last && k < |NextRows(o, rows, c)|
    requires var row := NextRows(o, rows, c)[k]; row.end == Folded || row.cut
    ensures (k < |rows| && (rows[k].end == Folded || rows[k].cut)) || TooMuch(o, NextRows(o, rows, c), k, c)
  {
    var row, rows' := rows[|rows| - 1], NextRows(o, rows, c);
    if k == |rows| - 1 && !row.cut {
      var piece := PieceOf(o, row.items, c);
      PieceStands(o, row.items, c);
      hide PieceOf, Position;
      assert rows'[k].items == row.items;
      if rows'[k].end == Folded {
        assert rows'[k + 1].items == [] + piece.there == piece.there;
      }
    }
  }

  lemma TooMuchStill(o: Options, rows: seq<Row>, c: Char, k: nat, c0: Char)
    requires o.tabsize > 0 && rows != [] && rows[|rows| - 1].end == Last && k < |rows|
    requires (rows[k].end == Folded || rows[k].cut) && TooMuch(o, rows, k, c0)
    ensures k < |NextRows(o, rows, c)| && TooMuch(o, NextRows(o, rows, c), k, c0)
  {
    hide PieceOf, Position;
    var rows' := NextRows(o, rows, c);
    assert rows'[k].items == rows[k].items;
    if rows[k].end == Folded {
      assert rows[k + 1].items <= rows'[k + 1].items;
    }
  }

  /** No tab is interpreted, and every line of the text fits. */
  ghost predicate AllFit(o: Options, text: seq<Char>) {
    && (forall k :: 0 <= k < |text| ==> !(o.interpret && text[k].c == TAB))
    && forall k :: 0 <= k < |TextLines(o, text)| ==>
         Position(o.w, Wanted(o, TextLines(o, text)[k])) <= o.wxperline
  }

  function WantedLines(o: Options, lines: seq<seq<Char>>): seq<seq<Event>> {
    seq(|lines|, k requires 0 <= k < |lines| => Wanted(o, lines[k]))
  }

  lemma {:induction false} FittingText(o: Options, text: seq<Char>)
    requires o.tabsize > 0 && AllFit(o, text)
    ensures AsInText(o, RowsOf(o, text), TextLines(o, text))
    decreases |text|
  {
    if text == [] {
      NoneWanted(o);
    } else {
      FitBefore(o, text);
      FittingText(o, text[..|text| - 1]);
      hide AllFit, AsInText, NextRows;
      FittingNext(o, text);
    }
  }

  /** Then what stands on the lines of the pages is what stands on those of the text. */
  lemma FittingRows(o: Options, text: seq<Char>)
    requires o.tabsize > 0 && AllFit(o, text)
    ensures Items(RowsOf(o, text)) == WantedLines(o, TextLines(o, text))
    ensures forall k :: 0 <= k < |RowsOf(o, text)| ==> !RowsOf(o, text)[k].cut && RowsOf(o, text)[k].end != Folded
  {
    hide AllFit;
    FittingText(o, text);
  }

  lemma WantedMore(o: Options, line: seq<Char>, c: Char)
    requires !IsBreak(o, c.c) && !(o.interpret && c.c == TAB)
    ensures var shown := Shown(Some(c.face), Expand(o.w, o.format, c.face, c.c));
      Wanted(o, line + [c]) == Wanted(o, line) + shown
    ensures Position(o.w, Wanted(o, line + [c])) ==
      Position(o.w, Wanted(o, line)) + TotalWidth(o.w, c.face, Expand(o.w, o.format, c.face, c.c))
  {
    hide Expand, TotalWidth, Position, Shown;
    OneMore(line, c);
    ShownReach(o.w, Wanted(o, line), c.face, Expand(o.w, o.format, c.face, c.c));
  }

  lemma FitBefore(o: Options, text: seq<Char>)
    requires text != [] && AllFit(o, text)
    ensures AllFit(o, text[..|text| - 1])
  {
    hide Position, Wanted;
    var init, c := text[..|text| - 1], text[|text| - 1];
    var lines, lines' := TextLines(o, init), TextLines(o, text);
    assert forall k :: 0 <= k < |init| ==> init[k] == text[k];
    forall k | 0 <= k < |lines|
      ensures Position(o.w, Wanted(o, lines[k])) <= o.wxperline
    {
      if k < |lines| - 1 || IsBreak(o, c.c) {
        assert lines'[k] == lines[k];
      } else {
        assert lines'[k] == lines[k] + [c];
        WantedMore(o, lines[k], c);
      }
    }
  }

  /** The rows are those of the text so far. */
  ghost predicate AsInText(o: Options, rows: seq<Row>, lines: seq<seq<Char>>) {
    && rows != [] && |rows| == |lines| && Items(rows) == WantedLines(o, lines)
    && forall k :: 0 <= k < |rows| ==> !rows[k].cut && rows[k].end != Folded
  }

  lemma BreakInText(o: Options, rows: seq<Row>, lines: seq<seq<Char>>, end: End)
    requires AsInText(o, rows, lines) && end != Folded
    ensures AsInText(o, EndRow(rows, end), lines + [[]])
  {
    NoneWanted(o);
    hide Wanted;
    assert Items(EndRow(rows, end)) == Items(rows) + [[]];
    assert WantedLines(o, lines + [[]]) == WantedLines(o, lines) + [[]];
  }

  lemma ItemsInText(o: Options, rows: seq<Row>, lines: seq<seq<Char>>, line: seq<Char>, items: seq<Event>)
    requires AsInText(o, rows, lines) && Wanted(o, line) == Wanted(o, lines[|lines| - 1]) + items
    ensures AsInText(o, AddTo(rows, items), lines[..|lines| - 1] + [line])
  {
    hide Wanted;
    ItemsAdded(rows, items);
    var lines' := lines[..|lines| - 1] + [line];
    assert Items(rows)[|rows| - 1] == WantedLines(o, lines)[|lines| - 1] == Wanted(o, lines[|lines| - 1]);
    assert WantedLines(o, lines') == WantedLines(o, lines)[..|lines| - 1] + [Wanted(o, line)];
  }

  lemma FittingNext(o: Options, text: seq<Char>)
    requires o.tabsize > 0 && text != [] && AllFit(o, text)
    requires AsInText(o, RowsOf(o, text[..|text| - 1]), TextLines(o, text[..|text| - 1]))
    ensures AsInText(o, RowsOf(o, text), TextLines(o, text))
  {
    var init, c := text[..|text| - 1], text[|text| - 1];
    var rows, lines := RowsOf(o, init), TextLines(o, init);
    hide Wanted, Position, TotalWidth, Expand, Shown, AsInText, AddTo, EndRow, PieceOf, AllFit;
    if IsBreak(o, c.c) {
      BreakInText(o, rows, lines, if c.c == NEWLINE then Newline else Feed);
    } else {
      FitsNow(o, text);
      LastInText(o, rows, lines);
      PieceFits(o, rows[|rows| - 1].items, lines[|lines| - 1], c);
      ItemsInText(o, rows, lines, lines[|lines| - 1] + [c], PieceOf(o, rows[|rows| - 1].items, c).here);
    }
  }

  lemma PieceFits(o: Options, items: seq<Event>, line: seq<Char>, c: Char)
    requires o.tabsize > 0 && !IsBreak(o, c.c) && !(o.interpret && c.c == TAB) && items == Wanted(o, line)
    ensures Wanted(o, line + [c]) == Wanted(o, line) + PieceOf(o, items, c).here
    ensures PieceOf(o, items, c).reach == Position(o.w, Wanted(o, line + [c]))
  {
    hide Wanted, Position, TotalWidth, Expand, Shown;
    WantedMore(o, line, c);
    PieceShape(o, items, c);
  }

  lemma LastInText(o: Options, rows: seq<Row>, lines: seq<seq<Char>>)
    requires AsInText(o, rows, lines)
    ensures rows != [] && lines != [] && rows[|rows| - 1].items == Wanted(o, lines[|lines| - 1])
    ensures !rows[|rows| - 1].cut
  {
    assert Items(rows)[|rows| - 1] == WantedLines(o, lines)[|lines| - 1];
  }

  lemma FitsNow(o: Options, text: seq<Char>)
    requires text != [] && AllFit(o, text) && !IsBreak(o, text[|text| - 1].c)
    ensures var lines, c := TextLines(o, text[..|text| - 1]), text[|text| - 1];
      && !(o.interpret && c.c == TAB) && Position(o.w, Wanted(o, lines[|lines| - 1] + [c])) <= o.wxperline
  {
    hide Position, Wanted;
    var lines, c := TextLines(o, text[..|text| - 1]), text[|text| - 1];
    assert TextLines(o, text)[|lines| - 1] == lines[|lines| - 1] + [c];
  }

  lemma NoneWanted(o: Options)
    ensures Wanted(o, []) == []
  {
  }
}
