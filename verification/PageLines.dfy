/** What the printer shows of a text, line after line and page after page: pages end just after the lines that make
    them full or that end with a form feed. Pages know nothing of what is on the lines. */
module PageLines {
  import opened Bytes
  import opened Glyphs
  import opened Layout
  import opened PostScript
  import opened Rows

  // ----- lines and pages in the events -----

  /** What stands between the ends of lines; the last has not ended. */
  function LineGroups(events: seq<Event>): (groups: seq<seq<Event>>)
    ensures groups != []
  {
    if events == [] then [[]]
    else
      var groups, e := LineGroups(events[..|events| - 1]), events[|events| - 1];
      if e.Line? then groups + [[]]
      else if IsGlyph(e) || e.Column? then groups[..|groups| - 1] + [groups[|groups| - 1] + [e]]
      else groups
  }

  /** The lines ended since the last page was begun. */
  function LinesOn(events: seq<Event>): nat {
    if events == [] then 0
    else
      var n, e := LinesOn(events[..|events| - 1]), events[|events| - 1];
      if e.Line? then n + 1 else if e.PageBegin? then 0 else n
  }

  function CountLines(events: seq<Event>): nat {
    if events == [] then 0
    else CountLines(events[..|events| - 1]) + (if events[|events| - 1].Line? then 1 else 0)
  }

  /** A line has just ended with which the page is full, or which ends with a form feed. */
  predicate PageOver(o: Options, events: seq<Event>, rows: seq<Row>) {
    && events != [] && events[|events| - 1].Line?
    && (LinesOn(events) == o.linesperpage
        || (0 < CountLines(events) <= |rows| && rows[CountLines(events) - 1].end == Feed))
  }

  /** There and nowhere else pages end. */
  ghost predicate PagesEnd(o: Options, events: seq<Event>, rows: seq<Row>) {
    forall j :: 0 <= j < |events| ==> (events[j] == PageEnd <==> PageOver(o, events[..j], rows))
  }

  /** The last page that was begun has ended. */
  predicate NoPage(events: seq<Event>) {
    events == [] || events[|events| - 1] == PageEnd || events[|events| - 1] == SheetEnd
  }

  // ----- one event more -----

  /** What is known of the events so far. */
  ghost predicate EventsOk(o: Options, events: seq<Event>, rows: seq<Row>) {
    && rows != [] && CountLines(events) == |rows| - 1 && PagesEnd(o, events, rows)
    && LineGroups(events) == Items(rows)
  }

  /** An event that is no end of a line and stands on none: the end of a page comes where it should, and anything else
      where no page ends. */
  lemma AddMark(o: Options, events: seq<Event>, rows: seq<Row>, e: Event)
    requires EventsOk(o, events, rows) && !e.Line? && !IsGlyph(e) && !e.Column?
    requires e == PageEnd <==> PageOver(o, events, rows)
    ensures EventsOk(o, events + [e], rows) && !PageOver(o, events + [e], rows)
    ensures LinesOn(events + [e]) == if e.PageBegin? then 0 else LinesOn(events)
  {
    OneMore(events, e);
    MorePages(o, events, rows, e);
  }

  lemma MorePages(o: Options, events: seq<Event>, rows: seq<Row>, e: Event)
    requires PagesEnd(o, events, rows) && (e == PageEnd <==> PageOver(o, events, rows))
    ensures PagesEnd(o, events + [e], rows)
  {
    hide PageOver;
    var more := events + [e];
    forall j | 0 <= j < |more|
      ensures more[j] == PageEnd <==> PageOver(o, more[..j], rows)
    {
      if j < |events| {
        assert more[..j] == events[..j];
      } else {
        assert more[..j] == events;
      }
    }
  }

  lemma ItemAdds(events: seq<Event>, e: Event)
    requires IsGlyph(e) || e.Column?
    ensures var groups := LineGroups(events);
      LineGroups(events + [e]) == groups[..|groups| - 1] + [groups[|groups| - 1] + [e]]
    ensures CountLines(events + [e]) == CountLines(events) && LinesOn(events + [e]) == LinesOn(events)
  {
    OneMore(events, e);
  }

  /** Something on the line. */
  lemma AddItem(o: Options, events: seq<Event>, rows: seq<Row>, e: Event)
    requires EventsOk(o, events, rows) && (IsGlyph(e) || e.Column?) && !PageOver(o, events, rows)
    ensures EventsOk(o, events + [e], AddTo(rows, [e])) && !PageOver(o, events + [e], AddTo(rows, [e]))
    ensures LinesOn(events + [e]) == LinesOn(events)
  {
    OneMore(events, e);
    ItemAdds(events, e);
    ItemsAdded(rows, [e]);
    hide CountLines, LinesOn, LineGroups, PagesEnd, AddTo, Items;
    MorePages(o, events, rows, e);
    SameEnds(o, events + [e], rows, AddTo(rows, [e]));
  }

  /** Only how rows end matters to pages, and only of those that have ended. */
  lemma SameEnds(o: Options, events: seq<Event>, rows: seq<Row>, rows': seq<Row>)
    requires PagesEnd(o, events, rows) && CountLines(events) <= |rows| && CountLines(events) <= |rows'|
    requires forall k :: 0 <= k < CountLines(events) ==> rows'[k].end == rows[k].end
    ensures PagesEnd(o, events, rows')
    ensures PageOver(o, events, rows') <==> PageOver(o, events, rows)
  {
    forall j | 0 <= j <= |events|
      ensures CountLines(events[..j]) <= CountLines(events)
      ensures PageOver(o, events[..j], rows') <==> PageOver(o, events[..j], rows)
    {
      FewerLines(events, j);
    }
    assert events[..|events|] == events;
  }

  lemma {:induction false} FewerLines(events: seq<Event>, j: nat)
    requires j <= |events|
    ensures CountLines(events[..j]) <= CountLines(events)
    decreases |events|
  {
    if j < |events| {
      FewerLines(events[..|events| - 1], j);
      assert events[..|events| - 1][..j] == events[..j];
    } else {
      assert events[..j] == events;
    }
  }

  lemma LineAdds(events: seq<Event>)
    ensures CountLines(events + [Line]) == CountLines(events) + 1 && LinesOn(events + [Line]) == LinesOn(events) + 1
    ensures LineGroups(events + [Line]) == LineGroups(events) + [[]]
  {
    OneMore(events, Line);
  }

  /** The end of a line. */
  lemma AddLine(o: Options, events: seq<Event>, rows: seq<Row>, end: End)
    requires EventsOk(o, events, rows) && !PageOver(o, events, rows)
    ensures var rows' := EndRow(rows, end);
      && EventsOk(o, events + [Line], rows')
      && (PageOver(o, events + [Line], rows') <==> LinesOn(events) + 1 == o.linesperpage || end == Feed)
    ensures LinesOn(events + [Line]) == LinesOn(events) + 1
  {
    var rows' := EndRow(rows, end);
    LineAdds(events);
    EndedItems(rows, end);
    hide CountLines, LinesOn, LineGroups, PagesEnd, EndRow, Items, PageOver;
    SameEnds(o, events, rows, rows');
    OverNow(o, events, rows, end);
    MorePages(o, events, rows', Line);
  }

  lemma EndedItems(rows: seq<Row>, end: End)
    requires rows != []
    ensures |EndRow(rows, end)| == |rows| + 1 && Items(EndRow(rows, end)) == Items(rows) + [[]]
    ensures forall k :: 0 <= k < |rows| - 1 ==> EndRow(rows, end)[k].end == rows[k].end
  {
  }

  lemma OverNow(o: Options, events: seq<Event>, rows: seq<Row>, end: End)
    requires rows != [] && CountLines(events) == |rows| - 1
    ensures PageOver(o, events + [Line], EndRow(rows, end)) <==> LinesOn(events) + 1 == o.linesperpage || end == Feed
  {
    LineAdds(events);
    hide CountLines, LinesOn, EndRow;
    JustEnded(rows, end);
  }

  lemma JustEnded(rows: seq<Row>, end: End)
    requires rows != []
    ensures |EndRow(rows, end)| == |rows| + 1 && EndRow(rows, end)[|rows| - 1].end == end
  {
  }

  // ----- one character more -----

  /** The events since `base` are those of the rows, and the state knows how full the page is. */
  ghost predicate Grounded(o: Options, s: State, base: seq<Event>, events: seq<Event>, rows: seq<Row>) {
    && s.events == base + events && EventsOk(o, events, rows) && !PageOver(o, events, rows)
    && (s.startPage ==> s.startLine) && (s.startPage <==> NoPage(events))
    && (if s.startPage then s.line == 0 else LinesOn(events) == s.line < o.linesperpage)
  }

  /** The state goes with the row in hand. */
  predicate AtRow(o: Options, s: State, row: Row) {
    && row.end == Last && s.cut == row.cut && (s.cut ==> s.wx > o.wxperline && !o.folding && !s.startLine)
    && (if s.startLine then row == BLANK_ROW && s.wx == 0 && s.column == 0
        else !s.cut ==> s.wx == Position(o.w, row.items) && s.column == ColumnIn(row.items))
  }

  ghost predicate Tracks(o: Options, s: State, base: seq<Event>, events: seq<Event>, rows: seq<Row>) {
    rows != [] && Grounded(o, s, base, events, rows) && AtRow(o, s, rows[|rows| - 1])
  }

  /** Before and after its end, a line is part of a page. */
  ghost predicate OnPage(o: Options, s: State, base: seq<Event>, events: seq<Event>, rows: seq<Row>) {
    s.events == base + events && EventsOk(o, events, rows) && LinesOn(events) == s.line && !NoPage(events)
  }

  lemma BeginRows(o: Options, s: State, base: seq<Event>, events: seq<Event>, rows: seq<Row>)
    returns (events': seq<Event>)
    requires s.events == base + events && EventsOk(o, events, rows) && !PageOver(o, events, rows) && s.line == 0
    ensures OnPage(o, BeginVirtual(s), base, events', rows) && !PageOver(o, events', rows)
  {
    hide EventsOk, PageOver, LinesOn;
    events' := events;
    if s.virtual + 1 == 1 {
      events' := events' + [SheetBegin(s.sheets + 1)];
      AddMark(o, events, rows, SheetBegin(s.sheets + 1));
      assert s.events + [SheetBegin(s.sheets + 1)] == base + events';
    }
    AddMark(o, events', rows, PageBegin(s.virtual));
    assert base + events' + [PageBegin(s.virtual)] == base + (events' + [PageBegin(s.virtual)]);
    events' := events' + [PageBegin(s.virtual)];
  }

  lemma EndRows(o: Options, s: State, base: seq<Event>, events: seq<Event>, rows: seq<Row>)
    returns (events': seq<Event>)
    requires s.events == base + events && EventsOk(o, events, rows) && PageOver(o, events, rows)
    ensures EndVirtual(o, s).events == base + events' && EventsOk(o, events', rows) && !PageOver(o, events', rows)
    ensures NoPage(events')
  {
    hide EventsOk, PageOver, LinesOn;
    AddMark(o, events, rows, PageEnd);
    events' := events + [PageEnd];
    assert s.events + [PageEnd] == base + events';
    if s.virtual == o.PerSheet() {
      AddMark(o, events', rows, SheetEnd);
      assert base + events' + [SheetEnd] == base + (events' + [SheetEnd]);
      events' := events' + [SheetEnd];
    }
  }

  /** A line ends, and its page with it if it is full or if that is asked for. */
  lemma LineRows(o: Options, s: State, base: seq<Event>, events: seq<Event>, rows: seq<Row>, end: End)
    requires OnPage(o, s, base, events, rows) && !PageOver(o, events, rows)
    ensures OnPage(o, EndLine(s), base, events + [Line], EndRow(rows, end))
    ensures PageOver(o, events + [Line], EndRow(rows, end)) <==> s.line + 1 == o.linesperpage || end == Feed
  {
    hide EventsOk, PageOver, LinesOn;
    AddLine(o, events, rows, end);
    assert base + events + [Line] == base + (events + [Line]);
  }

  /** The page on which a character is to be put. */
  lemma StartRows(o: Options, s: State, base: seq<Event>, events: seq<Event>, rows: seq<Row>)
    returns (events': seq<Event>)
    requires Grounded(o, s, base, events, rows) && o.linesperpage > 0
    ensures OnPage(o, StartLine(s), base, events', rows) && !PageOver(o, events', rows)
    ensures var s' := StartLine(s);
      && s'.line < o.linesperpage && !s'.startPage && !s'.startLine && s'.cut == s.cut
      && s'.wx == s.wx && s'.column == s.column
  {
    hide EventsOk, PageOver, LinesOn;
    events' := events;
    if s.startPage {
      events' := BeginRows(o, s, base, events, rows);
    }
  }

  lemma FoldRows(o: Options, s: State, base: seq<Event>, events: seq<Event>, rows: seq<Row>)
    returns (events': seq<Event>)
    requires OnPage(o, s, base, events, rows) && !PageOver(o, events, rows) && s.line < o.linesperpage
    ensures OnPage(o, Fold(o, s), base, events', EndRow(rows, Folded)) && !PageOver(o, events', EndRow(rows, Folded))
    ensures Fold(o, s).line < o.linesperpage
  {
    var s1, rows' := EndLine(s), EndRow(rows, Folded);
    hide EventsOk, PageOver, LinesOn;
    LineRows(o, s, base, events, rows, Folded);
    events' := events + [Line];
    if s1.line >= o.linesperpage {
      events' := EndRows(o, s1, base, events', rows');
      events' := BeginRows(o, EndVirtual(o, s1), base, events', rows');
    }
  }

  lemma AddToMore(rows: seq<Row>, items: seq<Event>, e: Event)
    requires rows != []
    ensures AddTo(rows, []) == rows && AddTo(AddTo(rows, items), [e]) == AddTo(rows, items + [e])
  {
    var row := rows[|rows| - 1];
    assert row.items + [] == row.items && row.items + items + [e] == row.items + (items + [e]);
    assert AddTo(rows, items)[..|rows| - 1] == rows[..|rows| - 1];
  }

  lemma AddToRow(rows: seq<Row>, items: seq<Event>)
    requires rows != []
    ensures |AddTo(rows, items)| == |rows|
    ensures AddTo(rows, items)[|rows| - 1] == rows[|rows| - 1].(items := rows[|rows| - 1].items + items)
  {
  }

  /** Several things on the line. */
  lemma {:induction false} AddItems(o: Options, events: seq<Event>, rows: seq<Row>, items: seq<Event>)
    requires rows != [] && EventsOk(o, events, rows) && !PageOver(o, events, rows)
    requires forall k :: 0 <= k < |items| ==> IsGlyph(items[k]) || items[k].Column?
    ensures EventsOk(o, events + items, AddTo(rows, items)) && !PageOver(o, events + items, AddTo(rows, items))
    ensures LinesOn(events + items) == LinesOn(events)
    decreases |items|
  {
    hide EventsOk, PageOver, LinesOn, AddTo;
    if items == [] {
      AddToMore(rows, [], Line);
      assert events + items == events;
    } else {
      var init, e := items[..|items| - 1], items[|items| - 1];
      AddItems(o, events, rows, init);
      AddItem(o, events + init, AddTo(rows, init), e);
      AddToMore(rows, init, e);
      assert events + init + [e] == events + items && init + [e] == items;
    }
  }

  function Moved(s: State, wx: nat, column: nat, more: seq<Event>): State {
    s.(wx := wx, column := column, events := s.events + more)
  }

  lemma MovedGrounded(o: Options, s: State, base: seq<Event>, events: seq<Event>, rows: seq<Row>, wx: nat, column: nat,
                      items: seq<Event>)
    requires rows != [] && OnPage(o, s, base, events, rows) && !PageOver(o, events, rows)
    requires !s.startLine && !s.startPage && s.line < o.linesperpage
    requires forall k :: 0 <= k < |items| ==> IsGlyph(items[k]) || items[k].Column?
    ensures Grounded(o, Moved(s, wx, column, items), base, events + items, AddTo(rows, items))
  {
    hide EventsOk, PageOver, LinesOn, AddTo;
    AddItems(o, events, rows, items);
    assert base + events + items == base + (events + items);
  }

  lemma MovedAtRow(o: Options, s: State, row: Row, items: seq<Event>)
    requires !s.cut && !row.cut && row.end == Last && !s.startLine
    ensures AtRow(o, Moved(s, Position(o.w, row.items + items), ColumnIn(row.items + items), items),
                  row.(items := row.items + items))
  {
    hide Position, ColumnIn;
  }

  /** What is put goes to the line it should. */
  lemma PutItems(o: Options, s: State, base: seq<Event>, events: seq<Event>, rows: seq<Row>, items: seq<Event>)
    requires rows != [] && OnPage(o, s, base, events, rows) && !PageOver(o, events, rows)
    requires !s.cut && !s.startLine && !s.startPage && s.line < o.linesperpage
    requires rows[|rows| - 1].end == Last && !rows[|rows| - 1].cut
    requires forall k :: 0 <= k < |items| ==> IsGlyph(items[k]) || items[k].Column?
    ensures var all := rows[|rows| - 1].items + items;
      Tracks(o, Moved(s, Position(o.w, all), ColumnIn(all), items), base, events + items, AddTo(rows, items))
  {
    var row := rows[|rows| - 1];
    var all := row.items + items;
    AddToRow(rows, items);
    MovedGrounded(o, s, base, events, rows, Position(o.w, all), ColumnIn(all), items);
    MovedAtRow(o, s, row, items);
    hide Grounded, AtRow, Moved, AddTo, Position, ColumnIn;
  }

  lemma TabIsNext(o: Options, s: State, items: seq<Event>)
    requires o.tabsize > 0 && s.wx == Position(o.w, items) && s.column == ColumnIn(items)
    ensures NextTab(o, s) == TabAfter(o, items)
  {
  }

  /** What a line break does. */
  lemma BreakShape(o: Options, s: State, c: Char)
    requires o.tabsize > 0 && IsBreak(o, c.c)
    ensures var s2 := EndLine(StartLine(s.(cut := false))).(startLine := true);
      Put(o, s, c.c, c.face) ==
        if c.c != NEWLINE || s2.line >= o.linesperpage then EndVirtual(o, s2).(startPage := true) else s2
  {
    hide StartLine, EndLine, EndVirtual;
  }

  lemma EndFacts(o: Options, s: State)
    ensures var s' := EndLine(s);
      && s'.line == s.line + 1 && s'.wx == 0 && s'.column == 0 && s'.cut == s.cut && s'.startPage == s.startPage
    ensures var s' := EndVirtual(o, s);
      && s'.line == 0 && s'.wx == s.wx && s'.column == s.column && s'.cut == s.cut && s'.startLine == s.startLine
  {
  }

  /** A page is ended where it is full, or where a form feed was. */
  lemma PageRows(o: Options, s: State, base: seq<Event>, events: seq<Event>, rows: seq<Row>, end: End)
    returns (events': seq<Event>)
    requires rows != [] && s.events == base + events && EventsOk(o, events, rows)
    requires LinesOn(events) == s.line <= o.linesperpage && rows[|rows| - 1] == BLANK_ROW
    requires PageOver(o, events, rows) <==> s.line == o.linesperpage || end == Feed
    requires s.wx == 0 && s.column == 0 && !s.cut && !s.startPage && s.startLine && o.linesperpage > 0
    requires !NoPage(events)
    ensures var s' := if end == Feed || s.line >= o.linesperpage then EndVirtual(o, s).(startPage := true) else s;
      Tracks(o, s', base, events', rows)
  {
    hide EventsOk, PageOver, LinesOn, EndVirtual;
    EndFacts(o, s);
    events' := events;
    if end == Feed || s.line >= o.linesperpage {
      events' := EndRows(o, s, base, events, rows);
    }
  }

  /** A line break, with its page. */
  lemma BreakRows(o: Options, s: State, base: seq<Event>, events: seq<Event>, rows: seq<Row>, c: Char)
    returns (events': seq<Event>)
    requires Tracks(o, s, base, events, rows) && o.tabsize > 0 && o.linesperpage > 0 && IsBreak(o, c.c)
    ensures Tracks(o, Put(o, s, c.c, c.face), base, events', NextRows(o, rows, c))
  {
    BreakShape(o, s, c);
    var end := if c.c == NEWLINE then Newline else Feed;
    EndedRow(rows, end);
    assert NextRows(o, rows, c) == EndRow(rows, end);
    hide EventsOk, PageOver, LinesOn, EndRow, NextRows, Put, Position, ColumnIn, EndLine, EndVirtual, StartLine;
    events' := StartRows(o, s.(cut := false), base, events, rows);
    var s1 := StartLine(s.(cut := false));
    LineRows(o, s1, base, events', rows, end);
    EndFacts(o, s1);
    hide Tracks;
    events' := PageRows(o, EndLine(s1).(startLine := true), base, events' + [Line], EndRow(rows, end), end);
  }

  lemma EndedRow(rows: seq<Row>, end: End)
    requires rows != []
    ensures |EndRow(rows, end)| == |rows| + 1 && EndRow(rows, end)[|rows|] == BLANK_ROW
  {
  }

  /** What is put on the line, on a new one, or nowhere. */
  ghost predicate PutAs(o: Options, s1: State, s': State, items: seq<Event>, piece: Piece) {
    if piece.reach <= o.wxperline then
      s' == Moved(s1, Position(o.w, items + piece.here), ColumnIn(items + piece.here), piece.here)
    else if o.folding then
      s' == Moved(Fold(o, s1), Position(o.w, piece.there), ColumnIn(piece.there), piece.there)
    else s'.(column := 0) == s1.(cut := true, wx := piece.reach, column := 0)
  }

  lemma PutPiece(o: Options, s: State, c: Char, items: seq<Event>)
    requires o.tabsize > 0 && !IsBreak(o, c.c) && !s.cut
    requires StartLine(s).wx == Position(o.w, items) && StartLine(s).column == ColumnIn(items)
    ensures PutAs(o, StartLine(s), Put(o, s, c.c, c.face), items, PieceOf(o, items, c))
  {
    hide PutAs, Position, ColumnIn, StartLine, PutTab, PutGlyphs, PieceOf;
    assert s.(cut := false) == s;
    if o.interpret && c.c == TAB {
      TabPut(o, StartLine(s), c, items);
    } else {
      GlyphsPut(o, StartLine(s), c, items);
    }
  }

  lemma TabShape(o: Options, s: State)
    requires o.tabsize > 0
    ensures var n := NextTab(o, s);
      PutTab(o, s) ==
        if n * COURIER_WX <= o.wxperline then Moved(s, n * COURIER_WX, n, [Column(n)])
        else if o.folding then Moved(Fold(o, s), 0, 0, [Column(0)])
        else s.(cut := true, wx := n * COURIER_WX, column := n)
  {
    hide NextTab, Fold;
    FoldForgets(o, s, NextTab(o, s), NextTab(o, s) * COURIER_WX);
  }

  lemma TabPut(o: Options, s1: State, c: Char, items: seq<Event>)
    requires o.tabsize > 0 && s1.wx == Position(o.w, items) && s1.column == ColumnIn(items)
    requires o.interpret && c.c == TAB
    ensures PutAs(o, s1, PutTab(o, s1), items, PieceOf(o, items, c))
  {
    TabShape(o, s1);
    TabIsNext(o, s1, items);
    ColumnReach(o.w, items, TabAfter(o, items));
    ColumnReach(o.w, [], 0);
    assert [] + [Column(0)] == [Column(0)];
    hide Position, ColumnIn, Fold, NextTab, TabAfter, PutTab, Moved;
  }

  lemma GlyphsShape(o: Options, s: State, c: byte, f: Face)
    ensures var codes := Expand(o.w, o.format, f, c);
      var width, shown := TotalWidth(o.w, f, codes), Shown(Some(f), codes);
      PutGlyphs(o, s, c, f) ==
        if s.wx + width <= o.wxperline then Moved(s, s.wx + width, s.column + |codes|, shown)
        else if o.folding then Moved(Fold(o, s), width, |codes|, shown)
        else s.(cut := true, wx := s.wx + width, column := s.column + |codes|)
  {
    hide TotalWidth, Expand, Fold, Shown;
    var codes := Expand(o.w, o.format, f, c);
    FoldForgets(o, s, s.column + |codes|, s.wx + TotalWidth(o.w, f, codes));
  }

  lemma AsGlyphs(o: Options, s1: State, s': State, items: seq<Event>, shown: seq<Event>, width: nat, n: nat)
    requires s' ==
      if s1.wx + width <= o.wxperline then Moved(s1, s1.wx + width, s1.column + n, shown)
      else if o.folding then Moved(Fold(o, s1), width, n, shown)
      else s1.(cut := true, wx := s1.wx + width, column := s1.column + n)
    requires Position(o.w, items + shown) == s1.wx + width && ColumnIn(items + shown) == s1.column + n
    requires Position(o.w, shown) == width && ColumnIn(shown) == n
    ensures PutAs(o, s1, s', items, Piece(shown, s1.wx + width, shown))
  {
    hide Position, ColumnIn, Moved, Fold;
  }

  lemma ShownAlone(w: Widths, f: Face, codes: seq<byte>)
    ensures Position(w, Shown(Some(f), codes)) == TotalWidth(w, f, codes)
    ensures ColumnIn(Shown(Some(f), codes)) == |codes|
  {
    ShownReach(w, [], f, codes);
    assert [] + Shown(Some(f), codes) == Shown(Some(f), codes);
  }

  lemma GlyphsPut(o: Options, s1: State, c: Char, items: seq<Event>)
    requires o.tabsize > 0 && s1.wx == Position(o.w, items) && s1.column == ColumnIn(items)
    requires !(o.interpret && c.c == TAB)
    ensures PutAs(o, s1, PutGlyphs(o, s1, c.c, c.face), items, PieceOf(o, items, c))
  {
    hide Position, ColumnIn, TotalWidth, Expand, Fold, Shown, PutGlyphs, Moved, PieceOf, PutAs;
    var codes := Expand(o.w, o.format, c.face, c.c);
    GlyphsShape(o, s1, c.c, c.face);
    ShownReach(o.w, items, c.face, codes);
    ShownAlone(o.w, c.face, codes);
    PieceShape(o, items, c);
    AsGlyphs(o, s1, PutGlyphs(o, s1, c.c, c.face), items, Shown(Some(c.face), codes), TotalWidth(o.w, c.face, codes),
             |codes|);
  }

  lemma FoldForgets(o: Options, s: State, column: nat, wx: nat)
    ensures Fold(o, s.(column := column, wx := wx)) == Fold(o, s)
    ensures Fold(o, s).wx == 0 && Fold(o, s).column == 0 && Fold(o, s).cut == s.cut
    ensures Fold(o, s).startLine == s.startLine && Fold(o, s).startPage == s.startPage
  {
  }

  /** The line just started is the last of the rows. */
  ghost predicate Started(o: Options, s: State, base: seq<Event>, events: seq<Event>, rows: seq<Row>) {
    && rows != [] && OnPage(o, s, base, events, rows) && !PageOver(o, events, rows)
    && !s.cut && !s.startLine && !s.startPage && s.line < o.linesperpage
    && rows[|rows| - 1].end == Last && !rows[|rows| - 1].cut
  }

  lemma FitRows(o: Options, s: State, s': State, base: seq<Event>, events: seq<Event>, rows: seq<Row>, c: Char)
    requires o.tabsize > 0 && Started(o, s, base, events, rows)
    requires var items := rows[|rows| - 1].items;
      PutAs(o, s, s', items, PieceOf(o, items, c)) && PieceOf(o, items, c).reach <= o.wxperline
    ensures var here := PieceOf(o, rows[|rows| - 1].items, c).here;
      Tracks(o, s', base, events + here, AddTo(rows, here))
  {
    PieceStands(o, rows[|rows| - 1].items, c);
    hide EventsOk, PageOver, LinesOn, AddTo, Position, ColumnIn, PieceOf, Tracks, OnPage, NoPage, Moved;
    PutItems(o, s, base, events, rows, PieceOf(o, rows[|rows| - 1].items, c).here);
  }

  lemma FoldedRows(o: Options, s: State, s': State, base: seq<Event>, events: seq<Event>, rows: seq<Row>, c: Char)
    returns (events': seq<Event>)
    requires o.tabsize > 0 && Started(o, s, base, events, rows)
    requires var items := rows[|rows| - 1].items;
      PutAs(o, s, s', items, PieceOf(o, items, c)) && PieceOf(o, items, c).reach > o.wxperline && o.folding
    ensures var there := PieceOf(o, rows[|rows| - 1].items, c).there;
      Tracks(o, s', base, events', AddTo(EndRow(rows, Folded), there))
  {
    var there := PieceOf(o, rows[|rows| - 1].items, c).there;
    PieceStands(o, rows[|rows| - 1].items, c);
    EndedRow(rows, Folded);
    FoldForgets(o, s, 0, 0);
    hide EventsOk, PageOver, LinesOn, AddTo, EndRow, Position, ColumnIn, PieceOf, Tracks, OnPage, NoPage, Moved, Fold;
    events' := FoldRows(o, s, base, events, rows);
    assert [] + there == there;
    PutItems(o, Fold(o, s), base, events', EndRow(rows, Folded), there);
    events' := events' + there;
  }

  lemma CutOffRows(o: Options, s: State, s': State, base: seq<Event>, events: seq<Event>, rows: seq<Row>, c: Char)
    requires o.tabsize > 0 && Started(o, s, base, events, rows)
    requires var items := rows[|rows| - 1].items;
      PutAs(o, s, s', items, PieceOf(o, items, c)) && PieceOf(o, items, c).reach > o.wxperline && !o.folding
    ensures Tracks(o, s', base, events, rows[..|rows| - 1] + [rows[|rows| - 1].(cut := true)])
  {
    CutRow(o, events, rows);
    hide EventsOk, PageOver, LinesOn, Position, ColumnIn, PieceOf, NoPage;
  }

  /** Something to be put on the line, on a new one, or nowhere. */
  lemma PieceRows(o: Options, s: State, base: seq<Event>, events: seq<Event>, rows: seq<Row>, c: Char)
    returns (events': seq<Event>)
    requires Tracks(o, s, base, events, rows) && o.tabsize > 0 && o.linesperpage > 0 && !IsBreak(o, c.c) && !s.cut
    ensures Tracks(o, Put(o, s, c.c, c.face), base, events', NextRows(o, rows, c))
  {
    var row := rows[|rows| - 1];
    var piece := PieceOf(o, row.items, c);
    var s1, s' := StartLine(s), Put(o, s, c.c, c.face);
    events' := StartPiece(o, s, base, events, rows, c);
    hide Put, PieceOf, Started, PutAs, StartLine, AddTo, EndRow;
    assert !row.cut;
    hide Tracks;
    if piece.reach <= o.wxperline {
      FitRows(o, s1, s', base, events', rows, c);
      events' := events' + piece.here;
    } else if o.folding {
      events' := FoldedRows(o, s1, s', base, events', rows, c);
    } else {
      CutOffRows(o, s1, s', base, events', rows, c);
    }
  }

  lemma StartPiece(o: Options, s: State, base: seq<Event>, events: seq<Event>, rows: seq<Row>, c: Char)
    returns (events': seq<Event>)
    requires Tracks(o, s, base, events, rows) && o.tabsize > 0 && o.linesperpage > 0 && !IsBreak(o, c.c) && !s.cut
    ensures Started(o, StartLine(s), base, events', rows)
    ensures var items := rows[|rows| - 1].items;
      PutAs(o, StartLine(s), Put(o, s, c.c, c.face), items, PieceOf(o, items, c))
  {
    assert Position(o.w, []) == 0 && ColumnIn([]) == 0;
    hide EventsOk, PageOver, LinesOn, Position, ColumnIn, Put, PieceOf, PutAs, OnPage, StartLine;
    events' := StartRows(o, s, base, events, rows);
    PutPiece(o, s, c, rows[|rows| - 1].items);
  }

  lemma CutRow(o: Options, events: seq<Event>, rows: seq<Row>)
    requires rows != [] && EventsOk(o, events, rows) && !PageOver(o, events, rows)
    ensures var rows' := rows[..|rows| - 1] + [rows[|rows| - 1].(cut := true)];
      EventsOk(o, events, rows') && !PageOver(o, events, rows')
  {
    var rows' := rows[..|rows| - 1] + [rows[|rows| - 1].(cut := true)];
    SameEnds(o, events, rows, rows');
    assert Items(rows') == Items(rows);
  }

  /** On a line that has been cut off nothing is put, whatever comes before its end. */
  lemma CutRows(o: Options, s: State, base: seq<Event>, events: seq<Event>, rows: seq<Row>, c: Char)
    requires Tracks(o, s, base, events, rows) && o.tabsize > 0 && !IsBreak(o, c.c) && s.cut
    ensures Tracks(o, Put(o, s, c.c, c.face), base, events, NextRows(o, rows, c))
  {
    hide EventsOk, PageOver, LinesOn, Position, ColumnIn, TotalWidth, Expand;
  }

  lemma OneCharacter(o: Options, s: State, base: seq<Event>, events: seq<Event>, rows: seq<Row>, c: Char)
    returns (events': seq<Event>)
    requires Tracks(o, s, base, events, rows) && o.tabsize > 0 && o.linesperpage > 0
    ensures Tracks(o, Put(o, s, c.c, c.face), base, events', NextRows(o, rows, c))
  {
    hide Tracks, Put, NextRows;
    if IsBreak(o, c.c) {
      events' := BreakRows(o, s, base, events, rows, c);
    } else if s.cut {
      CutRows(o, s, base, events, rows, c);
      events' := events;
    } else {
      events' := PieceRows(o, s, base, events, rows, c);
    }
  }

  // ----- a whole text -----

  lemma {:induction false} TextRows(o: Options, s: State, text: seq<Char>) returns (events: seq<Event>)
    requires o.tabsize > 0 && o.linesperpage > 0 && Tracks(o, s, s.events, [], [BLANK_ROW])
    ensures Tracks(o, PutAll(o, s, text), s.events, events, RowsOf(o, text))
    decreases |text|
  {
    hide Tracks, Put, NextRows;
    if text == [] {
      events := [];
    } else {
      events := TextRows(o, s, text[..|text| - 1]);
      var c := text[|text| - 1];
      events := OneCharacter(o, PutAll(o, s, text[..|text| - 1]), s.events, events, RowsOf(o, text[..|text| - 1]), c);
    }
  }

  /** At the beginning of a file. */
  predicate AtTop(s: State) {
    s.startPage && s.startLine && !s.cut && s.column == 0 && s.wx == 0 && s.line == 0
  }

  /** The events show the lines of the text, and pages end just after a line that makes them full or that ends with a
      form feed. */
  ghost predicate SetAs(o: Options, events: seq<Event>, text: seq<Char>)
    requires o.tabsize > 0
  {
    var rows := RowsOf(o, text);
    && LineGroups(events) == Items(rows) && CountLines(events) == |BreaksOf(o, text)| + CountFolded(rows)
    && PagesEnd(o, events, rows) && !PageOver(o, events, rows)
  }

  /** Laid out from the top of a page, a text becomes its lines. */
  lemma TextSet(o: Options, s: State, text: seq<Char>) returns (events: seq<Event>)
    requires o.tabsize > 0 && o.linesperpage > 0 && AtTop(s)
    ensures PutAll(o, s, text).events == s.events + events && SetAs(o, events, text)
    ensures PutAll(o, s, text).startPage <==> NoPage(events)
  {
    assert s.events + [] == s.events;
    assert Items([BLANK_ROW]) == [[]];
    assert Tracks(o, s, s.events, [], [BLANK_ROW]);
    hide LineGroups, PagesEnd, PageOver, Items, CountFolded;
    events := TextRows(o, s, text);
    RowsEnd(o, text);
  }
}
