/** Where characters go on the pages, character by character: every glyph is shown in its own face,
    with no care taken to open strings or to set faces only when they change. */
module Layout {
  import opened Bytes
  import opened PostScript
  import opened Glyphs
  import opened Probing

  const COURIER_WX := 600
  const FORM_FEED: byte := 12
  const TAB: byte := 9

  datatype Options = Options(w: Widths, format: Format, interpret: bool, folding: bool, tabsize: nat,
                             wxperline: nat, linesperpage: nat, columns: nat, rows: nat)
  {
    function PerSheet(): nat {
      columns * rows
    }

    ghost predicate Sane() {
      Usual(w) && tabsize > 0 && linesperpage > 0 && PerSheet() > 0
    }

    /** Tabs and form feeds are interpreted on demand, ends of lines always. */
    predicate IsPrinted(c: byte) {
      c != NEWLINE && !(interpret && (c == FORM_FEED || c == TAB))
    }
  }

  datatype State = State(startPage: bool, startLine: bool, cut: bool, column: nat, wx: nat, line: nat,
                         pages: nat, sheets: nat, virtual: nat, events: seq<Event>)

  const FIRST := State(true, true, false, 0, 0, 0, 0, 0, 0, [])

  // ----- pages -----

  function BeginVirtual(s: State): State {
    var s1 := s.(pages := s.pages + 1, virtual := s.virtual + 1);
    var begun := s1.events + [SheetBegin(s1.sheets + 1)];
    var s2 := if s1.virtual == 1 then s1.(sheets := s1.sheets + 1, events := begun) else s1;
    s2.(events := s2.events + [PageBegin(s2.virtual - 1)])
  }

  function EndSheet(s: State): State {
    s.(virtual := 0, events := s.events + [SheetEnd])
  }

  function EndVirtual(o: Options, s: State): State {
    var s1 := s.(events := s.events + [PageEnd]);
    (if s1.virtual == o.PerSheet() then EndSheet(s1) else s1).(line := 0)
  }

  function EndLine(s: State): State {
    s.(events := s.events + [Line], line := s.line + 1, column := 0, wx := 0)
  }

  function Fold(o: Options, s: State): State {
    var s1 := EndLine(s);
    if s1.line >= o.linesperpage then BeginVirtual(EndVirtual(o, s1)) else s1
  }

  // ----- characters -----

  function StartLine(s: State): State {
    if !s.startLine then s
    else (if s.startPage then BeginVirtual(s).(startPage := false) else s).(startLine := false)
  }

  function Max(a: nat, b: nat): nat {
    if a > b then a else b
  }

  /** The next tabulation past where a Courier line of this width would be. */
  function NextTab(o: Options, s: State): nat
    requires o.tabsize > 0
  {
    (Max(s.wx / COURIER_WX, s.column) / o.tabsize + 1) * o.tabsize
  }

  function PutTab(o: Options, s: State): State
    requires o.tabsize > 0
  {
    var column := NextTab(o, s);
    var s1 := s.(column := column, wx := column * COURIER_WX);
    if s1.wx <= o.wxperline then s1.(events := s1.events + [Column(column)])
    else if o.folding then
      var s2 := Fold(o, s1);
      s2.(events := s2.events + [Column(0)])
    else s1.(cut := true)
  }

  function PutGlyphs(o: Options, s: State, c: byte, f: Face): State {
    var codes := Expand(o.w, o.format, f, c);
    var width := TotalWidth(o.w, f, codes);
    var s1 := s.(column := s.column + |codes|, wx := s.wx + width);
    if s1.wx <= o.wxperline then s1.(events := s1.events + Shown(Some(f), codes))
    else if o.folding then
      var s2 := Fold(o, s1).(column := |codes|, wx := width);
      s2.(events := s2.events + Shown(Some(f), codes))
    else s1.(cut := true)
  }

  function Put(o: Options, s: State, c: byte, f: Face): State
    requires o.tabsize > 0
  {
    if s.cut && c != FORM_FEED && c != NEWLINE then s
    else
      var s1 := StartLine(s.(cut := false));
      if c == NEWLINE then
        var s2 := EndLine(s1).(startLine := true);
        if s2.line >= o.linesperpage then EndVirtual(o, s2).(startPage := true) else s2
      else if o.interpret && c == FORM_FEED then EndVirtual(o, EndLine(s1).(startLine := true)).(startPage := true)
      else if o.interpret && c == TAB then PutTab(o, s1)
      else PutGlyphs(o, s1, c, f)
  }

  datatype Char = Char(c: byte, face: Face)

  function PutAll(o: Options, s: State, text: seq<Char>): State
    requires o.tabsize > 0
  {
    if text == [] then s else Put(o, PutAll(o, s, text[..|text| - 1]), text[|text| - 1].c, text[|text| - 1].face)
  }

  // ----- files -----

  function BeginFile(s: State): State {
    s.(startPage := true, startLine := true, cut := false, column := 0, wx := 0, line := 0)
  }

  function EndFile(o: Options, s: State): State {
    if s.startPage then s else EndVirtual(o, s)
  }

  /** A virtual page left empty: it is counted, or also begun and ended. */
  function SkipVirtual(o: Options, s: State, force: bool): State {
    if force then EndVirtual(o, BeginVirtual(s))
    else
      var s1 := s.(pages := s.pages + 1, virtual := s.virtual + 1);
      if s1.virtual == o.PerSheet() then EndSheet(s1) else s1
  }

  function Flush(s: State): State {
    if s.virtual != 0 then EndSheet(s) else s
  }

  // ----- every character is shown once, in its face -----

  predicate IsGlyph(e: Event) {
    e.Glyph? || e.Stray?
  }

  function Printed(events: seq<Event>): seq<Event> {
    if events == [] then []
    else Printed(events[..|events| - 1]) + (if IsGlyph(events[|events| - 1]) then [events[|events| - 1]] else [])
  }

  /** The glyphs of a text. */
  function Wanted(o: Options, text: seq<Char>): seq<Event> {
    if text == [] then []
    else
      var Char(c, f) := text[|text| - 1];
      Wanted(o, text[..|text| - 1]) + (if o.IsPrinted(c) then Shown(Some(f), Expand(o.w, o.format, f, c)) else [])
  }

  lemma {:induction false} GlyphsConcat(a: seq<Event>, b: seq<Event>)
    ensures Printed(a + b) == Printed(a) + Printed(b)
  {
    if b == [] {
      assert a + b == a;
    } else {
      GlyphsConcat(a, b[..|b| - 1]);
      assert (a + b)[..|a + b| - 1] == a + b[..|b| - 1];
    }
  }

  lemma {:induction false} GlyphsShown(face: Option<Face>, codes: seq<byte>)
    ensures Printed(Shown(face, codes)) == Shown(face, codes)
  {
    hide Printed;
    if codes == [] {
      NothingPrinted(Shown(face, codes));
    } else {
      var init := codes[..|codes| - 1];
      GlyphsShown(face, init);
      var e := ShownLast(face, codes);
      GlyphsOne(Shown(face, init), e);
    }
  }

  lemma NothingPrinted(events: seq<Event>)
    requires events == []
    ensures Printed(events) == events
  {
  }

  lemma ShownLast(face: Option<Face>, codes: seq<byte>) returns (e: Event)
    requires codes != []
    ensures Shown(face, codes) == Shown(face, codes[..|codes| - 1]) + [e] && IsGlyph(e)
  {
    e := Shown(face, codes)[|codes| - 1];
  }

  lemma GlyphsOne(events: seq<Event>, e: Event)
    requires IsGlyph(e)
    ensures Printed(events + [e]) == Printed(events) + [e]
  {
    assert (events + [e])[..|events|] == events;
  }

  /** An event that is no glyph. */
  lemma GlyphsMark(events: seq<Event>, e: Event)
    requires !IsGlyph(e)
    ensures Printed(events + [e]) == Printed(events)
  {
    assert (events + [e])[..|events|] == events;
  }

  lemma BeginGlyphs(s: State)
    ensures Printed(BeginVirtual(s).events) == Printed(s.events)
  {
    hide Printed;
    GlyphsMark(s.events, SheetBegin(s.sheets + 1));
    GlyphsMark(s.events, PageBegin(s.virtual));
    GlyphsMark(s.events + [SheetBegin(s.sheets + 1)], PageBegin(s.virtual));
  }

  lemma EndGlyphs(o: Options, s: State)
    ensures Printed(EndVirtual(o, s).events) == Printed(s.events)
    ensures Printed(EndLine(s).events) == Printed(s.events)
  {
    hide Printed;
    GlyphsMark(s.events, PageEnd);
    GlyphsMark(s.events + [PageEnd], SheetEnd);
    GlyphsMark(s.events, Line);
  }

  lemma FoldGlyphs(o: Options, s: State)
    ensures Printed(Fold(o, s).events) == Printed(s.events)
  {
    hide Printed, BeginVirtual, EndVirtual;
    EndGlyphs(o, s);
    EndGlyphs(o, EndLine(s));
    BeginGlyphs(EndVirtual(o, EndLine(s)));
  }

  /** With lines folded, a character adds its glyphs and nothing is cut. */
  lemma PutConserves(o: Options, s: State, c: byte, f: Face)
    requires o.tabsize > 0 && o.folding && !s.cut
    ensures var s' := Put(o, s, c, f);
      && !s'.cut
      && Printed(s'.events) ==
          Printed(s.events) + (if o.IsPrinted(c) then Shown(Some(f), Expand(o.w, o.format, f, c)) else [])
  {
    hide Printed, BeginVirtual, EndVirtual, EndLine, Fold, Expand, TotalWidth, NextTab;
    KeepsCut(o, s);
    BeginGlyphs(s);
    var s1 := StartLine(s);
    assert s.(cut := false) == s;
    assert Printed(s1.events) == Printed(s.events);
    KeepsCut(o, s1);
    EndGlyphs(o, s1);
    var codes := Expand(o.w, o.format, f, c);
    GlyphsShown(Some(f), codes);
    if c == NEWLINE || (o.interpret && c == FORM_FEED) {
      var s2 := EndLine(s1).(startLine := true);
      KeepsCut(o, s2);
      EndGlyphs(o, s2);
    } else if o.interpret && c == TAB {
      var s2 := s1.(column := NextTab(o, s1), wx := NextTab(o, s1) * COURIER_WX);
      KeepsCut(o, s2);
      FoldGlyphs(o, s2);
      GlyphsMark(s2.events, Column(NextTab(o, s1)));
      GlyphsMark(Fold(o, s2).events, Column(0));
    } else {
      var s2 := s1.(column := s1.column + |codes|, wx := s1.wx + TotalWidth(o.w, f, codes));
      KeepsCut(o, s2);
      FoldGlyphs(o, s2);
      GlyphsConcat(s2.events, Shown(Some(f), codes));
      GlyphsConcat(Fold(o, s2).events, Shown(Some(f), codes));
    }
  }

  lemma KeepsCut(o: Options, s: State)
    ensures BeginVirtual(s).cut == EndVirtual(o, s).cut == EndLine(s).cut == Fold(o, s).cut == s.cut
  {
  }

  /** What is shown is the text. */
  lemma {:induction false} TextConserved(o: Options, s: State, text: seq<Char>)
    requires o.tabsize > 0 && o.folding && !s.cut
    ensures !PutAll(o, s, text).cut && Printed(PutAll(o, s, text).events) == Printed(s.events) + Wanted(o, text)
  {
    hide Put, Expand;
    if text != [] {
      var init, last := text[..|text| - 1], text[|text| - 1];
      TextConserved(o, s, init);
      PutConserves(o, PutAll(o, s, init), last.c, last.face);
    }
  }

  // ----- fitting -----

  /** Every interpreted tab moves on to a multiple of the tab size, past where the line is. */
  lemma TabMovesOn(o: Options, s: State)
    requires o.tabsize > 0
    ensures NextTab(o, s) % o.tabsize == 0
    ensures NextTab(o, s) > s.column && NextTab(o, s) * COURIER_WX > s.wx
    ensures NextTab(o, s) <= Max(s.wx / COURIER_WX, s.column) + o.tabsize
  {
    var m := Max(s.wx / COURIER_WX, s.column);
    var q := m / o.tabsize;
    assert m == q * o.tabsize + m % o.tabsize;
    assert (q + 1) * o.tabsize == q * o.tabsize + o.tabsize;
    RemainderOf((q + 1) * o.tabsize, 0, q + 1, o.tabsize);
  }

  /** How far along its line the last event ends, in thousandths of the font size. */
  function Position(w: Widths, events: seq<Event>): nat {
    if events == [] then 0
    else
      match events[|events| - 1]
      case Glyph(f, c) => Position(w, events[..|events| - 1]) + w(f, c)
      case Column(n) => n * COURIER_WX
      case PageBegin(_) => 0
      case Line => 0
      case _ => Position(w, events[..|events| - 1])
  }

  ghost predicate Fits(w: Widths, events: seq<Event>, limit: nat) {
    forall k :: 0 <= k <= |events| ==> Position(w, events[..k]) <= limit
  }

  lemma FitsMore(w: Widths, events: seq<Event>, e: Event, limit: nat)
    requires Fits(w, events, limit) && Position(w, events + [e]) <= limit
    ensures Fits(w, events + [e], limit)
  {
    hide Position;
    var more := events + [e];
    forall k | 0 <= k <= |more|
      ensures Position(w, more[..k]) <= limit
    {
      if k <= |events| {
        assert more[..k] == events[..k];
      } else {
        assert more[..k] == more;
      }
    }
  }

  lemma {:induction false} FitsShown(w: Widths, events: seq<Event>, f: Face, codes: seq<byte>, limit: nat)
    requires Fits(w, events, limit) && Position(w, events) + TotalWidth(w, f, codes) <= limit
    ensures Fits(w, events + Shown(Some(f), codes), limit)
    ensures Position(w, events + Shown(Some(f), codes)) == Position(w, events) + TotalWidth(w, f, codes)
  {
    if codes == [] {
      assert events + Shown(Some(f), codes) == events;
    } else {
      var init, last := codes[..|codes| - 1], codes[|codes| - 1];
      FitsShown(w, events, f, init, limit);
      var before := events + Shown(Some(f), init);
      assert events + Shown(Some(f), codes) == before + [Glyph(f, last)];
      assert (before + [Glyph(f, last)])[..|before|] == before;
      FitsMore(w, before, Glyph(f, last), limit);
    }
  }

  lemma FitsMark(w: Widths, events: seq<Event>, e: Event, limit: nat)
    requires Fits(w, events, limit) && !e.Glyph? && (e.Column? ==> e.n * COURIER_WX <= limit)
    ensures Fits(w, events + [e], limit)
    ensures Position(w, events + [e]) ==
      (if e == Line || e.PageBegin? then 0 else if e.Column? then e.n * COURIER_WX else Position(w, events))
  {
    var more := events + [e];
    assert more[..|events|] == events;
    assert Position(w, events) <= limit by { assert events[..|events|] == events; }
    FitsMore(w, events, e, limit);
  }

  /** Between two characters: a page yet to be begun has nothing on it. */
  ghost predicate Margins(o: Options, s: State) {
    if s.startPage then s.startLine && Fits(o.w, s.events, o.wxperline) && s.wx == 0 else InMargins(o, s)
  }

  /** `wx` is where the line is, and nothing so far is beyond the width of a line. */
  ghost predicate InMargins(o: Options, s: State) {
    Fits(o.w, s.events, o.wxperline) && Position(o.w, s.events) == s.wx <= o.wxperline
  }

  /** No single character is wider than a line. */
  ghost predicate NoneTooWide(o: Options) {
    forall f: Face, c: byte :: TotalWidth(o.w, f, Expand(o.w, o.format, f, c)) <= o.wxperline
  }

  lemma BeginInMargins(o: Options, s: State)
    requires Fits(o.w, s.events, o.wxperline) && s.wx == 0
    ensures InMargins(o, BeginVirtual(s)) && BeginVirtual(s).wx == 0
  {
    hide Position, Fits;
    FitsMark(o.w, s.events, SheetBegin(s.sheets + 1), o.wxperline);
    FitsMark(o.w, s.events, PageBegin(s.virtual), o.wxperline);
    FitsMark(o.w, s.events + [SheetBegin(s.sheets + 1)], PageBegin(s.virtual), o.wxperline);
  }

  lemma EndInMargins(o: Options, s: State)
    requires Fits(o.w, s.events, o.wxperline)
    ensures Fits(o.w, EndVirtual(o, s).events, o.wxperline) && EndVirtual(o, s).wx == s.wx
    ensures Fits(o.w, EndSheet(s).events, o.wxperline) && EndSheet(s).wx == s.wx
    ensures InMargins(o, EndLine(s)) && EndLine(s).wx == 0
  {
    hide Position, Fits;
    FitsMark(o.w, s.events, PageEnd, o.wxperline);
    FitsMark(o.w, s.events + [PageEnd], SheetEnd, o.wxperline);
    FitsMark(o.w, s.events, SheetEnd, o.wxperline);
    FitsMark(o.w, s.events, Line, o.wxperline);
  }

  lemma FoldInMargins(o: Options, s: State, s0: State)
    requires InMargins(o, s0) && s.events == s0.events
    ensures InMargins(o, Fold(o, s)) && Fold(o, s).wx == 0
  {
    hide Position, Fits, BeginVirtual, EndVirtual, EndLine;
    EndInMargins(o, s);
    EndInMargins(o, EndLine(s));
    BeginInMargins(o, EndVirtual(o, EndLine(s)));
  }

  lemma ShownInMargins(o: Options, s: State, f: Face, codes: seq<byte>, column: nat)
    requires InMargins(o, s) && s.wx + TotalWidth(o.w, f, codes) <= o.wxperline
    ensures InMargins(o,
      s.(column := column, wx := s.wx + TotalWidth(o.w, f, codes), events := s.events + Shown(Some(f), codes)))
  {
    hide Fits;
    FitsShown(o.w, s.events, f, codes, o.wxperline);
  }

  /** With lines folded, nothing sticks out of a line, whatever is printed. */
  lemma PutInMargins(o: Options, s: State, c: byte, f: Face)
    requires o.tabsize > 0 && o.folding && NoneTooWide(o) && Margins(o, s) && !s.cut
    ensures Margins(o, Put(o, s, c, f)) && !Put(o, s, c, f).cut
  {
    hide BeginVirtual, EndVirtual, EndLine, Fold, Expand, TotalWidth, NextTab, Fits, Position;
    KeepsCut(o, s);
    EndLineFlags(o, s);
    if s.startPage {
      BeginInMargins(o, s);
    }
    var s1 := StartLine(s);
    assert s.(cut := false) == s;
    assert InMargins(o, s1);
    KeepsCut(o, s1);
    EndInMargins(o, s1);
    EndLineFlags(o, s1);
    var codes := Expand(o.w, o.format, f, c);
    if c == NEWLINE || (o.interpret && c == FORM_FEED) {
      var s2 := EndLine(s1).(startLine := true);
      KeepsCut(o, s2);
      EndInMargins(o, s2);
      EndLineFlags(o, s2);
    } else if o.interpret && c == TAB {
      var n := NextTab(o, s1);
      var s2 := s1.(column := n, wx := n * COURIER_WX);
      KeepsCut(o, s2);
      if s2.wx > o.wxperline {
        FoldInMargins(o, s2, s1);
        EndLineFlags(o, s2);
        FitsMark(o.w, Fold(o, s2).events, Column(0), o.wxperline);
      } else {
        FitsMark(o.w, s1.events, Column(n), o.wxperline);
      }
    } else {
      var width := TotalWidth(o.w, f, codes);
      var s2 := s1.(column := s1.column + |codes|, wx := s1.wx + width);
      KeepsCut(o, s2);
      if s2.wx > o.wxperline {
        FoldInMargins(o, s2, s1);
        EndLineFlags(o, s2);
        ShownInMargins(o, Fold(o, s2), f, codes, |codes|);
      } else {
        ShownInMargins(o, s1, f, codes, s2.column);
      }
    }
  }

  // ----- sheets and pages -----

  /** Where in the nest of sheets, virtual pages and lines a document has got to. */
  datatype Place =
    | Between(sheets: nat)
    | OnSheet(sheets: nat, done: nat)
    | OnPage(sheets: nat, done: nat, lines: nat)
    | Broken

  /** Sheets are numbered; one holds virtual pages in order, some perhaps left out; a page holds so many lines; glyphs
      are on lines of pages. */
  function Enter(o: Options, p: Place, e: Event): Place {
    match e
    case SheetBegin(n) => if p.Between? && n == p.sheets + 1 then OnSheet(n, 0) else Broken
    case SheetEnd => if p.OnSheet? then Between(p.sheets) else Broken
    case PageBegin(n) => if p.OnSheet? && p.done <= n < o.PerSheet() then OnPage(p.sheets, n, 0) else Broken
    case PageEnd => if p.OnPage? then OnSheet(p.sheets, p.done + 1) else Broken
    case Line =>
      if p.OnPage? && p.lines < o.linesperpage then OnPage(p.sheets, p.done, p.lines + 1) else Broken
    case Fault => Broken
    case _ => if p.OnPage? && p.lines < o.linesperpage then p else Broken
  }

  function Nest(o: Options, events: seq<Event>): Place {
    if events == [] then Between(0) else Enter(o, Nest(o, events[..|events| - 1]), events[|events| - 1])
  }

  lemma NestMark(o: Options, events: seq<Event>, e: Event)
    ensures Nest(o, events + [e]) == Enter(o, Nest(o, events), e)
  {
    assert (events + [e])[..|events|] == events;
  }

  lemma {:induction false} NestShown(o: Options, events: seq<Event>, f: Face, codes: seq<byte>)
    requires Nest(o, events).OnPage? && Nest(o, events).lines < o.linesperpage
    ensures Nest(o, events + Shown(Some(f), codes)) == Nest(o, events)
  {
    if codes == [] {
      assert events + Shown(Some(f), codes) == events;
    } else {
      var init, last := codes[..|codes| - 1], codes[|codes| - 1];
      NestShown(o, events, f, init);
      NestMark(o, events + Shown(Some(f), init), Glyph(f, last));
      assert events + Shown(Some(f), codes) == events + Shown(Some(f), init) + [Glyph(f, last)];
    }
  }

  /** Pages are counted by the sheets begun and how far the current one is filled. */
  ghost predicate Counted(o: Options, s: State) {
    && s.virtual <= o.PerSheet()
    && s.pages == (if s.virtual == 0 then s.sheets * o.PerSheet() else (s.sheets - 1) * o.PerSheet() + s.virtual)
    && (s.virtual > 0 ==> s.sheets > 0)
  }

  /** Between virtual pages. */
  ghost predicate PagesDone(o: Options, s: State) {
    && Counted(o, s) && s.virtual < o.PerSheet()
    && (if s.virtual == 0 then Nest(o, s.events) == Between(s.sheets)
        else Nest(o, s.events).OnSheet? && Nest(o, s.events).sheets == s.sheets && Nest(o, s.events).done <= s.virtual)
  }

  /** On a virtual page. */
  ghost predicate PageOpen(o: Options, s: State) {
    Counted(o, s) && s.virtual > 0 && Nest(o, s.events) == OnPage(s.sheets, s.virtual - 1, s.line)
  }

  ghost predicate Nested(o: Options, s: State) {
    if s.startPage then s.startLine && s.line == 0 && PagesDone(o, s) else PageOpen(o, s) && s.line < o.linesperpage
  }

  lemma BeginNested(o: Options, s: State)
    requires PagesDone(o, s) && s.line == 0
    ensures PageOpen(o, BeginVirtual(s)) && BeginVirtual(s).line == 0
  {
    hide Nest;
    NestMark(o, s.events, SheetBegin(s.sheets + 1));
    NestMark(o, s.events, PageBegin(s.virtual));
    NestMark(o, s.events + [SheetBegin(s.sheets + 1)], PageBegin(s.virtual));
    assert s.virtual == 0 ==> (s.sheets + 1 - 1) * o.PerSheet() == s.sheets * o.PerSheet();
  }

  lemma EndNested(o: Options, s: State)
    requires PageOpen(o, s)
    ensures PagesDone(o, EndVirtual(o, s)) && EndVirtual(o, s).line == 0
  {
    hide Nest;
    NestMark(o, s.events, PageEnd);
    NestMark(o, s.events + [PageEnd], SheetEnd);
    assert (s.sheets - 1) * o.PerSheet() + o.PerSheet() == s.sheets * o.PerSheet();
  }

  lemma LineNested(o: Options, s: State)
    requires PageOpen(o, s) && s.line < o.linesperpage
    ensures PageOpen(o, EndLine(s))
  {
    hide Nest;
    NestMark(o, s.events, Line);
  }

  lemma FoldNested(o: Options, s: State)
    requires PageOpen(o, s) && s.line < o.linesperpage && o.linesperpage > 0
    ensures PageOpen(o, Fold(o, s)) && Fold(o, s).line < o.linesperpage
  {
    hide PageOpen, PagesDone, EndVirtual, BeginVirtual;
    LineNested(o, s);
    if EndLine(s).line >= o.linesperpage {
      EndNested(o, EndLine(s));
      BeginNested(o, EndVirtual(o, EndLine(s)));
    }
  }

  /** Only what is counted and where the events lead matters. */
  lemma SameNesting(o: Options, s: State, s': State)
    requires PageOpen(o, s) && s'.virtual == s.virtual && s'.pages == s.pages && s'.sheets == s.sheets
    requires s'.line == s.line
    requires Nest(o, s'.events) == Nest(o, s.events)
    ensures PageOpen(o, s')
  {
  }

  lemma SameDone(o: Options, s: State, s': State)
    requires PagesDone(o, s) && s'.virtual == s.virtual && s'.pages == s.pages && s'.sheets == s.sheets
    requires s'.events == s.events
    ensures PagesDone(o, s')
  {
  }

  /** Whatever is printed: pages stay within sheets, lines within pages, and the counters right. */
  lemma PutNested(o: Options, s: State, c: byte, f: Face)
    requires o.Sane() && Nested(o, s)
    ensures Nested(o, Put(o, s, c, f))
  {
    hide BeginVirtual, EndVirtual, EndLine, Fold, Expand, TotalWidth, NextTab;
    hide Nest, PageOpen, PagesDone, Options.Sane, Enter;
    assert o.tabsize > 0 && o.linesperpage > 0 by { TabSane(o); }
    if !(s.cut && c != FORM_FEED && c != NEWLINE) {
      var s0 := s.(cut := false);
      var s1 := StartLine(s0);
      StartNested(o, s);
      if c == NEWLINE || (o.interpret && c == FORM_FEED) {
        LineNested(o, s1);
        var s2 := EndLine(s1).(startLine := true);
        EndLineFlags(o, s1);
        SameNesting(o, EndLine(s1), s2);
        EndNested(o, s2);
        EndLineFlags(o, s2);
        SameDone(o, EndVirtual(o, s2), EndVirtual(o, s2).(startPage := true));
      } else if o.interpret && c == TAB {
        TabNested(o, s1);
      } else {
        GlyphsNested(o, s1, c, f);
      }
    }
  }

  lemma TabSane(o: Options)
    requires o.Sane()
    ensures o.tabsize > 0 && o.linesperpage > 0
  {
  }

  lemma EndLineFlags(o: Options, s: State)
    ensures EndLine(s).startPage == s.startPage && EndLine(s).line == s.line + 1
    ensures EndVirtual(o, s).startLine == s.startLine && EndVirtual(o, s).line == 0
    ensures BeginVirtual(s).startLine == s.startLine && BeginVirtual(s).line == s.line
    ensures BeginVirtual(s).startPage == EndVirtual(o, s).startPage == s.startPage
    ensures Fold(o, s).startPage == s.startPage && Fold(o, s).startLine == s.startLine
  {
  }

  lemma StartNested(o: Options, s: State)
    requires o.linesperpage > 0 && Nested(o, s)
    ensures var s1 := StartLine(s.(cut := false));
      PageOpen(o, s1) && s1.line < o.linesperpage && !s1.startPage && !s1.startLine
  {
    hide BeginVirtual, Nest, PageOpen, PagesDone;
    var s0 := s.(cut := false);
    EndLineFlags(o, s0);
    if s.startPage {
      SameDone(o, s, s0);
      BeginNested(o, s0);
      SameNesting(o, BeginVirtual(s0), StartLine(s0));
    } else {
      SameNesting(o, s, s0);
      SameNesting(o, s0, StartLine(s0));
    }
  }

  lemma TabNested(o: Options, s: State)
    requires o.tabsize > 0 && o.linesperpage > 0 && PageOpen(o, s) && s.line < o.linesperpage && !s.startPage
    ensures Nested(o, PutTab(o, s))
  {
    hide Fold, NextTab, Nest, Enter;
    var n := NextTab(o, s);
    var s1 := s.(column := n, wx := n * COURIER_WX);
    EndLineFlags(o, s1);
    FoldNested(o, s1);
    NestMark(o, s1.events, Column(n));
    NestMark(o, Fold(o, s1).events, Column(0));
    ColumnKept(o, s1.sheets, s1.virtual - 1, s1.line, n);
    ColumnKept(o, Fold(o, s1).sheets, Fold(o, s1).virtual - 1, Fold(o, s1).line, 0);
  }

  lemma ColumnKept(o: Options, sheets: nat, done: nat, lines: nat, n: nat)
    requires lines < o.linesperpage
    ensures Enter(o, OnPage(sheets, done, lines), Column(n)) == OnPage(sheets, done, lines)
  {
  }

  lemma GlyphsNested(o: Options, s: State, c: byte, f: Face)
    requires o.linesperpage > 0 && PageOpen(o, s) && s.line < o.linesperpage && !s.startPage
    ensures Nested(o, PutGlyphs(o, s, c, f))
  {
    hide Fold, Expand, TotalWidth, Nest, Enter;
    var codes := Expand(o.w, o.format, f, c);
    var s1 := s.(column := s.column + |codes|, wx := s.wx + TotalWidth(o.w, f, codes));
    EndLineFlags(o, s1);
    FoldNested(o, s1);
    NestShown(o, s1.events, f, codes);
    NestShown(o, Fold(o, s1).events, f, codes);
  }

  // ----- from file to file -----

  /** A file leaves no page open. */
  lemma FileNested(o: Options, s: State)
    requires Nested(o, s)
    ensures PagesDone(o, EndFile(o, s))
  {
    hide PageOpen, PagesDone, EndVirtual;
    if !s.startPage {
      EndNested(o, s);
    }
  }

  lemma BeginFileNested(o: Options, s: State)
    requires PagesDone(o, s)
    ensures Nested(o, BeginFile(s)) && BeginFile(s).startPage
  {
    hide PagesDone;
    SameDone(o, s, BeginFile(s));
  }

  /** A page is left empty only on a sheet that has been begun. */
  lemma SkipNested(o: Options, s: State, force: bool)
    requires PagesDone(o, s) && s.line == 0 && s.virtual > 0
    ensures PagesDone(o, SkipVirtual(o, s, force)) && SkipVirtual(o, s, force).pages == s.pages + 1
    ensures SkipVirtual(o, s, force).line == 0
  {
    if force {
      hide Nest, PageOpen, PagesDone;
      BeginNested(o, s);
      EndNested(o, BeginVirtual(s));
      CountsPages(o, s);
    } else {
      hide Nest;
      NestMark(o, s.events, SheetEnd);
      assert (s.sheets - 1) * o.PerSheet() + o.PerSheet() == s.sheets * o.PerSheet();
    }
  }

  lemma CountsPages(o: Options, s: State)
    ensures EndVirtual(o, BeginVirtual(s)).pages == s.pages + 1
  {
  }

  /** At the start of a rank the sheet may be new; elsewhere it has been begun. */
  lemma RankStarts(o: Options, s: State, alignment: nat)
    requires PagesDone(o, s) && alignment > 0 && (alignment == o.columns || alignment == o.rows)
    requires s.pages % alignment != 0
    ensures s.virtual > 0
  {
    if s.virtual == 0 {
      var other := if alignment == o.columns then o.rows else o.columns;
      assert s.pages == (s.sheets * other) * alignment;
      RemainderOf(s.pages, 0, s.sheets * other, alignment);
    }
  }

  lemma FlushNested(o: Options, s: State)
    requires PagesDone(o, s)
    ensures Nest(o, Flush(s).events) == Between(s.sheets) && Flush(s).virtual == 0
  {
    hide Nest;
    NestMark(o, s.events, SheetEnd);
  }

  // ----- whole jobs -----

  /** Between files: pages are as they should be, and so far the glyphs are those wanted and nothing sticks out. */
  ghost predicate JobDone(o: Options, s: State, wanted: seq<Event>) {
    && PagesDone(o, s)
    && (o.folding ==> Printed(s.events) == wanted)
    && (o.folding && NoneTooWide(o) ==> Fits(o.w, s.events, o.wxperline))
  }

  /** While a file is printed. */
  ghost predicate JobGoing(o: Options, s: State, wanted: seq<Event>) {
    && Nested(o, s)
    && (o.folding ==> Printed(s.events) == wanted && !s.cut)
    && (o.folding && NoneTooWide(o) ==> Margins(o, s))
  }

  lemma BeginFileKept(o: Options, s: State, wanted: seq<Event>)
    requires JobDone(o, s, wanted)
    ensures JobGoing(o, BeginFile(s), wanted)
  {
    hide Nest, Fits, Printed, Nested, PagesDone;
    BeginFileNested(o, s);
  }

  lemma {:induction false} TextKept(o: Options, s: State, wanted: seq<Event>, text: seq<Char>)
    requires o.Sane() && JobGoing(o, s, wanted)
    ensures JobGoing(o, PutAll(o, s, text), wanted + Wanted(o, text))
  {
    hide Put, Nested, Margins, NoneTooWide, Printed, Options.Sane;
    TabSane(o);
    if text == [] {
      assert wanted + [] == wanted;
    } else {
      var init, last := text[..|text| - 1], text[|text| - 1];
      TextKept(o, s, wanted, init);
      var s1 := PutAll(o, s, init);
      PutNested(o, s1, last.c, last.face);
      if o.folding {
        PutConserves(o, s1, last.c, last.face);
        if NoneTooWide(o) {
          PutInMargins(o, s1, last.c, last.face);
        }
      }
    }
  }

  lemma EndFileKept(o: Options, s: State, wanted: seq<Event>)
    requires JobGoing(o, s, wanted)
    ensures JobDone(o, EndFile(o, s), wanted)
  {
    hide EndVirtual, Nest, Fits, Printed, Nested, PagesDone, NoneTooWide;
    FileNested(o, s);
    EndGlyphs(o, s);
    if o.folding && NoneTooWide(o) {
      EndInMargins(o, s);
    }
  }

  lemma SkipKept(o: Options, s: State, wanted: seq<Event>, force: bool)
    requires JobDone(o, s, wanted) && s.line == 0 && s.virtual > 0
    ensures JobDone(o, SkipVirtual(o, s, force), wanted)
  {
    hide EndVirtual, BeginVirtual, Nest, Fits, Printed, PagesDone, NoneTooWide;
    SkipNested(o, s, force);
    BeginGlyphs(s);
    EndGlyphs(o, BeginVirtual(s));
    GlyphsMark(s.events, SheetEnd);
    if o.folding && NoneTooWide(o) {
      BeginInMargins(o, s.(wx := 0));
      EndInMargins(o, BeginVirtual(s.(wx := 0)));
      EndInMargins(o, s);
      SameEvents(o, s);
    }
  }

  lemma SameEvents(o: Options, s: State)
    ensures BeginVirtual(s.(wx := 0)).events == BeginVirtual(s).events
    ensures EndVirtual(o, BeginVirtual(s.(wx := 0))).events == EndVirtual(o, BeginVirtual(s)).events
    ensures EndVirtual(o, BeginVirtual(s)).wx == s.wx
  {
  }

  lemma FlushKept(o: Options, s: State, wanted: seq<Event>)
    requires JobDone(o, s, wanted)
    ensures Nest(o, Flush(s).events) == Between(s.sheets)
    ensures o.folding ==> Printed(Flush(s).events) == wanted
    ensures o.folding && NoneTooWide(o) ==> Fits(o.w, Flush(s).events, o.wxperline)
  {
    hide Nest, Fits, Printed, NoneTooWide;
    FlushNested(o, s);
    GlyphsMark(s.events, SheetEnd);
    if o.folding && NoneTooWide(o) {
      EndInMargins(o, s);
    }
  }
}
