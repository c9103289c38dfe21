/** The PostScript text generator: it opens and closes strings, and names a face only when the
    printer does not have it set already. */
module PsGen {
  import opened Bytes
  import opened PostScript
  import opened Glyphs
  import opened Layout
  import opened JobPages
  import opened Probing
  import L = Layout

  class Generator {
    const opts: Options
    var out: seq<Item>
    var startPage: bool
    var startLine: bool
    var inCut: bool
    var face: Face
    var declared: bool
    var column: nat
    var wx: nat
    var line: nat
    var pages: nat
    var sheets: nat
    var virtual: nat

    /** What has been laid out so far, glyph by glyph. */
    ghost var layout: State
    /** The face that is set in the printer, and the string it is reading: what was laid out before it, and its
        glyphs. */
    ghost var set': Option<Face>
    ghost var prior: seq<Event>
    ghost var shown: seq<byte>

    /** The printer has shown everything. */
    ghost predicate Quiet()
      reads `out, `set', `layout
    {
      Run(START, out) == Closed(set', layout.events)
    }

    /** The printer is reading a string; what is in it is wanted in the current face. */
    ghost predicate Pending()
      reads `out, `set', `prior, `shown, `layout, `face
    {
      Run(START, out) == Open(set', prior, shown) && layout.events == prior + Shown(Some(face), shown)
    }

    ghost predicate FaceKnown()
      reads `declared, `set', `face
    {
      declared ==> set' == Some(face)
    }

    /** The state of the page is the one of the layout. */
    ghost predicate Agrees()
      reads `layout, `startPage, `startLine, `inCut, `column, `wx, `line, `pages, `sheets, `virtual
    {
      && layout.startPage == startPage && layout.startLine == startLine && layout.cut == inCut
      && layout.column == column && layout.wx == wx && layout.line == line
      && layout.pages == pages && layout.sheets == sheets && layout.virtual == virtual
    }

    /** A string is open just when a line is. */
    ghost predicate Valid()
      reads this
    {
      && opts.Sane() && Agrees() && (startPage ==> startLine) && (if startLine then Quiet() else Pending())
      && (startPage || FaceKnown())
    }

    constructor (opts: Options)
      requires opts.Sane()
      ensures this.opts == opts && Valid() && layout == FIRST && Done([])
    {
      hide Options.Sane;
      this.opts := opts;
      out, startPage, startLine, inCut, face, declared := [], true, true, false, Plain, false;
      column, wx, line, pages, sheets, virtual := 0, 0, 0, 0, 0, 0;
      layout, set', prior, shown := FIRST, None, [], [];
      new;
      FirstDone(opts);
    }

    // ----- output -----

    method Emit(bytes: seq<byte>)
      modifies `out
      ensures Run(START, out) == Run(Run(START, old(out)), Raw(bytes))
    {
      RunConcat(START, out, Raw(bytes));
      out := out + Raw(bytes);
    }

    method EmitMark(e: Event)
      requires Quiet()
      modifies `out, `layout, `set'
      ensures layout == old(layout).(events := old(layout).events + [e]) && Quiet() && set' == None
      ensures old(Agrees()) ==> Agrees()
    {
      RunConcat(START, out, [Mark(e)]);
      RunOne(Run(START, out), Mark(e));
      out := out + [Mark(e)];
      layout := layout.(events := layout.events + [e]);
      set' := None;
    }

    /** "(" */
    method OpenString()
      requires Quiet()
      modifies `out, `prior, `shown
      ensures Pending() && shown == []
    {
      hide Run;
      RunOpen(set', layout.events);
      Emit([OPEN]);
      prior, shown := layout.events, [];
      assert layout.events == prior + Shown(Some(face), shown);
    }

    /** ") S" or, when the printer does not have the face, ") face". */
    method ShowString(blank: byte)
      requires Pending() && FaceKnown() && (blank == SPACE || blank == NEWLINE)
      modifies `out, `set'
      ensures Quiet() && set' == Some(face)
    {
      hide Run;
      if !declared {
        RunShowFace(set', prior, shown, face, blank);
        Emit([CLOSE, SPACE] + (FaceName(face) + [blank]));
      } else {
        RunShowSet(face, prior, shown, blank);
        Emit([CLOSE, SPACE] + ([UPPER_S] + [blank]));
      }
      set' := Some(face);
    }

    // ----- lines -----

    /** ") N" or ") face n": what is in the string is shown, and the line ends. */
    method EndString()
      requires Pending() && FaceKnown()
      modifies `out, `set', `declared
      ensures Run(START, out) == Closed(Some(face), layout.events + [Line]) && set' == Some(face) && declared
    {
      hide Run;
      if !declared {
        RunLineFace(set', prior, shown, face);
        Emit(([CLOSE, SPACE] + (FaceName(face) + [SPACE])) + [LOWER_N, NEWLINE]);
        declared := true;
      } else {
        RunLineSet(face, prior, shown);
        Emit([CLOSE, SPACE] + ([UPPER_N] + [NEWLINE]));
      }
      set' := Some(face);
    }

    method EndOfLine()
      requires Pending() && FaceKnown() && layout.line == line
      modifies `out, `set', `declared, `line, `column, `wx, `layout
      ensures Quiet() && FaceKnown() && declared && layout == EndLine(old(layout))
      ensures line == old(line) + 1 && column == 0 && wx == 0
      ensures old(Agrees()) ==> Agrees()
    {
      hide Run, Pending;
      EndString();
      layout := EndLine(layout);
      line := line + 1;
      column := 0;
      wx := 0;
    }

    // ----- pages -----

    method BeginPhysical()
      requires Quiet() && layout.virtual == virtual == 1 && layout.sheets == sheets
      modifies `out, `set', `layout, `virtual, `sheets
      ensures Quiet() && set' == None && virtual == 1 && sheets == old(sheets) + 1
      ensures layout == old(layout).(sheets := sheets, events := old(layout).events + [SheetBegin(sheets)])
      ensures old(Agrees()) ==> Agrees()
    {
      hide Run;
      virtual := 1;
      sheets := sheets + 1;
      EmitMark(SheetBegin(sheets));
      layout := layout.(sheets := sheets);
    }

    method EndPhysical()
      requires Quiet()
      modifies `out, `set', `layout, `virtual
      ensures Quiet() && set' == None && virtual == 0 && layout == EndSheet(old(layout))
    {
      EmitMark(SheetEnd);
      virtual := 0;
      layout := layout.(virtual := 0);
    }

    method VirtualBegin()
      requires Quiet() && Agrees()
      modifies `out, `set', `layout, `pages, `virtual, `sheets
      ensures Quiet() && Agrees() && set' == None && layout == BeginVirtual(old(layout))
    {
      hide Quiet, Pending, Agrees;
      StateAgrees();
      CountPage();
      StateAgrees();
      if virtual == 1 {
        BeginPhysical();
      }
      EmitMark(PageBegin(virtual - 1));
    }

    method VirtualEnd()
      requires Quiet() && Agrees()
      modifies `out, `set', `layout, `virtual, `line
      ensures Quiet() && Agrees() && set' == None && layout == EndVirtual(opts, old(layout))
    {
      hide Run, Step;
      EmitMark(PageEnd);
      if virtual == opts.columns * opts.rows {
        EndPhysical();
      }
      line := 0;
      layout := layout.(line := 0);
    }

    /** The next character is to go there. What the printer has read does not change. */
    method MoveTo(column': nat, wx': nat)
      requires Agrees()
      modifies `column, `wx, `layout
      ensures Agrees() && column == column' && wx == wx' && layout == old(layout).(column := column', wx := wx')
      ensures (old(Quiet()) ==> Quiet()) && (old(Pending()) ==> Pending())
    {
      hide Run, Shown;
      column, wx := column', wx';
      layout := layout.(column := column, wx := wx);
    }

    /** What is left of the line is dropped. */
    method CutOff()
      requires Agrees()
      modifies `inCut, `layout
      ensures Agrees() && layout == old(layout).(cut := true)
      ensures (old(Quiet()) ==> Quiet()) && (old(Pending()) ==> Pending())
    {
      hide Run, Shown;
      inCut := true;
      layout := layout.(cut := true);
    }

    /** Whether a page or a line has yet to be started. */
    method Starting(page: bool, line': bool)
      requires Agrees()
      modifies `startPage, `startLine, `layout
      ensures Agrees() && startPage == page && startLine == line'
      ensures layout == old(layout).(startPage := page, startLine := line')
      ensures (old(Quiet()) ==> Quiet()) && (old(Pending()) ==> Pending())
    {
      hide Run, Shown;
      startPage, startLine := page, line';
      layout := layout.(startPage := page, startLine := line');
    }

    /** One page more, on the sheet as well. */
    method CountPage()
      requires Agrees()
      modifies `pages, `virtual, `layout
      ensures Agrees() && pages == old(pages) + 1 && virtual == old(virtual) + 1
      ensures layout == old(layout).(pages := pages, virtual := virtual)
      ensures (old(Quiet()) ==> Quiet()) && (old(Pending()) ==> Pending())
    {
      hide Run, Shown;
      pages := pages + 1;
      virtual := virtual + 1;
      layout := layout.(pages := pages, virtual := virtual);
    }

    lemma StateAgrees()
      requires Agrees()
      ensures column == layout.column && wx == layout.wx && startPage == layout.startPage
      ensures startLine == layout.startLine
      ensures pages == layout.pages && sheets == layout.sheets && virtual == layout.virtual
    {
    }

    lemma LineAgrees()
      requires Agrees()
      ensures line == layout.line
    {
    }

    method FoldLine(newFace: Face)
      requires Pending() && FaceKnown() && Agrees() && face == newFace
      modifies `out, `set', `declared, `line, `column, `wx, `layout, `pages, `virtual, `sheets, `face, `prior, `shown
      ensures Pending() && FaceKnown() && Agrees() && face == newFace && shown == []
      ensures layout == Fold(opts, old(layout))
    {
      hide Run, EndVirtual, BeginVirtual, EndLine, Quiet, Pending, Agrees;
      LineAgrees();
      EndOfLine();
      LineAgrees();
      if line >= opts.linesperpage {
        VirtualEnd();
        VirtualBegin();
        declared := false;
      }
      declared := declared && face == newFace;
      face := newFace;
      OpenString();
    }

    // ----- characters -----

    /** When a line has yet to be started, it and perhaps its page are. */
    method BeginLine(newFace: Face)
      requires Valid()
      modifies `out, `set', `declared, `layout, `pages, `virtual, `sheets, `face, `prior, `shown, `startPage, `startLine
      ensures Valid() && !startLine && layout == StartLine(old(layout))
    {
      hide BeginVirtual, Options.Sane, Pending, Quiet, Agrees;
      StateAgrees();
      if startLine {
        if startPage {
          VirtualBegin();
          face := newFace;
          declared := false;
          OpenString();
        } else {
          declared := declared && face == newFace;
          face := newFace;
          OpenString();
        }
        Starting(false, false);
      }
    }

    /** What is in the string so far is shown before the face changes. */
    method ChangeFace(newFace: Face)
      requires Valid() && !startLine
      modifies `out, `set', `declared, `face, `prior, `shown
      ensures Valid() && face == newFace
    {
      hide Quiet, Pending, Agrees, Options.Sane;
      if face != newFace {
        ShowString(NEWLINE);
        OpenString();
        TakeFace(newFace);
      }
    }

    /** With nothing in the string yet. */
    method TakeFace(newFace: Face)
      requires Pending() && shown == []
      modifies `face, `declared
      ensures Pending() && face == newFace && !declared
    {
      hide Run;
      face := newFace;
      declared := false;
      assert Shown(Some(face), shown) == [];
    }

    method PrintFormFeed()
      requires Valid() && !startLine && opts.interpret
      modifies this
      ensures Valid()
      ensures layout == EndVirtual(opts, EndLine(old(layout)).(startLine := true)).(startPage := true)
    {
      hide Run, BeginVirtual, Options.Sane;
      if !startLine {
        EndOfLine();
        startLine := true;
        layout := layout.(startLine := true);
      }
      // The line has begun its page: there is none to begin.
      if startPage {
        assert false;
      }
      VirtualEnd();
      startPage := true;
      layout := layout.(startPage := true);
    }

    method PrintNewline()
      requires Valid() && !startLine
      modifies this
      ensures Valid()
      ensures var s := EndLine(old(layout)).(startLine := true);
        layout == if s.line >= opts.linesperpage then EndVirtual(opts, s).(startPage := true) else s
    {
      hide Quiet, Pending, Agrees, EndVirtual, Options.Sane;
      StateAgrees();
      Starting(startPage, true);
      LineAgrees();
      EndOfLine();
      LineAgrees();
      if line >= opts.linesperpage {
        VirtualEnd();
        StateAgrees();
        Starting(true, true);
      }
    }

    /** The column the next tab goes to. */
    method AfterTab() returns (next: nat)
      requires Agrees() && opts.tabsize > 0
      ensures next == NextTab(opts, layout)
    {
      next := (Max(wx / COURIER_WX, column) / opts.tabsize + 1) * opts.tabsize;
    }

    method PrintTab(newFace: Face)
      requires Valid() && !startLine && opts.tabsize > 0
      modifies this
      ensures Valid() && layout == PutTab(opts, old(layout))
    {
      hide Quiet, Pending, Agrees, Fold, Options.Sane, NextTab;
      StateAgrees();
      ChangeFace(newFace);
      StateAgrees();
      var next := AfterTab();
      MoveTo(next, next * COURIER_WX);
      if wx > opts.wxperline {
        if opts.folding {
          FoldLine(newFace);
          FoldColumn(opts,
            old(layout).(column := NextTab(opts, old(layout)), wx := NextTab(opts, old(layout)) * COURIER_WX));
        } else {
          CutOff();
          return;
        }
      }
      StateAgrees();
      ToColumn();
    }

    /** ") face n T (": what is in the string is shown, then the printer moves to the column. */
    method ToColumn()
      requires Pending() && FaceKnown()
      modifies `out, `set', `declared, `prior, `shown, `layout
      ensures Pending() && FaceKnown() && layout == old(layout).(events := old(layout).events + [Column(column)])
      ensures old(Agrees()) ==> Agrees()
    {
      hide Run;
      ShowString(SPACE);
      declared := true;
      RunColumn(set', layout.events, column);
      Emit((Decimal(column) + [SPACE]) + ([UPPER_T] + [SPACE]) + [OPEN]);
      prior, shown := layout.events + [Column(column)], [];
      layout := layout.(events := layout.events + [Column(column)]);
      assert layout.events == prior + Shown(Some(face), shown);
    }

    /** Adds to the open string. */
    method Append(buf: seq<byte>, ghost codes: seq<byte>)
      requires Pending() && Reads(buf, codes)
      modifies `out, `shown, `layout
      ensures Pending() && layout == old(layout).(events := old(layout).events + Shown(Some(face), codes))
    {
      hide Run, Reads;
      ReadsWhere(buf, codes, set', prior, shown);
      Emit(buf);
      ShownConcat(Some(face), shown, codes);
      shown := shown + codes;
      layout := layout.(events := layout.events + Shown(Some(face), codes));
      assert layout.events == prior + Shown(Some(face), shown);
    }

    /** Makes room for a character: on this line, on the next, or not at all. */
    method Advance(nchars: nat, width: nat) returns (fits: bool)
      requires Valid() && !startLine
      modifies this
      ensures Valid() && !startLine && !startPage && face == old(face)
      ensures var s := old(layout).(column := old(layout).column + nchars, wx := old(layout).wx + width);
        if s.wx <= opts.wxperline then fits && layout == s
        else if opts.folding then fits && layout == Fold(opts, s).(column := nchars, wx := width)
        else !fits && layout == s.(cut := true)
    {
      hide Quiet, Pending, Agrees, Fold, Options.Sane;
      StateAgrees();
      MoveTo(column + nchars, wx + width);
      if wx > opts.wxperline {
        if opts.folding {
          FoldLine(face);
          MoveTo(nchars, width);
        } else {
          CutOff();
          return false;
        }
      }
      fits := true;
    }

    method PrintGlyphs(c: byte, newFace: Face)
      requires Valid() && !startLine
      modifies this
      ensures Valid() && layout == PutGlyphs(opts, old(layout), c, newFace)
    {
      hide Run, Fold, Options.Sane, Usual, Reads, Expand, TotalWidth, Shown;
      SaneUsual(opts);
      ChangeFace(newFace);
      var buf, nchars, nonprinting := EscapeChar(opts.w, opts.format, face, c);
      ghost var codes := Expand(opts.w, opts.format, newFace, c);
      var width := CharWidth(opts.w, opts.format, face, c);
      var fits := Advance(nchars, width);
      if !fits {
        return;
      }
      Append(buf, codes);
    }

    /** Prints a character: what the printer will show is the layout with that character put. */
    method PrintChar(c: byte, newFace: Face)
      requires Valid()
      modifies this
      ensures Valid() && opts.tabsize > 0 && layout == Put(opts, old(layout), c, newFace)
    {
      hide StartLine, EndVirtual, EndLine, PutTab, PutGlyphs, Options.Sane, Quiet, Pending, FaceKnown;
      SaneUsual(opts);
      if inCut && c != FORM_FEED && c != NEWLINE {
        return;
      }
      Uncut();
      BeginLine(newFace);
      if c == FORM_FEED && opts.interpret {
        PrintFormFeed();
      } else if c == NEWLINE {
        PrintNewline();
      } else if c == TAB && opts.interpret {
        PrintTab(newFace);
      } else {
        PrintGlyphs(c, newFace);
      }
    }

    method Uncut()
      requires Valid()
      modifies `inCut, `layout
      ensures Valid() && layout == old(layout).(cut := false)
    {
      inCut := false;
      layout := layout.(cut := false);
    }

    method PrintText(text: seq<Char>)
      requires Valid()
      modifies this
      ensures Valid() && opts.tabsize > 0 && layout == PutAll(opts, old(layout), text)
    {
      hide Valid, Put;
      SaneTab();
      for k := 0 to |text|
        invariant Valid() && layout == PutAll(opts, old(layout), text[..k])
      {
        assert text[..k + 1][..k] == text[..k];
        PrintChar(text[k].c, text[k].face);
      }
      assert text[..|text|] == text;
    }

    lemma SaneTab()
      requires Valid()
      ensures opts.tabsize > 0
    {
    }

    // ----- files -----

    /** Nothing is open: between two files. */
    ghost predicate Done(wanted: seq<Event>)
      reads this
    {
      opts.Sane() && Paged() && Quiet() && JobDone(opts, layout, wanted)
    }

    /** Of the layout, only what goes on from one file to the next. */
    ghost predicate Paged()
      reads this
    {
      layout.pages == pages && layout.sheets == sheets && layout.virtual == virtual
    }

    ghost predicate Going(wanted: seq<Event>)
      reads this
    {
      Valid() && JobGoing(opts, layout, wanted)
    }

    /** A virtual page left empty, to align the next file. */
    method VirtualEmptyOutput(force: bool, ghost wanted: seq<Event>)
      requires Done(wanted) && Agrees() && line == 0 && virtual > 0
      modifies `out, `set', `layout, `pages, `virtual, `sheets, `line
      ensures Done(wanted) && Agrees() && line == 0 && pages == old(pages) + 1
      ensures layout == SkipVirtual(opts, old(layout), force)
    {
      hide Run, EndVirtual, BeginVirtual, Options.Sane, JobDone, PagesDone;
      SkipKept(opts, layout, wanted, force);
      Skipped(opts, layout, wanted, force);
      if force {
        VirtualBegin();
        VirtualEnd();
      } else {
        pages := pages + 1;
        virtual := virtual + 1;
        layout := layout.(pages := pages, virtual := virtual);
        if virtual == opts.columns * opts.rows {
          EndPhysical();
        }
      }
    }

    /** A new file. Unless it is the first, it may have to start a new rank of virtual pages. */
    method BeginFile(first: bool, align: Align, force: bool, ghost wanted: seq<Event>)
      requires Done(wanted)
      modifies this
      ensures Going(wanted) && startPage
      ensures pages == old(pages) + if first || align.Virtual? then 0 else ToNextRank(old(pages), RankSize(align, opts))
      ensures opts.columns > 0 && opts.rows > 0
      ensures !first && align.Rank? ==> pages % (if align.byRows then opts.columns else opts.rows) == 0
      ensures layout == FileStart(opts, old(layout), first, align, force)
    {
      hide Options.Sane, Nested, PagesDone, JobDone, JobGoing, Quiet, Agrees, Pending;
      BeginFileKept(opts, layout, wanted);
      StillDone(opts, layout, wanted);
      Anew();
      SanePages(opts);
      if !first && align.Rank? {
        FillRank(if align.byRows then opts.columns else opts.rows, force, wanted);
        BeginFileKept(opts, layout, wanted);
        Anew();
      }
    }

    /** At the top of a page, in the plain face. */
    method Anew()
      requires Paged() && Quiet()
      modifies `startPage, `startLine, `inCut, `face, `declared, `line, `column, `wx, `layout
      ensures Agrees() && Paged() && Quiet() && layout == L.BeginFile(old(layout))
      ensures startPage && startLine && line == 0 && !declared
    {
      hide Run;
      startPage, startLine, inCut, face, declared := true, true, false, Plain, false;
      line, column, wx := 0, 0, 0;
      layout := L.BeginFile(layout);
    }

    /** Leaves virtual pages empty up to the end of the rank. */
    method FillRank(alignment: nat, force: bool, ghost wanted: seq<Event>)
      requires Done(wanted) && Agrees() && line == 0 && (alignment == opts.columns || alignment == opts.rows)
      modifies `out, `set', `layout, `pages, `virtual, `sheets, `line
      ensures Done(wanted) && Agrees() && line == 0
      ensures pages == old(pages) + ToNextRank(old(pages), alignment) && ToNextRank(pages, alignment) == 0
      ensures layout == SkipVirtuals(opts, old(layout), force, ToNextRank(old(pages), alignment))
    {
      hide Run, Options.Sane, Nested, PagesDone, JobDone, JobGoing, Quiet;
      SanePages(opts);
      while pages % alignment != 0
        invariant Done(wanted) && Agrees() && line == 0
        invariant pages + ToNextRank(pages, alignment) == old(pages) + ToNextRank(old(pages), alignment)
        invariant SkipVirtuals(opts, layout, force, ToNextRank(pages, alignment)) ==
          SkipVirtuals(opts, old(layout), force, ToNextRank(old(pages), alignment))
        decreases ToNextRank(pages, alignment)
      {
        RankOpen(opts, layout, wanted, alignment);
        RankNearer(pages, alignment);
        VirtualEmptyOutput(force, wanted);
      }
    }

    method EndFile(ghost wanted: seq<Event>)
      requires Going(wanted)
      modifies this
      ensures Done(wanted) && layout == L.EndFile(opts, old(layout))
    {
      hide Run, EndVirtual, Options.Sane, JobDone, JobGoing;
      EndFileKept(opts, layout, wanted);
      if !startLine {
        ShowString(NEWLINE);
      }
      if !startPage {
        VirtualEnd();
      }
    }

    method EndDocument(ghost wanted: seq<Event>)
      requires Done(wanted)
      modifies `out, `set', `layout, `virtual
      ensures Quiet() && Nest(opts, layout.events) == Between(sheets) && layout == L.Flush(old(layout))
      ensures opts.folding ==> Printed(layout.events) == wanted
      ensures opts.folding && NoneTooWide(opts) ==> Fits(opts.w, layout.events, opts.wxperline)
    {
      hide Run, Options.Sane, Nest, JobDone;
      FlushKept(opts, layout, wanted);
      if virtual != 0 {
        EndPhysical();
      }
    }
  }

  lemma RankNearer(pages: nat, alignment: nat)
    requires alignment > 0 && pages % alignment != 0
    ensures ToNextRank(pages + 1, alignment) == ToNextRank(pages, alignment) - 1
  {
    var q, r := pages / alignment, pages % alignment;
    assert pages == q * alignment + r;
    if r + 1 == alignment {
      assert pages + 1 == (q + 1) * alignment;
      RemainderOf(pages + 1, 0, q + 1, alignment);
    } else {
      RemainderOf(pages + 1, r + 1, q, alignment);
    }
  }

  /** The whole of a job: what the printer shows is every character of every file, in its face; pages
      nest, hold no more lines than fit, and with lines folded nothing sticks out of a line. */
  method PrintJob(opts: Options, files: seq<seq<Char>>, align: Align, force: bool) returns (out: seq<Item>)
    requires opts.Sane()
    ensures Run(START, out) == Closed(Run(START, out).face, EventsOf(out))
    ensures EventsOf(out) == L.Flush(JobState(opts, files, align, force)).events
    ensures exists parts :: JobSet(opts, files, parts, EventsOf(out))
    ensures Nest(opts, EventsOf(out)).Between?
    ensures opts.folding ==> Printed(EventsOf(out)) == AllWanted(opts, files)
    ensures opts.folding && NoneTooWide(opts) ==> Fits(opts.w, EventsOf(out), opts.wxperline)
  {
    hide Run, Options.Sane, Nest, JobDone, JobGoing, Printed, Fits, Wanted, PutAll, Generator.Valid, NoneTooWide;
    var job := new Generator(opts);
    TabSane(opts);
    assert files[..0] == [];
    for k := 0 to |files|
      invariant fresh(job) && job.opts == opts && job.Done(AllWanted(opts, files[..k]))
      invariant job.layout == JobState(opts, files[..k], align, force)
    {
      ghost var wanted := AllWanted(opts, files[..k]);
      job.BeginFile(k == 0, align, force, wanted);
      TextKept(opts, job.layout, wanted, files[k]);
      job.PrintText(files[k]);
      assert files[..k + 1][..k] == files[..k];
      job.EndFile(AllWanted(opts, files[..k + 1]));
    }
    assert files[..|files|] == files;
    job.EndDocument(AllWanted(opts, files));
    JobInParts(opts, files, align, force);
    out := job.out;
  }

  /** What the printer does when it reads the output. */
  function EventsOf(out: seq<Item>): seq<Event> {
    Run(START, out).events
  }

  ghost function AllWanted(o: Options, files: seq<seq<Char>>): seq<Event> {
    if files == [] then [] else AllWanted(o, files[..|files| - 1]) + Wanted(o, files[|files| - 1])
  }

  lemma FirstDone(o: Options)
    requires o.Sane()
    ensures JobDone(o, FIRST, [])
  {
  }

  lemma SanePages(o: Options)
    requires o.Sane()
    ensures o.columns > 0 && o.rows > 0
  {
  }

  lemma StillDone(o: Options, s: State, wanted: seq<Event>)
    requires JobDone(o, s, wanted)
    ensures JobDone(o, L.BeginFile(s), wanted)
  {
    hide Nest, Fits, Printed;
  }

  lemma RankOpen(o: Options, s: State, wanted: seq<Event>, alignment: nat)
    requires JobDone(o, s, wanted) && alignment > 0 && (alignment == o.columns || alignment == o.rows)
    requires s.pages % alignment != 0
    ensures s.virtual > 0
  {
    hide Nest, Fits, Printed;
    RankStarts(o, s, alignment);
  }

  lemma Skipped(o: Options, s: State, wanted: seq<Event>, force: bool)
    requires JobDone(o, s, wanted) && s.line == 0 && s.virtual > 0
    ensures SkipVirtual(o, s, force).pages == s.pages + 1 && SkipVirtual(o, s, force).line == 0
  {
    hide Nest, Fits, Printed;
    SkipNested(o, s, force);
  }

  lemma SaneUsual(o: Options)
    requires o.Sane()
    ensures Usual(o.w) && o.tabsize > 0
  {
  }

  lemma FoldColumn(o: Options, s: State)
    ensures Fold(o, s).column == 0 && Fold(o, s).wx == 0
  {
  }

  lemma ReadsWhere(bytes: seq<byte>, codes: seq<byte>, face: Option<Face>, events: seq<Event>, before: seq<byte>)
    requires Reads(bytes, codes)
    ensures Run(Open(face, events, before), Raw(bytes)) == Open(face, events, before + codes)
  {
  }
}
