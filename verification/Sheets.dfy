/** Virtual pages on sheets when only some pages are to be printed, and the labels of the sheets, which are put off
    until the sheet ends. */
module Sheets {
  import opened Bytes
  import opened Diversion
  import opened Probing
  import PostScript

  datatype Options = Options(perSheet: nat, chosen: nat -> bool)

  datatype Maybe<T> = Nothing | Just(value: T)

  /** What is seen in the output: a sheet with its number and the place of its label, a virtual page with its
      place on the sheet and its number. */
  datatype Mark = SheetBegin(number: nat, cell: nat) | SheetEnd | PageBegin(place: nat, page: nat) | PageEnd

  /** The counters of the job, whether output is forgotten, the label to fill, and the labels so far. */
  datatype State = State(pages: nat, sheets: nat, virtual: nat, void: bool, cell: Maybe<nat>,
                         labels: seq<Maybe<Text>>, marks: seq<Mark>)

  const FIRST := State(0, 0, 0, false, Nothing, [], [])

  function Emit(s: State, m: Mark): State {
    if s.void then s else s.(marks := s.marks + [m])
  }

  function BeginSheet(o: Options, s: State): State {
    var s1 := s.(virtual := 1, sheets := if o.chosen(s.pages) then s.sheets + 1 else s.sheets);
    if s1.void then s1
    else s1.(cell := Just(|s1.labels|), labels := s1.labels + [Nothing],
             marks := s1.marks + [SheetBegin(s1.sheets, |s1.labels|)])
  }

  function EndSheet(s: State, text: Text): State {
    var labels := if s.cell.Just? && s.cell.value < |s.labels| then s.labels[s.cell.value := Just(text)] else s.labels;
    Emit(s.(labels := labels), SheetEnd).(virtual := 0)
  }

  /** A page that is not chosen sends everything into the void, up to the next that is. */
  function BeginVirtual(o: Options, s: State): State {
    var page := s.pages + 1;
    var s1 := if o.chosen(page) then s.(pages := page, void := false, virtual := s.virtual + 1)
              else s.(pages := page, void := true);
    var s2 := if s1.virtual == 1 then BeginSheet(o, s1) else s1;
    if s2.void then s2 else Emit(s2, PageBegin(if s2.virtual > 0 then s2.virtual - 1 else 0, page))
  }

  function EndVirtual(o: Options, s: State, text: Text): State {
    var s1 := Emit(s, PageEnd);
    if s1.virtual == o.perSheet then EndSheet(s1, text) else s1
  }

  /** A place left empty, to align files. */
  function Skip(o: Options, s: State, text: Text): State {
    var s1 := s.(pages := s.pages + 1, virtual := s.virtual + 1);
    if s1.virtual == o.perSheet then EndSheet(s1, text) else s1
  }

  function Flush(s: State, text: Text): State {
    var s1 := s.(void := false);
    if s1.virtual != 0 then EndSheet(s1, text) else s1
  }

  // ----- what a document should look like -----

  datatype Place = Between(sheets: nat) | OnSheet(sheets: nat, done: nat) | OnPage(sheets: nat, place: nat) | Broken

  /** Sheets are numbered from one and have a label each; pages are on sheets, each in a place further on. */
  function Enter(o: Options, p: Place, m: Mark): Place {
    match m
    case SheetBegin(n, c) => if p.Between? && n == p.sheets + 1 && c == p.sheets then OnSheet(n, 0) else Broken
    case SheetEnd => if p.OnSheet? then Between(p.sheets) else Broken
    case PageBegin(v, _) => if p.OnSheet? && p.done <= v < o.perSheet then OnPage(p.sheets, v) else Broken
    case PageEnd => if p.OnPage? then OnSheet(p.sheets, p.place + 1) else Broken
  }

  function Nest(o: Options, marks: seq<Mark>): Place {
    if marks == [] then Between(0) else Enter(o, Nest(o, marks[..|marks| - 1]), marks[|marks| - 1])
  }

  lemma NestMore(o: Options, marks: seq<Mark>, m: Mark)
    ensures Nest(o, marks + [m]) == Enter(o, Nest(o, marks), m)
  {
    assert (marks + [m])[..|marks|] == marks;
  }

  /** The numbers of the pages shown. */
  function PagesShown(marks: seq<Mark>): seq<nat> {
    if marks == [] then []
    else
      var m := marks[|marks| - 1];
      PagesShown(marks[..|marks| - 1]) + (if m.PageBegin? then [m.page] else [])
  }

  lemma ShownMore(marks: seq<Mark>, m: Mark)
    ensures PagesShown(marks + [m]) == PagesShown(marks) + (if m.PageBegin? then [m.page] else [])
  {
    assert (marks + [m])[..|marks|] == marks;
  }

  /** All labels up to the sheet in hand are filled. */
  ghost predicate FilledBut(s: State, open: bool) {
    && |s.labels| == s.sheets && (open ==> s.sheets > 0)
    && (forall k :: 0 <= k < |s.labels| - (if open then 1 else 0) ==> s.labels[k].Just?)
    && (open ==> s.cell == Just(s.sheets - 1) && s.labels[s.sheets - 1] == Nothing)
  }

  /** Between virtual pages, the counters say how the output stands. */
  ghost predicate Orderly(o: Options, s: State) {
    && s.virtual < o.perSheet && FilledBut(s, s.virtual > 0)
    && (if s.virtual == 0 then Nest(o, s.marks) == Between(s.sheets)
        else Nest(o, s.marks).OnSheet? && Nest(o, s.marks).sheets == s.sheets && Nest(o, s.marks).done <= s.virtual)
  }

  /** A page is in hand, and seen unless it is not chosen. */
  ghost predicate OnIt(o: Options, s: State) {
    if s.void then Orderly(o, s)
    else 0 < s.virtual <= o.perSheet && FilledBut(s, true) && Nest(o, s.marks) == OnPage(s.sheets, s.virtual - 1)
  }

  lemma BeginOrderly(o: Options, s: State)
    requires Orderly(o, s)
    ensures OnIt(o, BeginVirtual(o, s)) && BeginVirtual(o, s).void == !o.chosen(s.pages + 1)
    ensures PagesShown(BeginVirtual(o, s).marks) ==
      PagesShown(s.marks) + (if o.chosen(s.pages + 1) then [s.pages + 1] else [])
  {
    hide Nest, PagesShown;
    var page := s.pages + 1;
    if o.chosen(page) {
      var begun := SheetBegin(s.sheets + 1, |s.labels|);
      var marks := if s.virtual == 0 then s.marks + [begun] else s.marks;
      NestMore(o, s.marks, begun);
      ShownMore(s.marks, begun);
      NestMore(o, marks, PageBegin(s.virtual, page));
      ShownMore(marks, PageBegin(s.virtual, page));
    }
  }

  lemma EndOrderly(o: Options, s: State, text: Text)
    requires OnIt(o, s)
    ensures Orderly(o, EndVirtual(o, s, text)) && PagesShown(EndVirtual(o, s, text).marks) == PagesShown(s.marks)
  {
    hide Nest, PagesShown;
    NestMore(o, s.marks, PageEnd);
    ShownMore(s.marks, PageEnd);
    NestMore(o, s.marks + [PageEnd], SheetEnd);
    ShownMore(s.marks + [PageEnd], SheetEnd);
  }

  /** A place can be left empty on a sheet already begun, and if it is the last one only while output is seen. */
  predicate CanSkip(o: Options, s: State) {
    s.virtual > 0 && (s.virtual + 1 == o.perSheet ==> !s.void)
  }

  /** There is a label to be filled. */
  predicate LabelReady(s: State) {
    s.cell.Just? && s.cell.value < |s.labels| && s.labels[s.cell.value] == Nothing
  }

  /** Otherwise the sheet has no beginning, or its end is lost. */
  lemma SkipExactly(o: Options, s: State, text: Text)
    requires Orderly(o, s)
    ensures Orderly(o, Skip(o, s, text)) && (s.virtual + 1 == o.perSheet ==> LabelReady(s)) <==> CanSkip(o, s)
    ensures PagesShown(Skip(o, s, text).marks) == PagesShown(s.marks)
  {
    hide Nest, PagesShown;
    NestMore(o, s.marks, SheetEnd);
    ShownMore(s.marks, SheetEnd);
  }

  /** At the end of a job, or where a new sheet is wanted, the sheet in hand is ended. */
  lemma FlushOrderly(o: Options, s: State, text: Text)
    requires Orderly(o, s)
    ensures var s' := Flush(s, text);
      && Orderly(o, s') && Nest(o, s'.marks) == Between(s'.sheets) && s'.virtual == 0 && !s'.void
      && PagesShown(s'.marks) == PagesShown(s.marks)
      && |s'.labels| == s'.sheets && (forall k :: 0 <= k < |s'.labels| ==> s'.labels[k].Just?)
  {
    hide Nest, PagesShown;
    NestMore(o, s.marks, SheetEnd);
    ShownMore(s.marks, SheetEnd);
  }

  // ----- runs -----

  /** A page begun and ended, a place left empty, or a new sheet asked for, with the label as it would be then. */
  datatype Action = Page(text: Text) | Blank(text: Text) | Fresh(text: Text)

  function Do(o: Options, s: State, a: Action): State {
    match a
    case Page(text) => EndVirtual(o, BeginVirtual(o, s), text)
    case Blank(text) => Skip(o, s, text)
    case Fresh(text) => Flush(s, text)
  }

  function DoAll(o: Options, actions: seq<Action>): State {
    if actions == [] then FIRST else Do(o, DoAll(o, actions[..|actions| - 1]), actions[|actions| - 1])
  }

  /** No empty place is asked for where there can be none. */
  predicate BlanksFit(o: Options, actions: seq<Action>) {
    actions == [] ||
    var init := actions[..|actions| - 1];
    BlanksFit(o, init) && (actions[|actions| - 1].Blank? ==> CanSkip(o, DoAll(o, init)))
  }

  /** The pages that should be shown: those chosen, without the places left empty. */
  function Wanted(o: Options, actions: seq<Action>): seq<nat> {
    if actions == [] then []
    else
      var init := actions[..|actions| - 1];
      var page := DoAll(o, init).pages + 1;
      Wanted(o, init) + (if actions[|actions| - 1].Page? && o.chosen(page) then [page] else [])
  }

  lemma {:induction false} RunOrderly(o: Options, actions: seq<Action>)
    requires o.perSheet > 0 && BlanksFit(o, actions)
    ensures var s := DoAll(o, actions); Orderly(o, s) && PagesShown(s.marks) == Wanted(o, actions)
  {
    hide Nest, PagesShown, BeginVirtual, EndVirtual, Skip, Flush, Orderly, OnIt, CanSkip;
    if actions == [] {
      NothingYet(o);
    } else {
      var init, last := actions[..|actions| - 1], actions[|actions| - 1];
      RunOrderly(o, init);
      var s := DoAll(o, init);
      match last {
        case Page(text) =>
          BeginOrderly(o, s);
          EndOrderly(o, BeginVirtual(o, s), text);
        case Blank(text) => SkipExactly(o, s, text);
        case Fresh(text) => FlushOrderly(o, s, text);
      }
    }
  }

  lemma NothingYet(o: Options)
    requires o.perSheet > 0
    ensures Orderly(o, FIRST) && PagesShown(FIRST.marks) == []
  {
  }

  /** A label once filled stays as it is, so that each is the one made when its own sheet ended. */
  lemma LabelsStay(o: Options, s: State, a: Action, k: nat)
    requires Orderly(o, s) && (a.Blank? ==> CanSkip(o, s))
    requires k < |s.labels| && s.labels[k].Just?
    ensures k < |Do(o, s, a).labels| && Do(o, s, a).labels[k] == s.labels[k]
  {
    hide Nest;
  }

  /** Sheets and pages nest, the pages shown are those wanted, and every sheet has its label. */
  ghost predicate InOrder(o: Options, actions: seq<Action>, s: State) {
    && Nest(o, s.marks) == Between(s.sheets) && PagesShown(s.marks) == Wanted(o, actions)
    && |s.labels| == s.sheets && (forall k :: 0 <= k < |s.labels| ==> s.labels[k].Just?)
  }

  /** Whatever pages are chosen and wherever new sheets are asked for, it all ends in order. */
  lemma JobOrderly(o: Options, actions: seq<Action>, text: Text)
    requires o.perSheet > 0 && BlanksFit(o, actions)
    ensures InOrder(o, actions, Flush(DoAll(o, actions), text))
  {
    RunOrderly(o, actions);
    hide Nest, PagesShown, Flush;
    FlushOrderly(o, DoAll(o, actions), text);
  }

  /** Without alignment there is nothing to fear. */
  lemma {:induction false} NoBlanks(o: Options, actions: seq<Action>)
    requires forall k :: 0 <= k < |actions| ==> !actions[k].Blank?
    ensures BlanksFit(o, actions)
  {
    if actions != [] {
      NoBlanks(o, actions[..|actions| - 1]);
    }
  }

  /** Each empty place completes a rank. */
  predicate Completing(o: Options, alignment: nat, actions: seq<Action>) {
    actions == [] ||
    var init, last := actions[..|actions| - 1], actions[|actions| - 1];
    && Completing(o, alignment, init) && !last.Fresh?
    && (last.Blank? ==> alignment > 0 && DoAll(o, init).pages % alignment != 0)
  }

  /** Pages are counted by the full sheets and how far the one in hand is filled. */
  ghost predicate InStep(o: Options, s: State) {
    !s.void && s.virtual < o.perSheet && exists k: nat :: s.pages == Times(k, o.perSheet) + s.virtual
  }

  /** Nor is there when every page is chosen and no new sheet is asked for in between. */
  lemma {:induction false} AllChosen(o: Options, alignment: nat, ranks: nat, actions: seq<Action>)
    requires alignment > 0 && ranks > 0 && o.perSheet == Times(ranks, alignment) > 0
    requires (forall n :: o.chosen(n)) && Completing(o, alignment, actions)
    ensures BlanksFit(o, actions) && InStep(o, DoAll(o, actions))
  {
    hide Do, InStep, CanSkip, Times;
    if actions == [] {
      InStepAtFirst(o);
    } else {
      var init, last := actions[..|actions| - 1], actions[|actions| - 1];
      AllChosen(o, alignment, ranks, init);
      var s := DoAll(o, init);
      StaysInStep(o, s, last);
      if last.Blank? {
        RankBegun(o, alignment, ranks, s);
      }
    }
  }

  lemma InStepAtFirst(o: Options)
    requires o.perSheet > 0
    ensures InStep(o, FIRST)
  {
    assert 0 == Times(0, o.perSheet) + FIRST.virtual;
  }

  lemma StaysInStep(o: Options, s: State, a: Action)
    requires InStep(o, s) && o.chosen(s.pages + 1) && !a.Fresh?
    ensures InStep(o, Do(o, s, a))
  {
    var k: nat :| s.pages == Times(k, o.perSheet) + s.virtual;
    assert Times(k + 1, o.perSheet) == Times(k, o.perSheet) + o.perSheet;
    hide Times;
    var s' := Do(o, s, a);
    assert s'.pages == s.pages + 1 && !s'.void;
    assert s'.virtual == if s.virtual + 1 == o.perSheet then 0 else s.virtual + 1;
    assert s'.pages == Times(if s'.virtual == 0 then k + 1 else k, o.perSheet) + s'.virtual;
  }

  lemma RankBegun(o: Options, alignment: nat, ranks: nat, s: State)
    requires alignment > 0 && o.perSheet == Times(ranks, alignment) && InStep(o, s) && s.pages % alignment != 0
    ensures CanSkip(o, s)
  {
    if s.virtual == 0 {
      var k: nat :| s.pages == Times(k, o.perSheet) + s.virtual;
      assert k * (ranks * alignment) == (k * ranks) * alignment;
      RemainderOf(s.pages, 0, k * ranks, alignment);
    }
  }

  /** So a job without empty pages is in order, and one with every page chosen and no new sheet asked for. */
  lemma OrderlyJobs(o: Options, alignment: nat, ranks: nat, actions: seq<Action>, text: Text)
    requires o.perSheet > 0
    requires (forall k :: 0 <= k < |actions| ==> !actions[k].Blank?)
          || (alignment > 0 && ranks > 0 && o.perSheet == Times(ranks, alignment) && (forall n :: o.chosen(n))
              && Completing(o, alignment, actions))
    ensures InOrder(o, actions, Flush(DoAll(o, actions), text))
  {
    hide DoAll, Flush, InOrder, Completing, BlanksFit, InStep;
    if forall k :: 0 <= k < |actions| ==> !actions[k].Blank? {
      NoBlanks(o, actions);
    } else {
      AllChosen(o, alignment, ranks, actions);
    }
    JobOrderly(o, actions, text);
  }

  function Times(k: nat, n: nat): nat {
    k * n
  }

  lemma {:induction false} Steps(o: Options, init: seq<Action>, a: Action)
    ensures DoAll(o, init + [a]) == Do(o, DoAll(o, init), a)
  {
    assert (init + [a])[..|init|] == init;
  }

  lemma NothingDone(o: Options)
    ensures DoAll(o, []) == FIRST
  {
  }

  lemma ThreeSteps(o: Options, a: Action, b: Action, c: Action)
    ensures DoAll(o, [a, b, c]) == Do(o, Do(o, Do(o, FIRST, a), b), c)
  {
    hide DoAll, Do;
    NothingDone(o);
    Steps(o, [], a);
    Steps(o, [a], b);
    Steps(o, [a, b], c);
    assert [] + [a] == [a] && [a] + [b] == [a, b] && [a, b] + [c] == [a, b, c];
  }

  const SECOND_UNSEEN: Options := Options(2, n => n == 1)
  const THIRD_SEEN: Options := Options(4, n => n == 3)

  /** Two pages to a sheet, the first alone chosen of three: the place that completes the rank ends the sheet
      unseen, and even at the end of the job it is open. */
  lemma EndLost(text: Text)
    ensures var s := DoAll(SECOND_UNSEEN, [Page(text), Page(text), Page(text)]);
      Orderly(SECOND_UNSEEN, s) && s.pages % 2 != 0 &&
      Nest(SECOND_UNSEEN, Flush(Do(SECOND_UNSEEN, s, Blank(text)), text).marks) == OnSheet(1, 1)
  {
    var o, p := SECOND_UNSEEN, Page(text);
    ThreeSteps(o, p, p, p);
    var s1 := Do(o, FIRST, p);
    FirstSeen(o, text);
    UnseenPage(o, s1, text);
    UnseenPage(o, s1.(pages := 2, void := true), text);
  }

  lemma FirstSeen(o: Options, text: Text)
    requires o.chosen(1) && o.perSheet > 1
    ensures var s := Do(o, FIRST, Page(text));
      && s.pages == s.virtual == 1 && !s.void && Orderly(o, s) && Nest(o, s.marks) == OnSheet(1, 1)
      && s.cell == Just(0) && s.labels == [Nothing]
  {
    hide Nest, PagesShown;
    NothingYet(o);
    BeginOrderly(o, FIRST);
    EndOrderly(o, BeginVirtual(o, FIRST), text);
    NestMore(o, BeginVirtual(o, FIRST).marks, Mark.PageEnd);
  }

  /** A page not chosen is counted and leaves nothing else. */
  lemma UnseenPage(o: Options, s: State, text: Text)
    requires !o.chosen(s.pages + 1) && s.virtual < o.perSheet
    ensures Do(o, s, Page(text)) == s.(pages := s.pages + 1, void := true)
  {
  }

  /** Four pages to a sheet, the third alone chosen, after a file of one page: the place that completes the rank
      is taken for a page on a sheet that has not been begun. */
  lemma BeginLost(text: Text)
    ensures var s := DoAll(THIRD_SEEN, [Page(text), Blank(text), Page(text)]);
      s.pages == 3 && Nest(THIRD_SEEN, s.marks) == Broken
  {
    var o := THIRD_SEEN;
    ThreeSteps(o, Page(text), Blank(text), Page(text));
    hide DoAll;
    var s1 := Do(o, FIRST, Page(text));
    var s2 := Do(o, s1, Blank(text));
    assert s2 == State(2, 0, 1, true, Nothing, [], []);
    var s := Do(o, s2, Page(text));
    assert s.marks == [PageBegin(1, 3)] + [PageEnd];
    assert [PageBegin(1, 3)] == [] + [PageBegin(1, 3)];
    NestMore(o, [], PageBegin(1, 3));
    NestMore(o, [PageBegin(1, 3)], PageEnd);
  }

  // ----- the output -----

  const PAGE_LABEL: Text := [0x25, 0x25, 'P' as int, 'a' as int, 'g' as int, 'e' as int, COLON, SPACE, OPEN]
  const COLON: byte := ':' as int
  const SPACE: byte := ' ' as int
  const OPEN: byte := '(' as int
  const CLOSE: byte := ')' as int
  const NEWLINE: byte := 10
  const SET_PLACE: Text := ['/' as int, 'v' as int, SPACE]
  const STORE: Text := [SPACE, 's' as int, 't' as int, 'o' as int, 'r' as int, 'e' as int, NEWLINE]
  const SHOW: Text :=
    ['s' as int, 'h' as int, 'o' as int, 'w' as int, 'p' as int, 'a' as int, 'g' as int, 'e' as int, NEWLINE]

  function AfterLabel(n: nat): Text {
    [CLOSE, SPACE] + PostScript.Decimal(n) + [NEWLINE]
  }

  function PlaceSet(v: nat): Text {
    SET_PLACE + PostScript.Decimal(v) + STORE
  }

  function MarkIssues(m: Mark): seq<Issue> {
    match m
    case SheetBegin(n, c) => [Put(PAGE_LABEL), Later(DelayedString(c)), Put(AfterLabel(n))]
    case SheetEnd => [Put(SHOW)]
    case PageBegin(v, _) => [Put(PlaceSet(v))]
    case PageEnd => []
  }

  /** What the marks put in the output. */
  function Issues(marks: seq<Mark>): seq<Issue> {
    if marks == [] then [] else Issues(marks[..|marks| - 1]) + MarkIssues(marks[|marks| - 1])
  }

  lemma IssuesMore(marks: seq<Mark>, m: Mark)
    ensures Issues(marks + [m]) == Issues(marks) + MarkIssues(m)
  {
    assert (marks + [m])[..|marks|] == marks;
  }

  function LabelOf(labels: seq<Maybe<Text>>, c: nat): Text {
    if c < |labels| && labels[c].Just? then labels[c].value else []
  }

  /** What is printed in the end, with the labels in their places. */
  function Document(marks: seq<Mark>, labels: seq<Maybe<Text>>): Text {
    if marks == [] then []
    else
      var m := marks[|marks| - 1];
      Document(marks[..|marks| - 1], labels) +
      (match m
       case SheetBegin(n, c) => PAGE_LABEL + LabelOf(labels, c) + AfterLabel(n)
       case SheetEnd => SHOW
       case PageBegin(v, _) => PlaceSet(v)
       case PageEnd => [])
  }

  ghost predicate Shows(store: Store, labels: seq<Maybe<Text>>) {
    forall c: nat :: store.strings(c) == LabelOf(labels, c)
  }

  lemma RenderedMore(issued: seq<Issue>, x: Issue, store: Store, world: set<Output>)
    requires x.Later? ==> x.item.DelayedString?
    ensures Rendered(issued + [x], store, world, 0) == Rendered(issued, store, world, 0) +
      (if x.Put? then x.text else store.strings(x.item.cell))
  {
    assert (issued + [x])[..|issued|] == issued;
  }

  lemma RenderedMark(issued: seq<Issue>, m: Mark, store: Store, world: set<Output>)
    ensures Rendered(issued + MarkIssues(m), store, world, 0) == Rendered(issued, store, world, 0) +
      (match m
       case SheetBegin(n, c) => PAGE_LABEL + store.strings(c) + AfterLabel(n)
       case SheetEnd => SHOW
       case PageBegin(v, _) => PlaceSet(v)
       case PageEnd => [])
  {
    hide Rendered, PlaceSet, AfterLabel;
    match m {
      case SheetBegin(n, c) =>
        var one, two := issued + [Put(PAGE_LABEL)], issued + [Put(PAGE_LABEL)] + [Later(DelayedString(c))];
        assert issued + MarkIssues(m) == two + [Put(AfterLabel(n))];
        RenderedMore(issued, Put(PAGE_LABEL), store, world);
        RenderedMore(one, Later(DelayedString(c)), store, world);
        RenderedMore(two, Put(AfterLabel(n)), store, world);
        Associative(Rendered(issued, store, world, 0), PAGE_LABEL, store.strings(c));
        Associative(Rendered(issued, store, world, 0), PAGE_LABEL + store.strings(c), AfterLabel(n));
      case SheetEnd => RenderedMore(issued, Put(SHOW), store, world);
      case PageBegin(v, _) => RenderedMore(issued, Put(PlaceSet(v)), store, world);
      case PageEnd => assert issued + [] == issued;
    }
  }

  lemma {:induction false} DocumentRendered(marks: seq<Mark>, labels: seq<Maybe<Text>>, store: Store,
                                            world: set<Output>)
    requires Shows(store, labels)
    ensures Rendered(Issues(marks), store, world, 0) == Document(marks, labels)
  {
    hide Rendered, MarkIssues, PlaceSet, AfterLabel;
    if marks == [] {
      NothingRendered(store, world);
    } else {
      DocumentRendered(marks[..|marks| - 1], labels, store, world);
      RenderedMark(Issues(marks[..|marks| - 1]), marks[|marks| - 1], store, world);
    }
  }

  lemma NothingRendered(store: Store, world: set<Output>)
    ensures Rendered([], store, world, 0) == []
  {
  }

  ghost predicate Strings(items: seq<Derivation>) {
    forall k :: 0 <= k < |items| ==> items[k].DelayedString?
  }

  lemma {:induction false} NoChunks(marks: seq<Mark>)
    ensures Strings(ItemsOf(Issues(marks)))
  {
    hide ItemsOf, Strings, MarkIssues;
    if marks == [] {
      ItemsNone();
    } else {
      NoChunks(marks[..|marks| - 1]);
      NoChunksMore(Issues(marks[..|marks| - 1]), marks[|marks| - 1]);
    }
  }

  lemma NoChunksMore(issued: seq<Issue>, m: Mark)
    requires Strings(ItemsOf(issued))
    ensures Strings(ItemsOf(issued + MarkIssues(m)))
  {
    hide ItemsOf, ChunkOf, Plain, AfterLabel, PlaceSet;
    assert ItemsOf(issued) + [] == ItemsOf(issued);
    match m {
      case SheetBegin(n, c) =>
        var one, two := issued + [Put(PAGE_LABEL)], issued + [Put(PAGE_LABEL)] + [Later(DelayedString(c))];
        IssueMore(issued, Put(PAGE_LABEL));
        IssueMore(one, Later(DelayedString(c)));
        IssueMore(two, Put(AfterLabel(n)));
        LabelIssued(issued, n, c);
        assert ItemsOf(two) + [] == ItemsOf(two);
      case SheetEnd => IssueMore(issued, Put(SHOW));
      case PageBegin(v, _) => IssueMore(issued, Put(PlaceSet(v)));
      case PageEnd => assert issued + [] == issued;
    }
  }

  lemma ItemsNone()
    ensures Strings(ItemsOf([]))
  {
  }

  /** Nothing that is written holds a NUL. */
  lemma NulsNone(n: nat)
    ensures Uncut(PAGE_LABEL) && Uncut(SHOW) && Uncut(AfterLabel(n)) && Uncut(PlaceSet(n))
  {
    PostScript.DecimalRoundTrip(n);
    StrLenOf(PAGE_LABEL, |PAGE_LABEL|);
    StrLenOf(SHOW, |SHOW|);
    StrLenOf(AfterLabel(n), |AfterLabel(n)|);
    StrLenOf(PlaceSet(n), |PlaceSet(n)|);
  }

  predicate Uncut(text: Text) {
    text[..StrLen(text)] == text
  }

  lemma LabelIssued(issued: seq<Issue>, n: nat, c: nat)
    ensures issued + [Put(PAGE_LABEL)] + [Later(DelayedString(c))] + [Put(AfterLabel(n))] ==
      issued + MarkIssues(SheetBegin(n, c))
  {
  }

  class Job {
    const o: Options
    const jdiv: Output
    var pages: nat
    var sheets: nat
    var virtual: nat
    var cell: Maybe<nat>
    var labels: seq<Maybe<Text>>
    ghost var marks: seq<Mark>

    ghost function Now(): State
      reads this, jdiv
    {
      State(pages, sheets, virtual, jdiv.toVoid, cell, labels, marks)
    }

    ghost predicate Valid()
      reads this, jdiv
    {
      jdiv.Valid() && jdiv.issued == Issues(marks)
    }

    constructor (o: Options)
      ensures Valid() && Now() == FIRST && fresh(jdiv) && this.o == o
    {
      this.o := o;
      jdiv := new Output();
      pages, sheets, virtual, cell, labels, marks := 0, 0, 0, Nothing, [], [];
    }

    method PageBegin()
      requires Valid()
      modifies this, jdiv
      ensures Valid() && Now() == BeginSheet(o, old(Now()))
    {
      hide PlaceSet, AfterLabel, StrLen, Output.Valid, Issues, MarkIssues;
      virtual := 1;
      if o.chosen(pages) {
        sheets := sheets + 1;
      }
      if !jdiv.toVoid {
        ghost var c := |labels|;
        NulsNone(sheets);
        jdiv.Print(PAGE_LABEL);
        cell := Just(|labels|);
        labels := labels + [Nothing];
        jdiv.Delay(DelayedString(|labels| - 1));
        jdiv.Print(AfterLabel(sheets));
        LabelIssued(Issues(marks), sheets, c);
        IssuesMore(marks, SheetBegin(sheets, c));
        marks := marks + [SheetBegin(sheets, c)];
      }
    }

    /** Fills the label. */
    method PageEnd(text: Text)
      requires Valid() && cell.Just? && cell.value < |labels|
      modifies this, jdiv
      ensures Valid() && Now() == EndSheet(old(Now()), text)
    {
      hide StrLen, Output.Valid, Issues, PlaceSet, AfterLabel;
      labels := labels[cell.value := Just(text)];
      NulsNone(0);
      IssuesMore(marks, SheetEnd);
      jdiv.Print(SHOW);
      if !jdiv.toVoid {
        marks := marks + [SheetEnd];
      }
      virtual := 0;
    }

    method VirtualBegin()
      requires Valid()
      modifies this, jdiv
      ensures Valid() && Now() == BeginVirtual(o, old(Now()))
    {
      hide StrLen, PlaceSet, AfterLabel, Output.Valid, Issues;
      pages := pages + 1;
      if o.chosen(pages) {
        SetVoid(false);
        virtual := virtual + 1;
      } else {
        SetVoid(true);
      }
      if virtual == 1 {
        PageBegin();
      }
      var place := if virtual > 0 then virtual - 1 else 0;
      NulsNone(place);
      IssuesMore(marks, Mark.PageBegin(place, pages));
      jdiv.Print(PlaceSet(place));
      if !jdiv.toVoid {
        marks := marks + [Mark.PageBegin(place, pages)];
      }
    }

    /** `output_to_void` */
    method SetVoid(forget: bool)
      requires Valid()
      modifies jdiv`toVoid
      ensures Valid() && jdiv.toVoid == forget
    {
      jdiv.toVoid := forget;
    }

    method VirtualEnd(text: Text)
      requires Valid() && (virtual == o.perSheet ==> cell.Just? && cell.value < |labels|)
      modifies this, jdiv
      ensures Valid() && Now() == EndVirtual(o, old(Now()), text)
    {
      hide EndSheet, Output.Valid, Issues;
      IssuesMore(marks, Mark.PageEnd);
      if !jdiv.toVoid {
        marks := marks + [Mark.PageEnd];
        assert Issues(marks) == jdiv.issued + [];
      }
      if virtual == o.perSheet {
        PageEnd(text);
      }
    }

    method VirtualEmptyOutput(text: Text)
      requires Valid() && (virtual + 1 == o.perSheet ==> cell.Just? && cell.value < |labels|)
      modifies this, jdiv
      ensures Valid() && Now() == Skip(o, old(Now()), text)
    {
      hide EndSheet, Output.Valid, Issues;
      pages, virtual := pages + 1, virtual + 1;
      if virtual == o.perSheet {
        PageEnd(text);
      }
    }

    method PageFlush(text: Text)
      requires Valid() && (virtual != 0 ==> cell.Just? && cell.value < |labels|)
      modifies this, jdiv
      ensures Valid() && Now() == Flush(old(Now()), text)
    {
      hide EndSheet, Output.Valid, Issues;
      SetVoid(false);
      if virtual != 0 {
        PageEnd(text);
      }
    }

    /** The end of the job: whatever is not yet on paper goes there, labels and all. */
    method Finish(text: Text) returns (stream: Text)
      requires Valid() && (virtual != 0 ==> cell.Just? && cell.value < |labels|)
      modifies this, jdiv
      ensures Valid() && Now() == Flush(old(Now()), text) && stream == Document(marks, labels)
    {
      hide Nest, Rendered, Document, Issues, ItemsOf;
      PageFlush(text);
      var filled := labels;
      var store := Store(_ => 0, c => LabelOf(filled, c), _ => []);
      NoChunks(marks);
      DocumentRendered(marks, labels, store, {jdiv});
      stream := jdiv.Dump(store, {jdiv}, 0);
    }
  }
}
