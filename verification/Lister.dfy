/** Listings in columns: how many columns fit, and where each item lands on the terminal. */
module Lister {
  import opened Bytes
  import opened Probing

  const MIN_COLUMN_WIDTH := 1

  function Max(a: nat, b: nat): nat {
    if a > b then a else b
  }

  /** How many rows it takes to put `n` items in `cols` columns. */
  function Rows(n: nat, cols: nat): nat
    requires cols > 0
  {
    (n + cols - 1) / cols
  }

  /** The width of column `j` when columns are `rows` items long: that of its widest item. */
  function ColumnWidth(widths: seq<nat>, rows: nat, j: nat): (r: nat)
    requires rows > 0
    ensures r >= MIN_COLUMN_WIDTH
  {
    if widths == [] then MIN_COLUMN_WIDTH
    else
      var last := |widths| - 1;
      var before := ColumnWidth(widths[..last], rows, j);
      if last / rows == j then Max(before, widths[last]) else before
  }

  /** The first `m` columns together. */
  function TotalWidth(widths: seq<nat>, rows: nat, m: nat): nat
    requires rows > 0
  {
    if m == 0 then 0 else TotalWidth(widths, rows, m - 1) + ColumnWidth(widths, rows, m - 1)
  }

  lemma {:induction false} WiderItem(widths: seq<nat>, x: nat, rows: nat, m: nat)
    requires rows > 0
    ensures var j := |widths| / rows;
      && (forall k: nat ::
          ColumnWidth(widths + [x], rows, k) ==
            if k == j then Max(ColumnWidth(widths, rows, j), x) else ColumnWidth(widths, rows, k))
      && TotalWidth(widths + [x], rows, m) == TotalWidth(widths, rows, m) +
           (if j < m then Max(ColumnWidth(widths, rows, j), x) - ColumnWidth(widths, rows, j) else 0)
  {
    assert (widths + [x])[..|widths|] == widths;
    if m > 0 {
      WiderItem(widths, x, rows, m - 1);
    }
  }

  lemma {:induction false} ItemFits(widths: seq<nat>, rows: nat, k: nat)
    requires rows > 0 && k < |widths|
    ensures widths[k] <= ColumnWidth(widths, rows, k / rows)
  {
    if k < |widths| - 1 {
      ItemFits(widths[..|widths| - 1], rows, k);
    }
  }

  lemma {:induction false} Narrowest(rows: nat, m: nat)
    requires rows > 0
    ensures TotalWidth([], rows, m) == m * MIN_COLUMN_WIDTH
  {
    if m > 0 {
      Narrowest(rows, m - 1);
    }
  }

  /** How many items are taken in, one after another: until the columns no longer fit. */
  ghost function Taken(seen: seq<nat>, rows: nat, cols: nat, limit: int): (n: nat)
    requires rows > 0
    ensures n <= |seen|
  {
    if seen == [] then 0
    else
      var before := seen[..|seen| - 1];
      if TotalWidth(before, rows, cols) > limit then Taken(before, rows, cols, limit) else |seen|
  }

  lemma TakenMore(seen: seq<nat>, item: nat, rows: nat, cols: nat, limit: int)
    requires rows > 0
    ensures Taken(seen + [item], rows, cols, limit) ==
      if TotalWidth(seen, rows, cols) > limit then Taken(seen, rows, cols, limit) else |seen| + 1
  {
    assert (seen + [item])[..|seen|] == seen;
  }

  /** As long as the columns fit, all have been taken in. */
  lemma {:induction false} TakenAll(seen: seq<nat>, rows: nat, cols: nat, limit: int)
    requires rows > 0 && TotalWidth(seen, rows, cols) <= limit
    ensures Taken(seen, rows, cols, limit) == |seen|
  {
    if seen != [] {
      var before := seen[..|seen| - 1];
      WiderItem(before, seen[|seen| - 1], rows, cols);
      assert before + [seen[|seen| - 1]] == seen;
    }
  }

  /** Otherwise the columns are as wide as they were when they first did not fit. */
  lemma {:induction false} TakenUntil(seen: seq<nat>, rows: nat, cols: nat, limit: int)
    requires rows > 0 && Taken(seen, rows, cols, limit) < |seen| && cols * MIN_COLUMN_WIDTH <= limit
    ensures var n := Taken(seen, rows, cols, limit);
      n > 0 && TotalWidth(seen[..n - 1], rows, cols) <= limit < TotalWidth(seen[..n], rows, cols)
  {
    var before, n := seen[..|seen| - 1], Taken(seen, rows, cols, limit);
    if Taken(before, rows, cols, limit) < |before| {
      TakenUntil(before, rows, cols, limit);
      assert before[..n] == seen[..n] && before[..n - 1] == seen[..n - 1];
    } else {
      assert before[..|before|] == before;
      Narrowest(rows, cols);
      assert n > 0;
      TakenLast(before, rows, cols, limit);
      assert before[..n - 1] == seen[..n - 1] && before == seen[..n];
    }
  }

  lemma TakenLast(seen: seq<nat>, rows: nat, cols: nat, limit: int)
    requires rows > 0 && seen != [] && Taken(seen, rows, cols, limit) == |seen|
    ensures TotalWidth(seen[..|seen| - 1], rows, cols) <= limit
  {
  }

  /** A hypothesis: so many columns, their widths so far, and whether they still fit. */
  datatype World = World(widths: seq<nat>, width: nat, valid: bool)

  ghost predicate WorldOk(w: World, seen: seq<nat>, rows: nat, cols: nat, limit: int)
    requires rows > 0
  {
    && |w.widths| == cols
    && (forall j :: 0 <= j < cols ==> w.widths[j] == ColumnWidth(seen[..Taken(seen, rows, cols, limit)], rows, j))
    && if w.valid then w.width == TotalWidth(seen, rows, cols) <= limit else TotalWidth(seen, rows, cols) > limit
  }

  /** One item is added to a world. */
  method AddItem(w: World, item: nat, idx: nat, limit: int, ghost seen: seq<nat>, ghost rows: nat, ghost cols: nat)
    returns (w': World)
    requires rows > 0 && WorldOk(w, seen, rows, cols, limit) && idx == |seen| / rows < cols
    ensures WorldOk(w', seen + [item], rows, cols, limit)
  {
    WiderItem(seen, item, rows, cols);
    TakenMore(seen, item, rows, cols, limit);
    if w.valid {
      TakenAll(seen, rows, cols, limit);
    }
    ghost var n := Taken(seen, rows, cols, limit);
    assert (seen + [item])[..n] == seen[..n] && seen[..|seen|] == seen &&
      (seen + [item])[..|seen| + 1] == seen + [item];
    hide Taken;
    w' := w;
    if w.valid {
      if item > w.widths[idx] {
        w' := w'.(width := w.width + (item - w.widths[idx]));
        w' := w'.(widths := w.widths[idx := item]);
        w' := w'.(valid := w'.width <= limit);
      }
    }
  }

  lemma ColumnIndex(n: nat, cols: nat, k: nat)
    requires cols > 0 && k < n
    ensures Rows(n, cols) > 0 && k / Rows(n, cols) < cols
  {
    var rows := Rows(n, cols);
    var q := n + cols - 1;
    assert q == rows * cols + q % cols;
    assert n <= rows * cols;
    assert rows > 0 by { MoreTimes(rows, 0, cols); }
    var j := k / rows;
    assert k == j * rows + k % rows;
    assert j < cols by { MoreTimes(cols, j, rows); }
  }

  lemma MoreTimes(a: int, b: int, m: nat)
    ensures a <= b ==> a * m <= b * m
  {
  }

  /** The terminal, and the blanks to be left on it. */
  datatype Settings = Settings(lineWidth: nat, before: nat, after: nat, between: nat, justify: nat, tabsize: nat)
  {
    /** The line is wide enough for its margins and one gap, and something is left beside the margins. */
    predicate Sane() {
      before + after < lineWidth && before + after + between <= lineWidth && justify <= 2
    }

    function Available(): nat
      requires Sane()
    {
      lineWidth - before - after
    }

    /** How many columns there could be if every item were a single character. */
    function MostColumns(): (r: nat)
      requires Sane()
      ensures r >= 1
    {
      Max((lineWidth - before - after - between) / (MIN_COLUMN_WIDTH + between), 1)
    }
  }

  lemma MostFit(s: Settings, cols: nat)
    requires s.Sane() && 1 <= cols <= s.MostColumns()
    ensures cols * MIN_COLUMN_WIDTH <= s.Available() - (cols - 1) * s.between
  {
    var m, d := s.lineWidth - s.before - s.after - s.between, MIN_COLUMN_WIDTH + s.between;
    if cols > 1 {
      Euclid(m, d);
      MoreTimes(cols, m / d, d);
      OneLess(cols, MIN_COLUMN_WIDTH, s.between);
    }
  }

  lemma Euclid(m: int, d: nat)
    requires d > 0
    ensures m == (m / d) * d + m % d && 0 <= m % d < d
  {
  }

  lemma OneLess(c: int, a: int, b: int)
    ensures c * (a + b) == c * a + (c - 1) * b + b
  {
  }

  predicate Fits(s: Settings, widths: seq<nat>, cols: nat)
    requires s.Sane() && cols > 0 && widths != []
  {
    TotalWidth(widths, Rows(|widths|, cols), cols) <= s.Available() - (cols - 1) * s.between
  }

  ghost predicate WorldAt(s: Settings, w: World, widths: seq<nat>, seen: nat, i: nat)
    requires s.Sane() && widths != [] && seen <= |widths|
  {
    && Rows(|widths|, i + 1) > 0
    && WorldOk(w, widths[..seen], Rows(|widths|, i + 1), i + 1, s.Available() - i * s.between)
  }

  ghost predicate WorldsOk(s: Settings, worlds: seq<World>, maxCols: nat, widths: seq<nat>, seen: nat)
    requires s.Sane() && widths != [] && seen <= |widths|
  {
    maxCols <= |worlds| && forall i :: 0 <= i < maxCols ==> WorldAt(s, worlds[i], widths, seen, i)
  }

  /** The columns are as wide as the items that were taken in. */
  ghost predicate AsTaken(s: Settings, widths: seq<nat>, columns: seq<nat>)
    requires s.Sane() && columns != [] && Rows(|widths|, |columns|) > 0
  {
    var rows, cols := Rows(|widths|, |columns|), |columns|;
    var n := Taken(widths, rows, cols, s.Available() - (cols - 1) * s.between);
    forall j :: 0 <= j < cols ==> columns[j] == ColumnWidth(widths[..n], rows, j)
  }

  /** When they fit, that is all the items. */
  lemma AllTaken(s: Settings, widths: seq<nat>, columns: seq<nat>)
    requires s.Sane() && widths != [] && columns != [] && Rows(|widths|, |columns|) > 0 && AsTaken(s, widths, columns)
    requires Fits(s, widths, |columns|)
    ensures forall j :: 0 <= j < |columns| ==> columns[j] == ColumnWidth(widths, Rows(|widths|, |columns|), j)
  {
    hide Taken, ColumnWidth, TotalWidth;
    var rows, cols := Rows(|widths|, |columns|), |columns|;
    TakenAll(widths, rows, cols, s.Available() - (cols - 1) * s.between);
    assert widths[..|widths|] == widths;
  }

  /** The largest number of columns that fit, or one, and how wide they are. */
  method VerticalFormat(s: Settings, widths: seq<nat>) returns (cols: nat, columns: seq<nat>)
    requires s.Sane() && widths != []
    ensures 1 <= cols <= s.MostColumns() && cols <= |widths|
    ensures cols > 1 ==> Fits(s, widths, cols)
    ensures forall c :: cols < c <= s.MostColumns() && c <= |widths| ==> !Fits(s, widths, c)
    ensures |columns| == cols && Rows(|widths|, cols) > 0 && AsTaken(s, widths, columns)
  {
    hide Settings.Sane, TotalWidth, ColumnWidth, Taken;
    var maxIdx := s.MostColumns();
    var worlds := InitWorlds(s, maxIdx, widths);
    var maxCols := if maxIdx > |widths| then |widths| else maxIdx;
    for itemno := 0 to |widths|
      invariant |worlds| == maxIdx && WorldsOk(s, worlds, maxCols, widths, itemno)
    {
      worlds := AddToWorlds(s, worlds, maxCols, widths, itemno);
    }
    assert widths[..|widths|] == widths;
    cols := maxCols;
    while cols > 1 && !worlds[cols - 1].valid
      invariant 1 <= cols <= maxCols
      invariant forall c :: cols < c <= maxCols ==> !Fits(s, widths, c)
    {
      assert WorldAt(s, worlds[cols - 1], widths, |widths|, cols - 1);
      cols := cols - 1;
    }
    assert WorldAt(s, worlds[cols - 1], widths, |widths|, cols - 1);
    columns := worlds[cols - 1].widths;
  }

  /** At first every column is as narrow as can be, which fits. */
  method InitWorlds(s: Settings, maxIdx: nat, ghost widths: seq<nat>) returns (worlds: seq<World>)
    requires s.Sane() && widths != [] && maxIdx == s.MostColumns()
    ensures |worlds| == maxIdx
    ensures WorldsOk(s, worlds, maxIdx, widths, 0)
  {
    hide Settings.Sane, WorldAt;
    worlds := [];
    for i := 0 to maxIdx
      invariant |worlds| == i && WorldsOk(s, worlds, i, widths, 0)
    {
      var w := World(seq(i + 1, _ => MIN_COLUMN_WIDTH), (i + 1) * MIN_COLUMN_WIDTH, true);
      NarrowWorld(s, w, widths, i);
      worlds := worlds + [w];
    }
  }

  lemma NarrowWorld(s: Settings, w: World, widths: seq<nat>, i: nat)
    requires s.Sane() && widths != [] && i < s.MostColumns()
    requires w == World(seq(i + 1, _ => MIN_COLUMN_WIDTH), (i + 1) * MIN_COLUMN_WIDTH, true)
    ensures WorldAt(s, w, widths, 0, i)
  {
    hide Settings.Sane, TotalWidth, ColumnWidth;
    ColumnIndex(|widths|, i + 1, 0);
    Narrowest(Rows(|widths|, i + 1), i + 1);
    NarrowestColumns(Rows(|widths|, i + 1));
    MostFit(s, i + 1);
    assert widths[..0] == [];
  }

  lemma NarrowestColumns(rows: nat)
    requires rows > 0
    ensures forall j: nat :: ColumnWidth([], rows, j) == MIN_COLUMN_WIDTH
  {
  }

  lemma WorldReplaced(s: Settings, worlds: seq<World>, w: World, i: nat, widths: seq<nat>, seen: nat)
    requires s.Sane() && widths != [] && seen <= |widths| && i < |worlds|
    requires WorldsOk(s, worlds, i, widths, seen) && WorldAt(s, w, widths, seen, i)
    ensures WorldsOk(s, worlds[i := w], i + 1, widths, seen)
  {
    hide WorldAt, Settings.Sane;
  }

  /** Each hypothesis takes the item in. */
  method AddToWorlds(s: Settings, worlds: seq<World>, maxCols: nat, widths: seq<nat>, itemno: nat)
    returns (worlds': seq<World>)
    requires s.Sane() && itemno < |widths| && WorldsOk(s, worlds, maxCols, widths, itemno)
    ensures |worlds'| == |worlds| && WorldsOk(s, worlds', maxCols, widths, itemno + 1)
  {
    hide Settings.Sane, TotalWidth, ColumnWidth, WorldOk;
    worlds' := worlds;
    var n := |widths|;
    assert widths[..itemno + 1] == widths[..itemno] + [widths[itemno]];
    for i := 0 to maxCols
      invariant |worlds'| == |worlds| && forall k :: i <= k < |worlds| ==> worlds'[k] == worlds[k]
      invariant WorldsOk(s, worlds', i, widths, itemno + 1)
    {
      assert WorldAt(s, worlds[i], widths, itemno, i);
      ColumnIndex(n, i + 1, itemno);
      assert (n + i) / (i + 1) == Rows(n, i + 1);
      hide Rows;
      var w := AddItem(worlds'[i], widths[itemno], itemno / ((n + i) / (i + 1)), s.Available() - i * s.between,
                       widths[..itemno], Rows(n, i + 1), i + 1);
      assert WorldAt(s, w, widths, itemno + 1, i);
      WorldReplaced(s, worlds', w, i, widths, itemno + 1);
      worlds' := worlds'[i := w];
    }
  }

  // ----- the terminal -----

  datatype Out = Blank | Tabulation | Show(item: nat) | EndRow

  datatype Placement = Placement(item: nat, row: nat, pos: nat)

  datatype Screen = Screen(row: nat, pos: nat, shown: seq<Placement>)

  function Type(tabsize: nat, widths: seq<nat>, s: Screen, o: Out): Screen {
    match o
    case Blank => s.(pos := s.pos + 1)
    case Tabulation => if tabsize == 0 then s else s.(pos := s.pos + (tabsize - s.pos % tabsize))
    case Show(k) =>
      var width := if k < |widths| then widths[k] else 0;
      s.(pos := s.pos + width, shown := s.shown + [Placement(k, s.row, s.pos)])
    case EndRow => s.(row := s.row + 1, pos := 0)
  }

  function TypeAll(tabsize: nat, widths: seq<nat>, s: Screen, out: seq<Out>): Screen {
    if out == [] then s else Type(tabsize, widths, TypeAll(tabsize, widths, s, out[..|out| - 1]), out[|out| - 1])
  }

  lemma TypeMore(tabsize: nat, widths: seq<nat>, s: Screen, out: seq<Out>, o: Out)
    ensures TypeAll(tabsize, widths, s, out + [o]) == Type(tabsize, widths, TypeAll(tabsize, widths, s, out), o)
  {
    assert (out + [o])[..|out|] == out;
  }

  /** A tabulation taken never goes past where the next item is to be. */
  lemma TabStops(from: nat, goal: nat, tabsize: nat)
    requires tabsize > 0 && goal / tabsize > (from + 1) / tabsize
    ensures from < from + (tabsize - from % tabsize) <= goal
  {
    var q, r := from / tabsize, goal / tabsize;
    Euclid(from, tabsize);
    Euclid(goal, tabsize);
    StepUp(from, tabsize);
    MoreTimes(q + 1, r, tabsize);
    OneLess(tabsize, 1, q);
  }

  lemma StepUp(a: nat, m: nat)
    requires m > 0
    ensures (a + 1) / m >= a / m
  {
    var q, q' := a / m, (a + 1) / m;
    assert a == q * m + a % m && a + 1 == q' * m + (a + 1) % m;
    AtLeastOnce(q - q', m);
    assert (q - q') * m == q * m - q' * m;
  }

  /** From one column to another, with tabulations as far as they go. */
  method Indent(out: seq<Out>, from: nat, goal: nat, tabsize: nat, ghost widths: seq<nat>, ghost s: Screen)
    returns (out': seq<Out>)
    requires TypeAll(tabsize, widths, s, out).pos == from <= goal
    ensures TypeAll(tabsize, widths, s, out') == TypeAll(tabsize, widths, s, out).(pos := goal)
  {
    hide TypeAll;
    out' := out;
    var pos: nat := from;
    while pos < goal
      invariant pos <= goal && TypeAll(tabsize, widths, s, out') == TypeAll(tabsize, widths, s, out).(pos := pos)
      decreases goal - pos
    {
      if tabsize > 0 && goal / tabsize > (pos + 1) / tabsize {
        TabStops(pos, goal, tabsize);
        TypeMore(tabsize, widths, s, out', Tabulation);
        out' := out' + [Tabulation];
        pos := pos + (tabsize - pos % tabsize);
      } else {
        TypeMore(tabsize, widths, s, out', Blank);
        out' := out' + [Blank];
        pos := pos + 1;
      }
    }
  }

  // ----- where the items go -----

  function Start(s: Settings, columns: seq<nat>, c: nat): nat
    requires c <= |columns|
  {
    if c == 0 then s.before else Start(s, columns, c - 1) + columns[c - 1] + s.between
  }

  /** The item's place in its column, to the left, in the middle or to the right. */
  function ItemPos(s: Settings, columns: seq<nat>, rows: nat, widths: seq<nat>, k: nat): nat
    requires rows > 0 && k < |widths| && k / rows < |columns|
  {
    Start(s, columns, k / rows) + Slack(Room(columns[k / rows], widths[k]), s.justify)
  }

  /** What the item leaves of its column, as an unsigned number. */
  function Room(column: nat, item: nat): nat {
    (column - item) % WORD
  }

  /** How much of the room left goes before the item. */
  function Slack(room: nat, justify: nat): nat {
    room * justify % WORD / 2
  }

  /** Every item has a column wide enough, unless there is but one. */
  ghost predicate Laid(s: Settings, columns: seq<nat>, rows: nat, widths: seq<nat>) {
    && rows > 0
    && forall k :: 0 <= k < |widths| ==>
        k / rows < |columns| && (widths[k] <= columns[k / rows] || |columns| == 1)
  }

  ghost function RowPlaced(s: Settings, columns: seq<nat>, rows: nat, widths: seq<nat>, r: nat, c: nat): seq<Placement>
    requires Laid(s, columns, rows, widths) && r < rows
  {
    if c == 0 then []
    else
      var k := r + (c - 1) * rows;
      RowPlaced(s, columns, rows, widths, r, c - 1) +
        (if k < |widths| then [Placement(k, r, ItemPos(s, columns, rows, widths, k))] else [])
  }

  ghost function AllPlaced(s: Settings, columns: seq<nat>, rows: nat, widths: seq<nat>, r: nat): seq<Placement>
    requires Laid(s, columns, rows, widths) && r <= rows
  {
    if r == 0 then []
    else AllPlaced(s, columns, rows, widths, r - 1) + RowPlaced(s, columns, rows, widths, r - 1, |columns|)
  }

  lemma ColumnOf(r: nat, c: nat, rows: nat)
    requires r < rows
    ensures (r + c * rows) / rows == c && (r + c * rows) % rows == r
  {
    RemainderOf(r + c * rows, r, c, rows);
    var k := r + c * rows;
    assert k == (k / rows) * rows + k % rows;
    AtLeastOnce(c - k / rows, rows);
    assert (c - k / rows) * rows == 0;
  }

  /** The row is over at the first item that does not exist. */
  lemma {:induction false} RowEnds(s: Settings, columns: seq<nat>, rows: nat, widths: seq<nat>, r: nat, c: nat, m: nat)
    requires Laid(s, columns, rows, widths) && r < rows && c <= m && r + c * rows >= |widths|
    ensures RowPlaced(s, columns, rows, widths, r, m) == RowPlaced(s, columns, rows, widths, r, c)
    decreases m
  {
    hide ItemPos, Laid;
    if c < m {
      RowEnds(s, columns, rows, widths, r, c, m - 1);
      MoreRows(c, m - 1, rows);
    }
  }

  lemma MoreRows(a: nat, b: nat, rows: nat)
    requires a <= b
    ensures a * rows <= b * rows
  {
  }

  /** Prints the items row by row. */
  method PrintVertical(s: Settings, columns: seq<nat>, widths: seq<nat>, rows: nat) returns (out: seq<Out>)
    requires s.Sane() && Laid(s, columns, rows, widths) && rows <= |widths|
    ensures TypeAll(s.tabsize, widths, Screen(0, 0, []), out) ==
      Screen(rows, 0, AllPlaced(s, columns, rows, widths, rows))
  {
    hide TypeAll, RowPlaced, Laid;
    out := [];
    ghost var first := Screen(0, 0, []);
    NothingTyped(s, columns, rows, widths);
    for row := 0 to rows
      invariant TypeAll(s.tabsize, widths, first, out) == Screen(row, 0, AllPlaced(s, columns, rows, widths, row))
    {
      out := PrintRow(s, columns, widths, rows, row, out);
      TypeMore(s.tabsize, widths, first, out, EndRow);
      out := out + [EndRow];
    }
  }

  lemma NothingTyped(s: Settings, columns: seq<nat>, rows: nat, widths: seq<nat>)
    requires Laid(s, columns, rows, widths)
    ensures TypeAll(s.tabsize, widths, Screen(0, 0, []), []) == Screen(0, 0, AllPlaced(s, columns, rows, widths, 0))
    ensures forall r: nat :: r < rows ==> RowPlaced(s, columns, rows, widths, r, 0) == []
  {
  }

  method PrintRow(s: Settings, columns: seq<nat>, widths: seq<nat>, rows: nat, row: nat, out: seq<Out>)
    returns (out': seq<Out>)
    requires s.Sane() && Laid(s, columns, rows, widths) && row < rows <= |widths|
    requires var t := TypeAll(s.tabsize, widths, Screen(0, 0, []), out); t.row == row && t.pos == 0
    ensures var t := TypeAll(s.tabsize, widths, Screen(0, 0, []), out);
      var t' := TypeAll(s.tabsize, widths, Screen(0, 0, []), out');
      t'.row == row && t'.shown == t.shown + RowPlaced(s, columns, rows, widths, row, |columns|)
  {
    hide TypeAll, RowPlaced, Slack, Laid;
    LaidItems(s, columns, rows, widths);
    out' := out;
    ghost var first := Screen(0, 0, []);
    ghost var before := TypeAll(s.tabsize, widths, first, out).shown;
    var col: nat, itemno: nat, pos: nat := 0, row, 0;
    var nextpos: nat, nextcolpos: nat := s.before, s.before;
    NothingTyped(s, columns, rows, widths);
    assert before + [] == before;
    ColumnOf(row, 0, rows);
    assert row + 0 * rows == row && row / rows < |columns|;
    while true
      invariant itemno == row + col * rows < |widths| && col < |columns|
      invariant nextpos == nextcolpos == Start(s, columns, col) && pos <= nextpos
      invariant TypeAll(s.tabsize, widths, first, out') ==
        Screen(row, pos, before + RowPlaced(s, columns, rows, widths, row, col))
      decreases |widths| - itemno
    {
      ColumnOf(row, col, rows);
      var colWidth, itemWidth := columns[col], widths[itemno];
      HalfAtMost(colWidth, itemWidth, s.justify);
      ghost var grown := RowGrows(s, columns, rows, widths, row, col, before);
      nextpos := nextpos + Slack(Room(colWidth, itemWidth), s.justify);
      nextcolpos := nextcolpos + colWidth + s.between;
      col := col + 1;
      out' := Indent(out', pos, nextpos, s.tabsize, widths, first);
      TypeMore(s.tabsize, widths, first, out', Show(itemno));
      out' := out' + [Show(itemno)];
      itemno := itemno + rows;
      if itemno >= |widths| {
        break;
      }
      ColumnOf(row, col, rows);
      pos := nextpos + itemWidth;
      nextpos := nextcolpos;
    }
    RowEnds(s, columns, rows, widths, row, col, |columns|);
  }

  lemma HalfAtMost(column: nat, item: nat, justify: nat)
    requires justify <= 2
    ensures item <= column ==> Slack(Room(column, item), justify) <= column - item
    ensures justify == 0 ==> Slack(Room(column, item), justify) == 0
  {
    var room := Room(column, item);
    assert item <= column ==> room <= column - item;
    assert room * justify <= 2 * room;
  }

  lemma LaidItems(s: Settings, columns: seq<nat>, rows: nat, widths: seq<nat>)
    requires Laid(s, columns, rows, widths)
    ensures rows > 0
    ensures forall k :: 0 <= k < |widths| ==>
      k / rows < |columns| && (widths[k] <= columns[k / rows] || |columns| == 1)
  {
  }

  lemma RowGrows(s: Settings, columns: seq<nat>, rows: nat, widths: seq<nat>, r: nat, c: nat, before: seq<Placement>)
    returns (all: seq<Placement>)
    requires Laid(s, columns, rows, widths) && r < rows && r + c * rows < |widths| && c < |columns|
    ensures (r + c * rows) / rows == c && (widths[r + c * rows] <= columns[c] || |columns| == 1)
    ensures all == before + RowPlaced(s, columns, rows, widths, r, c + 1)
    ensures all == before + RowPlaced(s, columns, rows, widths, r, c) +
      [Placement(r + c * rows, r, Start(s, columns, c) + Slack(Room(columns[c], widths[r + c * rows]), s.justify))]
  {
    ColumnOf(r, c, rows);
    hide Slack, Start;
    all := before + RowPlaced(s, columns, rows, widths, r, c + 1);
    Associative(before, RowPlaced(s, columns, rows, widths, r, c),
      [Placement(r + c * rows, r, ItemPos(s, columns, rows, widths, r + c * rows))]);
  }

  // ----- every item once -----

  /** An item is where it should be. */
  ghost predicate InPlace(s: Settings, columns: seq<nat>, rows: nat, widths: seq<nat>, p: Placement)
    requires Laid(s, columns, rows, widths)
  {
    p.item < |widths| && p.row == p.item % rows && p.pos == ItemPos(s, columns, rows, widths, p.item)
  }

  /** The first `c` columns of row `r` show their items. */
  ghost predicate RowListed(s: Settings, columns: seq<nat>, rows: nat, widths: seq<nat>, r: nat, c: nat,
                            placed: seq<Placement>)
    requires Laid(s, columns, rows, widths)
  {
    && (forall x :: 0 <= x < |placed| ==>
        InPlace(s, columns, rows, widths, placed[x]) && placed[x].row == r && placed[x].item < r + c * rows)
    && (forall x, y :: 0 <= x < y < |placed| ==> placed[x].item != placed[y].item)
    && (forall j :: 0 <= j < c && r + j * rows < |widths| ==> Appears(placed, r + j * rows))
  }

  lemma {:induction false} RowOnce(s: Settings, columns: seq<nat>, rows: nat, widths: seq<nat>, r: nat, c: nat)
    requires Laid(s, columns, rows, widths) && r < rows
    ensures RowListed(s, columns, rows, widths, r, c, RowPlaced(s, columns, rows, widths, r, c))
  {
    hide Laid, RowListed, ItemPos;
    LaidItems(s, columns, rows, widths);
    if c == 0 {
      EmptyRow(s, columns, rows, widths, r);
    } else {
      RowOnce(s, columns, rows, widths, r, c - 1);
      RowListedMore(s, columns, rows, widths, r, c - 1, RowPlaced(s, columns, rows, widths, r, c - 1));
    }
  }

  lemma EmptyRow(s: Settings, columns: seq<nat>, rows: nat, widths: seq<nat>, r: nat)
    requires Laid(s, columns, rows, widths)
    ensures RowListed(s, columns, rows, widths, r, 0, [])
  {
  }

  lemma RowListedMore(s: Settings, columns: seq<nat>, rows: nat, widths: seq<nat>, r: nat, c: nat,
                      placed: seq<Placement>)
    requires Laid(s, columns, rows, widths) && r < rows && RowListed(s, columns, rows, widths, r, c, placed)
    ensures var k := r + c * rows;
      RowListed(s, columns, rows, widths, r, c + 1,
        placed + (if k < |widths| then [Placement(k, r, ItemPos(s, columns, rows, widths, k))] else []))
  {
    hide Laid, ItemPos, Appears;
    LaidItems(s, columns, rows, widths);
    ColumnOf(r, c, rows);
    var k := r + c * rows;
    assert r + (c + 1) * rows == k + rows;
    if k < |widths| {
      var p := Placement(k, r, ItemPos(s, columns, rows, widths, k));
      var more := placed + [p];
      Appeared(more, |placed|);
      forall j | 0 <= j < c + 1 && r + j * rows < |widths|
        ensures Appears(more, r + j * rows)
      {
        if j < c {
          StillAppears(placed, more, r + j * rows);
        }
      }
    } else {
      assert placed + [] == placed;
    }
  }

  lemma Appeared(placed: seq<Placement>, x: nat)
    requires x < |placed|
    ensures Appears(placed, placed[x].item)
  {
  }

  ghost predicate Appears(placed: seq<Placement>, k: nat) {
    exists x :: 0 <= x < |placed| && placed[x].item == k
  }

  lemma StillAppears(placed: seq<Placement>, more: seq<Placement>, k: nat)
    requires placed <= more && Appears(placed, k)
    ensures Appears(more, k)
  {
    var x :| 0 <= x < |placed| && placed[x].item == k;
    assert more[x] == placed[x];
  }

  lemma AppearsAfter(before: seq<Placement>, placed: seq<Placement>, k: nat)
    requires Appears(placed, k)
    ensures Appears(before + placed, k)
  {
    var x :| 0 <= x < |placed| && placed[x].item == k;
    assert (before + placed)[|before| + x] == placed[x];
  }

  /** The first `r` rows show their items, each once and in its place. */
  ghost predicate Listed(s: Settings, columns: seq<nat>, rows: nat, widths: seq<nat>, r: nat, placed: seq<Placement>)
    requires Laid(s, columns, rows, widths)
  {
    && (forall x :: 0 <= x < |placed| ==> InPlace(s, columns, rows, widths, placed[x]) && placed[x].row < r)
    && (forall x, y :: 0 <= x < y < |placed| ==> placed[x].item != placed[y].item)
    && (forall k :: 0 <= k < |widths| && k % rows < r ==> Appears(placed, k))
  }

  /** Each item is shown exactly once, in row `k % rows` and column `k / rows`. */
  lemma {:induction false} EachOnce(s: Settings, columns: seq<nat>, rows: nat, widths: seq<nat>, r: nat)
    requires Laid(s, columns, rows, widths) && r <= rows
    ensures Listed(s, columns, rows, widths, r, AllPlaced(s, columns, rows, widths, r))
  {
    if r == 0 {
      assert AllPlaced(s, columns, rows, widths, 0) == [];
    } else {
      EachOnce(s, columns, rows, widths, r - 1);
      RowOnce(s, columns, rows, widths, r - 1, |columns|);
      ListedMore(s, columns, rows, widths, r - 1, AllPlaced(s, columns, rows, widths, r - 1),
                 RowPlaced(s, columns, rows, widths, r - 1, |columns|));
    }
  }

  lemma ListedMore(s: Settings, columns: seq<nat>, rows: nat, widths: seq<nat>, r: nat, before: seq<Placement>,
                   row: seq<Placement>)
    requires Laid(s, columns, rows, widths) && r < rows && Listed(s, columns, rows, widths, r, before)
    requires forall x :: 0 <= x < |row| ==> InPlace(s, columns, rows, widths, row[x]) && row[x].row == r
    requires forall x, y :: 0 <= x < y < |row| ==> row[x].item != row[y].item
    requires forall j :: 0 <= j < |columns| && r + j * rows < |widths| ==> Appears(row, r + j * rows)
    ensures Listed(s, columns, rows, widths, r + 1, before + row)
  {
    hide ItemPos, Laid, Appears;
    LaidItems(s, columns, rows, widths);
    forall k | 0 <= k < |widths| && k % rows < r + 1
      ensures Appears(before + row, k)
    {
      if k % rows < r {
        StillAppears(before, before + row, k);
      } else {
        var j := k / rows;
        assert k == r + j * rows;
        AppearsAfter(before, row, r + j * rows);
      }
    }
  }

  /** Columns as wide as their widest items hold all of them. */
  lemma ColumnsHold(s: Settings, widths: seq<nat>, cols: nat, columns: seq<nat>)
    requires widths != [] && 0 < cols <= |columns| && Rows(|widths|, cols) > 0
    requires forall j :: 0 <= j < cols ==> columns[j] == ColumnWidth(widths, Rows(|widths|, cols), j)
    ensures Laid(s, columns, Rows(|widths|, cols), widths)
  {
    hide ColumnWidth;
    forall k | 0 <= k < |widths|
      ensures k / Rows(|widths|, cols) < |columns| && widths[k] <= columns[k / Rows(|widths|, cols)]
    {
      ColumnIndex(|widths|, cols, k);
      ItemFits(widths, Rows(|widths|, cols), k);
    }
  }

  lemma OneColumn(s: Settings, widths: seq<nat>, columns: seq<nat>)
    requires widths != [] && |columns| == 1 && Rows(|widths|, 1) > 0
    ensures Laid(s, columns, Rows(|widths|, 1), widths)
  {
    forall k | 0 <= k < |widths|
      ensures k / Rows(|widths|, 1) < 1
    {
      ColumnIndex(|widths|, 1, k);
    }
  }

  /** The columns chosen end before the right margin. */
  lemma {:induction false} ColumnsEnd(s: Settings, widths: seq<nat>, rows: nat, columns: seq<nat>, c: nat)
    requires rows > 0 && c <= |columns| && forall j :: 0 <= j < c ==> columns[j] == ColumnWidth(widths, rows, j)
    ensures Start(s, columns, c) == s.before + TotalWidth(widths, rows, c) + c * s.between
  {
    if c > 0 {
      ColumnsEnd(s, widths, rows, columns, c - 1);
      assert c * s.between == (c - 1) * s.between + s.between;
    }
  }

  /** `item_number / cols + (item_number % cols != 0)` */
  lemma RowsRounded(n: nat, cols: nat)
    requires cols > 0
    ensures Rows(n, cols) == n / cols + (if n % cols != 0 then 1 else 0)
  {
    var q, r := n / cols, n % cols;
    assert n == q * cols + r;
    if r == 0 {
      RemainderOf(n + cols - 1, cols - 1, q, cols);
      QuotientOf(n + cols - 1, cols - 1, q, cols);
    } else {
      assert n + cols - 1 == (q + 1) * cols + (r - 1);
      QuotientOf(n + cols - 1, r - 1, q + 1, cols);
    }
  }

  lemma QuotientOf(a: nat, r: nat, q: nat, m: nat)
    requires a == q * m + r && r < m
    ensures a / m == q
  {
    RemainderOf(a, r, q, m);
    assert a == (a / m) * m + a % m;
    AtLeastOnce(q - a / m, m);
    assert (q - a / m) * m == 0;
  }

  // ----- items wider than the line -----

  /** The item starts within its column. */
  ghost predicate InColumn(s: Settings, columns: seq<nat>, rows: nat, widths: seq<nat>, k: nat)
    requires rows > 0 && k < |widths| && k / rows < |columns|
  {
    ItemPos(s, columns, rows, widths, k) <= Start(s, columns, k / rows) + columns[k / rows]
  }

  ghost predicate InColumns(s: Settings, columns: seq<nat>, rows: nat, widths: seq<nat>)
    requires Laid(s, columns, rows, widths)
  {
    forall k :: 0 <= k < |widths| ==> InColumn(s, columns, rows, widths, k)
  }

  predicate FirstWide(s: Settings, widths: seq<nat>, i: nat)
    requires s.Sane()
  {
    i < |widths| && widths[i] > s.Available() && forall j :: 0 <= j < i ==> widths[j] <= s.Available()
  }

  /** No width comes near the size of a word. */
  predicate Small(widths: seq<nat>) {
    forall k :: 0 <= k < |widths| ==> widths[k] < WORD / 4
  }

  /** None is wider than the first that is too wide for the line. */
  predicate NoneWider(s: Settings, widths: seq<nat>)
    requires s.Sane()
  {
    forall i, k :: 0 <= k < |widths| && 0 <= i < |widths| && FirstWide(s, widths, i) ==> widths[k] <= widths[i]
  }

  /** The room left before an item that is wider than its column is beyond all bounds. */
  lemma SlackExactly(column: nat, item: nat, justify: nat)
    requires 1 <= justify <= 2 && column < WORD / 4 && item < WORD / 4
    ensures Slack(Room(column, item), justify) <= column <==> item <= column
  {
    HalfAtMost(column, item, justify);
    if item > column {
      var d: nat := item - column;
      assert Room(column, item) == WORD - d;
      assert justify == 2 ==> (WORD - d) * 2 % WORD == WORD - 2 * d;
    }
  }

  lemma OneTotal(seen: seq<nat>, rows: nat)
    requires rows > 0
    ensures TotalWidth(seen, rows, 1) == ColumnWidth(seen, rows, 0)
  {
    assert TotalWidth(seen, rows, 0) == 0;
  }

  /** A single column takes in items until one is too wide for the line. */
  lemma SomeTaken(widths: seq<nat>, rows: nat, limit: int) returns (n: nat)
    requires rows > 0 && widths != [] && MIN_COLUMN_WIDTH <= limit
    ensures n == Taken(widths, rows, 1, limit) && 0 < n <= |widths|
    ensures ColumnWidth(widths[..n - 1], rows, 0) <= limit
    ensures n < |widths| ==> ColumnWidth(widths[..n], rows, 0) > limit
  {
    n := Taken(widths, rows, 1, limit);
    if n < |widths| {
      TakenUntil(widths, rows, 1, limit);
    } else {
      TakenLast(widths, rows, 1, limit);
    }
    OneTotal(widths[..n - 1], rows);
    OneTotal(widths[..n], rows);
  }

  /** It is as wide as its widest item so far, and the last one taken in is the first too wide, if there is one. */
  lemma OneColumnWidth(widths: seq<nat>, rows: nat, limit: int, column: nat) returns (n: nat)
    requires widths != [] && rows == |widths| && MIN_COLUMN_WIDTH <= limit
    requires column == ColumnWidth(widths[..Taken(widths, rows, 1, limit)], rows, 0)
    ensures 0 < n <= |widths| && forall j :: 0 <= j < n ==> widths[j] <= column && (j < n - 1 ==> widths[j] <= limit)
    ensures n < |widths| ==> column == widths[n - 1] > limit
  {
    n := SomeTaken(widths, rows, limit);
    hide Taken, TotalWidth, ColumnWidth;
    var init, taken := widths[..n - 1], widths[..n];
    assert taken == init + [widths[n - 1]];
    OneMore(init, widths[n - 1], rows);
    forall j | 0 <= j < n
      ensures widths[j] <= column && (j < n - 1 ==> widths[j] <= limit)
    {
      InFirstColumn(taken, rows, j);
      if j < n - 1 {
        InFirstColumn(init, rows, j);
      }
    }
  }

  lemma OneMore(init: seq<nat>, x: nat, rows: nat)
    requires |init| < rows
    ensures ColumnWidth(init + [x], rows, 0) == Max(ColumnWidth(init, rows, 0), x)
  {
    assert (init + [x])[..|init|] == init && |init| / rows == 0;
  }

  lemma InFirstColumn(widths: seq<nat>, rows: nat, k: nat)
    requires k < |widths| <= rows
    ensures widths[k] <= ColumnWidth(widths, rows, 0)
  {
    ItemFits(widths, rows, k);
    assert k / rows == 0;
  }

  lemma WiderOrNot(s: Settings, widths: seq<nat>, column: nat, n: nat)
    requires s.Sane() && 0 < n <= |widths|
    requires forall j :: 0 <= j < n ==> widths[j] <= column && (j < n - 1 ==> widths[j] <= s.Available())
    requires n < |widths| ==> column == widths[n - 1] > s.Available()
    ensures (forall k :: 0 <= k < |widths| ==> widths[k] <= column) <==> NoneWider(s, widths)
  {
    hide Settings.Sane;
    if n < |widths| {
      assert FirstWide(s, widths, n - 1);
    }
  }

  /** So its items fit it exactly when none is wider than the first that is too wide. */
  lemma OneColumnHolds(s: Settings, widths: seq<nat>, columns: seq<nat>)
    requires s.Sane() && widths != [] && |columns| == 1 && Rows(|widths|, 1) > 0 && AsTaken(s, widths, columns)
    ensures (forall k :: 0 <= k < |widths| ==> widths[k] <= columns[0]) <==> NoneWider(s, widths)
  {
    hide Taken, NoneWider;
    var n := OneColumnWidth(widths, |widths|, s.Available(), columns[0]);
    WiderOrNot(s, widths, columns[0], n);
  }

  ghost predicate FitsColumn(columns: seq<nat>, rows: nat, widths: seq<nat>, k: nat)
    requires rows > 0 && k < |widths|
  {
    k / rows < |columns| && widths[k] <= columns[k / rows]
  }

  lemma InColumnWhen(s: Settings, columns: seq<nat>, rows: nat, widths: seq<nat>, k: nat)
    requires s.Sane() && rows > 0 && k < |widths| && k / rows < |columns| && widths[k] < WORD / 4
    requires columns[k / rows] < WORD / 4
    ensures InColumn(s, columns, rows, widths, k) <==> s.justify == 0 || FitsColumn(columns, rows, widths, k)
  {
    hide Start, Slack, Room;
    HalfAtMost(columns[k / rows], widths[k], s.justify);
    if s.justify > 0 {
      SlackExactly(columns[k / rows], widths[k], s.justify);
    }
  }

  lemma {:induction false} NarrowColumns(widths: seq<nat>, rows: nat, j: nat, limit: nat)
    requires rows > 0 && limit > MIN_COLUMN_WIDTH && forall k :: 0 <= k < |widths| ==> widths[k] < limit
    ensures ColumnWidth(widths, rows, j) < limit
  {
    if widths != [] {
      NarrowColumns(widths[..|widths| - 1], rows, j, limit);
    }
  }

  /** Items that are not to start at the left miss their column exactly when one comes after a narrower one that is
      already too wide for the line. */
  lemma InColumnsExactly(s: Settings, columns: seq<nat>, widths: seq<nat>)
    requires s.Sane() && widths != [] && columns != [] && Rows(|widths|, |columns|) > 0 && AsTaken(s, widths, columns)
    requires |columns| > 1 ==> Fits(s, widths, |columns|)
    requires Laid(s, columns, Rows(|widths|, |columns|), widths)
    requires Small(widths)
    ensures InColumns(s, columns, Rows(|widths|, |columns|), widths) <==> s.justify == 0 || NoneWider(s, widths)
  {
    hide InColumn, NoneWider, AsTaken, Fits, FitsColumn, Rows, Laid;
    var rows := Rows(|widths|, |columns|);
    ColumnsNarrow(s, columns, widths);
    WideItems(s, columns, widths);
    LaidItems(s, columns, rows, widths);
    forall k | 0 <= k < |widths|
      ensures k / rows < |columns|
      ensures InColumn(s, columns, rows, widths, k) <==> s.justify == 0 || FitsColumn(columns, rows, widths, k)
    {
      InColumnWhen(s, columns, rows, widths, k);
    }
  }

  lemma ColumnsNarrow(s: Settings, columns: seq<nat>, widths: seq<nat>)
    requires s.Sane() && widths != [] && columns != [] && Rows(|widths|, |columns|) > 0 && AsTaken(s, widths, columns)
    requires Small(widths)
    ensures forall j :: 0 <= j < |columns| ==> columns[j] < WORD / 4
  {
    hide Taken, ColumnWidth, Rows;
    var rows, cols := Rows(|widths|, |columns|), |columns|;
    var n := Taken(widths, rows, cols, s.Available() - (cols - 1) * s.between);
    forall j | 0 <= j < |columns|
      ensures columns[j] < WORD / 4
    {
      NarrowColumns(widths[..n], rows, j, WORD / 4);
    }
  }

  /** Whether every item fits its column. */
  lemma WideItems(s: Settings, columns: seq<nat>, widths: seq<nat>)
    requires s.Sane() && widths != [] && columns != [] && Rows(|widths|, |columns|) > 0 && AsTaken(s, widths, columns)
    requires |columns| > 1 ==> Fits(s, widths, |columns|)
    requires Laid(s, columns, Rows(|widths|, |columns|), widths)
    ensures var rows := Rows(|widths|, |columns|);
      (forall k :: 0 <= k < |widths| ==> FitsColumn(columns, rows, widths, k)) <==> NoneWider(s, widths)
  {
    hide NoneWider, AsTaken, Fits, Laid, FitsColumn;
    if |columns| == 1 {
      OneColumnHolds(s, widths, columns);
      assert Rows(|widths|, 1) == |widths|;
      forall k | 0 <= k < |widths|
        ensures FitsColumn(columns, |widths|, widths, k) <==> widths[k] <= columns[0]
      {
        FitsFirst(columns, widths, k);
      }
    } else {
      hide Rows;
      var rows := Rows(|widths|, |columns|);
      LaidItems(s, columns, rows, widths);
      NoWideItem(s, widths, |columns|);
      forall k | 0 <= k < |widths|
        ensures FitsColumn(columns, rows, widths, k)
      {
        assert FitsColumn(columns, rows, widths, k) by { AsLaid(columns, rows, widths, k); }
      }
    }
  }

  lemma FitsFirst(columns: seq<nat>, widths: seq<nat>, k: nat)
    requires |columns| == 1 && k < |widths|
    ensures FitsColumn(columns, |widths|, widths, k) <==> widths[k] <= columns[0]
  {
    assert k / |widths| == 0;
  }

  lemma AsLaid(columns: seq<nat>, rows: nat, widths: seq<nat>, k: nat)
    requires rows > 0 && k < |widths| && k / rows < |columns| && widths[k] <= columns[k / rows]
    ensures FitsColumn(columns, rows, widths, k)
  {
  }

  /** With more columns than one there is no item too wide for the line. */
  lemma NoWideItem(s: Settings, widths: seq<nat>, cols: nat)
    requires s.Sane() && widths != [] && cols > 1 && Fits(s, widths, cols)
    ensures NoneWider(s, widths)
  {
    var rows := Rows(|widths|, cols);
    ColumnIndex(|widths|, cols, 0);
    forall k | 0 <= k < |widths|
      ensures widths[k] <= s.Available()
    {
      ColumnIndex(|widths|, cols, k);
      ItemFits(widths, rows, k);
      ColumnInTotal(widths, rows, k / rows, cols);
      MoreTimes(0, cols - 1, s.between);
    }
  }

  lemma {:induction false} ColumnInTotal(widths: seq<nat>, rows: nat, j: nat, m: nat)
    requires rows > 0 && j < m
    ensures ColumnWidth(widths, rows, j) <= TotalWidth(widths, rows, m)
  {
    if j < m - 1 {
      ColumnInTotal(widths, rows, j, m - 1);
    }
  }

  /** The number of rows, of which the last may be short. */
  method RowCount(n: nat, cols: nat) returns (rows: nat)
    requires 0 < cols && 0 < n
    ensures rows == Rows(n, cols) <= n
  {
    RowsRounded(n, cols);
    rows := n / cols + (if n % cols != 0 then 1 else 0);
    assert rows <= n by {
      hide Rows;
      Euclid(n, cols);
      MoreTimes(1, cols, n / cols);
    }
  }

  lemma Chosen(s: Settings, widths: seq<nat>, columns: seq<nat>)
    requires s.Sane() && widths != [] && columns != [] && Rows(|widths|, |columns|) > 0 && AsTaken(s, widths, columns)
    requires |columns| > 1 ==> Fits(s, widths, |columns|)
    ensures var rows := Rows(|widths|, |columns|);
      && Laid(s, columns, rows, widths)
      && (Small(widths) ==> (InColumns(s, columns, rows, widths) <==> s.justify == 0 || NoneWider(s, widths)))
  {
    hide Settings.Sane, Laid, Rows, Fits, NoneWider, InColumns, AsTaken;
    if |columns| == 1 {
      OneColumn(s, widths, columns);
    } else {
      AllTaken(s, widths, columns);
      ColumnsHold(s, widths, |columns|, columns);
    }
    if Small(widths) {
      InColumnsExactly(s, columns, widths);
    }
  }

  /** A listing: as many columns as fit, and each item once, in its place; in its column, unless it is not to start at
      the left and one comes before it that is narrower but too wide for the line. */
  method FprintVertical(s: Settings, widths: seq<nat>) returns (out: seq<Out>, cols: nat, ghost columns: seq<nat>)
    requires s.Sane() && widths != []
    ensures 1 <= cols <= |widths| && cols <= s.MostColumns() && (cols > 1 ==> Fits(s, widths, cols))
    ensures forall c :: cols < c <= s.MostColumns() && c <= |widths| ==> !Fits(s, widths, c)
    ensures var rows := Rows(|widths|, cols);
      && Laid(s, columns, rows, widths)
      && TypeAll(s.tabsize, widths, Screen(0, 0, []), out) == Screen(rows, 0, AllPlaced(s, columns, rows, widths, rows))
      && (Small(widths) ==> (InColumns(s, columns, rows, widths) <==> s.justify == 0 || NoneWider(s, widths)))
  {
    hide Settings.Sane, TotalWidth, ColumnWidth, TypeAll, Laid, Rows, Fits, AllPlaced, Settings.MostColumns;
    hide NoneWider, InColumns, AsTaken, Small;
    var format;
    cols, format := VerticalFormat(s, widths);
    var rows := RowCount(|widths|, cols);
    columns := format;
    Chosen(s, widths, columns);
    out := PrintVertical(s, format, widths, rows);
  }
}
