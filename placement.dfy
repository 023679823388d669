/**
 * Placement of buttons into grid rows: the cells of one row (addRow), the
 * fixed template of common rows (setupLayout4ColsNew) and the rows the
 * remaining buttons are packed into (addUncommonRows).
 *
 * A placement state holds the buttons still in the remote, the buttons
 * already moved to the organized list and the row counter. Placing a
 * button gives it a position and moves it from the first list to the end
 * of the second.
 */
module Placement {
  import opened Buttons
  import opened Geometry

  datatype Layout = Layout(remaining: seq<Button>, organized: seq<Button>, row: int)

  // Remote types (Remote.TYPE_*). Remote.java is not part of this model:
  // placeholder values, relied on only to be distinct.
  const TYPE_TV: int := 0
  const TYPE_CABLE: int := 1
  const TYPE_BLURAY: int := 2

  /** `b` at column `col` of row `row`. */
  function Place(b: Button, g: Grid, col: int, row: int): Button
  {
    b.(x := CellX(g, col), y := RowY(g, row))
  }

  /** One cell of a row: addRow's body for one non-padding cell. */
  function PlaceCell(s: Layout, g: Grid, id: int, col: int): (r: Layout)
    ensures r.row == s.row
  {
    if id == ID_NONE then s
    else match FindId(s.remaining, id)
      case None => s
      case Some(k) => Layout(Remove(s.remaining, k), s.organized + [Place(s.remaining[k], g, col, s.row)], s.row)
  }

  /**
   * A cell changes nothing exactly when its identifier is 0 or no
   * remaining button carries it; otherwise one button leaves the remaining
   * list and is appended to the organized list, carrying that identifier,
   * at the cell's column of the current row.
   */
  lemma PlaceCellSpec(s: Layout, g: Grid, id: int, col: int)
    ensures var r := PlaceCell(s, g, id, col);
      (r == s <==> (id == ID_NONE || forall j :: 0 <= j < |s.remaining| ==> s.remaining[j].id != id)) &&
      (r != s ==>
        |r.remaining| + 1 == |s.remaining| && |r.organized| == |s.organized| + 1 &&
        r.organized[..|s.organized|] == s.organized &&
        r.organized[|s.organized|].id == id &&
        r.organized[|s.organized|].x == CellX(g, col) && r.organized[|s.organized|].y == RowY(g, s.row))
  {
    FindIdSpec(s.remaining, id);
    if id != ID_NONE && FindId(s.remaining, id).Some? {
      var r := PlaceCell(s, g, id, col);
      assert |r.organized| != |s.organized|;
    }
  }

  /** The number of cells addRow looks at: min(ids.length, cols), none when that is negative. */
  function CellCount(ids: seq<int>, cols: int): (n: nat)
    ensures n <= |ids|
  {
    if cols <= 0 then 0 else if |ids| < cols then |ids| else cols
  }

  /** The first `n` cells of a row, left to right. */
  function PlaceCells(s: Layout, g: Grid, ids: seq<int>, n: nat): Layout
    requires n <= |ids|
    decreases n
  {
    if n == 0 then s else PlaceCell(PlaceCells(s, g, ids, n - 1), g, ids[n - 1], n - 1)
  }

  /** addRow: the row's first CellCount cells, then the row counter moves on by one. */
  function PlaceRow(s: Layout, g: Grid, ids: seq<int>): Layout
  {
    var t := PlaceCells(s, g, ids, CellCount(ids, g.cols));
    t.(row := s.row + 1)
  }

  /** A sequence of rows, top to bottom. */
  function PlaceRows(s: Layout, g: Grid, rows: seq<seq<int>>): Layout
    decreases |rows|
  {
    if |rows| == 0 then s else PlaceRow(PlaceRows(s, g, rows[..|rows| - 1]), g, rows[|rows| - 1])
  }

  /** One more row: the rows up to `k`, then row `k`. */
  lemma PlaceRowsSnoc(s: Layout, g: Grid, rows: seq<seq<int>>, k: nat)
    requires k < |rows|
    ensures PlaceRows(s, g, rows[..k + 1]) == PlaceRow(PlaceRows(s, g, rows[..k]), g, rows[k])
  {
    assert rows[..k + 1][..k] == rows[..k];
  }

  /** Placing `a + b` is placing `a`, then `b`. */
  lemma {:induction false} PlaceRowsConcat(s: Layout, g: Grid, a: seq<seq<int>>, b: seq<seq<int>>)
    ensures PlaceRows(s, g, a + b) == PlaceRows(PlaceRows(s, g, a), g, b)
    decreases |b|
  {
    if |b| == 0 {
      assert a + b == a;
    } else {
      assert (a + b)[..|a + b| - 1] == a + b[..|b| - 1];
      PlaceRowsConcat(s, g, a, b[..|b| - 1]);
    }
  }

  // ---------------------------------------------------------------------
  // The template of common rows

  const BaseRows: seq<seq<int>> := [
    [ID_POWER, ID_NONE, ID_NAV_UP, ID_NONE],
    [ID_VOL_UP, ID_NAV_LEFT, ID_NAV_OK, ID_NAV_RIGHT],
    [ID_VOL_DOWN, ID_NONE, ID_NAV_DOWN, ID_NONE],
    [ID_MUTE, ID_DIGIT_1, ID_DIGIT_2, ID_DIGIT_3],
    [ID_CH_UP, ID_DIGIT_4, ID_DIGIT_5, ID_DIGIT_6],
    [ID_CH_DOWN, ID_DIGIT_7, ID_DIGIT_8, ID_DIGIT_9],
    [ID_MENU, ID_NONE, ID_DIGIT_0, ID_NONE]
  ]

  const MediaRows: seq<seq<int>> := [
    [ID_RWD, ID_PLAY, ID_FFWD, ID_REC],
    [ID_PREV, ID_PAUSE, ID_NEXT, ID_STOP]
  ]

  /** Only cable and blu-ray remotes get the two media rows. */
  predicate HasMediaRows(remoteType: int)
  {
    remoteType == TYPE_CABLE || remoteType == TYPE_BLURAY
  }

  function TemplateRows(remoteType: int): seq<seq<int>>
  {
    if HasMediaRows(remoteType) then BaseRows + MediaRows else BaseRows
  }

  // ---------------------------------------------------------------------
  // The rows of the remaining buttons

  /** The row of `cols` identifiers starting at `start`, padded with 0 past the end. */
  function PaddedRow(ids: seq<int>, start: int, cols: nat): seq<int>
  {
    seq(cols, j requires 0 <= j < cols => if 0 <= start + j < |ids| then ids[start + j] else ID_NONE)
  }

  /** ceil(n / cols): the rows addUncommonRows issues for `n` identifiers. */
  function RowCount(n: nat, cols: int): (r: nat)
    requires cols > 0
    ensures (r - 1) * cols < n <= r * cols
  {
    (n + cols - 1) / cols
  }

  /**
   * A loop that starts a row at every multiple of `cols` below `n` runs
   * exactly RowCount(n, cols) times: a multiple below `n` starts a row that
   * exists, and the first multiple at or past `n` ends the rows.
   */
  lemma RowCountBounds(n: nat, cols: int, k: nat)
    requires cols > 0
    ensures k * cols < n ==> k < RowCount(n, cols)
    ensures k * cols >= n && k <= RowCount(n, cols) ==> k == RowCount(n, cols)
  {
    var r := RowCount(n, cols);
    if k * cols < n && k >= r {
      MulMonotone(r, k, cols);
    }
    if k * cols >= n && k < r {
      MulMonotone(k, r - 1, cols);
    }
  }

  lemma NextRowStart(k: int, cols: int)
    ensures (k + 1) * cols == k * cols + cols
  {
  }

  lemma MulMonotone(a: int, b: int, c: int)
    requires a <= b && c > 0
    ensures a * c <= b * c
  {
    assert b * c - a * c == (b - a) * c;
  }

  /** The rows addUncommonRows builds from the remaining identifiers. */
  function Chunks(ids: seq<int>, cols: int): seq<seq<int>>
    requires cols > 0
  {
    seq(RowCount(|ids|, cols), r requires 0 <= r < RowCount(|ids|, cols) => PaddedRow(ids, r * cols, cols))
  }

  function UncommonPass(s: Layout, g: Grid): Layout
    requires g.cols > 0
  {
    PlaceRows(s, g, Chunks(Ids(s.remaining), g.cols))
  }

  /**
   * Reference placement of the remaining buttons: the `j`-th of them,
   * unless its identifier is 0, goes to column `j % cols` of row
   * `row0 + j / cols`, in list order.
   */
  function Spread(bs: seq<Button>, g: Grid, row0: int, m: nat): seq<Button>
    requires g.cols > 0 && m <= |bs|
    decreases m
  {
    if m == 0 then []
    else
      var j := m - 1;
      var cell := if bs[j].id != ID_NONE then [Place(bs[j], g, j % g.cols, row0 + j / g.cols)] else [];
      Spread(bs, g, row0, j) + cell
  }

  // ---------------------------------------------------------------------
  // The position pass

  /** setupLayout4ColsNew on a placement state: the template rows, then the remaining buttons. */
  function PositionPass(s: Layout, g: Grid, remoteType: int): Layout
    requires g.cols > 0
  {
    UncommonPass(PlaceRows(s, g, TemplateRows(remoteType)), g)
  }

  /** The remote's list after setupPosition: what is left, followed by the organized list. */
  function Merged(l: Layout): seq<Button>
  {
    l.remaining + l.organized
  }

  // ---------------------------------------------------------------------
  // What placing rows preserves

  /** The buttons of a state with their positions forgotten, as a multiset. */
  function Contents(l: Layout): multiset<Button>
  {
    multiset(UnplacedAll(Merged(l)))
  }

  /** `b` sits in one of the first `n` cells of a row and that cell names its identifier. */
  ghost predicate InRowCell(b: Button, g: Grid, ids: seq<int>, n: nat, row: int)
  {
    exists c :: 0 <= c < n && c < |ids| && ids[c] == b.id && b.x == CellX(g, c) && b.y == RowY(g, row)
  }

  /** `b` sits in a cell of `rows`, counted from `row0`, and that cell names its identifier. */
  ghost predicate InTemplateCell(b: Button, g: Grid, rows: seq<seq<int>>, row0: int)
  {
    exists i, c :: 0 <= i < |rows| && 0 <= c < |rows[i]| && c < g.cols &&
      rows[i][c] == b.id && b.x == CellX(g, c) && b.y == RowY(g, row0 + i)
  }

  /**
   * Placing a cell moves a button without changing anything but its
   * position, and never moves a button whose identifier is 0.
   */
  lemma PlaceCellFacts(s: Layout, g: Grid, id: int, col: int)
    ensures Contents(PlaceCell(s, g, id, col)) == Contents(s)
    ensures WithId(PlaceCell(s, g, id, col).remaining, ID_NONE) == WithId(s.remaining, ID_NONE)
  {
    if id != ID_NONE && FindId(s.remaining, id).Some? {
      var k := FindId(s.remaining, id).value;
      var b := s.remaining[k];
      var rest := Remove(s.remaining, k);
      RemoveMultiset(s.remaining, k);
      WithIdRemove(s.remaining, k, ID_NONE);
      UnplacedAllAppend(rest, s.organized + [Place(b, g, col, s.row)]);
      UnplacedAllAppend(s.organized, [Place(b, g, col, s.row)]);
      UnplacedAllAppend(s.remaining, s.organized);
      assert Unplaced(Place(b, g, col, s.row)) == Unplaced(b);
    }
  }

  /**
   * From `s` to `r` buttons are only moved: as many buttons as before,
   * the organized list extended at its end, the same buttons up to their
   * positions, and the id-0 buttons still in the remote in their order.
   */
  predicate Moves(s: Layout, r: Layout)
  {
    |r.remaining| + |r.organized| == |s.remaining| + |s.organized| &&
    |r.organized| >= |s.organized| && r.organized[..|s.organized|] == s.organized &&
    Contents(r) == Contents(s) && WithId(r.remaining, ID_NONE) == WithId(s.remaining, ID_NONE)
  }

  lemma MovesTrans(a: Layout, b: Layout, c: Layout)
    requires Moves(a, b) && Moves(b, c)
    ensures Moves(a, c)
  {
    assert c.organized[..|a.organized|] == c.organized[..|b.organized|][..|a.organized|];
  }

  lemma PlaceCellMoves(s: Layout, g: Grid, id: int, col: int)
    ensures Moves(s, PlaceCell(s, g, id, col))
  {
    PlaceCellFacts(s, g, id, col);
    PlaceCellSpec(s, g, id, col);
  }

  /** The first `n` cells keep the row and only move buttons. */
  lemma {:induction false} PlaceCellsKeeps(s: Layout, g: Grid, ids: seq<int>, n: nat)
    requires n <= |ids|
    ensures PlaceCells(s, g, ids, n).row == s.row && Moves(s, PlaceCells(s, g, ids, n))
    decreases n
  {
    if n > 0 {
      PlaceCellsKeeps(s, g, ids, n - 1);
      var p := PlaceCells(s, g, ids, n - 1);
      PlaceCellMoves(p, g, ids[n - 1], n - 1);
      MovesTrans(s, p, PlaceCell(p, g, ids[n - 1], n - 1));
    }
  }

  /** Each button the first `n` cells organize has a non-zero identifier and sits in the cell naming it. */
  lemma {:induction false} PlaceCellsCells(s: Layout, g: Grid, ids: seq<int>, n: nat)
    requires n <= |ids|
    ensures var r := PlaceCells(s, g, ids, n);
      |r.organized| >= |s.organized| &&
      forall j :: |s.organized| <= j < |r.organized| ==>
        r.organized[j].id != ID_NONE && InRowCell(r.organized[j], g, ids, n, s.row)
    decreases n
  {
    if n > 0 {
      PlaceCellsCells(s, g, ids, n - 1);
      PlaceCellsKeeps(s, g, ids, n - 1);
      var p := PlaceCells(s, g, ids, n - 1);
      var r := PlaceCell(p, g, ids[n - 1], n - 1);
      PlaceCellSpec(p, g, ids[n - 1], n - 1);
      forall j | |s.organized| <= j < |r.organized|
        ensures r.organized[j].id != ID_NONE && InRowCell(r.organized[j], g, ids, n, s.row)
      {
        if j < |p.organized| {
          assert r.organized[j] == p.organized[j];
          var c :| 0 <= c < n - 1 && c < |ids| && ids[c] == p.organized[j].id &&
            p.organized[j].x == CellX(g, c) && p.organized[j].y == RowY(g, s.row);
        } else {
          assert r != p;
        }
      }
    }
  }

  /**
   * addRow: the row counter moves on by exactly one, the organized list
   * only grows at its end, every newly organized button has a non-zero
   * identifier and sits in one of the first min(|ids|, cols) cells, in the
   * cell that names it, and the buttons are the same buttons as before,
   * only moved.
   */
  lemma PlaceRowFacts(s: Layout, g: Grid, ids: seq<int>)
    ensures var r := PlaceRow(s, g, ids);
      r.row == s.row + 1 &&
      |r.organized| >= |s.organized| && r.organized[..|s.organized|] == s.organized &&
      (forall j :: |s.organized| <= j < |r.organized| ==>
         r.organized[j].id != ID_NONE && InRowCell(r.organized[j], g, ids, CellCount(ids, g.cols), s.row)) &&
      Contents(r) == Contents(s) && WithId(r.remaining, ID_NONE) == WithId(s.remaining, ID_NONE)
  {
    PlaceCellsKeeps(s, g, ids, CellCount(ids, g.cols));
    PlaceCellsCells(s, g, ids, CellCount(ids, g.cols));
  }

  /** Cells past min(|ids|, cols) are never looked at. */
  lemma PlaceRowIgnoresExtraCells(s: Layout, g: Grid, ids: seq<int>, extra: seq<int>)
    requires |ids| >= g.cols
    ensures PlaceRow(s, g, ids + extra) == PlaceRow(s, g, ids)
  {
    var n := CellCount(ids, g.cols);
    assert CellCount(ids + extra, g.cols) == n;
    PlaceCellsPrefix(s, g, ids, ids + extra, n);
  }

  lemma {:induction false} PlaceCellsPrefix(s: Layout, g: Grid, a: seq<int>, b: seq<int>, n: nat)
    requires n <= |a| && n <= |b| && a[..n] == b[..n]
    ensures PlaceCells(s, g, a, n) == PlaceCells(s, g, b, n)
    decreases n
  {
    if n > 0 {
      assert a[n - 1] == a[..n][n - 1] == b[..n][n - 1] == b[n - 1];
      assert a[..n - 1] == b[..n - 1];
      PlaceCellsPrefix(s, g, a, b, n - 1);
    }
  }

  /** A sequence of rows moves the counter on by one per row and only moves buttons. */
  lemma {:induction false} PlaceRowsKeeps(s: Layout, g: Grid, rows: seq<seq<int>>)
    ensures PlaceRows(s, g, rows).row == s.row + |rows| && Moves(s, PlaceRows(s, g, rows))
    decreases |rows|
  {
    if |rows| > 0 {
      var last := |rows| - 1;
      PlaceRowsKeeps(s, g, rows[..last]);
      var p := PlaceRows(s, g, rows[..last]);
      PlaceCellsKeeps(p, g, rows[last], CellCount(rows[last], g.cols));
      MovesTrans(s, p, PlaceRows(s, g, rows));
    }
  }

  /** Each button a sequence of rows organizes has a non-zero identifier and sits in the cell naming it. */
  lemma {:induction false} PlaceRowsCells(s: Layout, g: Grid, rows: seq<seq<int>>)
    ensures var r := PlaceRows(s, g, rows);
      |r.organized| >= |s.organized| &&
      forall j :: |s.organized| <= j < |r.organized| ==>
        r.organized[j].id != ID_NONE && InTemplateCell(r.organized[j], g, rows, s.row)
    decreases |rows|
  {
    if |rows| > 0 {
      var last := |rows| - 1;
      PlaceRowsCells(s, g, rows[..last]);
      PlaceRowsKeeps(s, g, rows[..last]);
      var p := PlaceRows(s, g, rows[..last]);
      var r := PlaceRow(p, g, rows[last]);
      PlaceCellsKeeps(p, g, rows[last], CellCount(rows[last], g.cols));
      PlaceCellsCells(p, g, rows[last], CellCount(rows[last], g.cols));
      forall j | |s.organized| <= j < |r.organized|
        ensures r.organized[j].id != ID_NONE && InTemplateCell(r.organized[j], g, rows, s.row)
      {
        if j < |p.organized| {
          assert r.organized[j] == p.organized[j];
          InTemplateCellPrefix(p.organized[j], g, rows, last, s.row);
        } else {
          InRowCellInTemplate(r.organized[j], g, rows, last, s.row);
        }
      }
    }
  }

  lemma InTemplateCellPrefix(b: Button, g: Grid, rows: seq<seq<int>>, k: nat, row0: int)
    requires k <= |rows| && InTemplateCell(b, g, rows[..k], row0)
    ensures InTemplateCell(b, g, rows, row0)
  {
    var i, c :| 0 <= i < k && 0 <= c < |rows[..k][i]| && c < g.cols &&
      rows[..k][i][c] == b.id && b.x == CellX(g, c) && b.y == RowY(g, row0 + i);
    assert rows[i] == rows[..k][i];
  }

  lemma InRowCellInTemplate(b: Button, g: Grid, rows: seq<seq<int>>, k: nat, row0: int)
    requires k < |rows| && InRowCell(b, g, rows[k], CellCount(rows[k], g.cols), row0 + k)
    ensures InTemplateCell(b, g, rows, row0)
  {
    var c :| 0 <= c < CellCount(rows[k], g.cols) && c < |rows[k]| && rows[k][c] == b.id &&
      b.x == CellX(g, c) && b.y == RowY(g, row0 + k);
    assert c < g.cols;
  }

  /**
   * A sequence of rows: the counter moves on by the number of rows, every
   * newly organized button sits in the cell of the row that names it, and
   * no button is lost, duplicated or altered beyond its position.
   */
  lemma PlaceRowsFacts(s: Layout, g: Grid, rows: seq<seq<int>>)
    ensures var r := PlaceRows(s, g, rows);
      r.row == s.row + |rows| &&
      |r.organized| >= |s.organized| && r.organized[..|s.organized|] == s.organized &&
      (forall j :: |s.organized| <= j < |r.organized| ==>
         r.organized[j].id != ID_NONE && InTemplateCell(r.organized[j], g, rows, s.row)) &&
      Contents(r) == Contents(s) && WithId(r.remaining, ID_NONE) == WithId(s.remaining, ID_NONE)
  {
    PlaceRowsKeeps(s, g, rows);
    PlaceRowsCells(s, g, rows);
  }

  /** The template has 7 rows, and 9 exactly for cable and blu-ray remotes. */
  lemma TemplateRowCount(s: Layout, g: Grid, remoteType: int)
    ensures PlaceRows(s, g, TemplateRows(remoteType)).row == s.row + (if HasMediaRows(remoteType) then 9 else 7)
  {
    PlaceRowsKeeps(s, g, TemplateRows(remoteType));
  }

  // ---------------------------------------------------------------------
  // Which buttons the template takes

  /**
   * A cell naming another identifier leaves the buttons carrying `id`
   * as they were; a cell naming a non-zero `id` takes the first of them,
   * if there is one, to that cell and leaves the others in their order.
   */
  lemma PlaceCellById(s: Layout, g: Grid, cellId: int, col: int, id: int)
    ensures var r := PlaceCell(s, g, cellId, col); var w := WithId(s.remaining, id);
      (cellId != id ==> WithId(r.remaining, id) == w) &&
      (cellId == id && id != ID_NONE && |w| > 0 ==>
         r.organized == s.organized + [Place(w[0], g, col, s.row)] && WithId(r.remaining, id) == w[1..]) &&
      (cellId == id && |w| == 0 ==> WithId(r.remaining, id) == [])
  {
    FindIdFirst(s.remaining, cellId);
    if cellId != ID_NONE && FindId(s.remaining, cellId).Some? && cellId != id {
      WithIdRemove(s.remaining, FindId(s.remaining, cellId).value, id);
    }
  }

  /** The organized list of `r` is that of `s`, extended at its end. */
  predicate Extends(s: Layout, r: Layout)
  {
    |r.organized| >= |s.organized| && r.organized[..|s.organized|] == s.organized
  }

  lemma ExtendsTrans(a: Layout, b: Layout, c: Layout)
    requires Extends(a, b) && Extends(b, c)
    ensures Extends(a, c)
  {
    assert c.organized[..|a.organized|] == c.organized[..|b.organized|][..|a.organized|];
  }

  /** Cells `m` to `n` of a row, none naming `id`, leave the buttons carrying `id` as they were. */
  lemma {:induction false} PlaceCellsSkip(s: Layout, g: Grid, ids: seq<int>, m: nat, n: nat, id: int)
    requires m <= n <= |ids|
    requires forall c :: m <= c < n ==> ids[c] != id
    ensures WithId(PlaceCells(s, g, ids, n).remaining, id) == WithId(PlaceCells(s, g, ids, m).remaining, id)
    decreases n
  {
    if n > m {
      PlaceCellsSkip(s, g, ids, m, n - 1, id);
      var p := PlaceCells(s, g, ids, n - 1);
      assert PlaceCells(s, g, ids, n) == PlaceCell(p, g, ids[n - 1], n - 1);
      PlaceCellById(p, g, ids[n - 1], n - 1, id);
    }
  }

  /** Cells `m` to `n` of a row only extend the organized list. */
  lemma {:induction false} PlaceCellsGrow(s: Layout, g: Grid, ids: seq<int>, m: nat, n: nat)
    requires m <= n <= |ids|
    ensures Extends(PlaceCells(s, g, ids, m), PlaceCells(s, g, ids, n))
    decreases n
  {
    if n > m {
      PlaceCellsGrow(s, g, ids, m, n - 1);
      var p := PlaceCells(s, g, ids, n - 1);
      assert PlaceCells(s, g, ids, n) == PlaceCell(p, g, ids[n - 1], n - 1);
      PlaceCellSpec(p, g, ids[n - 1], n - 1);
      ExtendsTrans(PlaceCells(s, g, ids, m), p, PlaceCells(s, g, ids, n));
    } else {
      assert PlaceCells(s, g, ids, m).organized[..|PlaceCells(s, g, ids, m).organized|] == PlaceCells(s, g, ids, m).organized;
    }
  }

  /** Rows `m` to `n`, none naming `id`, leave the buttons carrying `id` as they were. */
  lemma {:induction false} PlaceRowsSkip(s: Layout, g: Grid, rows: seq<seq<int>>, m: nat, n: nat, id: int)
    requires m <= n <= |rows|
    requires forall i, c :: m <= i < n && 0 <= c < |rows[i]| ==> rows[i][c] != id
    ensures WithId(PlaceRows(s, g, rows[..n]).remaining, id) == WithId(PlaceRows(s, g, rows[..m]).remaining, id)
    ensures Extends(PlaceRows(s, g, rows[..m]), PlaceRows(s, g, rows[..n]))
    decreases n
  {
    if n > m {
      PlaceRowsSkip(s, g, rows, m, n - 1, id);
      PlaceRowsSnoc(s, g, rows, n - 1);
      var p := PlaceRows(s, g, rows[..n - 1]);
      var k := CellCount(rows[n - 1], g.cols);
      PlaceCellsSkip(p, g, rows[n - 1], 0, k, id);
      PlaceCellsGrow(p, g, rows[n - 1], 0, k);
      ExtendsTrans(PlaceRows(s, g, rows[..m]), p, PlaceRows(s, g, rows[..n]));
    } else {
      assert PlaceRows(s, g, rows[..m]).organized[..|PlaceRows(s, g, rows[..m]).organized|] == PlaceRows(s, g, rows[..m]).organized;
    }
  }

  /**
   * A row of four cells in which only cell `c` names `id` takes the first
   * button carrying `id` to column `c` of the current row and leaves the
   * other buttons carrying `id` in the remote.
   */
  lemma PlaceRowById(s: Layout, g: Grid, ids: seq<int>, c: nat, id: int)
    requires g.cols >= 4 && |ids| == 4 && c < 4 && ids[c] == id && id != ID_NONE
    requires forall c2 :: 0 <= c2 < 4 && c2 != c ==> ids[c2] != id
    ensures var r := PlaceRow(s, g, ids); var w := WithId(s.remaining, id);
      (|w| > 0 ==> Place(w[0], g, c, s.row) in r.organized && WithId(r.remaining, id) == w[1..]) &&
      (|w| == 0 ==> WithId(r.remaining, id) == [])
  {
    assert CellCount(ids, g.cols) == 4;
    PlaceCellsSkip(s, g, ids, 0, c, id);
    PlaceCellsKeeps(s, g, ids, c);
    var q := PlaceCells(s, g, ids, c);
    PlaceCellById(q, g, id, c, id);
    PlaceCellsSkip(s, g, ids, c + 1, 4, id);
    PlaceCellsGrow(s, g, ids, c + 1, 4);
    var q1 := PlaceCells(s, g, ids, c + 1);
    var r := PlaceCells(s, g, ids, 4);
    if |WithId(s.remaining, id)| > 0 {
      assert q1.organized[|q.organized|] == Place(WithId(s.remaining, id)[0], g, c, s.row);
      assert r.organized[|q.organized|] == q1.organized[|q.organized|];
    }
  }

  /**
   * Where the full template puts each identifier, as (row, column). Every
   * identifier it names appears in one cell only.
   */
  function TemplatePosition(id: int): Option<(nat, nat)>
  {
    if id == ID_POWER then Some((0, 0)) else if id == ID_NAV_UP then Some((0, 2))
    else if id == ID_VOL_UP then Some((1, 0)) else if id == ID_NAV_LEFT then Some((1, 1))
    else if id == ID_NAV_OK then Some((1, 2)) else if id == ID_NAV_RIGHT then Some((1, 3))
    else if id == ID_VOL_DOWN then Some((2, 0)) else if id == ID_NAV_DOWN then Some((2, 2))
    else if id == ID_MUTE then Some((3, 0)) else if id == ID_DIGIT_1 then Some((3, 1))
    else if id == ID_DIGIT_2 then Some((3, 2)) else if id == ID_DIGIT_3 then Some((3, 3))
    else if id == ID_CH_UP then Some((4, 0)) else if id == ID_DIGIT_4 then Some((4, 1))
    else if id == ID_DIGIT_5 then Some((4, 2)) else if id == ID_DIGIT_6 then Some((4, 3))
    else if id == ID_CH_DOWN then Some((5, 0)) else if id == ID_DIGIT_7 then Some((5, 1))
    else if id == ID_DIGIT_8 then Some((5, 2)) else if id == ID_DIGIT_9 then Some((5, 3))
    else if id == ID_MENU then Some((6, 0)) else if id == ID_DIGIT_0 then Some((6, 2))
    else if id == ID_RWD then Some((7, 0)) else if id == ID_PLAY then Some((7, 1))
    else if id == ID_FFWD then Some((7, 2)) else if id == ID_REC then Some((7, 3))
    else if id == ID_PREV then Some((8, 0)) else if id == ID_PAUSE then Some((8, 1))
    else if id == ID_NEXT then Some((8, 2)) else if id == ID_STOP then Some((8, 3))
    else None
  }

  /** Every non-zero cell of the template is the one TemplatePosition gives for its identifier. */
  lemma TemplatePositionAgrees(remoteType: int, i: nat, c: nat)
    requires i < |TemplateRows(remoteType)| && c < |TemplateRows(remoteType)[i]|
    ensures |TemplateRows(remoteType)[i]| == 4
    ensures TemplateRows(remoteType)[i][c] != ID_NONE ==>
      TemplatePosition(TemplateRows(remoteType)[i][c]) == Some((i, c))
  {
    assert TemplateRows(remoteType)[i] == (BaseRows + MediaRows)[i];
  }

  /** The template names each non-zero identifier in one cell only. */
  lemma TemplateIdsUnique(remoteType: int, i: nat, c: nat)
    requires i < |TemplateRows(remoteType)| && c < |TemplateRows(remoteType)[i]|
    requires TemplateRows(remoteType)[i][c] != ID_NONE
    ensures forall i2, c2 ::
      0 <= i2 < |TemplateRows(remoteType)| && 0 <= c2 < |TemplateRows(remoteType)[i2]| &&
      TemplateRows(remoteType)[i2][c2] == TemplateRows(remoteType)[i][c]
      ==> i2 == i && c2 == c
  {
    TemplatePositionAgrees(remoteType, i, c);
    forall i2, c2 | 0 <= i2 < |TemplateRows(remoteType)| && 0 <= c2 < |TemplateRows(remoteType)[i2]| &&
      TemplateRows(remoteType)[i2][c2] == TemplateRows(remoteType)[i][c]
      ensures i2 == i && c2 == c
    {
      TemplatePositionAgrees(remoteType, i2, c2);
    }
  }

  /**
   * The template takes, for each identifier it names, the first button of
   * the remote carrying it to the cell naming it; the other buttons carrying
   * that identifier stay in the remote, in their order.
   */
  lemma TemplateTakesFirstMatch(s: Layout, g: Grid, remoteType: int, i: nat, c: nat)
    requires g.cols >= 4
    requires i < |TemplateRows(remoteType)| && c < |TemplateRows(remoteType)[i]|
    requires TemplateRows(remoteType)[i][c] != ID_NONE
    ensures var id := TemplateRows(remoteType)[i][c];
      var t := PlaceRows(s, g, TemplateRows(remoteType));
      match FindId(s.remaining, id)
        case Some(k) =>
          Place(s.remaining[k], g, c, s.row + i) in t.organized &&
          WithId(t.remaining, id) == WithId(Remove(s.remaining, k), id)
        case None => WithId(t.remaining, id) == []
  {
    var rows := TemplateRows(remoteType);
    var id := rows[i][c];
    var w := WithId(s.remaining, id);
    TemplatePositionAgrees(remoteType, i, c);
    TemplateIdsUnique(remoteType, i, c);
    FindIdFirst(s.remaining, id);
    assert rows[..0] == [];
    PlaceRowsSkip(s, g, rows, 0, i, id);
    PlaceRowsKeeps(s, g, rows[..i]);
    var p := PlaceRows(s, g, rows[..i]);
    PlaceRowById(p, g, rows[i], c, id);
    PlaceRowsSnoc(s, g, rows, i);
    var q := PlaceRows(s, g, rows[..i + 1]);
    PlaceRowsSkip(s, g, rows, i + 1, |rows|, id);
    assert rows[..|rows|] == rows;
    var t := PlaceRows(s, g, rows);
    if |w| > 0 {
      var b := Place(w[0], g, c, s.row + i);
      assert b in q.organized;
      assert t.organized[..|q.organized|] == q.organized;
      assert b in t.organized;
    }
  }

  /** No two buttons of `bs` share a non-zero identifier. */
  predicate DistinctIds(bs: seq<Button>)
  {
    forall j, k :: 0 <= j < k < |bs| && bs[j].id != ID_NONE ==> bs[j].id != bs[k].id
  }

  /**
   * On a remote whose non-zero identifiers are distinct, the template
   * leaves no button carrying an identifier it names: each such button
   * has been organized.
   */
  lemma TemplateLeavesNoTemplateId(s: Layout, g: Grid, remoteType: int)
    requires g.cols >= 4 && DistinctIds(s.remaining)
    ensures var rows := TemplateRows(remoteType);
      var t := PlaceRows(s, g, rows);
      forall j, i, c :: 0 <= j < |t.remaining| && 0 <= i < |rows| && 0 <= c < |rows[i]| && rows[i][c] != ID_NONE ==>
        t.remaining[j].id != rows[i][c]
  {
    var rows := TemplateRows(remoteType);
    var t := PlaceRows(s, g, rows);
    forall j, i, c | 0 <= j < |t.remaining| && 0 <= i < |rows| && 0 <= c < |rows[i]| && rows[i][c] != ID_NONE
      ensures t.remaining[j].id != rows[i][c]
    {
      var id := rows[i][c];
      TemplateTakesFirstMatch(s, g, remoteType, i, c);
      if FindId(s.remaining, id).Some? {
        OnlyMatch(s.remaining, FindId(s.remaining, id).value);
      }
      WithIdEmpty(t.remaining, id);
    }
  }

  /** With distinct identifiers, no other button carries the identifier of a non-zero button `k`. */
  lemma OnlyMatch(bs: seq<Button>, k: nat)
    requires k < |bs| && bs[k].id != ID_NONE && DistinctIds(bs)
    ensures WithId(Remove(bs, k), bs[k].id) == []
  {
    var r := Remove(bs, k);
    forall j | 0 <= j < |r|
      ensures r[j].id != bs[k].id
    {
      if j < k {
        assert r[j] == bs[j];
      } else {
        assert r[j] == bs[j + 1];
      }
    }
    WithIdEmpty(r, bs[k].id);
  }

  // ---------------------------------------------------------------------
  // The rows of the remaining buttons, against the reference placement

  function Min(a: int, b: int): int
  {
    if a < b then a else b
  }

  /** The state after the first `m` padded cells of the remaining rows. */
  function Partial(s: Layout, g: Grid, m: nat, row: int): Layout
    requires g.cols > 0
  {
    var p := Min(m, |s.remaining|);
    Layout(WithId(s.remaining[..p], ID_NONE) + s.remaining[p..], s.organized + Spread(s.remaining, g, s.row, p), row)
  }

  lemma MulAtLeast(x: int, y: int)
    requires x >= 1 && y > 0
    ensures x * y >= y
  {
  }

  /** Quotient and remainder are determined by `a == q * b + m` with `0 <= m < b`. */
  lemma DivModUnique(a: int, b: int, q: int, m: int)
    requires b > 0 && a == q * b + m && 0 <= m < b
    ensures a / b == q && a % b == m
  {
    var q0, m0 := a / b, a % b;
    assert (q0 - q) * b == m - m0;
    if q0 > q {
      MulAtLeast(q0 - q, b);
    } else if q0 < q {
      MulAtLeast(q - q0, b);
    }
  }

  lemma ZerosSnoc(bs: seq<Button>, m: nat)
    requires m < |bs|
    ensures WithId(bs[..m + 1], ID_NONE) == WithId(bs[..m], ID_NONE) + (if bs[m].id == ID_NONE then [bs[m]] else [])
  {
    assert bs[..m + 1][..m] == bs[..m];
  }

  /** A cell naming the first button after a run of id-0 buttons places that button. */
  lemma PlaceCellAfterZeros(s: Layout, g: Grid, z: seq<Button>, rest: seq<Button>, col: int)
    requires forall j :: 0 <= j < |z| ==> z[j].id == ID_NONE
    requires s.remaining == z + rest && |rest| > 0 && rest[0].id != ID_NONE
    ensures PlaceCell(s, g, rest[0].id, col) ==
      Layout(z + rest[1..], s.organized + [Place(rest[0], g, col, s.row)], s.row)
  {
    FindIdAfterZeros(z, rest, rest[0].id);
    assert s.remaining[|z|] == rest[0];
    assert Remove(s.remaining, |z|) == z + rest[1..];
  }

  lemma SpreadSnoc(bs: seq<Button>, g: Grid, row0: int, j: nat, col: int, row: int)
    requires g.cols > 0 && j < |bs| && j % g.cols == col && row0 + j / g.cols == row
    ensures Spread(bs, g, row0, j + 1) ==
      Spread(bs, g, row0, j) + (if bs[j].id != ID_NONE then [Place(bs[j], g, col, row)] else [])
  {
  }

  /** The next remaining button, when its identifier is not 0, is placed in its own cell. */
  lemma UncommonCellPlaces(s: Layout, g: Grid, m: nat, col: int, row: int)
    requires g.cols > 0 && m < |s.remaining| && s.remaining[m].id != ID_NONE
    requires m % g.cols == col && s.row + m / g.cols == row
    ensures PlaceCell(Partial(s, g, m, row), g, s.remaining[m].id, col) == Partial(s, g, m + 1, row)
  {
    var orig := s.remaining;
    var before := Partial(s, g, m, row);
    ZerosSnoc(orig, m);
    var z := WithId(orig[..m], ID_NONE);
    assert before.remaining == z + orig[m..];
    PlaceCellAfterZeros(before, g, z, orig[m..], col);
    assert orig[m..][1..] == orig[m + 1..] && orig[m..][0] == orig[m];
    SpreadSnoc(orig, g, s.row, m, col, row);
  }

  /** The next remaining button, when its identifier is 0, stays where it is. */
  lemma UncommonCellSkips(s: Layout, g: Grid, m: nat, col: int, row: int)
    requires g.cols > 0 && m < |s.remaining| && s.remaining[m].id == ID_NONE
    ensures PlaceCell(Partial(s, g, m, row), g, ID_NONE, col) == Partial(s, g, m + 1, row)
  {
    var orig := s.remaining;
    ZerosSnoc(orig, m);
    assert orig[m..] == [orig[m]] + orig[m + 1..];
  }

  /** Padding cells past the end change nothing. */
  lemma UncommonCellPads(s: Layout, g: Grid, m: nat, col: int, row: int)
    requires g.cols > 0 && m >= |s.remaining|
    ensures PlaceCell(Partial(s, g, m, row), g, ID_NONE, col) == Partial(s, g, m + 1, row)
  {
  }

  /** `ids` holds the identifiers of `bs` from index `start` on, `cols` of them, 0 past the end. */
  predicate IsPaddedRow(ids: seq<int>, bs: seq<Button>, start: nat, cols: int)
  {
    |ids| == cols &&
    forall j :: 0 <= j < |ids| ==> ids[j] == (if start + j < |bs| then bs[start + j].id else ID_NONE)
  }

  lemma ChunkIsPaddedRow(bs: seq<Button>, cols: int, k: nat)
    requires cols > 0 && k < RowCount(|bs|, cols)
    ensures IsPaddedRow(Chunks(Ids(bs), cols)[k], bs, k * cols, cols)
  {
  }

  /** Cell `c` of remaining row `r`, which starts at index `start`. */
  lemma UncommonCellStep(s: Layout, g: Grid, ids: seq<int>, r: nat, start: nat, c: nat)
    requires 0 < g.cols && start == r * g.cols && c < g.cols && IsPaddedRow(ids, s.remaining, start, g.cols)
    ensures PlaceCell(Partial(s, g, start + c, s.row + r), g, ids[c], c) == Partial(s, g, start + c + 1, s.row + r)
  {
    var m: nat := start + c;
    if m < |s.remaining| {
      if ids[c] != ID_NONE {
        DivModUnique(m, g.cols, r, c);
        UncommonCellPlaces(s, g, m, c, s.row + r);
        assert PlaceCell(Partial(s, g, m, s.row + r), g, ids[c], c) == Partial(s, g, m + 1, s.row + r);
      } else {
        UncommonCellSkips(s, g, m, c, s.row + r);
        assert PlaceCell(Partial(s, g, m, s.row + r), g, ids[c], c) == Partial(s, g, m + 1, s.row + r);
      }
    } else {
      UncommonCellPads(s, g, m, c, s.row + r);
      assert PlaceCell(Partial(s, g, m, s.row + r), g, ids[c], c) == Partial(s, g, m + 1, s.row + r);
    }
  }

  /** Cells that each take one state of a chain to the next take the first state to the last. */
  lemma {:induction false} PlaceCellsChain(ps: seq<Layout>, g: Grid, ids: seq<int>, n: nat)
    requires n <= |ids| && n < |ps|
    requires forall c :: 0 <= c < n ==> PlaceCell(ps[c], g, ids[c], c) == ps[c + 1]
    ensures PlaceCells(ps[0], g, ids, n) == ps[n]
    decreases n
  {
    if n > 0 {
      PlaceCellsChain(ps, g, ids, n - 1);
    }
  }

  /** The cells of remaining row `r`, which starts at index `start`. */
  lemma UncommonCells(s: Layout, g: Grid, ids: seq<int>, r: nat, start: nat)
    requires 0 < g.cols && start == r * g.cols && IsPaddedRow(ids, s.remaining, start, g.cols)
    ensures PlaceCells(Partial(s, g, start, s.row + r), g, ids, g.cols) == Partial(s, g, start + g.cols, s.row + r)
  {
    var ps := seq(g.cols + 1, c requires 0 <= c <= g.cols => Partial(s, g, start + c, s.row + r));
    forall c | 0 <= c < g.cols
      ensures PlaceCell(ps[c], g, ids[c], c) == ps[c + 1]
    {
      UncommonCellStep(s, g, ids, r, start, c);
    }
    PlaceCellsChain(ps, g, ids, g.cols);
  }

  /** Remaining row `k` takes the state from the first `k` rows to the first `k + 1`. */
  lemma UncommonRowStep(s: Layout, g: Grid, k: nat)
    requires 0 < g.cols && k < RowCount(|s.remaining|, g.cols)
    ensures PlaceRow(Partial(s, g, k * g.cols, s.row + k), g, Chunks(Ids(s.remaining), g.cols)[k])
         == Partial(s, g, (k + 1) * g.cols, s.row + k + 1)
  {
    var ids := Chunks(Ids(s.remaining), g.cols)[k];
    ChunkIsPaddedRow(s.remaining, g.cols, k);
    assert CellCount(ids, g.cols) == g.cols;
    UncommonCells(s, g, ids, k, k * g.cols);
    NextRowStart(k, g.cols);
  }

  /** The remaining rows, one at a time. */
  lemma {:induction false} UncommonRows(s: Layout, g: Grid, k: nat)
    requires 0 < g.cols && k <= RowCount(|s.remaining|, g.cols)
    ensures PlaceRows(s, g, Chunks(Ids(s.remaining), g.cols)[..k]) == Partial(s, g, k * g.cols, s.row + k)
    decreases k
  {
    if k == 0 {
      assert s.remaining[..0] == [] && s.remaining[0..] == s.remaining;
    } else {
      UncommonRows(s, g, k - 1);
      PlaceRowsSnoc(s, g, Chunks(Ids(s.remaining), g.cols), k - 1);
      UncommonRowStep(s, g, k - 1);
    }
  }

  /**
   * addUncommonRows issues ceil(n / cols) rows for the n remaining
   * buttons. Afterwards the remote keeps exactly its id-0 buttons, in
   * order and unplaced, and every other remaining button, in list order,
   * is organized at column j % cols of row row0 + j / cols, where j is its
   * index in the remaining list.
   */
  lemma UncommonPassEffect(s: Layout, g: Grid)
    requires g.cols > 0
    ensures UncommonPass(s, g) ==
      Layout(WithId(s.remaining, ID_NONE),
             s.organized + Spread(s.remaining, g, s.row, |s.remaining|),
             s.row + RowCount(|s.remaining|, g.cols))
  {
    var chunks := Chunks(Ids(s.remaining), g.cols);
    var k := RowCount(|s.remaining|, g.cols);
    UncommonRows(s, g, k);
    assert chunks[..k] == chunks;
    assert s.remaining[..|s.remaining|] == s.remaining;
  }

  // ---------------------------------------------------------------------
  // A whole position pass

  /**
   * A pass on a freshly constructed organizer (empty organized list, row
   * counter 0): the template takes 7 rows, 9 for cable and blu-ray
   * remotes; the remote ends with its id-0 buttons first, untouched and in
   * their original order, then the template's buttons, each in the cell
   * that names it, then the other buttons in their original order, packed
   * `cols` per row below the template. No button is lost, duplicated or
   * altered except for its position.
   */
  lemma FreshPositionPass(bs: seq<Button>, g: Grid, remoteType: int)
    requires g.cols > 0
    ensures var s := Layout(bs, [], 0);
      var t := PlaceRows(s, g, TemplateRows(remoteType));
      var r := PositionPass(s, g, remoteType);
      t.row == (if HasMediaRows(remoteType) then 9 else 7) &&
      (forall j :: 0 <= j < |t.organized| ==>
         t.organized[j].id != ID_NONE && InTemplateCell(t.organized[j], g, TemplateRows(remoteType), 0)) &&
      r.remaining == WithId(bs, ID_NONE) &&
      Merged(r) == WithId(bs, ID_NONE) + t.organized + Spread(t.remaining, g, t.row, |t.remaining|) &&
      r.row == t.row + RowCount(|t.remaining|, g.cols) &&
      multiset(UnplacedAll(Merged(r))) == multiset(UnplacedAll(bs))
  {
    var s := Layout(bs, [], 0);
    var t := PlaceRows(s, g, TemplateRows(remoteType));
    TemplateRowCount(s, g, remoteType);
    PlaceRowsCells(s, g, TemplateRows(remoteType));
    FreshRemainder(bs, g, remoteType);
    PositionPassContents(s, g, remoteType);
    assert Merged(s) == bs;
  }

  /** After the template, the remote keeps its id-0 buttons and the rest are spread below the template. */
  lemma FreshRemainder(bs: seq<Button>, g: Grid, remoteType: int)
    requires g.cols > 0
    ensures var s := Layout(bs, [], 0);
      var t := PlaceRows(s, g, TemplateRows(remoteType));
      var r := PositionPass(s, g, remoteType);
      r.remaining == WithId(bs, ID_NONE) &&
      Merged(r) == WithId(bs, ID_NONE) + t.organized + Spread(t.remaining, g, t.row, |t.remaining|) &&
      r.row == t.row + RowCount(|t.remaining|, g.cols)
  {
    var s := Layout(bs, [], 0);
    var t := PlaceRows(s, g, TemplateRows(remoteType));
    PlaceRowsKeeps(s, g, TemplateRows(remoteType));
    UncommonPassEffect(t, g);
  }

  /** A position pass only moves buttons: none is lost, duplicated or otherwise altered. */
  lemma PositionPassContents(s: Layout, g: Grid, remoteType: int)
    requires g.cols > 0
    ensures Contents(PositionPass(s, g, remoteType)) == Contents(s)
  {
    var t := PlaceRows(s, g, TemplateRows(remoteType));
    PlaceRowsKeeps(s, g, TemplateRows(remoteType));
    PlaceRowsKeeps(t, g, Chunks(Ids(t.remaining), g.cols));
  }

  /**
   * The organizer never clears its organized list or its row counter, so
   * a pass starts its template at the row where the previous pass stopped
   * and re-appends every button an earlier pass organized: the remote ends
   * with its own buttons plus all of those.
   */
  lemma PositionPassKeepsEarlierState(s: Layout, g: Grid, remoteType: int)
    requires g.cols > 0
    ensures var t := PlaceRows(s, g, TemplateRows(remoteType));
      var r := PositionPass(s, g, remoteType);
      t.row == s.row + (if HasMediaRows(remoteType) then 9 else 7) &&
      |Merged(r)| == |s.remaining| + |s.organized| &&
      |WithId(s.remaining, ID_NONE)| + |s.organized| <= |Merged(r)| &&
      Merged(r)[..|WithId(s.remaining, ID_NONE)| + |s.organized|] == WithId(s.remaining, ID_NONE) + s.organized
  {
    var t := PlaceRows(s, g, TemplateRows(remoteType));
    TemplateRowCount(s, g, remoteType);
    PositionPassSize(s, g, remoteType);
    PositionPassShape(s, g, remoteType);
    PrefixKept(WithId(s.remaining, ID_NONE), s.organized, t.organized, Spread(t.remaining, g, t.row, |t.remaining|));
  }

  /** A position pass keeps the number of buttons. */
  lemma PositionPassSize(s: Layout, g: Grid, remoteType: int)
    requires g.cols > 0
    ensures |Merged(PositionPass(s, g, remoteType))| == |s.remaining| + |s.organized|
  {
    var t := PlaceRows(s, g, TemplateRows(remoteType));
    PlaceRowsKeeps(s, g, TemplateRows(remoteType));
    PlaceRowsKeeps(t, g, Chunks(Ids(t.remaining), g.cols));
  }

  /** After a position pass: the id-0 buttons, then the organized list as the template left it, then the rest. */
  lemma PositionPassShape(s: Layout, g: Grid, remoteType: int)
    requires g.cols > 0
    ensures var t := PlaceRows(s, g, TemplateRows(remoteType));
      Merged(PositionPass(s, g, remoteType)) == WithId(s.remaining, ID_NONE) + t.organized + Spread(t.remaining, g, t.row, |t.remaining|) &&
      |s.organized| <= |t.organized| && t.organized[..|s.organized|] == s.organized
  {
    var t := PlaceRows(s, g, TemplateRows(remoteType));
    PlaceRowsKeeps(s, g, TemplateRows(remoteType));
    UncommonPassEffect(t, g);
  }

  /** A list that starts with `z` and then an extension of `o` starts with `z + o`. */
  lemma PrefixKept<T>(z: seq<T>, o: seq<T>, o2: seq<T>, rest: seq<T>)
    requires |o| <= |o2| && o2[..|o|] == o
    ensures (z + o2 + rest)[..|z| + |o|] == z + o
  {
    assert (z + o2 + rest)[..|z| + |o|] == z + o2[..|o|];
  }


  // ---------------------------------------------------------------------
  // The height of the content

  function Max(a: int, b: int): int
  {
    if a < b then b else a
  }

  /** The lowest bottom edge of the buttons, 0 when there are none (calculateHeightPx's running maximum). */
  function MaxBottom(bs: seq<Button>): int
    decreases |bs|
  {
    if |bs| == 0 then 0 else Max(MaxBottom(bs[..|bs| - 1]), bs[|bs| - 1].y + bs[|bs| - 1].h)
  }

  /**
   * The running maximum is the least bound of 0 and every bottom edge: it
   * is at least 0 and at least every `y + h`, and it is 0 or one of them.
   */
  lemma {:induction false} MaxBottomIsMaximum(bs: seq<Button>)
    ensures MaxBottom(bs) >= 0
    ensures forall k :: 0 <= k < |bs| ==> MaxBottom(bs) >= bs[k].y + bs[k].h
    ensures MaxBottom(bs) == 0 || exists k :: 0 <= k < |bs| && MaxBottom(bs) == bs[k].y + bs[k].h
    decreases |bs|
  {
    if |bs| > 0 {
      var n := |bs| - 1;
      MaxBottomIsMaximum(bs[..n]);
      assert forall k :: 0 <= k < n ==> bs[..n][k] == bs[k];
      if MaxBottom(bs) != 0 && MaxBottom(bs) != bs[n].y + bs[n].h {
        var k :| 0 <= k < n && MaxBottom(bs[..n]) == bs[..n][k].y + bs[..n][k].h;
      }
    }
  }
}
