/**
 * The organizer: it holds the grid configuration of the device, the stage
 * flags and the state it keeps between passes (the organized list and the
 * row counter), and runs a pass over a remote, changing the remote's
 * buttons and options in place.
 */
module Organizer {
  import opened Buttons
  import opened Geometry
  import opened Styling
  import opened Placement
  import opened Flags
  import opened Stages

  /** The options of a remote the organizer reads and writes: its type, the content size and the margins. */
  datatype Options = Options(remoteType: int, w: int, h: int, marginLeft: int, marginTop: int)

  /** A remote: its list of buttons and its options, both replaced in place by a pass. */
  class Remote {
    var buttons: seq<Button>
    var options: Options

    constructor(bs: seq<Button>, opts: Options)
      ensures buttons == bs && options == opts
    {
      buttons := bs;
      options := opts;
    }
  }

  /** The number of columns setupPosition lays a remote out in. */
  const LAYOUT_COLS: int := 4

  class RemoteOrganizer {
    // The device and resource dimensions, in pixels, and the blocks per button.
    const deviceWidth: int
    const marginTop: int
    const gridSizeX: int
    const gridSizeY: int
    const gridSpacingX: int
    const gridSpacingY: int
    const blocksPerButtonX: int
    const blocksPerButtonY: int

    var marginLeft: int
    var availableBlocksX: int
    var cols: int
    var flags: bv32
    /** Rows issued so far; never reset. */
    var currentRowCount: int
    /** Buttons already placed, in placement order; never cleared. */
    var organized: seq<Button>
    var remote: Remote?

    /**
     * A new organizer: the margins are the minimum margins, the blocks
     * available across are what the device width leaves after both
     * margins, plus one spacing, divided by the block size; no columns, no
     * rows, nothing organized, the default flags.
     */
    constructor(deviceWidth: int, minMarginX: int, minMarginY: int, gridSizeX: int, gridSizeY: int,
                gridSpacingX: int, gridSpacingY: int, blocksPerButtonX: int, blocksPerButtonY: int)
      requires gridSizeX != 0
      ensures this.deviceWidth == deviceWidth && marginTop == minMarginY
      ensures this.gridSizeX == gridSizeX && this.gridSizeY == gridSizeY
      ensures this.gridSpacingX == gridSpacingX && this.gridSpacingY == gridSpacingY
      ensures this.blocksPerButtonX == blocksPerButtonX && this.blocksPerButtonY == blocksPerButtonY
      ensures marginLeft == minMarginX
      ensures availableBlocksX == JavaDiv(deviceWidth - minMarginX * 2 + gridSpacingX, gridSizeX)
      ensures cols == 0 && flags == DEFAULT_FLAGS
      ensures currentRowCount == 0 && organized == [] && remote == null
    {
      this.deviceWidth := deviceWidth;
      marginTop := minMarginY;
      this.gridSizeX := gridSizeX;
      this.gridSizeY := gridSizeY;
      this.gridSpacingX := gridSpacingX;
      this.gridSpacingY := gridSpacingY;
      this.blocksPerButtonX := blocksPerButtonX;
      this.blocksPerButtonY := blocksPerButtonY;
      marginLeft := minMarginX;
      availableBlocksX := JavaDiv(deviceWidth - minMarginX * 2 + gridSpacingX, gridSizeX);
      cols := 0;
      flags := DEFAULT_FLAGS;
      currentRowCount := 0;
      organized := [];
      remote := null;
    }

    /** The grid the organizer currently places buttons on. */
    function CurrentGrid(): Grid
      reads this`marginLeft, this`cols
    {
      Grid(marginLeft, marginTop, gridSizeX, gridSizeY, gridSpacingX, gridSpacingY,
           blocksPerButtonX, blocksPerButtonY, cols)
    }

    /** The placement state: the remote's buttons, the organized list and the row counter. */
    function State(): Layout
      reads this`remote, this`organized, this`currentRowCount, remote`buttons
      requires remote != null
    {
      Layout(remote.buttons, organized, currentRowCount)
    }

    // -------------------------------------------------------------------
    // Flags

    method AddFlag(flag: bv32)
      modifies this`flags
      ensures flags == old(flags) | flag
    {
      flags := flags | flag;
    }

    method ClearFlag(flag: bv32)
      modifies this`flags
      ensures flags == old(flags) & !flag
    {
      flags := flags & !flag;
    }

    method SetFlags(newFlags: bv32)
      modifies this`flags
      ensures flags == newFlags
    {
      flags := newFlags;
    }

    // -------------------------------------------------------------------
    // Geometry

    /** Centre a grid of `c` columns on the device. */
    method UseCols(c: int)
      modifies this`marginLeft, this`availableBlocksX, this`cols
      ensures marginLeft == CentredMargin(deviceWidth, gridSizeX, blocksPerButtonX, gridSpacingX, c)
      ensures availableBlocksX == c * blocksPerButtonX && cols == c
    {
      marginLeft := JavaDiv(deviceWidth - (gridSizeX * c * blocksPerButtonX - gridSpacingX), 2);
      availableBlocksX := c * blocksPerButtonX;
      cols := c;
    }

    /**
     * Move `b` to an offset of `x` blocks plus `buttonX` buttons from the
     * left margin and `y` blocks plus `buttonY` buttons from the top one.
     */
    method SetButtonPosition(b: Button, x: int, y: int, buttonX: int, buttonY: int) returns (r: Button)
      ensures r.(x := b.x, y := b.y) == b
      ensures r.x - marginLeft == (x + buttonX * blocksPerButtonX) * gridSizeX
      ensures r.y - marginTop == (y + buttonY * blocksPerButtonY) * gridSizeY
    {
      r := b.(x := marginLeft + x * gridSizeX + buttonX * gridSizeX * blocksPerButtonX,
              y := marginTop + y * gridSizeY + buttonY * gridSizeY * blocksPerButtonY);
      assert (x + buttonX * blocksPerButtonX) * gridSizeX == x * gridSizeX + buttonX * gridSizeX * blocksPerButtonX;
      assert (y + buttonY * blocksPerButtonY) * gridSizeY == y * gridSizeY + buttonY * gridSizeY * blocksPerButtonY;
    }

    /** Give `b` a size of `w` by `h` blocks: with one spacing, it fills exactly those blocks. */
    method SetButtonSize(b: Button, w: int, h: int) returns (r: Button)
      ensures r.(w := b.w, h := b.h) == b
      ensures r.w + gridSpacingX == w * gridSizeX && r.h + gridSpacingY == h * gridSizeY
    {
      r := b.(w := w * gridSizeX - gridSpacingX, h := h * gridSizeY - gridSpacingY);
    }

    /** The width of a button spanning `blocks` blocks. */
    function BlocksWidthPixels(blocks: int): (px: int)
      ensures px + gridSpacingX == blocks * gridSizeX
    {
      BlocksWidth(gridSizeX, gridSpacingX, blocks)
    }

    /** The height of a button spanning `blocks` blocks. */
    function BlocksHeightPixels(blocks: int): (px: int)
      ensures px + gridSpacingY == blocks * gridSizeY
    {
      BlocksHeight(gridSizeY, gridSpacingY, blocks)
    }

    /** The width of a standard button. */
    function ButtonWidthPixels(): (px: int)
      ensures px + gridSpacingX == blocksPerButtonX * gridSizeX
    {
      BlocksWidthPixels(blocksPerButtonX)
    }

    /** The height of a standard button. */
    function ButtonHeightPixels(): (px: int)
      ensures px + gridSpacingY == blocksPerButtonY * gridSizeY
    {
      BlocksHeightPixels(blocksPerButtonY)
    }

    /**
     * Standard buttons in neighbouring cells of the current grid are
     * separated by exactly one spacing, across and down.
     */
    lemma StandardButtonsGap(col: int, row: int)
      ensures CellX(CurrentGrid(), col + 1) - (CellX(CurrentGrid(), col) + ButtonWidthPixels()) == gridSpacingX
      ensures RowY(CurrentGrid(), row + 1) - (RowY(CurrentGrid(), row) + ButtonHeightPixels()) == gridSpacingY
    {
      NeighbourGap(CurrentGrid(), col, row);
    }

    /** A button created by the user: standard size, default corners, grey background. */
    method SetupNewButton(b: Button) returns (r: Button)
      ensures r.(w := b.w, h := b.h, cornerDp := b.cornerDp, bg := b.bg) == b
      ensures r.w + gridSpacingX == blocksPerButtonX * gridSizeX && r.h + gridSpacingY == blocksPerButtonY * gridSizeY
      ensures r.cornerDp == DEFAULT_CORNER_DP && r.bg == BG_GREY
    {
      r := b.(w := ButtonWidthPixels(), h := ButtonHeightPixels(), cornerDp := DEFAULT_CORNER_DP, bg := BG_GREY);
    }

    // -------------------------------------------------------------------
    // The sizing, colour and corner stages

    /** Every button of the remote gets the standard size. */
    method SetupSizes()
      requires remote != null
      modifies remote`buttons
      ensures remote.buttons == SizeAll(old(remote.buttons), ButtonWidthPixels(), ButtonHeightPixels())
    {
      ghost var bs0 := remote.buttons;
      var i := 0;
      while i < |remote.buttons|
        invariant 0 <= i <= |remote.buttons| == |bs0|
        invariant forall j :: 0 <= j < i ==>
          remote.buttons[j] == bs0[j].(w := ButtonWidthPixels(), h := ButtonHeightPixels())
        invariant forall j :: i <= j < |bs0| ==> remote.buttons[j] == bs0[j]
      {
        var b := SetButtonSize(remote.buttons[i], blocksPerButtonX, blocksPerButtonY);
        remote.buttons := remote.buttons[i := b];
        i := i + 1;
      }
    }

    /** Colour the first button carrying `id`, if there is one. */
    method SetColor(id: int, color: int)
      requires remote != null
      modifies remote`buttons
      ensures remote.buttons == StyleById(old(remote.buttons), id, Background(color))
    {
      var k := FindId(remote.buttons, id);
      if k.Some? {
        remote.buttons := remote.buttons[k.value := remote.buttons[k.value].(bg := color)];
      }
    }

    /** Every button becomes transparent, then each category's buttons get its colour. */
    method SetupColor()
      requires remote != null
      modifies remote`buttons
      ensures remote.buttons == ColorPass(old(remote.buttons))
    {
      ghost var bs0 := remote.buttons;
      var i := 0;
      while i < |remote.buttons|
        invariant 0 <= i <= |remote.buttons| == |bs0|
        invariant forall j :: 0 <= j < i ==> remote.buttons[j] == bs0[j].(bg := BG_TRANSPARENT)
        invariant forall j :: i <= j < |bs0| ==> remote.buttons[j] == bs0[j]
      {
        remote.buttons := remote.buttons[i := remote.buttons[i].(bg := BG_TRANSPARENT)];
        i := i + 1;
      }
      ghost var all := remote.buttons;
      assert all == StyleAll(bs0, Background(BG_TRANSPARENT));
      var t := 0;
      while t < |ColorTable|
        invariant 0 <= t <= |ColorTable|
        invariant remote.buttons == ApplyTable(all, ColorTable[..t])
      {
        assert ColorTable[t].1.Background?;
        SetColor(ColorTable[t].0, ColorTable[t].1.color);
        assert ColorTable[..t + 1][..t] == ColorTable[..t];
        t := t + 1;
      }
      assert ColorTable[..t] == ColorTable;
    }

    /** Set the corner radius of the button `findId` returned, if any. */
    method SetButtonCornerDp(k: Option<nat>, dp: int)
      requires remote != null && (k.Some? ==> k.value < |remote.buttons|)
      modifies remote`buttons
      ensures k.None? ==> remote.buttons == old(remote.buttons)
      ensures k.Some? ==> remote.buttons == old(remote.buttons)[k.value := old(remote.buttons)[k.value].(cornerDp := dp)]
    {
      if k.Some? {
        remote.buttons := remote.buttons[k.value := remote.buttons[k.value].(cornerDp := dp)];
      }
    }

    /** Every button gets the default corners, then power and the digits get round ones. */
    method SetupCorners()
      requires remote != null
      modifies remote`buttons
      ensures remote.buttons == CornerPass(old(remote.buttons))
    {
      ghost var bs0 := remote.buttons;
      var i := 0;
      while i < |remote.buttons|
        invariant 0 <= i <= |remote.buttons| == |bs0|
        invariant forall j :: 0 <= j < i ==> remote.buttons[j] == bs0[j].(cornerDp := DEFAULT_CORNER_DP)
        invariant forall j :: i <= j < |bs0| ==> remote.buttons[j] == bs0[j]
      {
        SetButtonCornerDp(Some(i), DEFAULT_CORNER_DP);
        i := i + 1;
      }
      ghost var all := remote.buttons;
      assert all == StyleAll(bs0, Corner(DEFAULT_CORNER_DP));
      var t := 0;
      while t < |CornerTable|
        invariant 0 <= t <= |CornerTable|
        invariant remote.buttons == ApplyTable(all, CornerTable[..t])
      {
        assert CornerTable[t].1 == Corner(ROUND_CORNER_DP);
        var k := FindId(remote.buttons, CornerTable[t].0);
        SetButtonCornerDp(k, ROUND_CORNER_DP);
        assert CornerTable[..t + 1][..t] == CornerTable[..t];
        t := t + 1;
      }
      assert CornerTable[..t] == CornerTable;
    }

    // -------------------------------------------------------------------
    // Placement

    /**
     * Move the button `findId` returned, if any, from the remote to the end
     * of the organized list; no button is lost or duplicated.
     */
    method MoveToOrganizedList(k: Option<nat>)
      requires remote != null && (k.Some? ==> k.value < |remote.buttons|)
      modifies this`organized, remote`buttons
      ensures k.None? ==> organized == old(organized) && remote.buttons == old(remote.buttons)
      ensures k.Some? ==> organized == old(organized) + [old(remote.buttons)[k.value]]
      ensures k.Some? ==> remote.buttons == Remove(old(remote.buttons), k.value)
      ensures multiset(remote.buttons) + multiset(organized) == old(multiset(remote.buttons) + multiset(organized))
    {
      if k.Some? {
        ghost var bs := remote.buttons;
        organized := organized + [remote.buttons[k.value]];
        remote.buttons := Remove(remote.buttons, k.value);
        assert bs == bs[..k.value] + [bs[k.value]] + bs[k.value + 1..];
      }
    }

    /**
     * One cell of a row: the first button carrying `id`, if any, is moved to
     * column `col` of the current row and then to the organized list.
     */
    method PlaceInCell(id: int, col: int, y: int)
      requires remote != null && id != ID_NONE && y == currentRowCount * blocksPerButtonY
      modifies this`organized, remote`buttons
      ensures State() == PlaceCell(old(State()), CurrentGrid(), id, col)
    {
      ghost var s := State();
      ghost var g := CurrentGrid();
      var k := FindId(remote.buttons, id);
      if k.Some? {
        ghost var bs := remote.buttons;
        var b := SetButtonPosition(remote.buttons[k.value], 0, y, col, 0);
        assert b == Place(bs[k.value], g, col, s.row) by {
          assert (0 + col * blocksPerButtonX) * gridSizeX == col * gridSizeX * blocksPerButtonX;
        }
        remote.buttons := remote.buttons[k.value := b];
        MoveToOrganizedList(k);
        assert remote.buttons == Remove(bs, k.value);
      }
    }

    /**
     * Place one row: each of the first min(|ids|, cols) cells naming a
     * non-zero identifier found in the remote gets that button, which moves
     * to the organized list; then the row counter moves on by one.
     */
    method AddRow(ids: seq<int>)
      requires remote != null
      modifies this`organized, this`currentRowCount, remote`buttons
      ensures State() == PlaceRow(old(State()), CurrentGrid(), ids)
    {
      ghost var s0 := State();
      var y := currentRowCount * blocksPerButtonY;
      var n := Min(|ids|, cols);
      var i := 0;
      while i < n
        invariant 0 <= i <= CellCount(ids, cols)
        invariant currentRowCount == s0.row
        invariant State() == PlaceCells(s0, CurrentGrid(), ids, i)
      {
        if ids[i] != ID_NONE {
          PlaceInCell(ids[i], i, y);
        }
        i := i + 1;
      }
      currentRowCount := currentRowCount + 1;
    }

    /** The identifiers of the buttons left in the remote, in order. */
    method GetRemainingIds() returns (ids: array<int>)
      requires remote != null
      ensures fresh(ids) && ids[..] == Ids(remote.buttons)
    {
      ids := new int[|remote.buttons|];
      var i := 0;
      while i < |remote.buttons|
        invariant 0 <= i <= ids.Length == |remote.buttons|
        invariant forall j :: 0 <= j < i ==> ids[j] == remote.buttons[j].id
      {
        ids[i] := remote.buttons[i].id;
        i := i + 1;
      }
    }

    /** The row of `cols` identifiers of `ids` starting at `start`, 0 past the end. */
    method SliceRow(ids: array<int>, start: int) returns (row: array<int>)
      requires cols > 0 && start >= 0
      ensures fresh(row) && row[..] == PaddedRow(ids[..], start, cols)
    {
      row := new int[cols](_ => ID_NONE);
      var j := 0;
      while j < cols
        invariant 0 <= j <= cols == row.Length
        invariant forall t :: 0 <= t < j ==> row[t] == PaddedRow(ids[..], start, cols)[t]
        invariant forall t :: j <= t < cols ==> row[t] == ID_NONE
      {
        if start + j < ids.Length {
          row[j] := ids[start + j];
        }
        j := j + 1;
      }
    }

    /** Place the buttons left in the remote, `cols` per row, in list order. */
    method AddUncommonRows()
      requires remote != null && cols > 0
      modifies this`organized, this`currentRowCount, remote`buttons
      ensures State() == UncommonPass(old(State()), CurrentGrid())
    {
      var ids := GetRemainingIds();
      ghost var s0 := State();
      ghost var chunks := Chunks(ids[..], cols);
      var i := 0;
      ghost var k: nat := 0;
      while i < ids.Length
        invariant k <= |chunks| && i == k * cols
        invariant ids[..] == Ids(s0.remaining)
        invariant State() == PlaceRows(s0, CurrentGrid(), chunks[..k])
      {
        RowCountBounds(ids.Length, cols, k);
        var row := SliceRow(ids, i);
        AddRow(row[..]);
        PlaceRowsSnoc(s0, CurrentGrid(), chunks, k);
        NextRowStart(k, cols);
        i := i + cols;
        k := k + 1;
      }
      RowCountBounds(ids.Length, cols, k);
      assert chunks[..k] == chunks;
    }

    /** The seven rows every remote gets, in the order setupLayout4ColsNew issues them. */
    method AddBaseRows()
      requires remote != null
      modifies this`organized, this`currentRowCount, remote`buttons
      ensures State() == PlaceRows(old(State()), CurrentGrid(), BaseRows)
    {
      ghost var s0 := State();
      ghost var g := CurrentGrid();
      AddRow([ID_POWER, ID_NONE, ID_NAV_UP, ID_NONE]);
      PlaceRowsSnoc(s0, g, BaseRows, 0);
      AddRow([ID_VOL_UP, ID_NAV_LEFT, ID_NAV_OK, ID_NAV_RIGHT]);
      PlaceRowsSnoc(s0, g, BaseRows, 1);
      AddRow([ID_VOL_DOWN, ID_NONE, ID_NAV_DOWN, ID_NONE]);
      PlaceRowsSnoc(s0, g, BaseRows, 2);
      AddRow([ID_MUTE, ID_DIGIT_1, ID_DIGIT_2, ID_DIGIT_3]);
      PlaceRowsSnoc(s0, g, BaseRows, 3);
      AddRow([ID_CH_UP, ID_DIGIT_4, ID_DIGIT_5, ID_DIGIT_6]);
      PlaceRowsSnoc(s0, g, BaseRows, 4);
      AddRow([ID_CH_DOWN, ID_DIGIT_7, ID_DIGIT_8, ID_DIGIT_9]);
      PlaceRowsSnoc(s0, g, BaseRows, 5);
      AddRow([ID_MENU, ID_NONE, ID_DIGIT_0, ID_NONE]);
      PlaceRowsSnoc(s0, g, BaseRows, 6);
      assert BaseRows[..7] == BaseRows;
    }

    /** The two media rows of cable and blu-ray remotes. */
    method AddMediaRows()
      requires remote != null
      modifies this`organized, this`currentRowCount, remote`buttons
      ensures State() == PlaceRows(old(State()), CurrentGrid(), MediaRows)
    {
      ghost var s0 := State();
      ghost var g := CurrentGrid();
      AddRow([ID_RWD, ID_PLAY, ID_FFWD, ID_REC]);
      PlaceRowsSnoc(s0, g, MediaRows, 0);
      AddRow([ID_PREV, ID_PAUSE, ID_NEXT, ID_STOP]);
      PlaceRowsSnoc(s0, g, MediaRows, 1);
      assert MediaRows[..2] == MediaRows;
    }

    /**
     * The four-column layout: the seven common rows, the two media rows
     * for cable and blu-ray remotes, then the remaining buttons.
     */
    method SetupLayout4ColsNew()
      requires remote != null && cols > 0
      modifies this`organized, this`currentRowCount, remote`buttons
      ensures State() == PositionPass(old(State()), CurrentGrid(), remote.options.remoteType)
    {
      ghost var s0 := State();
      ghost var g := CurrentGrid();
      var remoteType := remote.options.remoteType;
      AddBaseRows();
      if remoteType == TYPE_CABLE || remoteType == TYPE_BLURAY {
        AddMediaRows();
        PlaceRowsConcat(s0, g, BaseRows, MediaRows);
      }
      ghost var t := State();
      assert t == PlaceRows(s0, g, TemplateRows(remoteType));
      AddUncommonRows();
      assert State() == UncommonPass(t, g);
    }

    // -------------------------------------------------------------------
    // Finalisation

    /**
     * The height of the content: the lowest bottom edge of the remote's
     * buttons, or 0 when there are none, plus the top margin.
     */
    method CalculateHeightPx() returns (h: int)
      requires remote != null
      ensures h == MaxBottom(remote.buttons) + marginTop
      ensures h >= marginTop
      ensures forall k :: 0 <= k < |remote.buttons| ==> h >= remote.buttons[k].y + remote.buttons[k].h + marginTop
      ensures h == marginTop ||
              exists k :: 0 <= k < |remote.buttons| && h == remote.buttons[k].y + remote.buttons[k].h + marginTop
    {
      var max := 0;
      var i := 0;
      while i < |remote.buttons|
        invariant 0 <= i <= |remote.buttons|
        invariant max == MaxBottom(remote.buttons[..i])
      {
        assert remote.buttons[..i + 1][..i] == remote.buttons[..i];
        max := Max(max, remote.buttons[i].y + remote.buttons[i].h);
        i := i + 1;
      }
      assert remote.buttons[..i] == remote.buttons;
      MaxBottomIsMaximum(remote.buttons);
      h := max + marginTop;
    }

    /**
     * The position stage: centre four columns, place the template and the
     * remaining buttons, put the organized list back after what is left in
     * the remote, and record the content's size and margins in the options.
     */
    method SetupPosition()
      requires remote != null
      modifies this`marginLeft, this`availableBlocksX, this`cols, this`organized, this`currentRowCount
      modifies remote`buttons, remote`options
      ensures cols == LAYOUT_COLS && availableBlocksX == LAYOUT_COLS * blocksPerButtonX
      ensures marginLeft == CentredMargin(deviceWidth, gridSizeX, blocksPerButtonX, gridSpacingX, LAYOUT_COLS)
      ensures var t := PositionPass(old(State()), CurrentGrid(), old(remote.options.remoteType));
        organized == t.organized && currentRowCount == t.row && remote.buttons == Merged(t)
      ensures remote.options == old(remote.options).(w := deviceWidth, h := MaxBottom(remote.buttons) + marginTop,
                                                     marginLeft := marginLeft, marginTop := marginTop)
    {
      UseCols(LAYOUT_COLS);
      SetupLayout4ColsNew();
      remote.buttons := remote.buttons + organized;
      var h := CalculateHeightPx();
      remote.options := remote.options.(w := deviceWidth, h := h, marginLeft := marginLeft, marginTop := marginTop);
    }

    // -------------------------------------------------------------------
    // A pass

    /**
     * What a pass leaves, given the buttons, organized list, row counter,
     * options and column settings it started from: the stages before
     * positioning applied to every button and, when the position flag is
     * set, the position stage on top of them; otherwise the placement
     * state and the options are as they were.
     */
    ghost predicate PassResult(bs0: seq<Button>, organized0: seq<Button>, row0: int, options0: Options,
                               marginLeft0: int, availableBlocksX0: int, cols0: int)
      reads this, remote
      requires remote != null
    {
      var styled := Styled(bs0, flags, ButtonWidthPixels(), ButtonHeightPixels());
      if Enabled(flags, FLAG_POSITION) then
        cols == LAYOUT_COLS && availableBlocksX == LAYOUT_COLS * blocksPerButtonX &&
        marginLeft == CentredMargin(deviceWidth, gridSizeX, blocksPerButtonX, gridSpacingX, LAYOUT_COLS) &&
        var t := PositionPass(Layout(styled, organized0, row0), CurrentGrid(), options0.remoteType);
        organized == t.organized && currentRowCount == t.row && remote.buttons == Merged(t) &&
        remote.options == options0.(w := deviceWidth, h := MaxBottom(remote.buttons) + marginTop,
                                    marginLeft := marginLeft, marginTop := marginTop)
      else
        remote.buttons == styled && organized == organized0 && currentRowCount == row0 &&
        remote.options == options0 &&
        marginLeft == marginLeft0 && availableBlocksX == availableBlocksX0 && cols == cols0
    }

    /** Run the stages whose flags are set on the current remote. */
    method Organize()
      requires remote != null
      modifies this`marginLeft, this`availableBlocksX, this`cols, this`organized, this`currentRowCount
      modifies remote`buttons, remote`options
      ensures PassResult(old(remote.buttons), old(organized), old(currentRowCount), old(remote.options),
                         old(marginLeft), old(availableBlocksX), old(cols))
    {
      SetupSizes();
      if flags & FLAG_COLOR != 0 {
        SetupColor();
      }
      if flags & FLAG_CORNERS != 0 {
        SetupCorners();
      }
      // The icon, text and text-size stages set attributes this model does not hold.
      if flags & FLAG_POSITION != 0 {
        SetupPosition();
      }
    }

    /** Organize `r`, which becomes the organizer's current remote; no remote, no change. */
    method UpdateWithoutSaving(r: Remote?)
      modifies this`remote, this`marginLeft, this`availableBlocksX, this`cols, this`organized, this`currentRowCount
      modifies r
      ensures r == null ==> unchanged(this)
      ensures r != null ==> remote == r
      ensures r != null ==>
        PassResult(old(r.buttons), old(organized), old(currentRowCount), old(r.options),
                   old(marginLeft), old(availableBlocksX), old(cols))
    {
      if r == null {
        return;
      }
      remote := r;
      Organize();
    }
  }
}
