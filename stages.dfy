/**
 * The stages a pass runs before positioning: every button gets the
 * standard size, then, when their flags are set, the colour pass and the
 * corner pass.
 */
module Stages {
  import opened Buttons
  import opened Styling
  import opened Flags

  /** setupSizes: every button gets width `w` and height `h`. */
  function SizeAll(bs: seq<Button>, w: int, h: int): seq<Button>
  {
    seq(|bs|, i requires 0 <= i < |bs| => bs[i].(w := w, h := h))
  }

  /** The buttons after the sizing, colour and corner stages of a pass run with `flags`. */
  function Styled(bs: seq<Button>, flags: bv32, w: int, h: int): seq<Button>
  {
    var sized := SizeAll(bs, w, h);
    var coloured := if Enabled(flags, FLAG_COLOR) then ColorPass(sized) else sized;
    if Enabled(flags, FLAG_CORNERS) then CornerPass(coloured) else coloured
  }

  /** The background a button ends with after the stages run with `flags`. */
  function StyledBackground(bs: seq<Button>, k: nat, flags: bv32): int
    requires k < |bs|
  {
    if !Enabled(flags, FLAG_COLOR) then bs[k].bg
    else if CategoryColor(bs[k].id).Some? && FindId(bs, bs[k].id) == Some(k) then CategoryColor(bs[k].id).value
    else BG_TRANSPARENT
  }

  /** The corner radius a button ends with after the stages run with `flags`. */
  function StyledCorner(bs: seq<Button>, k: nat, flags: bv32): int
    requires k < |bs|
  {
    if !Enabled(flags, FLAG_CORNERS) then bs[k].cornerDp
    else if IsRound(bs[k].id) && FindId(bs, bs[k].id) == Some(k) then ROUND_CORNER_DP
    else DEFAULT_CORNER_DP
  }

  /**
   * Each button keeps its identifier, position and order and gets the
   * standard size; when the colour flag is set, the first button of each
   * categorised identifier gets its category's colour and every other
   * button becomes transparent; when the corner flag is set, the first
   * power button and the first button of each digit get 400 dp corners and
   * every other button 16 dp. A stage whose flag is clear changes nothing.
   */
  lemma StyledEffect(bs: seq<Button>, flags: bv32, w: int, h: int)
    ensures |Styled(bs, flags, w, h)| == |bs|
    ensures forall k :: 0 <= k < |bs| ==>
      Styled(bs, flags, w, h)[k] ==
        bs[k].(w := w, h := h, bg := StyledBackground(bs, k, flags), cornerDp := StyledCorner(bs, k, flags))
  {
    var sized := SizeAll(bs, w, h);
    assert Ids(sized) == Ids(bs);
    var coloured := if Enabled(flags, FLAG_COLOR) then ColorPass(sized) else sized;
    ColorPassEffect(sized);
    assert Ids(coloured) == Ids(bs);
    CornerPassEffect(coloured);
    forall k | 0 <= k < |bs|
      ensures Styled(bs, flags, w, h)[k] ==
        bs[k].(w := w, h := h, bg := StyledBackground(bs, k, flags), cornerDp := StyledCorner(bs, k, flags))
    {
      FindIdSameIds(sized, bs, bs[k].id);
      FindIdSameIds(coloured, bs, bs[k].id);
    }
  }
}
