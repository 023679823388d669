/**
 * The two categorical styling passes: background colour and corner radius.
 * Each first gives every button a default, then overrides the style of the
 * button `findId` returns for each identifier of a fixed table.
 */
module Styling {
  import opened Buttons

  /** One attribute a styling pass writes. */
  datatype Style = Background(color: int) | Corner(dp: int)

  function Restyle(b: Button, s: Style): Button
  {
    match s
    case Background(c) => b.(bg := c)
    case Corner(dp) => b.(cornerDp := dp)
  }

  /** Both styles write the same attribute. */
  predicate SameKind(s: Style, t: Style)
  {
    s.Background? == t.Background?
  }

  predicate UniformTable(tbl: seq<(int, Style)>, kind: Style)
  {
    forall i :: 0 <= i < |tbl| ==> SameKind(tbl[i].1, kind)
  }

  /** setColor / setButtonCornerDp(findId(id), …): restyle the first button carrying `id`, if any. */
  function StyleById(bs: seq<Button>, id: int, s: Style): (r: seq<Button>)
    ensures |r| == |bs| && Ids(r) == Ids(bs)
    ensures FindId(bs, id).None? ==> r == bs
    ensures FindId(bs, id).Some? ==> r == bs[FindId(bs, id).value := Restyle(bs[FindId(bs, id).value], s)]
  {
    match FindId(bs, id)
    case None => bs
    case Some(k) => bs[k := Restyle(bs[k], s)]
  }

  /** Give every button the style `s` (the default loop of each pass). */
  function StyleAll(bs: seq<Button>, s: Style): seq<Button>
  {
    seq(|bs|, i requires 0 <= i < |bs| => Restyle(bs[i], s))
  }

  /** The overrides of a table, applied in table order. */
  function ApplyTable(bs: seq<Button>, tbl: seq<(int, Style)>): seq<Button>
    decreases |tbl|
  {
    if |tbl| == 0 then bs
    else StyleById(ApplyTable(bs, tbl[..|tbl| - 1]), tbl[|tbl| - 1].0, tbl[|tbl| - 1].1)
  }

  /** The style the table gives `id`: its last entry for `id`, since later overrides win. */
  function Lookup(tbl: seq<(int, Style)>, id: int): Option<Style>
    decreases |tbl|
  {
    if |tbl| == 0 then None
    else if tbl[|tbl| - 1].0 == id then Some(tbl[|tbl| - 1].1)
    else Lookup(tbl[..|tbl| - 1], id)
  }

  /** A full styling pass: defaults for all, then the table's overrides. */
  function StylePass(bs: seq<Button>, default: Style, tbl: seq<(int, Style)>): seq<Button>
  {
    ApplyTable(StyleAll(bs, default), tbl)
  }

  /**
   * What a table does to each button: the first button carrying an
   * identifier of the table gets that identifier's (last) style; every
   * other button, including later buttons with the same identifier, is
   * left as it was.
   */
  lemma {:induction false} ApplyTableEffect(bs: seq<Button>, tbl: seq<(int, Style)>, kind: Style)
    requires UniformTable(tbl, kind)
    ensures |ApplyTable(bs, tbl)| == |bs|
    ensures forall k :: 0 <= k < |bs| ==>
      ApplyTable(bs, tbl)[k] ==
        if Lookup(tbl, bs[k].id).Some? && FindId(bs, bs[k].id) == Some(k)
        then Restyle(bs[k], Lookup(tbl, bs[k].id).value)
        else bs[k]
    decreases |tbl|
  {
    if |tbl| > 0 {
      var pre := tbl[..|tbl| - 1];
      var (id, s) := tbl[|tbl| - 1];
      assert UniformTable(pre, kind);
      ApplyTableEffect(bs, pre, kind);
      var mid := ApplyTable(bs, pre);
      assert Ids(mid) == Ids(bs) by {
        ApplyTableIds(bs, pre);
      }
      assert FindId(mid, id) == FindId(bs, id) by {
        FindIdSameIds(mid, bs, id);
      }
      forall k | 0 <= k < |bs|
        ensures ApplyTable(bs, tbl)[k] ==
          if Lookup(tbl, bs[k].id).Some? && FindId(bs, bs[k].id) == Some(k)
          then Restyle(bs[k], Lookup(tbl, bs[k].id).value)
          else bs[k]
      {
        if bs[k].id == id && FindId(bs, id) == Some(k) {
          var p := Lookup(pre, id);
          assert p.Some? ==> SameKind(p.value, s) by {
            LookupInTable(pre, id);
          }
        }
      }
    }
  }

  lemma {:induction false} ApplyTableIds(bs: seq<Button>, tbl: seq<(int, Style)>)
    ensures Ids(ApplyTable(bs, tbl)) == Ids(bs)
    decreases |tbl|
  {
    if |tbl| > 0 {
      ApplyTableIds(bs, tbl[..|tbl| - 1]);
    }
  }

  lemma FindIdSameIds(a: seq<Button>, b: seq<Button>, id: int)
    requires Ids(a) == Ids(b)
    ensures FindId(a, id) == FindId(b, id)
  {
    assert |a| == |Ids(a)| == |Ids(b)| == |b|;
    assert forall j :: 0 <= j < |a| ==> a[j].id == Ids(a)[j] == Ids(b)[j] == b[j].id;
  }

  lemma {:induction false} LookupInTable(tbl: seq<(int, Style)>, id: int)
    ensures Lookup(tbl, id).Some? ==> exists i :: 0 <= i < |tbl| && tbl[i] == (id, Lookup(tbl, id).value)
    decreases |tbl|
  {
    if |tbl| > 0 && tbl[|tbl| - 1].0 != id {
      LookupInTable(tbl[..|tbl| - 1], id);
      if Lookup(tbl, id).Some? {
        var i :| 0 <= i < |tbl| - 1 && tbl[..|tbl| - 1][i] == (id, Lookup(tbl, id).value);
        assert tbl[i] == (id, Lookup(tbl, id).value);
      }
    }
  }

  /**
   * A whole pass: the first button carrying a listed identifier ends with
   * that identifier's style, every other button with the default, and
   * nothing but the styled attribute changes.
   */
  lemma StylePassEffect(bs: seq<Button>, default: Style, tbl: seq<(int, Style)>)
    requires UniformTable(tbl, default)
    ensures |StylePass(bs, default, tbl)| == |bs|
    ensures forall k :: 0 <= k < |bs| ==>
      StylePass(bs, default, tbl)[k] ==
        Restyle(bs[k], if Lookup(tbl, bs[k].id).Some? && FindId(bs, bs[k].id) == Some(k)
                       then Lookup(tbl, bs[k].id).value else default)
  {
    var all := StyleAll(bs, default);
    assert Ids(all) == Ids(bs);
    FindIdSameIds(all, bs, 0);
    ApplyTableEffect(all, tbl, default);
    forall k | 0 <= k < |bs|
      ensures StylePass(bs, default, tbl)[k] ==
        Restyle(bs[k], if Lookup(tbl, bs[k].id).Some? && FindId(bs, bs[k].id) == Some(k)
                       then Lookup(tbl, bs[k].id).value else default)
    {
      FindIdSameIds(all, bs, bs[k].id);
      var l := Lookup(tbl, bs[k].id);
      if l.Some? {
        LookupInTable(tbl, bs[k].id);
      }
    }
  }

  function Uniform(ids: seq<int>, s: Style): seq<(int, Style)>
  {
    seq(|ids|, i requires 0 <= i < |ids| => (ids[i], s))
  }

  const VolumeIds: seq<int> := [ID_VOL_UP, ID_VOL_DOWN, ID_MUTE]
  const ChannelIds: seq<int> := [ID_CH_UP, ID_CH_DOWN, ID_MENU]
  const NavIds: seq<int> := [ID_NAV_DOWN, ID_NAV_UP, ID_NAV_LEFT, ID_NAV_RIGHT, ID_NAV_OK]
  const DigitIds: seq<int> := [ID_DIGIT_0, ID_DIGIT_1, ID_DIGIT_2, ID_DIGIT_3, ID_DIGIT_4,
                               ID_DIGIT_5, ID_DIGIT_6, ID_DIGIT_7, ID_DIGIT_8, ID_DIGIT_9]
  const MediaIds: seq<int> := [ID_REC, ID_STOP, ID_PREV, ID_NEXT, ID_FFWD, ID_RWD, ID_PLAY, ID_PAUSE]


  // ---------------------------------------------------------------------
  // The colour pass

  /** The colour overrides of setupColor, group by group in the order it applies them. */
  const ColorTable: seq<(int, Style)> :=
    Uniform(VolumeIds, Background(BG_ORANGE)) + Uniform(ChannelIds, Background(BG_GREY)) +
    Uniform([ID_POWER], Background(BG_RED)) + Uniform(NavIds, Background(BG_BLUE_GREY)) +
    Uniform(DigitIds, Background(BG_TEAL)) + Uniform(MediaIds, Background(BG_GREY))

  /**
   * The colour of each button category: volume, channel, power,
   * navigation, digit, media. The groups are disjoint; they are tested
   * last group first, as the table's later entries win.
   */
  function CategoryColor(id: int): Option<int>
  {
    if id in MediaIds then Some(BG_GREY)
    else if id in DigitIds then Some(BG_TEAL)
    else if id in NavIds then Some(BG_BLUE_GREY)
    else if id == ID_POWER then Some(BG_RED)
    else if id in ChannelIds then Some(BG_GREY)
    else if id in VolumeIds then Some(BG_ORANGE)
    else None
  }

  function ColorPass(bs: seq<Button>): seq<Button>
  {
    StylePass(bs, Background(BG_TRANSPARENT), ColorTable)
  }

  // ---------------------------------------------------------------------
  // The corner pass

  const DEFAULT_CORNER_DP: int := 16
  const ROUND_CORNER_DP: int := 400

  /** The overrides of setupCorners: power, then the digits 0 to 9, made round. */
  const CornerTable: seq<(int, Style)> := Uniform([ID_POWER] + DigitIds, Corner(ROUND_CORNER_DP))

  function CornerPass(bs: seq<Button>): seq<Button>
  {
    StylePass(bs, Corner(DEFAULT_CORNER_DP), CornerTable)
  }

  // ---------------------------------------------------------------------
  // The tables against their categories

  lemma {:induction false} LookupAppend(a: seq<(int, Style)>, b: seq<(int, Style)>, id: int)
    ensures Lookup(a + b, id) == if Lookup(b, id).Some? then Lookup(b, id) else Lookup(a, id)
    decreases |b|
  {
    if |b| == 0 {
      assert a + b == a;
    } else {
      assert (a + b)[..|a + b| - 1] == a + b[..|b| - 1];
      LookupAppend(a, b[..|b| - 1], id);
    }
  }

  /** Lookup in a table of entries that all carry the same style. */
  lemma {:induction false} LookupUniform(ids: seq<int>, s: Style, id: int)
    ensures Lookup(Uniform(ids, s), id) == if id in ids then Some(s) else None
    decreases |ids|
  {
    if |ids| > 0 {
      var n := |ids| - 1;
      assert Uniform(ids, s)[..n] == Uniform(ids[..n], s);
      LookupUniform(ids[..n], s, id);
      assert ids == ids[..n] + [ids[n]];
    }
  }

  /** The colour table gives each identifier the colour of its category, and nothing to the others. */
  lemma ColorTableMatchesCategories(id: int)
    ensures Lookup(ColorTable, id) == match CategoryColor(id) case None => None case Some(c) => Some(Background(c))
  {
    var g1 := Uniform(VolumeIds, Background(BG_ORANGE));
    var g2 := Uniform(ChannelIds, Background(BG_GREY));
    var g3 := Uniform([ID_POWER], Background(BG_RED));
    var g4 := Uniform(NavIds, Background(BG_BLUE_GREY));
    var g5 := Uniform(DigitIds, Background(BG_TEAL));
    var g6 := Uniform(MediaIds, Background(BG_GREY));
    LookupUniform(VolumeIds, Background(BG_ORANGE), id);
    LookupUniform(ChannelIds, Background(BG_GREY), id);
    LookupUniform([ID_POWER], Background(BG_RED), id);
    LookupUniform(NavIds, Background(BG_BLUE_GREY), id);
    LookupUniform(DigitIds, Background(BG_TEAL), id);
    LookupUniform(MediaIds, Background(BG_GREY), id);
    LookupAppend(g1, g2, id);
    LookupAppend(g1 + g2, g3, id);
    LookupAppend(g1 + g2 + g3, g4, id);
    LookupAppend(g1 + g2 + g3 + g4, g5, id);
    LookupAppend(g1 + g2 + g3 + g4 + g5, g6, id);
  }

  /** The buttons that get round corners: power and the ten digits. */
  predicate IsRound(id: int)
  {
    id == ID_POWER || id in DigitIds
  }

  lemma CornerTableIsRoundIds(id: int)
    ensures Lookup(CornerTable, id) == if IsRound(id) then Some(Corner(ROUND_CORNER_DP)) else None
  {
    LookupUniform([ID_POWER] + DigitIds, Corner(ROUND_CORNER_DP), id);
  }

  /**
   * After the colour pass, the first button carrying a categorised
   * identifier has its category's colour and every other button is
   * transparent; only the background changes.
   */
  lemma ColorPassEffect(bs: seq<Button>)
    ensures |ColorPass(bs)| == |bs|
    ensures forall k :: 0 <= k < |bs| ==>
      ColorPass(bs)[k] == bs[k].(bg := if CategoryColor(bs[k].id).Some? && FindId(bs, bs[k].id) == Some(k)
                                      then CategoryColor(bs[k].id).value else BG_TRANSPARENT)
  {
    StylePassEffect(bs, Background(BG_TRANSPARENT), ColorTable);
    forall k | 0 <= k < |bs|
      ensures ColorPass(bs)[k] == bs[k].(bg := if CategoryColor(bs[k].id).Some? && FindId(bs, bs[k].id) == Some(k)
                                             then CategoryColor(bs[k].id).value else BG_TRANSPARENT)
    {
      ColorTableMatchesCategories(bs[k].id);
    }
  }

  /**
   * After the corner pass, the first power button and the first button of
   * each digit have radius 400 dp, every other button 16 dp; only the
   * corner radius changes.
   */
  lemma CornerPassEffect(bs: seq<Button>)
    ensures |CornerPass(bs)| == |bs|
    ensures forall k :: 0 <= k < |bs| ==>
      CornerPass(bs)[k] == bs[k].(cornerDp := if IsRound(bs[k].id) && FindId(bs, bs[k].id) == Some(k)
                                              then ROUND_CORNER_DP else DEFAULT_CORNER_DP)
  {
    StylePassEffect(bs, Corner(DEFAULT_CORNER_DP), CornerTable);
    forall k | 0 <= k < |bs|
      ensures CornerPass(bs)[k] == bs[k].(cornerDp := if IsRound(bs[k].id) && FindId(bs, bs[k].id) == Some(k)
                                                     then ROUND_CORNER_DP else DEFAULT_CORNER_DP)
    {
      CornerTableIsRoundIds(bs[k].id);
    }
  }
}
