/**
 * The organizer's stage flags: a 32-bit mask with one bit per stage of a
 * pass. A stage runs exactly when its bit is set.
 */
module Flags {

  const FLAG_TEXT: bv32 := 1 << 0
  const FLAG_ICON: bv32 := 1 << 1
  const FLAG_COLOR: bv32 := 1 << 2
  const FLAG_POSITION: bv32 := 1 << 3
  const FLAG_TEXT_SIZE: bv32 := 1 << 4
  const FLAG_CORNERS: bv32 := 1 << 5

  /** The flags a new organizer starts with. */
  const DEFAULT_FLAGS: bv32 := FLAG_ICON | FLAG_POSITION | FLAG_COLOR | FLAG_CORNERS

  predicate IsStageFlag(f: bv32)
  {
    f == FLAG_TEXT || f == FLAG_ICON || f == FLAG_COLOR ||
    f == FLAG_POSITION || f == FLAG_TEXT_SIZE || f == FLAG_CORNERS
  }

  /** The test organize makes before running a stage. */
  predicate Enabled(flags: bv32, flag: bv32)
  {
    flags & flag != 0
  }

  /** A new organizer sizes, colours, rounds corners, sets icons and positions, but leaves text and text size alone. */
  lemma DefaultStages()
    ensures Enabled(DEFAULT_FLAGS, FLAG_ICON) && Enabled(DEFAULT_FLAGS, FLAG_POSITION)
    ensures Enabled(DEFAULT_FLAGS, FLAG_COLOR) && Enabled(DEFAULT_FLAGS, FLAG_CORNERS)
    ensures !Enabled(DEFAULT_FLAGS, FLAG_TEXT) && !Enabled(DEFAULT_FLAGS, FLAG_TEXT_SIZE)
  {
  }

  /** The stage flags are six distinct single bits. */
  lemma StageFlagsDistinct(f: bv32, g: bv32)
    requires IsStageFlag(f) && IsStageFlag(g)
    ensures f != 0
    ensures f & g != 0 <==> f == g
  {
  }

  /** addFlag switches its stage on and leaves every other stage as it was. */
  lemma AddFlagEffect(flags: bv32, flag: bv32, f: bv32)
    requires IsStageFlag(flag) && IsStageFlag(f)
    ensures Enabled(flags | flag, f) <==> f == flag || Enabled(flags, f)
  {
    StageFlagsDistinct(flag, f);
  }

  /** clearFlag switches its stage off and leaves every other stage as it was. */
  lemma ClearFlagEffect(flags: bv32, flag: bv32, f: bv32)
    requires IsStageFlag(flag) && IsStageFlag(f)
    ensures Enabled(flags & !flag, f) <==> f != flag && Enabled(flags, f)
  {
    StageFlagsDistinct(flag, f);
  }
}
