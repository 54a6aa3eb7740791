/**
 * The weighted track choice of `play_random` (main.cpp:108-120), given the
 * two values `rand16` returns; the draws themselves are made by the class in
 * module Firmware. Constants are the user settings of main.cpp:24-30.
 */
module Selector {
  import opened Base

  const Folder1: byte := 0x01
  const File1Min := 1
  const File1Max := 27
  const Folder2: byte := 0x02
  const File2Min := 1
  const File2Max := 43
  /** Percentage chance of folder 1. */
  const WeightFolder1 := 90

  /** A folder and a file within it, the data bytes of a play command. */
  datatype Selection = Selection(folder: byte, file: byte)

  /** A selection the settings allow: a configured folder and a file in its range. */
  predicate InRange(sel: Selection)
  {
    || (sel.folder == Folder1 && File1Min <= sel.file <= File1Max)
    || (sel.folder == Folder2 && File2Min <= sel.file <= File2Max)
  }

  /** `pick = rand16() % 100`, stored in a `uint8_t`. */
  function Pick(first: uint16): (pick: byte)
    ensures pick < 100
  {
    first % 100
  }

  /**
   * The selection made from the first draw `first` and the second draw
   * `second`: folder 1 exactly when the pick is below the weight (a pick of
   * 90 goes to folder 2), and a file within that folder's range.
   */
  function Choose(first: uint16, second: uint16): (sel: Selection)
    ensures InRange(sel)
    ensures sel.folder == Folder1 <==> Pick(first) < WeightFolder1
    ensures sel.folder == Folder2 <==> Pick(first) >= WeightFolder1
  {
    if Pick(first) < WeightFolder1 then
      Selection(Folder1, File1Min + second % (File1Max - File1Min + 1))
    else
      Selection(Folder2, File2Min + second % (File2Max - File2Min + 1))
  }

  /**
   * Every allowed selection is made by some pair of independent 16-bit
   * values. That two consecutive draws of the register reach every
   * selection too is `Machine.DrawsReachEveryFile`.
   */
  lemma ChooseCoversRange(sel: Selection)
    requires InRange(sel)
    ensures exists first: uint16, second: uint16 :: Choose(first, second) == sel
  {
    var first: uint16 := if sel.folder == Folder1 then 0 else 90;
    var second: uint16 := sel.file - 1;
    assert Choose(first, second) == sel;
  }
}
