/** Unit conversion used for every physical length of the document (mmToPt). */
module Units {

  /** Millimetres to PDF points: one inch is 25.4 mm and 72 pt. */
  function MmToPt(mm: real): (pt: real)
    ensures mm > 0.0 ==> pt > mm
    ensures mm == 0.0 ==> pt == 0.0
  {
    mm * 72.0 / 25.4
  }

  /** An inch converts to exactly 72 points. */
  lemma MmToPtInch()
    ensures MmToPt(25.4) == 72.0
  {
  }

  /** The conversion is additive (it is linear). */
  lemma MmToPtAdditive(a: real, b: real)
    ensures MmToPt(a + b) == MmToPt(a) + MmToPt(b)
  {
  }

  /** The conversion is strictly increasing, so it preserves every comparison of lengths. */
  lemma MmToPtStrictlyIncreasing(a: real, b: real)
    ensures a < b <==> MmToPt(a) < MmToPt(b)
  {
  }
}
