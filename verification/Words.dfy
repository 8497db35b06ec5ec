/** Machine words and the integers that fit one. */
module Words {
  const WORD := 0x1_0000_0000
  const INT_MIN := -0x8000_0000
  const INT_MAX := 0x7fff_ffff

  /** A multiple is no smaller in size than what it is a multiple of. */
  lemma MultipleSize(m: int, d: int)
    requires m >= 0
    ensures (d >= 1 ==> m * d >= m) && (d <= -1 ==> m * d <= 0 - m)
  {
    if d >= 1 {
      assert m * (d - 1) >= 0;
    } else if d <= -1 {
      assert m * (-1 - d) >= 0;
    }
  }
}
