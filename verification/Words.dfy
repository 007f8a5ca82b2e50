/** Machine words of the C source, and the arithmetic they wrap with. */
module Words {
  const U32: int := 0x1_0000_0000
  const U64: int := 0x1_0000_0000_0000_0000

  type u8 = x: int | 0 <= x < 256
  type u16 = x: int | 0 <= x < 0x1_0000
  type u32 = x: int | 0 <= x < 0x1_0000_0000
  type u64 = x: int | 0 <= x < 0x1_0000_0000_0000_0000

  datatype Option<+T> = None | Some(value: T)

  /** The low sixteen bits of an unbounded sequence number. */
  function Lo16(n: int): u16 {
    n % 0x1_0000
  }

  /** `(uint16_t)(to - from)`: how far ahead of `from` the counter `to` is. */
  function Dist16(to: int, from: int): u16 {
    (to - from) % 0x1_0000
  }

  /** `a - b` on uint64_t. */
  function Sub64(a: u64, b: u64): u64 {
    (a - b) % 0x1_0000_0000_0000_0000
  }

  /** The number at or above `from` whose low sixteen bits are `s`, less than one lap away. */
  function Ahead(from: int, s: u16): int {
    from + Dist16(s, from)
  }

  lemma DistOfLow(to: int, from: int)
    ensures Dist16(Lo16(to), Lo16(from)) == Dist16(to, from)
    ensures Dist16(Lo16(to), from) == Dist16(to, from)
  {
    var laps, behind := to / 0x1_0000, from / 0x1_0000;
    assert to - from == Lo16(to) - Lo16(from) + 0x1_0000 * (laps - behind);
    assert to - from == Lo16(to) - from + 0x1_0000 * laps;
  }

  lemma DistAhead(from: int, n: int)
    requires from <= n < from + 0x1_0000
    ensures Dist16(Lo16(n), Lo16(from)) == n - from
  {
    DistOfLow(n, from);
  }

  lemma DistBehind(from: int, n: int)
    requires from - 0x1_0000 <= n < from
    ensures Dist16(Lo16(n), Lo16(from)) == n - from + 0x1_0000
  {
    DistOfLow(n, from);
  }

  lemma AheadOfLow(from: int, n: int)
    requires from <= n < from + 0x1_0000
    ensures Ahead(from, Lo16(n)) == n
  {
    DistOfLow(n, from);
  }

  lemma LowOfAhead(from: int, s: u16)
    ensures Lo16(Ahead(from, s)) == s
  {
  }

  /** Moving the counter up by one brings a number ahead of it one closer. */
  lemma DistTurn(s: u16, expected: u16)
    requires Dist16(s, expected) > 0
    ensures Dist16(s, Lo16(expected + 1)) == Dist16(s, expected) - 1
  {
  }

  /** Two numbers less than one lap apart have different low halves. */
  lemma LowInjective(m: int, n: int)
    requires Lo16(m) == Lo16(n)
    requires m - 0x1_0000 < n < m + 0x1_0000
    ensures m == n
  {
  }

  function Word16(hi: u8, lo: u8): u16 {
    hi * 256 + lo
  }

  function Word32(a: u8, b: u8, c: u8, d: u8): u32 {
    a * 0x100_0000 + b * 0x1_0000 + c * 0x100 + d
  }
}
