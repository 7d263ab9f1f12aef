// Shared vocabulary: optional values, machine integer ranges, and the two modular
// operations the connection counters rely on.

module Common {

  datatype Option<+T> = None | Some(value: T)

  type u8 = x: int | 0 <= x < 0x100
  type u16 = x: int | 0 <= x < 0x1_0000
  type u32 = x: int | 0 <= x < 0x1_0000_0000

  function Min(a: nat, b: nat): nat {
    if a <= b then a else b
  }

  /** `u32::wrapping_add` (and the wrap-around of `AtomicU32::fetch_add`). */
  function Add32(a: u32, b: nat): u32 {
    (a + b) % 0x1_0000_0000
  }

  /** `u32::wrapping_sub`. */
  function Sub32(a: u32, b: u32): u32 {
    (a - b) % 0x1_0000_0000
  }

  /** `AtomicU16::fetch_add` and the release-mode `u16 += 1`. */
  function Add16(a: u16, b: nat): u16 {
    (a + b) % 0x1_0000
  }

  /** The 32-bit counter of a running total is the counter of the total's 32-bit image. */
  lemma Add32Tracks(total: nat, n: nat)
    ensures Add32(total % 0x1_0000_0000, n) == (total + n) % 0x1_0000_0000
  {
    var q := total / 0x1_0000_0000;
    assert total == q * 0x1_0000_0000 + total % 0x1_0000_0000;
    ModAddMultiple(total % 0x1_0000_0000 + n, q);
  }

  lemma ModAddMultiple(x: int, q: int)
    ensures (x + q * 0x1_0000_0000) % 0x1_0000_0000 == x % 0x1_0000_0000
  {
  }

  /** Serial-number subtraction is exact for two totals less than 2^32 apart, whatever
      the number of times either of them has wrapped (section 3.4 of RFC 9293). */
  lemma Sub32Exact(hi: nat, lo: nat)
    requires lo <= hi < lo + 0x1_0000_0000
    ensures Sub32(hi % 0x1_0000_0000, lo % 0x1_0000_0000) == hi - lo
  {
    var p, q := hi / 0x1_0000_0000, lo / 0x1_0000_0000;
    assert hi % 0x1_0000_0000 - lo % 0x1_0000_0000 == (hi - lo) + (q - p) * 0x1_0000_0000;
    ModAddMultiple(hi - lo, q - p);
  }
}
