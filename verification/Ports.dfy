// Source-port allocation: a 16-bit counter that skips port 0, probed at most 64 times a call.
// Ticks count the probes ever made, without wrapping; the counter is their value mod 2^16.

module Ports {
  import opened Common

  const MAX_SOURCE_PORT_PROBES: nat := 64

  /** The port tried at a tick: counter value 0 is replaced by 1. */
  function PortAt(tick: nat): u16 {
    if tick % 0x1_0000 == 0 then 1 else tick % 0x1_0000
  }

  /** The tick of the first free probe among those from `tick` up to `end`. */
  function Probe(occupied: set<u16>, tick: nat, end: nat): (r: Option<nat>)
    requires tick <= end
    ensures r.Some? ==> tick <= r.value < end && PortAt(r.value) !in occupied
    ensures r.Some? ==> forall i :: tick <= i < r.value ==> PortAt(i) in occupied
    ensures r.None? ==> forall i :: tick <= i < end ==> PortAt(i) in occupied
    decreases end - tick
  {
    if tick == end then None
    else if PortAt(tick) !in occupied then Some(tick)
    else Probe(occupied, tick + 1, end)
  }

  /** The port one `register` call hands out, if any. */
  function Handed(occupied: set<u16>, tick: nat): Option<u16> {
    match Probe(occupied, tick, tick + MAX_SOURCE_PORT_PROBES)
    case None => None
    case Some(at) => Some(PortAt(at))
  }

  function TickAfter(occupied: set<u16>, tick: nat): nat {
    match Probe(occupied, tick, tick + MAX_SOURCE_PORT_PROBES)
    case None => tick + MAX_SOURCE_PORT_PROBES
    case Some(at) => at + 1
  }

  // ----- availability -----

  function Probed(tick: nat, k: nat): set<u16> {
    set i | tick <= i < tick + k :: PortAt(i)
  }

  /** Number of multiples of 2^16 among the ticks before `t`. */
  function ZerosBefore(t: nat): nat {
    (t + 0xffff) / 0x1_0000
  }

  /** The ports of the probes whose counter value is not 0. */
  function ProbedNonzero(tick: nat, k: nat): set<u16> {
    set i | tick <= i < tick + k && i % 0x1_0000 != 0 :: PortAt(i)
  }

  lemma NonzeroDistinct(i: nat, j: nat)
    requires i < j < i + 0x1_0000 && i % 0x1_0000 != 0 && j % 0x1_0000 != 0
    ensures PortAt(i) != PortAt(j)
  {
  }

  lemma ProbedSnoc(tick: nat, k: nat)
    requires 0 < k <= MAX_SOURCE_PORT_PROBES
    ensures var last := tick + k - 1;
            if last % 0x1_0000 == 0 then ProbedNonzero(tick, k) == ProbedNonzero(tick, k - 1)
            else ProbedNonzero(tick, k) == ProbedNonzero(tick, k - 1) + {PortAt(last)}
                 && PortAt(last) !in ProbedNonzero(tick, k - 1)
  {
    var last := tick + k - 1;
    if last % 0x1_0000 != 0 {
      forall i | tick <= i < last && i % 0x1_0000 != 0 ensures PortAt(i) != PortAt(last) {
        NonzeroDistinct(i, last);
      }
    }
  }

  lemma {:induction false} NonzeroCount(tick: nat, k: nat)
    requires k <= MAX_SOURCE_PORT_PROBES
    ensures |ProbedNonzero(tick, k)| == k - (ZerosBefore(tick + k) - ZerosBefore(tick))
  {
    if k > 0 {
      NonzeroCount(tick, k - 1);
      ProbedSnoc(tick, k);
      ZeroStep(tick + k - 1);
    }
  }

  lemma ZeroStep(t: nat)
    ensures ZerosBefore(t + 1) == ZerosBefore(t) + (if t % 0x1_0000 == 0 then 1 else 0)
  {
  }

  /** Up to 64 consecutive probes try at least one port fewer than their number, and exactly
      one fewer only across the wrap, where 0 and 1 both mean port 1. */
  lemma ProbedCount(tick: nat, k: nat)
    requires k <= MAX_SOURCE_PORT_PROBES
    ensures |Probed(tick, k)| + 1 >= k
  {
    NonzeroCount(tick, k);
    SubsetSize(ProbedNonzero(tick, k), Probed(tick, k));
  }

  lemma SubsetSize(a: set<u16>, b: set<u16>)
    requires a <= b
    ensures |a| <= |b|
  {
    assert b == a + (b - a);
  }

  /** Port availability: with at most 62 routes a call finds a port, from any counter value. */
  lemma AlwaysAvailable(occupied: set<u16>, tick: nat)
    requires |occupied| <= 62
    ensures Handed(occupied, tick).Some?
  {
    if Probe(occupied, tick, tick + MAX_SOURCE_PORT_PROBES).None? {
      assert Probed(tick, MAX_SOURCE_PORT_PROBES) <= occupied;
      SubsetSize(Probed(tick, MAX_SOURCE_PORT_PROBES), occupied);
      ProbedCount(tick, MAX_SOURCE_PORT_PROBES);
    }
  }

  /** A call fails exactly when every port it tries is taken. */
  lemma FailsExactly(occupied: set<u16>, tick: nat)
    ensures Handed(occupied, tick).None? <==> Probed(tick, MAX_SOURCE_PORT_PROBES) <= occupied
  {
    var r := Probe(occupied, tick, tick + MAX_SOURCE_PORT_PROBES);
    if r.Some? {
      assert PortAt(r.value) in Probed(tick, MAX_SOURCE_PORT_PROBES);
    }
  }

  lemma {:induction false} LowPorts(n: nat)
    requires n < 0x1_0000
    ensures |PortsUpTo(n)| == n
  {
    if n > 0 {
      LowPorts(n - 1);
      assert PortsUpTo(n) == PortsUpTo(n - 1) + {n};
    } else {
      assert PortsUpTo(0) == {};
    }
  }

  predicate InRange(p: u16, n: nat) { 1 <= p <= n }

  function PortsUpTo(n: nat): set<u16> {
    set p: u16 | InRange(p, n)
  }

  predicate IsOther(p: u16, q: u16) { q != p && q != 0 }

  /** Every port that can be allocated except one. */
  function AllBut(p: u16): set<u16> {
    set q: u16 | IsOther(p, q)
  }

  /** 62 is the best bound: 63 routes can make a call fail, at the wrap of the counter, where one
      of the 64 probes is spent on trying port 1 twice. */
  lemma SixtyThreeCanFail()
    ensures exists occupied: set<u16> :: |occupied| == 63 && 0 !in occupied && Handed(occupied, 0x1_0000).None?
  {
    var occupied := PortsUpTo(63);
    LowPorts(63);
    assert Probed(0x1_0000, MAX_SOURCE_PORT_PROBES) <= occupied;
    FailsExactly(occupied, 0x1_0000);
    assert |occupied| == 63 && 0 !in occupied;
  }

  // ----- quarantine -----

  /** Ticks after a series of calls, each finding its own set of routes. */
  function TickAfterAll(calls: seq<set<u16>>, tick: nat): (t: nat)
    ensures tick + |calls| <= t <= tick + 64 * |calls|
  {
    if calls == [] then tick else TickAfterAll(calls[1..], TickAfter(calls[0], tick))
  }

  lemma NoRepeat(i: nat, j: nat)
    requires i < j < i + 0x1_0000 && PortAt(i) >= 2
    ensures PortAt(i) != PortAt(j)
  {
  }

  lemma HandedAt(occupied: set<u16>, tick: nat) returns (at: nat)
    requires Handed(occupied, tick).Some?
    ensures tick <= at < tick + MAX_SOURCE_PORT_PROBES
    ensures Handed(occupied, tick) == Some(PortAt(at)) && TickAfter(occupied, tick) == at + 1
  {
    at := Probe(occupied, tick, tick + MAX_SOURCE_PORT_PROBES).value;
  }

  /** Port quarantine: a port from 2 up is not handed out again by any of the next 1023 calls,
      whatever routes come and go in between. */
  lemma Quarantine(p: u16, occupied: set<u16>, tick: nat, between: seq<set<u16>>, later: set<u16>)
    requires Handed(occupied, tick) == Some(p) && p >= 2
    requires |between| < 1023
    ensures Handed(later, TickAfterAll(between, TickAfter(occupied, tick))) != Some(p)
  {
    var first := HandedAt(occupied, tick);
    LaterCallDiffers(first, between, later);
  }

  lemma LaterCallDiffers(first: nat, between: seq<set<u16>>, later: set<u16>)
    requires PortAt(first) >= 2 && |between| < 1023
    ensures Handed(later, TickAfterAll(between, first + 1)) != Some(PortAt(first))
  {
    var start := TickAfterAll(between, first + 1);
    assert first < start <= first + 1 + 64 * 1022;
    if Handed(later, start).Some? {
      var second := HandedAt(later, start);
      NoRepeat(first, second);
    }
  }

  lemma {:induction false} FailingCalls(occupied: set<u16>, tick: nat, n: nat)
    requires forall i :: tick <= i < tick + 64 * n ==> PortAt(i) in occupied
    ensures TickAfterAll(seq(n, (_: nat) => occupied), tick) == tick + 64 * n
    decreases n
  {
    if n > 0 {
      var calls := seq(n, (_: nat) => occupied);
      assert calls[1..] == seq(n - 1, (_: nat) => occupied);
      assert Probed(tick, MAX_SOURCE_PORT_PROBES) <= occupied;
      FailsExactly(occupied, tick);
      FailingCalls(occupied, tick + MAX_SOURCE_PORT_PROBES, n - 1);
    }
  }

  /** 1023 is exact: when every other port is taken, the 1024th call hands the port out again. */
  lemma QuarantineIsTight(p: u16)
    requires p >= 2
    ensures var occupied := AllBut(p);
            var again := TickAfterAll(seq(1023, (_: nat) => occupied), TickAfter(occupied, p));
            && Handed(occupied, p) == Some(p)
            && Handed(occupied, again) == Some(p)
  {
    var occupied, again := AllBut(p), p + 1 + 64 * 1023;
    OthersTaken(p);
    FailingCalls(occupied, p + 1, 1023);
    assert again + 63 == p + 0x1_0000;
  }

  lemma OthersTaken(p: u16)
    requires p >= 2
    ensures PortAt(p) == p == PortAt(p + 0x1_0000) && p !in AllBut(p)
    ensures forall i :: p < i < p + 0x1_0000 ==> PortAt(i) in AllBut(p)
  {
    forall i | p < i < p + 0x1_0000 ensures PortAt(i) in AllBut(p) {
      NoRepeat(p, i);
      assert IsOther(p, PortAt(i));
    }
  }

  /** Port 1 is exempt: the counter values 0 and 1 both mean it, so once its route is gone the
      very next call can hand it out again. */
  lemma PortOneRepeats()
    ensures Handed({}, 0x1_0000) == Some(1) && Handed({}, TickAfter({}, 0x1_0000)) == Some(1)
  {
  }
}
