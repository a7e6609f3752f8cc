/**
 * The two transcriptions of the LoRa airtime formula: the chip's, from the registers the
 * firmware programmed, and the host driver's, from the simulator's parameters. Floating
 * point is taken as exact arithmetic.
 */
module Airtime {
  import opened Arithmetic
  import opened Bytes
  import opened Radio

  /** The ceiling of n / d. */
  function Ceiling(n: int, d: int): int
    requires d > 0
  {
    -((-n) / d)
  }

  // ---- the chip's formula ----

  function ChipDivisor(sf: nat): int {
    4 * (sf - 2 * (if sf >= 11 then 1 else 0))
  }

  function ChipPayload(len: nat, sf: nat, cr: nat): int
    requires sf >= 1
  {
    8 + Max(Ceiling(8 * len - 4 * sf + 28 + 16, ChipDivisor(sf)) * cr, 0)
  }

  function ChipAirtime(len: nat, m: Modem): int
    requires m.sf >= 1 && m.bwHz > 0
  {
    var symbols := m.preambleSyms as real + 4.25 + ChipPayload(len, m.sf, m.cr) as real;
    (ChipSeconds(symbols, Pow2(m.sf), m.bwHz) * 1000.0 + 0.5).Floor
  }

  function ChipSeconds(symbols: real, chips: nat, bwHz: nat): real
    requires bwHz > 0
  {
    symbols * (chips as real / bwHz as real)
  }

  // ---- the host driver's formula ----

  datatype HostParams = HostParams(sf: nat, bwHz: nat, cr: nat)

  /** Whether a symbol lasts 16 ms or more, which is when the host turns low-data-rate optimisation on. */
  predicate LongSymbol(p: HostParams) {
    1000 * Pow2(p.sf) >= 16 * p.bwHz
  }

  function HostDivisor(p: HostParams): int {
    if LongSymbol(p) then 4 * (p.sf - 2) else 4 * p.sf
  }

  function HostPayload(len: nat, p: HostParams): int
    requires p.sf >= 3
  {
    var extra := if p.sf == 5 || p.sf == 6 then 0 else 8;
    var bits := Max(8 * len + 16 - 4 * p.sf + extra + 20, 0);
    var coded := (bits + HostDivisor(p) - 1) / HostDivisor(p);
    8 + coded * (p.cr + 4)
  }

  function HostPreamble(p: HostParams): nat {
    if p.sf <= 8 then 32 else 16
  }

  function HostAirtime(len: nat, p: HostParams): int
    requires p.sf >= 3 && p.bwHz > 0
  {
    var sync := if p.sf == 5 || p.sf == 6 then 6.25 else 4.25;
    HostMs(HostPreamble(p) as real + sync + HostPayload(len, p) as real, Pow2(p.sf), p.bwHz).Floor
  }

  function HostMs(symbols: real, chips: nat, bwHz: nat): real
    requires bwHz > 0
  {
    var bwKHz := bwHz as real / 1000.0;
    chips as real / bwKHz * symbols
  }

  // ---- agreement ----

  /** Both formulas make the same low-data-rate decision. */
  predicate SameOptimisation(p: HostParams) {
    LongSymbol(p) <==> p.sf >= 11
  }

  lemma CeilingForms(n: int, d: int)
    requires d > 0
    ensures Max(Ceiling(n, d), 0) == (Max(n, 0) + d - 1) / d
  {
    CeilingOf(n, d, (-n) / d, (-n) % d);
  }

  lemma CeilingOf(n: int, d: nat, t: int, r: nat)
    requires d > 0 && -n == d * t + r && r < d && t == (-n) / d
    ensures Max(Ceiling(n, d), 0) == (Max(n, 0) + d - 1) / d
  {
    var q := -t;
    assert d * q == -(d * t) == n + r;
    if n > 0 {
      QuotientUnique(n + d - 1, d, q);
      if q < 0 {
        Scaled(q, -1, d);
      }
    } else {
      QuotientUnique(d - 1, d, 0);
      if q > 0 {
        Scaled(1, q, d);
      }
    }
  }

  lemma Coded(len: nat, p: HostParams)
    requires 7 <= p.sf <= 12
    ensures var n := 8 * len - 4 * p.sf + 44;
            && HostPayload(len, p) == 8 + Max(Ceiling(n, HostDivisor(p)), 0) * (p.cr + 4)
            && ChipPayload(len, p.sf, p.cr + 4) == 8 + Max(Ceiling(n, ChipDivisor(p.sf)), 0) * (p.cr + 4)
  {
    hide Pow2;
    var n := 8 * len - 4 * p.sf + 44;
    CeilingForms(n, HostDivisor(p));
    var c := Ceiling(n, ChipDivisor(p.sf));
    hide Ceiling;
    if c >= 0 {
      Scaled(0, c, p.cr + 4);
    } else {
      Scaled(c, 0, p.cr + 4);
    }
  }

  /** The payload symbol counts agree for every length if and only if the two formulas decide alike about
      low-data-rate optimisation; when they do not, a 60-byte packet already tells them apart. */
  lemma PayloadsAgreeIff(p: HostParams)
    requires 7 <= p.sf <= 12
    ensures (forall len: nat :: ChipPayload(len, p.sf, p.cr + 4) == HostPayload(len, p)) <==> SameOptimisation(p)
  {
    hide Pow2;
    if SameOptimisation(p) {
      forall len: nat ensures ChipPayload(len, p.sf, p.cr + 4) == HostPayload(len, p) {
        Coded(len, p);
      }
    } else {
      SixtyTellsApart(p);
    }
  }

  lemma SixtyTellsApart(p: HostParams)
    requires 7 <= p.sf <= 12 && !SameOptimisation(p)
    ensures ChipPayload(60, p.sf, p.cr + 4) != HostPayload(60, p)
  {
    Coded(60, p);
    SixtyBytes(p.sf);
    hide Ceiling, ChipPayload, HostPayload, LongSymbol, Max, Pow2;
    var n := 524 - 4 * p.sf;
    LessCoding(Ceiling(n, 4 * p.sf), Ceiling(n, 4 * (p.sf - 2)), p.cr + 4);
  }

  lemma LessCoding(a: int, b: int, cr: nat)
    requires 0 < a < b && cr > 0
    ensures Max(a, 0) * cr < Max(b, 0) * cr
  {
    Scaled(a + 1, b, cr);
    assert (a + 1) * cr == a * cr + cr;
  }

  lemma SixtyBytes(sf: nat)
    requires 7 <= sf <= 12
    ensures 0 < Ceiling(524 - 4 * sf, 4 * sf) < Ceiling(524 - 4 * sf, 4 * (sf - 2))
  {
  }

  /** The formulas do disagree: at spreading factor 11 and 250 kHz a symbol lasts 8.192 ms, the chip has turned the
      optimisation on and the host has not. */
  lemma ElevenAt250()
    ensures var p := HostParams(11, 250000, 1);
            !SameOptimisation(p) && ChipPayload(60, 11, 5) == 78 && HostPayload(60, p) == 63
  {
    assert Pow2(11) == 2048 by {
      assert Pow2(5) == 32;
    }
    hide Pow2;
  }

  /** The host's threshold is a symbol of 16 ms, itself included. */
  lemma SixteenMs()
    ensures LongSymbol(HostParams(11, 128000, 1)) && !LongSymbol(HostParams(11, 128001, 1))
    ensures HostPayload(60, HostParams(11, 128000, 1)) == 78 && HostPayload(60, HostParams(11, 128001, 1)) == 63
  {
    assert Pow2(11) == 2048 by {
      assert Pow2(5) == 32;
    }
    hide Pow2;
  }

  /** Same settings in the chip's registers and in the host's parameters. */
  predicate Matching(m: Modem, p: HostParams) {
    m.sf == p.sf && m.bwHz == p.bwHz && m.cr == p.cr + 4 && m.preambleSyms == if p.sf <= 8 then 32 else 16
  }

  /** The exact time on air, in milliseconds. */
  function ExactMs(len: nat, p: HostParams): real
    requires p.sf >= 3 && p.bwHz > 0
  {
    HostMs(HostPreamble(p) as real + 4.25 + HostPayload(len, p) as real, Pow2(p.sf), p.bwHz)
  }

  /** With matching settings the chip rounds the exact time on air and the host truncates it: the chip's
      figure is the host's, or one more exactly when half a millisecond or more was cut off. */
  lemma AirtimesAgree(len: nat, m: Modem, p: HostParams)
    requires 7 <= p.sf <= 12 && p.bwHz > 0 && Matching(m, p) && SameOptimisation(p)
    ensures var t := ExactMs(len, p);
            && HostAirtime(len, p) == t.Floor
            && ChipAirtime(len, m) == HostAirtime(len, p) + if t - t.Floor as real >= 0.5 then 1 else 0
  {
    Coded(len, p);
    assert ChipDivisor(p.sf) == HostDivisor(p);
    hide ChipPayload, HostPayload, HostPreamble, ChipDivisor, HostDivisor, LongSymbol, Pow2, ChipSeconds, HostMs;
    SameTime(HostPreamble(p) as real + 4.25 + HostPayload(len, p) as real, Pow2(p.sf), p.bwHz);
    Rounding(ExactMs(len, p));
  }

  lemma SameTime(symbols: real, chips: nat, bwHz: nat)
    requires bwHz > 0
    ensures ChipSeconds(symbols, chips, bwHz) * 1000.0 == HostMs(symbols, chips, bwHz)
  {
    var u := chips as real / bwHz as real;
    assert chips as real / (bwHz as real / 1000.0) == u * 1000.0;
  }

  lemma Rounding(t: real)
    ensures (t + 0.5).Floor == t.Floor + if t - t.Floor as real >= 0.5 then 1 else 0
  {
  }

  /** Figures to check by hand. Twenty bytes at SF10, 250 kHz, 4/5 and sixteen symbols of preamble: 33 payload symbols
      by either formula, 53.25 in all, 218.112 ms. At SF7, 125 kHz and thirty-two: 43 and 79.25, 81.152 ms. */
  lemma Figures()
    ensures ChipAirtime(20, Modem(10, 250000, 5, 16, 0, 0)) == 218 && HostAirtime(20, HostParams(10, 250000, 1)) == 218
    ensures ChipAirtime(20, Modem(7, 125000, 5, 32, 0, 0)) == 81 && HostAirtime(20, HostParams(7, 125000, 1)) == 81
  {
    Powers();
    hide Pow2;
    Payloads();
    hide ChipPayload, HostPayload;
    var slow, fast := 53.25 * (1024.0 / 250000.0) * 1000.0, 79.25 * (128.0 / 125000.0) * 1000.0;
    assert slow == 218.112 && fast == 81.152;
    assert ChipSeconds(53.25, 1024, 250000) * 1000.0 == slow && ChipSeconds(79.25, 128, 125000) * 1000.0 == fast;
    SameTime(53.25, 1024, 250000);
    SameTime(79.25, 128, 125000);
    hide ChipSeconds, HostMs;
    assert (218.112 + 0.5).Floor == 218 && 218.112.Floor == 218 && (81.152 + 0.5).Floor == 81 && 81.152.Floor == 81;
    assert 16.0 + 4.25 + 33.0 == 53.25 && 32.0 + 4.25 + 43.0 == 79.25;
  }

  lemma Powers()
    ensures Pow2(7) == 128 && Pow2(10) == 1024
  {
    assert Pow2(5) == 32;
  }

  lemma Payloads()
    ensures ChipPayload(20, 10, 5) == 33 && ChipPayload(20, 7, 5) == 43
    ensures HostPayload(20, HostParams(10, 250000, 1)) == 33 && HostPayload(20, HostParams(7, 125000, 1)) == 43
  {
    ChipPayloads();
    var slow, fast := HostParams(10, 250000, 1), HostParams(7, 125000, 1);
    assert SameOptimisation(slow) && SameOptimisation(fast) by {
      Powers();
    }
    hide ChipPayload, HostPayload, SameOptimisation;
    PayloadsAgreeIff(slow);
    PayloadsAgreeIff(fast);
  }

  lemma ChipPayloads()
    ensures ChipPayload(20, 10, 5) == 33 && ChipPayload(20, 7, 5) == 43
  {
  }

  /** A longer packet never takes less time, by either formula. */
  lemma AirtimeMonotone(a: nat, b: nat, m: Modem, p: HostParams)
    requires a <= b && 5 <= m.sf && m.bwHz > 0 && 5 <= p.sf && p.bwHz > 0
    ensures ChipAirtime(a, m) <= ChipAirtime(b, m)
    ensures HostAirtime(a, p) <= HostAirtime(b, p)
  {
    hide Pow2, ChipSeconds, HostMs;
    PayloadMonotone(a, b, m, p);
    hide ChipPayload, HostPayload, HostPreamble;
    var sync := if p.sf == 5 || p.sf == 6 then 6.25 else 4.25;
    TimeMonotone(HostPreamble(p) as real + sync + HostPayload(a, p) as real,
                 HostPreamble(p) as real + sync + HostPayload(b, p) as real, Pow2(p.sf), p.bwHz);
    var fixed := m.preambleSyms as real + 4.25;
    TimeMonotone(fixed + ChipPayload(a, m.sf, m.cr) as real, fixed + ChipPayload(b, m.sf, m.cr) as real,
                 Pow2(m.sf), m.bwHz);
  }

  lemma TimeMonotone(s: real, t: real, chips: nat, bwHz: nat)
    requires s <= t && bwHz > 0
    ensures ChipSeconds(s, chips, bwHz) <= ChipSeconds(t, chips, bwHz)
    ensures HostMs(s, chips, bwHz) <= HostMs(t, chips, bwHz)
  {
    var u := chips as real / bwHz as real;
    assert u >= 0.0;
    assert (t - s) * u >= 0.0;
    SameTime(s, chips, bwHz);
    SameTime(t, chips, bwHz);
  }

  lemma PayloadMonotone(a: nat, b: nat, m: Modem, p: HostParams)
    requires a <= b && 5 <= m.sf && 5 <= p.sf
    ensures ChipPayload(a, m.sf, m.cr) <= ChipPayload(b, m.sf, m.cr)
    ensures HostPayload(a, p) <= HostPayload(b, p)
  {
    hide Pow2;
    var d := ChipDivisor(m.sf);
    var x, y := 8 * a - 4 * m.sf + 44, 8 * b - 4 * m.sf + 44;
    CeilingMonotone(x, y, d);
    hide Ceiling;
    Scaled(Ceiling(x, d), Ceiling(y, d), m.cr);
    var e := HostDivisor(p);
    var extra := if p.sf == 5 || p.sf == 6 then 0 else 8;
    var v, w := Max(8 * a + 16 - 4 * p.sf + extra + 20, 0) + e - 1, Max(8 * b + 16 - 4 * p.sf + extra + 20, 0) + e - 1;
    QuotientGrows(v, w, e);
    Scaled(v / e, w / e, p.cr + 4);
  }

  lemma CeilingMonotone(x: int, y: int, d: nat)
    requires x <= y && d > 0
    ensures Ceiling(x, d) <= Ceiling(y, d)
  {
    QuotientGrows(-y, -x, d);
  }
}
