/**
 * The cumulative hourly VWAP of one instrument's fills (`calculate_vwap`).
 * Prices are integer ticks of 1/10000 of a currency unit, so the turnover
 * sums are exact; the VWAP itself is a real number in currency units.
 */
module Vwap {

  /** One recorded execution: (quantity, price, hour bucket). */
  datatype Fill = Fill(qty: nat, price: nat, hour: nat)

  const TicksPerUnit: nat := 10000

  /** Turnover of one fill, in ticks times shares. */
  function Notional(f: Fill): nat
  {
    f.price * f.qty
  }

  /** Sum of price·qty over the fills whose hour h satisfies lo < h <= hi. */
  function Turnover(r: seq<Fill>, lo: int, hi: int): nat
  {
    if r == [] then 0
    else
      var f := r[|r| - 1];
      Turnover(r[..|r| - 1], lo, hi) + (if lo < f.hour <= hi then Notional(f) else 0)
  }

  /** Sum of qty over the fills whose hour h satisfies lo < h <= hi. */
  function Volume(r: seq<Fill>, lo: int, hi: int): nat
  {
    if r == [] then 0
    else
      var f := r[|r| - 1];
      Volume(r[..|r| - 1], lo, hi) + (if lo < f.hour <= hi then f.qty else 0)
  }

  /** The hour buckets that occur in r. */
  function Hours(r: seq<Fill>): set<nat>
  {
    set f | f in r :: f.hour
  }

  /**
   * The cumulative VWAP through hour h: turnover over volume of every fill
   * with hour <= h, or 0 when that volume is 0.
   */
  function CumulativeVwap(r: seq<Fill>, h: nat): real
  {
    var volume := Volume(r, -1, h);
    if volume == 0 then 0.0
    else (Turnover(r, -1, h) as real / TicksPerUnit as real) / volume as real
  }

  /** The whole series: one entry per hour bucket present in r. */
  function VwapSeries(r: seq<Fill>): map<nat, real>
  {
    map h | h in Hours(r) :: CumulativeVwap(r, h)
  }

  predicate StrictlyIncreasing(hs: seq<nat>)
  {
    forall j, k :: 0 <= j < k < |hs| ==> hs[j] < hs[k]
  }

  // ---------------------------------------------------------------------
  // Facts about the range sums

  /** Adding one fill at the end adds its contribution. */
  lemma AppendOne(r: seq<Fill>, f: Fill, lo: int, hi: int)
    ensures Turnover(r + [f], lo, hi) == Turnover(r, lo, hi) + (if lo < f.hour <= hi then Notional(f) else 0)
    ensures Volume(r + [f], lo, hi) == Volume(r, lo, hi) + (if lo < f.hour <= hi then f.qty else 0)
  {
    assert (r + [f])[..|r|] == r;
  }

  /** The sums distribute over concatenation. */
  lemma {:induction false} Concat(a: seq<Fill>, b: seq<Fill>, lo: int, hi: int)
    ensures Turnover(a + b, lo, hi) == Turnover(a, lo, hi) + Turnover(b, lo, hi)
    ensures Volume(a + b, lo, hi) == Volume(a, lo, hi) + Volume(b, lo, hi)
    decreases |b|
  {
    if b == [] {
      assert a + b == a;
    } else {
      var init, f := b[..|b| - 1], b[|b| - 1];
      assert a + b == (a + init) + [f];
      assert b == init + [f];
      Concat(a, init, lo, hi);
      AppendOne(a + init, f, lo, hi);
      AppendOne(init, f, lo, hi);
    }
  }

  /** Adjacent hour ranges add up: (lo, mid] and (mid, hi] make (lo, hi]. */
  lemma {:induction false} Split(r: seq<Fill>, lo: int, mid: int, hi: int)
    requires lo <= mid <= hi
    ensures Turnover(r, lo, hi) == Turnover(r, lo, mid) + Turnover(r, mid, hi)
    ensures Volume(r, lo, hi) == Volume(r, lo, mid) + Volume(r, mid, hi)
    decreases |r|
  {
    if r != [] {
      Split(r[..|r| - 1], lo, mid, hi);
    }
  }

  /** A range holding none of the hours of r sums to zero. */
  lemma {:induction false} EmptyRange(r: seq<Fill>, lo: int, hi: int)
    requires forall f :: f in r ==> !(lo < f.hour <= hi)
    ensures Turnover(r, lo, hi) == 0 && Volume(r, lo, hi) == 0
    decreases |r|
  {
    if r != [] {
      assert r[|r| - 1] in r;
      assert forall f :: f in r[..|r| - 1] ==> f in r;
      EmptyRange(r[..|r| - 1], lo, hi);
    }
  }

  /** Fills of zero total quantity carry zero turnover. */
  lemma {:induction false} NoVolumeNoTurnover(r: seq<Fill>, lo: int, hi: int)
    requires Volume(r, lo, hi) == 0
    ensures Turnover(r, lo, hi) == 0
    decreases |r|
  {
    if r != [] {
      NoVolumeNoTurnover(r[..|r| - 1], lo, hi);
    }
  }

  /** Removing the fill at index j removes exactly its contribution. */
  lemma RemoveAt(r: seq<Fill>, j: nat, lo: int, hi: int)
    requires j < |r|
    ensures Turnover(r, lo, hi) == Turnover(r[..j] + r[j + 1..], lo, hi) + Turnover([r[j]], lo, hi)
    ensures Volume(r, lo, hi) == Volume(r[..j] + r[j + 1..], lo, hi) + Volume([r[j]], lo, hi)
  {
    assert r == r[..j] + [r[j]] + r[j + 1..];
    Concat(r[..j] + [r[j]], r[j + 1..], lo, hi);
    Concat(r[..j], [r[j]], lo, hi);
    Concat(r[..j], r[j + 1..], lo, hi);
  }

  /** The last fill of r1 occurs in any permutation r2 of r1; removing it from both keeps them permutations. */
  lemma MatchLast(r1: seq<Fill>, r2: seq<Fill>) returns (j: nat)
    requires r1 != [] && multiset(r1) == multiset(r2)
    ensures j < |r2| && r2[j] == r1[|r1| - 1]
    ensures multiset(r1[..|r1| - 1]) == multiset(r2[..j] + r2[j + 1..])
  {
    var init, f := r1[..|r1| - 1], r1[|r1| - 1];
    assert r1 == init + [f];
    assert f in multiset(r2);
    j :| 0 <= j < |r2| && r2[j] == f;
    var rest := r2[..j] + r2[j + 1..];
    assert r2 == r2[..j] + [f] + r2[j + 1..];
    assert multiset(r1) == multiset(init) + multiset{f};
    assert multiset(r2) == multiset(r2[..j]) + multiset{f} + multiset(r2[j + 1..]);
    assert multiset(rest) == multiset(r2[..j]) + multiset(r2[j + 1..]);
    assert multiset(init) == multiset(r1) - multiset{f};
    assert multiset(rest) == multiset(r2) - multiset{f};
  }

  /** The sums do not depend on the order of the fills. */
  lemma {:induction false} Permutation(r1: seq<Fill>, r2: seq<Fill>, lo: int, hi: int)
    requires multiset(r1) == multiset(r2)
    ensures Turnover(r1, lo, hi) == Turnover(r2, lo, hi)
    ensures Volume(r1, lo, hi) == Volume(r2, lo, hi)
    decreases |r1|
  {
    if r1 == [] {
      assert |r2| == |multiset(r2)| == 0;
    } else {
      var init, f := r1[..|r1| - 1], r1[|r1| - 1];
      var j := MatchLast(r1, r2);
      var rest := r2[..j] + r2[j + 1..];
      Permutation(init, rest, lo, hi);
      RemoveAt(r2, j, lo, hi);
      assert r1 == init + [f];
      AppendOne(init, f, lo, hi);
      assert [f] == [] + [f];
      AppendOne([], f, lo, hi);
    }
  }

  // ---------------------------------------------------------------------
  // Properties of the cumulative series

  /** The cumulative volume never decreases from one hour to a later one. */
  lemma VolumeMonotone(r: seq<Fill>, h1: nat, h2: nat)
    requires h1 <= h2
    ensures Volume(r, -1, h1) <= Volume(r, -1, h2)
  {
    Split(r, -1, h1, h2);
  }

  /** VWAP times volume through h is the turnover through h, in currency units. */
  lemma VwapTimesVolume(r: seq<Fill>, h: nat)
    ensures CumulativeVwap(r, h) * Volume(r, -1, h) as real == Turnover(r, -1, h) as real / TicksPerUnit as real
  {
    var t, v := Turnover(r, -1, h) as real / TicksPerUnit as real, Volume(r, -1, h) as real;
    if v == 0.0 {
      NoVolumeNoTurnover(r, -1, h);
    } else {
      assert CumulativeVwap(r, h) == t / v;
      assert (t / v) * v == t;
    }
  }

  /**
   * The VWAP through h2 is the volume-weighted blend of the VWAP through h1
   * and the turnover of the hours after h1 up to h2.
   */
  lemma Blend(r: seq<Fill>, h1: nat, h2: nat)
    requires h1 <= h2
    ensures CumulativeVwap(r, h2) * Volume(r, -1, h2) as real ==
            CumulativeVwap(r, h1) * Volume(r, -1, h1) as real + Turnover(r, h1, h2) as real / TicksPerUnit as real
  {
    Split(r, -1, h1, h2);
    VwapTimesVolume(r, h1);
    VwapTimesVolume(r, h2);
    var tp := TicksPerUnit as real;
    var t1, t12 := Turnover(r, -1, h1) as real, Turnover(r, h1, h2) as real;
    assert (t1 + t12) / tp == t1 / tp + t12 / tp;
  }

  /** An hour with no volume up to and including it has VWAP exactly 0. */
  lemma ZeroVolumeZeroVwap(r: seq<Fill>, h: nat)
    requires forall f :: f in r && f.hour <= h ==> f.qty == 0
    ensures CumulativeVwap(r, h) == 0.0
  {
    ZeroVolume(r, h);
  }

  lemma {:induction false} ZeroVolume(r: seq<Fill>, h: nat)
    requires forall f :: f in r && f.hour <= h ==> f.qty == 0
    ensures Volume(r, -1, h) == 0
    decreases |r|
  {
    if r != [] {
      assert r[|r| - 1] in r;
      assert forall f :: f in r[..|r| - 1] ==> f in r;
      ZeroVolume(r[..|r| - 1], h);
    }
  }

  /** Reordering the fills changes neither the hours nor any VWAP value. */
  lemma OrderIndependent(r1: seq<Fill>, r2: seq<Fill>)
    requires multiset(r1) == multiset(r2)
    ensures VwapSeries(r1) == VwapSeries(r2)
  {
    forall h: nat ensures CumulativeVwap(r1, h) == CumulativeVwap(r2, h) {
      Permutation(r1, r2, -1, h);
    }
    assert forall f :: f in r1 <==> f in multiset(r1);
    assert forall f :: f in r2 <==> f in multiset(r2);
    assert Hours(r1) == Hours(r2);
  }

  /** Two trades 50 @ 10.00 and 150 @ 20.00 in one hour give 3500 / 200 = 17.50. */
  lemma TwoTradesExample(h: nat)
    ensures var r := [Fill(50, 100000, h), Fill(150, 200000, h)];
      Turnover(r, h - 1, h) == 3500 * TicksPerUnit && Volume(r, h - 1, h) == 200 &&
      VwapSeries(r) == map[h := 17.5]
  {
    var r := [Fill(50, 100000, h), Fill(150, 200000, h)];
    var first := r[..1];
    assert first == [Fill(50, 100000, h)] && first[..0] == [];
    assert Turnover(first[..0], -1, h) == 0 && Volume(first[..0], -1, h) == 0;
    assert Turnover(first[..0], h - 1, h) == 0 && Volume(first[..0], h - 1, h) == 0;
    assert Turnover(first, -1, h) == 5000000 && Volume(first, -1, h) == 50;
    assert Turnover(first, h - 1, h) == 5000000 && Volume(first, h - 1, h) == 50;
    assert Turnover(r, -1, h) == 35000000 && Volume(r, -1, h) == 200;
    assert Turnover(r, h - 1, h) == 35000000 && Volume(r, h - 1, h) == 200;
    assert CumulativeVwap(r, h) == 17.5;
    assert Hours(r) == {h} by {
      assert r[0] in r && r[0].hour == h;
    }
  }

  /** A single fill of positive quantity has its own price, in currency units, as VWAP. */
  lemma SingleFill(f: Fill)
    requires f.qty > 0
    ensures VwapSeries([f]) == map[f.hour := f.price as real / TicksPerUnit as real]
  {
    var r := [f];
    assert r[..0] == [];
    assert Turnover(r, -1, f.hour) == f.price * f.qty && Volume(r, -1, f.hour) == f.qty;
    assert Hours(r) == {f.hour} by {
      assert r[0] in r;
    }
    var q := f.qty as real;
    assert (f.price * f.qty) as real == f.price as real * q;
    assert (f.price as real * q / TicksPerUnit as real) / q == f.price as real / TicksPerUnit as real;
  }

  // ---------------------------------------------------------------------
  // The computation

  /** `sorted(trades.keys())`: the hours of a finite set in ascending order. */
  method SortedHours(hours: set<nat>) returns (hs: seq<nat>)
    ensures StrictlyIncreasing(hs)
    ensures forall h :: h in hs <==> h in hours
  {
    hs := [];
    var rest := hours;
    while rest != {}
      invariant StrictlyIncreasing(hs)
      invariant forall h :: h in hours <==> h in hs || h in rest
      invariant hs != [] ==> forall h :: h in rest ==> hs[|hs| - 1] < h
      decreases rest
    {
      MinExists(rest);
      var m :| m in rest && forall h :: h in rest ==> m <= h;
      TakeMin(hours, hs, rest, m);
      hs := hs + [m];
      rest := rest - {m};
    }
  }

  /** Moving the least remaining hour to the end of the sorted prefix keeps the loop's invariant. */
  lemma TakeMin(hours: set<nat>, hs: seq<nat>, rest: set<nat>, m: nat)
    requires StrictlyIncreasing(hs)
    requires forall h :: h in hours <==> h in hs || h in rest
    requires hs != [] ==> forall h :: h in rest ==> hs[|hs| - 1] < h
    requires m in rest && forall h :: h in rest ==> m <= h
    ensures StrictlyIncreasing(hs + [m])
    ensures forall h :: h in hours <==> h in hs + [m] || h in rest - {m}
    ensures forall h :: h in rest - {m} ==> m < h
  {
    var s := hs + [m];
    forall j, k | 0 <= j < k < |s| ensures s[j] < s[k] {
      if k == |hs| && j < |hs| - 1 {
        assert hs[j] < hs[|hs| - 1];
      }
    }
  }

  /** The least element of a non-empty finite set. */
  lemma {:induction false} Least(s: set<nat>) returns (m: nat)
    requires s != {}
    ensures m in s && forall h :: h in s ==> m <= h
    decreases s
  {
    var x :| x in s;
    if s == {x} {
      m := x;
    } else {
      var m' := Least(s - {x});
      m := if x < m' then x else m';
      forall h | h in s ensures m <= h {
        if h != x {
          assert h in s - {x};
        }
      }
    }
  }

  lemma MinExists(s: set<nat>)
    requires s != {}
    ensures exists m :: m in s && forall h :: h in s ==> m <= h
  {
    var m := Least(s);
  }

  /** With hs listing every hour of r in order, the totals through hs[k] grow by bucket hs[k]. */
  lemma NextHour(r: seq<Fill>, hs: seq<nat>, k: nat)
    requires StrictlyIncreasing(hs) && (forall h :: h in hs <==> h in Hours(r)) && k < |hs|
    ensures var prev: int := if k == 0 then -1 else hs[k - 1];
      Turnover(r, -1, hs[k]) == Turnover(r, -1, prev) + Turnover(r, hs[k] as int - 1, hs[k]) &&
      Volume(r, -1, hs[k]) == Volume(r, -1, prev) + Volume(r, hs[k] as int - 1, hs[k])
  {
    var hour: int := hs[k];
    var prev: int := if k == 0 then -1 else hs[k - 1];
    forall f | f in r ensures !(prev < f.hour <= hour - 1) {
      assert f.hour in Hours(r);
      var j :| 0 <= j < |hs| && hs[j] == f.hour;
      assert j < k || j >= k;
    }
    EmptyRange(r, prev, hour - 1);
    Split(r, -1, prev, hour);
    Split(r, prev, hour - 1, hour);
  }

  /** `trades`: per-hour (turnover, volume) of the fills seen so far. */
  ghost predicate Buckets(trades: map<nat, (nat, nat)>, r: seq<Fill>)
  {
    && trades.Keys == Hours(r)
    && forall h :: h in trades ==> trades[h] == (Turnover(r, h - 1, h), Volume(r, h - 1, h))
  }

  lemma HoursAppend(r: seq<Fill>, f: Fill)
    ensures Hours(r + [f]) == Hours(r) + {f.hour}
  {
    assert forall g :: g in r + [f] <==> g in r || g == f;
  }

  /** One bucket after appending f: its own hour gains f, every other hour keeps its sums. */
  lemma BucketAfterAppend(r: seq<Fill>, f: Fill, h: nat)
    ensures Turnover(r + [f], h as int - 1, h) ==
      Turnover(r, h as int - 1, h) + (if h == f.hour then Notional(f) else 0)
    ensures Volume(r + [f], h as int - 1, h) ==
      Volume(r, h as int - 1, h) + (if h == f.hour then f.qty else 0)
  {
    AppendOne(r, f, h as int - 1, h);
  }

  lemma AddToBucket(trades: map<nat, (nat, nat)>, r: seq<Fill>, f: Fill)
    requires Buckets(trades, r)
    ensures var before := if f.hour in trades then trades[f.hour] else (0, 0);
      Buckets(trades[f.hour := (before.0 + Notional(f), before.1 + f.qty)], r + [f])
  {
    if f.hour !in trades {
      EmptyRange(r, f.hour as int - 1, f.hour);
    }
    var before := if f.hour in trades then trades[f.hour] else (0, 0);
    var t := trades[f.hour := (before.0 + Notional(f), before.1 + f.qty)];
    forall h | h in t ensures t[h] == (Turnover(r + [f], h as int - 1, h), Volume(r + [f], h as int - 1, h)) {
      BucketAfterAppend(r, f, h);
    }
    HoursAppend(r, f);
  }

  /**
   * The first loop of `calculate_vwap`: `trades[hour]` accumulates
   * (price * quantity, quantity) over the fills of that hour.
   */
  method BucketByHour(records: seq<Fill>) returns (trades: map<nat, (nat, nat)>)
    ensures trades.Keys == Hours(records)
    ensures forall h :: h in trades ==> trades[h] == (Turnover(records, h - 1, h), Volume(records, h - 1, h))
  {
    trades := map[];
    for i := 0 to |records|
      invariant Buckets(trades, records[..i])
    {
      var rec := records[i];
      AddToBucket(trades, records[..i], rec);
      assert records[..i + 1] == records[..i] + [rec];
      if rec.hour !in trades {
        trades := trades[rec.hour := (0, 0)];
      }
      trades := trades[rec.hour := (trades[rec.hour].0 + Notional(rec), trades[rec.hour].1 + rec.qty)];
    }
    assert records[..|records|] == records;
  }

  /**
   * `calculate_vwap`: bucket the fills by hour, then walk the hours in
   * ascending order keeping running turnover and volume.
   */
  method CalculateVwap(records: seq<Fill>) returns (vwap: map<nat, real>)
    ensures vwap.Keys == Hours(records)
    ensures forall h :: h in vwap ==> vwap[h] == CumulativeVwap(records, h)
  {
    var trades := BucketByHour(records);
    var hs := SortedHours(trades.Keys);
    EmptyRange(records, -1, -1);
    var cumulativeTurnover, cumulativeVolume := 0, 0;
    vwap := map[];
    for k := 0 to |hs|
      invariant cumulativeTurnover == Turnover(records, -1, if k == 0 then -1 else hs[k - 1] as int)
      invariant cumulativeVolume == Volume(records, -1, if k == 0 then -1 else hs[k - 1] as int)
      invariant forall h :: h in vwap <==> h in hs[..k]
      invariant forall h :: h in vwap ==> vwap[h] == CumulativeVwap(records, h)
    {
      var hour := hs[k];
      NextHour(records, hs, k);
      cumulativeTurnover := cumulativeTurnover + trades[hour].0;
      cumulativeVolume := cumulativeVolume + trades[hour].1;
      if cumulativeVolume != 0 {
        vwap := vwap[hour := (cumulativeTurnover as real / TicksPerUnit as real) / cumulativeVolume as real];
      } else {
        vwap := vwap[hour := 0.0];
      }
      assert hs[..k + 1] == hs[..k] + [hour];
    }
    assert hs[..|hs|] == hs;
  }
}
