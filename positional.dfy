/** The positional decoding of the raw `vdev_stats` and `scan_stats` arrays:
    the tables are walked in order while an index moves through the raw
    array, a placeholder consuming one value silently, a plain entry one
    value, and an entry with variants one value per variant. */
module Positional {
  import opened Types
  import opened Schema

  /** Number of raw values an entry of the table consumes. */
  function Width(s: Stat): nat
  {
    if s.n != "" && |s.variants| > 0 then |s.variants| else 1
  }

  /** Number of raw values a whole table describes. */
  function Slots(schema: seq<Stat>): nat
  {
    if schema == [] then 0 else Width(schema[0]) + Slots(schema[1..])
  }

  /** The metrics a variant entry emits from the first |variants| raw values:
      one per variant, in declared order, the variant as last label. */
  function VariantBlock(s: Stat, raw: seq<U64>, labels: seq<string>): (r: seq<Metric>)
    requires s.desc.Some? && |raw| >= |s.variants|
    ensures |r| == |s.variants|
  {
    seq(|s.variants|, j requires 0 <= j < |s.variants| =>
      Const(s.desc.value, Untyped, raw[j], labels + [s.variants[j]]))
  }

  /** The walk over the vdev statistics: it stops quietly when the raw array
      runs out between entries and fails (a Go index panic) when it runs out
      inside a variant entry. */
  function Walk(schema: seq<Stat>, raw: seq<U64>, labels: seq<string>): Result<seq<Metric>>
    requires NamedDescribed(schema)
    decreases |schema|
  {
    if schema == [] || raw == [] then Ok([])
    else
      var s := schema[0];
      if s.n == "" then Walk(schema[1..], raw[1..], labels)
      else if |s.variants| == 0 then
        Prepend([Const(s.desc.value, Untyped, raw[0], labels)], Walk(schema[1..], raw[1..], labels))
      else if |raw| < |s.variants| then Err(StatIndexOutOfRange)
      else Prepend(VariantBlock(s, raw, labels), Walk(schema[1..], raw[|s.variants|..], labels))
  }

  /** The loop of reportVdevStats over the vdev table, index `i` moving
      through the raw array. */
  method WalkVdevStats(schema: seq<Stat>, raw: seq<U64>, labels: seq<string>) returns (r: Result<seq<Metric>>)
    requires NamedDescribed(schema)
    ensures r == Walk(schema, raw, labels)
  {
    var out: seq<Metric> := [];
    var i := 0;
    var k := 0;
    assert schema[0..] == schema && raw[0..] == raw;
    PrependNothing(Walk(schema, raw, labels));
    while k < |schema|
      invariant 0 <= k <= |schema| && 0 <= i <= |raw|
      invariant Prepend(out, Walk(schema[k..], raw[i..], labels)) == Walk(schema, raw, labels)
    {
      if i >= |raw| {
        break;
      }
      var s := schema[k];
      assert schema[k..][1..] == schema[k + 1..];
      if s.n == "" {
        assert raw[i..][1..] == raw[i + 1..];
        i := i + 1;
      } else if |s.variants| == 0 {
        assert raw[i..][1..] == raw[i + 1..];
        PrependTwice(out, [Const(s.desc.value, Untyped, raw[i], labels)], Walk(schema[k + 1..], raw[i + 1..], labels));
        out := out + [Const(s.desc.value, Untyped, raw[i], labels)];
        i := i + 1;
      } else {
        ghost var out0 := out;
        ghost var i0 := i;
        var j := 0;
        while j < |s.variants|
          invariant 0 <= j <= |s.variants| && i == i0 + j <= |raw|
          invariant out == out0 + seq(j, t requires 0 <= t < j => Const(s.desc.value, Untyped, raw[i0 + t], labels + [s.variants[t]]))
        {
          if i >= |raw| {
            return Err(StatIndexOutOfRange);
          }
          out := out + [Const(s.desc.value, Untyped, raw[i], labels + [s.variants[j]])];
          i := i + 1;
          j := j + 1;
        }
        assert out == out0 + VariantBlock(s, raw[i0..], labels);
        assert raw[i0..][|s.variants|..] == raw[i..];
        PrependTwice(out0, VariantBlock(s, raw[i0..], labels), Walk(schema[k + 1..], raw[i..], labels));
      }
      k := k + 1;
    }
    assert Walk(schema[k..], raw[i..], labels) == Ok([]);
    assert out + [] == out;
    return Ok(out);
  }

  lemma PrependNothing<T>(r: Result<seq<T>>)
    ensures Prepend([], r) == r
  {
    if r.Ok? {
      assert [] + r.value == r.value;
    }
  }

  lemma PrependTwice<T>(a: seq<T>, b: seq<T>, r: Result<seq<T>>)
    ensures Prepend(a, Prepend(b, r)) == Prepend(a + b, r)
  {
    if r.Ok? {
      assert a + (b + r.value) == a + b + r.value;
    }
  }

  /** A reference reading of the raw array, independent of the walk: the
      table spelled out as one slot per raw value, a placeholder slot being
      None and any other naming the descriptor and the variant it carries. */
  datatype Slot = Slot(desc: Desc, variant: Option<string>)

  function Entry(s: Stat): (e: seq<Option<Slot>>)
    requires s.n != "" ==> s.desc.Some?
    ensures |e| == Width(s)
  {
    if s.n == "" then [None]
    else if |s.variants| == 0 then [Some(Slot(s.desc.value, None))]
    else seq(|s.variants|, j requires 0 <= j < |s.variants| => Some(Slot(s.desc.value, Some(s.variants[j]))))
  }

  function Layout(schema: seq<Stat>): (l: seq<Option<Slot>>)
    requires NamedDescribed(schema)
    ensures |l| == Slots(schema)
  {
    if schema == [] then [] else Entry(schema[0]) + Layout(schema[1..])
  }

  function SlotMetric(slot: Slot, v: U64, labels: seq<string>): Metric
  {
    Const(slot.desc, Untyped, v, match slot.variant { case None => labels case Some(x) => labels + [x] })
  }

  /** Pairs slots with raw values for as long as both last; placeholders
      emit nothing. */
  function Ref(layout: seq<Option<Slot>>, raw: seq<U64>, labels: seq<string>): seq<Metric>
  {
    if layout == [] || raw == [] then []
    else
      (if layout[0].Some? then [SlotMetric(layout[0].value, raw[0], labels)] else [])
      + Ref(layout[1..], raw[1..], labels)
  }

  /** Raw index at which entry `k` of the table starts. */
  function Start(schema: seq<Stat>, k: nat): nat
    requires k <= |schema|
  {
    Slots(schema[..k])
  }

  /** A raw length that ends the array between two entries (or past the
      end of the table). */
  predicate AtBoundary(schema: seq<Stat>, n: nat)
  {
    n >= Slots(schema) || exists k :: 0 <= k <= |schema| && Start(schema, k) == n
  }

  lemma StartShift(schema: seq<Stat>, k: nat)
    requires schema != [] && k < |schema|
    ensures Start(schema, k + 1) == Width(schema[0]) + Start(schema[1..], k)
  {
    assert schema[..k + 1][1..] == schema[1..][..k];
  }

  /** How the boundaries of a table relate to those of its tail. */
  lemma BoundaryStep(schema: seq<Stat>, n: nat)
    requires schema != []
    ensures 0 < n < Width(schema[0]) ==> !AtBoundary(schema, n)
    ensures n >= Width(schema[0]) ==> (AtBoundary(schema, n) <==> AtBoundary(schema[1..], n - Width(schema[0])))
  {
    var w := Width(schema[0]);
    var rest := schema[1..];
    if 0 < n < w {
      forall k | 0 <= k <= |schema|
        ensures Start(schema, k) != n
      {
        if k > 0 {
          StartShift(schema, k - 1);
        }
      }
    }
    if n >= w {
      if AtBoundary(schema, n) && n < Slots(schema) {
        var k :| 0 <= k <= |schema| && Start(schema, k) == n;
        assert k > 0;
        StartShift(schema, k - 1);
        assert Start(rest, k - 1) == n - w;
      }
      if AtBoundary(rest, n - w) && n - w < Slots(rest) {
        var k :| 0 <= k <= |rest| && Start(rest, k) == n - w;
        StartShift(schema, k);
        assert Start(schema, k + 1) == n;
      }
    }
  }

  lemma {:induction false} RefAppend(a: seq<Option<Slot>>, b: seq<Option<Slot>>, raw: seq<U64>, labels: seq<string>)
    requires |raw| >= |a|
    ensures Ref(a + b, raw, labels) == Ref(a, raw, labels) + Ref(b, raw[|a|..], labels)
  {
    if a == [] {
      assert a + b == b && raw[0..] == raw;
    } else {
      assert (a + b)[1..] == a[1..] + b;
      assert raw[1..][|a| - 1..] == raw[|a|..];
      RefAppend(a[1..], b, raw[1..], labels);
      var h := if a[0].Some? then [SlotMetric(a[0].value, raw[0], labels)] else [];
      assert Ref(a + b, raw, labels) == h + Ref(a[1..] + b, raw[1..], labels);
      assert Ref(a, raw, labels) == h + Ref(a[1..], raw[1..], labels);
    }
  }

  lemma {:induction false} RefOfVariants(s: Stat, raw: seq<U64>, labels: seq<string>)
    requires s.n != "" && |s.variants| > 0 && s.desc.Some? && |raw| >= |s.variants|
    ensures Ref(Entry(s), raw, labels) == VariantBlock(s, raw, labels)
  {
    RefAllSome(Entry(s), raw, labels);
  }

  lemma {:induction false} RefAllSome(layout: seq<Option<Slot>>, raw: seq<U64>, labels: seq<string>)
    requires forall j :: 0 <= j < |layout| ==> layout[j].Some?
    requires |raw| >= |layout|
    ensures Ref(layout, raw, labels)
         == seq(|layout|, j requires 0 <= j < |layout| => SlotMetric(layout[j].value, raw[j], labels))
  {
    if layout != [] {
      RefAllSome(layout[1..], raw[1..], labels);
    }
  }

  /** The walk agrees with the reference reading exactly when the raw array
      ends on an entry boundary, and fails otherwise: cutting the array short
      is harmless unless the cut falls inside a variant entry. */
  lemma {:induction false} WalkFollowsLayout(schema: seq<Stat>, raw: seq<U64>, labels: seq<string>)
    requires NamedDescribed(schema)
    ensures AtBoundary(schema, |raw|) ==> Walk(schema, raw, labels) == Ok(Ref(Layout(schema), raw, labels))
    ensures !AtBoundary(schema, |raw|) ==> Walk(schema, raw, labels).Err?
  {
    if schema == [] {
    } else if raw == [] {
      assert Start(schema, 0) == 0;
    } else {
      var s := schema[0];
      var rest := schema[1..];
      var w := Width(s);
      var e := Entry(s);
      BoundaryStep(schema, |raw|);
      assert Layout(schema) == e + Layout(rest);
      if |raw| >= w {
        WalkFollowsLayout(rest, raw[w..], labels);
        RefAppend(e, Layout(rest), raw, labels);
        if s.n == "" {
          assert Ref(e, raw, labels) == [];
          assert [] + Ref(Layout(rest), raw[1..], labels) == Ref(Layout(rest), raw[1..], labels);
        } else if |s.variants| == 0 {
          assert labels + [] == labels;
          assert Ref(e, raw, labels) == [Const(s.desc.value, Untyped, raw[0], labels)];
        } else {
          RefOfVariants(s, raw, labels);
        }
      }
    }
  }

  /** The scan statistics: one gauge per table entry for as long as the raw
      array lasts, labelled by pool. */
  function ScanReport(scan: seq<Stat>, raw: seq<U64>, pool: string): seq<Metric>
    requires AllDescribed(scan)
  {
    var n := if |raw| < |scan| then |raw| else |scan|;
    seq(n, i requires 0 <= i < n => Const(scan[i].desc.value, Gauge, raw[i], [pool]))
  }

  /** The scan-statistics loop of Collect. */
  method WalkScanStats(scan: seq<Stat>, raw: seq<U64>, pool: string) returns (out: seq<Metric>)
    requires AllDescribed(scan)
    ensures out == ScanReport(scan, raw, pool)
  {
    out := [];
    for i := 0 to |scan|
      invariant i <= |raw|
      invariant out == seq(i, t requires 0 <= t < i => Const(scan[t].desc.value, Gauge, raw[t], [pool]))
    {
      if i >= |raw| {
        return;
      }
      out := out + [Const(scan[i].desc.value, Gauge, raw[i], [pool])];
    }
  }

  lemma {:induction false} SlotsAppend(a: seq<Stat>, b: seq<Stat>)
    ensures Slots(a + b) == Slots(a) + Slots(b)
  {
    if a == [] {
      assert a + b == b;
    } else {
      assert (a + b)[1..] == a[1..] + b;
      SlotsAppend(a[1..], b);
    }
  }

  lemma StartAppend(a: seq<Stat>, b: seq<Stat>, k: nat)
    requires k <= |a| + |b|
    ensures k <= |a| ==> Start(a + b, k) == Start(a, k) <= Slots(a)
    ensures k > |a| ==> Start(a + b, k) == Slots(a) + Start(b, k - |a|)
  {
    if k <= |a| {
      assert (a + b)[..k] == a[..k];
      assert a == a[..k] + a[k..];
      SlotsAppend(a[..k], a[k..]);
    } else {
      assert (a + b)[..k] == a + b[..k - |a|];
      SlotsAppend(a, b[..k - |a|]);
    }
  }

  /** Boundaries of a table made of two parts: up to the end of the first
      part they are the first part's, after it the second part's, shifted. */
  lemma BoundaryAppend(a: seq<Stat>, b: seq<Stat>, n: nat)
    ensures n <= Slots(a) ==> (AtBoundary(a + b, n) <==> AtBoundary(a, n))
    ensures n >= Slots(a) ==> (AtBoundary(a + b, n) <==> AtBoundary(b, n - Slots(a)))
  {
    SlotsAppend(a, b);
    if AtBoundary(a + b, n) && n < Slots(a + b) {
      var k :| 0 <= k <= |a + b| && Start(a + b, k) == n;
      StartAppend(a, b, k);
      if k > |a| {
        assert Start(b, k - |a|) == n - Slots(a);
      }
    }
    if n <= Slots(a) && AtBoundary(a, n) {
      if n == Slots(a) {
        StartAppend(a, b, |a|);
        assert a[..|a|] == a;
      } else {
        var k :| 0 <= k <= |a| && Start(a, k) == n;
        StartAppend(a, b, k);
      }
    }
    if n >= Slots(a) && AtBoundary(b, n - Slots(a)) {
      if n - Slots(a) < Slots(b) {
        var k :| 0 <= k <= |b| && Start(b, k) == n - Slots(a);
        StartAppend(a, b, k + |a|);
        if k == 0 {
          StartAppend(a, b, |a|);
          assert a[..|a|] == a;
        }
      }
    }
  }

  lemma {:induction false} SlotsFlat(t: seq<Stat>)
    requires forall i :: 0 <= i < |t| ==> Width(t[i]) == 1
    ensures Slots(t) == |t|
  {
    if t != [] {
      SlotsFlat(t[1..]);
    }
  }

  /** A table without variant entries may be cut anywhere. */
  lemma FlatBoundary(t: seq<Stat>, n: nat)
    requires forall i :: 0 <= i < |t| ==> Width(t[i]) == 1
    ensures AtBoundary(t, n)
  {
    SlotsFlat(t);
    if n < |t| {
      SlotsFlat(t[..n]);
      assert Start(t, n) == n;
    }
  }

  /** A single entry may only be cut before it or after it. */
  lemma SingleBoundary(s: Stat, n: nat)
    ensures AtBoundary([s], n) <==> n == 0 || n >= Width(s)
  {
    assert [s][..0] == [] && [s][..1] == [s] && [s][1..] == [];
    assert Slots([s]) == Width(s);
    assert Start([s], 0) == 0;
    assert Start([s], 1) == Width(s);
  }

  lemma {:induction false} SlotsDescribed(table: seq<Stat>)
    ensures Slots(DescribeVdev(table)) == Slots(table)
  {
    if table != [] {
      assert DescribeVdev(table)[1..] == DescribeVdev(table[1..]);
      SlotsDescribed(table[1..]);
    }
  }

  /** Start-up changes descriptors only, never how many raw values an entry
      consumes. */
  lemma BoundaryDescribed(table: seq<Stat>, n: nat)
    ensures AtBoundary(DescribeVdev(table), n) <==> AtBoundary(table, n)
  {
    var t := DescribeVdev(table);
    SlotsDescribed(table);
    forall k | 0 <= k <= |table|
      ensures Start(t, k) == Start(table, k)
    {
      assert t[..k] == DescribeVdev(table[..k]);
      SlotsDescribed(table[..k]);
    }
  }


  /** How many raw values each entry of the vdev table consumes: one, except
      for the ops (6), bytes (6) and errors (4) entries at positions 8 to 10. */
  predicate VdevShape(t: seq<Stat>)
  {
    && |t| == 34
    && Width(t[8]) == 6 && Width(t[9]) == 6 && Width(t[10]) == 4
    && forall i :: 0 <= i < 34 && !(8 <= i <= 10) ==> Width(t[i]) == 1
  }

  lemma VdevTableShape()
    ensures VdevShape(VdevTable)
  {
  }

  lemma ShapeSlots(t: seq<Stat>)
    requires VdevShape(t)
    ensures Slots(t) == 47
  {
    var p := t[..8];
    var q := t[11..];
    assert forall i :: 0 <= i < |q| ==> q[i] == t[i + 11];
    SlotsFlat(p);
    SlotsFlat(q);
    assert t == p + [t[8]] + [t[9]] + [t[10]] + q;
    SlotsAppend(p + [t[8]] + [t[9]] + [t[10]], q);
    SlotsAppend(p + [t[8]] + [t[9]], [t[10]]);
    SlotsAppend(p + [t[8]], [t[9]]);
    SlotsAppend(p, [t[8]]);
    SingleBoundary(t[8], 0);
    SingleBoundary(t[9], 0);
    SingleBoundary(t[10], 0);
  }

  /** The kernel's vdev_stat_t as tabled spans 47 raw values. */
  lemma VdevTableSlots()
    ensures Slots(InitialTables().vdevStats) == 47
  {
    SlotsDescribed(VdevTable);
    VdevTableShape();
    ShapeSlots(VdevTable);
  }

  lemma ShapeBoundary(t: seq<Stat>, n: nat)
    requires VdevShape(t)
    ensures AtBoundary(t, n) <==> !(9 <= n <= 13 || 15 <= n <= 19 || 21 <= n <= 23)
  {
    var p := t[..8];
    var q := t[11..];
    assert forall i :: 0 <= i < |q| ==> q[i] == t[i + 11];
    SlotsFlat(p);
    assert t == p + ([t[8]] + ([t[9]] + ([t[10]] + q)));
    BoundaryAppend(p, [t[8]] + ([t[9]] + ([t[10]] + q)), n);
    if n <= 8 {
      FlatBoundary(p, n);
    } else {
      var m := n - 8;
      BoundaryAppend([t[8]], [t[9]] + ([t[10]] + q), m);
      SingleBoundary(t[8], m);
      SingleBoundary(t[8], 0);
      if m >= 6 {
        BoundaryAppend([t[9]], [t[10]] + q, m - 6);
        SingleBoundary(t[9], m - 6);
        SingleBoundary(t[9], 0);
        if m >= 12 {
          BoundaryAppend([t[10]], q, m - 12);
          SingleBoundary(t[10], m - 12);
          SingleBoundary(t[10], 0);
          if m >= 16 {
            FlatBoundary(q, m - 16);
          }
        }
      }
    }
  }

  /** Exactly the raw lengths that end inside the ops, bytes or errors
      entries make the walk over the start-up vdev table fail: 9 to 13, 15
      to 19 and 21 to 23. */
  lemma VdevTruncation(raw: seq<U64>, labels: seq<string>)
    ensures Walk(InitialTables().vdevStats, raw, labels).Err? <==>
      (9 <= |raw| <= 13 || 15 <= |raw| <= 19 || 21 <= |raw| <= 23)
  {
    WalkFollowsLayout(InitialTables().vdevStats, raw, labels);
    BoundaryDescribed(VdevTable, |raw|);
    VdevTableShape();
    ShapeBoundary(VdevTable, |raw|);
  }

  /** Collect's scan loop over the start-up table gives min(|raw|, 15)
      gauges, the i-th reporting raw[i] under the i-th scan statistic's
      descriptor, labelled by the pool alone. */
  lemma ScanGauges(raw: seq<U64>, pool: string)
    ensures var r := ScanReport(InitialTables().scanStats, raw, pool);
      && |r| == (if |raw| < 15 then |raw| else 15)
      && forall i :: 0 <= i < |r| ==>
           r[i] == Const(ScanDesc(ScanTable[i]), Gauge, raw[i], [pool])
  {
    assert |ScanTable| == 15;
  }
}
