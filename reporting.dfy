/** reportVdevStats: everything the exporter says about one vdev (the pool
    root, a top-level vdev or a device below one): the child-count and parity
    gauges, the positional statistics and the extended statistics. */
module Reporting {
  import opened Types
  import opened Text
  import opened Schema
  import opened Histogram
  import opened Positional

  /** The zero value of the extended-statistic record: what looking up an
      absent key of the map gives. */
  const NoExtStat: ExtStat := ExtStat("", Desc("", "", []), "")

  function Lookup(m: map<string, ExtStat>, key: string): ExtStat
  {
    if key in m then m[key] else NoExtStat
  }

  /** A key the exporter has a descriptor for. */
  predicate Known(m: map<string, ExtStat>, key: string)
  {
    Lookup(m, key).name != ""
  }

  /** The observation for a known extended statistic of a supported shape:
      a gauge for a scalar, a reconstructed histogram for a bucket array,
      labelled by the statistic's type label in front of vdev, pool and path. */
  function ExtMetric(meta: ExtStat, val: ExVal, labels: seq<string>): Metric
    requires !val.Other?
  {
    match val
    case Scalar(n) => Const(meta.desc, Gauge, n, [meta.typeLabel] + labels)
    case Buckets(h) => Histo(meta.desc, Reconstruct(h), [meta.typeLabel] + labels)
  }

  /** One visit of the extended-statistics loop: unknown keys are skipped,
      a known key of any other shape is fatal. */
  function ExtEntry(m: map<string, ExtStat>, key: string, val: ExVal, labels: seq<string>): Result<seq<Metric>>
  {
    var meta := Lookup(m, key);
    if meta.name == "" then Ok([])
    else if val.Other? then Err(BadExtStatType(key))
    else Ok([ExtMetric(meta, val, labels)])
  }

  /** In a map built from a table whose names are all non-empty, a key is
      known exactly when the table lists it. */
  lemma KnownIffListed(table: seq<ExtStat>, key: string)
    requires forall j :: 0 <= j < |table| ==> table[j].name != ""
    ensures Known(ExtMapOf(table), key) <==> exists j :: 0 <= j < |table| && table[j].name == key
  {
    var m := ExtMapOf(table);
    ExtMapOfLookup(table);
    if key in m {
      var j :| LastNamed(table, j, key) && table[j] == m[key];
    }
  }

  lemma ExtTableNamed()
    ensures forall j :: 0 <= j < |ExtTable| ==> ExtTable[j].name != ""
  {
  }

  /** With the tables start-up builds, a key is known exactly when the
      extended-statistics table lists it. */
  lemma InitialKnown(key: string)
    ensures Known(InitialTables().extStatsMap, key) <==> exists j :: 0 <= j < |ExtTable| && ExtTable[j].name == key
  {
    ExtTableNamed();
    KnownIffListed(ExtTable, key);
  }

  /** The extended-statistics loop, entries taken in map-iteration order. */
  function ExtReport(m: map<string, ExtStat>, entries: seq<(string, ExVal)>, labels: seq<string>): Result<seq<Metric>>
  {
    if entries == [] then Ok([])
    else
      var head :- ExtEntry(m, entries[0].0, entries[0].1, labels);
      Prepend(head, ExtReport(m, entries[1..], labels))
  }

  /** An entry that stops the collection: known key, unsupported shape. */
  predicate Bad(m: map<string, ExtStat>, e: (string, ExVal))
  {
    Known(m, e.0) && e.1.Other?
  }

  /** Number of entries whose key is known. */
  function KnownCount(m: map<string, ExtStat>, entries: seq<(string, ExVal)>): nat
  {
    if entries == [] then 0
    else (if Known(m, entries[0].0) then 1 else 0) + KnownCount(m, entries[1..])
  }

  /** The extended statistics fail exactly when some entry is bad, and then
      with the key of the first bad entry visited. */
  lemma {:induction false} ExtReportFails(m: map<string, ExtStat>, entries: seq<(string, ExVal)>, labels: seq<string>)
    ensures ExtReport(m, entries, labels).Err? <==> exists i :: 0 <= i < |entries| && Bad(m, entries[i])
    ensures ExtReport(m, entries, labels).Err? ==>
      exists i :: 0 <= i < |entries| && Bad(m, entries[i])
        && ExtReport(m, entries, labels).fault == BadExtStatType(entries[i].0)
        && forall j :: 0 <= j < i ==> !Bad(m, entries[j])
  {
    if entries != [] {
      ExtReportFails(m, entries[1..], labels);
      var r := ExtReport(m, entries, labels);
      if Bad(m, entries[0]) {
        assert r.fault == BadExtStatType(entries[0].0);
      } else {
        assert r.Err? <==> ExtReport(m, entries[1..], labels).Err?;
        if r.Err? {
          var i :| 0 <= i < |entries[1..]| && Bad(m, entries[1..][i])
            && ExtReport(m, entries[1..], labels).fault == BadExtStatType(entries[1..][i].0)
            && forall j :: 0 <= j < i ==> !Bad(m, entries[1..][j]);
          assert forall j :: 0 <= j < i + 1 ==> !Bad(m, entries[j]) by {
            forall j | 0 <= j < i + 1 ensures !Bad(m, entries[j]) {
              if j > 0 {
                assert entries[j] == entries[1..][j - 1];
              }
            }
          }
          assert Bad(m, entries[i + 1]);
        } else {
          forall i | 0 <= i < |entries| ensures !Bad(m, entries[i]) {
            if i > 0 {
              assert entries[i] == entries[1..][i - 1];
            }
          }
        }
      }
    }
  }

  /** Entry `i` is known, of a supported shape, and observed as `x`. */
  predicate Gives(m: map<string, ExtStat>, entries: seq<(string, ExVal)>, labels: seq<string>, i: int, x: Metric)
  {
    0 <= i < |entries| && Known(m, entries[i].0) && !entries[i].1.Other?
    && x == ExtMetric(Lookup(m, entries[i].0), entries[i].1, labels)
  }

  /** A successful report holds one observation per known entry and nothing
      else: every observation comes from a known entry, and every known entry
      gives its observation. */
  lemma {:induction false} ExtReportContents(m: map<string, ExtStat>, entries: seq<(string, ExVal)>, labels: seq<string>)
    requires ExtReport(m, entries, labels).Ok?
    ensures |ExtReport(m, entries, labels).value| == KnownCount(m, entries)
    ensures forall x :: x in ExtReport(m, entries, labels).value <==>
      exists i :: Gives(m, entries, labels, i, x)
  {
    if entries != [] {
      var rest := entries[1..];
      ExtReportContents(m, rest, labels);
      var v := ExtReport(m, entries, labels).value;
      var head := ExtEntry(m, entries[0].0, entries[0].1, labels).value;
      assert v == head + ExtReport(m, rest, labels).value;
      forall x
        ensures x in v <==> exists i :: Gives(m, entries, labels, i, x)
      {
        if x in head {
          assert Gives(m, entries, labels, 0, x);
        }
        if x in ExtReport(m, rest, labels).value {
          var i :| Gives(m, rest, labels, i, x);
          assert entries[i + 1] == rest[i];
          assert Gives(m, entries, labels, i + 1, x);
        }
        if exists i :: Gives(m, entries, labels, i, x) {
          var i :| Gives(m, entries, labels, i, x);
          if i > 0 {
            assert entries[i] == rest[i - 1];
            assert Gives(m, rest, labels, i - 1, x);
          } else {
            assert head == [x];
          }
        }
      }
    }
  }

  /** The loop of reportVdevStats over the extended statistics. */
  method ReportExtStats(m: map<string, ExtStat>, entries: seq<(string, ExVal)>, labels: seq<string>)
    returns (r: Result<seq<Metric>>)
    ensures r == ExtReport(m, entries, labels)
  {
    var out: seq<Metric> := [];
    assert entries[0..] == entries;
    PrependNothing(ExtReport(m, entries, labels));
    for i := 0 to |entries|
      invariant Prepend(out, ExtReport(m, entries[i..], labels)) == ExtReport(m, entries, labels)
    {
      var (key, val) := entries[i];
      assert entries[i..][1..] == entries[i + 1..];
      var meta := Lookup(m, key);
      if meta.name == "" {
        PrependNothing(ExtReport(m, entries[i + 1..], labels));
        continue;
      }
      match val
      case Scalar(n) =>
        PrependTwice(out, [Const(meta.desc, Gauge, n, [meta.typeLabel] + labels)], ExtReport(m, entries[i + 1..], labels));
        out := out + [Const(meta.desc, Gauge, n, [meta.typeLabel] + labels)];
      case Buckets(h) =>
        var hd := ReconstructHistogram(h);
        PrependTwice(out, [Histo(meta.desc, hd, [meta.typeLabel] + labels)], ExtReport(m, entries[i + 1..], labels));
        out := out + [Histo(meta.desc, hd, [meta.typeLabel] + labels)];
      case Other =>
        return Err(BadExtStatType(key));
    }
    assert entries[|entries|..] == [];
    assert out + [] == out;
    r := Ok(out);
  }

  /** The path label: empty when the vdev has no path, the path as given
      for files or when full paths are asked for, its last element
      otherwise. */
  function PathLabel(node: Node, fullPath: bool): string
  {
    match node.path
    case None => ""
    case Some(p) => if !fullPath && node.typ != "file" then Base(p) else p
  }

  /** Without full paths, a device other than a file is labelled by a
      non-empty name free of '/' (or by "/" itself); in every other case the
      path is passed through. */
  lemma {:induction false} PathLabelShape(node: Node, fullPath: bool)
    ensures node.path.None? ==> PathLabel(node, fullPath) == ""
    ensures node.path.Some? && (fullPath || node.typ == "file") ==> PathLabel(node, fullPath) == node.path.value
    ensures node.path.Some? && !fullPath && node.typ != "file" ==>
      PathLabel(node, fullPath) != "" && ('/' in PathLabel(node, fullPath) ==> PathLabel(node, fullPath) == "/")
  {
    if node.path.Some? {
      BaseShape(node.path.value);
    }
  }

  /** The child-count and parity gauges, sent when the vdev has those
      attributes. */
  function Header(pool: string, name: string, node: Node): seq<Metric>
  {
    (if node.children.Present? then [Const(VdevChildren, Gauge, |node.children.nodes|, [name, pool])] else [])
    + (if node.nparity.Some? then [Const(VdevNparity, Gauge, node.nparity.value, [name, pool])] else [])
  }

  /** Everything reported about one vdev named `name` in pool `pool`. */
  function VdevReport(t: Tables, pool: string, name: string, node: Node, fullPath: bool): Result<seq<Metric>>
    requires t.Ready()
  {
    var labels := [name, pool, PathLabel(node, fullPath)];
    var walked :- Walk(t.vdevStats, node.stats, labels);
    var ext :- ExtReport(t.extStatsMap, node.statsEx, labels);
    Ok(Header(pool, name, node) + walked + ext)
  }

  /** A vdev's report fails exactly when its raw array is cut inside a
      variant entry or an extended statistic has an unsupported shape; when
      it succeeds it is the header, the reference reading of the raw array
      and the extended statistics, in that order. */
  lemma {:induction false} VdevReportOutcome(t: Tables, pool: string, name: string, node: Node, fullPath: bool)
    requires t.Ready()
    ensures VdevReport(t, pool, name, node, fullPath).Err? <==>
      !AtBoundary(t.vdevStats, |node.stats|) || exists i :: 0 <= i < |node.statsEx| && Bad(t.extStatsMap, node.statsEx[i])
    ensures VdevReport(t, pool, name, node, fullPath).Ok? ==>
      var labels := [name, pool, PathLabel(node, fullPath)];
      VdevReport(t, pool, name, node, fullPath).value
        == Header(pool, name, node) + Ref(Layout(t.vdevStats), node.stats, labels)
           + ExtReport(t.extStatsMap, node.statsEx, labels).value
  {
    var labels := [name, pool, PathLabel(node, fullPath)];
    WalkFollowsLayout(t.vdevStats, node.stats, labels);
    ExtReportFails(t.extStatsMap, node.statsEx, labels);
  }

  /** reportVdevStats. */
  method ReportVdevStats(t: Tables, pool: string, name: string, node: Node, fullPath: bool)
    returns (r: Result<seq<Metric>>)
    requires t.Ready()
    ensures r == VdevReport(t, pool, name, node, fullPath)
  {
    var out: seq<Metric> := [];
    if node.children.Present? {
      out := out + [Const(VdevChildren, Gauge, |node.children.nodes|, [name, pool])];
    }
    if node.nparity.Some? {
      out := out + [Const(VdevNparity, Gauge, node.nparity.value, [name, pool])];
    }
    var path := "";
    if node.path.Some? {
      path := node.path.value;
      if !fullPath && node.typ != "file" {
        path := Base(path);
      }
    }
    assert out == Header(pool, name, node);
    assert path == PathLabel(node, fullPath);
    var labels := [name, pool, path];
    var walked := WalkVdevStats(t.vdevStats, node.stats, labels);
    if walked.Err? {
      return Err(walked.fault);
    }
    var ext := ReportExtStats(t.extStatsMap, node.statsEx, labels);
    if ext.Err? {
      return Err(ext.fault);
    }
    r := Ok(out + walked.value + ext.value);
  }
}
