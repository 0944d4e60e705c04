/** The device-tree traversal (descendVdev) and the tree and scan part of
    Collect: which vdevs are reported, under which names, in which order,
    for a given -depth setting. */
module Walker {
  import opened Types
  import opened Text
  import opened Schema
  import opened Naming
  import opened Positional
  import opened Reporting

  /** Number of children of a vdev (0 when it has no children attribute). */
  function KidCount(node: Node): nat
  {
    if node.children.Present? then |node.children.nodes| else 0
  }

  /** descendVdev from child `j` of `node` on: each child is named below
      `parent`, reported, and descended into before its next sibling. */
  function DescendFrom(t: Tables, pool: string, fullPath: bool, parent: string, node: Node, j: nat): Result<seq<Metric>>
    requires t.Ready()
    decreases node, KidCount(node) - j
  {
    if node.children.Absent? || j >= |node.children.nodes| then Ok([])
    else
      var kid := node.children.nodes[j];
      var name :- VdevName(parent, kid);
      var rep :- VdevReport(t, pool, name, kid, fullPath);
      var below :- DescendFrom(t, pool, fullPath, name, kid, 0);
      Prepend(rep + below, DescendFrom(t, pool, fullPath, parent, node, j + 1))
  }

  /** descendVdev. */
  method DescendVdev(t: Tables, pool: string, fullPath: bool, parent: string, node: Node) returns (r: Result<seq<Metric>>)
    requires t.Ready()
    ensures r == DescendFrom(t, pool, fullPath, parent, node, 0)
    decreases node
  {
    if node.children.Absent? {
      return Ok([]);
    }
    var kids := node.children.nodes;
    var out: seq<Metric> := [];
    PrependNothing(DescendFrom(t, pool, fullPath, parent, node, 0));
    for j := 0 to |kids|
      invariant Prepend(out, DescendFrom(t, pool, fullPath, parent, node, j)) == DescendFrom(t, pool, fullPath, parent, node, 0)
    {
      var kid := kids[j];
      var name := VdevName(parent, kid);
      if name.Err? {
        return Err(name.fault);
      }
      var rep := ReportVdevStats(t, pool, name.value, kid, fullPath);
      if rep.Err? {
        return Err(rep.fault);
      }
      var below := DescendVdev(t, pool, fullPath, name.value, kid);
      if below.Err? {
        return Err(below.fault);
      }
      PrependTwice(out, rep.value + below.value, DescendFrom(t, pool, fullPath, parent, node, j + 1));
      out := out + (rep.value + below.value);
    }
    assert out + [] == out;
    r := Ok(out);
  }

  /** A reported vdev: the name it is reported under and the vdev itself. */
  datatype Visit = Visit(name: string, node: Node)

  /** The vdevs the descent visits, in visiting order, without reporting
      them: the reference the traversal is compared with. */
  function VisitsFrom(parent: string, node: Node, j: nat): Result<seq<Visit>>
    decreases node, KidCount(node) - j
  {
    if node.children.Absent? || j >= |node.children.nodes| then Ok([])
    else
      var kid := node.children.nodes[j];
      var name :- VdevName(parent, kid);
      var below :- VisitsFrom(name, kid, 0);
      Prepend([Visit(name, kid)] + below, VisitsFrom(parent, node, j + 1))
  }

  /** Reports a list of visits one after the other, stopping at the first
      failure. */
  function ReportAll(t: Tables, pool: string, fullPath: bool, vs: seq<Visit>): Result<seq<Metric>>
    requires t.Ready()
  {
    if vs == [] then Ok([])
    else
      var rep :- VdevReport(t, pool, vs[0].name, vs[0].node, fullPath);
      Prepend(rep, ReportAll(t, pool, fullPath, vs[1..]))
  }

  lemma {:induction false} ReportAllAppend(t: Tables, pool: string, fullPath: bool, a: seq<Visit>, b: seq<Visit>)
    requires t.Ready()
    ensures ReportAll(t, pool, fullPath, a + b).Ok? <==>
      ReportAll(t, pool, fullPath, a).Ok? && ReportAll(t, pool, fullPath, b).Ok?
    ensures ReportAll(t, pool, fullPath, a + b).Ok? ==>
      ReportAll(t, pool, fullPath, a + b).value == ReportAll(t, pool, fullPath, a).value + ReportAll(t, pool, fullPath, b).value
  {
    if a == [] {
      assert a + b == b;
    } else {
      assert (a + b)[1..] == a[1..] + b;
      ReportAllAppend(t, pool, fullPath, a[1..], b);
    }
  }

  lemma {:induction false} ReportAllCons(t: Tables, pool: string, fullPath: bool, v: Visit, rest: seq<Visit>)
    requires t.Ready()
    ensures ReportAll(t, pool, fullPath, [v] + rest).Ok? <==>
      VdevReport(t, pool, v.name, v.node, fullPath).Ok? && ReportAll(t, pool, fullPath, rest).Ok?
    ensures ReportAll(t, pool, fullPath, [v] + rest).Ok? ==>
      ReportAll(t, pool, fullPath, [v] + rest).value
        == VdevReport(t, pool, v.name, v.node, fullPath).value + ReportAll(t, pool, fullPath, rest).value
  {
    assert ([v] + rest)[0] == v && ([v] + rest)[1..] == rest;
  }

  /** One step of the descent, once the child is named. */
  lemma {:induction false} DescendStep(t: Tables, pool: string, fullPath: bool, parent: string, node: Node, j: nat, nm: string)
    requires t.Ready()
    requires node.children.Present? && j < |node.children.nodes|
    requires VdevName(parent, node.children.nodes[j]) == Ok(nm)
    ensures var kid := node.children.nodes[j];
      var rep := VdevReport(t, pool, nm, kid, fullPath);
      var dk := DescendFrom(t, pool, fullPath, nm, kid, 0);
      var dr := DescendFrom(t, pool, fullPath, parent, node, j + 1);
      var d := DescendFrom(t, pool, fullPath, parent, node, j);
      && (d.Ok? <==> rep.Ok? && dk.Ok? && dr.Ok?)
      && (d.Ok? ==> d.value == rep.value + dk.value + dr.value)
  {
  }

  /** One step of the reference traversal, once the child is named. */
  lemma {:induction false} VisitsStep(parent: string, node: Node, j: nat, nm: string)
    requires node.children.Present? && j < |node.children.nodes|
    requires VdevName(parent, node.children.nodes[j]) == Ok(nm)
    ensures var kid := node.children.nodes[j];
      var vk := VisitsFrom(nm, kid, 0);
      var vr := VisitsFrom(parent, node, j + 1);
      var v := VisitsFrom(parent, node, j);
      && (v.Ok? <==> vk.Ok? && vr.Ok?)
      && (v.Ok? ==> v.value == [Visit(nm, kid)] + (vk.value + vr.value))
  {
    var kid := node.children.nodes[j];
    var vk := VisitsFrom(nm, kid, 0);
    var vr := VisitsFrom(parent, node, j + 1);
    if vk.Ok? && vr.Ok? {
      assert [Visit(nm, kid)] + vk.value + vr.value == [Visit(nm, kid)] + (vk.value + vr.value);
    }
  }

  /** Descending succeeds exactly when the reference traversal names every
      visited vdev and every one of them can be reported. */
  lemma {:induction false} DescendOkIff(t: Tables, pool: string, fullPath: bool, parent: string, node: Node, j: nat)
    requires t.Ready()
    ensures DescendFrom(t, pool, fullPath, parent, node, j).Ok? <==>
      VisitsFrom(parent, node, j).Ok? && ReportAll(t, pool, fullPath, VisitsFrom(parent, node, j).value).Ok?
    decreases node, KidCount(node) - j
  {
    if node.children.Present? && j < |node.children.nodes| {
      var kid := node.children.nodes[j];
      var name := VdevName(parent, kid);
      if name.Ok? {
        var nm := name.value;
        DescendOkIff(t, pool, fullPath, nm, kid, 0);
        DescendOkIff(t, pool, fullPath, parent, node, j + 1);
        DescendStep(t, pool, fullPath, parent, node, j, nm);
        VisitsStep(parent, node, j, nm);
        var vk := VisitsFrom(nm, kid, 0);
        var vr := VisitsFrom(parent, node, j + 1);
        if vk.Ok? && vr.Ok? {
          ReportAllCons(t, pool, fullPath, Visit(nm, kid), vk.value + vr.value);
          ReportAllAppend(t, pool, fullPath, vk.value, vr.value);
        }
      }
    }
  }

  /** Reporting a visit followed by two runs of visits, given each part's
      report. */
  lemma {:induction false} ReportAllJoin(t: Tables, pool: string, fullPath: bool, v: Visit, a: seq<Visit>, b: seq<Visit>,
                                        rep: seq<Metric>, ra: seq<Metric>, rb: seq<Metric>)
    requires t.Ready()
    requires VdevReport(t, pool, v.name, v.node, fullPath) == Ok(rep)
    requires ReportAll(t, pool, fullPath, a) == Ok(ra) && ReportAll(t, pool, fullPath, b) == Ok(rb)
    ensures ReportAll(t, pool, fullPath, [v] + (a + b)) == Ok(rep + ra + rb)
  {
    ReportAllAppend(t, pool, fullPath, a, b);
    ReportAllCons(t, pool, fullPath, v, a + b);
    assert rep + (ra + rb) == rep + ra + rb;
  }

  /** When descending succeeds, its observations are the reports of the
      reference traversal's visits, in visiting order. */
  lemma {:induction false} DescendIsReportAll(t: Tables, pool: string, fullPath: bool, parent: string, node: Node, j: nat)
    requires t.Ready()
    requires DescendFrom(t, pool, fullPath, parent, node, j).Ok?
    ensures VisitsFrom(parent, node, j).Ok?
    ensures DescendFrom(t, pool, fullPath, parent, node, j)
         == ReportAll(t, pool, fullPath, VisitsFrom(parent, node, j).value)
    decreases node, KidCount(node) - j
  {
    DescendOkIff(t, pool, fullPath, parent, node, j);
    if node.children.Present? && j < |node.children.nodes| {
      var kid := node.children.nodes[j];
      var nm := VdevName(parent, kid).value;
      DescendStep(t, pool, fullPath, parent, node, j, nm);
      DescendIsReportAll(t, pool, fullPath, nm, kid, 0);
      DescendIsReportAll(t, pool, fullPath, parent, node, j + 1);
      VisitsStep(parent, node, j, nm);
      ReportAllJoin(t, pool, fullPath, Visit(nm, kid), VisitsFrom(nm, kid, 0).value, VisitsFrom(parent, node, j + 1).value,
        VdevReport(t, pool, nm, kid, fullPath).value, DescendFrom(t, pool, fullPath, nm, kid, 0).value,
        DescendFrom(t, pool, fullPath, parent, node, j + 1).value);
    }
  }

  /** Pre-order listing of the descendants of `node`, from child `j` on. */
  function Descendants(node: Node, j: nat): seq<Node>
    decreases node, KidCount(node) - j
  {
    if node.children.Absent? || j >= |node.children.nodes| then []
    else
      var kid := node.children.nodes[j];
      [kid] + Descendants(kid, 0) + Descendants(node, j + 1)
  }

  function Nodes(vs: seq<Visit>): (ns: seq<Node>)
    ensures |ns| == |vs|
  {
    seq(|vs|, i requires 0 <= i < |vs| => vs[i].node)
  }

  lemma NodesAppend(a: seq<Visit>, b: seq<Visit>)
    ensures Nodes(a + b) == Nodes(a) + Nodes(b)
  {
  }

  /** The traversal visits every descendant exactly once, in pre-order,
      whatever the names turn out to be. */
  lemma {:induction false} VisitsArePreorder(parent: string, node: Node, j: nat)
    requires VisitsFrom(parent, node, j).Ok?
    ensures Nodes(VisitsFrom(parent, node, j).value) == Descendants(node, j)
    decreases node, KidCount(node) - j
  {
    if node.children.Present? && j < |node.children.nodes| {
      var kid := node.children.nodes[j];
      var nm := VdevName(parent, kid).value;
      VisitsArePreorder(nm, kid, 0);
      VisitsArePreorder(parent, node, j + 1);
      var vk := VisitsFrom(nm, kid, 0).value;
      var vr := VisitsFrom(parent, node, j + 1).value;
      NodesAppend([Visit(nm, kid)] + vk, vr);
      NodesAppend([Visit(nm, kid)], vk);
    }
  }

  /** A vdev the naming rules cannot name. */
  predicate Unnameable(n: Node)
  {
    n.typ == "draid" && n.children.Absent?
  }

  /** The traversal fails only by naming: it fails exactly when some
      descendant is a draid vdev without children. */
  lemma {:induction false} VisitsFailIff(parent: string, node: Node, j: nat)
    ensures VisitsFrom(parent, node, j).Err? <==> exists n :: n in Descendants(node, j) && Unnameable(n)
    decreases node, KidCount(node) - j
  {
    if node.children.Present? && j < |node.children.nodes| {
      var kid := node.children.nodes[j];
      assert Descendants(node, j) == [kid] + Descendants(kid, 0) + Descendants(node, j + 1);
      NameFailsIff(parent, kid);
      var name := VdevName(parent, kid);
      if name.Ok? {
        VisitsFailIff(name.value, kid, 0);
        VisitsFailIff(parent, node, j + 1);
        var vk := VisitsFrom(name.value, kid, 0);
        var vr := VisitsFrom(parent, node, j + 1);
        assert VisitsFrom(parent, node, j).Err? <==> vk.Err? || vr.Err?;
        assert !Unnameable(kid);
        var d := Descendants(node, j);
        if vk.Err? {
          var n :| n in Descendants(kid, 0) && Unnameable(n);
          assert n in d;
        } else if vr.Err? {
          var n :| n in Descendants(node, j + 1) && Unnameable(n);
          assert n in d;
        }
        if exists n :: n in d && Unnameable(n) {
          var n :| n in d && Unnameable(n);
          assert n in Descendants(kid, 0) || n in Descendants(node, j + 1);
        }
      } else {
        assert kid in Descendants(node, j);
      }
    }
  }

  /** The top-level loop of Collect at -depth 1: each child of the root is
      named and reported, nothing below it. */
  function ShallowFrom(t: Tables, pool: string, fullPath: bool, kids: seq<Node>, j: nat): Result<seq<Metric>>
    requires t.Ready()
    decreases |kids| - j
  {
    if j >= |kids| then Ok([])
    else
      var name :- VdevName("", kids[j]);
      var rep :- VdevReport(t, pool, name, kids[j], fullPath);
      Prepend(rep, ShallowFrom(t, pool, fullPath, kids, j + 1))
  }

  /** The visits of the top-level loop at -depth 1. */
  function TopVisits(kids: seq<Node>, j: nat): Result<seq<Visit>>
    decreases |kids| - j
  {
    if j >= |kids| then Ok([])
    else
      var name :- VdevName("", kids[j]);
      Prepend([Visit(name, kids[j])], TopVisits(kids, j + 1))
  }

  lemma {:induction false} ShallowIsReportAll(t: Tables, pool: string, fullPath: bool, kids: seq<Node>, j: nat)
    requires t.Ready()
    ensures ShallowFrom(t, pool, fullPath, kids, j).Ok? <==>
      TopVisits(kids, j).Ok? && ReportAll(t, pool, fullPath, TopVisits(kids, j).value).Ok?
    ensures ShallowFrom(t, pool, fullPath, kids, j).Ok? ==>
      ShallowFrom(t, pool, fullPath, kids, j).value == ReportAll(t, pool, fullPath, TopVisits(kids, j).value).value
    decreases |kids| - j
  {
    if j < |kids| {
      ShallowIsReportAll(t, pool, fullPath, kids, j + 1);
      var name := VdevName("", kids[j]);
      if name.Ok? && TopVisits(kids, j + 1).Ok? {
        var vs := TopVisits(kids, j + 1).value;
        assert TopVisits(kids, j).value == [Visit(name.value, kids[j])] + vs;
        assert ([Visit(name.value, kids[j])] + vs)[1..] == vs;
      }
    }
  }

  /** At -depth 1 every child of the root is visited once, in order, under
      its own top-level name. */
  lemma {:induction false} TopVisitsShape(kids: seq<Node>, j: nat)
    requires j <= |kids|
    requires TopVisits(kids, j).Ok?
    ensures |TopVisits(kids, j).value| == |kids| - j
    ensures forall i :: 0 <= i < |kids| - j ==>
      TopVisits(kids, j).value[i].node == kids[j + i]
      && VdevName("", kids[j + i]) == Ok(TopVisits(kids, j).value[i].name)
    decreases |kids| - j
  {
    if j < |kids| {
      TopVisitsShape(kids, j + 1);
      var rest := TopVisits(kids, j + 1).value;
      var v := TopVisits(kids, j).value;
      assert v == [Visit(VdevName("", kids[j]).value, kids[j])] + rest;
      forall i | 0 <= i < |kids| - j
        ensures v[i].node == kids[j + i] && VdevName("", kids[j + i]) == Ok(v[i].name)
      {
        if i > 0 {
          assert v[i] == rest[i - 1];
        }
      }
    }
  }

  /** The vdevs Collect reports for a pool whose device tree is `root`: the
      root itself (named "root"), then nothing more at -depth 0 or below, the
      top-level vdevs at -depth 1, and the whole tree in pre-order beyond. */
  function PoolVisits(root: Node, depth: int): Result<seq<Visit>>
    requires root.children.Present?
  {
    Prepend([Visit("root", root)], BelowRoot(root, depth))
  }

  function BelowRoot(root: Node, depth: int): Result<seq<Visit>>
    requires root.children.Present?
  {
    if depth <= 0 then Ok([])
    else if depth == 1 then TopVisits(root.children.nodes, 0)
    else VisitsFrom("", root, 0)
  }

  /** -depth 0 (or less) reports only the pool root. */
  lemma {:induction false} RootOnly(root: Node, depth: int)
    requires root.children.Present? && depth <= 0
    ensures PoolVisits(root, depth) == Ok([Visit("root", root)])
  {
    assert [Visit("root", root)] + [] == [Visit("root", root)];
  }

  /** -depth 1 reports the root and each top-level vdev once. */
  lemma {:induction false} TopLevelOnly(root: Node)
    requires root.children.Present?
    requires PoolVisits(root, 1).Ok?
    ensures |PoolVisits(root, 1).value| == 1 + |root.children.nodes|
    ensures PoolVisits(root, 1).value[0] == Visit("root", root)
    ensures forall i :: 0 <= i < |root.children.nodes| ==>
      PoolVisits(root, 1).value[i + 1].node == root.children.nodes[i]
  {
    TopVisitsShape(root.children.nodes, 0);
    assert PoolVisits(root, 1).value == [Visit("root", root)] + TopVisits(root.children.nodes, 0).value;
  }

  /** A deeper -depth reports the root and then every vdev of the tree once,
      in pre-order. */
  lemma {:induction false} WholeTree(root: Node, depth: int)
    requires root.children.Present? && depth > 1
    requires PoolVisits(root, depth).Ok?
    ensures Nodes(PoolVisits(root, depth).value) == [root] + Descendants(root, 0)
  {
    assert BelowRoot(root, depth) == VisitsFrom("", root, 0);
    VisitsArePreorder("", root, 0);
    NodesAppend([Visit("root", root)], VisitsFrom("", root, 0).value);
  }

  /** Collect's top-level loop at a given -depth. */
  function TopLevel(t: Tables, pool: string, fullPath: bool, depth: int, root: Node): Result<seq<Metric>>
    requires t.Ready() && root.children.Present?
  {
    if depth <= 0 then Ok([])
    else if depth == 1 then ShallowFrom(t, pool, fullPath, root.children.nodes, 0)
    else DescendFrom(t, pool, fullPath, "", root, 0)
  }

  /** The four pool gauges, sent before the tree is looked at. */
  function PoolGauges(pool: string, rec: PoolRecord): seq<Metric>
    requires |rec.loadTimes| > 0
  {
    var guid := NatToString(rec.guid);
    [ Const(PoolLoadTime, Gauge, rec.loadTimes[0], [pool, guid]),
      Const(PoolErrors, Gauge, rec.errorCount, [pool, guid]),
      Const(PoolChildren, Gauge, rec.vdevChildren, [pool, guid]),
      Const(PoolConfigTxg, Gauge, rec.txg, [pool]) ]
  }

  function ScanPart(t: Tables, pool: string, root: Node): seq<Metric>
    requires t.Ready()
  {
    if root.scanStats.Some? then ScanReport(t.scanStats, root.scanStats.value, pool) else []
  }

  /** One iteration of Collect's pool loop. */
  function PoolReport(t: Tables, pool: string, rec: PoolRecord, depth: int, fullPath: bool): Result<seq<Metric>>
    requires t.Ready()
  {
    if |rec.loadTimes| == 0 then Err(MissingLoadTime)
    else if rec.tree.children.Absent? then Err(MissingChildren)
    else
      var root :- VdevReport(t, pool, "root", rec.tree, fullPath);
      var top :- TopLevel(t, pool, fullPath, depth, rec.tree);
      Ok(PoolGauges(pool, rec) + root + top + ScanPart(t, pool, rec.tree))
  }

  /** Collect's top-level loop reports exactly the visits below the root. */
  lemma {:induction false} TopLevelIsReportAll(t: Tables, pool: string, fullPath: bool, depth: int, root: Node)
    requires t.Ready() && root.children.Present?
    ensures TopLevel(t, pool, fullPath, depth, root).Ok? <==>
      BelowRoot(root, depth).Ok? && ReportAll(t, pool, fullPath, BelowRoot(root, depth).value).Ok?
    ensures TopLevel(t, pool, fullPath, depth, root).Ok? ==>
      TopLevel(t, pool, fullPath, depth, root).value == ReportAll(t, pool, fullPath, BelowRoot(root, depth).value).value
  {
    if depth == 1 {
      ShallowIsReportAll(t, pool, fullPath, root.children.nodes, 0);
    } else if depth > 1 {
      DescendOkIff(t, pool, fullPath, "", root, 0);
      if DescendFrom(t, pool, fullPath, "", root, 0).Ok? {
        DescendIsReportAll(t, pool, fullPath, "", root, 0);
      }
    }
  }

  /** A pool's report is its gauges, the reports of exactly the vdevs
      PoolVisits lists, and its scan statistics; it fails when the load time
      or the root's children are missing or a visit cannot be named or
      reported. */
  lemma {:induction false} PoolReportIsVisits(t: Tables, pool: string, rec: PoolRecord, depth: int, fullPath: bool)
    requires t.Ready()
    ensures |rec.loadTimes| == 0 ==> PoolReport(t, pool, rec, depth, fullPath) == Err(MissingLoadTime)
    ensures |rec.loadTimes| > 0 && rec.tree.children.Absent? ==> PoolReport(t, pool, rec, depth, fullPath) == Err(MissingChildren)
    ensures |rec.loadTimes| > 0 && rec.tree.children.Present? ==>
      (PoolReport(t, pool, rec, depth, fullPath).Ok? <==>
        PoolVisits(rec.tree, depth).Ok? && ReportAll(t, pool, fullPath, PoolVisits(rec.tree, depth).value).Ok?)
    ensures PoolReport(t, pool, rec, depth, fullPath).Ok? ==>
      PoolReport(t, pool, rec, depth, fullPath).value
        == PoolGauges(pool, rec) + ReportAll(t, pool, fullPath, PoolVisits(rec.tree, depth).value).value
           + ScanPart(t, pool, rec.tree)
  {
    if |rec.loadTimes| > 0 && rec.tree.children.Present? {
      var root := rec.tree;
      TopLevelIsReportAll(t, pool, fullPath, depth, root);
      var below := BelowRoot(root, depth);
      if below.Ok? {
        ReportAllCons(t, pool, fullPath, Visit("root", root), below.value);
        var r := PoolReport(t, pool, rec, depth, fullPath);
        if r.Ok? {
          var g := PoolGauges(pool, rec);
          var rr := VdevReport(t, pool, "root", root, fullPath).value;
          var tl := TopLevel(t, pool, fullPath, depth, root).value;
          var sc := ScanPart(t, pool, root);
          assert r.value == g + rr + tl + sc;
          assert g + rr + tl + sc == g + (rr + tl) + sc;
        }
      }
    }
  }

  /** Collect over the pools in listing order; any failure ends it. */
  function PoolsReport(t: Tables, pools: seq<(string, PoolFetch)>, depth: int, fullPath: bool): Result<seq<Metric>>
    requires t.Ready()
  {
    if pools == [] then Ok([])
    else
      var (name, fetch) := pools[0];
      match fetch
      case FetchFailed => Err(PoolStatsFailed(name))
      case Fetched(rec) =>
        var r :- PoolReport(t, name, rec, depth, fullPath);
        Prepend(r, PoolsReport(t, pools[1..], depth, fullPath))
  }

  /** The tree and scan part of Collect. */
  function CollectReport(t: Tables, listing: PoolListing, depth: int, fullPath: bool): Result<seq<Metric>>
    requires t.Ready()
  {
    match listing
    case ListFailed => Err(PoolListFailed)
    case Listed(pools) => PoolsReport(t, pools, depth, fullPath)
  }

  /** A pool that fails to report makes the whole collection fail, and a
      successful collection sends every pool's load-time gauge. */
  lemma {:induction false} PoolsReportOutcome(t: Tables, pools: seq<(string, PoolFetch)>, depth: int, fullPath: bool)
    requires t.Ready()
    ensures PoolsReport(t, pools, depth, fullPath).Ok? <==>
      forall i :: 0 <= i < |pools| ==>
        pools[i].1.Fetched? && PoolReport(t, pools[i].0, pools[i].1.record, depth, fullPath).Ok?
    ensures PoolsReport(t, pools, depth, fullPath).Ok? ==>
      forall i :: 0 <= i < |pools| ==>
        Const(PoolLoadTime, Gauge, pools[i].1.record.loadTimes[0], [pools[i].0, NatToString(pools[i].1.record.guid)])
          in PoolsReport(t, pools, depth, fullPath).value
  {
    if pools != [] {
      PoolsReportOutcome(t, pools[1..], depth, fullPath);
      var r := PoolsReport(t, pools, depth, fullPath);
      if pools[0].1.Fetched? {
        var rec := pools[0].1.record;
        var pr := PoolReport(t, pools[0].0, rec, depth, fullPath);
        if pr.Ok? {
          assert |rec.loadTimes| > 0;
          assert pr.value[0] == Const(PoolLoadTime, Gauge, rec.loadTimes[0], [pools[0].0, NatToString(rec.guid)]);
        }
      }
      forall i | 0 < i < |pools|
        ensures pools[i] == pools[1..][i - 1]
      {
      }
      if r.Ok? {
        forall i | 0 <= i < |pools|
          ensures Const(PoolLoadTime, Gauge, pools[i].1.record.loadTimes[0], [pools[i].0, NatToString(pools[i].1.record.guid)])
            in r.value
        {
          if i > 0 {
            assert pools[i] == pools[1..][i - 1];
          }
        }
      }
    }
  }

  /** Scenario: a pool of one two-way mirror, walked with -depth 2, reports
      the root as "root" and the mirror and both of its disks as
      "mirror-0"; the disks are told apart by their path labels. */
  lemma {:induction false} MirrorScenario(root: Node, mirror: Node, a: Node, b: Node)
    requires a.typ == "disk" && b.typ == "disk" && a.children.Absent? && b.children.Absent?
    requires mirror.typ == "mirror" && mirror.id == Some(0) && mirror.children == Present([a, b])
    requires root.children == Present([mirror])
    ensures PoolVisits(root, 2)
         == Ok([Visit("root", root), Visit("mirror-0", mirror), Visit("mirror-0", a), Visit("mirror-0", b)])
  {
    assert FmtD(mirror.id) == "0";
    assert Stem(mirror) == Ok("mirror");
    assert Prefix("") + "mirror" + "-" + "0" == "mirror-0";
    assert VdevName("", mirror) == Ok("mirror-0");
    assert VdevName("mirror-0", a) == Ok("mirror-0");
    assert VdevName("mirror-0", b) == Ok("mirror-0");
    assert VisitsFrom("mirror-0", a, 0) == Ok([]);
    assert VisitsFrom("mirror-0", b, 0) == Ok([]);
    assert VisitsFrom("mirror-0", mirror, 2) == Ok([]);
    var va := Visit("mirror-0", a);
    var vb := Visit("mirror-0", b);
    var vm := Visit("mirror-0", mirror);
    assert mirror.children.nodes[1] == b && mirror.children.nodes[0] == a;
    assert VisitsFrom("mirror-0", mirror, 1) == Ok([vb] + [] + []);
    assert [vb] + [] + [] == [vb];
    assert VisitsFrom("mirror-0", mirror, 0) == Ok([va] + [] + [vb]);
    assert [va] + [] + [vb] == [va, vb];
    assert VisitsFrom("", root, 1) == Ok([]);
    assert VisitsFrom("", root, 0) == Ok([vm] + [va, vb] + []);
    assert [Visit("root", root)] + ([vm] + [va, vb] + []) == [Visit("root", root), vm, va, vb];
  }

  /** One iteration of Collect's pool loop, written as the loop body. */
  method ReportPool(t: Tables, pool: string, rec: PoolRecord, depth: int, fullPath: bool) returns (r: Result<seq<Metric>>)
    requires t.Ready()
    ensures r == PoolReport(t, pool, rec, depth, fullPath)
  {
    if |rec.loadTimes| == 0 {
      return Err(MissingLoadTime);
    }
    var guid := NatToString(rec.guid);
    var out := [Const(PoolLoadTime, Gauge, rec.loadTimes[0], [pool, guid]),
                Const(PoolErrors, Gauge, rec.errorCount, [pool, guid]),
                Const(PoolChildren, Gauge, rec.vdevChildren, [pool, guid]),
                Const(PoolConfigTxg, Gauge, rec.txg, [pool])];
    var tree := rec.tree;
    if tree.children.Absent? {
      return Err(MissingChildren);
    }
    var vdevs := tree.children.nodes;
    var rootRep := ReportVdevStats(t, pool, "root", tree, fullPath);
    if rootRep.Err? {
      return Err(rootRep.fault);
    }
    out := out + rootRep.value;
    ghost var before := out;
    if depth > 0 {
      for j := 0 to |vdevs|
        invariant depth == 1 ==> Prepend(out, ShallowFrom(t, pool, fullPath, vdevs, j)) == Prepend(before, TopLevel(t, pool, fullPath, depth, tree))
        invariant depth > 1 ==> Prepend(out, DescendFrom(t, pool, fullPath, "", tree, j)) == Prepend(before, TopLevel(t, pool, fullPath, depth, tree))
      {
        var vdev := vdevs[j];
        var name := VdevName("", vdev);
        if name.Err? {
          return Err(name.fault);
        }
        var rep := ReportVdevStats(t, pool, name.value, vdev, fullPath);
        if rep.Err? {
          return Err(rep.fault);
        }
        var below: seq<Metric> := [];
        if depth > 1 {
          var d := DescendVdev(t, pool, fullPath, name.value, vdev);
          if d.Err? {
            return Err(d.fault);
          }
          below := d.value;
        }
        PrependTwice(out, rep.value + below, if depth == 1 then ShallowFrom(t, pool, fullPath, vdevs, j + 1) else DescendFrom(t, pool, fullPath, "", tree, j + 1));
        if depth == 1 {
          assert rep.value + below == rep.value;
        }
        out := out + (rep.value + below);
      }
      assert out + [] == out;
    } else {
      assert out + [] == out;
    }
    var scan: seq<Metric> := [];
    if tree.scanStats.Some? {
      scan := WalkScanStats(t.scanStats, tree.scanStats.value, pool);
    }
    r := Ok(out + scan);
  }

  /** Collect: lists the pools, then reports each in listing order. */
  method Collect(reg: Registry, listing: PoolListing, depth: int, fullPath: bool) returns (r: Result<seq<Metric>>)
    requires reg.Valid()
    ensures r == CollectReport(InitialTables(), listing, depth, fullPath)
  {
    var t := Tables(reg.vdevStats[..], reg.scanStats[..], reg.extStatsMap);
    assert t == InitialTables();
    if listing.ListFailed? {
      return Err(PoolListFailed);
    }
    var pools := listing.pools;
    var out: seq<Metric> := [];
    assert pools[0..] == pools;
    PrependNothing(PoolsReport(t, pools, depth, fullPath));
    for i := 0 to |pools|
      invariant Prepend(out, PoolsReport(t, pools[i..], depth, fullPath)) == PoolsReport(t, pools, depth, fullPath)
    {
      var (name, fetch) := pools[i];
      assert pools[i..][1..] == pools[i + 1..];
      if fetch.FetchFailed? {
        return Err(PoolStatsFailed(name));
      }
      var rep := ReportPool(t, name, fetch.record, depth, fullPath);
      if rep.Err? {
        return Err(rep.fault);
      }
      PrependTwice(out, rep.value, PoolsReport(t, pools[i + 1..], depth, fullPath));
      out := out + rep.value;
    }
    assert pools[|pools|..] == [];
    assert out + [] == out;
    r := Ok(out);
  }
}
