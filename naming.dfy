/** The `vdev` label: a name for each node of the device tree derived from its
    type, its position among its siblings and its parent's name. */
module Naming {
  import opened Types
  import opened Text

  /** Disks and files below a named parent take the parent's name and are
      told apart by their path label instead. */
  predicate InheritsParent(parent: string, node: Node)
  {
    (node.typ == "disk" || node.typ == "file") && parent != ""
  }

  /** The name prefix a non-inheriting node gets from its parent. */
  function Prefix(parent: string): string
  {
    if parent != "" then parent + "/" else ""
  }

  /** The part of a node's own name in front of "-<id>": the type, with the
      parity level fused in for raidz, and the draid geometry for draid.
      Fails for a draid node without children, whose count it needs. */
  function Stem(node: Node): Result<string>
  {
    if node.typ == "raidz" then Ok(node.typ + FmtD(node.nparity))
    else if node.typ == "draid" then
      if node.children.Absent? then Err(MissingChildren)
      else Ok(node.typ + FmtD(node.nparity) + ":" + FmtD(node.ndata) + "d:" +
              NatToString(|node.children.nodes|) + "c:" + FmtD(node.nspares) + "s")
    else Ok(node.typ)
  }

  /** The name of `node`, a child of the node named `parent` ("" for a child
      of the pool root). */
  function VdevName(parent: string, node: Node): Result<string>
  {
    if InheritsParent(parent, node) then Ok(parent)
    else
      var stem :- Stem(node);
      Ok(Prefix(parent) + stem + "-" + FmtD(node.id))
  }

  /** A disk or file under a named parent is reported under the parent's
      name, whatever its own id. */
  lemma LeafInherits(parent: string, node: Node)
    requires node.typ == "disk" || node.typ == "file"
    requires parent != ""
    ensures VdevName(parent, node) == Ok(parent)
  {
  }

  /** Naming fails exactly for a draid node without children. */
  lemma NameFailsIff(parent: string, node: Node)
    ensures VdevName(parent, node).Err? <==> node.typ == "draid" && node.children.Absent?
  {
  }

  /** Any other node is named below its parent, by type: a raidz vdev as
      "raidz<parity>-<id>", a draid vdev as
      "draid<parity>:<data>d:<children>c:<spares>s-<id>", and every other
      type (mirror, root, a top-level disk or file, anything unrecognised) as
      "<type>-<id>"; each behind "<parent>/" when the parent is named. */
  lemma {:induction false} NameShape(parent: string, node: Node)
    requires !InheritsParent(parent, node)
    requires VdevName(parent, node).Ok?
    ensures var r := VdevName(parent, node).value;
      var p := Prefix(parent);
      var id := FmtD(node.id);
      && (node.typ == "raidz" ==> r == p + "raidz" + FmtD(node.nparity) + "-" + id)
      && (node.typ == "draid" ==>
            && node.children.Present?
            && r == p + "draid" + FmtD(node.nparity) + ":" + FmtD(node.ndata) + "d:"
                  + NatToString(|node.children.nodes|) + "c:" + FmtD(node.nspares) + "s-" + id)
      && (node.typ != "raidz" && node.typ != "draid" ==> r == p + node.typ + "-" + id)
      && |r| > |p| + |id|
      && r[..|p|] == p
      && (parent != "" ==> r[..|parent| + 1] == parent + "/")
      && r[|r| - |id| - 1] == '-'
      && r[|r| - |id|..] == id
  {
    var r := VdevName(parent, node).value;
    NameSlices(Prefix(parent), Stem(node).value, FmtD(node.id), r);
    if node.typ == "raidz" {
      RaidzName(parent, node);
    } else if node.typ == "draid" {
      DraidName(parent, node);
    } else {
      PlainName(parent, node);
    }
  }

  /** The raidz format: the parity level fused into the type. */
  lemma RaidzName(parent: string, node: Node)
    requires node.typ == "raidz"
    ensures VdevName(parent, node) == Ok(Prefix(parent) + "raidz" + FmtD(node.nparity) + "-" + FmtD(node.id))
  {
    assert !InheritsParent(parent, node);
    assert Stem(node) == Ok("raidz" + FmtD(node.nparity));
    assert Prefix(parent) + ("raidz" + FmtD(node.nparity)) == Prefix(parent) + "raidz" + FmtD(node.nparity);
  }

  /** The draid format: parity, data disks, children and spares. */
  lemma DraidName(parent: string, node: Node)
    requires node.typ == "draid" && node.children.Present?
    ensures VdevName(parent, node) == Ok(Prefix(parent) + "draid" + FmtD(node.nparity) + ":" + FmtD(node.ndata) + "d:"
                  + NatToString(|node.children.nodes|) + "c:" + FmtD(node.nspares) + "s-" + FmtD(node.id))
  {
    var p := Prefix(parent);
    var id := FmtD(node.id);
    var d := "draid" + FmtD(node.nparity) + ":" + FmtD(node.ndata) + "d:"
             + NatToString(|node.children.nodes|) + "c:" + FmtD(node.nspares);
    assert !InheritsParent(parent, node);
    assert Stem(node) == Ok(d + "s");
    assert p + (d + "s") == p + d + "s";
    assert p + d + "s" + "-" == p + d + "s-";
    assert p + d + "s" + "-" + id == p + d + "s-" + id;
    assert p + d == p + "draid" + FmtD(node.nparity) + ":" + FmtD(node.ndata) + "d:"
                  + NatToString(|node.children.nodes|) + "c:" + FmtD(node.nspares);
  }

  /** The format of every other type that does not inherit its name. */
  lemma PlainName(parent: string, node: Node)
    requires node.typ != "raidz" && node.typ != "draid" && !InheritsParent(parent, node)
    ensures VdevName(parent, node) == Ok(Prefix(parent) + node.typ + "-" + FmtD(node.id))
  {
  }

  /** A name put together from prefix, stem, "-" and id starts with the
      prefix and ends with "-" and the id. */
  lemma NameSlices(p: string, stem: string, id: string, r: string)
    requires r == p + stem + "-" + id
    ensures |r| > |p| + |id|
    ensures r[..|p|] == p
    ensures r[|r| - |id| - 1] == '-'
    ensures r[|r| - |id|..] == id
  {
    assert r == p + (stem + ("-" + id));
    assert r == (p + stem + "-") + id;
  }

  /** raidz names fuse the parity level into the type: "raidz<parity>-<id>". */
  lemma RaidzExample()
    ensures VdevName("", Node("raidz", Some(3), None, Present([]), Some(2), None, None, [], [], None)) == Ok("raidz2-3")
  {
    var n := Node("raidz", Some(3), None, Present([]), Some(2), None, None, [], [], None);
    assert FmtD(n.nparity) == "2" && FmtD(n.id) == "3";
    assert Stem(n) == Ok(n.typ + FmtD(n.nparity));
    assert n.typ + FmtD(n.nparity) == "raidz" + "2" == "raidz2";
    assert Prefix("") + "raidz2" + "-" + "3" == "raidz2-3";
  }

  /** draid names spell out parity, data disks, children and spares. */
  lemma DraidExample(kids: seq<Node>)
    requires |kids| == 10
    ensures VdevName("", Node("draid", Some(0), None, Present(kids), Some(1), Some(8), Some(2), [], [], None))
         == Ok("draid1:8d:10c:2s-0")
  {
    var n := Node("draid", Some(0), None, Present(kids), Some(1), Some(8), Some(2), [], [], None);
    assert NatToString(10) == "10" by {
      assert NatToString(1) == "1";
      assert NatToString(0) == "0";
    }
    assert FmtD(n.nparity) == "1" && FmtD(n.ndata) == "8" && FmtD(n.nspares) == "2" && FmtD(n.id) == "0";
    assert Stem(n) == Ok(n.typ + FmtD(n.nparity) + ":" + FmtD(n.ndata) + "d:" +
      NatToString(|kids|) + "c:" + FmtD(n.nspares) + "s");
    assert n.typ + FmtD(n.nparity) + ":" + FmtD(n.ndata) + "d:" + NatToString(|kids|) + "c:" + FmtD(n.nspares) + "s"
      == "draid" + "1" + ":" + "8" + "d:" + "10" + "c:" + "2" + "s" == "draid1:8d:10c:2s";
    assert Prefix("") + "draid1:8d:10c:2s" + "-" + "0" == "draid1:8d:10c:2s-0";
  }

  /** Two strings that both end in "-" followed by a run of digits end in the
      same run. */
  lemma {:induction false} SameDigitSuffix(r: string, a: string, b: string)
    requires 0 < |a| < |r| && 0 < |b| < |r|
    requires r[|r| - |a| - 1] == '-' && r[|r| - |a|..] == a
    requires r[|r| - |b| - 1] == '-' && r[|r| - |b|..] == b
    requires forall k :: 0 <= k < |a| ==> IsDigit(a[k])
    requires forall k :: 0 <= k < |b| ==> IsDigit(b[k])
    ensures a == b
  {
  }

  /** Two nodes named under the same parent that do not inherit its name get
      different names when their ids differ, whatever their types: the
      source relies on type and id to keep vdev names unique. */
  lemma {:induction false} DistinctIdsDistinctNames(parent: string, a: Node, b: Node)
    requires !InheritsParent(parent, a) && !InheritsParent(parent, b)
    requires a.id.Some? && b.id.Some? && a.id.value != b.id.value
    requires VdevName(parent, a).Ok? && VdevName(parent, b).Ok?
    ensures VdevName(parent, a).value != VdevName(parent, b).value
  {
    NameShape(parent, a);
    NameShape(parent, b);
    var r := VdevName(parent, a).value;
    if r == VdevName(parent, b).value {
      SameDigitSuffix(r, NatToString(a.id.value), NatToString(b.id.value));
      NatToStringInjective(a.id.value, b.id.value);
    }
  }
}
