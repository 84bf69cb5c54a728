/** The nodes of a cluster with the indexes that ClusterDesc keeps next to the node list. */
module ClusterDescs {
  import opened Options
  import opened NodeDescs

  // ---------------------------------------------------------------- the indexes as functions

  function Count(names: seq<string>, s: string): nat {
    if names == [] then 0 else Count(names[..|names| - 1], s) + if names[|names| - 1] == s then 1 else 0
  }

  function Repeat(i: nat, n: nat): (r: seq<nat>)
    ensures |r| == n && forall k :: 0 <= k < n ==> r[k] == i
  {
    seq(n, _ => i)
  }

  /** The indices of the nodes with access to a file system, in ascending order; a node that lists the
      file system more than once is in it as often. */
  function NodesWith(nodes: seq<Node>, fs: string): seq<nat> {
    if nodes == [] then []
    else
      var last := |nodes| - 1;
      NodesWith(nodes[..last], fs) + Repeat(last, Count(nodes[last].fileSys, fs))
  }

  lemma {:induction false} CountIsMember(names: seq<string>, s: string)
    ensures Count(names, s) > 0 <==> s in names
  {
    if names != [] {
      CountIsMember(names[..|names| - 1], s);
      assert names == names[..|names| - 1] + [names[|names| - 1]];
    }
  }

  /** The index lists exactly the nodes that have the file system, in ascending order. */
  lemma {:induction false} NodesWithExact(nodes: seq<Node>, fs: string)
    ensures forall i :: i in NodesWith(nodes, fs) <==> 0 <= i < |nodes| && fs in nodes[i].fileSys
    ensures forall j, k :: 0 <= j < k < |NodesWith(nodes, fs)| ==> NodesWith(nodes, fs)[j] <= NodesWith(nodes, fs)[k]
  {
    if nodes != [] {
      var last := |nodes| - 1;
      var front, own := NodesWith(nodes[..last], fs), Repeat(last, Count(nodes[last].fileSys, fs));
      NodesWithExact(nodes[..last], fs);
      CountIsMember(nodes[last].fileSys, fs);
      assert last in own <==> fs in nodes[last].fileSys by {
        if |own| > 0 { assert own[0] == last; }
      }
      forall k | 0 <= k < |front| ensures front[k] < last {
        assert front[k] in front;
      }
    }
  }

  ghost predicate Strict(s: seq<nat>) { forall j, k :: 0 <= j < k < |s| ==> s[j] < s[k] }

  /** No node is listed twice exactly when no node lists the file system twice. */
  lemma {:induction false} NodesWithStrict(nodes: seq<Node>, fs: string)
    ensures Strict(NodesWith(nodes, fs)) <==> forall i :: 0 <= i < |nodes| ==> Count(nodes[i].fileSys, fs) <= 1
  {
    if nodes != [] {
      var last := |nodes| - 1;
      var front, own := NodesWith(nodes[..last], fs), Repeat(last, Count(nodes[last].fileSys, fs));
      NodesWithStrict(nodes[..last], fs);
      NodesWithExact(nodes[..last], fs);
      StrictSplit(front, own, last);
      assert forall i :: 0 <= i < last ==> nodes[..last][i] == nodes[i];
    }
  }

  lemma StrictSplit(front: seq<nat>, own: seq<nat>, last: nat)
    requires (forall i :: i in front ==> i < last) && forall k :: 0 <= k < |own| ==> own[k] == last
    ensures Strict(front + own) <==> Strict(front) && |own| <= 1
  {
    var s := front + own;
    if |own| > 1 { assert s[|front|] == s[|front| + 1]; }
    forall k | 0 <= k < |front| ensures s[k] == front[k] < last { assert front[k] in front; }
  }

  // ---------------------------------------------------------------- merging

  predicate Named(nodes: seq<Node>, name: string) { exists i :: 0 <= i < |nodes| && nodes[i].name == name }

  /** The node list after adding more nodes, leaving out those whose name is known. */
  function Merged(nodes: seq<Node>, more: seq<Node>): seq<Node>
    decreases |more|
  {
    if more == [] then nodes
    else Merged(if Named(nodes, more[0].name) then nodes else nodes + [more[0]], more[1..])
  }

  ghost predicate UniqueNames(nodes: seq<Node>) {
    forall i, j :: 0 <= i < j < |nodes| ==> nodes[i].name != nodes[j].name
  }

  /** Of every name the first node given is kept; nothing else is. */
  lemma {:induction false} MergedKeepsFirst(nodes: seq<Node>, more: seq<Node>)
    requires UniqueNames(nodes)
    ensures UniqueNames(Merged(nodes, more)) && nodes <= Merged(nodes, more)
    ensures forall name :: Named(Merged(nodes, more), name) <==> Named(nodes, name) || Named(more, name)
    ensures forall n :: n in Merged(nodes, more) ==> n in nodes || n in more
    decreases |more|
  {
    if more != [] {
      var next := if Named(nodes, more[0].name) then nodes else nodes + [more[0]];
      MergedKeepsFirst(next, more[1..]);
      assert more == [more[0]] + more[1..];
      forall name ensures Named(next, name) || Named(more[1..], name) <==> Named(nodes, name) || Named(more, name) {
        NamedParts(nodes, more, next, name);
      }
    }
  }

  lemma NamedParts(nodes: seq<Node>, more: seq<Node>, next: seq<Node>, name: string)
    requires more != [] && next == if Named(nodes, more[0].name) then nodes else nodes + [more[0]]
    ensures Named(next, name) || Named(more[1..], name) <==> Named(nodes, name) || Named(more, name)
  {
    NamedCons(more, name);
    if next != nodes { NamedAppend(nodes, more[0], name); }
  }

  lemma NamedCons(more: seq<Node>, name: string)
    requires more != []
    ensures Named(more, name) <==> more[0].name == name || Named(more[1..], name)
  {
    if i :| 0 <= i < |more[1..]| && more[1..][i].name == name { assert more[i + 1].name == name; }
    if i :| 1 <= i < |more| && more[i].name == name { assert more[1..][i - 1].name == name; }
  }

  lemma NamedAppend(nodes: seq<Node>, n: Node, name: string)
    ensures Named(nodes + [n], name) <==> Named(nodes, name) || n.name == name
  {
    var s := nodes + [n];
    if i :| 0 <= i < |nodes| && nodes[i].name == name { assert s[i].name == name; }
    assert s[|nodes|] == n;
  }

  /** Node i is the first one of its name, and no known node has the name. */
  predicate IsNew(nodes: seq<Node>, more: seq<Node>, i: int) {
    0 <= i < |more| && !Named(nodes, more[i].name) && !Named(more[..i], more[i].name)
  }

  /** The positions of the new nodes, in ascending order. */
  ghost predicate AreNew(nodes: seq<Node>, more: seq<Node>, at: seq<int>) {
    && (forall q :: 0 <= q < |at| ==> IsNew(nodes, more, at[q]))
    && (forall q, r :: 0 <= q < r < |at| ==> at[q] < at[r])
    && forall i :: IsNew(nodes, more, i) ==> i in at
  }

  lemma {:induction false} MergedSnoc(nodes: seq<Node>, more: seq<Node>)
    requires more != []
    ensures var before, n := Merged(nodes, more[..|more| - 1]), more[|more| - 1];
      Merged(nodes, more) == if Named(before, n.name) then before else before + [n]
    decreases |more|
  {
    if |more| > 1 {
      MergedSnoc(if Named(nodes, more[0].name) then nodes else nodes + [more[0]], more[1..]);
      assert more[1..][..|more| - 2] == more[..|more| - 1][1..];
    } else {
      assert more == [more[0]] && more[1..] == [] == more[..0];
    }
  }

  lemma {:induction false} MergedNames(nodes: seq<Node>, more: seq<Node>, name: string)
    ensures Named(Merged(nodes, more), name) <==> Named(nodes, name) || Named(more, name)
    decreases |more|
  {
    if more != [] {
      var next := if Named(nodes, more[0].name) then nodes else nodes + [more[0]];
      MergedNames(next, more[1..], name);
      NamedParts(nodes, more, next, name);
    }
  }

  lemma NewSnoc(nodes: seq<Node>, more: seq<Node>, i: int)
    requires more != []
    ensures var last := |more| - 1;
      IsNew(nodes, more, i) <==> if i == last then !Named(Merged(nodes, more[..last]), more[last].name)
                                else IsNew(nodes, more[..last], i)
  {
    var last := |more| - 1;
    if i == last {
      MergedNames(nodes, more[..last], more[last].name);
    } else if 0 <= i < last {
      assert more[..last][..i] == more[..i];
    }
  }

  lemma AddLast(nodes: seq<Node>, more: seq<Node>, at: seq<int>)
    requires more != [] && AreNew(nodes, more[..|more| - 1], at)
    ensures var last := |more| - 1;
      AreNew(nodes, more, if Named(Merged(nodes, more[..last]), more[last].name) then at else at + [last])
  {
    var last := |more| - 1;
    forall i ensures IsNew(nodes, more, i) <==>
      if i == last then !Named(Merged(nodes, more[..last]), more[last].name) else IsNew(nodes, more[..last], i)
    {
      NewSnoc(nodes, more, i);
    }
    assert forall i :: IsNew(nodes, more[..last], i) ==> i < last;
    hide Merged, Named, IsNew;
  }

  /** The nodes added are the new ones, in the order in which they are given. */
  lemma {:induction false} MergedInOrder(nodes: seq<Node>, more: seq<Node>) returns (at: seq<int>)
    ensures AreNew(nodes, more, at)
    ensures |Merged(nodes, more)| == |nodes| + |at| && nodes <= Merged(nodes, more)
    ensures forall q :: 0 <= q < |at| ==> 0 <= at[q] < |more| && Merged(nodes, more)[|nodes| + q] == more[at[q]]
    decreases |more|
  {
    if more == [] {
      at := [];
    } else {
      var last := |more| - 1;
      at := MergedInOrder(nodes, more[..last]);
      MergedSnoc(nodes, more);
      AddLast(nodes, more, at);
      hide *;
      if !Named(Merged(nodes, more[..last]), more[last].name) { at := at + [last]; }
    }
  }

  /** Merging nodes whose names are all known changes nothing: the same subcluster can be given twice. */
  lemma {:induction false} MergedKnown(nodes: seq<Node>, more: seq<Node>)
    requires forall n :: n in more ==> Named(nodes, n.name)
    ensures Merged(nodes, more) == nodes
    decreases |more|
  {
    if more != [] {
      assert more[0] in more;
      MergedKnown(nodes, more[1..]);
    }
  }

  lemma MergeTwice(nodes: seq<Node>, more: seq<Node>)
    requires UniqueNames(nodes)
    ensures Merged(Merged(nodes, more), more) == Merged(nodes, more)
  {
    MergedKeepsFirst(nodes, more);
    forall n | n in more ensures Named(Merged(nodes, more), n.name) {
      var i :| 0 <= i < |more| && more[i] == n;
      assert Named(more, n.name);
    }
    MergedKnown(Merged(nodes, more), more);
  }

  /** The index of nodes and of one more node with the given file systems. */
  ghost predicate Indexed(m: map<string, seq<nat>>, nodes: seq<Node>, names: seq<string>) {
    forall fs :: IndexedAt(m, nodes, names, fs)
  }

  predicate IndexedAt(m: map<string, seq<nat>>, nodes: seq<Node>, names: seq<string>, fs: string) {
    var inx := NodesWith(nodes, fs) + Repeat(|nodes|, Count(names, fs));
    if fs in m then inx != [] && m[fs] == inx else inx == []
  }

  lemma CountAppend(names: seq<string>, name: string, fs: string)
    ensures Count(names + [name], fs) == Count(names, fs) + if fs == name then 1 else 0
  {
    assert (names + [name])[..|names|] == names;
  }

  lemma RepeatMore(before: seq<nat>, i: nat, n: nat)
    ensures before + Repeat(i, n + 1) == before + Repeat(i, n) + [i]
  {
  }

  lemma IndexName(m: map<string, seq<nat>>, nodes: seq<Node>, names: seq<string>, name: string)
    requires Indexed(m, nodes, names)
    ensures Indexed(m[name := (if name in m then m[name] else []) + [|nodes|]], nodes, names + [name])
  {
    hide NodesWith, Count, Repeat;
    var longer := m[name := (if name in m then m[name] else []) + [|nodes|]];
    assert IndexedAt(m, nodes, names, name);
    RepeatMore(NodesWith(nodes, name), |nodes|, Count(names, name));
    forall fs ensures IndexedAt(longer, nodes, names + [name], fs) {
      CountAppend(names, name, fs);
      assert IndexedAt(m, nodes, names, fs);
    }
  }

  /** The index agrees with a node list. */
  ghost predicate Agrees(m: map<string, seq<nat>>, nodes: seq<Node>) {
    && (forall fs :: fs in m <==> NodesWith(nodes, fs) != [])
    && (forall fs :: fs in m ==> m[fs] == NodesWith(nodes, fs))
  }

  lemma IndexBefore(m: map<string, seq<nat>>, nodes: seq<Node>)
    requires Agrees(m, nodes)
    ensures Indexed(m, nodes, [])
  {
    forall fs ensures IndexedAt(m, nodes, [], fs) {
      assert NodesWith(nodes, fs) + Repeat(|nodes|, 0) == NodesWith(nodes, fs);
    }
  }

  lemma IndexAfter(m: map<string, seq<nat>>, nodes: seq<Node>)
    requires nodes != [] && Indexed(m, nodes[..|nodes| - 1], nodes[|nodes| - 1].fileSys)
    ensures Agrees(m, nodes)
  {
    var last := |nodes| - 1;
    forall fs ensures if fs in m then m[fs] == NodesWith(nodes, fs) != [] else NodesWith(nodes, fs) == [] {
      assert IndexedAt(m, nodes[..last], nodes[last].fileSys, fs);
    }
  }

  class ClusterDesc {
    var itsNodes: seq<Node>
    var itsNodeMap: map<string, nat>
    var itsFS2Nodes: map<string, seq<nat>>

    /** Both indexes agree with the node list. */
    ghost predicate Valid()
      reads this
    {
      && (forall i :: 0 <= i < |itsNodes| ==> itsNodes[i].name in itsNodeMap && itsNodeMap[itsNodes[i].name] == i)
      && (forall name :: name in itsNodeMap ==>
            itsNodeMap[name] < |itsNodes| && itsNodes[itsNodeMap[name]].name == name)
      && Agrees(itsFS2Nodes, itsNodes)
    }

    constructor ()
      ensures Valid() && itsNodes == []
    {
      itsNodes, itsNodeMap, itsFS2Nodes := [], map[], map[];
    }

    /** The result is false when the source throws: the name exists and may not. */
    method AddNode(node: Node, canExist: bool) returns (ok: bool)
      requires Valid()
      modifies this
      ensures Valid()
      ensures ok == (canExist || !Named(old(itsNodes), node.name))
      ensures itsNodes == if Named(old(itsNodes), node.name) then old(itsNodes) else old(itsNodes) + [node]
    {
      if node.name in itsNodeMap {
        assert itsNodes[itsNodeMap[node.name]].name == node.name;
        return canExist;
      }
      var inx := |itsNodes|;
      itsNodeMap := itsNodeMap[node.name := inx];
      itsNodes := itsNodes + [node];
      Add2Map(inx);
      return true;
    }

    method Add2Map(nodeIndex: nat)
      requires |itsNodes| == nodeIndex + 1
      requires Agrees(itsFS2Nodes, itsNodes[..nodeIndex])
      modifies this`itsFS2Nodes
      ensures Agrees(itsFS2Nodes, itsNodes)
    {
      hide NodesWith, Agrees, Indexed;
      ghost var before := itsNodes[..nodeIndex];
      var fileSys := itsNodes[nodeIndex].fileSys;
      IndexBefore(itsFS2Nodes, before);
      assert fileSys[..0] == [];
      for k := 0 to |fileSys|
        invariant Indexed(itsFS2Nodes, before, fileSys[..k])
      {
        IndexName(itsFS2Nodes, before, fileSys[..k], fileSys[k]);
        assert fileSys[..k + 1] == fileSys[..k] + [fileSys[k]];
        var vec := if fileSys[k] in itsFS2Nodes then itsFS2Nodes[fileSys[k]] else [];
        itsFS2Nodes := itsFS2Nodes[fileSys[k] := vec + [nodeIndex]];
      }
      assert fileSys[..|fileSys|] == fileSys;
      IndexAfter(itsFS2Nodes, itsNodes);
    }

    /** Adds the nodes of a subcluster; the same nodes can occur in several subclusters. */
    method Merge(nodes: seq<Node>)
      requires Valid()
      modifies this
      ensures Valid() && itsNodes == Merged(old(itsNodes), nodes)
    {
      for j := 0 to |nodes|
        invariant Valid() && Merged(itsNodes, nodes[j..]) == Merged(old(itsNodes), nodes)
      {
        assert nodes[j..][1..] == nodes[j + 1..];
        var ok := AddNode(nodes[j], true);
      }
    }

    /** None where the source throws. */
    method GetNode(nodeName: string) returns (node: Option<Node>)
      requires Valid()
      ensures node.Some? <==> Named(itsNodes, nodeName)
      ensures node.Some? ==> node.value in itsNodes && node.value.name == nodeName
    {
      if nodeName in itsNodeMap {
        return Some(itsNodes[itsNodeMap[nodeName]]);
      }
      return None;
    }
  }
}
