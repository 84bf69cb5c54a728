/** The workers on the nodes of a cluster and the search for the one with the lowest load. */
module WorkersDescs {
  import opened NodeDescs
  import opened ClusterDescs

  const TOO_BUSY := 1000000

  // ---------------------------------------------------------------- the first lowest of a list

  function LoadOf(load: seq<int>, w: int): int {
    if 0 <= w < |load| then load[w] else TOO_BUSY
  }

  /** The first worker of the list with the lowest load, -1 if none has a load below TOO_BUSY. */
  function Lowest(load: seq<int>, cands: seq<nat>): int {
    if cands == [] then -1
    else
      var best, w := Lowest(load, cands[..|cands| - 1]), cands[|cands| - 1];
      if LoadOf(load, w) < LoadOf(load, best) then w else best
  }

  predicate Known(load: seq<int>, cands: seq<nat>) { forall w :: w in cands ==> w < |load| }

  /** Worker r is on position k: no load in the list is lower, and none before it as low. */
  predicate FirstMinimum(load: seq<int>, cands: seq<nat>, r: int, k: nat) {
    && k < |cands| && cands[k] == r && LoadOf(load, r) < TOO_BUSY
    && (forall j :: 0 <= j < |cands| ==> LoadOf(load, r) <= LoadOf(load, cands[j]))
    && (forall j :: 0 <= j < k ==> LoadOf(load, r) < LoadOf(load, cands[j]))
  }

  predicate AllBusy(load: seq<int>, cands: seq<nat>) {
    forall j :: 0 <= j < |cands| ==> LoadOf(load, cands[j]) >= TOO_BUSY
  }

  lemma {:induction false} LowestIsFirstMinimum(load: seq<int>, cands: seq<nat>)
    ensures var r := Lowest(load, cands);
      if r == -1 then AllBusy(load, cands) else exists k :: FirstMinimum(load, cands, r, k)
  {
    if cands != [] {
      var front, w := cands[..|cands| - 1], cands[|cands| - 1];
      LowestIsFirstMinimum(load, front);
      var best := Lowest(load, front);
      if LoadOf(load, w) < LoadOf(load, best) {
        assert FirstMinimum(load, cands, w, |front|);
      } else if best != -1 {
        var k :| FirstMinimum(load, front, best, k);
        assert FirstMinimum(load, cands, best, k);
      }
    }
  }

  /** The search result is -1 exactly if every candidate has a load of TOO_BUSY or more. */
  lemma {:induction false} LowestNone(load: seq<int>, cands: seq<nat>)
    ensures Lowest(load, cands) == -1 <==> forall w :: w in cands && w < |load| ==> load[w] >= 1000000
  {
    assert AllBusy(load, cands) <==> forall w :: w in cands && w < |load| ==> load[w] >= 1000000;
    LowestIsFirstMinimum(load, cands);
  }

  lemma {:induction false} LowestConcat(load: seq<int>, a: seq<nat>, b: seq<nat>, more: seq<nat>)
    requires Lowest(load, a) == Lowest(load, b)
    ensures Lowest(load, a + more) == Lowest(load, b + more)
  {
    if more == [] {
      assert a + more == a && b + more == b;
    } else {
      var front := more[..|more| - 1];
      assert (a + more)[..|a + more| - 1] == a + front;
      assert (b + more)[..|b + more| - 1] == b + front;
      LowestConcat(load, a, b, front);
    }
  }

  /** Workers that are not better than the one found so far do not matter. */
  lemma {:induction false} LowestStays(load: seq<int>, a: seq<nat>, more: seq<nat>)
    requires forall w :: w in more ==> LoadOf(load, w) >= LoadOf(load, Lowest(load, a))
    ensures Lowest(load, a + more) == Lowest(load, a)
  {
    if more == [] {
      assert a + more == a;
    } else {
      var front := more[..|more| - 1];
      assert (a + more)[..|a + more| - 1] == a + front;
      assert more[|more| - 1] in more;
      assert forall w :: w in front ==> w in more;
      LowestStays(load, a, front);
    }
  }

  lemma LowestBounds(load: seq<int>, a: seq<nat>, w: nat)
    requires w in a
    ensures LoadOf(load, Lowest(load, a)) <= LoadOf(load, w)
  {
    LowestIsFirstMinimum(load, a);
    var k :| 0 <= k < |a| && a[k] == w;
  }

  /** Looking at the same workers again changes nothing. */
  lemma LowestAgain(load: seq<int>, a: seq<nat>, b: seq<nat>)
    requires forall w :: w in b ==> w in a
    ensures Lowest(load, a + b) == Lowest(load, a)
  {
    forall w | w in b ensures LoadOf(load, w) >= LoadOf(load, Lowest(load, a)) {
      LowestBounds(load, a, w);
    }
    LowestStays(load, a, b);
  }

  // ---------------------------------------------------------------- the order of a std::map

  predicate Less(a: string, b: string) {
    if b == "" then false
    else if a == "" then true
    else a[0] < b[0] || (a[0] == b[0] && Less(a[1..], b[1..]))
  }

  lemma {:induction false} LessTotal(a: string, b: string)
    ensures a == b || Less(a, b) || Less(b, a)
    ensures !(Less(a, b) && (a == b || Less(b, a)))
  {
    if a != "" && b != "" {
      LessTotal(a[1..], b[1..]);
      assert a == [a[0]] + a[1..] && b == [b[0]] + b[1..];
    }
  }

  lemma {:induction false} LessTransitive(a: string, b: string, c: string)
    requires Less(a, b) && Less(b, c)
    ensures Less(a, c)
  {
    if a != "" && a[0] == b[0] == c[0] {
      LessTransitive(a[1..], b[1..], c[1..]);
    }
  }

  /** The names agree up to k, and there a ends or has the smaller character. */
  predicate SmallerFrom(a: string, b: string, k: nat) {
    k <= |a| && k < |b| && a[..k] == b[..k] && (k == |a| || a[k] < b[k])
  }

  lemma SmallerTail(a: string, b: string, k: nat)
    requires a != "" && b != ""
    ensures SmallerFrom(a, b, k + 1) <==> a[0] == b[0] && SmallerFrom(a[1..], b[1..], k)
  {
    if k < |a| && k + 1 < |b| {
      assert a[..k + 1] == [a[0]] + a[1..][..k] && b[..k + 1] == [b[0]] + b[1..][..k];
    }
  }

  /** The order is that of the first characters in which two names differ, a name coming before its
      continuations. */
  lemma {:induction false} LessIsLexicographic(a: string, b: string)
    ensures Less(a, b) <==> exists k :: SmallerFrom(a, b, k)
  {
    assert b != "" ==> (SmallerFrom(a, b, 0) <==> a == "" || a[0] < b[0]);
    if a != "" && b != "" {
      LessIsLexicographic(a[1..], b[1..]);
      if k: nat :| SmallerFrom(a[1..], b[1..], k) { SmallerTail(a, b, k); }
      if k: nat :| SmallerFrom(a, b, k) && k > 0 { SmallerTail(a, b, k - 1); }
    }
  }

  predicate IsFirst(keys: set<string>, k: string) { k in keys && forall l :: l in keys ==> l == k || Less(k, l) }

  lemma {:induction false} FirstExists(keys: set<string>) returns (k: string)
    requires keys != {}
    ensures IsFirst(keys, k)
    decreases |keys|
  {
    k :| k in keys;
    var rest := keys - {k};
    if rest == {} {
      assert keys == {k};
    } else {
      var m := FirstExists(rest);
      LessTotal(k, m);
      if Less(m, k) {
        k := m;
      } else {
        forall l | l in keys && l != k ensures Less(k, l) {
          if l != m { LessTransitive(k, m, l); }
        }
      }
    }
  }

  lemma FirstUnique(keys: set<string>, k: string, l: string)
    requires IsFirst(keys, k) && IsFirst(keys, l)
    ensures k == l
  {
    LessTotal(k, l);
  }

  /** The keys in iteration order. */
  ghost function InOrder(keys: set<string>): (r: seq<string>)
    ensures forall k :: k in r <==> k in keys
    decreases |keys|
  {
    if keys == {} then [] else
      assert exists k :: IsFirst(keys, k) by { var k := FirstExists(keys); }
      var k :| IsFirst(keys, k);
      [k] + InOrder(keys - {k})
  }

  /** Every name comes once, after those that are less. */
  lemma {:induction false} InOrderAscends(keys: set<string>, i: nat, j: nat)
    requires i < j < |InOrder(keys)|
    ensures Less(InOrder(keys)[i], InOrder(keys)[j])
    decreases |keys|
  {
    var k := InOrder(keys)[0];
    assert exists l :: IsFirst(keys, l) by { var l := FirstExists(keys); }
    assert IsFirst(keys, k) && InOrder(keys) == [k] + InOrder(keys - {k}) by { InOrderFirst(keys); }
    if i > 0 {
      InOrderAscends(keys - {k}, i - 1, j - 1);
    } else {
      assert InOrder(keys)[j] in InOrder(keys - {k});
    }
  }

  lemma InOrderFirst(keys: set<string>)
    requires keys != {}
    ensures InOrder(keys) != [] && IsFirst(keys, InOrder(keys)[0])
    ensures InOrder(keys) == [InOrder(keys)[0]] + InOrder(keys - {InOrder(keys)[0]})
  {
    var k := FirstExists(keys);
    NextInOrder(keys, k);
  }

  // ---------------------------------------------------------------- eligible workers

  type NodeMap = map<string, seq<nat>>

  function WorkersOn(m: NodeMap, name: string): seq<nat> { if name in m then m[name] else [] }

  predicate TypeFits(ntype: NodeType, asked: NodeType) { ntype == asked || ntype == Any || asked == Any }

  /** The workers on the nodes that have the file system, going through all nodes of the cluster. */
  function OnFileSys(nodes: seq<Node>, m: NodeMap, fs: string, asked: NodeType): seq<nat> {
    if nodes == [] then []
    else
      var last := nodes[|nodes| - 1];
      OnFileSys(nodes[..|nodes| - 1], m, fs, asked)
      + if fs in last.fileSys && TypeFits(last.ntype, asked) then WorkersOn(m, last.name) else []
  }

  predicate Within(inx: seq<nat>, n: nat) { forall k :: 0 <= k < |inx| ==> inx[k] < n }

  /** The same, going through a list of node indices. */
  function OnIndexed(nodes: seq<Node>, inx: seq<nat>, m: NodeMap, asked: NodeType): seq<nat>
    requires Within(inx, |nodes|)
  {
    if inx == [] then []
    else
      var last := inx[|inx| - 1];
      OnIndexed(nodes, inx[..|inx| - 1], m, asked)
      + if TypeFits(nodes[last].ntype, asked) then WorkersOn(m, nodes[last].name) else []
  }

  /** A node name that is not in the cluster description is taken to fit. */
  predicate NameFits(nodes: seq<Node>, name: string, asked: NodeType) {
    asked == Any ||
    forall i :: 0 <= i < |nodes| && nodes[i].name == name && !Named(nodes[..i], name) ==>
      TypeFits(nodes[i].ntype, asked)
  }

  function Anywhere(nodes: seq<Node>, keys: seq<string>, m: NodeMap, asked: NodeType): seq<nat> {
    if keys == [] then []
    else
      var last := keys[|keys| - 1];
      Anywhere(nodes, keys[..|keys| - 1], m, asked) + if NameFits(nodes, last, asked) then WorkersOn(m, last) else []
  }

  /** All workers that may be used for work of the given type, in the order they are looked at. */
  ghost function Eligible(nodes: seq<Node>, byType: map<int, NodeMap>, workType: int, fs: string, asked: NodeType)
    : seq<nat>
  {
    if workType !in byType then []
    else if fs == "" then Anywhere(nodes, InOrder(byType[workType].Keys), byType[workType], asked)
    else OnFileSys(nodes, byType[workType], fs, asked)
  }

  /** A worker is eligible for a file system exactly if it is registered on a node that has it, and that is of
      type Any or of the type asked for, or any type is asked for. */
  lemma {:induction false} OnFileSysIff(nodes: seq<Node>, m: NodeMap, fs: string, asked: NodeType, w: nat)
    ensures w in OnFileSys(nodes, m, fs, asked) <==>
      exists i :: 0 <= i < |nodes| && fs in nodes[i].fileSys && nodes[i].name in m && w in m[nodes[i].name] &&
        (nodes[i].ntype == Any || nodes[i].ntype == asked || asked == Any)
  {
    if nodes != [] {
      var n := |nodes| - 1;
      OnFileSysIff(nodes[..n], m, fs, asked, w);
      assert forall i :: 0 <= i < n ==> nodes[..n][i] == nodes[i];
    }
  }

  /** With the same file system everywhere, the workers of one node come before those of the next. */
  lemma {:induction false} OnFileSysConcat(a: seq<Node>, b: seq<Node>, m: NodeMap, fs: string, asked: NodeType)
    ensures OnFileSys(a + b, m, fs, asked) == OnFileSys(a, m, fs, asked) + OnFileSys(b, m, fs, asked)
  {
    if b == [] {
      assert a + b == a;
    } else {
      assert (a + b)[..|a + b| - 1] == a + b[..|b| - 1];
      OnFileSysConcat(a, b[..|b| - 1], m, fs, asked);
    }
  }

  /** Without a file system it is enough to be registered on a node: one of type Any or of the type asked for, or
      not in the cluster description, unless any type is asked for. */
  lemma {:induction false} AnywhereIff(nodes: seq<Node>, keys: seq<string>, m: NodeMap, asked: NodeType, w: nat)
    requires UniqueNames(nodes)
    ensures w in Anywhere(nodes, keys, m, asked) <==>
      exists name :: name in keys && name in m && w in m[name] &&
        (asked == Any || forall n :: n in nodes && n.name == name ==> n.ntype == Any || n.ntype == asked)
  {
    if keys != [] {
      var last := keys[|keys| - 1];
      AnywhereIff(nodes, keys[..|keys| - 1], m, asked, w);
      NameFitsIff(nodes, last, asked);
      assert keys == keys[..|keys| - 1] + [last];
    }
  }

  lemma NameFitsIff(nodes: seq<Node>, name: string, asked: NodeType)
    requires UniqueNames(nodes)
    ensures NameFits(nodes, name, asked) <==>
      asked == Any || forall n :: n in nodes && n.name == name ==> n.ntype == Any || n.ntype == asked
  {
    forall i | 0 <= i < |nodes| && nodes[i].name == name ensures !Named(nodes[..i], name) && nodes[i] in nodes {
    }
  }

  /** The workers that may do work of a type, in terms of where they are registered. */
  lemma EligibleIff(nodes: seq<Node>, byType: map<int, NodeMap>, workType: int, fs: string, asked: NodeType, w: nat)
    requires UniqueNames(nodes)
    ensures w in Eligible(nodes, byType, workType, fs, asked) <==>
      workType in byType &&
      if fs == "" then
        exists name :: name in byType[workType] && w in byType[workType][name] &&
          (asked == Any || forall n :: n in nodes && n.name == name ==> n.ntype == Any || n.ntype == asked)
      else
        exists n :: n in nodes && fs in n.fileSys && n.name in byType[workType] && w in byType[workType][n.name] &&
          (n.ntype == Any || n.ntype == asked || asked == Any)
  {
    if workType in byType {
      AnywhereIff(nodes, InOrder(byType[workType].Keys), byType[workType], asked, w);
      OnFileSysIff(nodes, byType[workType], fs, asked, w);
    }
  }

  /** A worker on a node of type Any is found, or another one with a load that is not higher, whatever type is
      asked for. */
  lemma AnyTypeFound(load: seq<int>, nodes: seq<Node>, byType: map<int, NodeMap>, workType: int, fs: string,
                     asked: NodeType, i: nat, w: nat)
    requires i < |nodes| && nodes[i].ntype == Any && fs in nodes[i].fileSys && fs != ""
    requires workType in byType && nodes[i].name in byType[workType] && w in byType[workType][nodes[i].name]
    requires w < |load| && load[w] < 1000000
    ensures var r := Lowest(load, Eligible(nodes, byType, workType, fs, asked));
      0 <= r < |load| && load[r] <= load[w] && r in Eligible(nodes, byType, workType, fs, asked)
  {
    var cands := Eligible(nodes, byType, workType, fs, asked);
    OnFileSysIff(nodes, byType[workType], fs, asked, w);
    assert w in cands;
    var j :| 0 <= j < |cands| && cands[j] == w;
    LowestIsFirstMinimum(load, cands);
  }

  lemma OnIndexedLast(nodes: seq<Node>, inx: seq<nat>, last: nat, m: NodeMap, asked: NodeType)
    requires Within(inx, |nodes|) && last < |nodes|
    ensures Within(inx + [last], |nodes|)
    ensures OnIndexed(nodes, inx + [last], m, asked)
         == OnIndexed(nodes, inx, m, asked) + OnNode(nodes[last], m, asked)
  {
    assert (inx + [last])[..|inx|] == inx;
  }

  lemma {:induction false} OnIndexedConcat(nodes: seq<Node>, a: seq<nat>, b: seq<nat>, m: NodeMap, asked: NodeType)
    requires Within(a, |nodes|) && Within(b, |nodes|)
    ensures Within(a + b, |nodes|)
    ensures OnIndexed(nodes, a + b, m, asked) == OnIndexed(nodes, a, m, asked) + OnIndexed(nodes, b, m, asked)
  {
    assert OnIndexed(nodes, [], m, asked) == [];
    hide OnIndexed, OnNode;
    if b == [] {
      assert a + b == a;
    } else {
      var front, last := b[..|b| - 1], b[|b| - 1];
      assert front + [last] == b && a + b == a + front + [last];
      OnIndexedConcat(nodes, a, front, m, asked);
      OnIndexedLast(nodes, a + front, last, m, asked);
      OnIndexedLast(nodes, front, last, m, asked);
      Regroup(OnIndexed(nodes, a, m, asked), OnIndexed(nodes, front, m, asked), OnNode(nodes[last], m, asked));
    }
  }

  lemma Regroup(a: seq<nat>, b: seq<nat>, c: seq<nat>)
    ensures (a + b) + c == a + (b + c)
  {
  }

  lemma {:induction false} OnIndexedPrefix(nodes: seq<Node>, n: nat, inx: seq<nat>, m: NodeMap, asked: NodeType)
    requires n <= |nodes| && Within(inx, n)
    ensures OnIndexed(nodes, inx, m, asked) == OnIndexed(nodes[..n], inx, m, asked)
  {
    if inx != [] {
      var front, last := inx[..|inx| - 1], inx[|inx| - 1];
      OnIndexedPrefix(nodes, n, front, m, asked);
    }
  }

  /** The workers of one node of the list. */
  function OnNode(node: Node, m: NodeMap, asked: NodeType): seq<nat> {
    if TypeFits(node.ntype, asked) then WorkersOn(m, node.name) else []
  }

  lemma OnIndexedStep(nodes: seq<Node>, inx: seq<nat>, i: nat, m: NodeMap, asked: NodeType)
    requires i < |nodes| && Within(inx, |nodes|)
    ensures OnIndexed(nodes, inx + [i], m, asked) == OnIndexed(nodes, inx, m, asked) + OnNode(nodes[i], m, asked)
  {
    assert (inx + [i])[..|inx|] == inx;
  }

  /** Only the first of several occurrences of a node matters. */
  lemma {:induction false} LowestRepeat(load: seq<int>, nodes: seq<Node>, i: nat, n: nat, m: NodeMap,
                                        asked: NodeType, before: seq<nat>)
    requires i < |nodes| && n > 0
    ensures Lowest(load, before + OnIndexed(nodes, Repeat(i, n), m, asked))
         == Lowest(load, before + OnNode(nodes[i], m, asked))
  {
    hide Lowest, OnIndexed, OnNode;
    var own, once := OnNode(nodes[i], m, asked), OnIndexed(nodes, Repeat(i, n - 1), m, asked);
    assert Repeat(i, n) == Repeat(i, n - 1) + [i];
    OnIndexedStep(nodes, Repeat(i, n - 1), i, m, asked);
    if n > 1 {
      LowestRepeat(load, nodes, i, n - 1, m, asked, before);
      LowestConcat(load, before + once, before + own, own);
      assert before + (once + own) == before + once + own;
      LowestAgain(load, before + own, own);
    } else {
      OnIndexedEmpty(nodes, m, asked);
      assert once + own == own;
    }
  }

  lemma OnIndexedEmpty(nodes: seq<Node>, m: NodeMap, asked: NodeType)
    ensures OnIndexed(nodes, Repeat(0, 0), m, asked) == []
  {
  }

  /** Searching through the index of a file system finds the same worker as going through all nodes. */
  lemma {:induction false} IndexFindsSame(load: seq<int>, nodes: seq<Node>, m: NodeMap, fs: string, asked: NodeType)
    ensures Within(NodesWith(nodes, fs), |nodes|)
    ensures Lowest(load, OnIndexed(nodes, NodesWith(nodes, fs), m, asked))
         == Lowest(load, OnFileSys(nodes, m, fs, asked))
  {
    NodesWithExact(nodes, fs);
    if nodes != [] {
      var n := |nodes| - 1;
      IndexFindsSame(load, nodes[..n], m, fs, asked);
      IndexLast(load, nodes, m, fs, asked);
    }
  }

  lemma IndexLast(load: seq<int>, nodes: seq<Node>, m: NodeMap, fs: string, asked: NodeType)
    requires nodes != [] && Within(NodesWith(nodes, fs), |nodes|)
    requires var front := nodes[..|nodes| - 1];
      && Within(NodesWith(front, fs), |front|)
      && Lowest(load, OnIndexed(front, NodesWith(front, fs), m, asked)) == Lowest(load, OnFileSys(front, m, fs, asked))
    ensures Lowest(load, OnIndexed(nodes, NodesWith(nodes, fs), m, asked))
         == Lowest(load, OnFileSys(nodes, m, fs, asked))
  {
    hide Lowest, OnIndexed, TypeFits, Count;
    var n := |nodes| - 1;
    var front, count := NodesWith(nodes[..n], fs), Count(nodes[n].fileSys, fs);
    OnIndexedPrefix(nodes, n, front, m, asked);
    OnIndexedConcat(nodes, front, Repeat(n, count), m, asked);
    CountIsMember(nodes[n].fileSys, fs);
    var a, b := OnIndexed(nodes, front, m, asked), OnFileSys(nodes[..n], m, fs, asked);
    if count > 0 {
      LowestRepeat(load, nodes, n, count, m, asked, a);
      LowestConcat(load, a, b, OnNode(nodes[n], m, asked));
    } else {
      assert Repeat(n, count) == Repeat(0, 0);
      OnIndexedEmpty(nodes, m, asked);
      assert a + [] == a && b + [] == b;
    }
  }

  class WorkersDesc {
    const itsClusterDesc: ClusterDesc
    var itsMap: map<int, NodeMap>
    var itsLoad: seq<int>

    ghost predicate Valid()
      reads this, itsClusterDesc
    {
      && itsClusterDesc.Valid()
      && (forall w :: 0 <= w < |itsLoad| ==> itsLoad[w] >= 0)
      && AllKnown(itsLoad, itsMap)
    }

    constructor (cd: ClusterDesc)
      requires cd.Valid()
      ensures Valid() && itsClusterDesc == cd && itsMap == map[] && itsLoad == []
    {
      itsClusterDesc, itsMap, itsLoad := cd, map[], [];
    }

    /** Adds a worker; a worker that is known gets load 0 again. */
    method AddWorker(workerId: nat, nodeName: string, workTypes: seq<int>)
      requires Valid()
      modifies this
      ensures Valid()
      ensures |itsLoad| == if workerId < |old(itsLoad)| then |old(itsLoad)| else workerId + 1
      ensures forall w :: 0 <= w < |itsLoad| ==>
        itsLoad[w] == if w == workerId || w >= |old(itsLoad)| then 0 else old(itsLoad)[w]
      ensures itsMap == Registered(old(itsMap), workTypes, nodeName, workerId)
    {
      if workerId >= |itsLoad| {
        itsLoad := itsLoad + seq(workerId + 1 - |itsLoad|, _ => 0);
      }
      itsLoad := itsLoad[workerId := 0];
      ghost var loads := itsLoad;
      hide Registered, Register, WorkersOn, AllKnown, ClusterDesc.Valid;
      assert AllKnown(itsLoad, itsMap) by { MoreKnown(old(itsLoad), itsLoad, itsMap); }
      assert workTypes[..0] == [];
      RegisteredNone(itsMap, nodeName, workerId);
      for k := 0 to |workTypes|
        invariant itsMap == Registered(old(itsMap), workTypes[..k], nodeName, workerId)
        invariant itsLoad == loads && AllKnown(itsLoad, itsMap)
      {
        assert workTypes[..k + 1] == workTypes[..k] + [workTypes[k]];
        RegisteredStep(old(itsMap), workTypes[..k], workTypes[k], nodeName, workerId);
        RegisterKnown(itsLoad, itsMap, workTypes[k], nodeName, workerId);
        RegisterIs(itsMap, workTypes[k], nodeName, workerId);
        var mnw := if workTypes[k] in itsMap then itsMap[workTypes[k]] else map[];
        itsMap := itsMap[workTypes[k] := mnw[nodeName := WorkersOn(mnw, nodeName) + [workerId]]];
      }
      assert workTypes[..|workTypes|] == workTypes;
    }

    method IncrLoad(worker: nat) returns (load: int)
      requires Valid() && worker < |itsLoad|
      modifies this`itsLoad
      ensures Valid() && itsLoad == old(itsLoad)[worker := load] && load == old(itsLoad)[worker] + 1
    {
      load := itsLoad[worker] + 1;
      itsLoad := itsLoad[worker := load];
    }

    /** A load is only taken back after it was given. */
    method DecrLoad(worker: nat) returns (load: int)
      requires Valid() && worker < |itsLoad| && itsLoad[worker] > 0
      modifies this`itsLoad
      ensures Valid() && itsLoad == old(itsLoad)[worker := load] && load == old(itsLoad)[worker] - 1
    {
      load := itsLoad[worker] - 1;
      itsLoad := itsLoad[worker := load];
    }

    /** The first eligible worker with the lowest load. */
    method FindWorker(workType: int, fileSystem: string, asked: NodeType) returns (worker: int)
      requires Valid()
      ensures worker == Lowest(itsLoad, Eligible(itsClusterDesc.itsNodes, itsMap, workType, fileSystem, asked))
      ensures worker < |itsLoad|
    {
      if workType !in itsMap {
        return -1;
      }
      if fileSystem == "" {
        worker := FindLowestAnywhere(itsMap[workType], asked);
      } else {
        worker := FindLowestOn(itsMap[workType], fileSystem, asked);
      }
      LowestIsFirstMinimum(itsLoad, Eligible(itsClusterDesc.itsNodes, itsMap, workType, fileSystem, asked));
    }

    /** Goes on with the workers of one node, best and its load being the result so far. */
    method Scan(cands: seq<nat>, best: int, bestLoad: int, ghost seen: seq<nat>) returns (worker: int, load: int)
      requires Known(itsLoad, cands) && (forall w :: 0 <= w < |itsLoad| ==> itsLoad[w] >= 0)
      requires best == Lowest(itsLoad, seen) && bestLoad == LoadOf(itsLoad, best)
      ensures worker == Lowest(itsLoad, seen + cands) && load == LoadOf(itsLoad, worker)
    {
      hide Lowest;
      worker, load := best, bestLoad;
      assert seen + cands[..0] == seen;
      for k := 0 to |cands|
        invariant worker == Lowest(itsLoad, seen + cands[..k]) && load == LoadOf(itsLoad, worker)
      {
        LowestStep(itsLoad, seen, cands, k);
        assert cands[k] in cands;
        if itsLoad[cands[k]] < load {
          worker, load := cands[k], itsLoad[cands[k]];
          if load == 0 {
            StopAtZero(itsLoad, seen + cands[..k + 1], cands[k + 1..]);
            assert seen + cands == seen + cands[..k + 1] + cands[k + 1..];
            return;
          }
        }
      }
      assert cands[..|cands|] == cands;
    }

    method FindLowestAnywhere(workMap: NodeMap, asked: NodeType) returns (worker: int)
      requires Valid() && forall name :: name in workMap ==> Known(itsLoad, workMap[name])
      ensures worker == Lowest(itsLoad, Anywhere(itsClusterDesc.itsNodes, InOrder(workMap.Keys), workMap, asked))
    {
      hide Lowest, Anywhere, InOrder, NameFits, Less, LoadOf;
      worker := -1;
      var load := TOO_BUSY;
      ghost var nodes, all, done, cands := itsClusterDesc.itsNodes, InOrder(workMap.Keys), [], [];
      LowestEmpty(itsLoad);
      AnywhereEmpty(nodes, workMap, asked);
      var todo := workMap.Keys;
      while todo != {}
        invariant todo <= workMap.Keys && done + InOrder(todo) == all
        invariant cands == Anywhere(nodes, done, workMap, asked)
        invariant worker == Lowest(itsLoad, cands) && load == LoadOf(itsLoad, worker)
        decreases |todo|
      {
        ghost var first := FirstExists(todo);
        var name :| name in todo && forall l :: l in todo ==> l == name || Less(name, l);
        NextInOrder(todo, name);
        var use := UseNode(name, asked);
        AnywhereStep(nodes, done, name, InOrder(todo - {name}), workMap, asked);
        todo := todo - {name};
        done := done + [name];
        if use {
          worker, load := Scan(workMap[name], worker, load, cands);
          cands := cands + workMap[name];
          if load == 0 {
            AnywhereConcat(nodes, done, InOrder(todo), workMap, asked);
            StopAtZero(itsLoad, cands, Anywhere(nodes, InOrder(todo), workMap, asked));
            return;
          }
        }
      }
      InOrderEmpty();
      assert done == all;
    }

    method UseNode(name: string, asked: NodeType) returns (use: bool)
      ensures use == NameFits(itsClusterDesc.itsNodes, name, asked)
    {
      use := true;
      var nodes := itsClusterDesc.itsNodes;
      if asked != Any {
        for i := 0 to |nodes|
          invariant !Named(nodes[..i], name)
        {
          if name == nodes[i].name {
            assert forall j :: 0 <= j < |nodes| && nodes[j].name == name && !Named(nodes[..j], name) ==> j == i by {
              forall j | i < j < |nodes| ensures Named(nodes[..j], name) { assert nodes[..j][i].name == name; }
              forall j | 0 <= j < i ensures nodes[j].name != name { assert nodes[..i][j] == nodes[j]; }
            }
            return nodes[i].ntype == Any || nodes[i].ntype == asked;
          }
          assert nodes[..i + 1] == nodes[..i] + [nodes[i]];
        }
        assert nodes[..|nodes|] == nodes;
      }
    }

    method FindLowestOn(workMap: NodeMap, fileSystem: string, asked: NodeType) returns (worker: int)
      requires Valid() && forall name :: name in workMap ==> Known(itsLoad, workMap[name])
      ensures worker == Lowest(itsLoad, OnFileSys(itsClusterDesc.itsNodes, workMap, fileSystem, asked))
    {
      hide Lowest, OnIndexed, OnFileSys, NodesWith, LoadOf;
      worker := -1;
      var load := TOO_BUSY;
      var nodes := itsClusterDesc.itsNodes;
      IndexFindsSame(itsLoad, nodes, workMap, fileSystem, asked);
      LowestEmpty(itsLoad);
      OnIndexedEmpty(nodes, workMap, asked);
      if fileSystem !in itsClusterDesc.itsFS2Nodes {
        return -1;
      }
      var nodesVec := itsClusterDesc.itsFS2Nodes[fileSystem];
      ghost var cands := [];
      assert nodesVec[..0] == Repeat(0, 0);
      for k := 0 to |nodesVec|
        invariant Within(nodesVec, |nodes|)
        invariant cands == OnIndexed(nodes, nodesVec[..k], workMap, asked)
        invariant worker == Lowest(itsLoad, cands) && load == LoadOf(itsLoad, worker)
      {
        var node := nodes[nodesVec[k]];
        assert nodesVec[..k + 1] == nodesVec[..k] + [nodesVec[k]];
        OnIndexedStep(nodes, nodesVec[..k], nodesVec[k], workMap, asked);
        if node.ntype == asked || node.ntype == Any || asked == Any {
          if node.name in workMap {
            worker, load := Scan(workMap[node.name], worker, load, cands);
            cands := cands + workMap[node.name];
            if load == 0 {
              assert nodesVec == nodesVec[..k + 1] + nodesVec[k + 1..];
              OnIndexedConcat(nodes, nodesVec[..k + 1], nodesVec[k + 1..], workMap, asked);
              StopAtZero(itsLoad, cands, OnIndexed(nodes, nodesVec[k + 1..], workMap, asked));
              return;
            }
          }
        }
      }
      assert nodesVec[..|nodesVec|] == nodesVec;
    }
  }

  /** One candidate more. */
  lemma LowestStep(load: seq<int>, seen: seq<nat>, cands: seq<nat>, k: nat)
    requires k < |cands|
    ensures var best := Lowest(load, seen + cands[..k]);
      Lowest(load, seen + cands[..k + 1]) == if LoadOf(load, cands[k]) < LoadOf(load, best) then cands[k] else best
  {
    assert (seen + cands[..k + 1])[..|seen| + k] == seen + cands[..k];
  }

  lemma LowestEmpty(load: seq<int>)
    ensures Lowest(load, []) == -1 && LoadOf(load, -1) == TOO_BUSY
  {
  }

  lemma AnywhereEmpty(nodes: seq<Node>, m: NodeMap, asked: NodeType)
    ensures Anywhere(nodes, [], m, asked) == []
  {
  }

  lemma InOrderEmpty()
    ensures InOrder({}) == []
  {
  }

  lemma AnywhereStep(nodes: seq<Node>, done: seq<string>, name: string, todo: seq<string>, m: NodeMap, asked: NodeType)
    ensures Anywhere(nodes, done + [name], m, asked)
         == Anywhere(nodes, done, m, asked) + if NameFits(nodes, name, asked) then WorkersOn(m, name) else []
    ensures done + ([name] + todo) == (done + [name]) + todo
  {
    assert (done + [name])[..|done|] == done;
  }

  ghost predicate AllKnown(load: seq<int>, m: map<int, NodeMap>) {
    forall t, name :: t in m && name in m[t] ==> Known(load, m[t][name])
  }

  lemma MoreKnown(load: seq<int>, more: seq<int>, m: map<int, NodeMap>)
    requires AllKnown(load, m) && |load| <= |more|
    ensures AllKnown(more, m)
  {
  }

  function Register(m: map<int, NodeMap>, t: int, nodeName: string, workerId: nat): map<int, NodeMap> {
    var mnw := if t in m then m[t] else map[];
    m[t := mnw[nodeName := WorkersOn(mnw, nodeName) + [workerId]]]
  }

  lemma RegisterKnown(load: seq<int>, m: map<int, NodeMap>, t: int, nodeName: string, workerId: nat)
    requires AllKnown(load, m) && workerId < |load|
    ensures AllKnown(load, Register(m, t, nodeName, workerId))
  {
  }

  lemma RegisterIs(m: map<int, NodeMap>, t: int, nodeName: string, workerId: nat)
    ensures var mnw := if t in m then m[t] else map[];
      Register(m, t, nodeName, workerId) == m[t := mnw[nodeName := WorkersOn(mnw, nodeName) + [workerId]]]
  {
  }

  lemma RegisteredNone(m: map<int, NodeMap>, nodeName: string, workerId: nat)
    ensures Registered(m, [], nodeName, workerId) == m
  {
  }

  lemma RegisteredStep(m: map<int, NodeMap>, workTypes: seq<int>, t: int, nodeName: string, workerId: nat)
    ensures Registered(m, workTypes + [t], nodeName, workerId)
         == Register(Registered(m, workTypes, nodeName, workerId), t, nodeName, workerId)
  {
    assert (workTypes + [t])[..|workTypes|] == workTypes;
  }

  /** The worker is appended to its node's list for each of the work types. */
  function Registered(m: map<int, NodeMap>, workTypes: seq<int>, nodeName: string, workerId: nat)
    : map<int, NodeMap>
  {
    if workTypes == [] then m
    else
      Register(Registered(m, workTypes[..|workTypes| - 1], nodeName, workerId), workTypes[|workTypes| - 1], nodeName,
               workerId)
  }

  /** With loads that are not negative the search can stop at a load of 0. */
  lemma StopAtZero(load: seq<int>, seen: seq<nat>, more: seq<nat>)
    requires (forall w :: 0 <= w < |load| ==> load[w] >= 0) && LoadOf(load, Lowest(load, seen)) == 0
    ensures Lowest(load, seen + more) == Lowest(load, seen)
  {
    LowestStays(load, seen, more);
  }

  lemma NextInOrder(keys: set<string>, k: string)
    requires IsFirst(keys, k)
    ensures InOrder(keys) == [k] + InOrder(keys - {k})
  {
    assert forall l :: IsFirst(keys, l) ==> l == k by {
      forall l | IsFirst(keys, l) ensures l == k { FirstUnique(keys, k, l); }
    }
  }

  lemma {:induction false} AnywhereConcat(nodes: seq<Node>, a: seq<string>, b: seq<string>, m: NodeMap, asked: NodeType)
    ensures Anywhere(nodes, a + b, m, asked) == Anywhere(nodes, a, m, asked) + Anywhere(nodes, b, m, asked)
  {
    if b == [] {
      assert a + b == a;
    } else {
      assert (a + b)[..|a + b| - 1] == a + b[..|b| - 1];
      AnywhereConcat(nodes, a, b[..|b| - 1], m, asked);
    }
  }
}
