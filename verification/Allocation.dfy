/** The assignment of data parts to workers by ControllerBase::setAllWorkers, and that of finddproc. */
module Allocation {
  import opened Options
  import opened Assignments
  import opened NodeDescs
  import opened ClusterDescs
  import opened Protocol
  import opened WorkersDescs

  datatype Part = Part(name: string, fileSys: string)

  // ---------------------------------------------------------------- the search picks the first free worker

  predicate LoadsAre(load: seq<int>, picks: seq<nat>) {
    forall w :: 0 <= w < |load| ==> load[w] == if w in picks then 1 else 0
  }

  /** As long as no worker has two parts, the worker with the lowest load is the first free one, or
      there is none and the result is -1 or a worker that holds a part. */
  lemma LowestIsFirstFree(load: seq<int>, cands: seq<nat>, picks: seq<nat>)
    requires LoadsAre(load, picks) && Known(load, cands)
    ensures match FirstFree(cands, picks)
      case Some(w) => Lowest(load, cands) == w
      case None => Lowest(load, cands) == -1 || Lowest(load, cands) in picks
  {
    LowestIsFirstMinimum(load, cands);
    FirstFreeIs(cands, picks);
    if FirstFree(cands, picks).Some? {
      var k := FirstFreeBefore(cands, picks);
      assert cands[k] in cands && LoadOf(load, cands[k]) == 0;
      var l :| FirstMinimum(load, cands, Lowest(load, cands), l);
      forall j | 0 <= j < k ensures LoadOf(load, cands[j]) == 1 {
        assert cands[j] in cands && cands[j] in picks;
      }
    }
  }

  // ---------------------------------------------------------------- ControllerBase

  /** What a remote worker tells about itself. */
  datatype WorkerInfo = WorkerInfo(host: string, workTypes: seq<int>) {
    function WorkType(): int { if workTypes == [] then 0 else workTypes[0] }
  }

  /** The positions of the workers that are local, or not, in ascending order. */
  function Positions(infos: seq<WorkerInfo>, local: bool): seq<nat> {
    if infos == [] then []
    else
      var last := |infos| - 1;
      Positions(infos[..last], local) + if (infos[last].WorkType() == 0) == local then [last] else []
  }

  lemma {:induction false} PositionsExact(infos: seq<WorkerInfo>, local: bool)
    ensures forall i :: i in Positions(infos, local) <==>
      0 <= i < |infos| && (infos[i].workTypes == [] || infos[i].workTypes[0] == 0) == local
    ensures Strict(Positions(infos, local))
  {
    if infos != [] {
      var last := |infos| - 1;
      PositionsExact(infos[..last], local);
      var before := Positions(infos[..last], local);
      assert Positions(infos, local) == before + if (infos[last].WorkType() == 0) == local then [last] else [];
      hide Positions;
      forall i | 0 <= i < |before| ensures before[i] < last { assert before[i] in before; }
    }
  }

  /** The workers registered for a work type on a host. */
  function OnHost(byType: map<int, NodeMap>, workType: int, host: string): seq<nat> {
    if workType in byType then WorkersOn(byType[workType], host) else []
  }

  lemma {:induction false} RegisteredMembers(m: map<int, NodeMap>, types: seq<int>, host: string, id: nat, t: int,
                                             name: string, w: nat)
    ensures w in OnHost(Registered(m, types, host, id), t, name)
       <==> w in OnHost(m, t, name) || (t in types && name == host && w == id)
    ensures OnHost(m, t, name) <= OnHost(Registered(m, types, host, id), t, name)
  {
    if types != [] {
      RegisteredMembers(m, types[..|types| - 1], host, id, t, name, w);
      assert types == types[..|types| - 1] + [types[|types| - 1]];
    }
  }

  /** Worker w is the local worker with that number, on its own host and with its own work types. */
  ghost predicate Describes(byType: map<int, NodeMap>, infos: seq<WorkerInfo>, localInx: seq<nat>) {
    forall t, name, w: nat :: Described(byType, infos, localInx, t, name, w)
  }

  predicate Described(byType: map<int, NodeMap>, infos: seq<WorkerInfo>, localInx: seq<nat>, t: int, name: string,
                      w: nat)
  {
    w in OnHost(byType, t, name) <==>
      w < |localInx| && localInx[w] < |infos| && infos[localInx[w]].host == name && t in infos[localInx[w]].workTypes
  }

  /** The first half of setAllWorkers for remote workers: the local and the global ones are told apart,
      and the local ones are numbered in the order of their connections. */
  method SplitWorkers(infos: seq<WorkerInfo>, workDesc: WorkersDesc) returns (localInx: seq<nat>, globalInx: seq<nat>)
    requires workDesc.Valid() && workDesc.itsLoad == [] && workDesc.itsMap == map[]
    modifies workDesc
    ensures workDesc.Valid() && localInx == Positions(infos, true) && globalInx == Positions(infos, false)
    ensures workDesc.itsLoad == seq(|localInx|, _ => 0) && Describes(workDesc.itsMap, infos, localInx)
  {
    localInx, globalInx := [], [];
    assert forall t, name :: OnHost(workDesc.itsMap, t, name) == [];
    for i := 0 to |infos|
      invariant workDesc.Valid() && localInx == Positions(infos[..i], true) && globalInx == Positions(infos[..i], false)
      invariant workDesc.itsLoad == seq(|localInx|, _ => 0) && Describes(workDesc.itsMap, infos, localInx)
    {
      var info := infos[i];
      assert infos[..i + 1][..i] == infos[..i];
      if info.WorkType() == 0 {
        ghost var before := workDesc.itsMap;
        workDesc.AddWorker(|localInx|, info.host, info.workTypes);
        DescribesMore(before, infos, localInx, i);
        localInx := localInx + [i];
      } else {
        globalInx := globalInx + [i];
      }
    }
    assert infos[..|infos|] == infos;
  }

  lemma DescribesMore(byType: map<int, NodeMap>, infos: seq<WorkerInfo>, localInx: seq<nat>, i: nat)
    requires i < |infos| && Describes(byType, infos, localInx)
    ensures Describes(Registered(byType, infos[i].workTypes, infos[i].host, |localInx|), infos, localInx + [i])
  {
    var m, longer := Registered(byType, infos[i].workTypes, infos[i].host, |localInx|), localInx + [i];
    forall t, name, w: nat ensures Described(m, infos, longer, t, name, w) {
      assert Described(byType, infos, localInx, t, name, w);
      RegisteredMembers(byType, infos[i].workTypes, infos[i].host, |localInx|, t, name, w);
    }
  }

  /** The eligible workers of every part. */
  ghost function Candidates(nodes: seq<Node>, byType: map<int, NodeMap>, parts: seq<Part>, asked: NodeType)
    : (r: seq<seq<nat>>)
    ensures |r| == |parts|
    ensures forall i :: 0 <= i < |parts| ==> r[i] == Eligible(nodes, byType, 0, parts[i].fileSys, asked)
  {
    seq(|parts|, i requires 0 <= i < |parts| => Eligible(nodes, byType, 0, parts[i].fileSys, asked))
  }

  /** Worker w has got a part that has a name. */
  predicate Held(parts: seq<Part>, picks: seq<nat>, w: int) {
    exists i :: 0 <= i < |picks| && i < |parts| && picks[i] == w && parts[i].name != ""
  }

  /** Each of the first |picks| parts is with its worker, unless it has no name, and nothing else is. */
  predicate Holds(dataParts: seq<string>, parts: seq<Part>, picks: seq<nat>) {
    && |picks| <= |parts|
    && (forall i :: 0 <= i < |picks| ==>
          picks[i] < |dataParts| && (parts[i].name != "" ==> dataParts[picks[i]] == parts[i].name))
    && (forall w :: 0 <= w < |dataParts| && !Held(parts, picks, w) ==> dataParts[w] == "")
  }

  /** The worker of every part: an eligible one with the lowest load so far; None if the source throws,
      because there is none, or it has got a part with a name. */
  function Pick(load: seq<int>, cands: seq<seq<nat>>, parts: seq<Part>): Option<seq<nat>>
    requires |cands| == |parts|
  {
    if cands == [] then Some([])
    else
      var n := |cands| - 1;
      match Pick(load, cands[..n], parts[..n])
      case None => None
      case Some(p) =>
        var w := Lowest(After(load, p), cands[n]);
        if w < 0 || Held(parts, p, w) then None else Some(p + [w])
  }

  /** The second half of setAllWorkers: which local worker gets which data part; None if the source throws. */
  method AssignParts(workDesc: WorkersDesc, parts: seq<Part>) returns (r: Option<seq<string>>)
    requires workDesc.Valid() && |workDesc.itsLoad| <= |parts|
    modifies workDesc`itsLoad
    ensures workDesc.Valid()
    ensures
      var cands := Candidates(workDesc.itsClusterDesc.itsNodes, workDesc.itsMap, parts, Compute);
      match Pick(old(workDesc.itsLoad), cands, parts)
      case None => r.None?
      case Some(p) => r.Some? && |r.value| == |parts| && Holds(r.value, parts, p)
  {
    hide Lowest, LoadOf, Eligible, Candidates, Pick, After, Held, Holds, WorkersDesc.Valid;
    ghost var cands := Candidates(workDesc.itsClusterDesc.itsNodes, workDesc.itsMap, parts, Compute);
    ghost var before, picks: seq<nat> := workDesc.itsLoad, [];
    var dataParts := seq(|parts|, _ => "");
    NothingHeld(before, dataParts, parts, cands);
    for k := 0 to |parts|
      invariant workDesc.Valid() && |workDesc.itsLoad| == |before|
      invariant |dataParts| == |parts| && Pick(before, cands[..k], parts[..k]) == Some(picks) && |picks| == k
      invariant workDesc.itsLoad == After(before, picks) && Holds(dataParts, parts, picks)
    {
      var inx := workDesc.FindWorker(0, parts[k].fileSys, Compute);
      PickStep(before, cands, parts, picks, k);
      if inx < 0 {
        return None;
      }
      HoldsStep(dataParts, parts, picks, inx, k);
      if dataParts[inx] != "" {
        return None;
      }
      var load := workDesc.IncrLoad(inx);
      dataParts := dataParts[inx := parts[k].name];
      picks := picks + [inx];
    }
    assert cands[..|parts|] == cands && parts[..|parts|] == parts;
    r := Some(dataParts);
  }

  lemma NothingHeld(load: seq<int>, dataParts: seq<string>, parts: seq<Part>, cands: seq<seq<nat>>)
    requires forall w :: 0 <= w < |dataParts| ==> dataParts[w] == ""
    ensures Pick(load, cands[..0], parts[..0]) == Some([]) && After(load, []) == load && Holds(dataParts, parts, [])
  {
  }

  /** One part more: the source throws, or the worker found gets it. */
  lemma {:induction false} PickStep(load: seq<int>, cands: seq<seq<nat>>, parts: seq<Part>, picks: seq<nat>, k: nat)
    requires k < |cands| == |parts| && |picks| == k && Pick(load, cands[..k], parts[..k]) == Some(picks)
    ensures var now := After(load, picks);
      var w := Lowest(now, cands[k]);
      if w < 0 || Held(parts, picks, w) then Pick(load, cands, parts).None?
      else
        && Pick(load, cands[..k + 1], parts[..k + 1]) == Some(picks + [w])
        && After(load, picks + [w]) == if w < |load| then now[w := now[w] + 1] else now
  {
    hide Lowest, After;
    var w := Lowest(After(load, picks), cands[k]);
    assert cands[..k + 1][..k] == cands[..k] && parts[..k + 1][..k] == parts[..k];
    HeldPrefix(parts, picks, w, k + 1);
    hide Held;
    if w < 0 || Held(parts, picks, w) {
      assert Pick(load, cands[..k + 1], parts[..k + 1]).None?;
      hide Pick;
      PickPrefix(load, cands, parts, k + 1);
    } else {
      AfterStep(load, picks, w);
    }
  }

  lemma HeldPrefix(parts: seq<Part>, picks: seq<nat>, w: int, n: nat)
    requires |picks| <= n <= |parts|
    ensures Held(parts[..n], picks, w) == Held(parts, picks, w)
  {
    if i :| 0 <= i < |picks| && i < |parts| && picks[i] == w && parts[i].name != "" {
      assert parts[..n][i] == parts[i];
    }
  }

  lemma AfterStep(load: seq<int>, picks: seq<nat>, w: nat)
    ensures After(load, picks + [w])
         == if w < |load| then After(load, picks)[w := After(load, picks)[w] + 1] else After(load, picks)
  {
    assert (picks + [w])[..|picks|] == picks;
  }

  lemma {:induction false} PickPrefix(load: seq<int>, cands: seq<seq<nat>>, parts: seq<Part>, k: nat)
    requires k <= |cands| == |parts| && Pick(load, cands[..k], parts[..k]).None?
    ensures Pick(load, cands, parts).None?
    decreases |cands| - k
  {
    if k == |cands| {
      assert cands[..k] == cands && parts[..k] == parts;
    } else {
      assert cands[..k + 1][..k] == cands[..k] && parts[..k + 1][..k] == parts[..k];
      PickPrefix(load, cands, parts, k + 1);
    }
  }

  lemma HoldsStep(dataParts: seq<string>, parts: seq<Part>, picks: seq<nat>, w: nat, k: nat)
    requires w < |dataParts| && |picks| == k < |parts| && Holds(dataParts, parts, picks)
    ensures dataParts[w] != "" <==> Held(parts, picks, w)
    ensures !Held(parts, picks, w) ==> Holds(dataParts[w := parts[k].name], parts, picks + [w])
  {
    if i :| 0 <= i < |picks| && picks[i] == w && parts[i].name != "" {
      assert dataParts[picks[i]] == parts[i].name;
    } else {
      forall v ensures Held(parts, picks + [w], v) <==> Held(parts, picks, v) || (v == w && parts[k].name != "") {
        HeldGrows(parts, picks, w, v);
      }
    }
  }

  lemma HeldGrows(parts: seq<Part>, picks: seq<nat>, w: nat, v: int)
    requires |picks| < |parts|
    ensures Held(parts, picks + [w], v) <==> Held(parts, picks, v) || (v == w && parts[|picks|].name != "")
  {
    var more := picks + [w];
    if i :| 0 <= i < |picks| && i < |parts| && picks[i] == v && parts[i].name != "" { assert more[i] == v; }
    assert more[|picks|] == w;
  }

  predicate AllNamed(parts: seq<Part>) { forall i :: 0 <= i < |parts| ==> parts[i].name != "" }

  /** With named parts and no loads to begin with, this is the first free worker for every part. */
  lemma {:induction false} PickIsAssign(load: seq<int>, cands: seq<seq<nat>>, parts: seq<Part>)
    requires |cands| == |parts| && AllNamed(parts) && LoadsAre(load, [])
    requires forall i :: 0 <= i < |cands| ==> Known(load, cands[i])
    ensures Pick(load, cands, parts) == Assign(cands)
    ensures Assign(cands).Some? ==> LoadsAre(After(load, Assign(cands).value), Assign(cands).value)
  {
    hide Lowest, FirstFree;
    if cands != [] {
      var n := |cands| - 1;
      PickIsAssign(load, cands[..n], parts[..n]);
      if Assign(cands[..n]).Some? {
        var p := Assign(cands[..n]).value;
        AssignSound(cands[..n]);
        LowestIsFirstFree(After(load, p), cands[n], p);
        FirstFreeIs(cands[n], p);
        HeldIfTaken(parts, p, Lowest(After(load, p), cands[n]));
        if FirstFree(cands[n], p).Some? { AfterFree(load, p, FirstFree(cands[n], p).value); }
      }
    }
  }

  lemma HeldIfTaken(parts: seq<Part>, p: seq<nat>, w: int)
    requires AllNamed(parts) && |p| <= |parts|
    ensures w >= 0 ==> (Held(parts, p, w) <==> w in p)
  {
  }

  lemma AfterFree(load: seq<int>, p: seq<nat>, w: nat)
    requires LoadsAre(After(load, p), p) && w !in p
    ensures LoadsAre(After(load, p + [w]), p + [w])
  {
    AfterStep(load, p, w);
  }

  lemma EligibleKnown(workDesc: WorkersDesc, fs: string, asked: NodeType)
    requires workDesc.Valid()
    ensures Known(workDesc.itsLoad, Eligible(workDesc.itsClusterDesc.itsNodes, workDesc.itsMap, 0, fs, asked))
  {
    var nodes, m := workDesc.itsClusterDesc.itsNodes, workDesc.itsMap;
    if 0 in m {
      forall w | w in Eligible(nodes, m, 0, fs, asked) ensures w < |workDesc.itsLoad| {
        if fs == "" {
          var name := AnywhereOnNode(nodes, InOrder(m[0].Keys), m[0], asked, w);
        } else {
          var i := OnFileSysReaches(nodes, m[0], fs, asked, w);
        }
      }
    }
  }

  lemma {:induction false} AnywhereOnNode(nodes: seq<Node>, keys: seq<string>, m: NodeMap, asked: NodeType, w: nat)
    returns (name: string)
    requires w in Anywhere(nodes, keys, m, asked)
    ensures w in WorkersOn(m, name) && NameFits(nodes, name, asked)
  {
    var front, last := keys[..|keys| - 1], keys[|keys| - 1];
    if w in Anywhere(nodes, front, m, asked) {
      name := AnywhereOnNode(nodes, front, m, asked, w);
    } else {
      name := last;
    }
  }

  /** A worker that is eligible for a file system is on a node that has it. */
  lemma {:induction false} OnFileSysReaches(nodes: seq<Node>, m: NodeMap, fs: string, asked: NodeType, w: nat)
    returns (i: nat)
    requires w in OnFileSys(nodes, m, fs, asked)
    ensures i < |nodes| && fs in nodes[i].fileSys && TypeFits(nodes[i].ntype, asked) && w in WorkersOn(m, nodes[i].name)
  {
    var front, last := nodes[..|nodes| - 1], nodes[|nodes| - 1];
    if w in OnFileSys(front, m, fs, asked) {
      i := OnFileSysReaches(front, m, fs, asked, w);
    } else {
      i := |nodes| - 1;
    }
  }

  /** The worker a part is assigned to runs on a node that has the part's file system. */
  lemma PartIsReachable(nodes: seq<Node>, byType: map<int, NodeMap>, infos: seq<WorkerInfo>, localInx: seq<nat>,
                        parts: seq<Part>, i: nat)
    returns (n: nat)
    requires Describes(byType, infos, localInx) && i < |parts| && parts[i].fileSys != ""
    requires Assign(Candidates(nodes, byType, parts, Compute)).Some?
    ensures var w := Assign(Candidates(nodes, byType, parts, Compute)).value;
      && |w| == |parts| && w[i] < |localInx| && localInx[w[i]] < |infos|
      && n < |nodes| && nodes[n].name == infos[localInx[w[i]]].host
      && parts[i].fileSys in nodes[n].fileSys && (nodes[n].ntype == Compute || nodes[n].ntype == Any)
  {
    var cands := Candidates(nodes, byType, parts, Compute);
    AssignSound(cands);
    var w := Assign(cands).value[i];
    assert w in cands[i];
    n := OnFileSysReaches(nodes, byType[0], parts[i].fileSys, Compute, w);
    var name := nodes[n].name;
    assert Described(byType, infos, localInx, 0, name, w);
  }

  /** Init on connection w carries the name of the part worker w was given. */
  lemma InitCarriesPart(cfg: Config, parts: seq<Part>, picks: seq<nat>, i: nat)
    requires Holds(cfg.parts, parts, picks) && i < |picks| && picks[i] < cfg.nLocal
    ensures parts[i].name != "" ==> InitMsg(cfg, picks[i]).body == InitInfo(cfg.parms, parts[i].name)
    ensures InitMsg(cfg, picks[i]).workerId == picks[i]
  {
  }

  /** The candidates of all file systems. */
  ghost function Lists(nodes: seq<Node>, byType: map<int, NodeMap>, fileSys: set<string>): set<seq<nat>> {
    set fs | fs in fileSys :: Eligible(nodes, byType, 0, fs, Compute)
  }

  predicate PartsOn(parts: seq<Part>, fileSys: set<string>) {
    forall i :: 0 <= i < |parts| ==> parts[i].name != "" && parts[i].fileSys in fileSys
  }

  ghost predicate FindsParts(nodes: seq<Node>, byType: map<int, NodeMap>, parts: seq<Part>) {
    Assign(Candidates(nodes, byType, parts, Compute)).Some?
  }

  /** Whatever named parts there are on these file systems, they are assigned if they can be. */
  ghost predicate AlwaysFinds(nodes: seq<Node>, byType: map<int, NodeMap>, fileSys: set<string>) {
    forall parts :: PartsOn(parts, fileSys) && (exists f :: Assigns(Candidates(nodes, byType, parts, Compute), f))
      ==> FindsParts(nodes, byType, parts)
  }

  /** Parts that have the given lists as their candidates. */
  lemma {:induction false} PartsFor(nodes: seq<Node>, byType: map<int, NodeMap>, fileSys: set<string>,
                                    cands: seq<seq<nat>>)
    returns (parts: seq<Part>)
    requires Over(cands, Lists(nodes, byType, fileSys))
    ensures PartsOn(parts, fileSys) && Candidates(nodes, byType, parts, Compute) == cands
  {
    hide Eligible;
    parts := [];
    if cands != [] {
      var n := |cands| - 1;
      parts := PartsFor(nodes, byType, fileSys, cands[..n]);
      assert cands[n] in Lists(nodes, byType, fileSys);
      var fs :| fs in fileSys && Eligible(nodes, byType, 0, fs, Compute) == cands[n];
      parts := parts + [Part("part", fs)];
      assert Candidates(nodes, byType, parts, Compute) == cands[..n] + [cands[n]];
    }
  }

  /** setAllWorkers never throws needlessly for parts on some file systems, exactly if no two of these
      file systems have a worker in common that the first lists before one the second does not reach. */
  lemma AlwaysFindsIff(nodes: seq<Node>, byType: map<int, NodeMap>, fileSys: set<string>)
    ensures AlwaysFinds(nodes, byType, fileSys) <==>
      forall fs, gs :: fs in fileSys && gs in fileSys ==>
        OwnFirst(Eligible(nodes, byType, 0, fs, Compute), Eligible(nodes, byType, 0, gs, Compute))
  {
    hide Eligible, OwnFirst, Assigns, Assign;
    var lists := Lists(nodes, byType, fileSys);
    GoodEnoughIff(lists);
    if AlwaysFinds(nodes, byType, fileSys) {
      forall cands, f | Over(cands, lists) && Assigns(cands, f) ensures Assign(cands).Some? {
        var parts := PartsFor(nodes, byType, fileSys, cands);
        assert FindsParts(nodes, byType, parts);
      }
      assert GoodEnough(lists);
    }
    if GoodEnough(lists) {
      forall parts, f | PartsOn(parts, fileSys) && Assigns(Candidates(nodes, byType, parts, Compute), f)
        ensures FindsParts(nodes, byType, parts)
      {
        assert Over(Candidates(nodes, byType, parts, Compute), lists);
      }
    }
    ListsOwnFirst(nodes, byType, fileSys);
  }

  lemma ListsOwnFirst(nodes: seq<Node>, byType: map<int, NodeMap>, fileSys: set<string>)
    ensures var lists := Lists(nodes, byType, fileSys);
      (forall a, b :: a in lists && b in lists ==> OwnFirst(a, b)) <==>
      forall fs, gs :: fs in fileSys && gs in fileSys ==>
        OwnFirst(Eligible(nodes, byType, 0, fs, Compute), Eligible(nodes, byType, 0, gs, Compute))
  {
    hide Eligible, OwnFirst;
    var lists := Lists(nodes, byType, fileSys);
    forall fs | fs in fileSys ensures Eligible(nodes, byType, 0, fs, Compute) in lists {
    }
  }

  // ---------------------------------------------------------------- a needless throw

  /** Two compute nodes: both have file system A, only the first has B. */
  const NODE1 := Node("n1", Compute, ["A", "B"], ["/a", "/b"])
  const NODE2 := Node("n2", Compute, ["A"], ["/a"])
  const PART_A := Part("p1", "A")
  const PART_B := Part("p2", "B")

  /** With a worker on each of the two nodes the part on A takes the worker the part on B needs, and
      setAllWorkers throws although the two workers could do the two parts. */
  lemma AssignIncomplete(byType: map<int, NodeMap>)
    requires byType == Registered(Registered(map[], [0], "n1", 0), [0], "n2", 1)
    ensures var cands := Candidates([NODE1, NODE2], byType, [PART_A, PART_B], Compute);
      Assign(cands).None? && Assigns(cands, [1, 0])
  {
    var m: NodeMap := map["n1" := [0], "n2" := [1]];
    TwoWorkers(byType);
    EligibleA(m);
    EligibleB(m);
    hide OnFileSys;
    var cands := Candidates([NODE1, NODE2], byType, [PART_A, PART_B], Compute);
    assert cands == [[0, 1], [0]];
    ThrowsNeedlessly(cands);
  }

  lemma TwoWorkers(byType: map<int, NodeMap>)
    requires byType == Registered(Registered(map[], [0], "n1", 0), [0], "n2", 1)
    ensures byType == map[0 := map["n1" := [0], "n2" := [1]]]
  {
    RegisteredOne(map[], "n1", 0);
    var first: NodeMap := map["n1" := [0]];
    assert [] + [0] == [0 as nat] && [] + [1] == [1 as nat];
    assert Register(map[], 0, "n1", 0) == map[0 := first];
    RegisteredOne(map[0 := first], "n2", 1);
    assert "n1"[1] != "n2"[1];
    assert Register(map[0 := first], 0, "n2", 1) == map[0 := first["n2" := [1]]];
  }

  lemma RegisteredOne(byType: map<int, NodeMap>, host: string, id: nat)
    ensures Registered(byType, [0], host, id) == Register(byType, 0, host, id)
  {
    RegisteredNone(byType, host, id);
    RegisteredStep(byType, [], 0, host, id);
    assert [] + [0] == [0];
  }

  lemma EligibleA(m: NodeMap)
    requires m == map["n1" := [0], "n2" := [1]]
    ensures OnFileSys([NODE1, NODE2], m, "A", Compute) == [0, 1]
  {
    assert [NODE1, NODE2][..1] == [NODE1] && [NODE1][..0] == [];
    assert NODE1.fileSys[0] == "A" && NODE2.fileSys[0] == "A";
    assert OnFileSys([NODE1], m, "A", Compute) == [] + [0];
  }

  lemma EligibleB(m: NodeMap)
    requires m == map["n1" := [0], "n2" := [1]]
    ensures OnFileSys([NODE1, NODE2], m, "B", Compute) == [0]
  {
    assert [NODE1, NODE2][..1] == [NODE1] && [NODE1][..0] == [];
    assert NODE1.fileSys[1] == "B" && "B" != "A";
    assert OnFileSys([NODE1], m, "B", Compute) == [] + [0];
  }

  lemma ThrowsNeedlessly(cands: seq<seq<nat>>)
    requires cands == [[0, 1], [0]]
    ensures Assign(cands).None? && Assigns(cands, [1, 0])
  {
    AssignOne(cands[0], 0);
    assert cands[..1] == [cands[0]] && cands[1] == [0];
    FirstFreeIs(cands[1], [0]);
    assert cands[0][1] == 1;
  }

  /** The same on the objects: the cluster and the workers are described, and no part is assigned. */
  method NeedlessThrow() returns (r: Option<seq<string>>)
    ensures r.None?
  {
    hide ClusterDesc.Valid, WorkersDesc.Valid, Registered, Eligible, Assign, Holds;
    var cd := new ClusterDesc();
    assert !Named([], "n1") && !Named([NODE1], "n2") by { assert "n1"[1] != "n2"[1]; }
    var ok1 := cd.AddNode(NODE1, false);
    var ok2 := cd.AddNode(NODE2, false);
    assert cd.itsNodes == [NODE1, NODE2];
    var wd := new WorkersDesc(cd);
    wd.AddWorker(0, "n1", [0]);
    wd.AddWorker(1, "n2", [0]);
    AssignIncomplete(wd.itsMap);
    EligibleKnown(wd, "A", Compute);
    EligibleKnown(wd, "B", Compute);
    PickIsAssign(wd.itsLoad, Candidates(cd.itsNodes, wd.itsMap, [PART_A, PART_B], Compute), [PART_A, PART_B]);
    r := AssignParts(wd, [PART_A, PART_B]);
  }

  // ---------------------------------------------------------------- finddproc

  function After(load: seq<int>, picks: seq<nat>): (r: seq<int>)
    ensures |r| == |load|
  {
    if picks == [] then load
    else
      var before, w := After(load, picks[..|picks| - 1]), picks[|picks| - 1];
      if w < |load| then before[w := before[w] + 1] else before
  }

  /** Every part goes to an eligible worker with the lowest load so far; None if the source throws. */
  function Place(load: seq<int>, cands: seq<seq<nat>>): (r: Option<seq<nat>>)
    ensures r.Some? ==> |r.value| == |cands|
  {
    if cands == [] then Some([])
    else match Place(load, cands[..|cands| - 1])
      case None => None
      case Some(p) =>
        var w := Lowest(After(load, p), cands[|cands| - 1]);
        if w < 0 then None else Some(p + [w])
  }

  function Total(load: seq<int>): int { if load == [] then 0 else Total(load[..|load| - 1]) + load[|load| - 1] }

  lemma {:induction false} TotalUpdate(load: seq<int>, w: nat, x: int)
    requires w < |load|
    ensures Total(load[w := x]) == Total(load) + x - load[w]
  {
    var n := |load| - 1;
    assert load[w := x][..n] == if w < n then load[..n][w := x] else load[..n];
    if w < n { TotalUpdate(load[..n], w, x); }
  }

  method MakeFile(parts: seq<Part>, workers: WorkersDesc, asked: NodeType) returns (r: Option<seq<nat>>)
    requires workers.Valid()
    modifies workers`itsLoad
    ensures workers.Valid()
    ensures var cands := Candidates(workers.itsClusterDesc.itsNodes, workers.itsMap, parts, asked);
      && r == Place(old(workers.itsLoad), cands)
      && (r.Some? ==> workers.itsLoad == After(old(workers.itsLoad), r.value))
  {
    hide Lowest, LoadOf, Eligible, Candidates, Place, After, WorkersDesc.Valid;
    ghost var cands := Candidates(workers.itsClusterDesc.itsNodes, workers.itsMap, parts, asked);
    var picks: seq<nat> := [];
    PlaceStart(old(workers.itsLoad), cands);
    for k := 0 to |parts|
      invariant workers.Valid() && |workers.itsLoad| == |old(workers.itsLoad)|
      invariant Place(old(workers.itsLoad), cands[..k]) == Some(picks)
      invariant workers.itsLoad == After(old(workers.itsLoad), picks)
    {
      var winx := workers.FindWorker(0, parts[k].fileSys, asked);
      PlaceStep(old(workers.itsLoad), cands, picks, k);
      if winx < 0 {
        return None;
      }
      var load := workers.IncrLoad(winx);
      picks := picks + [winx];
    }
    assert cands[..|parts|] == cands;
    r := Some(picks);
  }

  lemma PlaceStart(load: seq<int>, cands: seq<seq<nat>>)
    ensures Place(load, cands[..0]) == Some([]) && After(load, []) == load
  {
  }

  /** One part more. */
  lemma {:induction false} PlaceStep(load: seq<int>, cands: seq<seq<nat>>, picks: seq<nat>, k: nat)
    requires k < |cands| && Place(load, cands[..k]) == Some(picks)
    ensures var now := After(load, picks);
      var w := Lowest(now, cands[k]);
      if w < 0 then Place(load, cands).None?
      else
        && Place(load, cands[..k + 1]) == Some(picks + [w])
        && After(load, picks + [w]) == if w < |load| then now[w := now[w] + 1] else now
  {
    hide Lowest, After;
    var w := Lowest(After(load, picks), cands[k]);
    assert cands[..k + 1][..k] == cands[..k];
    if w < 0 {
      PlacePrefix(load, cands, k + 1);
    } else {
      AfterStep(load, picks, w);
    }
  }

  lemma {:induction false} PlacePrefix(load: seq<int>, cands: seq<seq<nat>>, k: nat)
    requires k <= |cands| && Place(load, cands[..k]).None?
    ensures Place(load, cands).None?
    decreases |cands| - k
  {
    if k == |cands| {
      assert cands[..k] == cands;
    } else {
      assert cands[..k + 1][..k] == cands[..k];
      PlacePrefix(load, cands, k + 1);
    }
  }

  /** The source throws exactly when, at some part, every eligible worker has a load of TOO_BUSY or more. */
  lemma {:induction false} PlaceThrowsIff(load: seq<int>, cands: seq<seq<nat>>)
    ensures Place(load, cands).None? <==> exists i :: 0 <= i < |cands| && NoneAt(load, cands, i)
  {
    if cands != [] {
      var n := |cands| - 1;
      PlaceThrowsIff(load, cands[..n]);
      assert forall i :: 0 <= i < n ==> NoneAt(load, cands, i) == NoneAt(load, cands[..n], i) by {
        assert forall i :: 0 <= i < n ==> cands[..n][..i] == cands[..i];
      }
      ThrowsAtLast(load, cands);
      hide NoneAt, Place;
      if i :| 0 <= i < n && NoneAt(load, cands[..n], i) { assert NoneAt(load, cands, i); }
      if NoneAt(load, cands, n) { assert 0 <= n < |cands|; }
    }
  }

  lemma ThrowsAtLast(load: seq<int>, cands: seq<seq<nat>>)
    requires cands != []
    ensures var n := |cands| - 1;
      Place(load, cands).None? <==> Place(load, cands[..n]).None? || NoneAt(load, cands, n)
  {
    var n := |cands| - 1;
    if Place(load, cands[..n]).Some? {
      LowestNone(After(load, Place(load, cands[..n]).value), cands[n]);
      hide Lowest, AllBusy;
      LowestRange(After(load, Place(load, cands[..n]).value), cands[n]);
    }
  }

  lemma {:induction false} LowestRange(load: seq<int>, cands: seq<nat>)
    ensures Lowest(load, cands) >= -1
  {
    if cands != [] { LowestRange(load, cands[..|cands| - 1]); }
  }

  predicate NoneAt(load: seq<int>, cands: seq<seq<nat>>, i: nat)
    requires i < |cands|
  {
    Place(load, cands[..i]).Some? && AllBusy(After(load, Place(load, cands[..i]).value), cands[i])
  }

  /** Every part goes to an eligible worker none of whose rivals has a lower load. */
  lemma {:induction false} PlaceLeastLoaded(load: seq<int>, cands: seq<seq<nat>>, i: nat)
    requires Place(load, cands).Some? && i < |cands|
    ensures var p := Place(load, cands).value;
      && |p| == |cands| && p[i] in cands[i]
      && forall w :: w in cands[i] ==> LoadOf(After(load, p[..i]), p[i]) <= LoadOf(After(load, p[..i]), w)
  {
    var n := |cands| - 1;
    var p := Place(load, cands).value;
    if n > 0 { PlaceLeastLoaded(load, cands[..n], if i < n then i else 0); }
    if i < n {
      assert p[..n][..i] == p[..i];
    } else {
      var now := After(load, p[..n]);
      LowestIsFirstMinimum(now, cands[n]);
      forall w | w in cands[n] ensures LoadOf(now, p[n]) <= LoadOf(now, w) { LowestBounds(now, cands[n], w); }
    }
  }

  /** The loads grow by the number of parts. */
  lemma {:induction false} AfterTotal(load: seq<int>, picks: seq<nat>)
    requires forall i :: 0 <= i < |picks| ==> picks[i] < |load|
    ensures Total(After(load, picks)) == Total(load) + |picks|
  {
    if picks != [] {
      var n := |picks| - 1;
      AfterTotal(load, picks[..n]);
      var before := After(load, picks[..n]);
      TotalUpdate(before, picks[n], before[picks[n]] + 1);
    }
  }

  ghost predicate Even(load: seq<int>, members: set<nat>) {
    forall v, w :: v in members && w in members ==> LoadOf(load, v) <= LoadOf(load, w) + 1
  }

  /** On one shared file system the loads of the eligible workers never differ by more than one. */
  lemma {:induction false} PlaceEven(load: seq<int>, cands: seq<seq<nat>>, members: set<nat>)
    requires Place(load, cands).Some? && Even(load, members)
    requires (forall w :: w in members ==> w < |load|) && forall i :: 0 <= i < |cands| ==> Members(cands[i]) == members
    ensures Even(After(load, Place(load, cands).value), members)
  {
    if cands != [] {
      var n := |cands| - 1;
      PlaceEven(load, cands[..n], members);
      var p := Place(load, cands).value;
      var now, w := After(load, p[..n]), p[n];
      LowestIsFirstMinimum(now, cands[n]);
      forall v | v in members ensures LoadOf(now, w) <= LoadOf(now, v) {
        assert v in Members(cands[n]);
        LowestBounds(now, cands[n], v);
      }
      assert w in Members(cands[n]);
    }
  }
}
