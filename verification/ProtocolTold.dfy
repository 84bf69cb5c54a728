/** What a finished run has told each worker, read off the messages themselves: Init, every work domain of a
    partition of the full domain, each followed by the leaf steps of the tree in order, and quit. */
module ProtocolTold {
  import opened MWSteps
  import opened Options
  import opened ObsDomains
  import opened Protocol
  import opened ProtocolTrace
  import opened ProtocolOutcome

  // ---------------------------------------------------------------- the leaves of a tree

  /** The step that a path of positions leads to, if there is one. */
  function StepAt(tree: MWStep, path: seq<nat>): Option<MWStep>
    decreases tree
  {
    if path == [] then Some(tree)
    else if tree.MultiStep? && path[0] < |tree.steps| then StepAt(tree.steps[path[0]], path[1..])
    else None
  }

  /** The path comes first where the two part. */
  predicate Earlier(a: seq<nat>, b: seq<nat>)
  {
    a != [] && b != [] && (a[0] < b[0] || (a[0] == b[0] && Earlier(a[1..], b[1..])))
  }

  /** Local workers are told all leaves, the first global worker those of global steps. */
  predicate IsTold(n: nat, c: nat, leaf: MWStep) {
    (leaf.LocalStep? && c < n) || (leaf.GlobalStep? && c <= n)
  }

  /** The paths lead to the leaves, one after the other in the order of the tree, and to every leaf that is to be
      told. */
  ghost predicate InTreeOrder(n: nat, c: nat, tree: MWStep, leaves: seq<MWStep>, paths: seq<seq<nat>>) {
    && |paths| == |leaves|
    && (forall i :: 0 <= i < |paths| ==> StepAt(tree, paths[i]) == Some(leaves[i]) && IsTold(n, c, leaves[i]))
    && (forall i, j :: 0 <= i < j < |paths| ==> Earlier(paths[i], paths[j]))
    && forall p :: StepAt(tree, p).Some? && IsTold(n, c, StepAt(tree, p).value) ==> p in paths
  }

  /** The path leads to a leaf below one of the children from number k on. */
  predicate LeadsTo(n: nat, c: nat, steps: seq<MWStep>, k: nat, path: seq<nat>, leaf: MWStep) {
    && path != [] && k <= path[0] < |steps|
    && StepAt(steps[path[0]], path[1..]) == Some(leaf) && IsTold(n, c, leaf)
  }

  ghost predicate InListOrder(n: nat, c: nat, steps: seq<MWStep>, k: nat, leaves: seq<MWStep>, paths: seq<seq<nat>>) {
    && |paths| == |leaves|
    && (forall i :: 0 <= i < |paths| ==> LeadsTo(n, c, steps, k, paths[i], leaves[i]))
    && (forall i, j :: 0 <= i < j < |paths| ==> Earlier(paths[i], paths[j]))
    && forall p, leaf :: LeadsTo(n, c, steps, k, p, leaf) ==> p in paths
  }

  function Under(k: nat, paths: seq<seq<nat>>): (r: seq<seq<nat>>)
    ensures |r| == |paths| && forall i :: 0 <= i < |r| ==> r[i] == [k] + paths[i]
  {
    seq(|paths|, i requires 0 <= i < |paths| => [k] + paths[i])
  }

  /** The first child's leaves come before those of the children after it. */
  lemma ListOrderCons(n: nat, c: nat, steps: seq<MWStep>, k: nat, a: seq<MWStep>, ps: seq<seq<nat>>, b: seq<MWStep>,
                      qs: seq<seq<nat>>)
    requires k < |steps| && InTreeOrder(n, c, steps[k], a, ps) && InListOrder(n, c, steps, k + 1, b, qs)
    ensures InListOrder(n, c, steps, k, a + b, Under(k, ps) + qs)
  {
    var rs, all := Under(k, ps), Under(k, ps) + qs;
    forall i | 0 <= i < |ps| ensures rs[i] == [k] + ps[i] && LeadsTo(n, c, steps, k, rs[i], a[i]) {
      assert rs[i][1..] == ps[i];
    }
    hide IsTold, StepAt, Under;
    forall i | 0 <= i < |all| ensures LeadsTo(n, c, steps, k, all[i], (a + b)[i]) {
      if i >= |rs| { assert LeadsTo(n, c, steps, k + 1, qs[i - |rs|], b[i - |rs|]); }
    }
    forall i, j | 0 <= i < j < |all| ensures Earlier(all[i], all[j]) {
      if j < |rs| {
        assert rs[i][1..] == ps[i] && rs[j][1..] == ps[j];
      } else if i < |rs| {
        assert LeadsTo(n, c, steps, k + 1, qs[j - |rs|], b[j - |rs|]);
      }
    }
    forall p, leaf | LeadsTo(n, c, steps, k, p, leaf) ensures p in all {
      if p[0] == k {
        FirstChild(n, c, steps, k, a, ps, p, leaf);
      } else {
        assert LeadsTo(n, c, steps, k + 1, p, leaf);
        assert p in qs;
      }
    }
  }

  lemma FirstChild(n: nat, c: nat, steps: seq<MWStep>, k: nat, a: seq<MWStep>, ps: seq<seq<nat>>, p: seq<nat>,
                   leaf: MWStep)
    requires k < |steps| && InTreeOrder(n, c, steps[k], a, ps)
    requires LeadsTo(n, c, steps, k, p, leaf) && p[0] == k
    ensures p in Under(k, ps)
  {
    hide IsTold, StepAt;
    assert p[1..] in ps;
    var i :| 0 <= i < |ps| && ps[i] == p[1..];
    assert Under(k, ps)[i] == [k] + p[1..] == p;
  }

  lemma {:induction false} LeavesInOrder(n: nat, c: nat, tree: MWStep) returns (paths: seq<seq<nat>>)
    ensures InTreeOrder(n, c, tree, Leaves(n, c, tree), paths)
    decreases tree
  {
    match tree
    case LocalStep(_) => paths := if c < n then [[]] else [];
    case GlobalStep(_) => paths := if c <= n then [[]] else [];
    case MultiStep(steps) =>
      paths := ListInOrder(n, c, tree, 0);
      assert steps[0..] == steps;
      forall p | StepAt(tree, p).Some? && IsTold(n, c, StepAt(tree, p).value) ensures p in paths {
        assert LeadsTo(n, c, steps, 0, p, StepAt(tree, p).value);
      }
  }

  lemma {:induction false} ListInOrder(n: nat, c: nat, tree: MWStep, k: nat) returns (paths: seq<seq<nat>>)
    requires tree.MultiStep? && k <= |tree.steps|
    ensures InListOrder(n, c, tree.steps, k, LeavesAll(n, c, tree.steps[k..]), paths)
    decreases tree, |tree.steps| - k
  {
    var steps := tree.steps;
    if k == |steps| {
      paths := [];
    } else {
      var ps := LeavesInOrder(n, c, steps[k]);
      var qs := ListInOrder(n, c, tree, k + 1);
      assert steps[k..][1..] == steps[k + 1..];
      ListOrderCons(n, c, steps, k, Leaves(n, c, steps[k]), ps, LeavesAll(n, c, steps[k + 1..]), qs);
      paths := Under(k, ps) + qs;
    }
  }

  // ---------------------------------------------------------------- the messages of a finished run

  /** The message is a work domain that contains the point. */
  predicate TellsOf(m: Message, f: real, t: real) {
    && m.oper == SETWD && m.body.Domain?
    && m.body.box.startFreq <= f < m.body.box.endFreq && m.body.box.startTime <= t < m.body.box.endTime
  }

  function TimesTold(hist: seq<Message>, f: real, t: real): nat {
    if hist == [] then 0
    else TimesTold(hist[..|hist| - 1], f, t) + if TellsOf(hist[|hist| - 1], f, t) then 1 else 0
  }

  lemma {:induction false} TimesToldConcat(a: seq<Message>, b: seq<Message>, f: real, t: real)
    ensures TimesTold(a + b, f, t) == TimesTold(a, f, t) + TimesTold(b, f, t)
  {
    if b == [] {
      assert a + b == a;
    } else {
      assert (a + b)[..|a + b| - 1] == a + b[..|b| - 1];
      TimesToldConcat(a, b[..|b| - 1], f, t);
    }
  }

  lemma TimesToldOne(m: Message, f: real, t: real)
    ensures TimesTold([m], f, t) == if TellsOf(m, f, t) then 1 else 0
  {
    assert [m][..0] == [];
  }

  lemma {:induction false} TimesToldMain(hist: seq<Message>, f: real, t: real)
    ensures TimesTold(Main(hist), f, t) == TimesTold(hist, f, t)
  {
    if hist != [] {
      var front, m := hist[..|hist| - 1], hist[|hist| - 1];
      TimesToldMain(front, f, t);
      TimesToldConcat(Main(front), [m], f, t);
      TimesToldOne(m, f, t);
      assert Main(front) + [] == Main(front);
    }
  }

  lemma {:induction false} TimesToldSteps(steps: seq<MWStep>, f: real, t: real)
    ensures TimesTold(StepMsgs(steps), f, t) == 0
  {
    if steps != [] {
      TimesToldSteps(steps[1..], f, t);
      TimesToldConcat([StepMsg(steps[0])], StepMsgs(steps[1..]), f, t);
      TimesToldOne(StepMsg(steps[0]), f, t);
    }
  }

  lemma {:induction false} TimesToldDomains(leaves: seq<MWStep>, tiles: seq<Box>, f: real, t: real)
    ensures TimesTold(DomainMsgs(leaves, tiles), f, t) == Hits(tiles, f, t)
  {
    if tiles != [] {
      var rest := DomainMsgs(leaves, tiles[1..]);
      TimesToldDomains(leaves, tiles[1..], f, t);
      TimesToldConcat([WdMsg(tiles[0])], StepMsgs(leaves) + rest, f, t);
      TimesToldConcat(StepMsgs(leaves), rest, f, t);
      TimesToldOne(WdMsg(tiles[0]), f, t);
      TimesToldSteps(leaves, f, t);
    }
  }

  lemma TimesToldPlan(cfg: Config, c: nat, f: real, t: real)
    requires Usable(cfg.full, cfg.shape)
    ensures TimesTold(Plan(cfg, c), f, t)
         == if cfg.full.startFreq <= f < cfg.full.endFreq && cfg.full.startTime <= t < cfg.full.endTime then 1 else 0
  {
    var leaves, tiles := Leaves(cfg.nLocal, c, cfg.tree), Tiles(cfg.full, cfg.shape, ALL);
    TimesToldConcat([InitMsg(cfg, c)] + DomainMsgs(leaves, tiles), [QUIT_MSG], f, t);
    TimesToldConcat([InitMsg(cfg, c)], DomainMsgs(leaves, tiles), f, t);
    TimesToldOne(InitMsg(cfg, c), f, t);
    TimesToldOne(QUIT_MSG, f, t);
    TimesToldDomains(leaves, tiles, f, t);
    TilesPartition(cfg.full, cfg.shape, f, t);
  }

  lemma {:induction false} NotTold(hist: seq<Message>, f: real, t: real, k: nat)
    requires TimesTold(hist, f, t) == 0 && k < |hist|
    ensures !TellsOf(hist[k], f, t)
  {
    if k < |hist| - 1 { NotTold(hist[..|hist| - 1], f, t, k); }
  }

  lemma {:induction false} ToldOnce(hist: seq<Message>, f: real, t: real) returns (k: nat)
    requires TimesTold(hist, f, t) == 1
    ensures k < |hist| && TellsOf(hist[k], f, t)
    ensures forall l :: 0 <= l < |hist| && TellsOf(hist[l], f, t) ==> l == k
  {
    var front := hist[..|hist| - 1];
    if TellsOf(hist[|hist| - 1], f, t) {
      k := |hist| - 1;
      forall l | 0 <= l < k ensures !TellsOf(hist[l], f, t) { NotTold(front, f, t, l); }
    } else {
      k := ToldOnce(front, f, t);
      forall l | 0 <= l < |hist| && TellsOf(hist[l], f, t) ensures l == k {
        assert l < |front| && front[l] == hist[l];
      }
    }
  }

  /** Of every point of the full domain each worker is told in exactly one work domain; of a point outside in
      none. */
  lemma PointToldOnce(cfg: Config, chans: seq<Chan>, c: nat, f: real, t: real)
    requires cfg.Shaped() && |chans| == cfg.Size() && Usable(cfg.full, cfg.shape) && AllTold(cfg, chans)
    requires c < cfg.Size()
    ensures var hist := chans[c].hist;
      if cfg.full.startFreq <= f < cfg.full.endFreq && cfg.full.startTime <= t < cfg.full.endTime
      then exists k :: 0 <= k < |hist| && TellsOf(hist[k], f, t) &&
             forall l :: 0 <= l < |hist| && TellsOf(hist[l], f, t) ==> l == k
      else forall k :: 0 <= k < |hist| ==> !TellsOf(hist[k], f, t)
  {
    var hist := chans[c].hist;
    TimesToldPlan(cfg, c, f, t);
    TimesToldMain(hist, f, t);
    hide TellsOf;
    if TimesTold(hist, f, t) == 1 {
      var k := ToldOnce(hist, f, t);
    } else {
      forall k | 0 <= k < |hist| ensures !TellsOf(hist[k], f, t) { NotTold(hist, f, t, k); }
    }
  }

  /** The messages of the plan of worker c, in their places: Init with its data part and number, the work
      domains, after each of them the leaves, and quit. */
  ghost predicate InPlaces(cfg: Config, c: nat, msgs: seq<Message>, tiles: seq<Box>, leaves: seq<MWStep>) {
    var w := 1 + |leaves|;
    && |msgs| == 2 + |tiles| * w
    && msgs[0] == Message(INIT, 0, c,
                          InitInfo(cfg.parms, if c < cfg.nLocal && c < |cfg.parts| then cfg.parts[c] else ""))
    && (forall t :: 0 <= t < |tiles| ==> DomainAt(msgs, 1 + t * w, tiles[t], leaves))
    && msgs[|msgs| - 1].oper < 0
  }

  predicate IsDomain(msgs: seq<Message>, k: int, b: Box) {
    0 <= k < |msgs| && msgs[k].oper == SETWD && msgs[k].body == Domain(b)
  }

  /** A work domain followed by the leaves. */
  predicate DomainAt(msgs: seq<Message>, k: int, b: Box, leaves: seq<MWStep>) {
    IsDomain(msgs, k, b) && forall i :: 0 <= i < |leaves| ==> IsStep(msgs, k + 1 + i, leaves[i])
  }

  predicate IsStep(msgs: seq<Message>, k: int, step: MWStep) {
    0 <= k < |msgs| && msgs[k].oper == STEP && msgs[k].body == StepInfo(step)
  }

  lemma {:induction false} StepPlaces(steps: seq<MWStep>)
    ensures |StepMsgs(steps)| == |steps| && forall i :: 0 <= i < |steps| ==> IsStep(StepMsgs(steps), i, steps[i])
  {
    if steps != [] {
      StepPlaces(steps[1..]);
      forall i | 0 <= i < |steps| ensures IsStep(StepMsgs(steps), i, steps[i]) {
        if i > 0 { assert IsStep(StepMsgs(steps[1..]), i - 1, steps[i]); }
      }
    }
  }

  lemma {:induction false} DomainPlaces(leaves: seq<MWStep>, tiles: seq<Box>, t: nat)
    requires t < |tiles|
    ensures var w := 1 + |leaves|;
      && |DomainMsgs(leaves, tiles)| == |tiles| * w
      && DomainAt(DomainMsgs(leaves, tiles), t * w, tiles[t], leaves)
  {
    var w, rest := 1 + |leaves|, DomainMsgs(leaves, tiles[1..]);
    var head := [WdMsg(tiles[0])] + StepMsgs(leaves);
    StepPlaces(leaves);
    DomainLength(leaves, tiles);
    assert DomainMsgs(leaves, tiles) == head + rest;
    hide DomainMsgs, StepMsgs;
    if t > 0 {
      DomainPlaces(leaves, tiles[1..], t - 1);
      Times(t, w);
      Later(head, rest, (t - 1) * w, tiles[t], leaves);
    } else {
      forall i | 0 <= i < |leaves| ensures IsStep(head + rest, 1 + i, leaves[i]) {
        assert IsStep(StepMsgs(leaves), i, leaves[i]);
      }
    }
  }

  lemma Later(head: seq<Message>, msgs: seq<Message>, k: int, b: Box, leaves: seq<MWStep>)
    requires DomainAt(msgs, k, b, leaves)
    ensures DomainAt(head + msgs, |head| + k, b, leaves)
  {
    var all := head + msgs;
    assert forall j :: 0 <= j < |msgs| ==> all[|head| + j] == msgs[j];
    forall i | 0 <= i < |leaves| ensures IsStep(all, |head| + k + 1 + i, leaves[i]) {
      assert IsStep(msgs, k + 1 + i, leaves[i]);
    }
  }

  lemma Times(t: nat, w: nat)
    requires t > 0
    ensures t * w == (t - 1) * w + w
  {
  }

  lemma {:induction false} DomainLength(leaves: seq<MWStep>, tiles: seq<Box>)
    ensures |DomainMsgs(leaves, tiles)| == |tiles| * (1 + |leaves|)
  {
    if tiles != [] {
      StepPlaces(leaves);
      DomainLength(leaves, tiles[1..]);
      Times(|tiles|, 1 + |leaves|);
    }
  }

  lemma Enclosed(a: Message, msgs: seq<Message>, z: Message, k: nat, b: Box, leaves: seq<MWStep>)
    requires DomainAt(msgs, k, b, leaves)
    ensures DomainAt([a] + msgs + [z], 1 + k, b, leaves)
  {
    Later([a], msgs, k, b, leaves);
    forall i | 0 <= i < |leaves| ensures IsStep([a] + msgs + [z], 1 + k + 1 + i, leaves[i]) {
      assert IsStep([a] + msgs, 1 + k + 1 + i, leaves[i]);
    }
  }

  lemma PlanPlaces(cfg: Config, c: nat)
    requires Usable(cfg.full, cfg.shape)
    ensures InPlaces(cfg, c, Plan(cfg, c), Tiles(cfg.full, cfg.shape, ALL), Leaves(cfg.nLocal, c, cfg.tree))
  {
    var leaves, tiles := Leaves(cfg.nLocal, c, cfg.tree), Tiles(cfg.full, cfg.shape, ALL);
    var w, msgs, domains := 1 + |leaves|, Plan(cfg, c), DomainMsgs(leaves, tiles);
    DomainLength(leaves, tiles);
    PlanEnds(cfg, c);
    assert msgs == [InitMsg(cfg, c)] + domains + [QUIT_MSG];
    hide Tiles, Leaves, DomainMsgs, Plan, DomainAt;
    forall t | 0 <= t < |tiles| ensures DomainAt(msgs, 1 + t * w, tiles[t], leaves) {
      DomainPlaces(leaves, tiles, t);
      assert t * w >= 0;
      Enclosed(InitMsg(cfg, c), domains, QUIT_MSG, t * w, tiles[t], leaves);
    }
  }

  lemma PlanEnds(cfg: Config, c: nat)
    requires Usable(cfg.full, cfg.shape)
    ensures |Plan(cfg, c)| > 1 && Plan(cfg, c)[0] == InitMsg(cfg, c) && Plan(cfg, c)[|Plan(cfg, c)| - 1] == QUIT_MSG
  {
  }

  /** What a finished run has told a worker: its Init; the work domains in the order of their times, and of their
      frequencies for one time; after each of them the leaves of the tree in order; and quit. */
  lemma ToldInOrder(cfg: Config, chans: seq<Chan>, c: nat)
    returns (tiles: seq<Box>, leaves: seq<MWStep>, paths: seq<seq<nat>>)
    requires cfg.Shaped() && |chans| == cfg.Size() && Usable(cfg.full, cfg.shape) && AllTold(cfg, chans)
    requires c < cfg.Size()
    ensures InPlaces(cfg, c, Main(chans[c].hist), tiles, leaves) && InTreeOrder(cfg.nLocal, c, cfg.tree, leaves, paths)
    ensures forall i, j :: 0 <= i < j < |tiles| ==>
      tiles[i].startTime < tiles[j].startTime ||
      (tiles[i].startTime == tiles[j].startTime && tiles[i].startFreq < tiles[j].startFreq)
  {
    tiles, leaves := Tiles(cfg.full, cfg.shape, ALL), Leaves(cfg.nLocal, c, cfg.tree);
    PlanPlaces(cfg, c);
    paths := LeavesInOrder(cfg.nLocal, c, cfg.tree);
    forall i, j | 0 <= i < j < |tiles|
      ensures tiles[i].startTime < tiles[j].startTime ||
        (tiles[i].startTime == tiles[j].startTime && tiles[i].startFreq < tiles[j].startFreq)
    {
      TilesInOrder(cfg.full, cfg.shape, i, j);
    }
  }
}
