/** What the workers are told in a run. Every worker is told every work domain followed by its leaf steps in
    order; the local workers are told one common message sequence apart from Init. */
module ProtocolTrace {
  import opened MWSteps
  import opened Options
  import opened ObsDomains
  import opened Protocol
  import opened ProtocolSafety

  // ---------------------------------------------------------------- the plan of a run

  /** The leaf steps of a tree that connection c is told, in visiting order: all of them for the n local
      workers, the global ones for the first global worker, none for other global workers. */
  function Leaves(n: nat, c: nat, step: MWStep): seq<MWStep> {
    match step
    case LocalStep(_) => if c < n then [step] else []
    case GlobalStep(_) => if c <= n then [step] else []
    case MultiStep(steps) => LeavesAll(n, c, steps)
  }

  function LeavesAll(n: nat, c: nat, steps: seq<MWStep>): seq<MWStep> {
    if steps == [] then [] else Leaves(n, c, steps[0]) + LeavesAll(n, c, steps[1..])
  }

  function StepMsgs(steps: seq<MWStep>): seq<Message> {
    if steps == [] then [] else [StepMsg(steps[0])] + StepMsgs(steps[1..])
  }

  lemma {:induction false} StepMsgsConcat(a: seq<MWStep>, b: seq<MWStep>)
    ensures StepMsgs(a + b) == StepMsgs(a) + StepMsgs(b)
  {
    if a == [] {
      assert a + b == b;
    } else {
      assert (a + b)[1..] == a[1..] + b;
      StepMsgsConcat(a[1..], b);
    }
  }

  /** The main messages of one work domain after the other. */
  function DomainMsgs(leaves: seq<MWStep>, tiles: seq<Box>): seq<Message> {
    if tiles == [] then [] else [WdMsg(tiles[0])] + (StepMsgs(leaves) + DomainMsgs(leaves, tiles[1..]))
  }

  /** What the worker on connection c is to be told in a whole run, leaving out the rounds of global steps. */
  ghost function Plan(cfg: Config, c: nat): seq<Message>
    requires Usable(cfg.full, cfg.shape)
  {
    [InitMsg(cfg, c)] + DomainMsgs(Leaves(cfg.nLocal, c, cfg.tree), Tiles(cfg.full, cfg.shape, ALL)) + [QUIT_MSG]
  }

  /** The messages of a history that belong to the plan. */
  predicate Planned(m: Message) { m.oper < 0 || m.oper == INIT || m.oper == SETWD || m.oper == STEP }

  function Main(hist: seq<Message>): seq<Message> {
    if hist == [] then []
    else Main(hist[..|hist| - 1]) + if Planned(hist[|hist| - 1]) then [hist[|hist| - 1]] else []
  }

  lemma MainAppend(hist: seq<Message>, m: Message)
    ensures Main(hist + [m]) == Main(hist) + if Planned(m) then [m] else []
  {
    assert (hist + [m])[..|hist|] == hist;
  }

  /** The planned messages a command, a program still has in store for connection c. */
  ghost function OwedCmd(cfg: Config, c: nat, cmd: Cmd): seq<Message>
    requires Usable(cfg.full, cfg.shape)
  {
    var n := cfg.nLocal;
    match cmd
    case InitLocals(i) => if i <= c < n then [InitMsg(cfg, c)] else []
    case InitGlobals(i) => if n + i <= c then [InitMsg(cfg, c)] else []
    case WriteLocals(i, msg) => if i <= c < n && Planned(msg) then [msg] else []
    case WriteGlobals(i, msg) => if n + i <= c && Planned(msg) then [msg] else []
    case WriteGlobal0(msg) => if c == n && Planned(msg) then [msg] else []
    case Visit(step) => StepMsgs(Leaves(n, c, step))
    case VisitAll(steps) => StepMsgs(LeavesAll(n, c, steps))
    case NextDomain(wd) => DomainMsgs(Leaves(n, c, cfg.tree), Tiles(cfg.full, cfg.shape, wd))
    case _ => []
  }

  ghost function Owed(cfg: Config, c: nat, prog: seq<Cmd>): seq<Message>
    requires Usable(cfg.full, cfg.shape)
  {
    if prog == [] then [] else OwedCmd(cfg, c, prog[0]) + Owed(cfg, c, prog[1..])
  }

  lemma {:induction false} OwedConcat(cfg: Config, c: nat, p: seq<Cmd>, q: seq<Cmd>)
    requires Usable(cfg.full, cfg.shape)
    ensures Owed(cfg, c, p + q) == Owed(cfg, c, p) + Owed(cfg, c, q)
  {
    if p == [] {
      assert p + q == q;
    } else {
      assert (p + q)[1..] == p[1..] + q;
      OwedConcat(cfg, c, p[1..], q);
    }
  }

  lemma {:induction false} OwedNothing(cfg: Config, c: nat, cmds: seq<Cmd>)
    requires Usable(cfg.full, cfg.shape)
    requires forall k :: 0 <= k < |cmds| ==> OwedCmd(cfg, c, cmds[k]) == []
    ensures Owed(cfg, c, cmds) == []
  {
    if cmds != [] { OwedNothing(cfg, c, cmds[1..]); }
  }

  /** Only the first two commands owe something. */
  lemma OwedFirst(cfg: Config, c: nat, cmds: seq<Cmd>)
    requires Usable(cfg.full, cfg.shape) && |cmds| >= 2
    requires forall k :: 2 <= k < |cmds| ==> OwedCmd(cfg, c, cmds[k]) == []
    ensures Owed(cfg, c, cmds) == OwedCmd(cfg, c, cmds[0]) + OwedCmd(cfg, c, cmds[1])
  {
    hide OwedCmd;
    OwedNothing(cfg, c, cmds[2..]);
    assert cmds[1..][1..] == cmds[2..] && cmds[1..][0] == cmds[1];
    assert Owed(cfg, c, cmds[1..]) == OwedCmd(cfg, c, cmds[1]) + [];
  }

  lemma VisitOwes(cfg: Config, c: nat, step: MWStep)
    requires cfg.Shaped() && Usable(cfg.full, cfg.shape) && c < cfg.Size()
    ensures Owed(cfg, c, VisitStep(step)) == StepMsgs(Leaves(cfg.nLocal, c, step))
  {
    match step
    case LocalStep(_) => LeafOwes(cfg, c, step);
    case GlobalStep(_) => LeafOwes(cfg, c, step);
    case MultiStep(steps) => Owed1(cfg, c, VisitAll(steps));
  }

  lemma LeafOwes(cfg: Config, c: nat, step: MWStep)
    requires cfg.Shaped() && Usable(cfg.full, cfg.shape) && c < cfg.Size() && !step.MultiStep?
    ensures Owed(cfg, c, VisitStep(step)) == StepMsgs(Leaves(cfg.nLocal, c, step))
  {
    OwedFirst(cfg, c, VisitStep(step));
    assert StepMsgs([step]) == [StepMsg(step)];
  }

  lemma NextOwes(cfg: Config, c: nat, wd: Box)
    requires cfg.Shaped() && Usable(cfg.full, cfg.shape) && c < cfg.Size()
    ensures Owed(cfg, c, Act(cfg, NextDomain(wd)).next) == OwedCmd(cfg, c, NextDomain(wd))
  {
    hide Leaves, Owed, ProcessDomain, StepMsgs;
    if Next(cfg.full, cfg.shape, wd).Some? {
      OwedDomain(cfg, c, Next(cfg.full, cfg.shape, wd).value);
    } else {
      OwedNothing(cfg, c, []);
    }
  }

  /** An internal step unfolds a command into commands that owe the same. */
  lemma TauOwes(cfg: Config, c: nat, cmd: Cmd)
    requires cfg.Shaped() && Usable(cfg.full, cfg.shape) && c < cfg.Size()
    requires Act(cfg, cmd).Tau?
    ensures Owed(cfg, c, Act(cfg, cmd).next) == OwedCmd(cfg, c, cmd)
  {
    hide Tiles, DomainMsgs, Leaves, StepMsgs, Next;
    match cmd
    case Visit(step) => VisitOwes(cfg, c, step);
    case VisitAll(steps) => AllOwes(cfg, c, steps);
    case NextDomain(wd) => NextOwes(cfg, c, wd);
    case Iterate => OwedNothing(cfg, c, Round());
    case TestConverged(msg) => OwedNothing(cfg, c, Act(cfg, cmd).next);
    case _ => OwedNothing(cfg, c, []);
  }

  lemma AllOwes(cfg: Config, c: nat, steps: seq<MWStep>)
    requires cfg.Shaped() && Usable(cfg.full, cfg.shape) && c < cfg.Size()
    ensures Owed(cfg, c, Act(cfg, VisitAll(steps)).next) == StepMsgs(LeavesAll(cfg.nLocal, c, steps))
  {
    if steps != [] { OwedAll(cfg, c, steps); }
  }

  lemma OwedAll(cfg: Config, c: nat, steps: seq<MWStep>)
    requires Usable(cfg.full, cfg.shape) && steps != []
    ensures Owed(cfg, c, [Visit(steps[0]), VisitAll(steps[1..])]) == StepMsgs(LeavesAll(cfg.nLocal, c, steps))
  {
    OwedFirst(cfg, c, [Visit(steps[0]), VisitAll(steps[1..])]);
    StepMsgsConcat(Leaves(cfg.nLocal, c, steps[0]), LeavesAll(cfg.nLocal, c, steps[1..]));
  }

  lemma Owed1(cfg: Config, c: nat, cmd: Cmd)
    requires Usable(cfg.full, cfg.shape)
    ensures Owed(cfg, c, [cmd]) == OwedCmd(cfg, c, cmd)
  {
  }

  lemma OwedDomain(cfg: Config, c: nat, b: Box)
    requires Usable(cfg.full, cfg.shape) && c < cfg.Size()
    ensures Owed(cfg, c, ProcessDomain(cfg, b))
         == DomainMsgs(Leaves(cfg.nLocal, c, cfg.tree), [b] + Tiles(cfg.full, cfg.shape, b))
  {
    hide Tiles, Leaves;
    var head := [WriteLocals(0, WdMsg(b)), WriteGlobals(0, WdMsg(b)), ReadLocals(0), ReadGlobals(0)];
    var tail := [Visit(cfg.tree), NextDomain(b)];
    OwedFirst(cfg, c, head);
    OwedFirst(cfg, c, tail);
    OwedConcat(cfg, c, head, tail);
    assert ProcessDomain(cfg, b) == head + tail;
    assert ([b] + Tiles(cfg.full, cfg.shape, b))[1..] == Tiles(cfg.full, cfg.shape, b);
  }

  // ---------------------------------------------------------------- conservation

  /** Told and owed together are always the plan. */
  ghost predicate OnPlan(cfg: Config, s: Sys)
    requires WellFormed(cfg, s) && Usable(cfg.full, cfg.shape)
  {
    forall c :: 0 <= c < cfg.Size() ==> Main(s.chans[c].hist) + Owed(cfg, c, s.prog) == Plan(cfg, c)
  }

  lemma StartOnPlan(cfg: Config)
    requires cfg.Valid() && Usable(cfg.full, cfg.shape)
    ensures OnPlan(cfg, Start(cfg))
  {
    forall c | 0 <= c < cfg.Size() ensures Owed(cfg, c, Program()) == Plan(cfg, c) {
      ProgramOwes(cfg, c);
    }
  }

  lemma ProgramOwes(cfg: Config, c: nat)
    requires cfg.Shaped() && Usable(cfg.full, cfg.shape) && c < cfg.Size()
    ensures Owed(cfg, c, Program()) == Plan(cfg, c)
  {
    hide Tiles, DomainMsgs, InitMsg, Leaves;
    OwedFirst(cfg, c, InitProgram());
    Owed1(cfg, c, NextDomain(ALL));
    OwedFirst(cfg, c, QuitProgram());
    OwedConcat(cfg, c, InitProgram(), [NextDomain(ALL)]);
    OwedConcat(cfg, c, InitProgram() + [NextDomain(ALL)], QuitProgram());
  }

  lemma RecvOwes(cfg: Config, c: nat, cmd: Cmd, msg: Message)
    requires cfg.Shaped() && Usable(cfg.full, cfg.shape) && c < cfg.Size()
    requires Act(cfg, cmd).Recv?
    requires cmd.ReadSolution? ==> LocalSilent(msg.oper)
    requires cmd.ForwardReplies? ==> GlobalSilent(msg.oper)
    ensures Owed(cfg, c, AfterRecv(cmd, msg)) == OwedCmd(cfg, c, cmd) == []
  {
    OwedNothing(cfg, c, AfterRecv(cmd, msg));
  }

  /** A write moves a planned message from what is owed to what has been told. */
  lemma SendOwes(cfg: Config, c: nat, cmd: Cmd)
    requires cfg.Shaped() && Usable(cfg.full, cfg.shape) && c < cfg.Size()
    requires Act(cfg, cmd).Send?
    ensures var Send(d, msg, next) := Act(cfg, cmd);
      OwedCmd(cfg, c, cmd) == (if c == d && Planned(msg) then [msg] else []) + Owed(cfg, c, next)
  {
    var Send(d, msg, next) := Act(cfg, cmd);
    if next != [] { Owed1(cfg, c, next[0]); }
  }

  lemma StepOnPlan(cfg: Config, s: Sys, a: Abs)
    requires cfg.Valid() && Usable(cfg.full, cfg.shape) && Match(cfg, a, s) && OnPlan(cfg, s)
    ensures SyncStep(cfg, s).Some? && OnPlan(cfg, SyncStep(cfg, s).value)
  {
    var b := SyncStepSafe(cfg, s, a);
    if s.prog != [] {
      forall c | 0 <= c < cfg.Size()
        ensures Main(SyncStep(cfg, s).value.chans[c].hist) + Owed(cfg, c, SyncStep(cfg, s).value.prog) == Plan(cfg, c)
      {
        StepOnPlanOf(cfg, s, a, c);
      }
    }
  }

  lemma StepOnPlanOf(cfg: Config, s: Sys, a: Abs, c: nat)
    requires cfg.Valid() && Usable(cfg.full, cfg.shape) && Match(cfg, a, s) && s.prog != [] && c < cfg.Size()
    requires Main(s.chans[c].hist) + Owed(cfg, c, s.prog) == Plan(cfg, c) && SyncStep(cfg, s).Some?
    ensures Main(SyncStep(cfg, s).value.chans[c].hist) + Owed(cfg, c, SyncStep(cfg, s).value.prog) == Plan(cfg, c)
  {
    hide Plan;
    var cmd, rest := s.prog[0], s.prog[1..];
    match Act(cfg, cmd)
    case Tau(next) =>
      TauOwes(cfg, c, cmd);
      OwedConcat(cfg, c, next, rest);
    case Send(d, msg, next) => SendOnPlan(cfg, s, c);
    case Recv(d) =>
      assert Fits(cfg, s, a, d);
      RecvOwes(cfg, c, cmd, s.chans[d].outbox[0]);
      OwedConcat(cfg, c, AfterRecv(cmd, s.chans[d].outbox[0]), rest);
  }

  /** What MatchChan says of a reply that is to be forwarded. */
  ghost predicate Fits(cfg: Config, s: Sys, a: Abs, d: nat)
    requires cfg.Shaped() && Match(cfg, a, s) && d < cfg.Size()
  {
    MatchChan(cfg, d, a.occ[d], s.chans[d]) && (a.occ[d].Fwd? ==> FitsFwd(cfg, d, s.chans[d].outbox[0]))
  }

  lemma SendOnPlan(cfg: Config, s: Sys, c: nat)
    requires WellFormed(cfg, s) && Usable(cfg.full, cfg.shape) && s.prog != [] && c < cfg.Size()
    requires Act(cfg, s.prog[0]).Send? && SyncStep(cfg, s).Some?
    ensures Main(SyncStep(cfg, s).value.chans[c].hist) + Owed(cfg, c, SyncStep(cfg, s).value.prog)
         == Main(s.chans[c].hist) + Owed(cfg, c, s.prog)
  {
    hide OwedCmd, Act, Handle, Main, Planned;
    var Send(d, msg, next) := Act(cfg, s.prog[0]);
    var rest := s.prog[1..];
    var now := if c == d && Planned(msg) then [msg] else [];
    SendOwes(cfg, c, s.prog[0]);
    OwedConcat(cfg, c, next, rest);
    MainAppend(s.chans[d].hist, msg);
    assert SyncStep(cfg, s).value.prog == next + rest;
    assert Main(SyncStep(cfg, s).value.chans[c].hist) == Main(s.chans[c].hist) + now;
    Regroup(Main(s.chans[c].hist), now, Owed(cfg, c, next), Owed(cfg, c, rest));
  }

  lemma Regroup(a: seq<Message>, b: seq<Message>, c: seq<Message>, d: seq<Message>)
    ensures (a + b) + (c + d) == a + ((b + c) + d)
  {
  }

  lemma {:induction false} RunOnPlanFrom(cfg: Config, s: Sys, a: Abs, k: nat) returns (b: Abs)
    requires WellFormed(cfg, s)
    requires cfg.Valid() && Usable(cfg.full, cfg.shape) && Match(cfg, a, s) && OnPlan(cfg, s)
    ensures SyncRun(cfg, s, k).Some?
    ensures Match(cfg, b, SyncRun(cfg, s, k).value) && OnPlan(cfg, SyncRun(cfg, s, k).value)
  {
    hide SyncStep, Match, OnPlan, Config.Valid, Start, NextAbs;
    b := a;
    if k > 0 {
      b := RunOnPlanFrom(cfg, s, a, k - 1);
      StepOnPlan(cfg, SyncRun(cfg, s, k - 1).value, b);
      b := SyncStepSafe(cfg, SyncRun(cfg, s, k - 1).value, b);
    }
  }

  /** At every moment of every run, what a worker has been told and what the master still has in store for
      it make up its plan: Init, every work domain with its leaf steps in order, quit. */
  lemma RunOnPlan(cfg: Config, k: nat)
    requires cfg.Valid() && Usable(cfg.full, cfg.shape)
    ensures SyncRun(cfg, Start(cfg), k).Some? && OnPlan(cfg, SyncRun(cfg, Start(cfg), k).value)
  {
    StartOnPlan(cfg);
    var a := StartMatches(cfg);
    a := RunOnPlanFrom(cfg, Start(cfg), a, k);
  }

  /** A finished run has told each worker exactly its plan. */
  lemma FinishedRunToldPlan(cfg: Config, k: nat, s: Sys, c: nat)
    requires cfg.Valid() && Usable(cfg.full, cfg.shape)
    requires SyncRun(cfg, Start(cfg), k) == Some(s) && s.prog == [] && c < cfg.Size()
    ensures Main(s.chans[c].hist) == Plan(cfg, c)
  {
    RunOnPlan(cfg, k);
  }

  // ---------------------------------------------------------------- equal traces

  /** What the loop at hand still has to write to local worker c. */
  function Lag(cfg: Config, prog: seq<Cmd>, c: nat): seq<Message> {
    if prog == [] then []
    else match prog[0]
      case InitLocals(i) => if i <= c then [InitMsg(cfg, c)] else []
      case WriteLocals(i, msg) => if i <= c then [msg] else []
      case _ => []
  }

  /** Only the first command can be a loop that has begun. */
  predicate NotBegun(cmd: Cmd) { !cmd.InitLocals? && (cmd.WriteLocals? ==> cmd.i == 0) }

  predicate OneLoop(prog: seq<Cmd>) { forall k :: 1 <= k < |prog| ==> NotBegun(prog[k]) }

  /** The history of local worker c, had the loop at hand reached it. */
  function Caught(cfg: Config, s: Sys, c: nat): seq<Message>
    requires WellFormed(cfg, s) && c < cfg.nLocal
  {
    s.chans[c].hist + Lag(cfg, s.prog, c)
  }

  /** All local workers are told the same after Init. */
  ghost predicate SameTraces(cfg: Config, s: Sys)
    requires WellFormed(cfg, s)
  {
    && OneLoop(s.prog)
    && exists common: seq<Message> :: TraceIs(cfg, s, common)
  }

  ghost predicate TraceIs(cfg: Config, s: Sys, common: seq<Message>)
    requires WellFormed(cfg, s)
  {
    forall c :: 0 <= c < cfg.nLocal ==> Caught(cfg, s, c) == [InitMsg(cfg, c)] + common
  }

  /** The message of a loop that is about to begin. */
  function NewWrite(prog: seq<Cmd>): seq<Message> {
    if prog != [] && prog[0].WriteLocals? && prog[0].i == 0 then [prog[0].msg] else []
  }

  /** An internal step or a read begins at most one loop, a write goes on in its own. */
  lemma TauLoops(cfg: Config, prog: seq<Cmd>)
    requires cfg.Shaped() && prog != [] && OneLoop(prog) && Act(cfg, prog[0]).Tau?
    ensures var p := Act(cfg, prog[0]).next + prog[1..];
      OneLoop(p) && forall c :: 0 <= c < cfg.nLocal ==> Lag(cfg, prog, c) == [] && Lag(cfg, p, c) == NewWrite(p)
  {
    var next, rest := Act(cfg, prog[0]).next, prog[1..];
    assert forall k :: 0 <= k < |rest| ==> rest[k] == prog[k + 1];
    assert forall k :: 0 <= k < |next| ==> NotBegun(next[k]);
  }

  lemma SendLoops(cfg: Config, prog: seq<Cmd>)
    requires cfg.Shaped() && prog != [] && OneLoop(prog) && Act(cfg, prog[0]).Send?
    ensures var Send(d, msg, next) := Act(cfg, prog[0]);
      var p := next + prog[1..];
      OneLoop(p) && forall c :: 0 <= c < cfg.nLocal ==>
        (if c == d then [msg] else []) + Lag(cfg, p, c)
        == Lag(cfg, prog, c) + if next == [] then NewWrite(p) else []
  {
    var rest := prog[1..];
    assert forall k :: 0 <= k < |rest| ==> rest[k] == prog[k + 1];
  }

  lemma RecvLoops(cfg: Config, prog: seq<Cmd>, msg: Message)
    requires cfg.Shaped() && prog != [] && OneLoop(prog) && Act(cfg, prog[0]).Recv?
    ensures var p := AfterRecv(prog[0], msg) + prog[1..];
      OneLoop(p) && forall c :: 0 <= c < cfg.nLocal ==> Lag(cfg, prog, c) == [] && Lag(cfg, p, c) == NewWrite(p)
  {
    var next, rest := AfterRecv(prog[0], msg), prog[1..];
    assert forall k :: 0 <= k < |rest| ==> rest[k] == prog[k + 1];
    assert forall k :: 0 <= k < |next| ==> NotBegun(next[k]);
  }

  /** A step extends all caught-up traces alike. */
  lemma StepTraces(cfg: Config, s: Sys, common: seq<Message>) returns (longer: seq<Message>)
    requires WellFormed(cfg, s) && OneLoop(s.prog) && TraceIs(cfg, s, common) && SyncStep(cfg, s).Some?
    ensures OneLoop(SyncStep(cfg, s).value.prog) && TraceIs(cfg, SyncStep(cfg, s).value, longer)
  {
    var t := SyncStep(cfg, s).value;
    if s.prog == [] { return common; }
    var ext := NewWrite(t.prog);
    match Act(cfg, s.prog[0]) {
      case Tau(_) => TauLoops(cfg, s.prog);
      case Send(d, msg, next) =>
        SendLoops(cfg, s.prog);
        ext := if next == [] then ext else [];
      case Recv(d) => RecvLoops(cfg, s.prog, s.chans[d].outbox[0]);
    }
    longer := common + ext;
    TracesGrow(cfg, s, t, common, ext);
  }

  lemma TracesGrow(cfg: Config, s: Sys, t: Sys, common: seq<Message>, ext: seq<Message>)
    requires WellFormed(cfg, s) && WellFormed(cfg, t) && TraceIs(cfg, s, common)
    requires forall c :: 0 <= c < cfg.nLocal ==> Caught(cfg, t, c) == Caught(cfg, s, c) + ext
    ensures TraceIs(cfg, t, common + ext)
  {
  }

  lemma StartSameTraces(cfg: Config)
    requires cfg.Shaped()
    ensures OneLoop(Start(cfg).prog) && TraceIs(cfg, Start(cfg), [])
  {
  }

  lemma {:induction false} RunSameTracesFrom(cfg: Config, s: Sys, common: seq<Message>, k: nat)
    returns (longer: seq<Message>)
    requires WellFormed(cfg, s) && OneLoop(s.prog) && TraceIs(cfg, s, common)
    requires SyncRun(cfg, s, k).Some?
    ensures OneLoop(SyncRun(cfg, s, k).value.prog) && TraceIs(cfg, SyncRun(cfg, s, k).value, longer)
  {
    longer := common;
    if k > 0 {
      longer := RunSameTracesFrom(cfg, s, common, k - 1);
      longer := StepTraces(cfg, SyncRun(cfg, s, k - 1).value, longer);
    }
  }

  /** At every moment of every run, also one that never converges, all local workers have been told
      the same after Init, but for the message being written. */
  lemma RunSameTraces(cfg: Config, k: nat)
    requires cfg.Valid()
    ensures SyncRun(cfg, Start(cfg), k).Some? && SameTraces(cfg, SyncRun(cfg, Start(cfg), k).value)
  {
    var a := SyncRunSafe(cfg, k);
    StartSameTraces(cfg);
    var common := RunSameTracesFrom(cfg, Start(cfg), [], k);
  }
}
