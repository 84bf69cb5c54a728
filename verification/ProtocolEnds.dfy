/** Every run ends if the global worker converges, over in-memory connections and in every interleaving over
    FIFO connections. */
module ProtocolEnds {
  import opened MWSteps
  import opened Options
  import opened ObsDomains
  import opened Protocol
  import opened ProtocolSafety
  import opened ProtocolTrace
  import opened ProtocolSolve
  import opened ProtocolAsync
  import opened ProtocolOutcome
  import opened ProtocolSteps

  /** After k steps the program is left to be done and the first global worker has received h. */
  ghost predicate Reaches(cfg: Config, k: nat, prog: seq<Cmd>, h: seq<Message>)
    requires cfg.Shaped()
  {
    var r := SyncRun(cfg, Start(cfg), k);
    r.Some? && r.value.prog == prog && r.value.chans[cfg.nLocal].hist == h
  }

  // ---------------------------------------------------------------- single steps

  lemma TauReaches(cfg: Config, k: nat, cmd: Cmd, rest: seq<Cmd>, h: seq<Message>)
    requires cfg.Valid() && Reaches(cfg, k, [cmd] + rest, h) && Act(cfg, cmd).Tau?
    ensures Reaches(cfg, k + 1, Act(cfg, cmd).next + rest, h)
  {
    var s := SyncRun(cfg, Start(cfg), k).value;
    TauState(cfg, k, cmd, rest, Act(cfg, cmd).next, s.chans);
  }

  /** Only a write to the first global worker adds to what that has received. */
  lemma SendReaches(cfg: Config, k: nat, cmd: Cmd, rest: seq<Cmd>, h: seq<Message>)
    requires cfg.Valid() && Reaches(cfg, k, [cmd] + rest, h) && Act(cfg, cmd).Send?
    ensures var Send(c, msg, next) := Act(cfg, cmd);
      Reaches(cfg, k + 1, next + rest, if c == cfg.nLocal then h + [msg] else h)
  {
    hide SyncRun, Act, Handle;
    var s := SyncRun(cfg, Start(cfg), k).value;
    var Send(c, msg, next) := Act(cfg, cmd);
    SendState(cfg, k, cmd, rest, c, msg, next, s.chans);
  }

  lemma RecvReaches(cfg: Config, k: nat, cmd: Cmd, rest: seq<Cmd>, h: seq<Message>) returns (msg: Message)
    requires cfg.Valid() && Reaches(cfg, k, [cmd] + rest, h) && Act(cfg, cmd).Recv?
    ensures Reaches(cfg, k + 1, AfterRecv(cmd, msg) + rest, h)
    ensures cmd.ForwardReplies? ==> GlobalSilent(msg.oper)
    ensures cmd.ReadSolution? ==>
      |SyncRun(cfg, Start(cfg), k).value.chans| == cfg.Size() &&
      SyncRun(cfg, Start(cfg), k).value.chans[cfg.nLocal].outbox == [msg]
  {
    hide SyncRun, AfterRecv;
    var s := SyncRun(cfg, Start(cfg), k).value;
    var c := Act(cfg, cmd).c;
    RecvState(cfg, k, cmd, rest, c, s.chans);
    msg := s.chans[c].outbox[0];
  }

  /** The solution read is the answer to the GlobalExec told last. */
  lemma SolutionRead(cfg: Config, k: nat, rest: seq<Cmd>, h: seq<Message>) returns (msg: Message)
    requires cfg.Valid() && Reaches(cfg, k, [ReadSolution] + rest, h + [EXEC_MSG])
    ensures Reaches(cfg, k + 1, [WriteLocals(0, msg), TestConverged(msg)] + rest, h + [EXEC_MSG])
    ensures Converged(msg) <==> SolvedAt(cfg.procs[cfg.nLocal], h)
  {
    msg := RecvReaches(cfg, k, ReadSolution, rest, h + [EXEC_MSG]);
    var a := RunSolves(cfg, k);
    JudgeAppend(cfg.procs[cfg.nLocal], h, EXEC_MSG);
    hide Judge, Settles, SyncRun;
    HeadReady(cfg, [ReadSolution] + rest, a);
  }

  // ---------------------------------------------------------------- loops over workers

  predicate IsLoop(cmd: Cmd) {
    cmd.InitLocals? || cmd.InitGlobals? || cmd.ReadLocals? || cmd.ReadGlobals? || cmd.WriteLocals? || cmd.WriteGlobals?
  }

  function Left(cfg: Config, cmd: Cmd): nat
    requires IsLoop(cmd)
  {
    var bound := if cmd.InitLocals? || cmd.ReadLocals? || cmd.WriteLocals? then cfg.nLocal else cfg.nGlobal;
    if cmd.i < bound then bound - cmd.i else 0
  }

  lemma {:induction false} LoopEnds(cfg: Config, k: nat, cmd: Cmd, rest: seq<Cmd>, h: seq<Message>)
    returns (l: nat, h2: seq<Message>)
    requires cfg.Valid() && IsLoop(cmd) && Reaches(cfg, k, [cmd] + rest, h)
    ensures Reaches(cfg, l, rest, h2) && (cmd.WriteLocals? || cmd.ReadLocals? ==> h2 == h)
    decreases Left(cfg, cmd)
  {
    hide Reaches, SyncRun;
    match Act(cfg, cmd) {
      case Tau(_) =>
        TauReaches(cfg, k, cmd, rest, h);
        l, h2 := k + 1, h;
        assert [] + rest == rest;
      case Send(c, msg, next) =>
        SendReaches(cfg, k, cmd, rest, h);
        l, h2 := LoopEnds(cfg, k + 1, next[0], rest, if c == cfg.nLocal then h + [msg] else h);
      case Recv(_) =>
        var msg := RecvReaches(cfg, k, cmd, rest, h);
        l, h2 := LoopEnds(cfg, k + 1, AfterRecv(cmd, msg)[0], rest, h);
    }
  }

  ghost predicate Silent(rs: seq<Message>) { forall m :: m in rs ==> GlobalSilent(m.oper) }

  /** Forwarding the replies adds them, and nothing else, to what the global worker has received. */
  lemma {:induction false} ForwardEnds(cfg: Config, k: nat, i: nat, rest: seq<Cmd>, h: seq<Message>)
    returns (l: nat, rs: seq<Message>)
    requires cfg.Valid() && Reaches(cfg, k, [ForwardReplies(i)] + rest, h)
    ensures Silent(rs) && Reaches(cfg, l, rest, h + rs)
    decreases if i < cfg.nLocal then cfg.nLocal - i else 0
  {
    hide Reaches, SyncRun, GlobalSilent;
    if i < cfg.nLocal {
      var msg := RecvReaches(cfg, k, ForwardReplies(i), rest, h);
      var more := [ForwardReplies(i + 1)] + rest;
      assert AfterRecv(ForwardReplies(i), msg) + rest == [WriteGlobal0(msg)] + more;
      SendReaches(cfg, k + 1, WriteGlobal0(msg), more, h);
      assert [] + more == more;
      l, rs := ForwardEnds(cfg, k + 2, i + 1, rest, h + [msg]);
      rs := [msg] + rs;
      assert h + [msg] + rs[1..] == h + rs;
    } else {
      TauReaches(cfg, k, ForwardReplies(i), rest, h);
      assert [] + rest == rest && h + [] == h;
      l, rs := k + 1, [];
    }
  }

  // ---------------------------------------------------------------- the solve loop

  /** One pass of the loop. */
  lemma RoundEnds(cfg: Config, k: nat, rest: seq<Cmd>, h: seq<Message>)
    returns (l: nat, rs: seq<Message>, msg: Message)
    requires cfg.Valid() && Reaches(cfg, k, [Iterate] + rest, h)
    ensures Silent(rs) && Reaches(cfg, l, [TestConverged(msg)] + rest, h + rs + [EXEC_MSG])
    ensures Converged(msg) <==> SolvedAt(cfg.procs[cfg.nLocal], h + rs)
  {
    hide Reaches, SyncRun, GlobalSilent, SolvedAt;
    TauReaches(cfg, k, Iterate, rest, h);
    var exec := [WriteGlobal0(EXEC_MSG)] + ([ReadSolution] + rest);
    assert Round() + rest == [WriteLocals(0, INFO_MSG)] + ([ForwardReplies(0)] + exec);
    var h1;
    l, h1 := LoopEnds(cfg, k + 1, WriteLocals(0, INFO_MSG), [ForwardReplies(0)] + exec, h);
    l, rs := ForwardEnds(cfg, l, 0, exec, h);
    SendReaches(cfg, l, WriteGlobal0(EXEC_MSG), [ReadSolution] + rest, h + rs);
    assert [] + ([ReadSolution] + rest) == [ReadSolution] + rest;
    msg := SolutionRead(cfg, l + 1, rest, h + rs);
    assert [WriteLocals(0, msg), TestConverged(msg)] + rest == [WriteLocals(0, msg)] + ([TestConverged(msg)] + rest);
    l, h1 := LoopEnds(cfg, l + 2, WriteLocals(0, msg), [TestConverged(msg)] + rest, h + rs + [EXEC_MSG]);
  }

  /** The loop after a solution that has not converged, asked for after the history asked. */
  lemma {:induction false} IterationEnds(cfg: Config, rank: seq<Message> -> nat, k: nat, rest: seq<Cmd>,
                                         asked: seq<Message>)
    returns (l: nat, h2: seq<Message>)
    requires cfg.Valid() && Converges(cfg.procs[cfg.nLocal], rank)
    requires !SolvedAt(cfg.procs[cfg.nLocal], asked) && Reaches(cfg, k, [Iterate] + rest, asked + [EXEC_MSG])
    ensures Reaches(cfg, l, rest, h2)
    decreases rank(asked)
  {
    hide Reaches, SyncRun, GlobalSilent, SolvedAt;
    var rs, msg;
    l, rs, msg := RoundEnds(cfg, k, rest, asked + [EXEC_MSG]);
    var next := asked + [EXEC_MSG] + rs;
    TauReaches(cfg, l, TestConverged(msg), rest, next + [EXEC_MSG]);
    if Converged(msg) {
      assert [] + rest == rest;
      return l + 1, next + [EXEC_MSG];
    }
    l, h2 := IterationEnds(cfg, rank, l + 1, rest, next);
  }

  lemma SolveEnds(cfg: Config, rank: seq<Message> -> nat, k: nat, rest: seq<Cmd>, h: seq<Message>)
    returns (l: nat, h2: seq<Message>)
    requires cfg.Valid() && Converges(cfg.procs[cfg.nLocal], rank) && Reaches(cfg, k, [Iterate] + rest, h)
    ensures Reaches(cfg, l, rest, h2)
  {
    hide Reaches, SyncRun, GlobalSilent, SolvedAt, Converges;
    var rs, msg;
    l, rs, msg := RoundEnds(cfg, k, rest, h);
    TauReaches(cfg, l, TestConverged(msg), rest, h + rs + [EXEC_MSG]);
    if Converged(msg) {
      assert [] + rest == rest;
      return l + 1, h + rs + [EXEC_MSG];
    }
    l, h2 := IterationEnds(cfg, rank, l + 1, rest, h + rs);
  }

  // ---------------------------------------------------------------- steps and work domains

  lemma {:induction false} VisitEnds(cfg: Config, rank: seq<Message> -> nat, k: nat, step: MWStep, rest: seq<Cmd>,
                                     h: seq<Message>)
    returns (l: nat, h2: seq<Message>)
    requires cfg.Valid() && Converges(cfg.procs[cfg.nLocal], rank) && Reaches(cfg, k, [Visit(step)] + rest, h)
    ensures Reaches(cfg, l, rest, h2)
    decreases step, 1
  {
    hide Reaches, SyncRun, Converges;
    TauReaches(cfg, k, Visit(step), rest, h);
    var m := StepMsg(step);
    match step
    case LocalStep(_) =>
      assert VisitStep(step) + rest == [WriteLocals(0, m)] + ([ReadLocals(0)] + rest);
      l, h2 := LoopEnds(cfg, k + 1, WriteLocals(0, m), [ReadLocals(0)] + rest, h);
      l, h2 := LoopEnds(cfg, l, ReadLocals(0), rest, h2);
    case GlobalStep(_) => l, h2 := GlobalEnds(cfg, rank, k + 1, step, rest, h);
    case MultiStep(steps) => l, h2 := AllEnd(cfg, rank, k + 1, steps, rest, h);
  }

  lemma GlobalEnds(cfg: Config, rank: seq<Message> -> nat, k: nat, step: MWStep, rest: seq<Cmd>, h: seq<Message>)
    returns (l: nat, h2: seq<Message>)
    requires cfg.Valid() && Converges(cfg.procs[cfg.nLocal], rank) && step.GlobalStep?
    requires Reaches(cfg, k, VisitStep(step) + rest, h)
    ensures Reaches(cfg, l, rest, h2)
  {
    hide Reaches, SyncRun, Converges, GlobalSilent;
    var m := StepMsg(step);
    var loop := [Iterate] + rest;
    var answer := [ReadGlobal0] + ([ForwardReplies(0)] + loop);
    assert VisitStep(step) + rest == [WriteLocals(0, m)] + ([WriteGlobal0(m)] + answer);
    l, h2 := LoopEnds(cfg, k, WriteLocals(0, m), [WriteGlobal0(m)] + answer, h);
    SendReaches(cfg, l, WriteGlobal0(m), answer, h2);
    assert [] + answer == answer;
    var msg := RecvReaches(cfg, l + 1, ReadGlobal0, [ForwardReplies(0)] + loop, h2 + [m]);
    assert [] + ([ForwardReplies(0)] + loop) == [ForwardReplies(0)] + loop;
    var rs;
    l, rs := ForwardEnds(cfg, l + 2, 0, loop, h2 + [m]);
    l, h2 := SolveEnds(cfg, rank, l, rest, h2 + [m] + rs);
  }

  lemma {:induction false} AllEnd(cfg: Config, rank: seq<Message> -> nat, k: nat, steps: seq<MWStep>, rest: seq<Cmd>,
                                  h: seq<Message>)
    returns (l: nat, h2: seq<Message>)
    requires cfg.Valid() && Converges(cfg.procs[cfg.nLocal], rank) && Reaches(cfg, k, [VisitAll(steps)] + rest, h)
    ensures Reaches(cfg, l, rest, h2)
    decreases steps, 0
  {
    hide Reaches, SyncRun, Converges;
    TauReaches(cfg, k, VisitAll(steps), rest, h);
    if steps == [] {
      assert [] + rest == rest;
      return k + 1, h;
    }
    var more := [VisitAll(steps[1..])] + rest;
    assert [Visit(steps[0]), VisitAll(steps[1..])] + rest == [Visit(steps[0])] + more;
    l, h2 := VisitEnds(cfg, rank, k + 1, steps[0], more, h);
    l, h2 := AllEnd(cfg, rank, l, steps[1..], rest, h2);
  }

  lemma {:induction false} DomainsEnd(cfg: Config, rank: seq<Message> -> nat, k: nat, wd: Box, rest: seq<Cmd>,
                                      h: seq<Message>)
    returns (l: nat, h2: seq<Message>)
    requires cfg.Valid() && Converges(cfg.procs[cfg.nLocal], rank) && Usable(cfg.full, cfg.shape)
    requires Reaches(cfg, k, [NextDomain(wd)] + rest, h)
    ensures Reaches(cfg, l, rest, h2)
    decreases TimeLeft(cfg.full, cfg.shape, wd), FreqLeft(cfg.full, cfg.shape, wd)
  {
    hide Reaches, SyncRun, Converges, TimeLeft, FreqLeft, Next;
    TauReaches(cfg, k, NextDomain(wd), rest, h);
    if Next(cfg.full, cfg.shape, wd).None? {
      assert [] + rest == rest;
      return k + 1, h;
    }
    var b := Next(cfg.full, cfg.shape, wd).value;
    NextDecreases(cfg.full, cfg.shape, wd);
    l, h2 := DomainEnds(cfg, rank, k + 1, b, rest, h);
    l, h2 := DomainsEnd(cfg, rank, l, b, rest, h2);
  }

  lemma DomainEnds(cfg: Config, rank: seq<Message> -> nat, k: nat, b: Box, rest: seq<Cmd>, h: seq<Message>)
    returns (l: nat, h2: seq<Message>)
    requires cfg.Valid() && Converges(cfg.procs[cfg.nLocal], rank) && Reaches(cfg, k, ProcessDomain(cfg, b) + rest, h)
    ensures Reaches(cfg, l, [NextDomain(b)] + rest, h2)
  {
    hide Reaches, SyncRun, Converges;
    var m, steps := WdMsg(b), [Visit(cfg.tree)] + ([NextDomain(b)] + rest);
    var replies := [ReadLocals(0)] + ([ReadGlobals(0)] + steps);
    assert ProcessDomain(cfg, b) + rest == [WriteLocals(0, m)] + ([WriteGlobals(0, m)] + replies);
    l, h2 := LoopEnds(cfg, k, WriteLocals(0, m), [WriteGlobals(0, m)] + replies, h);
    l, h2 := LoopEnds(cfg, l, WriteGlobals(0, m), replies, h2);
    l, h2 := LoopEnds(cfg, l, ReadLocals(0), [ReadGlobals(0)] + steps, h2);
    l, h2 := LoopEnds(cfg, l, ReadGlobals(0), steps, h2);
    l, h2 := VisitEnds(cfg, rank, l, cfg.tree, [NextDomain(b)] + rest, h2);
  }

  /** The master is done after some number of steps. */
  lemma MasterEnds(cfg: Config, rank: seq<Message> -> nat) returns (l: nat)
    requires cfg.Valid() && Converges(cfg.procs[cfg.nLocal], rank) && Usable(cfg.full, cfg.shape)
    ensures SyncRun(cfg, Start(cfg), l).Some? && SyncRun(cfg, Start(cfg), l).value.prog == []
  {
    var quit := [WriteLocals(0, QUIT_MSG)] + ([WriteGlobals(0, QUIT_MSG)] + []);
    var domains := [NextDomain(ALL)] + quit;
    var replies := [ReadLocals(0)] + ([ReadGlobals(0)] + domains);
    assert Program() == [InitLocals(0)] + ([InitGlobals(0)] + replies);
    var h;
    assert Reaches(cfg, 0, Program(), []);
    l, h := LoopEnds(cfg, 0, InitLocals(0), [InitGlobals(0)] + replies, []);
    l, h := LoopEnds(cfg, l, InitGlobals(0), replies, h);
    l, h := LoopEnds(cfg, l, ReadLocals(0), [ReadGlobals(0)] + domains, h);
    l, h := LoopEnds(cfg, l, ReadGlobals(0), domains, h);
    l, h := DomainsEnd(cfg, rank, l, ALL, quit, h);
    l, h := LoopEnds(cfg, l, WriteLocals(0, QUIT_MSG), [WriteGlobals(0, QUIT_MSG)] + [], h);
    l, h := LoopEnds(cfg, l, WriteGlobals(0, QUIT_MSG), [], h);
  }

  // ---------------------------------------------------------------- workers in processes of their own

  /** The messages on their way to the workers. */
  function UnderWay(chans: seq<Chan>): nat {
    if chans == [] then 0 else UnderWay(chans[..|chans| - 1]) + |chans[|chans| - 1].inbox|
  }

  lemma {:induction false} UnderWayUpdate(chans: seq<Chan>, c: nat, ch: Chan)
    requires c < |chans|
    ensures UnderWay(chans[c := ch]) == UnderWay(chans) - |chans[c].inbox| + |ch.inbox|
  {
    var n := |chans| - 1;
    assert chans[c := ch][..n] == if c < n then chans[..n][c := ch] else chans[..n];
    if c < n { UnderWayUpdate(chans[..n], c, ch); }
  }

  lemma {:induction false} NoneUnderWay(n: nat)
    ensures UnderWay(seq(n, _ => Chan([], [], []))) == 0
  {
    if n > 0 {
      NoneUnderWay(n - 1);
      assert seq(n, _ => Chan([], [], []))[..n - 1] == seq(n - 1, _ => Chan([], [], []));
    }
  }

  /** A worker's step takes one message off its way, a step of the master puts at most one on its way. */
  lemma StepUnderWay(cfg: Config, s: Sys, who: Label)
    requires WellFormed(cfg, s) && Step(cfg, s, who).Some?
    ensures UnderWay(Step(cfg, s, who).value.chans) <= UnderWay(s.chans) + if who.Master? then 1 else -1
  {
    hide UnderWay, Handle;
    var t := Step(cfg, s, who).value;
    if who.Worker? {
      UnderWayUpdate(s.chans, who.c, t.chans[who.c]);
    } else {
      match Act(cfg, s.prog[0])
      case Tau(_) =>
      case Send(c, msg, _) => UnderWayUpdate(s.chans, c, t.chans[c]);
      case Recv(c) => UnderWayUpdate(s.chans, c, t.chans[c]);
    }
  }

  /** Every message is handled once. */
  lemma {:induction false} WorkersFollow(cfg: Config, schedule: seq<Label>)
    requires cfg.Shaped() && AsyncRun(cfg, Start(cfg), schedule).Some?
    ensures |schedule| + UnderWay(AsyncRun(cfg, Start(cfg), schedule).value.chans) <= 2 * MasterSteps(schedule)
  {
    hide UnderWay, Step;
    if schedule == [] {
      NoneUnderWay(cfg.Size());
    } else {
      var front := schedule[..|schedule| - 1];
      WorkersFollow(cfg, front);
      StepUnderWay(cfg, AsyncRun(cfg, Start(cfg), front).value, schedule[|schedule| - 1]);
    }
  }

  lemma {:induction false} MasterStepsBounded(cfg: Config, schedule: seq<Label>, l: nat)
    requires cfg.Valid() && AsyncRun(cfg, Start(cfg), schedule).Some?
    requires SyncRun(cfg, Start(cfg), l).Some? && SyncRun(cfg, Start(cfg), l).value.prog == []
    ensures MasterSteps(schedule) <= l
  {
    hide SyncRun, WorkerStep, Config.Valid, Start;
    if schedule != [] {
      var front := schedule[..|schedule| - 1];
      MasterStepsBounded(cfg, front, l);
      AsyncIsSync(cfg, front);
      if MasterSteps(front) == l {
        assert AsyncRun(cfg, Start(cfg), front).value.prog == [];
      }
    }
  }

  /** If the global worker converges, no interleaving goes on for ever: there is a bound on their length. */
  lemma SchedulesEnd(cfg: Config, rank: seq<Message> -> nat) returns (bound: nat)
    requires cfg.Valid() && Converges(cfg.procs[cfg.nLocal], rank) && Usable(cfg.full, cfg.shape)
    ensures forall schedule :: AsyncRun(cfg, Start(cfg), schedule).Some? ==> |schedule| <= bound
  {
    hide Converges, SyncRun, AsyncRun, Start, Config.Valid;
    var l := MasterEnds(cfg, rank);
    bound := 2 * l;
    forall schedule | AsyncRun(cfg, Start(cfg), schedule).Some? ensures |schedule| <= bound {
      MasterStepsBounded(cfg, schedule, l);
      WorkersFollow(cfg, schedule);
    }
  }

  ghost predicate CannotGoOn(cfg: Config, s: Sys)
    requires WellFormed(cfg, s)
  {
    forall who :: Step(cfg, s, who).None?
  }

  /** An interleaving that cannot go on has told every worker everything. */
  lemma MaximalScheduleToldAll(cfg: Config, schedule: seq<Label>)
    requires cfg.Valid() && Usable(cfg.full, cfg.shape) && AsyncRun(cfg, Start(cfg), schedule).Some?
    requires CannotGoOn(cfg, AsyncRun(cfg, Start(cfg), schedule).value)
    ensures AllTold(cfg, AsyncRun(cfg, Start(cfg), schedule).value.chans)
  {
    hide AllTold, Step, Start, Config.Valid;
    NeverStuck(cfg, schedule);
    AsyncToldAll(cfg, schedule);
  }
}
