/** When the solve loop goes on: a global step is iterated as long as the global worker's solution has not
    converged, and no longer. */
module ProtocolSolve {
  import opened MWSteps
  import opened Options
  import opened ObsDomains
  import opened Protocol
  import opened ProtocolSafety
  import opened ProtocolTrace

  /** What the process function returns for m has the convergence flag set. */
  predicate Settles(p: Process, hist: seq<Message>, m: Message) {
    var r := p(hist, m);
    r.body.Result? && r.body.converged
  }

  /** Whether the solution after history h is the final one. */
  ghost predicate SolvedAt(p: Process, h: seq<Message>) { Settles(p, h, EXEC_MSG) }

  /** The global worker converges in every global step: from one unconverged solution to the next, with
      only local replies in between, the rank goes down. Only termination depends on this. */
  ghost predicate Converges(p: Process, rank: seq<Message> -> nat) {
    forall h: seq<Message>, rs: seq<Message> ::
      !SolvedAt(p, h) && (forall m :: m in rs ==> GlobalSilent(m.oper)) && !SolvedAt(p, h + [EXEC_MSG] + rs)
      ==> rank(h + [EXEC_MSG] + rs) < rank(h)
  }

  /** Whether a history is as the loop promises, and the flag of its last solution if nothing planned
      came after it. */
  datatype Verdict = Verdict(ok: bool, open: Option<bool>)

  /** Another GlobalExec may not follow a final solution, anything planned not one that is not final. */
  function Judge(p: Process, hist: seq<Message>): Verdict {
    if hist == [] then Verdict(true, None)
    else
      var front, m := hist[..|hist| - 1], hist[|hist| - 1];
      var v := Judge(p, front);
      if m.oper == GLOBALEXEC then Verdict(v.ok && v.open != Some(true), Some(Settles(p, front, m)))
      else if Planned(m) then Verdict(v.ok && v.open != Some(false), None)
      else v
  }

  lemma JudgeAppend(p: Process, hist: seq<Message>, m: Message)
    ensures var v := Judge(p, hist);
      Judge(p, hist + [m]) ==
        if m.oper == GLOBALEXEC then Verdict(v.ok && v.open != Some(true), Some(Settles(p, hist, m)))
        else if Planned(m) then Verdict(v.ok && v.open != Some(false), None)
        else v
  {
    hide Settles, Planned;
    assert (hist + [m])[..|hist|] == hist;
  }

  // ---------------------------------------------------------------- the program's next move

  predicate IsExec(cmd: Cmd) { cmd.WriteGlobal0? && cmd.msg.oper == GLOBALEXEC }

  /** The solution is read after it is asked for, and it is asked for after the replies are forwarded. */
  predicate TurnAt(prog: seq<Cmd>, k: nat)
    requires k < |prog|
  {
    && (IsExec(prog[k]) ==> k + 1 < |prog| && prog[k + 1].ReadSolution?)
    && (prog[k].ForwardReplies? ==> k + 1 < |prog| && (prog[k + 1].Iterate? || IsExec(prog[k + 1])))
  }

  predicate InTurn(prog: seq<Cmd>) { forall k :: 0 <= k < |prog| ==> TurnAt(prog, k) }

  /** With a solution that has the flag, the program goes on as the flag says. */
  predicate GoesOn(flag: bool, prog: seq<Cmd>) {
    if prog == [] then flag
    else match prog[0]
      case ReadSolution => false
      case TestConverged(msg) => flag == Converged(msg)
      case Iterate | ForwardReplies(_) => !flag
      case WriteGlobal0(msg) => flag == !(msg.oper == GLOBALEXEC || GlobalSilent(msg.oper))
      case Visit(_) | VisitAll(_) | NextDomain(_) => flag
      case _ => GoesOn(flag, prog[1..])
  }

  /** The flag has not been read yet, or the program goes on as it says. */
  predicate Obeys(flag: bool, prog: seq<Cmd>, ch: Chan) {
    if prog != [] && prog[0].ReadSolution? then ch.outbox != [] && flag == Converged(ch.outbox[0])
    else GoesOn(flag, prog)
  }

  lemma InTurnConcat(next: seq<Cmd>, prog: seq<Cmd>)
    requires prog != [] && InTurn(prog)
    requires forall k :: 0 <= k < |next| ==> TurnAt(next + prog[1..], k)
    ensures InTurn(next + prog[1..])
  {
    var after := next + prog[1..];
    forall k | |next| <= k < |after| ensures TurnAt(after, k) {
      var j := k - |next| + 1;
      assert TurnAt(prog, j) && after[k] == prog[j];
      assert k + 1 < |after| ==> after[k + 1] == prog[j + 1];
    }
  }

  /** An internal step keeps the turns, and the program goes on as the flag says. */
  lemma TauTurns(cfg: Config, prog: seq<Cmd>)
    requires cfg.Shaped() && prog != [] && InTurn(prog) && Act(cfg, prog[0]).Tau?
    ensures InTurn(Act(cfg, prog[0]).next + prog[1..])
  {
    hide Next;
    var next := Act(cfg, prog[0]).next;
    assert forall k :: 0 <= k < |next| ==> (next + prog[1..])[k] == next[k];
    InTurnConcat(next, prog);
  }

  lemma SendTurns(cfg: Config, prog: seq<Cmd>)
    requires cfg.Shaped() && prog != [] && InTurn(prog) && Act(cfg, prog[0]).Send?
    ensures InTurn(Act(cfg, prog[0]).next + prog[1..])
  {
    var next := Act(cfg, prog[0]).next;
    assert forall k :: 0 <= k < |next| ==> (next + prog[1..])[k] == next[k];
    InTurnConcat(next, prog);
  }

  lemma RecvTurns(cfg: Config, prog: seq<Cmd>, msg: Message)
    requires cfg.Shaped() && prog != [] && InTurn(prog) && Act(cfg, prog[0]).Recv?
    requires prog[0].ForwardReplies? ==> GlobalSilent(msg.oper)
    ensures InTurn(AfterRecv(prog[0], msg) + prog[1..])
  {
    var next := AfterRecv(prog[0], msg);
    assert TurnAt(prog, 0);
    assert forall k :: 0 <= k < |next| ==> (next + prog[1..])[k] == next[k];
    InTurnConcat(next, prog);
  }

  /** An internal step of a loop goes on as it did; the test of the flag ends the loop only if it is set. */
  lemma TauGoes(cfg: Config, prog: seq<Cmd>, flag: bool)
    requires cfg.Shaped() && prog != [] && InTurn(prog) && Act(cfg, prog[0]).Tau? && GoesOn(flag, prog)
    requires !prog[0].NextDomain? && !prog[0].Visit? && !prog[0].VisitAll?
    ensures if prog[0].TestConverged? && Act(cfg, prog[0]).next == [] then flag
            else GoesOn(flag, Act(cfg, prog[0]).next + prog[1..])
  {
    assert TurnAt(prog, 0);
    var rest := prog[1..];
    match prog[0]
    case Iterate => assert (Round() + rest)[1..] == [ForwardReplies(0), WriteGlobal0(EXEC_MSG), ReadSolution] + rest;
    case _ => assert [] + rest == rest;
  }

  /** A write to another connection goes on as it did. */
  lemma SendGoes(cfg: Config, prog: seq<Cmd>, flag: bool)
    requires cfg.Shaped() && prog != [] && Act(cfg, prog[0]).Send? && Act(cfg, prog[0]).c != cfg.nLocal
    requires GoesOn(flag, prog)
    ensures GoesOn(flag, Act(cfg, prog[0]).next + prog[1..])
  {
    var next, rest := Act(cfg, prog[0]).next, prog[1..];
    assert (next + rest)[1..] == rest;
  }

  /** The reply to GlobalExec is what the flag is read from. */
  lemma ExecGoes(cfg: Config, prog: seq<Cmd>, p: Process, ch: Chan)
    requires cfg.Shaped() && prog != [] && InTurn(prog) && IsExec(prog[0]) && ch.outbox == []
    requires Handle(p, ch.hist, prog[0].msg).Some?
    ensures Obeys(Settles(p, ch.hist, prog[0].msg), [] + prog[1..], Deliver(p, ch, prog[0].msg))
  {
    assert TurnAt(prog, 0);
    assert [] + prog[1..] == prog[1..];
  }

  lemma RecvGoes(cfg: Config, prog: seq<Cmd>, flag: bool, ch: Chan, msg: Message)
    requires cfg.Shaped() && prog != [] && Act(cfg, prog[0]).Recv? && Obeys(flag, prog, ch)
    requires prog[0].ForwardReplies? ==> GlobalSilent(msg.oper)
    requires prog[0].ReadSolution? ==> ch.outbox == [msg]
    ensures GoesOn(flag, AfterRecv(prog[0], msg) + prog[1..])
  {
    var next, rest := AfterRecv(prog[0], msg), prog[1..];
    assert next != [] ==> (next + rest)[1..] == next[1..] + rest;
    assert [] + rest == rest;
  }

  // ---------------------------------------------------------------- every step

  /** What the judgement, the phase and the program say of one another. */
  ghost predicate Fitting(v: Verdict, phase: Phase, prog: seq<Cmd>, ch: Chan) {
    && v.ok && InTurn(prog)
    && match phase
       case Idle => v.open != Some(false)
       case Info(_) | Equations(_) => v.open != Some(true)
       case Solved => v.open.Some? && Obeys(v.open.value, prog, ch)
  }

  lemma TauFits(cfg: Config, prog: seq<Cmd>, a: Abs, v: Verdict, ch: Chan)
    requires cfg.Shaped() && |a.occ| == cfg.Size() && prog != [] && Act(cfg, prog[0]).Tau?
    requires Pre(cfg, prog[0], a) && Fitting(v, a.phase, prog, ch)
    ensures var next := Act(cfg, prog[0]).next;
      Fitting(v, (if next == [] then Post(cfg, prog[0], a) else a).phase, next + prog[1..], ch)
  {
    hide Next, InTurn, GoesOn;
    TauTurns(cfg, prog);
    if a.phase.Solved? {
      TauGoes(cfg, prog, v.open.value);
      NotReadYet(v.open.value, Act(cfg, prog[0]).next + prog[1..]);
    }
  }

  lemma NotReadYet(flag: bool, prog: seq<Cmd>)
    ensures GoesOn(flag, prog) ==> prog == [] || !prog[0].ReadSolution?
  {
  }

  /** The judgement of a history that grows by a message the phase allows. */
  lemma SendFits(cfg: Config, prog: seq<Cmd>, a: Abs, p: Process, ch: Chan)
    requires cfg.Shaped() && |a.occ| == cfg.Size() && prog != [] && Pre(cfg, prog[0], a)
    requires Act(cfg, prog[0]).Send? && Act(cfg, prog[0]).c == cfg.nLocal && ch.outbox == []
    requires Fitting(Judge(p, ch.hist), a.phase, prog, ch)
    requires IsExec(prog[0]) ==> Handle(p, ch.hist, prog[0].msg).Some?
    ensures var Send(c, msg, next) := Act(cfg, prog[0]);
      var after := Deliver(p, ch, msg);
      Fitting(Judge(p, after.hist), AfterSend(cfg, c, msg, a).phase, next + prog[1..], after)
  {
    var Send(c, msg, next) := Act(cfg, prog[0]);
    SendTurns(cfg, prog);
    JudgeAppend(p, ch.hist, msg);
    hide InTurn, Settles, Handle, Next, Judge;
    if IsExec(prog[0]) { ExecGoes(cfg, prog, p, ch); }
  }

  lemma RecvFits(cfg: Config, prog: seq<Cmd>, phase: Phase, v: Verdict, ch: Chan, msg: Message, outbox: seq<Message>)
    requires cfg.Shaped() && prog != [] && Act(cfg, prog[0]).Recv? && Fitting(v, phase, prog, ch)
    requires prog[0].ForwardReplies? ==> GlobalSilent(msg.oper)
    requires prog[0].ReadSolution? ==> ch.outbox == [msg]
    ensures Fitting(v, phase, AfterRecv(prog[0], msg) + prog[1..], ch.(outbox := outbox))
  {
    hide InTurn, GoesOn;
    RecvTurns(cfg, prog, msg);
    if phase.Solved? {
      RecvGoes(cfg, prog, v.open.value, ch, msg);
      NotReadYet(v.open.value, AfterRecv(prog[0], msg) + prog[1..]);
    }
  }

  ghost predicate Solves(cfg: Config, s: Sys, a: Abs)
    requires WellFormed(cfg, s)
  {
    var g := s.chans[cfg.nLocal];
    Fitting(Judge(cfg.procs[cfg.nLocal], g.hist), a.phase, s.prog, g)
  }

  lemma SendSolves(cfg: Config, s: Sys, a: Abs)
    requires cfg.Valid() && Match(cfg, a, s) && Solves(cfg, s, a) && s.prog != [] && Act(cfg, s.prog[0]).Send?
    ensures SyncStep(cfg, s).Some? && Solves(cfg, SyncStep(cfg, s).value, NextAbs(cfg, s, a))
  {
    var n, p, g := cfg.nLocal, cfg.procs[cfg.nLocal], s.chans[cfg.nLocal];
    var Send(d, msg, next) := Act(cfg, s.prog[0]);
    var b := SyncStepSafe(cfg, s, a);
    HeadReady(cfg, s.prog, a);
    SendEffect(cfg, s.prog[0], a);
    if d == n {
      assert MatchChan(cfg, n, a.occ[n], g);
      if IsExec(s.prog[0]) {
        assert MatchChan(cfg, n, b.occ[n], SyncStep(cfg, s).value.chans[n]);
        ExecAnswered(cfg, n, b.occ[n], g, msg);
      }
      SendFits(cfg, s.prog, a, p, g);
    } else {
      SendElsewhere(cfg, s.prog, a, Judge(p, g.hist), g);
    }
  }

  lemma ExecAnswered(cfg: Config, n: nat, k: Kind, ch: Chan, msg: Message)
    requires n < |cfg.procs| && n == cfg.nLocal && msg.oper == GLOBALEXEC && k == KindGlobal(msg) && ch.outbox == []
    requires MatchChan(cfg, n, k, Deliver(cfg.procs[n], ch, msg))
    ensures Handle(cfg.procs[n], ch.hist, msg).Some?
  {
  }

  lemma SendElsewhere(cfg: Config, prog: seq<Cmd>, a: Abs, v: Verdict, ch: Chan)
    requires cfg.Shaped() && |a.occ| == cfg.Size() && prog != [] && Act(cfg, prog[0]).Send?
    requires Act(cfg, prog[0]).c != cfg.nLocal && Fitting(v, a.phase, prog, ch)
    ensures var Send(d, msg, next) := Act(cfg, prog[0]);
      Fitting(v, AfterSend(cfg, d, msg, a).phase, next + prog[1..], ch)
  {
    hide InTurn, GoesOn;
    SendTurns(cfg, prog);
    if a.phase.Solved? {
      SendGoes(cfg, prog, v.open.value);
      NotReadYet(v.open.value, Act(cfg, prog[0]).next + prog[1..]);
    }
  }

  lemma RecvSolves(cfg: Config, s: Sys, a: Abs)
    requires cfg.Valid() && Match(cfg, a, s) && Solves(cfg, s, a) && s.prog != [] && Act(cfg, s.prog[0]).Recv?
    ensures SyncStep(cfg, s).Some? && Solves(cfg, SyncStep(cfg, s).value, NextAbs(cfg, s, a))
  {
    var n, d := cfg.nLocal, Act(cfg, s.prog[0]).c;
    var b := SyncStepSafe(cfg, s, a);
    HeadReady(cfg, s.prog, a);
    PendingAtRecv(cfg, s.prog[0], a);
    assert MatchChan(cfg, d, a.occ[d], s.chans[d]);
    var msg := s.chans[d].outbox[0];
    assert s.chans[d].outbox == [msg];
    hide Judge, Fitting, MatchChan, Balanced;
    RecvFits(cfg, s.prog, a.phase, Judge(cfg.procs[n], s.chans[n].hist), s.chans[n], msg,
             if d == n then [] else s.chans[n].outbox);
  }

  lemma StepSolves(cfg: Config, s: Sys, a: Abs)
    requires cfg.Valid() && Match(cfg, a, s) && Solves(cfg, s, a)
    ensures SyncStep(cfg, s).Some? && Solves(cfg, SyncStep(cfg, s).value, NextAbs(cfg, s, a))
  {
    var b := SyncStepSafe(cfg, s, a);
    if s.prog == [] { return; }
    HeadReady(cfg, s.prog, a);
    var n := cfg.nLocal;
    match Act(cfg, s.prog[0])
    case Tau(_) => TauFits(cfg, s.prog, a, Judge(cfg.procs[n], s.chans[n].hist), s.chans[n]);
    case Send(_, _, _) => SendSolves(cfg, s, a);
    case Recv(d) => RecvSolves(cfg, s, a);
  }

  /** At every moment of every run the global worker's history is as the loop promises. */
  lemma {:induction false} RunSolves(cfg: Config, k: nat) returns (a: Abs)
    requires cfg.Valid()
    ensures SyncRun(cfg, Start(cfg), k).Some?
    ensures Match(cfg, a, SyncRun(cfg, Start(cfg), k).value) && Solves(cfg, SyncRun(cfg, Start(cfg), k).value, a)
  {
    hide SyncStep, Solves, NextAbs, Start, Config.Valid;
    if k == 0 {
      a := StartMatches(cfg);
      StartSolves(cfg, a);
    } else {
      a := RunSolves(cfg, k - 1);
      var s := SyncRun(cfg, Start(cfg), k - 1).value;
      StepSolves(cfg, s, a);
      a := SyncStepSafe(cfg, s, a);
    }
  }

  lemma StartSolves(cfg: Config, a: Abs)
    requires cfg.Shaped() && Match(cfg, a, Start(cfg))
    ensures Solves(cfg, Start(cfg), a)
  {
  }

  // ---------------------------------------------------------------- what the judgement means

  /** Message j is the first one after the solution of message i that is not a forwarded reply. */
  predicate FollowsSolution(hist: seq<Message>, i: nat, j: nat) {
    && i < j < |hist| && hist[i].oper == GLOBALEXEC
    && (hist[j].oper == GLOBALEXEC || Planned(hist[j]))
    && forall k :: i < k < j ==> hist[k].oper != GLOBALEXEC && !Planned(hist[k])
  }

  lemma {:induction false} OpenIs(p: Process, hist: seq<Message>, i: nat)
    requires i < |hist| && hist[i].oper == GLOBALEXEC
    requires forall k :: i < k < |hist| ==> hist[k].oper != GLOBALEXEC && !Planned(hist[k])
    ensures Judge(p, hist).open == Some(Settles(p, hist[..i], hist[i]))
  {
    hide Settles, Planned;
    var front := hist[..|hist| - 1];
    if i < |hist| - 1 {
      assert hist[|hist| - 1].oper != GLOBALEXEC;
      OpenIs(p, front, i);
      assert front[..i] == hist[..i];
    }
  }

  lemma {:induction false} JudgeMeans(p: Process, hist: seq<Message>, i: nat, j: nat)
    requires Judge(p, hist).ok && FollowsSolution(hist, i, j)
    ensures hist[j].oper == GLOBALEXEC <==> !Settles(p, hist[..i], hist[i])
  {
    hide Settles;
    var front := hist[..|hist| - 1];
    assert i < |front| && front[..i] == hist[..i];
    if j < |hist| - 1 {
      JudgeMeans(p, front, i, j);
    } else {
      OpenIs(p, front, i);
    }
  }

  /** A solution is followed by another GlobalExec exactly if the process function of the global worker did not
      set the convergence flag in it; otherwise by the next step, the next work domain or quit. */
  lemma LoopsUntilConverged(cfg: Config, k: nat, i: nat, j: nat)
    requires cfg.Valid() && SyncRun(cfg, Start(cfg), k).Some?
    requires FollowsSolution(SyncRun(cfg, Start(cfg), k).value.chans[cfg.nLocal].hist, i, j)
    ensures var hist := SyncRun(cfg, Start(cfg), k).value.chans[cfg.nLocal].hist;
      var r := cfg.procs[cfg.nLocal](hist[..i], hist[i]);
      hist[j].oper == GLOBALEXEC <==> !(r.body.Result? && r.body.converged)
  {
    hide Judge, FollowsSolution;
    var a := RunSolves(cfg, k);
    JudgeMeans(cfg.procs[cfg.nLocal], SyncRun(cfg, Start(cfg), k).value.chans[cfg.nLocal].hist, i, j);
  }
}
