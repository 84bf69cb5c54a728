/** No run over in-memory connections ever fails an assertion of MemConnection, and the global
    worker's messages form the language the solve protocol promises. */
module ProtocolSafety {
  import opened MWSteps
  import opened Options
  import opened ObsDomains
  import opened Protocol

  /** What is known of a connection: not initialised, no reply pending, a reply pending, a reply
      pending that the other side will not answer when it is forwarded, or told to quit. */
  datatype Kind = Fresh | Empty | Ack | Fwd | Stopped

  // ---------------------------------------------------------------- the global worker's language

  /** Idle: between steps; Info(i), Equations(i): i local replies forwarded; Solved: after GlobalExec. */
  datatype Phase = Idle | Info(i: nat) | Equations(i: nat) | Solved

  /** The messages the first global worker may get, n being the number of local workers:
      Init (SetWd (Step R (R GlobalExec)+ )* )* quit, R being one reply of each local worker in index order. */
  function PhaseStep(n: nat, ph: Phase, m: Message): Option<Phase> {
    if m.oper < 0 || m.oper == INIT || m.oper == SETWD then
      if ph.Idle? || ph.Solved? then Some(Idle) else None
    else if m.oper == STEP then
      if ph.Idle? || ph.Solved? then Some(if n == 0 then Equations(0) else Info(0)) else None
    else if m.oper == GLOBALEXEC then
      if ph == Equations(n) || (ph.Solved? && n == 0) then Some(Solved) else None
    else
      match ph
      case Info(i) => if i < n && m.workerId == i then Some(if i + 1 == n then Equations(0) else Info(i + 1)) else None
      case Equations(i) => if i < n && m.workerId == i then Some(Equations(i + 1)) else None
      case Solved => if 0 < n && m.workerId == 0 then Some(Equations(1)) else None
      case Idle => None
  }

  function Track(n: nat, hist: seq<Message>): Option<Phase> {
    if hist == [] then Some(Idle)
    else match Track(n, hist[..|hist| - 1])
      case None => None
      case Some(ph) => PhaseStep(n, ph, hist[|hist| - 1])
  }

  // ---------------------------------------------------------------- abstract execution

  /** Idle stands for Idle or Solved here. */
  datatype Abs = Abs(occ: seq<Kind>, phase: Phase)

  function KindLocal(m: Message): Kind {
    if m.oper < 0 then Stopped
    else if AsksForGlobal(m) then Fwd
    else if m.oper == INIT || LocalAnswers(m.oper) then Ack
    else Empty
  }

  function KindGlobal(m: Message): Kind {
    if m.oper < 0 then Stopped
    else if m.oper == GLOBALEXEC then Fwd
    else if m.oper == INIT || GlobalAnswers(m.oper) then Ack
    else Empty
  }

  function Fill(occ: seq<Kind>, lo: nat, hi: nat, k: Kind): (r: seq<Kind>)
    ensures |r| == |occ|
    ensures forall c :: 0 <= c < |occ| ==> r[c] == if lo <= c < hi then k else occ[c]
  {
    seq(|occ|, c requires 0 <= c < |occ| => if lo <= c < hi then k else occ[c])
  }

  predicate All(occ: seq<Kind>, lo: nat, hi: nat, k: Kind) {
    forall c :: lo <= c < hi && c < |occ| ==> occ[c] == k
  }

  predicate Pending(k: Kind) { k.Ack? || k.Fwd? }

  predicate AtRest(cfg: Config, a: Abs) { All(a.occ, 0, cfg.Size(), Empty) && a.phase.Idle? }

  /** What a command needs to do all its communication without a protocol slip. */
  predicate Pre(cfg: Config, cmd: Cmd, a: Abs)
    requires cfg.Shaped() && |a.occ| == cfg.Size()
  {
    var n := cfg.nLocal;
    match cmd
    case InitLocals(i) => All(a.occ, i, n, Fresh)
    case InitGlobals(i) => All(a.occ, n + i, cfg.Size(), Fresh) && a.phase.Idle?
    case ReadLocals(i) => All(a.occ, i, n, Ack)
    case ReadGlobals(i) => All(a.occ, n + i, cfg.Size(), Ack)
    case WriteLocals(i, msg) => All(a.occ, i, n, Empty) && msg.oper != INIT
    case WriteGlobals(i, msg) =>
      All(a.occ, n + i, cfg.Size(), Empty) && (msg.oper < 0 || msg.oper == SETWD) && a.phase.Idle?
    case WriteGlobal0(msg) =>
      a.occ[n] == Empty && msg.oper != INIT && PhaseStep(n, a.phase, msg).Some?
    case ReadGlobal0 => a.occ[n] == Ack
    case ForwardReplies(i) =>
      All(a.occ, i, n, Fwd) && a.occ[n] == Empty &&
      (i < n ==> a.phase == Info(i) || a.phase == Equations(i) || (i == 0 && a.phase.Solved?))
    case ReadSolution =>
      All(a.occ, 0, n, Empty) && a.occ[n] == Fwd && All(a.occ, n + 1, cfg.Size(), Empty) && a.phase.Solved?
    case TestConverged(_) => All(a.occ, 0, cfg.Size(), Empty) && a.phase.Solved?
    case Iterate => All(a.occ, 0, cfg.Size(), Empty) && (a.phase == Equations(0) || a.phase.Solved?)
    case Visit(_) => AtRest(cfg, a)
    case VisitAll(_) => AtRest(cfg, a)
    case NextDomain(_) => AtRest(cfg, a)
  }

  function Post(cfg: Config, cmd: Cmd, a: Abs): (r: Abs)
    requires cfg.Shaped() && |a.occ| == cfg.Size()
    ensures |r.occ| == cfg.Size()
  {
    var n := cfg.nLocal;
    match cmd
    case InitLocals(i) => a.(occ := Fill(a.occ, i, n, Ack))
    case InitGlobals(i) => a.(occ := Fill(a.occ, n + i, cfg.Size(), Ack))
    case ReadLocals(i) => a.(occ := Fill(a.occ, i, n, Empty))
    case ReadGlobals(i) => a.(occ := Fill(a.occ, n + i, cfg.Size(), Empty))
    case WriteLocals(i, msg) => a.(occ := Fill(a.occ, i, n, KindLocal(msg)))
    case WriteGlobals(i, msg) => a.(occ := Fill(a.occ, n + i, cfg.Size(), KindGlobal(msg)))
    case WriteGlobal0(msg) =>
      Abs(a.occ[n := KindGlobal(msg)],
          if PhaseStep(n, a.phase, msg).Some? then PhaseStep(n, a.phase, msg).value else a.phase)
    case ReadGlobal0 => a.(occ := a.occ[n := Empty])
    case ForwardReplies(i) =>
      Abs(Fill(a.occ, i, n, Empty),
          if i >= n then a.phase else if a.phase.Info? then Equations(0) else Equations(n))
    case ReadSolution => a.(occ := a.occ[n := Empty], phase := Idle)
    case _ => a.(phase := Idle)
  }

  /** The abstract effect of a program; None when a command lacks what it needs. Commands that unfold
      further are only looked at from outside: they start and end with all connections at rest. */
  function Effect(cfg: Config, prog: seq<Cmd>, a: Abs): (r: Option<Abs>)
    requires cfg.Shaped() && |a.occ| == cfg.Size()
    ensures r.Some? ==> |r.value.occ| == cfg.Size()
  {
    if prog == [] then Some(a)
    else if Pre(cfg, prog[0], a) then Effect(cfg, prog[1..], Post(cfg, prog[0], a))
    else None
  }

  lemma {:induction false} EffectConcat(cfg: Config, p: seq<Cmd>, q: seq<Cmd>, a: Abs)
    requires cfg.Shaped() && |a.occ| == cfg.Size()
    ensures Effect(cfg, p + q, a) == match Effect(cfg, p, a) case None => None case Some(b) => Effect(cfg, q, b)
  {
    if p == [] {
      assert p + q == q;
    } else {
      assert (p + q)[1..] == p[1..] + q;
      if Pre(cfg, p[0], a) { EffectConcat(cfg, p[1..], q, Post(cfg, p[0], a)); }
    }
  }

  /** The program needs nothing it lacks, and at its end all workers have been told to quit. */
  predicate Balanced(cfg: Config, prog: seq<Cmd>, a: Abs)
    requires cfg.Shaped() && |a.occ| == cfg.Size()
  {
    var r := Effect(cfg, prog, a);
    r.Some? && All(r.value.occ, 0, cfg.Size(), Stopped)
  }

  // ---------------------------------------------------------------- unfolding keeps the effect

  lemma Effect1(cfg: Config, c1: Cmd, a: Abs)
    requires cfg.Shaped() && |a.occ| == cfg.Size()
    ensures Effect(cfg, [c1], a) == if Pre(cfg, c1, a) then Some(Post(cfg, c1, a)) else None
  {
  }

  /** The effect of a command followed by more. */
  lemma EffectCons(cfg: Config, cmd: Cmd, more: seq<Cmd>, a: Abs)
    requires cfg.Shaped() && |a.occ| == cfg.Size()
    ensures Effect(cfg, [cmd] + more, a) == if Pre(cfg, cmd, a) then Effect(cfg, more, Post(cfg, cmd, a)) else None
  {
    assert ([cmd] + more)[1..] == more;
  }

  lemma VisitEffect(cfg: Config, step: MWStep, a: Abs)
    requires cfg.Shaped() && |a.occ| == cfg.Size() && AtRest(cfg, a)
    ensures Effect(cfg, VisitStep(step), a) == Some(a)
  {
    var m := StepMsg(step);
    match step
    case LocalStep(_) =>
      var a1 := Post(cfg, WriteLocals(0, m), a);
      EffectCons(cfg, WriteLocals(0, m), [ReadLocals(0)], a);
      Effect1(cfg, ReadLocals(0), a1);
      assert Post(cfg, ReadLocals(0), a1).occ == a.occ;
    case GlobalStep(_) => GlobalStepEffect(cfg, step, a);
    case MultiStep(steps) => Effect1(cfg, VisitAll(steps), a);
  }

  lemma GlobalStepEffect(cfg: Config, step: MWStep, a: Abs)
    requires cfg.Shaped() && |a.occ| == cfg.Size() && AtRest(cfg, a) && step.GlobalStep?
    ensures Effect(cfg, VisitStep(step), a) == Some(a)
  {
    var m := StepMsg(step);
    var a1 := Post(cfg, WriteLocals(0, m), a);
    var a2 := Post(cfg, WriteGlobal0(m), a1);
    var a3 := Post(cfg, ReadGlobal0, a2);
    var a4 := Post(cfg, ForwardReplies(0), a3);
    EffectCons(cfg, WriteLocals(0, m), [WriteGlobal0(m), ReadGlobal0, ForwardReplies(0), Iterate], a);
    EffectCons(cfg, WriteGlobal0(m), [ReadGlobal0, ForwardReplies(0), Iterate], a1);
    EffectCons(cfg, ReadGlobal0, [ForwardReplies(0), Iterate], a2);
    EffectCons(cfg, ForwardReplies(0), [Iterate], a3);
    Effect1(cfg, Iterate, a4);
    assert Post(cfg, Iterate, a4).occ == a.occ;
  }

  lemma RoundEffect(cfg: Config, a: Abs)
    requires cfg.Shaped() && |a.occ| == cfg.Size() && Pre(cfg, Iterate, a)
    ensures Effect(cfg, Round(), a) == Some(a.(phase := Idle))
  {
    var a1 := Post(cfg, WriteLocals(0, INFO_MSG), a);
    var a2 := Post(cfg, ForwardReplies(0), a1);
    var a3 := Post(cfg, WriteGlobal0(EXEC_MSG), a2);
    EffectCons(cfg, WriteLocals(0, INFO_MSG), [ForwardReplies(0), WriteGlobal0(EXEC_MSG), ReadSolution], a);
    EffectCons(cfg, ForwardReplies(0), [WriteGlobal0(EXEC_MSG), ReadSolution], a1);
    EffectCons(cfg, WriteGlobal0(EXEC_MSG), [ReadSolution], a2);
    Effect1(cfg, ReadSolution, a3);
    assert Post(cfg, ReadSolution, a3).occ == a.occ;
  }

  lemma DomainEffect(cfg: Config, b: Box, a: Abs)
    requires cfg.Shaped() && |a.occ| == cfg.Size() && AtRest(cfg, a)
    ensures Effect(cfg, ProcessDomain(cfg, b), a) == Some(a)
  {
    var m := WdMsg(b);
    var a1 := Post(cfg, WriteLocals(0, m), a);
    var a2 := Post(cfg, WriteGlobals(0, m), a1);
    var a3 := Post(cfg, ReadLocals(0), a2);
    EffectCons(cfg, WriteLocals(0, m),
               [WriteGlobals(0, m), ReadLocals(0), ReadGlobals(0), Visit(cfg.tree), NextDomain(b)], a);
    EffectCons(cfg, WriteGlobals(0, m), [ReadLocals(0), ReadGlobals(0), Visit(cfg.tree), NextDomain(b)], a1);
    EffectCons(cfg, ReadLocals(0), [ReadGlobals(0), Visit(cfg.tree), NextDomain(b)], a2);
    EffectCons(cfg, ReadGlobals(0), [Visit(cfg.tree), NextDomain(b)], a3);
    hide Effect;
    StepsEffect(cfg, b, a);
    assert Post(cfg, ReadGlobals(0), a3).occ == a.occ;
  }

  lemma StepsEffect(cfg: Config, b: Box, a: Abs)
    requires cfg.Shaped() && |a.occ| == cfg.Size() && AtRest(cfg, a)
    ensures Effect(cfg, [Visit(cfg.tree), NextDomain(b)], a) == Some(a)
  {
    EffectCons(cfg, Visit(cfg.tree), [NextDomain(b)], a);
    Effect1(cfg, NextDomain(b), a);
  }

  lemma ProgramBalanced(cfg: Config)
    requires cfg.Shaped()
    ensures Balanced(cfg, Program(), Abs(seq(cfg.Size(), _ => Fresh), Idle))
  {
    var a := Abs(seq(cfg.Size(), _ => Fresh), Idle);
    var a1 := Post(cfg, InitLocals(0), a);
    var a2 := Post(cfg, InitGlobals(0), a1);
    var a3 := Post(cfg, ReadLocals(0), a2);
    var a4 := Post(cfg, ReadGlobals(0), a3);
    EffectCons(cfg, InitLocals(0), [InitGlobals(0), ReadLocals(0), ReadGlobals(0)], a);
    EffectCons(cfg, InitGlobals(0), [ReadLocals(0), ReadGlobals(0)], a1);
    EffectCons(cfg, ReadLocals(0), [ReadGlobals(0)], a2);
    Effect1(cfg, ReadGlobals(0), a3);
    Effect1(cfg, NextDomain(ALL), a4);
    QuitEffect(cfg, a4);
    EffectConcat(cfg, InitProgram(), [NextDomain(ALL)], a);
    EffectConcat(cfg, InitProgram() + [NextDomain(ALL)], QuitProgram(), a);
  }

  lemma QuitEffect(cfg: Config, a: Abs)
    requires cfg.Shaped() && |a.occ| == cfg.Size() && AtRest(cfg, a)
    ensures Balanced(cfg, QuitProgram(), a)
  {
    EffectCons(cfg, WriteLocals(0, QUIT_MSG), [WriteGlobals(0, QUIT_MSG)], a);
    Effect1(cfg, WriteGlobals(0, QUIT_MSG), Post(cfg, WriteLocals(0, QUIT_MSG), a));
  }

  /** An internal step unfolds a command into one or more commands with the same effect, or it ends
      a command that has no effect left. */
  lemma TauEffect(cfg: Config, cmd: Cmd, a: Abs)
    requires cfg.Shaped() && |a.occ| == cfg.Size() && Pre(cfg, cmd, a) && Act(cfg, cmd).Tau?
    ensures var p := Post(cfg, cmd, a);
      if Act(cfg, cmd).next == [] then p == a || (a.phase.Solved? && p == a.(phase := Idle))
      else Effect(cfg, Act(cfg, cmd).next, a) == Some(p)
  {
    match cmd
    case Iterate => RoundEffect(cfg, a);
    case Visit(step) => VisitEffect(cfg, step, a);
    case VisitAll(steps) =>
      if steps != [] {
        EffectCons(cfg, Visit(steps[0]), [VisitAll(steps[1..])], a);
        Effect1(cfg, VisitAll(steps[1..]), a);
      }
    case NextDomain(wd) =>
      if Next(cfg.full, cfg.shape, wd).Some? { DomainEffect(cfg, Next(cfg.full, cfg.shape, wd).value, a); }
    case TestConverged(msg) => Effect1(cfg, Iterate, a);
    case WriteGlobal0(_) | ReadGlobal0 | ReadSolution => assert false;
    case InitLocals(_) | InitGlobals(_) | ReadLocals(_) | ReadGlobals(_) | WriteLocals(_, _) | WriteGlobals(_, _)
      | ForwardReplies(_) => assert Post(cfg, cmd, a).occ == a.occ;
  }

  /** A write finds the connection without an unread reply; the abstract state after it. */
  function AfterSend(cfg: Config, c: nat, msg: Message, a: Abs): Abs
    requires cfg.Shaped() && |a.occ| == cfg.Size() && c < cfg.Size()
  {
    Abs(a.occ[c := if c < cfg.nLocal then KindLocal(msg) else KindGlobal(msg)],
        if c == cfg.nLocal && PhaseStep(c, a.phase, msg).Some? then PhaseStep(c, a.phase, msg).value else a.phase)
  }

  lemma SendEffect(cfg: Config, cmd: Cmd, a: Abs)
    requires cfg.Shaped() && |a.occ| == cfg.Size() && Pre(cfg, cmd, a) && Act(cfg, cmd).Send?
    ensures var Send(c, msg, next) := Act(cfg, cmd);
      && a.occ[c] == (if msg.oper == INIT then Fresh else Empty)
      && (msg.oper == INIT ==> msg.workerId == c)
      && (c == cfg.nLocal ==> PhaseStep(c, a.phase, msg).Some?)
      && Effect(cfg, next, AfterSend(cfg, c, msg, a)) == Some(Post(cfg, cmd, a))
  {
    var Send(c, msg, next) := Act(cfg, cmd);
    if next != [] {
      Effect1(cfg, next[0], AfterSend(cfg, c, msg, a));
      assert Post(cfg, next[0], AfterSend(cfg, c, msg, a)).occ == Post(cfg, cmd, a).occ;
    }
  }

  /** The replies the master may forward. */
  predicate FitsFwd(cfg: Config, c: nat, m: Message) {
    if c < cfg.nLocal then GlobalSilent(m.oper) && m.workerId == c else LocalSilent(m.oper)
  }

  /** A read finds a reply pending, and whatever the reply is, what follows has the command's effect. */
  lemma RecvEffect(cfg: Config, cmd: Cmd, a: Abs, msg: Message)
    requires cfg.Shaped() && |a.occ| == cfg.Size() && Pre(cfg, cmd, a) && Act(cfg, cmd).Recv?
    requires a.occ[Act(cfg, cmd).c] == Fwd ==> FitsFwd(cfg, Act(cfg, cmd).c, msg)
    ensures Effect(cfg, AfterRecv(cmd, msg), a.(occ := a.occ[Act(cfg, cmd).c := Empty])) == Some(Post(cfg, cmd, a))
  {
    var b := a.(occ := a.occ[Act(cfg, cmd).c := Empty]);
    match cmd
    case ReadLocals(i) =>
      Effect1(cfg, ReadLocals(i + 1), b);
      assert Post(cfg, ReadLocals(i + 1), b).occ == Post(cfg, cmd, a).occ;
    case ReadGlobals(i) =>
      Effect1(cfg, ReadGlobals(i + 1), b);
      assert Post(cfg, ReadGlobals(i + 1), b).occ == Post(cfg, cmd, a).occ;
    case ForwardReplies(i) => ForwardEffect(cfg, i, a, msg);
    case ReadSolution => SolutionEffect(cfg, a, msg);
    case _ =>
  }

  lemma ForwardEffect(cfg: Config, i: nat, a: Abs, msg: Message)
    requires cfg.Shaped() && |a.occ| == cfg.Size() && i < cfg.nLocal
    requires Pre(cfg, ForwardReplies(i), a) && FitsFwd(cfg, i, msg)
    ensures Effect(cfg, AfterRecv(ForwardReplies(i), msg), a.(occ := a.occ[i := Empty]))
         == Some(Post(cfg, ForwardReplies(i), a))
  {
    var b := a.(occ := a.occ[i := Empty]);
    var w := Post(cfg, WriteGlobal0(msg), b);
    assert w.occ == b.occ;
    EffectCons(cfg, WriteGlobal0(msg), [ForwardReplies(i + 1)], b);
    Effect1(cfg, ForwardReplies(i + 1), w);
    assert Post(cfg, ForwardReplies(i + 1), w).occ == Post(cfg, ForwardReplies(i), a).occ;
  }

  lemma SolutionEffect(cfg: Config, a: Abs, msg: Message)
    requires cfg.Shaped() && |a.occ| == cfg.Size()
    requires Pre(cfg, ReadSolution, a) && LocalSilent(msg.oper)
    ensures Effect(cfg, AfterRecv(ReadSolution, msg), a.(occ := a.occ[cfg.nLocal := Empty]))
         == Some(Post(cfg, ReadSolution, a))
  {
    var b := a.(occ := a.occ[cfg.nLocal := Empty]);
    EffectCons(cfg, WriteLocals(0, msg), [TestConverged(msg)], b);
    assert Post(cfg, WriteLocals(0, msg), b).occ == b.occ;
    Effect1(cfg, TestConverged(msg), b);
  }

  lemma PendingAtRecv(cfg: Config, cmd: Cmd, a: Abs)
    requires cfg.Shaped() && |a.occ| == cfg.Size() && Pre(cfg, cmd, a) && Act(cfg, cmd).Recv?
    ensures Pending(a.occ[Act(cfg, cmd).c])
  {
  }

  lemma HeadReady(cfg: Config, prog: seq<Cmd>, a: Abs)
    requires cfg.Shaped() && |a.occ| == cfg.Size() && prog != [] && Balanced(cfg, prog, a)
    ensures Pre(cfg, prog[0], a)
  {
  }

  /** Replacing the head by something with the same effect keeps the balance. */
  lemma Replace(cfg: Config, prog: seq<Cmd>, next: seq<Cmd>, a: Abs, b: Abs)
    requires cfg.Shaped() && |a.occ| == |b.occ| == cfg.Size()
    requires prog != [] && Balanced(cfg, prog, a) && Effect(cfg, next, b) == Some(Post(cfg, prog[0], a))
    ensures Balanced(cfg, next + prog[1..], b)
  {
    EffectConcat(cfg, next, prog[1..], b);
  }

  // ---------------------------------------------------------------- the invariant of a run

  /** A worker that has handled its quit message listens no more. */
  predicate HasQuit(hist: seq<Message>) { exists m :: m in hist && m.oper < 0 }

  /** A message to connection c whose reply is meant for the other side. */
  predicate AsksBack(cfg: Config, c: nat, m: Message) {
    if c < cfg.nLocal then AsksForGlobal(m) else m.oper == GLOBALEXEC
  }

  ghost predicate MatchChan(cfg: Config, c: nat, k: Kind, ch: Chan) {
    && ch.inbox == []
    && (k.Fresh? ==> ch.hist == [] && ch.outbox == [])
    && (!k.Fresh? ==> WorkerIdAfter(ch.hist) == c)
    && (k.Empty? || k.Stopped? ==> ch.outbox == [])
    && (Pending(k) ==> |ch.outbox| == 1)
    && (k.Fwd? ==> FitsFwd(cfg, c, ch.outbox[0]))
    && (Pending(k) ==> ch.hist != [] && (k.Fwd? <==> AsksBack(cfg, c, ch.hist[|ch.hist| - 1])))
    && (HasQuit(ch.hist) <==> k.Stopped?)
    && (ch.hist != [] ==> !HasQuit(ch.hist[..|ch.hist| - 1]))
  }

  predicate MatchPhase(abs: Phase, now: Option<Phase>) {
    now.Some? && (now.value == abs || (abs.Idle? && now.value.Solved?))
  }

  ghost predicate Match(cfg: Config, a: Abs, s: Sys)
    requires cfg.Shaped()
  {
    && |a.occ| == |s.chans| == cfg.Size()
    && (forall c :: 0 <= c < cfg.Size() ==> MatchChan(cfg, c, a.occ[c], s.chans[c]))
    && MatchPhase(a.phase, Track(cfg.nLocal, s.chans[cfg.nLocal].hist))
    && Balanced(cfg, s.prog, a)
  }

  lemma AppendFacts(n: nat, hist: seq<Message>, msg: Message)
    ensures WorkerIdAfter(hist + [msg]) == if msg.oper == INIT then msg.workerId else WorkerIdAfter(hist)
    ensures HasQuit(hist + [msg]) <==> HasQuit(hist) || msg.oper < 0
    ensures Track(n, hist + [msg]) == if Track(n, hist).None? then None else PhaseStep(n, Track(n, hist).value, msg)
  {
    assert (hist + [msg])[..|hist|] == hist;
    assert msg in hist + [msg];
    if HasQuit(hist) {
      var m :| m in hist && m.oper < 0;
      assert m in hist + [msg];
    }
  }

  /** Handling one message moves the connection to the kind the message stands for. */
  lemma DeliverMatches(cfg: Config, c: nat, k: Kind, ch: Chan, msg: Message)
    requires cfg.Valid() && c < cfg.Size()
    requires MatchChan(cfg, c, k, ch)
    requires k == if msg.oper == INIT then Fresh else Empty
    requires msg.oper == INIT ==> msg.workerId == c
    ensures MatchChan(cfg, c, if c < cfg.nLocal then KindLocal(msg) else KindGlobal(msg),
                      Deliver(cfg.procs[c], ch, msg))
  {
    var p := cfg.procs[c];
    AppendFacts(cfg.nLocal, ch.hist, msg);
    assert (ch.hist + [msg])[..|ch.hist|] == ch.hist;
    if msg.oper >= 0 && msg.oper != INIT {
      assert p(ch.hist, msg).oper >= 0 <==> if c < cfg.nLocal then LocalAnswers(msg.oper) else GlobalAnswers(msg.oper);
    }
  }

  /** The abstract state after a step. */
  function NextAbs(cfg: Config, s: Sys, a: Abs): (r: Abs)
    requires WellFormed(cfg, s) && |a.occ| == cfg.Size()
    ensures |r.occ| == cfg.Size()
  {
    if s.prog == [] then a
    else match Act(cfg, s.prog[0])
      case Tau(next) => if next == [] then Post(cfg, s.prog[0], a) else a
      case Send(c, msg, _) => AfterSend(cfg, c, msg, a)
      case Recv(c) => a.(occ := a.occ[c := Empty])
  }

  lemma SendSafe(cfg: Config, s: Sys, a: Abs) returns (b: Abs)
    requires cfg.Valid() && Match(cfg, a, s) && s.prog != [] && Act(cfg, s.prog[0]).Send?
    ensures SyncStep(cfg, s).Some? && Match(cfg, b, SyncStep(cfg, s).value) && b == NextAbs(cfg, s, a)
  {
    hide Track, PhaseStep, MatchChan, Balanced, Effect, Pre, Post, Act, Deliver, KindLocal, KindGlobal;
    var Send(c, msg, next) := Act(cfg, s.prog[0]);
    HeadReady(cfg, s.prog, a);
    SendEffect(cfg, s.prog[0], a);
    b := AfterSend(cfg, c, msg, a);
    Replace(cfg, s.prog, next, a, b);
    assert MatchChan(cfg, c, a.occ[c], s.chans[c]);
    SendChan(cfg, c, a.occ[c], s.chans[c], msg);
    SendPhase(cfg, a, s, c, msg);
    var t := SyncStep(cfg, s).value;
    forall d | 0 <= d < cfg.Size() ensures MatchChan(cfg, d, b.occ[d], t.chans[d]) {
      assert MatchChan(cfg, d, a.occ[d], s.chans[d]);
    }
  }

  lemma SendChan(cfg: Config, c: nat, k: Kind, ch: Chan, msg: Message)
    requires cfg.Valid() && c < cfg.Size() && MatchChan(cfg, c, k, ch)
    requires k == if msg.oper == INIT then Fresh else Empty
    requires msg.oper == INIT ==> msg.workerId == c
    ensures ch.outbox == []
    ensures MatchChan(cfg, c, if c < cfg.nLocal then KindLocal(msg) else KindGlobal(msg),
                      Deliver(cfg.procs[c], ch, msg))
  {
    DeliverMatches(cfg, c, k, ch, msg);
  }

  lemma SendPhase(cfg: Config, a: Abs, s: Sys, c: nat, msg: Message)
    requires cfg.Shaped() && |a.occ| == |s.chans| == cfg.Size() && c < cfg.Size()
    requires MatchPhase(a.phase, Track(cfg.nLocal, s.chans[cfg.nLocal].hist))
    requires c == cfg.nLocal ==> PhaseStep(c, a.phase, msg).Some?
    ensures MatchPhase(AfterSend(cfg, c, msg, a).phase,
      Track(cfg.nLocal, s.chans[c := Deliver(cfg.procs[c], s.chans[c], msg)][cfg.nLocal].hist))
  {
    hide Track, PhaseStep, Handle;
    AppendFacts(cfg.nLocal, s.chans[c].hist, msg);
    PhaseStepLifts(cfg.nLocal, a.phase, Track(cfg.nLocal, s.chans[cfg.nLocal].hist).value, msg);
  }

  lemma PhaseStepLifts(n: nat, abs: Phase, now: Phase, msg: Message)
    requires MatchPhase(abs, Some(now))
    ensures PhaseStep(n, abs, msg).Some? ==> MatchPhase(PhaseStep(n, abs, msg).value, PhaseStep(n, now, msg))
  {
  }

  lemma RecvSafe(cfg: Config, s: Sys, a: Abs) returns (b: Abs)
    requires cfg.Valid() && Match(cfg, a, s) && s.prog != [] && Act(cfg, s.prog[0]).Recv?
    ensures SyncStep(cfg, s).Some? && Match(cfg, b, SyncStep(cfg, s).value) && b == NextAbs(cfg, s, a)
  {
    var c := Act(cfg, s.prog[0]).c;
    PendingAtRecv(cfg, s.prog[0], a);
    assert MatchChan(cfg, c, a.occ[c], s.chans[c]);
    RecvEffect(cfg, s.prog[0], a, s.chans[c].outbox[0]);
    b := a.(occ := a.occ[c := Empty]);
    Replace(cfg, s.prog, AfterRecv(s.prog[0], s.chans[c].outbox[0]), a, b);
    var t := SyncStep(cfg, s).value;
    forall d | 0 <= d < cfg.Size() ensures MatchChan(cfg, d, b.occ[d], t.chans[d]) {
      assert MatchChan(cfg, d, a.occ[d], s.chans[d]);
    }
  }

  lemma TauSafe(cfg: Config, s: Sys, a: Abs) returns (b: Abs)
    requires cfg.Valid() && Match(cfg, a, s) && s.prog != [] && Act(cfg, s.prog[0]).Tau?
    ensures SyncStep(cfg, s).Some? && Match(cfg, b, SyncStep(cfg, s).value) && b == NextAbs(cfg, s, a)
  {
    var next := Act(cfg, s.prog[0]).next;
    TauEffect(cfg, s.prog[0], a);
    b := if next == [] then Post(cfg, s.prog[0], a) else a;
    Replace(cfg, s.prog, next, a, b);
  }

  /** One step never fails an assertion and keeps the invariant. */
  lemma SyncStepSafe(cfg: Config, s: Sys, a: Abs) returns (b: Abs)
    requires cfg.Valid() && Match(cfg, a, s)
    ensures SyncStep(cfg, s).Some? && Match(cfg, b, SyncStep(cfg, s).value) && b == NextAbs(cfg, s, a)
  {
    if s.prog == [] {
      b := a;
    } else {
      match Act(cfg, s.prog[0])
      case Tau(_) => b := TauSafe(cfg, s, a);
      case Send(_, _, _) => b := SendSafe(cfg, s, a);
      case Recv(_) => b := RecvSafe(cfg, s, a);
    }
  }

  lemma StartMatches(cfg: Config) returns (a: Abs)
    requires cfg.Valid()
    ensures Match(cfg, a, Start(cfg))
  {
    a := Abs(seq(cfg.Size(), _ => Fresh), Idle);
    ProgramBalanced(cfg);
  }

  /** For every step tree, number of workers, reply contents and convergence behaviour, and after any
      number of steps (also of a run that never converges): no write has met an unread result and
      no read an empty connection. */
  lemma {:induction false} SyncRunSafe(cfg: Config, k: nat) returns (a: Abs)
    requires cfg.Valid()
    ensures SyncRun(cfg, Start(cfg), k).Some? && Match(cfg, a, SyncRun(cfg, Start(cfg), k).value)
  {
    if k == 0 {
      a := StartMatches(cfg);
    } else {
      a := SyncRunSafe(cfg, k - 1);
      a := SyncStepSafe(cfg, SyncRun(cfg, Start(cfg), k - 1).value, a);
    }
  }

  predicate AllQuiet(s: Sys) { forall c :: 0 <= c < |s.chans| ==> s.chans[c].inbox == [] && s.chans[c].outbox == [] }

  /** Between steps and between work domains all connections are empty. */
  lemma QuietBetweenSteps(cfg: Config, k: nat, s: Sys)
    requires cfg.Valid() && SyncRun(cfg, Start(cfg), k) == Some(s)
    requires s.prog != [] && (s.prog[0].Visit? || s.prog[0].VisitAll? || s.prog[0].NextDomain? || s.prog[0].Iterate?)
    ensures AllQuiet(s)
  {
    var a := SyncRunSafe(cfg, k);
    forall c | 0 <= c < |s.chans| ensures s.chans[c].inbox == [] && s.chans[c].outbox == [] {
      assert MatchChan(cfg, c, a.occ[c], s.chans[c]);
    }
  }

  /** One reply of every worker from 0 on, in index order. */
  predicate RepliesInOrder(ms: seq<Message>) {
    forall k :: 0 <= k < |ms| ==> GlobalSilent(ms[k].oper) && ms[k].workerId == k
  }

  /** In a history the phase function accepts, a collection of i replies ends the history. */
  lemma {:induction false} RepliesAtEnd(n: nat, hist: seq<Message>, i: nat)
    requires Track(n, hist) == Some(Equations(i))
    ensures i <= n && i <= |hist|
    ensures RepliesInOrder(hist[|hist| - i..])
  {
    if hist != [] && i > 0 {
      var front, last := hist[..|hist| - 1], hist[|hist| - 1];
      if Track(n, front) == Some(Equations(i - 1)) {
        RepliesAtEnd(n, front, i - 1);
        assert hist[|hist| - i..] == front[|front| - (i - 1)..] + [last];
      } else {
        assert hist[|hist| - i..] == [last];
      }
    }
  }

  /** Every GlobalExec comes directly after one reply of each local worker, in index order. */
  lemma ExecAfterAllReplies(n: nat, hist: seq<Message>)
    requires hist != [] && hist[|hist| - 1].oper == GLOBALEXEC && Track(n, hist).Some?
    ensures n < |hist|
    ensures RepliesInOrder(hist[|hist| - 1 - n..|hist| - 1])
  {
    if n > 0 {
      var front := hist[..|hist| - 1];
      RepliesAtEnd(n, front, n);
      assert hist[|hist| - 1 - n..|hist| - 1] == front[|front| - n..];
    }
  }

  /** When the master has finished, every worker has been told to quit and no reply is left unread. */
  lemma FinishedRunHasQuit(cfg: Config, k: nat, s: Sys, c: nat)
    requires cfg.Valid() && SyncRun(cfg, Start(cfg), k) == Some(s) && s.prog == [] && c < cfg.Size()
    ensures HasQuit(s.chans[c].hist) && s.chans[c].outbox == []
  {
    var a := SyncRunSafe(cfg, k);
    assert MatchChan(cfg, c, a.occ[c], s.chans[c]);
  }

  /** The first global worker's messages always follow the solve protocol; in particular every
      GlobalExec is preceded by exactly one reply of each local worker, in index order. */
  lemma GlobalWorkerProtocol(cfg: Config, k: nat)
    requires cfg.Valid()
    ensures SyncRun(cfg, Start(cfg), k).Some?
    ensures Track(cfg.nLocal, SyncRun(cfg, Start(cfg), k).value.chans[cfg.nLocal].hist).Some?
  {
    var a := SyncRunSafe(cfg, k);
  }
}
