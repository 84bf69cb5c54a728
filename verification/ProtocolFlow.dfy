/** Where the contents of forwarded messages come from, and when the solve loop goes on: the global worker
    gets exactly the replies the local workers gave for it, the local workers get exactly its solutions, and
    a global step is iterated as long as its solution has not converged and no longer. */
module ProtocolFlow {
  import opened MWSteps
  import opened Options
  import opened ObsDomains
  import opened Protocol
  import opened ProtocolSafety
  import opened ProtocolTrace

  // ---------------------------------------------------------------- replies given and replies told

  function Last(hist: seq<Message>): Message
    requires hist != []
  {
    hist[|hist| - 1]
  }

  /** What the process function of the worker on connection c returns for m, as a message. */
  function Answer(cfg: Config, c: nat, hist: seq<Message>, m: Message): Message
    requires c < |cfg.procs|
  {
    var r := cfg.procs[c](hist, m);
    Message(r.oper, m.streamId, c, r.body)
  }

  /** The replies of the worker on connection c that are meant for the other side. */
  function Given(cfg: Config, c: nat, hist: seq<Message>): seq<Message>
    requires c < |cfg.procs|
  {
    if hist == [] then []
    else
      var front := hist[..|hist| - 1];
      Given(cfg, c, front) + if AsksBack(cfg, c, Last(hist)) then [Answer(cfg, c, front, Last(hist))] else []
  }

  /** Such a reply the master has not read yet. */
  function Waiting(cfg: Config, c: nat, ch: Chan): seq<Message> {
    if ch.hist != [] && AsksBack(cfg, c, Last(ch.hist)) then ch.outbox else []
  }

  predicate IsReplyOf(c: nat, m: Message) { GlobalSilent(m.oper) && m.workerId == c }

  /** What the global worker has been told of the replies of local worker c. */
  function RepliesTold(c: nat, hist: seq<Message>): seq<Message> {
    if hist == [] then []
    else RepliesTold(c, hist[..|hist| - 1]) + if IsReplyOf(c, Last(hist)) then [Last(hist)] else []
  }

  /** The solutions a local worker has been told. */
  function SolutionsTold(hist: seq<Message>): seq<Message> {
    if hist == [] then []
    else SolutionsTold(hist[..|hist| - 1]) + if LocalSilent(Last(hist).oper) then [Last(hist)] else []
  }

  /** A reply of worker c, a solution for worker c that the master has read and is about to pass on. */
  function ReplyInHand(c: nat, prog: seq<Cmd>): seq<Message> {
    if prog != [] && prog[0].WriteGlobal0? && IsReplyOf(c, prog[0].msg) then [prog[0].msg] else []
  }

  function SolutionInHand(c: nat, prog: seq<Cmd>): seq<Message> {
    if prog != [] && prog[0].WriteLocals? && prog[0].i <= c && LocalSilent(prog[0].msg.oper) then [prog[0].msg] else []
  }

  /** Only the first command passes something on. */
  predicate PassesNothing(cmd: Cmd) {
    (cmd.WriteGlobal0? ==> !GlobalSilent(cmd.msg.oper)) && (cmd.WriteLocals? ==> !LocalSilent(cmd.msg.oper))
  }

  predicate TailPassesNothing(prog: seq<Cmd>) { forall k :: 1 <= k < |prog| ==> PassesNothing(prog[k]) }

  /** What local worker c gave for the global worker is what that was told of it, what is in the master's
      hand, and what has not been read. The same for the solutions, the other way round. */
  ghost predicate FlowAt(cfg: Config, s: Sys, c: nat)
    requires WellFormed(cfg, s) && c < cfg.nLocal
  {
    var l, g := s.chans[c], s.chans[cfg.nLocal];
    && RepliesTold(c, g.hist) + ReplyInHand(c, s.prog) + Waiting(cfg, c, l) == Given(cfg, c, l.hist)
    && SolutionsTold(l.hist) + SolutionInHand(c, s.prog) + Waiting(cfg, cfg.nLocal, g) == Given(cfg, cfg.nLocal, g.hist)
  }

  ghost predicate Flow(cfg: Config, s: Sys)
    requires WellFormed(cfg, s)
  {
    TailPassesNothing(s.prog) && forall c :: 0 <= c < cfg.nLocal ==> FlowAt(cfg, s, c)
  }

  lemma HistAppend(cfg: Config, c: nat, d: nat, hist: seq<Message>, m: Message)
    requires d < |cfg.procs|
    ensures RepliesTold(c, hist + [m]) == RepliesTold(c, hist) + if IsReplyOf(c, m) then [m] else []
    ensures SolutionsTold(hist + [m]) == SolutionsTold(hist) + if LocalSilent(m.oper) then [m] else []
    ensures Given(cfg, d, hist + [m])
         == Given(cfg, d, hist) + if AsksBack(cfg, d, m) then [Answer(cfg, d, hist, m)] else []
  {
    hide Answer, AsksBack;
    assert (hist + [m])[..|hist|] == hist;
  }

  /** What a command unfolds to passes nothing on; after a read only its first command does. */
  lemma NextPassesNothing(cfg: Config, cmd: Cmd)
    requires cfg.Shaped()
    ensures Act(cfg, cmd).Tau? ==> forall x :: x in Act(cfg, cmd).next ==> PassesNothing(x)
    ensures Act(cfg, cmd).Recv? ==> forall m: Message :: TailPassesNothing(AfterRecv(cmd, m))
    ensures Act(cfg, cmd).Send? ==> |Act(cfg, cmd).next| <= 1
  {
    hide Next;
  }

  lemma TailParts(next: seq<Cmd>, prog: seq<Cmd>)
    requires prog != [] && TailPassesNothing(prog) && TailPassesNothing(next)
    ensures TailPassesNothing(next + prog[1..])
    ensures next == [] && |prog| > 1 ==> PassesNothing((next + prog[1..])[0])
  {
    assert forall k :: 0 <= k < |prog| - 1 ==> prog[1..][k] == prog[k + 1];
  }

  lemma PassingNothing(c: nat, prog: seq<Cmd>)
    requires prog != [] ==> PassesNothing(prog[0])
    ensures ReplyInHand(c, prog) == [] && SolutionInHand(c, prog) == []
  {
  }

  lemma TauFlow(cfg: Config, s: Sys)
    requires WellFormed(cfg, s) && Flow(cfg, s) && s.prog != [] && Act(cfg, s.prog[0]).Tau?
    ensures SyncStep(cfg, s).Some? && Flow(cfg, SyncStep(cfg, s).value)
  {
    hide Given, RepliesTold, SolutionsTold, Waiting, PassesNothing, Act;
    var t := SyncStep(cfg, s).value;
    var next := Act(cfg, s.prog[0]).next;
    NextPassesNothing(cfg, s.prog[0]);
    TailParts(next, s.prog);
    forall c | 0 <= c < cfg.nLocal ensures FlowAt(cfg, t, c) {
      assert FlowAt(cfg, s, c);
      TauHands(cfg, s.prog[0], s.prog, c);
      PassingNothing(c, t.prog);
    }
  }

  lemma TauHands(cfg: Config, cmd: Cmd, prog: seq<Cmd>, c: nat)
    requires cfg.Shaped() && prog != [] && prog[0] == cmd && Act(cfg, cmd).Tau? && c < cfg.nLocal
    ensures ReplyInHand(c, prog) == [] && SolutionInHand(c, prog) == []
  {
  }

  /** A write passes on what is in the master's hand for the connection. */
  lemma SendHands(cfg: Config, prog: seq<Cmd>, c: nat)
    requires cfg.Shaped() && prog != [] && TailPassesNothing(prog) && Act(cfg, prog[0]).Send? && c < cfg.nLocal
    requires prog[0].WriteGlobals? ==> !GlobalSilent(prog[0].msg.oper)
    ensures var Send(d, msg, next) := Act(cfg, prog[0]);
      var after := next + prog[1..];
      && TailPassesNothing(after)
      && ReplyInHand(c, prog) == (if d == cfg.nLocal && IsReplyOf(c, msg) then [msg] else [])
      && ReplyInHand(c, after) == []
      && SolutionInHand(c, prog) == (if d == c && LocalSilent(msg.oper) then [msg] else []) + SolutionInHand(c, after)
  {
    var next := Act(cfg, prog[0]).next;
    NextPassesNothing(cfg, prog[0]);
    TailParts(next, prog);
  }

  /** The reply that is asked for is the answer of the process function, under the worker's own id. */
  predicate Answered(cfg: Config, d: nat, ch: Chan, msg: Message)
    requires d < |cfg.procs|
  {
    AsksBack(cfg, d, msg) ==> Handle(cfg.procs[d], ch.hist, msg) == Some(Answer(cfg, d, ch.hist, msg))
  }

  lemma AskAnswered(cfg: Config, s: Sys, a: Abs)
    requires cfg.Valid() && Match(cfg, a, s) && s.prog != [] && Act(cfg, s.prog[0]).Send?
    ensures var Send(d, msg, next) := Act(cfg, s.prog[0]);
      d < |cfg.procs| && Answered(cfg, d, s.chans[d], msg)
  {
    var Send(d, msg, next) := Act(cfg, s.prog[0]);
    HeadReady(cfg, s.prog, a);
    SendEffect(cfg, s.prog[0], a);
    assert MatchChan(cfg, d, a.occ[d], s.chans[d]);
    AppendFacts(0, s.chans[d].hist, msg);
    if AsksBack(cfg, d, msg) {
      var p := cfg.procs[d];
      assert p(s.chans[d].hist, msg).oper >= 0 <==>
        if d < cfg.nLocal then LocalAnswers(msg.oper) else GlobalAnswers(msg.oper);
    }
  }

  /** A worker that is told a message gives what is asked for. */
  lemma DeliverFlow(cfg: Config, d: nat, ch: Chan, msg: Message)
    requires d < |cfg.procs| && ch.outbox == [] && Answered(cfg, d, ch, msg)
    ensures var after := Deliver(cfg.procs[d], ch, msg);
      && Waiting(cfg, d, ch) == []
      && Given(cfg, d, after.hist) == Given(cfg, d, ch.hist) + Waiting(cfg, d, after)
  {
    hide Handle, AsksBack;
    HistAppend(cfg, 0, d, ch.hist, msg);
  }

  lemma SendFlow(cfg: Config, s: Sys, a: Abs)
    requires cfg.Valid() && Match(cfg, a, s) && Flow(cfg, s) && s.prog != [] && Act(cfg, s.prog[0]).Send?
    ensures SyncStep(cfg, s).Some? && Flow(cfg, SyncStep(cfg, s).value)
  {
    var b := SyncStepSafe(cfg, s, a);
    HeadReady(cfg, s.prog, a);
    WriteGlobalsTells(cfg, s.prog[0], a);
    AskAnswered(cfg, s, a);
    var d := Act(cfg, s.prog[0]).c;
    hide Match, Given, RepliesTold, SolutionsTold, Waiting, PassesNothing, Act, Deliver, ReplyInHand, SolutionInHand,
      TailPassesNothing, Config.Valid, NextAbs;
    forall c | 0 <= c < cfg.nLocal
      ensures FlowAt(cfg, SyncStep(cfg, s).value, c) && TailPassesNothing(SyncStep(cfg, s).value.prog)
    {
      assert FlowAt(cfg, s, c);
      SendFlowAt(cfg, s, c);
    }
    SendTail(cfg, s.prog);
  }

  lemma SendTail(cfg: Config, prog: seq<Cmd>)
    requires cfg.Shaped() && prog != [] && TailPassesNothing(prog) && Act(cfg, prog[0]).Send?
    ensures TailPassesNothing(Act(cfg, prog[0]).next + prog[1..])
  {
    NextPassesNothing(cfg, prog[0]);
    TailParts(Act(cfg, prog[0]).next, prog);
  }

  lemma WriteGlobalsTells(cfg: Config, cmd: Cmd, a: Abs)
    requires cfg.Shaped() && |a.occ| == cfg.Size() && Pre(cfg, cmd, a)
    ensures cmd.WriteGlobals? ==> !GlobalSilent(cmd.msg.oper)
  {
  }

  /** A message passed on moves from the master's hand to what has been told. */
  lemma PassesOn(told: seq<Message>, x: seq<Message>, hand: seq<Message>, waiting: seq<Message>)
    ensures told + (x + hand) + waiting == (told + x) + hand + waiting
  {
  }

  /** A reply given waits to be read. */
  lemma Gives(told: seq<Message>, hand: seq<Message>, x: seq<Message>)
    ensures told + hand + [] + x == told + hand + x
  {
  }

  lemma SendFlowAt(cfg: Config, s: Sys, c: nat)
    requires WellFormed(cfg, s) && s.prog != [] && Act(cfg, s.prog[0]).Send? && c < cfg.nLocal
    requires SyncStep(cfg, s).Some? && TailPassesNothing(s.prog) && FlowAt(cfg, s, c)
    requires s.prog[0].WriteGlobals? ==> !GlobalSilent(s.prog[0].msg.oper)
    requires var Send(d, msg, _) := Act(cfg, s.prog[0]); Answered(cfg, d, s.chans[d], msg)
    ensures FlowAt(cfg, SyncStep(cfg, s).value, c) && TailPassesNothing(SyncStep(cfg, s).value.prog)
  {
    var d, msg := Act(cfg, s.prog[0]).c, Act(cfg, s.prog[0]).msg;
    var t := SyncStep(cfg, s).value;
    SendHands(cfg, s.prog, c);
    SendChans(cfg, s);
    DeliverFlow(cfg, d, s.chans[d], msg);
    HistAppend(cfg, c, d, s.chans[d].hist, msg);
    hide Act, SyncStep, Deliver, AsksBack, TailPassesNothing;
    SendReplies(cfg, s, t, c, d, msg);
    SendSolutions(cfg, s, t, c, d, msg);
  }

  /** A write changes the one connection. */
  lemma SendChans(cfg: Config, s: Sys)
    requires WellFormed(cfg, s) && s.prog != [] && Act(cfg, s.prog[0]).Send? && SyncStep(cfg, s).Some?
    ensures var Send(d, msg, next) := Act(cfg, s.prog[0]);
      var t := SyncStep(cfg, s).value;
      && s.chans[d].outbox == [] && t.prog == next + s.prog[1..]
      && t.chans[d] == Deliver(cfg.procs[d], s.chans[d], msg) && t.chans[d].hist == s.chans[d].hist + [msg]
      && forall e :: 0 <= e < cfg.Size() && e != d ==> t.chans[e] == s.chans[e]
  {
  }

  lemma SendReplies(cfg: Config, s: Sys, t: Sys, c: nat, d: nat, msg: Message)
    requires WellFormed(cfg, s) && WellFormed(cfg, t) && c < cfg.nLocal && d < cfg.Size() && FlowAt(cfg, s, c)
    requires forall e :: 0 <= e < cfg.Size() && e != d ==> t.chans[e] == s.chans[e]
    requires Waiting(cfg, d, s.chans[d]) == []
    requires Given(cfg, d, t.chans[d].hist) == Given(cfg, d, s.chans[d].hist) + Waiting(cfg, d, t.chans[d])
    requires RepliesTold(c, t.chans[d].hist)
          == RepliesTold(c, s.chans[d].hist) + if IsReplyOf(c, msg) then [msg] else []
    requires ReplyInHand(c, s.prog) == (if d == cfg.nLocal && IsReplyOf(c, msg) then [msg] else [])
    requires ReplyInHand(c, t.prog) == []
    ensures RepliesTold(c, t.chans[cfg.nLocal].hist) + ReplyInHand(c, t.prog) + Waiting(cfg, c, t.chans[c])
         == Given(cfg, c, t.chans[c].hist)
  {
    hide Given, RepliesTold, SolutionsTold, Waiting, ReplyInHand, SolutionInHand, IsReplyOf;
    var told, x := RepliesTold(c, s.chans[cfg.nLocal].hist), ReplyInHand(c, s.prog);
    assert x + [] == x;
    PassesOn(told, x, [], Waiting(cfg, c, s.chans[c]));
    Gives(told, [], Waiting(cfg, c, t.chans[c]));
  }

  lemma SendSolutions(cfg: Config, s: Sys, t: Sys, c: nat, d: nat, msg: Message)
    requires WellFormed(cfg, s) && WellFormed(cfg, t) && c < cfg.nLocal && d < cfg.Size() && FlowAt(cfg, s, c)
    requires forall e :: 0 <= e < cfg.Size() && e != d ==> t.chans[e] == s.chans[e]
    requires Waiting(cfg, d, s.chans[d]) == []
    requires Given(cfg, d, t.chans[d].hist) == Given(cfg, d, s.chans[d].hist) + Waiting(cfg, d, t.chans[d])
    requires SolutionsTold(t.chans[d].hist)
          == SolutionsTold(s.chans[d].hist) + if LocalSilent(msg.oper) then [msg] else []
    requires SolutionInHand(c, s.prog)
          == (if d == c && LocalSilent(msg.oper) then [msg] else []) + SolutionInHand(c, t.prog)
    ensures SolutionsTold(t.chans[c].hist) + SolutionInHand(c, t.prog) + Waiting(cfg, cfg.nLocal, t.chans[cfg.nLocal])
         == Given(cfg, cfg.nLocal, t.chans[cfg.nLocal].hist)
  {
    hide Given, RepliesTold, SolutionsTold, Waiting, ReplyInHand, SolutionInHand, LocalSilent;
    var n, told, hand := cfg.nLocal, SolutionsTold(s.chans[c].hist), SolutionInHand(c, t.prog);
    var x := if d == c && LocalSilent(msg.oper) then [msg] else [];
    PassesOn(told, x, hand, Waiting(cfg, n, s.chans[n]));
    assert told + [] == told;
    Gives(told, hand, Waiting(cfg, n, t.chans[n]));
  }

  /** What is known of the reply the master is about to read. */
  predicate ReadFits(cfg: Config, cmd: Cmd, d: nat, ch: Chan) {
    && |ch.outbox| == 1 && ch.hist != []
    && (AsksBack(cfg, d, Last(ch.hist)) <==> cmd.ForwardReplies? || cmd.ReadSolution?)
    && (cmd.ForwardReplies? ==> IsReplyOf(d, ch.outbox[0]))
    && (cmd.ReadSolution? ==> LocalSilent(ch.outbox[0].oper))
  }

  lemma ReadFinds(cfg: Config, s: Sys, a: Abs)
    requires cfg.Valid() && Match(cfg, a, s) && s.prog != [] && Act(cfg, s.prog[0]).Recv?
    ensures ReadFits(cfg, s.prog[0], Act(cfg, s.prog[0]).c, s.chans[Act(cfg, s.prog[0]).c])
  {
    var d := Act(cfg, s.prog[0]).c;
    HeadReady(cfg, s.prog, a);
    assert MatchChan(cfg, d, a.occ[d], s.chans[d]);
    ReadKind(cfg, s.prog[0], a);
  }

  lemma ReadKind(cfg: Config, cmd: Cmd, a: Abs)
    requires cfg.Shaped() && |a.occ| == cfg.Size() && Pre(cfg, cmd, a) && Act(cfg, cmd).Recv?
    ensures a.occ[Act(cfg, cmd).c] == if cmd.ForwardReplies? || cmd.ReadSolution? then Fwd else Ack
  {
  }

  /** What a read brings into the master's hand. */
  lemma RecvHands(cfg: Config, prog: seq<Cmd>, c: nat, ch: Chan)
    requires cfg.Shaped() && prog != [] && TailPassesNothing(prog) && Act(cfg, prog[0]).Recv? && c < cfg.nLocal
    requires ReadFits(cfg, prog[0], Act(cfg, prog[0]).c, ch)
    ensures var d := Act(cfg, prog[0]).c;
      var after := AfterRecv(prog[0], ch.outbox[0]) + prog[1..];
      && TailPassesNothing(after)
      && ReplyInHand(c, prog) == SolutionInHand(c, prog) == []
      && ReplyInHand(c, after) == (if d == c then Waiting(cfg, c, ch) else [])
      && SolutionInHand(c, after) == (if d == cfg.nLocal then Waiting(cfg, d, ch) else [])
  {
    var next := AfterRecv(prog[0], ch.outbox[0]);
    NextPassesNothing(cfg, prog[0]);
    TailParts(next, prog);
    assert ch.outbox == [ch.outbox[0]];
  }

  /** A reply that waited is in the master's hand. */
  lemma Reads(told: seq<Message>, x: seq<Message>)
    ensures told + [] + x == told + x + []
  {
  }

  lemma RecvFlowAt(cfg: Config, s: Sys, c: nat)
    requires WellFormed(cfg, s) && s.prog != [] && Act(cfg, s.prog[0]).Recv? && c < cfg.nLocal
    requires TailPassesNothing(s.prog) && FlowAt(cfg, s, c)
    requires ReadFits(cfg, s.prog[0], Act(cfg, s.prog[0]).c, s.chans[Act(cfg, s.prog[0]).c])
    ensures SyncStep(cfg, s).Some? && FlowAt(cfg, SyncStep(cfg, s).value, c)
  {
    var d, n, l, g := Act(cfg, s.prog[0]).c, cfg.nLocal, s.chans[c], s.chans[cfg.nLocal];
    var t := SyncStep(cfg, s).value;
    RecvHands(cfg, s.prog, c, s.chans[d]);
    RecvTail(cfg, s.prog, s.chans[d]);
    assert Waiting(cfg, d, t.chans[d]) == [];
    hide Given, RepliesTold, SolutionsTold, PassesNothing, Act, ReplyInHand, SolutionInHand, AfterRecv,
      TailPassesNothing, AsksBack, ReadFits, Waiting;
    Reads(RepliesTold(c, g.hist), Waiting(cfg, c, l));
    Reads(SolutionsTold(l.hist), Waiting(cfg, n, g));
  }

  lemma RecvFlow(cfg: Config, s: Sys, a: Abs)
    requires cfg.Valid() && Match(cfg, a, s) && Flow(cfg, s) && s.prog != [] && Act(cfg, s.prog[0]).Recv?
    ensures SyncStep(cfg, s).Some? && Flow(cfg, SyncStep(cfg, s).value)
  {
    var d := Act(cfg, s.prog[0]).c;
    ReadFinds(cfg, s, a);
    hide Match, FlowAt, PassesNothing, Act, AfterRecv, TailPassesNothing, Config.Valid, AsksBack, ReadFits;
    RecvTail(cfg, s.prog, s.chans[d]);
    assert SyncStep(cfg, s).Some? by { ReadThere(cfg, s); }
    forall c | 0 <= c < cfg.nLocal ensures FlowAt(cfg, SyncStep(cfg, s).value, c) {
      RecvFlowAt(cfg, s, c);
    }
  }

  lemma ReadThere(cfg: Config, s: Sys)
    requires WellFormed(cfg, s) && s.prog != [] && Act(cfg, s.prog[0]).Recv?
    requires |s.chans[Act(cfg, s.prog[0]).c].outbox| == 1
    ensures SyncStep(cfg, s).Some?
  {
  }

  lemma RecvTail(cfg: Config, prog: seq<Cmd>, ch: Chan)
    requires cfg.Shaped() && prog != [] && TailPassesNothing(prog) && Act(cfg, prog[0]).Recv?
    requires ReadFits(cfg, prog[0], Act(cfg, prog[0]).c, ch)
    ensures |ch.outbox| == 1 && ch.outbox[1..] == []
    ensures TailPassesNothing(AfterRecv(prog[0], ch.outbox[0]) + prog[1..])
  {
    NextPassesNothing(cfg, prog[0]);
    TailParts(AfterRecv(prog[0], ch.outbox[0]), prog);
  }

  lemma StepFlow(cfg: Config, s: Sys, a: Abs)
    requires cfg.Valid() && Match(cfg, a, s) && Flow(cfg, s)
    ensures SyncStep(cfg, s).Some? && Flow(cfg, SyncStep(cfg, s).value)
  {
    hide Flow, SyncStep;
    if s.prog == [] {
      NoStep(cfg, s);
    } else {
      match Act(cfg, s.prog[0])
      case Tau(_) => TauFlow(cfg, s);
      case Send(_, _, _) => SendFlow(cfg, s, a);
      case Recv(_) => RecvFlow(cfg, s, a);
    }
  }

  lemma NoStep(cfg: Config, s: Sys)
    requires WellFormed(cfg, s) && s.prog == []
    ensures SyncStep(cfg, s) == Some(s)
  {
  }

  lemma StartFlow(cfg: Config)
    requires cfg.Shaped()
    ensures Flow(cfg, Start(cfg))
  {
  }

  /** At every moment of every run, whatever the workers answer: the replies of each local worker that are
      meant for the global worker have been told to it, in order and unchanged, but for the one under way;
      and so have the solutions to each local worker. */
  lemma {:induction false} RunFlow(cfg: Config, k: nat)
    requires cfg.Valid()
    ensures SyncRun(cfg, Start(cfg), k).Some? && Flow(cfg, SyncRun(cfg, Start(cfg), k).value)
  {
    hide Flow, SyncStep, Match, Config.Valid, NextAbs;
    var a := SyncRunSafe(cfg, k);
    if k == 0 {
      StartFlow(cfg);
    } else {
      RunFlow(cfg, k - 1);
      a := SyncRunSafe(cfg, k - 1);
      StepFlow(cfg, SyncRun(cfg, Start(cfg), k - 1).value, a);
    }
  }

  /** Nothing is under way in a finished run: everything given has been told. */
  lemma FinishedRunToldAll(cfg: Config, k: nat, s: Sys, c: nat)
    requires cfg.Valid() && SyncRun(cfg, Start(cfg), k) == Some(s) && s.prog == [] && c < cfg.nLocal
    ensures RepliesTold(c, s.chans[cfg.nLocal].hist) == Given(cfg, c, s.chans[c].hist)
    ensures SolutionsTold(s.chans[c].hist) == Given(cfg, cfg.nLocal, s.chans[cfg.nLocal].hist)
  {
    RunFlow(cfg, k);
    FinishedRunHasQuit(cfg, k, s, c);
    FinishedRunHasQuit(cfg, k, s, cfg.nLocal);
    hide Given, RepliesTold, SolutionsTold;
    assert FlowAt(cfg, s, c);
    assert Waiting(cfg, c, s.chans[c]) == [] && Waiting(cfg, cfg.nLocal, s.chans[cfg.nLocal]) == [];
  }
}
