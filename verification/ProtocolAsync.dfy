/** The same master with workers running WorkerControl::run over FIFO connections: every interleaving
    is the synchronous run with some messages still under way. */
module ProtocolAsync {
  import opened Options
  import opened ObsDomains
  import opened Protocol
  import opened ProtocolSafety

  datatype Label = Master | Worker(c: nat)

  /** One step of the master over FIFO connections; None when it has to wait or is done. */
  function MasterStep(cfg: Config, s: Sys): (r: Option<Sys>)
    requires WellFormed(cfg, s)
    ensures r.Some? ==> WellFormed(cfg, r.value)
  {
    if s.prog == [] then None
    else
      var rest := s.prog[1..];
      match Act(cfg, s.prog[0])
      case Tau(next) => Some(s.(prog := next + rest))
      case Send(c, msg, next) =>
        Some(Sys(next + rest, s.chans[c := s.chans[c].(inbox := s.chans[c].inbox + [msg])]))
      case Recv(c) =>
        if s.chans[c].outbox == [] then None
        else Some(Sys(AfterRecv(s.prog[0], s.chans[c].outbox[0]) + rest,
                      s.chans[c := s.chans[c].(outbox := s.chans[c].outbox[1..])]))
  }

  /** One round of WorkerControl::run: read a message, handle it, write the reply if there is one.
      The loop has ended when a quit message was handled. */
  function WorkerStep(cfg: Config, s: Sys, c: nat): (r: Option<Sys>)
    requires WellFormed(cfg, s)
    ensures r.Some? ==> WellFormed(cfg, r.value)
  {
    if c < cfg.Size() && s.chans[c].inbox != [] && !HasQuit(s.chans[c].hist) then
      var ch := s.chans[c];
      Some(s.(chans := s.chans[c := Deliver(cfg.procs[c], ch.(inbox := ch.inbox[1..]), ch.inbox[0])]))
    else None
  }

  function Step(cfg: Config, s: Sys, l: Label): (r: Option<Sys>)
    requires WellFormed(cfg, s)
    ensures r.Some? ==> WellFormed(cfg, r.value)
  {
    if l.Master? then MasterStep(cfg, s) else WorkerStep(cfg, s, l.c)
  }

  /** The state a schedule leads to; None when a label of it is not enabled. */
  function AsyncRun(cfg: Config, s: Sys, schedule: seq<Label>): (r: Option<Sys>)
    requires WellFormed(cfg, s)
    ensures r.Some? ==> WellFormed(cfg, r.value)
  {
    if schedule == [] then Some(s)
    else match AsyncRun(cfg, s, schedule[..|schedule| - 1])
      case None => None
      case Some(t) => Step(cfg, t, schedule[|schedule| - 1])
  }

  function MasterSteps(schedule: seq<Label>): nat {
    if schedule == [] then 0
    else MasterSteps(schedule[..|schedule| - 1]) + if schedule[|schedule| - 1].Master? then 1 else 0
  }

  // ---------------------------------------------------------------- delivering what is under way

  /** The replies to a sequence of messages. */
  function Replies(p: Process, hist: seq<Message>, msgs: seq<Message>): seq<Message>
    decreases msgs
  {
    if msgs == [] then [] else ToSeq(Handle(p, hist, msgs[0])) + Replies(p, hist + [msgs[0]], msgs[1..])
  }

  lemma {:induction false} RepliesAppend(p: Process, hist: seq<Message>, msgs: seq<Message>, m: Message)
    ensures Replies(p, hist, msgs + [m]) == Replies(p, hist, msgs) + ToSeq(Handle(p, hist + msgs, m))
    decreases msgs
  {
    hide Handle;
    if msgs == [] {
      assert hist + msgs == hist;
      assert Replies(p, hist + [m], []) == [];
    } else {
      var first, tail := ToSeq(Handle(p, hist, msgs[0])), Replies(p, hist + [msgs[0]], msgs[1..]);
      var last := ToSeq(Handle(p, hist + msgs, m));
      assert (msgs + [m])[1..] == msgs[1..] + [m];
      RepliesAppend(p, hist + [msgs[0]], msgs[1..], m);
      assert hist + [msgs[0]] + msgs[1..] == hist + msgs;
      assert first + (tail + last) == first + tail + last;
    }
  }

  /** The connection once the worker has handled everything on its way. */
  function FlushChan(p: Process, ch: Chan): Chan {
    Chan([], ch.hist + ch.inbox, ch.outbox + Replies(p, ch.hist, ch.inbox))
  }

  function Flush(cfg: Config, s: Sys): (r: Sys)
    requires WellFormed(cfg, s)
    ensures WellFormed(cfg, r)
  {
    Sys(s.prog, seq(cfg.Size(), c requires 0 <= c < cfg.Size() => FlushChan(cfg.procs[c], s.chans[c])))
  }

  lemma FlushWorker(p: Process, ch: Chan)
    requires ch.inbox != []
    ensures FlushChan(p, Deliver(p, ch.(inbox := ch.inbox[1..]), ch.inbox[0])) == FlushChan(p, ch)
  {
    assert ch.hist + [ch.inbox[0]] + ch.inbox[1..] == ch.hist + ch.inbox;
  }

  lemma FlushSend(p: Process, ch: Chan, m: Message)
    ensures FlushChan(p, ch.(inbox := ch.inbox + [m])) == Deliver(p, FlushChan(p, ch), m)
  {
    RepliesAppend(p, ch.hist, ch.inbox, m);
    assert ch.hist + (ch.inbox + [m]) == ch.hist + ch.inbox + [m];
  }

  lemma FlushRecv(p: Process, ch: Chan)
    requires ch.outbox != []
    ensures FlushChan(p, ch).outbox != [] && FlushChan(p, ch).outbox[0] == ch.outbox[0]
    ensures FlushChan(p, ch.(outbox := ch.outbox[1..])) == FlushChan(p, ch).(outbox := FlushChan(p, ch).outbox[1..])
  {
  }

  /** A worker's step does not change what is told and answered once all is delivered. */
  lemma WorkerStepFlush(cfg: Config, s: Sys, c: nat)
    requires WellFormed(cfg, s) && WorkerStep(cfg, s, c).Some?
    ensures Flush(cfg, WorkerStep(cfg, s, c).value) == Flush(cfg, s)
  {
    FlushWorker(cfg.procs[c], s.chans[c]);
    assert Flush(cfg, WorkerStep(cfg, s, c).value).chans == Flush(cfg, s).chans;
  }

  /** A master step over FIFO connections is a synchronous step of the delivered state. */
  lemma MasterStepFlush(cfg: Config, s: Sys)
    requires WellFormed(cfg, s) && MasterStep(cfg, s).Some? && SyncStep(cfg, Flush(cfg, s)).Some?
    ensures SyncStep(cfg, Flush(cfg, s)).value == Flush(cfg, MasterStep(cfg, s).value)
  {
    var t := MasterStep(cfg, s).value;
    match Act(cfg, s.prog[0])
    case Tau(_) =>
    case Send(c, msg, _) =>
      FlushSend(cfg.procs[c], s.chans[c], msg);
      assert SyncStep(cfg, Flush(cfg, s)).value.chans == Flush(cfg, t).chans;
    case Recv(c) =>
      FlushRecv(cfg.procs[c], s.chans[c]);
      assert SyncStep(cfg, Flush(cfg, s)).value.chans == Flush(cfg, t).chans;
  }

  lemma StartIsFlushed(cfg: Config)
    requires cfg.Shaped()
    ensures Flush(cfg, Start(cfg)) == Start(cfg)
  {
    var s := Start(cfg);
    forall c | 0 <= c < cfg.Size() ensures FlushChan(cfg.procs[c], s.chans[c]) == s.chans[c] {
      assert Replies(cfg.procs[c], [], []) == [];
    }
    assert Flush(cfg, s).chans == s.chans;
  }

  /** Determinacy: whatever the interleaving, the state with everything delivered is the state of the
      synchronous run after as many master steps. */
  lemma {:induction false} AsyncIsSync(cfg: Config, schedule: seq<Label>)
    requires cfg.Valid() && AsyncRun(cfg, Start(cfg), schedule).Some?
    ensures SyncRun(cfg, Start(cfg), MasterSteps(schedule))
         == Some(Flush(cfg, AsyncRun(cfg, Start(cfg), schedule).value))
  {
    hide SyncStep, MasterStep, WorkerStep, Flush, Match, Config.Valid, Start;
    if schedule == [] {
      StartIsFlushed(cfg);
    } else {
      var front, last := schedule[..|schedule| - 1], schedule[|schedule| - 1];
      AsyncIsSync(cfg, front);
      var s := AsyncRun(cfg, Start(cfg), front).value;
      if last.Master? {
        var a := SyncRunSafe(cfg, MasterSteps(front));
        var b := SyncStepSafe(cfg, Flush(cfg, s), a);
        MasterStepFlush(cfg, s);
      } else {
        WorkerStepFlush(cfg, s, last.c);
      }
    }
  }

  /** Every interleaving tells each worker the messages of the synchronous run, in the same order. */
  lemma SameMessagesEveryInterleaving(cfg: Config, sched1: seq<Label>, sched2: seq<Label>, c: nat)
    requires cfg.Valid() && c < cfg.Size()
    requires AsyncRun(cfg, Start(cfg), sched1).Some? && AsyncRun(cfg, Start(cfg), sched2).Some?
    requires MasterSteps(sched1) == MasterSteps(sched2)
    ensures var s1, s2 := AsyncRun(cfg, Start(cfg), sched1).value, AsyncRun(cfg, Start(cfg), sched2).value;
      && s1.prog == s2.prog
      && s1.chans[c].hist + s1.chans[c].inbox == s2.chans[c].hist + s2.chans[c].inbox
  {
    AsyncIsSync(cfg, sched1);
    AsyncIsSync(cfg, sched2);
    var s1, s2 := AsyncRun(cfg, Start(cfg), sched1).value, AsyncRun(cfg, Start(cfg), sched2).value;
    assert Flush(cfg, s1).chans[c] == Flush(cfg, s2).chans[c];
  }

  // ---------------------------------------------------------------- no blocking

  /** A worker with messages under way is still listening: it gets nothing after its quit message. */
  lemma WorkerListens(cfg: Config, schedule: seq<Label>, c: nat)
    requires cfg.Valid() && c < cfg.Size() && AsyncRun(cfg, Start(cfg), schedule).Some?
    requires AsyncRun(cfg, Start(cfg), schedule).value.chans[c].inbox != []
    ensures Step(cfg, AsyncRun(cfg, Start(cfg), schedule).value, Worker(c)).Some?
  {
    AsyncIsSync(cfg, schedule);
    var s := AsyncRun(cfg, Start(cfg), schedule).value;
    var a := SyncRunSafe(cfg, MasterSteps(schedule));
    assert MatchChan(cfg, c, a.occ[c], Flush(cfg, s).chans[c]);
    QuitComesLast(s.chans[c].hist, s.chans[c].inbox);
  }

  lemma QuitComesLast(hist: seq<Message>, inbox: seq<Message>)
    requires inbox != [] && !HasQuit((hist + inbox)[..|hist + inbox| - 1])
    ensures !HasQuit(hist)
  {
    var front := (hist + inbox)[..|hist + inbox| - 1];
    forall m | m in hist ensures m in front {
      var k :| 0 <= k < |hist| && hist[k] == m;
      assert front[k] == m;
    }
  }

  /** The master never reads from a connection that has no reply and owes none. */
  lemma ReadIsServed(cfg: Config, schedule: seq<Label>)
    requires cfg.Valid() && AsyncRun(cfg, Start(cfg), schedule).Some?
    requires AsyncRun(cfg, Start(cfg), schedule).value.prog != []
    requires Act(cfg, AsyncRun(cfg, Start(cfg), schedule).value.prog[0]).Recv?
    ensures var s := AsyncRun(cfg, Start(cfg), schedule).value;
      var c := Act(cfg, s.prog[0]).c;
      && |s.chans[c].outbox + Replies(cfg.procs[c], s.chans[c].hist, s.chans[c].inbox)| == 1
      && (s.chans[c].outbox != [] || Step(cfg, s, Worker(c)).Some?)
  {
    AsyncIsSync(cfg, schedule);
    var s := AsyncRun(cfg, Start(cfg), schedule).value;
    var c := Act(cfg, s.prog[0]).c;
    var a := SyncRunSafe(cfg, MasterSteps(schedule));
    PendingAtRecv(cfg, s.prog[0], a);
    assert MatchChan(cfg, c, a.occ[c], Flush(cfg, s).chans[c]);
    if s.chans[c].outbox == [] {
      WorkerListens(cfg, schedule, c);
    }
  }

  /** No interleaving deadlocks: some process can go on until the master is done and every worker has
      handled all its messages, the last one being the request to quit. */
  lemma NeverStuck(cfg: Config, schedule: seq<Label>)
    requires cfg.Valid() && AsyncRun(cfg, Start(cfg), schedule).Some?
    ensures var s := AsyncRun(cfg, Start(cfg), schedule).value;
      || (exists l :: Step(cfg, s, l).Some?)
      || (s.prog == [] && forall c :: 0 <= c < cfg.Size() ==>
            s.chans[c].inbox == [] && s.chans[c].outbox == [] && HasQuit(s.chans[c].hist))
  {
    AsyncIsSync(cfg, schedule);
    var s := AsyncRun(cfg, Start(cfg), schedule).value;
    if c :| 0 <= c < cfg.Size() && s.chans[c].inbox != [] {
      WorkerListens(cfg, schedule, c);
    } else if s.prog != [] {
      if Act(cfg, s.prog[0]).Recv? { ReadIsServed(cfg, schedule); }
      assert Step(cfg, s, Master).Some?;
    } else {
      forall c | 0 <= c < cfg.Size() ensures s.chans[c].outbox == [] && HasQuit(s.chans[c].hist) {
        FinishedRunHasQuit(cfg, MasterSteps(schedule), Flush(cfg, s), c);
        assert Flush(cfg, s).chans[c].hist == s.chans[c].hist;
      }
    }
  }
}
