/** The classes of the master side over in-memory connections. The assertions of MemConnection are
    preconditions here, so their proof at every call is the proof that they never fail; every method of
    MasterControl is proved to do exactly the steps of the master's program. */
module MasterControls {
  import opened MWSteps
  import opened Options
  import opened ObsDomains
  import opened Protocol
  import opened ProtocolSafety
  import opened ProtocolTrace
  import opened ProtocolSolve
  import opened ProtocolOutcome
  import opened ProtocolSteps

  /** A worker. The derived class's process function may depend on everything received so far. */
  class WorkerProxy {
    const process: Process
    var itsWorkerId: int
    var received: seq<Message>

    ghost predicate Valid()
      reads this
    {
      itsWorkerId == WorkerIdAfter(received)
    }

    constructor (process: Process)
      ensures Valid() && received == [] && this.process == process
    {
      this.process := process;
      itsWorkerId := NO_WORKER;
      received := [];
    }

    /** Handles a message; out is the reply, if there is one, and the result tells whether to go on. The reply
        has the body the process function returned, under the stream of the message and the worker's own id;
        Init is answered without asking it. */
    method HandleMessage(bin: Message) returns (goOn: bool, out: Option<Message>)
      requires Valid()
      modifies this
      ensures Valid() && received == old(received) + [bin]
      ensures out == Handle(process, old(received), bin)
      ensures goOn == (bin.oper >= 0)
      ensures itsWorkerId == if bin.oper == INIT then bin.workerId else old(itsWorkerId)
      ensures bin.oper == INIT ==> out == Some(Message(INIT, bin.streamId, bin.workerId, Nothing))
      ensures bin.oper >= 0 && bin.oper != INIT ==>
        var r := process(old(received), bin);
        out == if r.oper < 0 then None else Some(Message(r.oper, bin.streamId, old(itsWorkerId), r.body))
      ensures bin.oper < 0 ==> out == None
    {
      var operation := bin.oper;
      out := None;
      ghost var before := received;
      AppendFacts(0, received, bin);
      if operation >= 0 {
        if operation == INIT {
          itsWorkerId := bin.workerId;
        }
        var bout := Message(operation, bin.streamId, itsWorkerId, Nothing);
        var oper := operation;
        if operation != INIT {
          var r := process(received, bin);
          oper := r.oper;
          bout := bout.(body := r.body);
        }
        if oper < 0 {
          out := None;
        } else {
          if oper != bin.oper {
            bout := bout.(oper := oper);
          }
          out := Some(bout);
        }
      }
      received := received + [bin];
      goOn := operation >= 0;
    }
  }

  /** A one-slot mailbox in front of a worker in the same process. */
  class MemConnection {
    const itsWorker: WorkerProxy
    var itsResult: Option<Message>

    ghost predicate Valid()
      reads this, itsWorker
    {
      itsWorker.Valid()
    }

    /** The connection as the protocol model sees it. */
    ghost function View(): Chan
      reads this, itsWorker
    {
      Chan([], itsWorker.received, ToSeq(itsResult))
    }

    constructor (worker: WorkerProxy)
      ensures itsWorker == worker && itsResult == None
    {
      itsWorker := worker;
      itsResult := None;
    }

    method Write(data: Message)
      requires Valid()
      requires itsResult.None?  // otherwise no read was done
      modifies this, itsWorker
      ensures Valid() && View() == Deliver(itsWorker.process, old(View()), data)
    {
      var goOn, out := itsWorker.HandleMessage(data);
      itsResult := out;
    }

    method Read() returns (buf: Message)
      requires Valid()
      requires itsResult.Some?  // a result has been received
      modifies this
      ensures Valid() && [buf] == old(View()).outbox && View() == old(View()).(outbox := [])
    {
      buf := itsResult.value;
      itsResult := None;
    }
  }

  class MemConnectionSet {
    var itsConns: seq<MemConnection>

    ghost function Objects(): set<object>
      reads this
    {
      (set i | 0 <= i < |itsConns| :: itsConns[i] as object) +
      (set i | 0 <= i < |itsConns| :: itsConns[i].itsWorker as object)
    }

    /** No connection and no worker occurs twice. */
    ghost predicate Valid()
      reads this, Objects()
    {
      && (forall i :: 0 <= i < |itsConns| ==> itsConns[i].Valid())
      && (forall i, j :: 0 <= i < j < |itsConns| ==>
            itsConns[i] != itsConns[j] && itsConns[i].itsWorker != itsConns[j].itsWorker)
    }

    ghost function Views(): (v: seq<Chan>)
      reads this, Objects()
      ensures |v| == |itsConns| && forall i :: 0 <= i < |v| ==> v[i] == itsConns[i].View()
    {
      ViewsOf(itsConns)
    }

    static ghost function ViewsOf(conns: seq<MemConnection>): (v: seq<Chan>)
      reads conns, set i | 0 <= i < |conns| :: conns[i].itsWorker
      ensures |v| == |conns| && forall i :: 0 <= i < |v| ==> v[i] == conns[i].View()
    {
      if conns == [] then [] else ViewsOf(conns[..|conns| - 1]) + [conns[|conns| - 1].View()]
    }

    constructor ()
      ensures itsConns == []
    {
      itsConns := [];
    }

    method AddConnection(worker: WorkerProxy) returns (seqnr: nat)
      modifies this
      ensures seqnr == old(|itsConns|)
      ensures |itsConns| == seqnr + 1 && itsConns[..seqnr] == old(itsConns)
      ensures fresh(itsConns[seqnr]) && itsConns[seqnr].itsWorker == worker && itsConns[seqnr].itsResult == None
    {
      seqnr := |itsConns|;
      var conn := new MemConnection(worker);
      itsConns := itsConns + [conn];
    }

    /** The set with the connections with the given indexes only, in that order. */
    method Clone(inx: seq<nat>) returns (clone: MemConnectionSet)
      requires forall k :: 0 <= k < |inx| ==> inx[k] < |itsConns|
      ensures fresh(clone) && |clone.itsConns| == |inx|
      ensures forall k :: 0 <= k < |inx| ==> clone.itsConns[k] == itsConns[inx[k]]
    {
      clone := new MemConnectionSet();
      for k := 0 to |inx|
        invariant |clone.itsConns| == k
        invariant forall j :: 0 <= j < k ==> clone.itsConns[j] == itsConns[inx[j]]
      {
        clone.itsConns := clone.itsConns + [itsConns[inx[k]]];
      }
    }

    method Size() returns (n: nat)
      ensures n == |itsConns|
    {
      n := |itsConns|;
    }

    method Write(seqnr: nat, buf: Message)
      requires Valid() && seqnr < |itsConns| && itsConns[seqnr].itsResult.None?
      modifies Objects()
      ensures Valid()
      ensures Views() == old(Views())[seqnr := Deliver(itsConns[seqnr].itsWorker.process, old(Views())[seqnr], buf)]
    {
      hide Deliver, Handle, WorkerIdAfter;
      itsConns[seqnr].Write(buf);
    }

    method Read(seqnr: nat) returns (buf: Message)
      requires Valid() && seqnr < |itsConns| && itsConns[seqnr].itsResult.Some?
      modifies Objects()
      ensures Valid()
      ensures [buf] == old(Views())[seqnr].outbox
      ensures Views() == old(Views())[seqnr := old(Views())[seqnr].(outbox := [])]
    {
      buf := itsConns[seqnr].Read();
    }

    /** The processes of the workers behind the connections. */
    ghost function Processes(): (p: seq<Process>)
      reads this
      ensures |p| == |itsConns| && forall i :: 0 <= i < |p| ==> p[i] == itsConns[i].itsWorker.process
    {
      seq(|itsConns|, i requires 0 <= i < |itsConns| reads this => itsConns[i].itsWorker.process)
    }

    method WriteAll(buf: Message)
      requires Valid() && forall i :: 0 <= i < |itsConns| ==> Views()[i].outbox == []
      modifies Objects()
      ensures Valid()
      ensures Views() == DeliverRange(Processes(), old(Views()), 0, |itsConns|, buf)
    {
      ghost var before, procs := Views(), Processes();
      for i := 0 to |itsConns|
        invariant Valid()
        invariant Views() == DeliverRange(procs, before, 0, i, buf)
      {
        assert itsConns[i].View().outbox == [];
        Write(i, buf);
      }
    }
  }

  /** The connections lo .. hi-1 after msg was written to them. */
  ghost function DeliverRange(procs: seq<Process>, chans: seq<Chan>, lo: nat, hi: nat, msg: Message): (r: seq<Chan>)
    requires |procs| == |chans|
    ensures |r| == |chans|
    ensures forall c :: 0 <= c < |chans| ==>
      r[c] == if lo <= c < hi then Deliver(procs[c], chans[c], msg) else chans[c]
  {
    seq(|chans|, c requires 0 <= c < |chans| => if lo <= c < hi then Deliver(procs[c], chans[c], msg) else chans[c])
  }

  // ---------------------------------------------------------------- runs of the master's program

  /** A loop over all local workers takes one step each and one to end. */
  lemma {:induction false} WriteLocalsRun(cfg: Config, k: nat, i: nat, msg: Message, rest: seq<Cmd>, chans: seq<Chan>)
    requires cfg.Valid() && i <= cfg.nLocal && |chans| == cfg.Size()
    requires SyncRun(cfg, Start(cfg), k) == Some(Sys([WriteLocals(i, msg)] + rest, chans))
    ensures forall c :: i <= c < cfg.nLocal ==> chans[c].outbox == []
    ensures SyncRun(cfg, Start(cfg), k + (cfg.nLocal - i) + 1)
         == Some(Sys(rest, DeliverRange(cfg.procs, chans, i, cfg.nLocal, msg)))
    decreases cfg.nLocal - i
  {
    hide SyncRun;
    NextState(cfg, k, Sys([WriteLocals(i, msg)] + rest, chans));
    assert ([WriteLocals(i, msg)] + rest)[1..] == rest;
    if i < cfg.nLocal {
      var later := chans[i := Deliver(cfg.procs[i], chans[i], msg)];
      WriteLocalsRun(cfg, k + 1, i + 1, msg, rest, later);
      assert DeliverRange(cfg.procs, later, i + 1, cfg.nLocal, msg)
          == DeliverRange(cfg.procs, chans, i, cfg.nLocal, msg);
    } else {
      NoMore(rest);
      assert DeliverRange(cfg.procs, chans, i, cfg.nLocal, msg) == chans;
    }
  }

  lemma {:induction false} WriteGlobalsRun(cfg: Config, k: nat, i: nat, msg: Message, rest: seq<Cmd>, chans: seq<Chan>)
    requires cfg.Valid() && i <= cfg.nGlobal && |chans| == cfg.Size()
    requires SyncRun(cfg, Start(cfg), k) == Some(Sys([WriteGlobals(i, msg)] + rest, chans))
    ensures forall c :: cfg.nLocal + i <= c < cfg.Size() ==> chans[c].outbox == []
    ensures SyncRun(cfg, Start(cfg), k + (cfg.nGlobal - i) + 1)
         == Some(Sys(rest, DeliverRange(cfg.procs, chans, cfg.nLocal + i, cfg.Size(), msg)))
    decreases cfg.nGlobal - i
  {
    hide SyncRun;
    NextState(cfg, k, Sys([WriteGlobals(i, msg)] + rest, chans));
    assert ([WriteGlobals(i, msg)] + rest)[1..] == rest;
    var c := cfg.nLocal + i;
    if i < cfg.nGlobal {
      var later := chans[c := Deliver(cfg.procs[c], chans[c], msg)];
      WriteGlobalsRun(cfg, k + 1, i + 1, msg, rest, later);
      assert DeliverRange(cfg.procs, later, c + 1, cfg.Size(), msg)
          == DeliverRange(cfg.procs, chans, c, cfg.Size(), msg);
    } else {
      NoMore(rest);
      assert DeliverRange(cfg.procs, chans, c, cfg.Size(), msg) == chans;
    }
  }

  lemma DeliverHist(p: Process, ch: Chan, msg: Message)
    ensures Deliver(p, ch, msg).hist == ch.hist + [msg]
    ensures ch.outbox == [] ==> Deliver(p, ch, msg).outbox == ToSeq(Handle(p, ch.hist, msg))
  {
  }

  lemma UpdateLeft(l: seq<Chan>, g: seq<Chan>, i: nat, ch: Chan)
    requires i < |l|
    ensures l[i := ch] + g == (l + g)[i := ch]
  {
  }

  lemma UpdateRight(l: seq<Chan>, g: seq<Chan>, i: nat, ch: Chan)
    requires i < |g|
    ensures l + g[i := ch] == (l + g)[|l| + i := ch]
  {
  }

  lemma RangeLeft(pl: seq<Process>, pg: seq<Process>, l: seq<Chan>, g: seq<Chan>, msg: Message)
    requires |pl| == |l| && |pg| == |g|
    ensures DeliverRange(pl, l, 0, |l|, msg) + g == DeliverRange(pl + pg, l + g, 0, |l|, msg)
  {
  }

  lemma RangeRight(pl: seq<Process>, pg: seq<Process>, l: seq<Chan>, g: seq<Chan>, msg: Message)
    requires |pl| == |l| && |pg| == |g|
    ensures l + DeliverRange(pg, g, 0, |g|, msg) == DeliverRange(pl + pg, l + g, |l|, |l| + |g|, msg)
  {
  }

  lemma TwoMore(a: Cmd, b: Cmd, rest: seq<Cmd>)
    ensures [a, b] + rest == [a] + ([b] + rest)
  {
  }

  lemma OneReplyMore(hist: seq<Message>, replies: seq<Message>, m: Message)
    requires GlobalSilent(m.oper) && forall r :: r in replies ==> GlobalSilent(r.oper)
    ensures hist + replies + [m] == hist + (replies + [m])
    ensures forall r :: r in replies + [m] ==> GlobalSilent(r.oper)
  {
  }

  lemma QuietLeft(l: seq<Chan>, g: seq<Chan>)
    requires forall c :: 0 <= c < |l| ==> (l + g)[c].outbox == []
    ensures forall c :: 0 <= c < |l| ==> l[c].outbox == []
  {
    assert forall c :: 0 <= c < |l| ==> (l + g)[c] == l[c];
  }

  lemma QuietRight(l: seq<Chan>, g: seq<Chan>)
    requires forall c :: |l| <= c < |l| + |g| ==> (l + g)[c].outbox == []
    ensures forall c :: 0 <= c < |g| ==> g[c].outbox == []
  {
    assert forall c :: 0 <= c < |g| ==> (l + g)[|l| + c] == g[c];
  }

  lemma NoMore(rest: seq<Cmd>)
    ensures [] + rest == rest
  {
  }

  lemma RoundParts(rest: seq<Cmd>)
    ensures Round() + rest ==
      [WriteLocals(0, INFO_MSG)] + ([ForwardReplies(0)] + ([WriteGlobal0(EXEC_MSG)] + ([ReadSolution] + rest)))
  {
  }

  lemma GlobalStepParts(step: MWStep, rest: seq<Cmd>)
    requires step.GlobalStep?
    ensures VisitStep(step) + rest ==
      [WriteLocals(0, StepMsg(step))] + ([WriteGlobal0(StepMsg(step))] +
        ([ReadGlobal0] + ([ForwardReplies(0)] + ([Iterate] + rest))))
  {
  }

  class MasterControl {
    const itsLocalWorkers: MemConnectionSet
    const itsGlobalWorkers: MemConnectionSet
    const itsFullDomain: ObsDomain
    var itsShape: Shape

    /** The run as the protocol model sees it, and how many steps of it have been made. */
    ghost const cfg: Config
    ghost const rank: seq<Message> -> nat
    ghost var steps: nat

    /** The connections and workers. */
    ghost const repr: set<object>

    ghost function Objects(): set<object>
      reads itsLocalWorkers, itsGlobalWorkers
    {
      itsLocalWorkers.Objects() + itsGlobalWorkers.Objects()
    }

    ghost predicate Valid()
      reads itsLocalWorkers, itsGlobalWorkers, repr
    {
      && Objects() == repr && this !in repr && itsLocalWorkers !in repr && itsGlobalWorkers !in repr
      && itsFullDomain !in repr
      && itsLocalWorkers.Valid() && itsGlobalWorkers.Valid()
      && itsLocalWorkers.Objects() !! itsGlobalWorkers.Objects()
      && cfg.nLocal == |itsLocalWorkers.itsConns| && cfg.nGlobal == |itsGlobalWorkers.itsConns|
      && cfg.procs == itsLocalWorkers.Processes() + itsGlobalWorkers.Processes()
      && cfg.Valid() && Converges(cfg.procs[cfg.nLocal], rank)
    }

    lemma Sizes()
      requires Valid()
      ensures cfg.nLocal == |itsLocalWorkers.itsConns| && cfg.nGlobal == |itsGlobalWorkers.itsConns| >= 1
      ensures cfg.nLocal <= |cfg.parts| && |cfg.procs| == cfg.Size() && Converges(cfg.procs[cfg.nLocal], rank)
      ensures this !in repr && itsLocalWorkers !in repr && itsGlobalWorkers !in repr && itsFullDomain !in repr
    {
      hide LocalContract, GlobalContract, Converges, MemConnectionSet.Valid, MemConnectionSet.Processes;
    }

    ghost function Chans(): (r: seq<Chan>)
      reads itsLocalWorkers, itsGlobalWorkers, Objects()
    {
      itsLocalWorkers.Views() + itsGlobalWorkers.Views()
    }

    /** The connections are as the program's run over in-memory connections has left them, and todo is
        what is left of the program. */
    ghost predicate At(todo: seq<Cmd>)
      requires Valid()
      reads this`steps, itsLocalWorkers, itsGlobalWorkers, repr
    {
      SyncRun(cfg, Start(cfg), steps) == Some(Sys(todo, Chans()))
    }

    constructor (localWorkers: MemConnectionSet, globalWorkers: MemConnectionSet, ghost cfg: Config,
                 ghost rank: seq<Message> -> nat)
      requires localWorkers.Valid() && globalWorkers.Valid() && localWorkers.Objects() !! globalWorkers.Objects()
      requires cfg.nLocal == |localWorkers.itsConns| && cfg.nGlobal == |globalWorkers.itsConns|
      requires cfg.procs == localWorkers.Processes() + globalWorkers.Processes()
      requires cfg.Shaped() && cfg.Valid() && Converges(cfg.procs[cfg.nLocal], rank)
      requires localWorkers !in globalWorkers.Objects() && globalWorkers !in localWorkers.Objects()
      requires localWorkers !in localWorkers.Objects() && globalWorkers !in globalWorkers.Objects()
      ensures itsLocalWorkers == localWorkers && itsGlobalWorkers == globalWorkers
      ensures this.cfg == cfg && this.rank == rank && steps == 0
      ensures repr == localWorkers.Objects() + globalWorkers.Objects()
      ensures fresh(itsFullDomain) && Valid()
    {
      itsLocalWorkers, itsGlobalWorkers := localWorkers, globalWorkers;
      itsFullDomain := new ObsDomain();
      itsShape := Shape(1.0e30, 1.0e30);
      this.cfg, this.rank, steps := cfg, rank, 0;
      repr := localWorkers.Objects() + globalWorkers.Objects();
    }

    /** What the first global worker has received. */
    ghost function GlobalHist(): seq<Message>
      requires Valid()
      reads itsLocalWorkers, itsGlobalWorkers, repr
    {
      Chans()[cfg.nLocal].hist
    }

    // ------------------------------------------------------------ single steps

    /** A step of the master without communication. */
    ghost method Enter(cmd: Cmd, parts: seq<Cmd>, rest: seq<Cmd>)
      requires Valid() && At([cmd] + rest) && Act(cfg, cmd) == Tau(parts)
      modifies this`steps
      ensures Valid() && At(parts + rest)
    {
      hide SyncRun, Act, LocalContract, GlobalContract, Converges, Chans;
      TauState(cfg, steps, cmd, rest, parts, Chans());
      steps := steps + 1;
    }

    /** The end of a loop, or of a visit with nothing left. */
    ghost method Leave(cmd: Cmd, rest: seq<Cmd>)
      requires Valid() && At([cmd] + rest) && Act(cfg, cmd) == Tau([])
      modifies this`steps
      ensures Valid() && At(rest)
    {
      hide SyncRun, Act, LocalContract, GlobalContract, Converges, Chans;
      Enter(cmd, [], rest);
      NoMore(rest);
    }

    /** Writes and reads, as far as the connections are concerned. */
    method PutLocal(i: nat, buf: Message)
      requires Valid() && i < cfg.nLocal && Chans()[i].outbox == []
      modifies repr
      ensures Valid() && Chans() == old(Chans())[i := Deliver(cfg.procs[i], old(Chans())[i], buf)]
    {
      hide LocalContract, GlobalContract, Converges, Deliver, MemConnectionSet.Views;
      ghost var l, g := itsLocalWorkers.Views(), itsGlobalWorkers.Views();
      itsLocalWorkers.Write(i, buf);
      assert itsGlobalWorkers.Views() == g;
      assert cfg.procs[i] == itsLocalWorkers.Processes()[i];
      UpdateLeft(l, g, i, Deliver(cfg.procs[i], l[i], buf));
    }

    method PutGlobal(i: nat, buf: Message)
      requires Valid() && i < cfg.nGlobal && Chans()[cfg.nLocal + i].outbox == []
      modifies repr
      ensures Valid()
      ensures Chans() == old(Chans())[cfg.nLocal + i :=
                Deliver(cfg.procs[cfg.nLocal + i], old(Chans())[cfg.nLocal + i], buf)]
    {
      hide LocalContract, GlobalContract, Converges, Deliver, MemConnectionSet.Views;
      ghost var l, g := itsLocalWorkers.Views(), itsGlobalWorkers.Views();
      itsGlobalWorkers.Write(i, buf);
      assert itsLocalWorkers.Views() == l;
      assert cfg.procs[cfg.nLocal + i] == itsGlobalWorkers.Processes()[i];
      UpdateRight(l, g, i, Deliver(cfg.procs[cfg.nLocal + i], g[i], buf));
    }

    method GetLocal(i: nat) returns (buf: Message)
      requires Valid() && i < cfg.nLocal && |Chans()[i].outbox| == 1
      modifies repr
      ensures Valid() && [buf] == old(Chans())[i].outbox
      ensures Chans() == old(Chans())[i := old(Chans())[i].(outbox := [])]
    {
      hide LocalContract, GlobalContract, Converges, MemConnectionSet.Views;
      ghost var l, g := itsLocalWorkers.Views(), itsGlobalWorkers.Views();
      buf := itsLocalWorkers.Read(i);
      assert itsGlobalWorkers.Views() == g;
      UpdateLeft(l, g, i, l[i].(outbox := []));
    }

    method GetGlobal(i: nat) returns (buf: Message)
      requires Valid() && i < cfg.nGlobal && |Chans()[cfg.nLocal + i].outbox| == 1
      modifies repr
      ensures Valid() && [buf] == old(Chans())[cfg.nLocal + i].outbox
      ensures Chans() == old(Chans())[cfg.nLocal + i := old(Chans())[cfg.nLocal + i].(outbox := [])]
    {
      hide LocalContract, GlobalContract, Converges, MemConnectionSet.Views;
      ghost var l, g := itsLocalWorkers.Views(), itsGlobalWorkers.Views();
      buf := itsGlobalWorkers.Read(i);
      assert itsLocalWorkers.Views() == l;
      UpdateRight(l, g, i, g[i].(outbox := []));
    }

    method PutAllLocals(buf: Message)
      requires Valid() && forall c :: 0 <= c < cfg.nLocal ==> Chans()[c].outbox == []
      modifies repr
      ensures Valid() && Chans() == DeliverRange(cfg.procs, old(Chans()), 0, cfg.nLocal, buf)
    {
      hide LocalContract, GlobalContract, Converges, Deliver, MemConnectionSet.Views;
      ghost var l, g := itsLocalWorkers.Views(), itsGlobalWorkers.Views();
      ghost var pl, pg := itsLocalWorkers.Processes(), itsGlobalWorkers.Processes();
      assert Chans() == l + g && |l| == cfg.nLocal;
      QuietLeft(l, g);
      itsLocalWorkers.WriteAll(buf);
      assert itsGlobalWorkers.Views() == g;
      RangeLeft(pl, pg, l, g, buf);
    }

    method PutAllGlobals(buf: Message)
      requires Valid() && forall c :: cfg.nLocal <= c < cfg.Size() ==> Chans()[c].outbox == []
      modifies repr
      ensures Valid() && Chans() == DeliverRange(cfg.procs, old(Chans()), cfg.nLocal, cfg.Size(), buf)
    {
      hide LocalContract, GlobalContract, Converges, Deliver, MemConnectionSet.Views;
      ghost var l, g := itsLocalWorkers.Views(), itsGlobalWorkers.Views();
      ghost var pl, pg := itsLocalWorkers.Processes(), itsGlobalWorkers.Processes();
      assert Chans() == l + g && |l| == cfg.nLocal && |g| == cfg.nGlobal;
      QuietRight(l, g);
      itsGlobalWorkers.WriteAll(buf);
      assert itsLocalWorkers.Views() == l;
      RangeRight(pl, pg, l, g, buf);
    }

    // ------------------------------------------------------------ the same as steps of the program

    method WriteLocal(i: nat, buf: Message, ghost cmd: Cmd, ghost next: seq<Cmd>, ghost rest: seq<Cmd>)
      requires Valid() && At([cmd] + rest) && i < cfg.nLocal && Act(cfg, cmd) == Send(i, buf, next)
      modifies this`steps, repr
      ensures Valid() && At(next + rest)
    {
      hide SyncRun, Act, LocalContract, GlobalContract, Converges, Deliver, Chans;
      hide MemConnectionSet.Valid, MemConnectionSet.Processes, MemConnectionSet.Views;
      SendState(cfg, steps, cmd, rest, i, buf, next, Chans());
      PutLocal(i, buf);
      steps := steps + 1;
    }

    method WriteGlobal(i: nat, buf: Message, ghost cmd: Cmd, ghost next: seq<Cmd>, ghost rest: seq<Cmd>)
      requires Valid() && At([cmd] + rest) && i < cfg.nGlobal && Act(cfg, cmd) == Send(cfg.nLocal + i, buf, next)
      modifies this`steps, repr
      ensures Valid() && At(next + rest)
      ensures i == 0 ==> GlobalHist() == old(GlobalHist()) + [buf]
      ensures i == 0 ==>
        Chans()[cfg.nLocal].outbox == ToSeq(Handle(cfg.procs[cfg.nLocal], old(GlobalHist()), buf))
    {
      hide SyncRun, Act, LocalContract, GlobalContract, Converges, Deliver, Chans;
      hide MemConnectionSet.Valid, MemConnectionSet.Processes, MemConnectionSet.Views;
      SendState(cfg, steps, cmd, rest, cfg.nLocal + i, buf, next, Chans());
      DeliverHist(cfg.procs[cfg.nLocal + i], Chans()[cfg.nLocal + i], buf);
      PutGlobal(i, buf);
      steps := steps + 1;
    }

    method ReadLocal(i: nat, ghost cmd: Cmd, ghost rest: seq<Cmd>) returns (buf: Message)
      requires Valid() && At([cmd] + rest) && i < cfg.nLocal && Act(cfg, cmd) == Recv(i)
      modifies this`steps, repr
      ensures Valid() && At(AfterRecv(cmd, buf) + rest) && GlobalHist() == old(GlobalHist())
      ensures cmd.ForwardReplies? ==> GlobalSilent(buf.oper)
    {
      hide SyncRun, Act, AfterRecv, LocalContract, GlobalContract, Converges, Chans;
      hide MemConnectionSet.Valid, MemConnectionSet.Processes, MemConnectionSet.Views;
      RecvState(cfg, steps, cmd, rest, i, Chans());
      buf := GetLocal(i);
      steps := steps + 1;
    }

    /** The reply is the answer to the message the global worker got last. */
    method ReadGlobal(i: nat, ghost cmd: Cmd, ghost rest: seq<Cmd>) returns (buf: Message)
      requires Valid() && At([cmd] + rest) && i < cfg.nGlobal && Act(cfg, cmd) == Recv(cfg.nLocal + i)
      modifies this`steps, repr
      ensures Valid() && At(AfterRecv(cmd, buf) + rest) && GlobalHist() == old(GlobalHist())
      ensures [buf] == old(Chans())[cfg.nLocal + i].outbox
    {
      hide SyncRun, Act, AfterRecv, LocalContract, GlobalContract, Converges, Chans;
      hide MemConnectionSet.Valid, MemConnectionSet.Processes, MemConnectionSet.Views;
      RecvState(cfg, steps, cmd, rest, cfg.nLocal + i, Chans());
      buf := GetGlobal(i);
      steps := steps + 1;
    }

    method WriteAllLocals(buf: Message, ghost rest: seq<Cmd>)
      requires Valid() && At([WriteLocals(0, buf)] + rest)
      modifies this`steps, repr
      ensures Valid() && At(rest) && GlobalHist() == old(GlobalHist())
    {
      hide SyncRun, LocalContract, GlobalContract, Converges, Deliver, Chans;
      WriteLocalsRun(cfg, steps, 0, buf, rest, Chans());
      PutAllLocals(buf);
      steps := steps + cfg.nLocal + 1;
    }

    method WriteAllGlobals(buf: Message, ghost rest: seq<Cmd>)
      requires Valid() && At([WriteGlobals(0, buf)] + rest)
      modifies this`steps, repr
      ensures Valid() && At(rest)
    {
      hide SyncRun, LocalContract, GlobalContract, Converges, Deliver, Chans;
      WriteGlobalsRun(cfg, steps, 0, buf, rest, Chans());
      PutAllGlobals(buf);
      steps := steps + cfg.nGlobal + 1;
    }

    // ------------------------------------------------------------ the operations of MasterControl

    method ReadAllWorkers(localWorkers: bool, globalWorkers: bool, ghost rest: seq<Cmd>)
      requires Valid()
      requires At((if localWorkers then [ReadLocals(0)] else []) +
                  ((if globalWorkers then [ReadGlobals(0)] else []) + rest))
      modifies this`steps, repr
      ensures Valid() && At(rest)
    {
      ghost var after := (if globalWorkers then [ReadGlobals(0)] else []) + rest;
      if localWorkers {
        ReadLocalLoop(after);
      } else {
        NoMore(after);
      }
      if globalWorkers {
        ReadGlobalLoop(rest);
      } else {
        NoMore(rest);
      }
    }

    method ReadLocalLoop(ghost rest: seq<Cmd>)
      requires Valid() && At([ReadLocals(0)] + rest)
      modifies this`steps, repr
      ensures Valid() && At(rest)
    {
      hide MasterControl.Valid, SyncRun, LocalContract, GlobalContract, Converges, Chans, At;
      Sizes();
      var n := itsLocalWorkers.Size();
      for i := 0 to n
        invariant Valid() && At([ReadLocals(i)] + rest)
      {
        var buf := ReadLocal(i, ReadLocals(i), rest);
      }
      Leave(ReadLocals(n), rest);
    }

    method ReadGlobalLoop(ghost rest: seq<Cmd>)
      requires Valid() && At([ReadGlobals(0)] + rest)
      modifies this`steps, repr
      ensures Valid() && At(rest)
    {
      hide MasterControl.Valid, SyncRun, LocalContract, GlobalContract, Converges, Chans, At;
      Sizes();
      var n := itsGlobalWorkers.Size();
      for i := 0 to n
        invariant Valid() && At([ReadGlobals(i)] + rest)
      {
        var buf := ReadGlobal(i, ReadGlobals(i), rest);
      }
      Leave(ReadGlobals(n), rest);
    }

    method SetInitInfo(parms: int, dataPartNames: seq<string>, fullDomain: ObsDomain, ghost rest: seq<Cmd>)
      requires Valid() && At(InitProgram() + rest)
      requires parms == cfg.parms && dataPartNames == cfg.parts && fullDomain !in repr
      modifies this`steps, repr, itsFullDomain
      ensures Valid() && At(rest) && itsFullDomain.View() == old(fullDomain.View())
    {
      hide MasterControl.Valid, SyncRun, LocalContract, GlobalContract, Converges, Chans, At, GlobalHist;
      hide MemConnectionSet.Valid, MemConnectionSet.Processes;
      Sizes();
      itsFullDomain.Assign(fullDomain);
      ghost var after := [ReadLocals(0)] + ([ReadGlobals(0)] + rest);
      assert InitProgram() + rest == [InitLocals(0)] + ([InitGlobals(0)] + after);
      WriteInitLocals(parms, dataPartNames, [InitGlobals(0)] + after);
      WriteInitGlobals(parms, after);
      ReadAllWorkers(true, true, rest);
    }

    method WriteInitLocals(parms: int, dataPartNames: seq<string>, ghost rest: seq<Cmd>)
      requires Valid() && At([InitLocals(0)] + rest) && parms == cfg.parms && dataPartNames == cfg.parts
      modifies this`steps, repr
      ensures Valid() && At(rest)
    {
      hide MasterControl.Valid, SyncRun, LocalContract, GlobalContract, Converges, Chans, At, GlobalHist;
      hide MemConnectionSet.Valid, MemConnectionSet.Processes;
      Sizes();
      var n := itsLocalWorkers.Size();
      for i := 0 to n
        invariant Valid() && At([InitLocals(i)] + rest)
      {
        var buf := Message(INIT, 0, i, InitInfo(parms, dataPartNames[i]));
        WriteLocal(i, buf, InitLocals(i), [InitLocals(i + 1)], rest);
      }
      Leave(InitLocals(n), rest);
    }

    /** The worker ids of the global workers follow those of the local workers. */
    method WriteInitGlobals(parms: int, ghost rest: seq<Cmd>)
      requires Valid() && At([InitGlobals(0)] + rest) && parms == cfg.parms
      modifies this`steps, repr
      ensures Valid() && At(rest)
    {
      hide MasterControl.Valid, SyncRun, LocalContract, GlobalContract, Converges, Chans, At, GlobalHist;
      hide MemConnectionSet.Valid, MemConnectionSet.Processes;
      Sizes();
      var workerId := itsLocalWorkers.Size();
      var n := itsGlobalWorkers.Size();
      for i := 0 to n
        invariant Valid() && At([InitGlobals(i)] + rest) && workerId == cfg.nLocal + i
      {
        var buf := Message(INIT, 0, workerId, InitInfo(parms, ""));
        WriteGlobal(i, buf, InitGlobals(i), [InitGlobals(i + 1)], rest);
        workerId := workerId + 1;
      }
      Leave(InitGlobals(n), rest);
    }

    method VisitLocal(step: MWStep, ghost rest: seq<Cmd>)
      requires Valid() && step.LocalStep? && At([Cmd.Visit(step)] + rest)
      modifies this`steps, repr
      ensures Valid() && At(rest)
    {
      hide MasterControl.Valid, SyncRun, LocalContract, GlobalContract, Converges, Chans, At, GlobalHist;
      hide MemConnectionSet.Valid, MemConnectionSet.Processes;
      Sizes();
      var buf := StepMsg(step);
      Enter(Cmd.Visit(step), [WriteLocals(0, buf), ReadLocals(0)], rest);
      TwoMore(WriteLocals(0, buf), ReadLocals(0), rest);
      WriteAllLocals(buf, [ReadLocals(0)] + rest);
      NoMore(rest);
      ReadAllWorkers(true, false, rest);
    }

    /** Reads the reply of every local worker and sends it to the first global worker. */
    method ForwardAll(ghost rest: seq<Cmd>) returns (ghost replies: seq<Message>)
      requires Valid() && At([ForwardReplies(0)] + rest)
      modifies this`steps, repr
      ensures Valid() && At(rest) && GlobalHist() == old(GlobalHist()) + replies
      ensures forall m :: m in replies ==> GlobalSilent(m.oper)
    {
      hide MasterControl.Valid, SyncRun, LocalContract, GlobalContract, Converges, Chans, At, GlobalHist, GlobalSilent;
      hide MemConnectionSet.Valid, MemConnectionSet.Processes;
      replies := [];
      Sizes();
      var n := itsLocalWorkers.Size();
      for i := 0 to n
        invariant Valid() && At([ForwardReplies(i)] + rest) && GlobalHist() == old(GlobalHist()) + replies
        invariant forall m :: m in replies ==> GlobalSilent(m.oper)
      {
        var buf := ForwardOne(i, rest);
        OneReplyMore(old(GlobalHist()), replies, buf);
        replies := replies + [buf];
      }
      Leave(ForwardReplies(n), rest);
    }

    method ForwardOne(i: nat, ghost rest: seq<Cmd>) returns (buf: Message)
      requires Valid() && i < cfg.nLocal && At([ForwardReplies(i)] + rest)
      modifies this`steps, repr
      ensures Valid() && At([ForwardReplies(i + 1)] + rest) && GlobalHist() == old(GlobalHist()) + [buf]
      ensures GlobalSilent(buf.oper)
    {
      hide MasterControl.Valid, SyncRun, LocalContract, GlobalContract, Converges, Chans, At, GlobalHist;
      hide MemConnectionSet.Valid, MemConnectionSet.Processes;
      Sizes();
      buf := ReadLocal(i, ForwardReplies(i), rest);
      TwoMore(WriteGlobal0(buf), ForwardReplies(i + 1), rest);
      WriteGlobal(0, buf, WriteGlobal0(buf), [], [ForwardReplies(i + 1)] + rest);
      NoMore([ForwardReplies(i + 1)] + rest);
    }

    /** One pass of the loop of a global step. */
    method SolveRound(ghost rest: seq<Cmd>) returns (buf: Message, ghost replies: seq<Message>)
      requires Valid() && At([Iterate] + rest)
      modifies this`steps, repr
      ensures Valid() && At([TestConverged(buf)] + rest)
      ensures GlobalHist() == old(GlobalHist()) + replies + [EXEC_MSG]
      ensures forall m :: m in replies ==> GlobalSilent(m.oper)
      ensures Converged(buf) <==> SolvedAt(cfg.procs[cfg.nLocal], old(GlobalHist()) + replies)
    {
      hide MasterControl.Valid, SyncRun, LocalContract, GlobalContract, Converges, Chans, At, GlobalHist;
      hide MemConnectionSet.Valid, MemConnectionSet.Processes;
      Sizes();
      ghost var before := GlobalHist();
      ghost var exec := [WriteGlobal0(EXEC_MSG)] + ([ReadSolution] + rest);
      Enter(Iterate, Round(), rest);
      RoundParts(rest);
      WriteAllLocals(INFO_MSG, [ForwardReplies(0)] + exec);
      replies := ForwardAll(exec);
      buf := Solve(rest);
    }

    /** Lets the global worker solve and sends the solution to the local workers. */
    method Solve(ghost rest: seq<Cmd>) returns (buf: Message)
      requires Valid() && At([WriteGlobal0(EXEC_MSG)] + ([ReadSolution] + rest))
      modifies this`steps, repr
      ensures Valid() && At([TestConverged(buf)] + rest)
      ensures GlobalHist() == old(GlobalHist()) + [EXEC_MSG]
      ensures Converged(buf) <==> SolvedAt(cfg.procs[cfg.nLocal], old(GlobalHist()))
    {
      hide MasterControl.Valid, SyncRun, LocalContract, GlobalContract, Converges, Chans, At, GlobalHist;
      hide MemConnectionSet.Valid, MemConnectionSet.Processes;
      Sizes();
      WriteGlobal(0, EXEC_MSG, WriteGlobal0(EXEC_MSG), [], [ReadSolution] + rest);
      NoMore([ReadSolution] + rest);
      buf := ReadGlobal(0, ReadSolution, rest);
      TwoMore(WriteLocals(0, buf), TestConverged(buf), rest);
      WriteAllLocals(buf, [TestConverged(buf)] + rest);
    }

    method VisitGlobal(step: MWStep, ghost rest: seq<Cmd>)
      requires Valid() && step.GlobalStep? && At([Cmd.Visit(step)] + rest)
      modifies this`steps, repr
      ensures Valid() && At(rest)
    {
      hide MasterControl.Valid, SyncRun, LocalContract, GlobalContract, Converges, Chans, At, GlobalHist, SolvedAt;
      hide MemConnectionSet.Valid, MemConnectionSet.Processes;
      var buf := StepMsg(step);
      ghost var loop := [Iterate] + rest;
      ghost var answer := [ReadGlobal0] + ([ForwardReplies(0)] + loop);
      Enter(Cmd.Visit(step), VisitStep(step), rest);
      GlobalStepParts(step, rest);
      WriteAllLocals(buf, [WriteGlobal0(buf)] + answer);
      GlobalAnswer(buf, loop);
      SolveLoop(rest);
    }

    /** Tells the global worker, reads its answer, and gives it the replies of the local workers. */
    method GlobalAnswer(stepMsg: Message, ghost rest: seq<Cmd>)
      requires Valid()
      requires At([WriteGlobal0(stepMsg)] + ([ReadGlobal0] + ([ForwardReplies(0)] + rest)))
      modifies this`steps, repr
      ensures Valid() && At(rest)
    {
      hide MasterControl.Valid, SyncRun, LocalContract, GlobalContract, Converges, Chans, At, GlobalHist, SolvedAt;
      hide MemConnectionSet.Valid, MemConnectionSet.Processes;
      Sizes();
      WriteGlobal(0, stepMsg, WriteGlobal0(stepMsg), [], [ReadGlobal0] + ([ForwardReplies(0)] + rest));
      NoMore([ReadGlobal0] + ([ForwardReplies(0)] + rest));
      var buf := ReadGlobal(0, ReadGlobal0, [ForwardReplies(0)] + rest);
      NoMore([ForwardReplies(0)] + rest);
      ghost var replies := ForwardAll(rest);
    }

    /** Iterates as long as the global worker has not converged. */
    method SolveLoop(ghost rest: seq<Cmd>)
      requires Valid() && At([Iterate] + rest)
      modifies this`steps, repr
      ensures Valid() && At(rest)
    {
      hide MasterControl.Valid, SyncRun, LocalContract, GlobalContract, Chans, At, GlobalHist, SolvedAt;
      hide MemConnectionSet.Valid, MemConnectionSet.Processes;
      Sizes();
      ghost var p := cfg.procs[cfg.nLocal];
      ghost var started, solve := false, GlobalHist();
      var converged := false;
      while !converged
        invariant Valid() && At(if converged then rest else [Iterate] + rest)
        invariant started && !converged ==> GlobalHist() == solve + [EXEC_MSG] && !SolvedAt(p, solve)
        decreases !converged, !started, rank(solve)
      {
        ghost var before := GlobalHist();
        var buf, replies := SolveRound(rest);
        converged := Converged(buf);
        Enter(TestConverged(buf), if converged then [] else [Iterate], rest);
        NoMore(rest);
        assert started && !converged ==> rank(before + replies) < rank(solve);
        started, solve := true, before + replies;
      }
    }

    method Visit(step: MWStep, ghost rest: seq<Cmd>)
      requires Valid() && At([Cmd.Visit(step)] + rest)
      modifies this`steps, repr
      ensures Valid() && At(rest)
      decreases step
    {
      hide MasterControl.Valid, SyncRun, LocalContract, GlobalContract, Converges, Chans, At, GlobalHist;
      hide MemConnectionSet.Valid, MemConnectionSet.Processes;
      Sizes();
      match step
      case LocalStep(_) => VisitLocal(step, rest);
      case GlobalStep(_) => VisitGlobal(step, rest);
      case MultiStep(steps) =>
        Enter(Cmd.Visit(step), [VisitAll(steps)], rest);
        for i := 0 to |steps|
          invariant Valid() && At([VisitAll(steps[i..])] + rest)
        {
          Enter(VisitAll(steps[i..]), [Cmd.Visit(steps[i]), VisitAll(steps[i + 1..])], rest);
          TwoMore(Cmd.Visit(steps[i]), VisitAll(steps[i + 1..]), rest);
          Visit(steps[i], [VisitAll(steps[i + 1..])] + rest);
        }
        Leave(VisitAll([]), rest);
    }

    method ProcessSteps(step: MWStep, ghost rest: seq<Cmd>)
      requires Valid() && At([NextDomain(ALL)] + rest)
      requires step == cfg.tree && itsFullDomain.View() == cfg.full && itsShape == cfg.shape
      requires Usable(cfg.full, cfg.shape)
      modifies this`steps, repr
      ensures Valid() && At(rest)
    {
      hide MasterControl.Valid, SyncRun, LocalContract, GlobalContract, Converges, Chans, At, GlobalHist;
      hide MemConnectionSet.Valid, MemConnectionSet.Processes;
      Sizes();
      var workDomain := new ObsDomain();
      var more := itsFullDomain.GetNextWorkDomain(workDomain, itsShape);
      ghost var last := ALL;
      while more
        invariant Valid() && At([NextDomain(last)] + rest)
        invariant more == Next(cfg.full, cfg.shape, last).Some?
        invariant more ==> workDomain.View() == Next(cfg.full, cfg.shape, last).value
        decreases TimeLeft(cfg.full, cfg.shape, last), FreqLeft(cfg.full, cfg.shape, last)
      {
        ghost var wd := workDomain.View();
        NextDecreases(cfg.full, cfg.shape, last);
        Enter(NextDomain(last), ProcessDomain(cfg, wd), rest);
        StartDomain(Box(workDomain.startFreq, workDomain.endFreq, workDomain.startTime, workDomain.endTime), rest);
        Visit(step, [NextDomain(wd)] + rest);
        last := wd;
        more := itsFullDomain.GetNextWorkDomain(workDomain, itsShape);
      }
      Leave(NextDomain(last), rest);
    }

    /** Sends a work domain to all workers. */
    method StartDomain(wd: Box, ghost rest: seq<Cmd>)
      requires Valid() && At(ProcessDomain(cfg, wd) + rest)
      modifies this`steps, repr
      ensures Valid() && At([Cmd.Visit(cfg.tree)] + ([NextDomain(wd)] + rest))
    {
      hide MasterControl.Valid, SyncRun, LocalContract, GlobalContract, Converges, Chans, At, GlobalHist;
      hide MemConnectionSet.Valid, MemConnectionSet.Processes;
      Sizes();
      var buf := WdMsg(wd);
      ghost var steps := [Cmd.Visit(cfg.tree)] + ([NextDomain(wd)] + rest);
      ghost var replies := [ReadLocals(0)] + ([ReadGlobals(0)] + steps);
      assert ProcessDomain(cfg, wd) + rest == [WriteLocals(0, buf)] + ([WriteGlobals(0, buf)] + replies);
      WriteAllLocals(buf, [WriteGlobals(0, buf)] + replies);
      WriteAllGlobals(buf, replies);
      ReadAllWorkers(true, true, steps);
    }

    method Quit()
      requires Valid() && At(QuitProgram())
      modifies this`steps, repr
      ensures Valid() && At([])
    {
      hide MasterControl.Valid, SyncRun, LocalContract, GlobalContract, Converges, Chans, At, GlobalHist;
      hide MemConnectionSet.Valid, MemConnectionSet.Processes;
      Sizes();
      assert QuitProgram() == [WriteLocals(0, QUIT_MSG)] + ([WriteGlobals(0, QUIT_MSG)] + []);
      WriteAllLocals(QUIT_MSG, [WriteGlobals(0, QUIT_MSG)] + []);
      WriteAllGlobals(QUIT_MSG, []);
    }
  }

  // ---------------------------------------------------------------- ControllerBase in a single process

  /** A connection to a new worker for each process. */
  method MakeConnections(procs: seq<Process>) returns (conns: MemConnectionSet)
    ensures fresh(conns) && conns.Valid() && fresh(conns.Objects()) && |conns.itsConns| == |procs|
    ensures conns.Processes() == procs
    ensures conns.Views() == seq(|procs|, _ => Chan([], [], []))
  {
    hide MemConnectionSet.Views, MemConnectionSet.Processes;
    conns := new MemConnectionSet();
    for i := 0 to |procs|
      invariant |conns.itsConns| == i && conns.Valid() && fresh(conns)
      invariant forall k :: 0 <= k < i ==>
        var conn := conns.itsConns[k];
        fresh(conn) && fresh(conn.itsWorker) &&
        conn.itsResult == None && conn.itsWorker.received == [] && conn.itsWorker.process == procs[k]
    {
      var worker := new WorkerProxy(procs[i]);
      ghost var others := conns.itsConns;
      var nr := conns.AddConnection(worker);
      assert forall k :: 0 <= k < i ==> conns.itsConns[k] == others[k];
    }
    assert forall k :: 0 <= k < |procs| ==> conns.Views()[k] == conns.itsConns[k].View();
  }

  /** The master with all workers in its own process: a local worker for each process function and
      one global worker. */
  method MakeControl(localProcs: seq<Process>, globalProc: Process, ghost cfg: Config, ghost rank: seq<Message> -> nat)
    returns (mc: MasterControl)
    requires cfg.nLocal == |localProcs| && cfg.nGlobal == 1 && cfg.procs == localProcs + [globalProc]
    requires cfg.Shaped() && cfg.Valid() && Converges(globalProc, rank)
    ensures mc.cfg == cfg && fresh(mc) && fresh(mc.repr) && fresh(mc.itsFullDomain)
    ensures mc.Valid() && mc.At(Program())
  {
    hide SyncRun, LocalContract, GlobalContract, Converges, Config.Valid, Start, Program;
    hide MemConnectionSet.Views, MemConnectionSet.ViewsOf, MemConnectionSet.Processes;
    var localWorkers := MakeConnections(localProcs);
    var globalWorkers := MakeConnections([globalProc]);
    assert localWorkers.Objects() !! globalWorkers.Objects();
    mc := new MasterControl(localWorkers, globalWorkers, cfg, rank);
    RunStart(cfg);
    assert mc.Chans() == Start(cfg).chans;
  }

  /** runMaster with all workers in the master's process. */
  method RunMaster(parms: int, dataParts: seq<string>, fullDomain: ObsDomain, shape: Shape, tree: MWStep,
                   localProcs: seq<Process>, globalProc: Process, ghost rank: seq<Message> -> nat)
    returns (mc: MasterControl)
    requires |localProcs| == |dataParts| && Usable(fullDomain.View(), shape)
    requires (forall c :: 0 <= c < |localProcs| ==> LocalContract(localProcs[c])) && GlobalContract(globalProc)
    requires Converges(globalProc, rank)
    ensures mc.cfg == Config(|localProcs|, 1, parms, dataParts, tree, old(fullDomain.View()), shape,
                             localProcs + [globalProc])
    ensures mc.Valid() && |mc.Chans()| == mc.cfg.Size() && AllTold(mc.cfg, mc.Chans())
  {
    hide SyncRun, LocalContract, GlobalContract, Converges, Config.Valid, AllTold, Next, First, MasterControl.Chans;
    ghost var cfg := Config(|localProcs|, 1, parms, dataParts, tree, fullDomain.View(), shape,
                            localProcs + [globalProc]);
    AllContracts(cfg, localProcs, globalProc);
    mc := MakeControl(localProcs, globalProc, cfg, rank);
    mc.itsShape := shape;
    RunControl(mc, parms, dataParts, fullDomain, tree);
  }

  /** The master's work once the connections have been made. */
  method RunControl(mc: MasterControl, parms: int, dataParts: seq<string>, fullDomain: ObsDomain, tree: MWStep)
    requires mc.Valid() && mc.At(Program()) && fullDomain !in mc.repr
    requires parms == mc.cfg.parms && dataParts == mc.cfg.parts && tree == mc.cfg.tree
    requires fullDomain.View() == mc.cfg.full && mc.itsShape == mc.cfg.shape && Usable(mc.cfg.full, mc.cfg.shape)
    modifies mc`steps, mc.repr, mc.itsFullDomain
    ensures mc.Valid() && |mc.Chans()| == mc.cfg.Size() && AllTold(mc.cfg, mc.Chans())
  {
    hide SyncRun, LocalContract, GlobalContract, Converges, AllTold, Program, HasQuit;
    hide MemConnectionSet.Valid, MemConnectionSet.Views, MemConnectionSet.Processes, MasterControl.Chans;
    ghost var steps := [NextDomain(ALL)] + QuitProgram();
    ProgramParts();
    mc.SetInitInfo(parms, dataParts, fullDomain, steps);
    mc.ProcessSteps(tree, QuitProgram());
    mc.Quit();
    ToldAll(mc.cfg, mc.steps, mc.Chans());
  }

  lemma AllContracts(cfg: Config, localProcs: seq<Process>, globalProc: Process)
    requires cfg.Shaped() && cfg.nLocal == |localProcs| && cfg.procs == localProcs + [globalProc]
    requires (forall c :: 0 <= c < |localProcs| ==> LocalContract(localProcs[c])) && GlobalContract(globalProc)
    ensures cfg.Valid()
  {
  }

  lemma ProgramParts()
    ensures Program() == InitProgram() + ([NextDomain(ALL)] + QuitProgram())
  {
  }

  lemma RunStart(cfg: Config)
    requires cfg.Shaped()
    ensures SyncRun(cfg, Start(cfg), 0) == Some(Sys(Program(), Start(cfg).chans))
    ensures Start(cfg).chans == seq(cfg.Size(), _ => Chan([], [], []))
  {
  }
}
