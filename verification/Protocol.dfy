/** The master/worker protocol of LMWCommon: messages, what a worker answers, and the master's
    control flow as a program of commands that is unfolded one communication at a time. */
module Protocol {
  import opened MWSteps
  import opened ObsDomains
  import opened Options

  // The operations of MasterControl; a negative operation ends a worker.
  const INIT := 1
  const SETWD := 2
  const STEP := 3
  const GLOBALINIT := 4
  const GLOBALINFO := 5
  const GLOBALEXEC := 6
  const ENDWD := 7
  const QUIT := -1
  const NO_WORKER := -1

  datatype Body =
    | Nothing
    | InitInfo(parms: int, dataPart: string)
    | Domain(box: Box)
    | StepInfo(step: MWStep)
    | Result(converged: bool, data: int)

  datatype Message = Message(oper: int, streamId: int, workerId: int, body: Body)

  /** What a worker's process function returns: a negative operation means that no reply is sent. */
  datatype Reply = Reply(oper: int, body: Body)

  /** The process function of a worker, an arbitrary function of all it received before and the
      message at hand. */
  type Process = (seq<Message>, Message) -> Reply

  /** The convergence flag the master reads from the reply to GlobalExec. */
  predicate Converged(m: Message) { m.body.Result? && m.body.converged }

  // ---------------------------------------------------------------- workers

  /** The worker id is the one of the last Init received. */
  function WorkerIdAfter(hist: seq<Message>): int {
    if hist == [] then NO_WORKER
    else if hist[|hist| - 1].oper == INIT then hist[|hist| - 1].workerId
    else WorkerIdAfter(hist[..|hist| - 1])
  }

  /** The reply of a worker that has received hist before. */
  function Handle(p: Process, hist: seq<Message>, msg: Message): Option<Message> {
    if msg.oper < 0 then None
    else
      var r := if msg.oper == INIT then Reply(INIT, Nothing) else p(hist, msg);
      if r.oper < 0 then None
      else Some(Message(r.oper, msg.streamId, WorkerIdAfter(hist + [msg]), r.body))
  }

  predicate LocalAnswers(oper: int) { oper == SETWD || oper == STEP || oper == GLOBALINFO }
  predicate GlobalAnswers(oper: int) { oper == SETWD || oper == STEP || oper == GLOBALEXEC }
  predicate LocalSilent(oper: int) { oper >= 0 && oper != INIT && !LocalAnswers(oper) }
  predicate GlobalSilent(oper: int) { oper >= 0 && oper != INIT && !GlobalAnswers(oper) }

  /** A message whose reply the master forwards to the global worker. */
  predicate AsksForGlobal(m: Message) {
    m.oper == GLOBALINFO || (m.oper == STEP && m.body.StepInfo? && m.body.step.GlobalStep?)
  }

  /** The reply contract of a local worker: it answers SetWd, Step and GlobalInfo and nothing else,
      and what is forwarded to the global worker is no command the global worker answers. */
  ghost predicate LocalContract(p: Process) {
    forall h: seq<Message>, m: Message :: m.oper >= 0 && m.oper != INIT ==>
      && (p(h, m).oper >= 0 <==> LocalAnswers(m.oper))
      && (AsksForGlobal(m) ==> GlobalSilent(p(h, m).oper))
  }

  /** The reply contract of a global worker. */
  ghost predicate GlobalContract(p: Process) {
    forall h: seq<Message>, m: Message :: m.oper >= 0 && m.oper != INIT ==>
      && (p(h, m).oper >= 0 <==> GlobalAnswers(m.oper))
      && (m.oper == GLOBALEXEC ==> LocalSilent(p(h, m).oper))
  }

  // ---------------------------------------------------------------- a run's parameters

  /** Connections 0 .. nLocal-1 lead to the local workers, the next nGlobal ones to the global workers. */
  datatype Config = Config(nLocal: nat, nGlobal: nat, parms: int, parts: seq<string>, tree: MWStep,
                           full: Box, shape: Shape, procs: seq<Process>)
  {
    function Size(): nat { nLocal + nGlobal }

    predicate Shaped() { nGlobal >= 1 && nLocal <= |parts| && |procs| == Size() }

    ghost predicate Valid() {
      && Shaped()
      && (forall c :: 0 <= c < nLocal ==> LocalContract(procs[c]))
      && (forall c :: nLocal <= c < Size() ==> GlobalContract(procs[c]))
    }
  }

  // ---------------------------------------------------------------- the master's messages

  function InitMsg(cfg: Config, c: nat): Message {
    Message(INIT, 0, c, InitInfo(cfg.parms, if c < cfg.nLocal && c < |cfg.parts| then cfg.parts[c] else ""))
  }
  function WdMsg(b: Box): Message { Message(SETWD, 0, NO_WORKER, Domain(b)) }
  function StepMsg(s: MWStep): Message { Message(STEP, 0, NO_WORKER, StepInfo(s)) }
  const INFO_MSG := Message(GLOBALINFO, 0, NO_WORKER, Nothing)
  const EXEC_MSG := Message(GLOBALEXEC, 0, NO_WORKER, Nothing)
  const QUIT_MSG := Message(QUIT, 0, NO_WORKER, Nothing)

  // ---------------------------------------------------------------- the master's program

  /** What the master still has to do. The indexed commands are loops that have come to connection i. */
  datatype Cmd =
    | InitLocals(i: nat)
    | InitGlobals(i: nat)
    | ReadLocals(i: nat)
    | ReadGlobals(i: nat)
    | WriteLocals(i: nat, msg: Message)
    | WriteGlobals(i: nat, msg: Message)
    | WriteGlobal0(msg: Message)
    | ReadGlobal0
    | ForwardReplies(i: nat)
    | ReadSolution
    | TestConverged(msg: Message)
    | Iterate
    | Visit(step: MWStep)
    | VisitAll(steps: seq<MWStep>)
    | NextDomain(wd: Box)

  function InitProgram(): seq<Cmd> { [InitLocals(0), InitGlobals(0), ReadLocals(0), ReadGlobals(0)] }
  function QuitProgram(): seq<Cmd> { [WriteLocals(0, QUIT_MSG), WriteGlobals(0, QUIT_MSG)] }

  /** setInitInfo, processSteps and quit in the order ControllerBase::runMaster calls them. */
  function Program(): seq<Cmd> { InitProgram() + [NextDomain(ALL)] + QuitProgram() }

  /** The next thing the master does for a command: an internal step, a write or a read. What is
      left of the command, next, takes its place. */
  datatype Action = Tau(next: seq<Cmd>) | Send(c: nat, msg: Message, next: seq<Cmd>) | Recv(c: nat)

  function Act(cfg: Config, cmd: Cmd): (a: Action)
    requires cfg.Shaped()
    ensures a.Send? || a.Recv? ==> a.c < cfg.Size()
  {
    match cmd
    case InitLocals(i) => if i < cfg.nLocal then Send(i, InitMsg(cfg, i), [InitLocals(i + 1)]) else Tau([])
    case InitGlobals(i) =>
      if i < cfg.nGlobal then Send(cfg.nLocal + i, InitMsg(cfg, cfg.nLocal + i), [InitGlobals(i + 1)]) else Tau([])
    case ReadLocals(i) => if i < cfg.nLocal then Recv(i) else Tau([])
    case ReadGlobals(i) => if i < cfg.nGlobal then Recv(cfg.nLocal + i) else Tau([])
    case WriteLocals(i, msg) => if i < cfg.nLocal then Send(i, msg, [WriteLocals(i + 1, msg)]) else Tau([])
    case WriteGlobals(i, msg) =>
      if i < cfg.nGlobal then Send(cfg.nLocal + i, msg, [WriteGlobals(i + 1, msg)]) else Tau([])
    case WriteGlobal0(msg) => Send(cfg.nLocal, msg, [])
    case ReadGlobal0 => Recv(cfg.nLocal)
    case ForwardReplies(i) => if i < cfg.nLocal then Recv(i) else Tau([])
    case ReadSolution => Recv(cfg.nLocal)
    case TestConverged(msg) => Tau(if Converged(msg) then [] else [Iterate])
    case Iterate => Tau(Round())
    case Visit(step) => Tau(VisitStep(step))
    case VisitAll(steps) => Tau(if steps == [] then [] else [Visit(steps[0]), VisitAll(steps[1..])])
    case NextDomain(wd) =>
      match Next(cfg.full, cfg.shape, wd)
      case None => Tau([])
      case Some(b) => Tau(ProcessDomain(cfg, b))
  }

  /** One pass of the loop in visitGlobal, up to the solution. */
  function Round(): seq<Cmd> { [WriteLocals(0, INFO_MSG), ForwardReplies(0), WriteGlobal0(EXEC_MSG), ReadSolution] }

  /** visitLocal, visitGlobal and visitMulti. */
  function VisitStep(step: MWStep): seq<Cmd> {
    match step
    case LocalStep(_) => [WriteLocals(0, StepMsg(step)), ReadLocals(0)]
    case GlobalStep(_) =>
      [WriteLocals(0, StepMsg(step)), WriteGlobal0(StepMsg(step)), ReadGlobal0, ForwardReplies(0), Iterate]
    case MultiStep(steps) => [VisitAll(steps)]
  }

  /** One pass of the loop in processSteps. */
  function ProcessDomain(cfg: Config, b: Box): seq<Cmd> {
    [WriteLocals(0, WdMsg(b)), WriteGlobals(0, WdMsg(b)), ReadLocals(0), ReadGlobals(0), Visit(cfg.tree), NextDomain(b)]
  }

  /** What is left of a command after its read has delivered msg. */
  function AfterRecv(cmd: Cmd, msg: Message): seq<Cmd> {
    match cmd
    case ReadLocals(i) => [ReadLocals(i + 1)]
    case ReadGlobals(i) => [ReadGlobals(i + 1)]
    case ForwardReplies(i) => [WriteGlobal0(msg), ForwardReplies(i + 1)]
    case ReadSolution => [WriteLocals(0, msg), TestConverged(msg)]
    case _ => []
  }

  // ---------------------------------------------------------------- the synchronous system

  /** One connection: messages on their way to the worker, messages the worker has handled,
      replies on their way to the master. */
  datatype Chan = Chan(inbox: seq<Message>, hist: seq<Message>, outbox: seq<Message>)

  datatype Sys = Sys(prog: seq<Cmd>, chans: seq<Chan>)

  function ToSeq(r: Option<Message>): seq<Message> { if r.Some? then [r.value] else [] }

  /** MemConnection::write: the worker handles the message at once. */
  function Deliver(p: Process, ch: Chan, msg: Message): Chan {
    ch.(hist := ch.hist + [msg], outbox := ch.outbox + ToSeq(Handle(p, ch.hist, msg)))
  }

  predicate WellFormed(cfg: Config, s: Sys) { cfg.Shaped() && |s.chans| == cfg.Size() }

  /** One step of the master over in-memory connections; None is a failed assertion of
      MemConnection: a write before the last result was read, or a read without a result. */
  function SyncStep(cfg: Config, s: Sys): (r: Option<Sys>)
    requires WellFormed(cfg, s)
    ensures r.Some? ==> WellFormed(cfg, r.value)
  {
    if s.prog == [] then Some(s)
    else
      var rest := s.prog[1..];
      match Act(cfg, s.prog[0])
      case Tau(next) => Some(s.(prog := next + rest))
      case Send(c, msg, next) =>
        if s.chans[c].outbox != [] then None
        else Some(Sys(next + rest, s.chans[c := Deliver(cfg.procs[c], s.chans[c], msg)]))
      case Recv(c) =>
        if s.chans[c].outbox == [] then None
        else Some(Sys(AfterRecv(s.prog[0], s.chans[c].outbox[0]) + rest,
                      s.chans[c := s.chans[c].(outbox := s.chans[c].outbox[1..])]))
  }

  /** The state after k steps. */
  function SyncRun(cfg: Config, s: Sys, k: nat): (r: Option<Sys>)
    requires WellFormed(cfg, s)
    ensures r.Some? ==> WellFormed(cfg, r.value)
  {
    if k == 0 then Some(s)
    else match SyncRun(cfg, s, k - 1)
      case None => None
      case Some(t) => SyncStep(cfg, t)
  }

  function Start(cfg: Config): (s: Sys)
    requires cfg.Shaped()
    ensures WellFormed(cfg, s)
  {
    Sys(Program(), seq(cfg.Size(), _ => Chan([], [], [])))
  }
}
