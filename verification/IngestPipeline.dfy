/** One run of the ingest pipeline: its stages with their retries, and what it does when one fails. What
    the archive, the source host and MoM answer is any function of everything asked before. */
module IngestPipelines {
  import opened Options

  // States of a storage ticket.
  const SUCCESSFUL := 40
  const FAILED := -10

  datatype Stage = GetStorageTicket | Transfer | SendChecksums | GetSIP | SendSIP | SendStatus(state: int)

  datatype ErrorType = JobFailed | NoSource | AlreadyInLTA | NoProject

  /** An answer from outside. Keys that a reply lacks are None. */
  datatype Answer =
    | Fault
    | Granted(ticket: Option<string>, primary: Option<string>, secondary: Option<string>, primaryRnd: Option<string>)
    | Exists(existing: string, state: int)
    | Unclear
    | UnknownProject
    | Uris(uri: Option<string>, uri2: Option<string>)
    | Fine
    | NotFound
    | Rejected

  /** What has happened so far, as far as others can see it. */
  datatype Event = Asked(stage: Stage, answer: Answer) | RolledBack

  type World = seq<Event> -> Answer

  datatype Config = Config(world: World, eor: bool, ltaRetry: int, srmRetry: int, momRetry: int)

  datatype State = State(ticket: string, tempPrimary: string, primaryUri: string, log: seq<Event>)

  const START := State("", "", "", [])

  /** How a call of a stage ends. */
  datatype Result = Ok | Raised | RaisedPipeline(error: ErrorType)

  // ---------------------------------------------------------------- the stages

  /** The fields are set one after the other, up to the first key that is missing. */
  function TakeTicket(p: State, a: Answer): (r: (State, Result))
    requires a.Granted?
  {
    if a.ticket.None? then (p, Raised)
    else
      var p1 := p.(ticket := a.ticket.value);
      if a.primary.None? then (p1, Raised)
      else
        var p2 := p1.(tempPrimary := a.primary.value);
        if a.secondary.None? || a.primaryRnd.None? then (p2, Raised)
        else (p2.(primaryUri := a.primaryRnd.value), Ok)
  }

  function Ask(c: Config, p: State, stage: Stage): (State, Answer) {
    var a := c.world(p.log);
    (p.(log := p.log + [Asked(stage, a)]), a)
  }

  function Rank(stage: Stage): nat { if stage.GetStorageTicket? then 1 else 0 }

  /** One call of a stage. */
  function Call(c: Config, p: State, stage: Stage): (State, Result)
    decreases Rank(stage), 0
  {
    var (q, a) := Ask(c, p, stage);
    match stage
    case GetStorageTicket =>
      (match a
       case Granted(_, _, _, _) => TakeTicket(q, a)
       case Exists(existing, state) =>
         if state < SUCCESSFUL then
           // the incomplete ticket is reset, whether or not that works the call fails
           (Retry(c, q.(ticket := existing), SendStatus(FAILED), c.ltaRetry).0, Raised)
         else (q, RaisedPipeline(AlreadyInLTA))
       case UnknownProject => (q, RaisedPipeline(NoProject))
       case _ => (q, Raised))
    case Transfer =>
      (match a
       case Fine => (q, Ok)
       case NotFound => (q, if c.eor then Raised else RaisedPipeline(NoSource))
       case _ => (q, Raised))
    case SendChecksums =>
      (match a
       case Uris(uri, uri2) =>
         if uri.None? then (q, Raised)
         else (q.(primaryUri := uri.value), if uri2.None? then Raised else Ok)
       case _ => (q, Raised))
    case _ =>
      match a
      case Fine => (q, Ok)
      case Rejected => (q, RaisedPipeline(JobFailed))
      case _ => (q, Raised)
  }

  /** RetryRun: the state afterwards, and the error it raises if any. A PipelineError is not retried. */
  function Retry(c: Config, p: State, stage: Stage, times: int): (State, Option<ErrorType>)
    decreases Rank(stage), if times > 0 then times + 1 else 1
  {
    if times <= 0 then (p, None)
    else
      var (q, r) := Call(c, p, stage);
      match r
      case Ok => (q, None)
      case RaisedPipeline(e) => (q, Some(e))
      case Raised => if times == 1 then (q, Some(JobFailed)) else Retry(c, q, stage, times - 1)
  }

  function Times(c: Config, stage: Stage): int {
    match stage
    case Transfer => c.srmRetry
    case GetSIP => c.momRetry
    case _ => c.ltaRetry
  }

  /** The stages of a run, in order. */
  const STAGES := [GetStorageTicket, Transfer, SendChecksums, GetSIP, SendSIP, SendStatus(SUCCESSFUL)]

  /** The stages one after the other, up to the first that fails. */
  function RunStages(c: Config, p: State, stages: seq<Stage>): (State, Option<ErrorType>)
    decreases |stages|
  {
    if stages == [] then (p, None)
    else
      var (q, e) := Retry(c, p, stages[0], Times(c, stages[0]));
      if e.Some? then (q, e) else RunStages(c, q, stages[1..])
  }

  predicate HoldsUri(p: State) { p.primaryUri != "" || p.tempPrimary != "" }

  /** What is done about an error: roll back, report the failure, and raise it again or not. */
  function Handle(c: Config, p: State, e: ErrorType): (State, Option<ErrorType>) {
    var q := if HoldsUri(p) && e != NoSource then p.(log := p.log + [RolledBack]) else p;
    var r := if q.ticket != "" then Retry(c, q, SendStatus(FAILED), c.ltaRetry).0 else q;
    (r, if e == JobFailed || e == NoProject then Some(e) else None)
  }

  /** run: the final state, and the error the caller sees. */
  function Run(c: Config): (State, Option<ErrorType>) {
    var (p, e) := RunStages(c, START, STAGES);
    if e.None? then (p, None) else Handle(c, p, e.value)
  }

  // ---------------------------------------------------------------- the class

  class IngestPipeline {
    const cfg: Config
    var ticket: string
    var tempPrimary: string
    var primaryUri: string
    var log: seq<Event>

    ghost function View(): State
      reads this
    {
      State(ticket, tempPrimary, primaryUri, log)
    }

    constructor (cfg: Config)
      ensures this.cfg == cfg && View() == START
    {
      this.cfg := cfg;
      ticket, tempPrimary, primaryUri, log := "", "", "", [];
    }

    method AskOutside(stage: Stage) returns (a: Answer)
      modifies this
      ensures (View(), a) == Ask(cfg, old(View()), stage)
    {
      a := cfg.world(log);
      log := log + [Asked(stage, a)];
    }

    method GetTicket() returns (r: Result)
      modifies this
      ensures (View(), r) == Call(cfg, old(View()), GetStorageTicket)
      decreases 1, 0
    {
      var a := AskOutside(GetStorageTicket);
      match a
      case Granted(newTicket, primary, secondary, primaryRnd) =>
        if newTicket.None? { return Raised; }
        ticket := newTicket.value;
        if primary.None? { return Raised; }
        tempPrimary := primary.value;
        if secondary.None? || primaryRnd.None? { return Raised; }
        primaryUri := primaryRnd.value;
        return Ok;
      case Exists(existing, state) =>
        if state < SUCCESSFUL {
          ticket := existing;
          var ignored := RetryRun(SendStatus(FAILED), cfg.ltaRetry);
          return Raised;
        }
        return RaisedPipeline(AlreadyInLTA);
      case UnknownProject => return RaisedPipeline(NoProject);
      case _ => return Raised;
    }

    method CallStage(stage: Stage) returns (r: Result)
      modifies this
      ensures (View(), r) == Call(cfg, old(View()), stage)
      decreases Rank(stage), 1
    {
      match stage
      case GetStorageTicket =>
        r := GetTicket();
      case Transfer =>
        var a := AskOutside(stage);
        match a {
          case Fine => return Ok;
          case NotFound => return if cfg.eor then Raised else RaisedPipeline(NoSource);
          case _ => return Raised;
        }
      case SendChecksums =>
        var a := AskOutside(stage);
        match a {
          case Uris(uri, uri2) =>
            if uri.None? { return Raised; }
            primaryUri := uri.value;
            return if uri2.None? then Raised else Ok;
          case _ => return Raised;
        }
      case _ =>
        var a := AskOutside(stage);
        match a {
          case Fine => return Ok;
          case Rejected => return RaisedPipeline(JobFailed);
          case _ => return Raised;
        }
    }

    /** Calls a stage again and again until it succeeds, up to the given number of times. */
    method RetryRun(stage: Stage, times: int) returns (e: Option<ErrorType>)
      modifies this
      ensures (View(), e) == Retry(cfg, old(View()), stage, times)
      decreases Rank(stage), 2
    {
      var error := false;
      var retry := 0;
      while retry < times
        invariant error <==> retry > 0
        invariant retry > 0 ==> retry <= times
        invariant if retry > 0 && retry == times
                  then Retry(cfg, old(View()), stage, times) == (View(), Some(JobFailed))
                  else Retry(cfg, old(View()), stage, times) == Retry(cfg, View(), stage, times - retry)
      {
        var r := CallStage(stage);
        match r {
          case RaisedPipeline(pe) => return Some(pe);
          case Raised => error := true;
          case Ok => return None;
        }
        retry := retry + 1;
      }
      e := if error then Some(JobFailed) else None;
    }

    method RollBack()
      modifies this`log
      ensures log == old(log) + [RolledBack]
    {
      log := log + [RolledBack];
    }

    /** The error is the one the caller sees. */
    method RunPipeline() returns (raised: Option<ErrorType>)
      requires View() == START
      modifies this
      ensures (View(), raised) == Run(cfg)
    {
      hide Retry;
      var e := None;
      for i := 0 to |STAGES|
        invariant RunStages(cfg, START, STAGES) == RunStages(cfg, View(), STAGES[i..])
      {
        e := RetryRun(STAGES[i], Times(cfg, STAGES[i]));
        assert STAGES[i..][1..] == STAGES[i + 1..];
        if e.Some? {
          raised := HandleError(e.value);
          return;
        }
      }
      return None;
    }

    method HandleError(pe: ErrorType) returns (raised: Option<ErrorType>)
      modifies this
      ensures (View(), raised) == Handle(cfg, old(View()), pe)
    {
      hide Retry;
      if primaryUri != "" || tempPrimary != "" {
        if !(pe == NoSource) {
          RollBack();
        }
      }
      if ticket != "" {
        var ignored := RetryRun(SendStatus(FAILED), cfg.ltaRetry);
      }
      return if pe == JobFailed || pe == NoProject then Some(pe) else None;
    }
  }
}
