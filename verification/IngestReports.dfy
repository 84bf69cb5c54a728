/** What a run of the ingest pipeline shows to others: which stages have succeeded when success is reported,
    what is rolled back, and what the caller sees. */
module IngestReports {
  import opened Options
  import opened IngestPipelines
  import IngestJobs

  /** An answer that makes a stage succeed. */
  predicate Accepts(stage: Stage, a: Answer) {
    match stage
    case GetStorageTicket => a.Granted? && a.ticket.Some? && a.primary.Some? && a.secondary.Some? && a.primaryRnd.Some?
    case SendChecksums => a.Uris? && a.uri.Some? && a.uri2.Some?
    case _ => a.Fine?
  }

  /** The stages that have succeeded, reports of failure left out. */
  function Succeeded(log: seq<Event>): seq<Stage> {
    if log == [] then []
    else
      Succeeded(log[..|log| - 1]) +
      match log[|log| - 1]
      case Asked(stage, a) => if stage != SendStatus(FAILED) && Accepts(stage, a) then [stage] else []
      case RolledBack => []
  }

  function RollBacks(log: seq<Event>): nat {
    if log == [] then 0 else RollBacks(log[..|log| - 1]) + if log[|log| - 1].RolledBack? then 1 else 0
  }

  /** The temporary URI that the answers about the ticket leave behind. */
  function GivenPrimary(log: seq<Event>): string {
    if log == [] then ""
    else
      match log[|log| - 1]
      case Asked(GetStorageTicket, Granted(Some(_), Some(primary), _, _)) => primary
      case _ => GivenPrimary(log[..|log| - 1])
  }

  lemma Appended(log: seq<Event>, e: Event)
    ensures Succeeded(log + [e]) == Succeeded(log) +
      match e
      case Asked(stage, a) => if stage != SendStatus(FAILED) && Accepts(stage, a) then [stage] else []
      case RolledBack => []
    ensures RollBacks(log + [e]) == RollBacks(log) + if e.RolledBack? then 1 else 0
    ensures GivenPrimary(log + [e]) ==
      match e
      case Asked(GetStorageTicket, Granted(Some(_), Some(primary), _, _)) => primary
      case _ => GivenPrimary(log)
  {
    assert (log + [e])[..|log|] == log;
  }

  predicate OnlyAsks(p: State, q: State, stage: Stage) {
    |p.log| <= |q.log| && forall k :: |p.log| <= k < |q.log| ==> q.log[k].Asked? && q.log[k].stage == stage
  }

  /** What a call or a retried stage does: more is the list of stages that have succeeded now. */
  ghost predicate Tells(p: State, q: State, stage: Stage, failed: bool, more: seq<Stage>) {
    && p.log <= q.log && Succeeded(q.log) == Succeeded(p.log) + more && RollBacks(q.log) == RollBacks(p.log)
    && (p.tempPrimary == GivenPrimary(p.log) ==> q.tempPrimary == GivenPrimary(q.log))
    && (!stage.GetStorageTicket? ==> q.tempPrimary == p.tempPrimary && q.ticket == p.ticket)
    && (stage.GetStorageTicket? && failed ==> q.primaryUri == p.primaryUri)
    && (stage.SendStatus? ==> q.primaryUri == p.primaryUri && OnlyAsks(p, q, stage))
  }

  lemma CallTells(c: Config, p: State, stage: Stage)
    ensures var (q, r) := Call(c, p, stage);
      && Tells(p, q, stage, !r.Ok?, if r.Ok? && stage != SendStatus(FAILED) then [stage] else [])
      && (r.RaisedPipeline? && r.error == AlreadyInLTA ==> stage.GetStorageTicket?)
      && |p.log| < |q.log|
    decreases Rank(stage), 0
  {
    hide Succeeded, RollBacks, GivenPrimary;
    var a := c.world(p.log);
    var q := p.(log := p.log + [Asked(stage, a)]);
    Appended(p.log, Asked(stage, a));
    if stage.GetStorageTicket? {
      TicketTells(c, p);
    } else {
      hide Retry;
      assert p.log <= q.log;
    }
  }

  lemma TicketTells(c: Config, p: State)
    ensures var (q, r) := Call(c, p, GetStorageTicket);
      && Tells(p, q, GetStorageTicket, !r.Ok?, if r.Ok? then [GetStorageTicket] else []) && |p.log| < |q.log|
    decreases 1, 0, 0
  {
    hide Succeeded, RollBacks, GivenPrimary, Retry;
    var a := c.world(p.log);
    var q := p.(log := p.log + [Asked(GetStorageTicket, a)]);
    Appended(p.log, Asked(GetStorageTicket, a));
    if a.Exists? && a.state < SUCCESSFUL {
      RetryTells(c, q.(ticket := a.existing), SendStatus(FAILED), c.ltaRetry);
    }
  }

  lemma {:induction false} RetryTells(c: Config, p: State, stage: Stage, times: int)
    ensures var (q, e) := Retry(c, p, stage, times);
      && Tells(p, q, stage, e.Some?, if e.None? && times > 0 && stage != SendStatus(FAILED) then [stage] else [])
      && (e == Some(AlreadyInLTA) ==> stage.GetStorageTicket?)
      && (|p.log| < |q.log| <==> times > 0) && (e.Some? ==> times > 0)
    decreases Rank(stage), if times > 0 then times + 1 else 1
  {
    if times > 0 {
      CallTells(c, p, stage);
      var (q, r) := Call(c, p, stage);
      if r.Raised? && times > 1 {
        RetryTells(c, q, stage, times - 1);
      }
    }
  }

  /** The stages that are called at all: those with at least one try. */
  function Wanted(c: Config, stages: seq<Stage>): seq<Stage> {
    if stages == [] then []
    else (if Times(c, stages[0]) > 0 then [stages[0]] else []) + Wanted(c, stages[1..])
  }

  predicate NoFailureReports(stages: seq<Stage>) { forall i :: 0 <= i < |stages| ==> stages[i] != SendStatus(FAILED) }

  /** The stages succeed in order, up to stage n where the run stops. */
  lemma {:induction false} StagesTell(c: Config, p: State, stages: seq<Stage>) returns (n: nat)
    requires NoFailureReports(stages)
    ensures var (q, e) := RunStages(c, p, stages);
      && n <= |stages| && (e.None? ==> n == |stages|) && (e.Some? ==> n < |stages| && Times(c, stages[n]) > 0)
      && Succeeded(q.log) == Succeeded(p.log) + Wanted(c, stages[..n]) && RollBacks(q.log) == RollBacks(p.log)
      && (p.tempPrimary == GivenPrimary(p.log) ==> q.tempPrimary == GivenPrimary(q.log))
      && (e == Some(AlreadyInLTA) ==> stages[n].GetStorageTicket? && (n == 0 ==> q.primaryUri == p.primaryUri))
    decreases |stages|
  {
    hide Retry, Succeeded, RollBacks, GivenPrimary;
    if stages == [] {
      return 0;
    }
    RetryTells(c, p, stages[0], Times(c, stages[0]));
    var (q, e) := Retry(c, p, stages[0], Times(c, stages[0]));
    n := 0;
    if e.None? {
      n := StagesTell(c, q, stages[1..]);
      assert stages[..n + 1][1..] == stages[1..][..n];
      n := n + 1;
    }
  }

  lemma {:induction false} WantedIn(c: Config, stages: seq<Stage>, stage: Stage)
    ensures stage in Wanted(c, stages) <==> stage in stages && Times(c, stage) > 0
  {
    if stages != [] {
      WantedIn(c, stages[1..], stage);
      assert stages == [stages[0]] + stages[1..];
    }
  }

  /** What follows an error: at most one roll back, then nothing but reports of failure, if there is a ticket. */
  lemma HandleTells(c: Config, p: State, e: ErrorType)
    ensures var (q, raised) := Handle(c, p, e);
      var rolls := HoldsUri(p) && e != NoSource;
      var r := if rolls then p.(log := p.log + [RolledBack]) else p;
      && r.log <= q.log && OnlyAsks(r, q, SendStatus(FAILED))
      && (|r.log| < |q.log| <==> p.ticket != "" && c.ltaRetry > 0)
      && Succeeded(q.log) == Succeeded(p.log)
      && RollBacks(q.log) == RollBacks(p.log) + if rolls then 1 else 0
  {
    var r := if HoldsUri(p) && e != NoSource then p.(log := p.log + [RolledBack]) else p;
    Appended(p.log, RolledBack);
    RetryTells(c, r, SendStatus(FAILED), c.ltaRetry);
  }

  lemma NothingYet()
    ensures Succeeded([]) == [] && RollBacks([]) == 0 && GivenPrimary([]) == ""
  {
  }

  lemma {:induction false} WantedAll(c: Config, stages: seq<Stage>)
    requires c.ltaRetry > 0 && c.srmRetry > 0 && c.momRetry > 0
    ensures Wanted(c, stages) == stages
  {
    if stages != [] {
      WantedAll(c, stages[1..]);
      assert stages == [stages[0]] + stages[1..];
    }
  }

  // ---------------------------------------------------------------- reports of success

  /** The archive is told that the file has been ingested; whether it answers is another matter. */
  predicate IsReport(e: Event) { e.Asked? && e.stage == SendStatus(SUCCESSFUL) }

  predicate Reported(log: seq<Event>) { exists k :: 0 <= k < |log| && IsReport(log[k]) }

  /** Whenever success is reported, just these stages have succeeded before. */
  predicate ReportsAfter(log: seq<Event>, done: seq<Stage>) {
    forall k :: 0 <= k < |log| && IsReport(log[k]) ==> Succeeded(log[..k]) == done
  }

  lemma NoReportAdded(p: seq<Event>, q: seq<Event>, done: seq<Stage>)
    requires p <= q && forall k :: |p| <= k < |q| ==> !IsReport(q[k])
    ensures Reported(q) <==> Reported(p)
    ensures ReportsAfter(p, done) ==> ReportsAfter(q, done)
  {
    forall k | 0 <= k < |p| ensures q[k] == p[k] && q[..k] == p[..k] {
    }
    if Reported(p) {
      var k :| 0 <= k < |p| && IsReport(p[k]);
      assert IsReport(q[k]);
    }
  }

  /** Only the last stage reports success. */
  lemma CallSilent(c: Config, p: State, stage: Stage)
    requires stage != SendStatus(SUCCESSFUL)
    ensures var q := Call(c, p, stage).0;
      p.log <= q.log && forall k :: |p.log| <= k < |q.log| ==> !IsReport(q.log[k])
    decreases Rank(stage), 0
  {
    var a := c.world(p.log);
    if stage.GetStorageTicket? && a.Exists? && a.state < SUCCESSFUL {
      RetrySilent(c, p.(log := p.log + [Asked(stage, a)], ticket := a.existing), SendStatus(FAILED), c.ltaRetry);
    }
  }

  lemma {:induction false} RetrySilent(c: Config, p: State, stage: Stage, times: int)
    requires stage != SendStatus(SUCCESSFUL)
    ensures var q := Retry(c, p, stage, times).0;
      p.log <= q.log && forall k :: |p.log| <= k < |q.log| ==> !IsReport(q.log[k])
    decreases Rank(stage), if times > 0 then times + 1 else 1
  {
    if times > 0 {
      CallSilent(c, p, stage);
      var (q, r) := Call(c, p, stage);
      if r.Raised? && times > 1 { RetrySilent(c, q, stage, times - 1); }
    }
  }

  /** All tries of the last stage come after the same successes, and it fails in one way only. */
  lemma {:induction false} ReportTells(c: Config, p: State, times: int)
    ensures var (q, e) := Retry(c, p, SendStatus(SUCCESSFUL), times);
      && p.log <= q.log && (e.Some? ==> e == Some(JobFailed)) && (times <= 0 ==> q == p)
      && forall k :: |p.log| <= k < |q.log| ==> Succeeded(q.log[..k]) == Succeeded(p.log)
    decreases times
  {
    hide GivenPrimary, RollBacks;
    if times > 0 {
      var stage := SendStatus(SUCCESSFUL);
      var a := c.world(p.log);
      var (q1, r) := Call(c, p, stage);
      Appended(p.log, Asked(stage, a));
      assert q1.log == p.log + [Asked(stage, a)] && q1.log[..|p.log|] == p.log;
      hide Succeeded;
      if r.Raised? && times > 1 {
        ReportTells(c, q1, times - 1);
        var q := Retry(c, q1, stage, times - 1).0;
        assert q.log[..|p.log|] == p.log;
      }
    }
  }

  /** The stages from i on, all before having succeeded as far as they are tried. */
  lemma {:induction false} StagesReport(c: Config, p: State, i: nat)
    requires i <= |STAGES| && Succeeded(p.log) == Wanted(c, STAGES[..i]) && (i < |STAGES| ==> !Reported(p.log))
    requires ReportsAfter(p.log, Wanted(c, STAGES[..5]))
    ensures var (q, e) := RunStages(c, p, STAGES[i..]);
      && ReportsAfter(q.log, Wanted(c, STAGES[..5]))
      && (i < |STAGES| && Reported(q.log) ==> c.ltaRetry > 0 && (e.Some? ==> e == Some(JobFailed)))
    decreases |STAGES| - i
  {
    hide Retry, Succeeded, RollBacks, GivenPrimary, Reported, ReportsAfter;
    if i < |STAGES| {
      var stage := STAGES[i];
      var (q, e) := Retry(c, p, stage, Times(c, stage));
      assert STAGES[i..][1..] == STAGES[i + 1..];
      if i < 5 {
        RetrySilent(c, p, stage, Times(c, stage));
        NoReportAdded(p.log, q.log, Wanted(c, STAGES[..5]));
        RetryTells(c, p, stage, Times(c, stage));
        WantedMore(c, i);
        if e.None? { StagesReport(c, q, i + 1); }
      } else {
        ReportTells(c, p, c.ltaRetry);
        LastReports(p.log, q.log, Wanted(c, STAGES[..5]));
      }
    }
  }

  lemma {:induction false} WantedSplit(c: Config, stages: seq<Stage>, n: nat)
    requires n <= |stages|
    ensures Wanted(c, stages) == Wanted(c, stages[..n]) + Wanted(c, stages[n..])
  {
    if n > 0 {
      assert stages[..n][1..] == stages[1..][..n - 1] && stages[1..][n - 1..] == stages[n..];
      WantedSplit(c, stages[1..], n - 1);
    }
  }

  lemma WantedMore(c: Config, i: nat)
    requires i < |STAGES|
    ensures Wanted(c, STAGES[..i + 1])
         == Wanted(c, STAGES[..i]) + if Times(c, STAGES[i]) > 0 then [STAGES[i]] else []
  {
    WantedSplit(c, STAGES[..i + 1], i);
    assert STAGES[..i + 1][..i] == STAGES[..i] && STAGES[..i + 1][i..] == [STAGES[i]];
    assert [STAGES[i]][1..] == [];
  }

  lemma LastReports(p: seq<Event>, q: seq<Event>, done: seq<Stage>)
    requires p <= q && ReportsAfter(p, done) && Succeeded(p) == done
    requires forall k :: |p| <= k < |q| ==> Succeeded(q[..k]) == Succeeded(p)
    ensures ReportsAfter(q, done)
    ensures !Reported(p) && p == q ==> !Reported(q)
  {
    forall k | 0 <= k < |q| && IsReport(q[k]) ensures Succeeded(q[..k]) == done {
      if k < |p| { assert q[k] == p[k] && q[..k] == p[..k]; }
    }
  }

  /** The events of the stages, and those of a whole run. */
  lemma RunReports(c: Config)
    ensures var (p, e) := RunStages(c, START, STAGES);
      var log := Run(c).0.log;
      && p.log <= log && (Reported(log) <==> Reported(p.log))
      && ReportsAfter(p.log, Wanted(c, STAGES[..5])) && ReportsAfter(log, Wanted(c, STAGES[..5]))
      && (Reported(p.log) ==> c.ltaRetry > 0 && (e.Some? ==> e == Some(JobFailed)))
  {
    NothingYet();
    assert STAGES[0..] == STAGES && STAGES[..0] == [];
    StagesReport(c, START, 0);
    hide Retry, RunStages, Handle, Succeeded, RollBacks, GivenPrimary, Reported, ReportsAfter;
    var (p, e) := RunStages(c, START, STAGES);
    if e.Some? {
      HandleTells(c, p, e.value);
      var log := Run(c).0.log;
      NoReportAdded(p.log, log, Wanted(c, STAGES[..5]));
    }
  }

  /** Success is reported only after every stage that is tried at all has succeeded, in order, whatever is
      answered to the report. If the report is accepted the run never rolls back and raises no error. */
  lemma SuccessMeansAllStages(c: Config)
    ensures var (q, raised) := Run(c);
      && (forall k :: 0 <= k < |q.log| && IsReport(q.log[k]) ==> Succeeded(q.log[..k]) == Wanted(c, STAGES[..5]))
      && (SendStatus(SUCCESSFUL) in Succeeded(q.log) ==>
            Succeeded(q.log) == Wanted(c, STAGES) && RollBacks(q.log) == 0 && raised == None)
  {
    RunReports(c);
    hide Retry, Handle, Succeeded, RollBacks;
    var n := StagesTell(c, START, STAGES);
    var (p, e) := RunStages(c, START, STAGES);
    NothingYet();
    if e.Some? {
      HandleTells(c, p, e.value);
      WantedIn(c, STAGES[..n], SendStatus(SUCCESSFUL));
      assert STAGES[5] == SendStatus(SUCCESSFUL) && SendStatus(SUCCESSFUL) !in STAGES[..n];
    } else {
      assert STAGES[..n] == STAGES;
    }
  }

  /** Whenever success is reported the file has been transferred before, exactly if transfers are tried at all. */
  lemma SuccessMeansTransferIff(c: Config, k: nat)
    requires k < |Run(c).0.log| && IsReport(Run(c).0.log[k])
    ensures Transfer in Succeeded(Run(c).0.log[..k]) <==> c.srmRetry > 0
  {
    hide Run, Succeeded;
    RunReports(c);
    WantedIn(c, STAGES[..5], Transfer);
    assert STAGES[..5][1] == Transfer;
  }

  /** With at least one try for every stage, all five other stages have succeeded, in order, before any report. */
  lemma SuccessWithRetries(c: Config, k: nat)
    requires c.ltaRetry > 0 && c.srmRetry > 0 && c.momRetry > 0
    requires k < |Run(c).0.log| && IsReport(Run(c).0.log[k])
    ensures Succeeded(Run(c).0.log[..k]) == [GetStorageTicket, Transfer, SendChecksums, GetSIP, SendSIP]
  {
    hide Run, Succeeded;
    RunReports(c);
    WantedAll(c, STAGES[..5]);
    assert STAGES[..5] == [GetStorageTicket, Transfer, SendChecksums, GetSIP, SendSIP];
  }

  /** Without tries, success can be reported of a file that was never transferred. */
  lemma SuccessWithoutTransfer() returns (c: Config)
    ensures c.srmRetry == 0
    ensures SendStatus(SUCCESSFUL) in Succeeded(Run(c).0.log) && Transfer !in Succeeded(Run(c).0.log)
  {
    c := Config(log => Smooth(|log|), false, 1, 0, 1);
    SmoothRun(c);
    var log := Run(c).0.log;
    assert log[4] == Asked(SendStatus(SUCCESSFUL), Fine);
    SucceededAt(log, 4);
    SuccessMeansAllStages(c);
    WantedIn(c, STAGES, Transfer);
  }

  const GRANTED := Granted(Some("ticket"), Some("uri"), Some("uri"), Some("uri"))

  /** Answers that make every stage but the transfer succeed. */
  function Smooth(n: nat): Answer {
    if n == 0 then GRANTED else if n == 1 then Uris(Some("uri"), Some("uri")) else Fine
  }

  lemma SmoothRun(c: Config)
    requires c == Config(log => Smooth(|log|), false, 1, 0, 1)
    ensures |Run(c).0.log| == 5 && Run(c).0.log[4] == Asked(SendStatus(SUCCESSFUL), Fine)
  {
    var l0 := [Asked(GetStorageTicket, GRANTED)];
    var l1 := l0 + [Asked(SendChecksums, Uris(Some("uri"), Some("uri")))];
    var l2 := l1 + [Asked(GetSIP, Fine)];
    var l3 := l2 + [Asked(SendSIP, Fine)];
    var l4 := l3 + [Asked(SendStatus(SUCCESSFUL), Fine)];
    assert [] + l0 == l0;
    var s := State("ticket", "uri", "uri", l0);
    assert Retry(c, START, GetStorageTicket, 1) == (s, None);
    assert Retry(c, s, Transfer, 0) == (s, None);
    assert Retry(c, s, SendChecksums, 1) == (s.(log := l1), None);
    assert Retry(c, s.(log := l1), GetSIP, 1) == (s.(log := l2), None);
    assert Retry(c, s.(log := l2), SendSIP, 1) == (s.(log := l3), None);
    assert Retry(c, s.(log := l3), SendStatus(SUCCESSFUL), 1) == (s.(log := l4), None);
    hide Retry, RunStages;
    LastDecides(c, STAGES, [START, s, s, s.(log := l1), s.(log := l2), s.(log := l3)]);
  }

  /** The states between the stages, from the one before the first to the one after the last but one. */
  predicate AllDone(c: Config, stages: seq<Stage>, states: seq<State>) {
    && |states| == |stages| > 0
    && forall i :: 0 <= i < |stages| - 1 ==>
         Retry(c, states[i], stages[i], Times(c, stages[i])) == (states[i + 1], None)
  }

  /** If all stages but the last succeed, the last one decides. */
  lemma {:induction false} LastDecides(c: Config, stages: seq<Stage>, states: seq<State>)
    requires AllDone(c, stages, states)
    ensures var last := stages[|stages| - 1];
      RunStages(c, states[0], stages) == Retry(c, states[|states| - 1], last, Times(c, last))
  {
    hide Retry;
    if |stages| > 1 {
      assert Retry(c, states[0], stages[0], Times(c, stages[0])) == (states[1], None);
      LastDecides(c, stages[1..], states[1..]);
    } else {
      assert stages[1..] == [];
    }
  }

  lemma {:induction false} SucceededAt(log: seq<Event>, k: nat)
    requires k < |log| && log[k].Asked? && log[k].stage != SendStatus(FAILED) && Accepts(log[k].stage, log[k].answer)
    ensures log[k].stage in Succeeded(log)
  {
    if k < |log| - 1 { SucceededAt(log[..|log| - 1], k); }
  }

  // ---------------------------------------------------------------- a report taken back

  /** Something is rolled back after success was reported. */
  predicate TakenBack(log: seq<Event>) { exists i, k :: 0 <= i < k < |log| && IsReport(log[i]) && log[k].RolledBack? }

  /** A run rolls back after it has reported success exactly if it has reported success, no such report was
      accepted, and it holds a URI. */
  lemma TakenBackIff(c: Config)
    ensures var log := Run(c).0.log;
      TakenBack(log) <==>
        Reported(log) && SendStatus(SUCCESSFUL) !in Succeeded(log) && HoldsUri(RunStages(c, START, STAGES).0)
  {
    var (p, e) := RunStages(c, START, STAGES);
    var log := Run(c).0.log;
    RunReports(c);
    SuccessMeansAllStages(c);
    hide Retry, RunStages, Run, Handle, Succeeded, RollBacks;
    if e.Some? {
      FailureRollsBackIff(c);
      if TakenBack(log) { RollBackCounts(log); }
      if Reported(p.log) && HoldsUri(p) {
        var i :| 0 <= i < |p.log| && IsReport(p.log[i]);
        assert log[i] == p.log[i] && log[|p.log|].RolledBack?;
      }
    } else {
      NothingTakenBack(c);
    }
  }

  lemma {:induction false} RollBackCounts(log: seq<Event>)
    ensures RollBacks(log) > 0 <==> exists k :: 0 <= k < |log| && log[k].RolledBack?
  {
    if log != [] {
      var n := |log| - 1;
      RollBackCounts(log[..n]);
      if k :| 0 <= k < n && log[k].RolledBack? { assert log[..n][k].RolledBack?; }
    }
  }

  /** A run in which no stage fails takes nothing back, and if it reports success that is accepted. */
  lemma NothingTakenBack(c: Config)
    requires RunStages(c, START, STAGES).1.None?
    ensures !TakenBack(Run(c).0.log)
    ensures Reported(Run(c).0.log) ==> SendStatus(SUCCESSFUL) in Succeeded(Run(c).0.log)
  {
    RunReports(c);
    hide Retry, RunStages, Succeeded, RollBacks;
    var n := StagesTell(c, START, STAGES);
    NothingYet();
    assert STAGES[..n] == STAGES && STAGES[5] == SendStatus(SUCCESSFUL);
    WantedIn(c, STAGES, SendStatus(SUCCESSFUL));
    RollBackCounts(Run(c).0.log);
  }

  /** Such a run: all goes well, the report of success gets no answer, and the file is rolled back. */
  lemma ReportMayBeTakenBack() returns (c: Config)
    ensures var log := Run(c).0.log;
      && |log| > 6 && Succeeded(log[..5]) == STAGES[..5]
      && log[5] == Asked(SendStatus(SUCCESSFUL), Fault) && log[6] == RolledBack
  {
    c := Config(log => Silent(|log|), false, 1, 1, 1);
    var l0 := [Asked(GetStorageTicket, GRANTED)];
    var l1 := l0 + [Asked(Transfer, Fine)];
    var l2 := l1 + [Asked(SendChecksums, Uris(Some("uri"), Some("uri")))];
    var l3 := l2 + [Asked(GetSIP, Fine)];
    var l4 := l3 + [Asked(SendSIP, Fine)];
    var l5 := l4 + [Asked(SendStatus(SUCCESSFUL), Fault)];
    assert [] + l0 == l0;
    var s := State("ticket", "uri", "uri", l0);
    assert Retry(c, START, GetStorageTicket, 1) == (s, None);
    assert Retry(c, s, Transfer, 1) == (s.(log := l1), None);
    assert Retry(c, s.(log := l1), SendChecksums, 1) == (s.(log := l2), None);
    assert Retry(c, s.(log := l2), GetSIP, 1) == (s.(log := l3), None);
    assert Retry(c, s.(log := l3), SendSIP, 1) == (s.(log := l4), None);
    assert Retry(c, s.(log := l4), SendStatus(SUCCESSFUL), 1) == (s.(log := l5), Some(JobFailed));
    hide Retry, RunStages, Run, Succeeded;
    LastDecides(c, STAGES, [START, s, s.(log := l1), s.(log := l2), s.(log := l3), s.(log := l4)]);
    FailureRollsBackIff(c);
    assert l5[5] == Asked(SendStatus(SUCCESSFUL), Fault) && Run(c).0.log[5] == l5[5];
    SuccessWithRetries(c, 5);
  }

  /** All answers are good up to the report of success. */
  function Silent(n: nat): Answer {
    if n == 0 then GRANTED else if n == 2 then Uris(Some("uri"), Some("uri")) else if n < 5 then Fine else Fault
  }

  // ---------------------------------------------------------------- what the caller sees

  /** The caller sees no error exactly if every stage that is tried at all has succeeded, or the source does
      not exist, or the file is in the archive already. The first means that success was reported and
      accepted, exactly if calls to the archive are tried at all. */
  lemma NoErrorIff(c: Config)
    ensures var failed := RunStages(c, START, STAGES).1;
      var done := Succeeded(Run(c).0.log);
      && (Run(c).1 == None <==>
            done == Wanted(c, STAGES) || failed == Some(NoSource) || failed == Some(AlreadyInLTA))
      && (done == Wanted(c, STAGES) ==> (SendStatus(SUCCESSFUL) in done <==> c.ltaRetry > 0))
      && (SendStatus(SUCCESSFUL) in done ==> done == Wanted(c, STAGES))
  {
    SuccessMeansAllStages(c);
    hide Retry, RunStages, Succeeded;
    var (p, e) := RunStages(c, START, STAGES);
    var n := StagesTell(c, START, STAGES);
    NothingYet();
    WantedIn(c, STAGES, SendStatus(SUCCESSFUL));
    assert STAGES[5] == SendStatus(SUCCESSFUL);
    if e.None? {
      assert STAGES[..n] == STAGES;
    } else {
      HandleTells(c, p, e.value);
      WantedSplit(c, STAGES, n);
      assert Wanted(c, STAGES[n..]) != [];
    }
  }

  /** What the executer makes of the error it sees. */
  function Outcome(raised: Option<ErrorType>): IngestJobs.Outcome {
    match raised
    case None => IngestJobs.Succeeded
    case Some(NoSource) => IngestJobs.NoSource
    case Some(AlreadyInLTA) => IngestJobs.AlreadyInLTA
    case Some(NoProject) => IngestJobs.NoProject
    case Some(JobFailed) => IngestJobs.Failed
  }

  /** A job ends as produced exactly in those cases; in all others its run counts as failed. */
  lemma ProducedIff(c: Config, pipelineRetry: int, job: IngestJobs.Job)
    ensures var failed := RunStages(c, START, STAGES).1;
      var done := IngestJobs.Decide(pipelineRetry, job, Outcome(Run(c).1));
      && (done.status == IngestJobs.PRODUCED <==>
            Succeeded(Run(c).0.log) == Wanted(c, STAGES) || failed == Some(NoSource) || failed == Some(AlreadyInLTA))
      && done.retry == job.retry + if done.status == IngestJobs.PRODUCED then 0 else 1
  {
    hide RunStages, Succeeded;
    NoErrorIff(c);
    NeverRaised(c);
  }

  /** The executer's branches for a missing source and an archived file are never taken. */
  lemma NeverRaised(c: Config)
    ensures Run(c).1 != Some(NoSource) && Run(c).1 != Some(AlreadyInLTA)
  {
    hide RunStages, Retry;
  }

  /** A run that fails rolls back exactly if it holds a URI and the source was not missing, and it does
      so once and before it reports the failure; it reports the failure exactly if it holds a ticket. */
  lemma FailureRollsBackIff(c: Config)
    requires RunStages(c, START, STAGES).1.Some?
    ensures var (p, e) := RunStages(c, START, STAGES);
      var log := Run(c).0.log;
      var rolls := HoldsUri(p) && e.value != NoSource;
      var from := |p.log| + if rolls then 1 else 0;
      && RollBacks(log) == (if rolls then 1 else 0)
      && p.log <= log && from <= |log| && (rolls ==> log[|p.log|] == RolledBack)
      && (forall k :: from <= k < |log| ==> log[k].Asked? && log[k].stage == SendStatus(FAILED))
      && (from < |log| <==> p.ticket != "" && c.ltaRetry > 0)
  {
    hide Retry, Handle, RunStages, Succeeded, RollBacks;
    var n := StagesTell(c, START, STAGES);
    var (p, e) := RunStages(c, START, STAGES);
    NothingYet();
    HandleTells(c, p, e.value);
  }

  /** A run that finds the file already archived rolls back exactly if an earlier answer about the ticket
      had given a temporary URI and then lacked a key, so that the ticket was asked for again. */
  lemma AlreadyArchivedRollsBackIff(c: Config)
    requires RunStages(c, START, STAGES).1 == Some(AlreadyInLTA)
    ensures RollBacks(Run(c).0.log) > 0 <==> GivenPrimary(RunStages(c, START, STAGES).0.log) != ""
  {
    hide Retry, Handle, RunStages, Succeeded, RollBacks, GivenPrimary;
    var n := StagesTell(c, START, STAGES);
    NothingYet();
    assert STAGES[n].GetStorageTicket?;
    FailureRollsBackIff(c);
  }

  /** Such a run exists. */
  lemma AlreadyArchivedMayRollBack() returns (c: Config)
    ensures RunStages(c, START, STAGES).1 == Some(AlreadyInLTA) && RollBacks(Run(c).0.log) > 0
  {
    var partial := Granted(Some("ticket"), Some("uri"), None, None);
    c := Config(log => if log == [] then partial else Exists("ticket", SUCCESSFUL), false, 2, 1, 1);
    var asked1 := [Asked(GetStorageTicket, partial)];
    var p1 := State("ticket", "uri", "", asked1);
    var asked2 := asked1 + [Asked(GetStorageTicket, Exists("ticket", SUCCESSFUL))];
    assert [] + asked1 == asked1;
    assert Call(c, START, GetStorageTicket) == (p1, Raised);
    assert Call(c, p1, GetStorageTicket) == (p1.(log := asked2), RaisedPipeline(AlreadyInLTA));
    assert Retry(c, p1, GetStorageTicket, 1) == (p1.(log := asked2), Some(AlreadyInLTA));
    assert Retry(c, START, GetStorageTicket, 2) == (p1.(log := asked2), Some(AlreadyInLTA));
    assert RunStages(c, START, STAGES) == (p1.(log := asked2), Some(AlreadyInLTA));
    FailureRollsBackIff(c);
  }
}
