/** What the answers from outside decide in a run of the ingest pipeline: how often a stage is tried, what ends
    the run and with which error, and what the pipeline holds then. */
module IngestAnswers {
  import opened Options
  import opened IngestPipelines
  import opened IngestReports

  /** The answers to a stage, in order. */
  function Answers(log: seq<Event>, stage: Stage): seq<Answer> {
    if log == [] then []
    else
      var e := log[|log| - 1];
      Answers(log[..|log| - 1], stage) + if e.Asked? && e.stage == stage then [e.answer] else []
  }

  lemma AnswersAppend(log: seq<Event>, e: Event, stage: Stage)
    ensures Answers(log + [e], stage) == Answers(log, stage) + if e.Asked? && e.stage == stage then [e.answer] else []
  {
    assert (log + [e])[..|log|] == log;
  }

  lemma {:induction false} OthersAsked(p: State, q: State, asked: Stage, stage: Stage)
    requires p.log <= q.log && OnlyAsks(p, q, asked) && stage != asked
    ensures Answers(q.log, stage) == Answers(p.log, stage)
    decreases |q.log|
  {
    if p.log == q.log {
    } else {
      var n := |q.log| - 1;
      OthersAsked(p, q.(log := q.log[..n]), asked, stage);
      assert q.log == q.log[..n] + [q.log[n]];
      AnswersAppend(q.log[..n], q.log[n], stage);
    }
  }

  // ---------------------------------------------------------------- which answers end a run

  /** The error with which an answer ends the run at once, if it does. */
  function Final(c: Config, e: Event): Option<ErrorType> {
    match e
    case Asked(Transfer, NotFound) => if c.eor then None else Some(NoSource)
    case Asked(GetStorageTicket, Exists(_, state)) => if state >= 40 then Some(AlreadyInLTA) else None
    case Asked(GetStorageTicket, UnknownProject) => Some(NoProject)
    case Asked(stage, Rejected) =>
      if stage == GetSIP || stage == SendSIP || stage == SendStatus(40) then Some(JobFailed) else None
    case _ => None
  }

  /** What the last answer says. */
  function FinalOf(c: Config, log: seq<Event>): Option<ErrorType> {
    if log == [] then None else Final(c, log[|log| - 1])
  }

  function AtMost(times: int): nat { if times > 0 then times else 0 }

  lemma CallAnswers(c: Config, p: State, stage: Stage)
    requires stage.SendStatus? ==> stage.state == SUCCESSFUL
    ensures var (q, r) := Call(c, p, stage);
      && |Answers(q.log, stage)| == |Answers(p.log, stage)| + 1
      && (forall other: Stage :: other != stage && other != SendStatus(FAILED) ==>
            Answers(q.log, other) == Answers(p.log, other))
      && FinalOf(c, q.log) == if r.RaisedPipeline? then Some(r.error) else None
  {
    hide Answers;
    var a := c.world(p.log);
    var asked := p.(log := p.log + [Asked(stage, a)]);
    forall other: Stage ensures
      Answers(asked.log, other) == Answers(p.log, other) + if other == stage then [a] else []
    {
      AnswersAppend(p.log, Asked(stage, a), other);
    }
    if stage == GetStorageTicket && a.Exists? && a.state < SUCCESSFUL {
      var reset := asked.(ticket := a.existing);
      RetryTells(c, reset, SendStatus(FAILED), c.ltaRetry);
      var q := Retry(c, reset, SendStatus(FAILED), c.ltaRetry).0;
      assert FinalOf(c, q.log) == None by {
        if |reset.log| < |q.log| { assert q.log[|q.log| - 1].stage == SendStatus(FAILED); }
      }
      forall other: Stage | other != SendStatus(FAILED) ensures Answers(q.log, other) == Answers(asked.log, other) {
        OthersAsked(reset, q, SendStatus(FAILED), other);
      }
    }
  }

  lemma {:induction false} RetryAnswers(c: Config, p: State, stage: Stage, times: int)
    requires (stage.SendStatus? ==> stage.state == SUCCESSFUL) && FinalOf(c, p.log) == None
    ensures var (q, e) := Retry(c, p, stage, times);
      && |Answers(q.log, stage)| <= |Answers(p.log, stage)| + AtMost(times)
      && (forall other: Stage :: other != stage && other != SendStatus(FAILED) ==>
            Answers(q.log, other) == Answers(p.log, other))
      && (FinalOf(c, q.log).Some? ==> e == FinalOf(c, q.log))
      && (FinalOf(c, q.log).None? && e.Some? ==>
            e == Some(JobFailed) && |Answers(q.log, stage)| == |Answers(p.log, stage)| + times)
    decreases times
  {
    hide Answers, FinalOf;
    if times > 0 {
      var (q, r) := Call(c, p, stage);
      CallAnswers(c, p, stage);
      hide Call;
      if r.Raised? && times > 1 { RetryAnswers(c, q, stage, times - 1); }
    }
  }

  // ---------------------------------------------------------------- a whole run

  /** All tries of a stage have been used up without success. */
  predicate UsedUp(log: seq<Event>, stage: Stage, times: int) {
    times > 0 && |Answers(log, stage)| == times && stage !in Succeeded(log)
  }

  /** The stages from i on, none of which has been asked yet. */
  lemma {:induction false} StagesAnswers(c: Config, p: State, i: nat)
    requires i <= |STAGES| && Succeeded(p.log) == Wanted(c, STAGES[..i]) && FinalOf(c, p.log) == None
    requires forall j :: i <= j < |STAGES| ==> Answers(p.log, STAGES[j]) == []
    requires forall j :: 0 <= j < i ==> |Answers(p.log, STAGES[j])| <= AtMost(Times(c, STAGES[j]))
    ensures var (q, e) := RunStages(c, p, STAGES[i..]);
      && (forall j :: 0 <= j < |STAGES| ==> |Answers(q.log, STAGES[j])| <= AtMost(Times(c, STAGES[j])))
      && (FinalOf(c, q.log).Some? ==> e == FinalOf(c, q.log))
      && (FinalOf(c, q.log).None? && e.Some? ==>
            e == Some(JobFailed) && exists j :: 0 <= j < |STAGES| && UsedUp(q.log, STAGES[j], Times(c, STAGES[j])))
    decreases |STAGES| - i
  {
    hide Retry, Succeeded, RollBacks, GivenPrimary, Answers, FinalOf, Wanted;
    if i < |STAGES| {
      var stage := STAGES[i];
      var (q, e) := Retry(c, p, stage, Times(c, stage));
      assert STAGES[i..][1..] == STAGES[i + 1..];
      Distinct(i);
      RetryAnswers(c, p, stage, Times(c, stage));
      RetryTells(c, p, stage, Times(c, stage));
      WantedMore(c, i);
      if e.None? {
        StagesAnswers(c, q, i + 1);
      } else {
        WantedIn(c, STAGES[..i], stage);
        assert FinalOf(c, q.log).None? ==> UsedUp(q.log, STAGES[i], Times(c, STAGES[i]));
      }
    }
  }

  lemma Distinct(i: nat)
    requires i < |STAGES|
    ensures forall j :: 0 <= j < |STAGES| && j != i ==> STAGES[j] != STAGES[i] && STAGES[j] != SendStatus(FAILED)
    ensures STAGES[i].SendStatus? ==> STAGES[i].state == SUCCESSFUL
  {
  }

  /** All tries of some stage have been used up. */
  predicate SomeUsedUp(c: Config, log: seq<Event>) {
    || UsedUp(log, GetStorageTicket, c.ltaRetry) || UsedUp(log, Transfer, c.srmRetry)
    || UsedUp(log, SendChecksums, c.ltaRetry) || UsedUp(log, GetSIP, c.momRetry)
    || UsedUp(log, SendSIP, c.ltaRetry) || UsedUp(log, SendStatus(40), c.ltaRetry)
  }

  lemma WhichUsedUp(c: Config, log: seq<Event>)
    ensures (exists j :: 0 <= j < |STAGES| && UsedUp(log, STAGES[j], Times(c, STAGES[j]))) <==> SomeUsedUp(c, log)
  {
    hide UsedUp;
    assert STAGES[0] == GetStorageTicket && STAGES[1] == Transfer && STAGES[2] == SendChecksums;
    assert STAGES[3] == GetSIP && STAGES[4] == SendSIP && STAGES[5] == SendStatus(40);
  }

  /** The stages as they are left: the answers, and what they mean for the run. */
  lemma RunAnswers(c: Config)
    ensures var (p, e) := RunStages(c, START, STAGES);
      && (forall j :: 0 <= j < |STAGES| ==> |Answers(p.log, STAGES[j])| <= AtMost(Times(c, STAGES[j])))
      && e == if FinalOf(c, p.log).Some? then FinalOf(c, p.log)
              else if SomeUsedUp(c, p.log) then Some(JobFailed) else None
  {
    assert FinalOf(c, START.log) == None;
    hide Retry, RunStages, Succeeded, RollBacks, GivenPrimary, FinalOf, SomeUsedUp;
    NothingYet();
    assert STAGES[0..] == STAGES && STAGES[..0] == [];
    StagesAnswers(c, START, 0);
    var (p, e) := RunStages(c, START, STAGES);
    WhichUsedUp(c, p.log);
    if e.None? {
      var n := StagesTell(c, START, STAGES);
      assert STAGES[..n] == STAGES;
      forall j | 0 <= j < |STAGES| ensures !UsedUp(p.log, STAGES[j], Times(c, STAGES[j])) {
        WantedIn(c, STAGES, STAGES[j]);
      }
    }
  }

  /** No stage is asked more often than it may be tried. */
  lemma TriesBounded(c: Config)
    ensures var log := RunStages(c, START, STAGES).0.log;
      && |Answers(log, GetStorageTicket)| <= AtMost(c.ltaRetry) && |Answers(log, Transfer)| <= AtMost(c.srmRetry)
      && |Answers(log, SendChecksums)| <= AtMost(c.ltaRetry) && |Answers(log, GetSIP)| <= AtMost(c.momRetry)
      && |Answers(log, SendSIP)| <= AtMost(c.ltaRetry) && |Answers(log, SendStatus(40))| <= AtMost(c.ltaRetry)
  {
    RunAnswers(c);
    hide RunStages, Answers;
    assert STAGES[0] == GetStorageTicket && STAGES[1] == Transfer && STAGES[2] == SendChecksums;
    assert STAGES[3] == GetSIP && STAGES[4] == SendSIP && STAGES[5] == SendStatus(40);
  }

  predicate EndsWith(log: seq<Event>, stage: Stage, answer: Answer) {
    log != [] && log[|log| - 1] == Asked(stage, answer)
  }

  /** Why the stages fail, read off the last answer: a missing source, unless it is one of EoR; a file that is in
      the archive already, its ticket being at 40 or beyond; an unknown project; a rejected SIP or report. In all
      other cases they fail exactly if all tries of some stage have been used up without success. */
  lemma FailsIff(c: Config)
    ensures var (p, e) := RunStages(c, START, STAGES);
      var rejected := EndsWith(p.log, GetSIP, Rejected) || EndsWith(p.log, SendSIP, Rejected) ||
                      EndsWith(p.log, SendStatus(40), Rejected);
      && (e == Some(NoSource) <==> EndsWith(p.log, Transfer, NotFound) && !c.eor)
      && (e == Some(AlreadyInLTA) <==>
            exists id: string, state: int :: state >= 40 && EndsWith(p.log, GetStorageTicket, Exists(id, state)))
      && (e == Some(NoProject) <==> EndsWith(p.log, GetStorageTicket, UnknownProject))
      && (e == Some(JobFailed) <==>
            rejected ||
            (SomeUsedUp(c, p.log) && e != Some(NoSource) && e != Some(AlreadyInLTA) && e != Some(NoProject)))
  {
    RunAnswers(c);
    hide RunStages, SomeUsedUp;
    var log := RunStages(c, START, STAGES).0.log;
    if log != [] && log[|log| - 1].Asked? && log[|log| - 1].answer.Exists? {
      var a := log[|log| - 1].answer;
      assert EndsWith(log, log[|log| - 1].stage, Exists(a.existing, a.state));
    }
  }

  // ---------------------------------------------------------------- what has succeeded

  /** A stage has succeeded exactly if it was given an answer that lacks nothing. */
  lemma SucceededIff(log: seq<Event>)
    ensures GetStorageTicket in Succeeded(log) <==>
      exists a: Answer ::
        && Asked(GetStorageTicket, a) in log && a.Granted?
        && a.ticket.Some? && a.primary.Some? && a.secondary.Some? && a.primaryRnd.Some?
    ensures SendChecksums in Succeeded(log) <==>
      exists a: Answer :: Asked(SendChecksums, a) in log && a.Uris? && a.uri.Some? && a.uri2.Some?
    ensures Transfer in Succeeded(log) <==> Asked(Transfer, Fine) in log
    ensures GetSIP in Succeeded(log) <==> Asked(GetSIP, Fine) in log
    ensures SendSIP in Succeeded(log) <==> Asked(SendSIP, Fine) in log
    ensures SendStatus(40) in Succeeded(log) <==> Asked(SendStatus(40), Fine) in log
  {
    hide Succeeded;
    TicketBy(log);
    ChecksumsBy(log);
    forall stage | stage in [Transfer, GetSIP, SendSIP, SendStatus(40)]
      ensures stage in Succeeded(log) <==> Asked(stage, Fine) in log
    {
      SucceededBy(log, stage);
      assert Makes(Asked(stage, Fine), stage);
    }
    assert [Transfer, GetSIP, SendSIP, SendStatus(40)][0] == Transfer;
    assert [Transfer, GetSIP, SendSIP, SendStatus(40)][1] == GetSIP;
    assert [Transfer, GetSIP, SendSIP, SendStatus(40)][2] == SendSIP;
    assert [Transfer, GetSIP, SendSIP, SendStatus(40)][3] == SendStatus(40);
  }

  lemma TicketBy(log: seq<Event>)
    ensures GetStorageTicket in Succeeded(log) <==>
      exists a: Answer ::
        && Asked(GetStorageTicket, a) in log && a.Granted?
        && a.ticket.Some? && a.primary.Some? && a.secondary.Some? && a.primaryRnd.Some?
  {
    SucceededBy(log, GetStorageTicket);
    if e :| e in log && Makes(e, GetStorageTicket) {
      assert e == Asked(GetStorageTicket, e.answer);
    }
    if a: Answer :| Asked(GetStorageTicket, a) in log && Accepts(GetStorageTicket, a) {
      assert Makes(Asked(GetStorageTicket, a), GetStorageTicket);
    }
  }

  lemma ChecksumsBy(log: seq<Event>)
    ensures SendChecksums in Succeeded(log) <==>
      exists a: Answer :: Asked(SendChecksums, a) in log && a.Uris? && a.uri.Some? && a.uri2.Some?
  {
    SucceededBy(log, SendChecksums);
    if e :| e in log && Makes(e, SendChecksums) {
      assert e == Asked(SendChecksums, e.answer);
    }
    if a: Answer :| Asked(SendChecksums, a) in log && Accepts(SendChecksums, a) {
      assert Makes(Asked(SendChecksums, a), SendChecksums);
    }
  }

  predicate Makes(e: Event, stage: Stage) {
    e.Asked? && e.stage == stage && stage != SendStatus(FAILED) && Accepts(stage, e.answer)
  }

  lemma {:induction false} SucceededBy(log: seq<Event>, stage: Stage)
    ensures stage in Succeeded(log) <==> exists e :: e in log && Makes(e, stage)
  {
    if log != [] {
      var n := |log| - 1;
      SucceededBy(log[..n], stage);
      assert log == log[..n] + [log[n]];
      assert Makes(log[n], stage) ==> log[n] in log;
    }
  }

  // ---------------------------------------------------------------- what the pipeline holds

  /** The ticket that the answers leave behind: of a new one, or of one to be reset. */
  function GivenTicket(log: seq<Event>): string {
    if log == [] then ""
    else
      match log[|log| - 1]
      case Asked(GetStorageTicket, Granted(Some(ticket), _, _, _)) => ticket
      case Asked(GetStorageTicket, Exists(existing, state)) =>
        if state < 40 then existing else GivenTicket(log[..|log| - 1])
      case _ => GivenTicket(log[..|log| - 1])
  }

  /** The URI of the file in the archive: of a complete ticket, or of the answer to the checksums. */
  function GivenUri(log: seq<Event>): string {
    if log == [] then ""
    else
      match log[|log| - 1]
      case Asked(GetStorageTicket, Granted(Some(_), Some(_), Some(_), Some(uri))) => uri
      case Asked(SendChecksums, Uris(Some(uri), _)) => uri
      case _ => GivenUri(log[..|log| - 1])
  }

  predicate Holds(p: State) {
    p.ticket == GivenTicket(p.log) && p.tempPrimary == GivenPrimary(p.log) && p.primaryUri == GivenUri(p.log)
  }

  lemma {:induction false} ReportsGiveNothing(p: State, q: State, state: int)
    requires p.log <= q.log && OnlyAsks(p, q, SendStatus(state))
    ensures GivenTicket(q.log) == GivenTicket(p.log) && GivenPrimary(q.log) == GivenPrimary(p.log)
    ensures GivenUri(q.log) == GivenUri(p.log)
    decreases |q.log|
  {
    if p.log != q.log {
      ReportsGiveNothing(p, q.(log := q.log[..|q.log| - 1]), state);
    }
  }

  lemma GivenAppend(log: seq<Event>, stage: Stage, a: Answer)
    ensures GivenTicket(log + [Asked(stage, a)]) ==
      if stage == GetStorageTicket && a.Granted? && a.ticket.Some? then a.ticket.value
      else if stage == GetStorageTicket && a.Exists? && a.state < 40 then a.existing else GivenTicket(log)
    ensures GivenPrimary(log + [Asked(stage, a)]) ==
      if stage == GetStorageTicket && a.Granted? && a.ticket.Some? && a.primary.Some? then a.primary.value
      else GivenPrimary(log)
    ensures GivenUri(log + [Asked(stage, a)]) ==
      if stage == GetStorageTicket && a.Granted? && Accepts(stage, a) then a.primaryRnd.value
      else if stage == SendChecksums && a.Uris? && a.uri.Some? then a.uri.value else GivenUri(log)
  {
    assert (log + [Asked(stage, a)])[..|log|] == log;
  }

  lemma CallHolds(c: Config, p: State, stage: Stage)
    requires Holds(p)
    ensures Holds(Call(c, p, stage).0)
  {
    hide GivenTicket, GivenPrimary, GivenUri;
    var a := c.world(p.log);
    GivenAppend(p.log, stage, a);
    if stage == GetStorageTicket && a.Exists? && a.state < SUCCESSFUL {
      var reset := p.(log := p.log + [Asked(stage, a)], ticket := a.existing);
      RetryTells(c, reset, SendStatus(FAILED), c.ltaRetry);
      hide Retry;
      ReportsGiveNothing(reset, Retry(c, reset, SendStatus(FAILED), c.ltaRetry).0, FAILED);
    }
  }

  lemma {:induction false} RetryHolds(c: Config, p: State, stage: Stage, times: int)
    requires Holds(p)
    ensures Holds(Retry(c, p, stage, times).0)
    decreases times
  {
    hide Holds, Call;
    if times > 0 {
      CallHolds(c, p, stage);
      var (q, r) := Call(c, p, stage);
      if r.Raised? && times > 1 { RetryHolds(c, q, stage, times - 1); }
    }
  }

  lemma {:induction false} StagesHold(c: Config, p: State, stages: seq<Stage>)
    requires Holds(p)
    ensures Holds(RunStages(c, p, stages).0)
    decreases |stages|
  {
    hide Holds, Retry;
    if stages != [] {
      RetryHolds(c, p, stages[0], Times(c, stages[0]));
      var (q, e) := Retry(c, p, stages[0], Times(c, stages[0]));
      if e.None? { StagesHold(c, q, stages[1..]); }
    }
  }

  /** A run that fails rolls back exactly if the answers have left it a URI, temporary or not, and the source was
      not missing; it reports the failure exactly if they have left it a ticket, again and again until the report is
      accepted or rejected or all tries are used up. */
  lemma FailureHandledIff(c: Config)
    requires RunStages(c, START, STAGES).1.Some?
    ensures var (p, e) := RunStages(c, START, STAGES);
      var log := Run(c).0.log;
      var rolls := (GivenUri(p.log) != "" || GivenPrimary(p.log) != "") && e != Some(NoSource);
      var from := |p.log| + if rolls then 1 else 0;
      && p.log <= log && from <= |log| && (rolls ==> log[|p.log|] == RolledBack)
      && RollBacks(log) == (if rolls then 1 else 0)
      && (from < |log| <==> GivenTicket(p.log) != "" && c.ltaRetry > 0) && |log| <= from + AtMost(c.ltaRetry)
      && (forall k :: from <= k < |log| ==> log[k].Asked? && log[k].stage == SendStatus(-10))
      && forall k :: from <= k < |log| ==>
           (log[k].answer == Fine || log[k].answer == Rejected ==> k == |log| - 1) &&
           (k == |log| - 1 ==> log[k].answer == Fine || log[k].answer == Rejected || k - from == c.ltaRetry - 1)
  {
    var (p, e) := RunStages(c, START, STAGES);
    assert Holds(START);
    StagesHold(c, START, STAGES);
    FailureRollsBackIff(c);
    hide RunStages, Succeeded, RollBacks, GivenPrimary, GivenTicket, GivenUri;
    var rolls := HoldsUri(p) && e != Some(NoSource);
    var q := if rolls then p.(log := p.log + [RolledBack]) else p;
    if p.ticket != "" {
      FailureReports(c, q, c.ltaRetry);
    }
    hide Retry;
    assert Run(c).0 == if q.ticket != "" then Retry(c, q, SendStatus(FAILED), c.ltaRetry).0 else q;
  }

  lemma {:induction false} FailureReports(c: Config, p: State, times: int)
    ensures var log := Retry(c, p, SendStatus(-10), times).0.log;
      && p.log <= log && |log| <= |p.log| + AtMost(times) && (times > 0 ==> |log| > |p.log|)
      && (forall k :: |p.log| <= k < |log| ==> log[k].Asked? && log[k].stage == SendStatus(-10))
      && forall k :: |p.log| <= k < |log| ==>
           (log[k].answer == Fine || log[k].answer == Rejected ==> k == |log| - 1) &&
           (k == |log| - 1 ==> log[k].answer == Fine || log[k].answer == Rejected || k - |p.log| == times - 1)
    decreases times
  {
    if times > 0 {
      var (q, r) := Call(c, p, SendStatus(-10));
      if r.Raised? && times > 1 {
        FailureReports(c, q, times - 1);
        assert Retry(c, q, SendStatus(-10), times - 1).0.log[|p.log|] == q.log[|p.log|];
      }
    }
  }
}
