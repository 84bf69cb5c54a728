/** The processes of master.py and slave.py and the job groups. */
module IngestMaster {
  import opened Options
  import opened IngestJobs
  import opened IngestSafety

  class Queue<T> {
    var items: seq<T>

    constructor ()
      ensures items == []
    {
      items := [];
    }

    method Put(x: T)
      modifies this
      ensures items == old(items) + [x]
    {
      items := items + [x];
    }

    /** None when the queue is empty. */
    method Get() returns (x: Option<T>)
      modifies this
      ensures old(items) == [] ==> x == None && items == []
      ensures old(items) != [] ==> x == Some(old(items)[0]) && items == old(items)[1..]
    {
      if items == [] { return None; }
      x := Some(items[0]);
      items := items[1..];
    }
  }

  // ---------------------------------------------------------------- the job handler

  function ToLower(s: string): (r: string)
    ensures |r| == |s|
    ensures forall i :: 0 <= i < |s| ==>
      r[i] == if 'A' <= s[i] <= 'Z' then (s[i] as int - 'A' as int + 'a' as int) as char else s[i]
  {
    if s == "" then ""
    else
      var c := s[|s| - 1];
      ToLower(s[..|s| - 1]) + [if 'A' <= c <= 'Z' then (c as int - 'A' as int + 'a' as int) as char else c]
  }

  /** The directory of a job group. */
  function GroupDir(job: Job): string {
    if job.jobType == "MoM" then "A_" + job.group + "/"
    else if ToLower(job.jobType) == "eor" then "EoR_" + job.group + "/"
    else "B_" + job.group + "/"
  }

  /** Upper and lower case do not matter for EoR, but do for MoM. */
  predicate IsDirOf(job: Job, dir: string) {
    var t := job.jobType;
    if t == ['M', 'o', 'M'] then dir == "A_" + job.group
    else if |t| == 3 && t[0] in "eE" && t[1] in "oO" && t[2] in "rR" then dir == "EoR_" + job.group
    else dir == "B_" + job.group
  }

  lemma GroupDirIs(job: Job)
    ensures exists dir: string :: IsDirOf(job, dir) && GroupDir(job) == dir + "/"
  {
    var t := job.jobType;
    assert ToLower(t) == "eor" <==> |t| == 3 && t[0] in "eE" && t[1] in "oO" && t[2] in "rR" by {
      if |t| == 3 {
        assert ToLower(t) == [ToLower(t)[0], ToLower(t)[1], ToLower(t)[2]];
      }
    }
    var prefix := if t == "MoM" then "A_" else if ToLower(t) == "eor" then "EoR_" else "B_";
    assert IsDirOf(job, prefix + job.group);
  }

  /** What the job handler's part of the state is. */
  datatype Hand = Hand(scheduled: seq<Job>, done: seq<Job>, active: map<Id, Job>, sent: seq<Update>,
                       queues: seq<seq<Job>>)

  function HandOf(cfg: Config, s: Sys): Hand
    requires Shaped(cfg, s)
  {
    Hand(s.at[SCHEDULED_JOBS], s.at[JOB_DONE], s.active, s.sent, s.at[4..4 + |cfg.slaves|])
  }

  /** Handling a job that was reported done. */
  function HandDone(h: Hand): Hand {
    if h.done == [] then h
    else
      var job := Renamed(h.done[0]);
      h.(done := h.done[1..], active := h.active - {job.id},
         scheduled := if job.status == RETRY then h.scheduled + [job] else h.scheduled)
  }

  /** Taking a scheduled job and making it active. */
  function HandBegin(h: Hand): Hand
    requires h.scheduled != []
  {
    var job := h.scheduled[0];
    h.(scheduled := h.scheduled[1..], active := h.active[job.id := job.(status := PRODUCING)],
       sent := h.sent + [Update(job.id, Some(job.status), PRODUCING)])
  }

  /** Sending the job to a slave. */
  function HandStart(h: Hand, slave: nat): Hand
    requires h.scheduled != [] && slave < |h.queues|
  {
    HandBegin(h).(queues := h.queues[slave := h.queues[slave] + [h.scheduled[0].(status := PRODUCING)]])
  }

  /** The job handler's two parts are the steps of the state machine. */
  lemma DoneProjects(cfg: Config, s: Sys)
    requires Shaped(cfg, s) && Step(cfg, s, Done).Some?
    ensures HandOf(cfg, Step(cfg, s, Done).value) == HandDone(HandOf(cfg, s))
  {
  }

  lemma BeginProjects(cfg: Config, s: Sys)
    requires Shaped(cfg, s) && Step(cfg, s, Begin).Some?
    ensures HandOf(cfg, Step(cfg, s, Begin).value) == HandBegin(HandOf(cfg, s))
  {
  }

  lemma StartProjects(cfg: Config, s: Sys, slave: nat)
    requires Shaped(cfg, s) && Continue(cfg, s, [Begin, Send(slave)]).Some?
    ensures slave < |cfg.slaves| && s.at[SCHEDULED_JOBS] != []
    ensures HandOf(cfg, Continue(cfg, s, [Begin, Send(slave)]).value) == HandStart(HandOf(cfg, s), slave)
    ensures var destination := s.at[SCHEDULED_JOBS][0].destination;
      && Contains(cfg.slaves[slave], destination)
      && forall k :: 0 <= k < |cfg.slaves| && Contains(cfg.slaves[k], destination) ==>
           |HandOf(cfg, s).queues[slave]| <= |HandOf(cfg, s).queues[k]|
  {
    hide Contains;
    assert [Begin, Send(slave)][..1] == [Begin] && [Begin][..0] == [];
    assert Continue(cfg, s, [Begin]) == Step(cfg, s, Begin);
    var held := Step(cfg, s, Begin).value;
    var sent := Step(cfg, held, Send(slave)).value;
    BeginProjects(cfg, s);
    assert held.at[HELD] == [s.at[SCHEDULED_JOBS][0].(status := PRODUCING)];
    assert HandOf(cfg, sent).queues == HandStart(HandOf(cfg, s), slave).queues;
    forall k | 0 <= k < |cfg.slaves| && Contains(cfg.slaves[k], held.at[HELD][0].destination)
      ensures |HandOf(cfg, s).queues[slave]| <= |HandOf(cfg, s).queues[k]|
    {
      assert Matches(cfg, k, held.at[HELD][0].destination);
    }
  }

  /** The other steps, seen from the slave and from the queues of the master. */
  lemma TakeProjects(cfg: Config, s: Sys, slave: nat)
    requires Shaped(cfg, s) && Step(cfg, s, Take(slave)).Some?
    ensures slave < |cfg.slaves| && s.at[cfg.QueueOf(slave)] != [] && s.values[slave] < cfg.slaveJobs
    ensures var t, queue, running := Step(cfg, s, Take(slave)).value, cfg.QueueOf(slave), cfg.RunningAt(slave);
      && t.at[queue] == s.at[queue][1..] && t.at[running] == s.at[running] + [s.at[queue][0]]
      && t.values[slave] == s.values[slave] + 1 && t.sent == s.sent
  {
  }

  lemma FinishProjects(cfg: Config, s: Sys, slave: nat, k: nat, outcome: Outcome)
    requires Shaped(cfg, s) && Step(cfg, s, Finish(slave, k, outcome)).Some?
    ensures slave < |cfg.slaves| && k < |s.at[cfg.RunningAt(slave)]|
    ensures var t, job := Step(cfg, s, Finish(slave, k, outcome)).value, s.at[cfg.RunningAt(slave)][k];
      && t.values == s.values && t.active == s.active
      && exists out: Job :: IsRunOf(cfg.pipelineRetry, job, outcome, out) &&
           t.at[JOB_DONE] == s.at[JOB_DONE] + [out] &&
           t.sent == s.sent + [Update(job.id, Some(PRODUCING), out.status)]
  {
    assert IsRunOf(cfg.pipelineRetry, s.at[cfg.RunningAt(slave)][k], outcome,
                   Decide(cfg.pipelineRetry, s.at[cfg.RunningAt(slave)][k], outcome));
  }

  /** The job after a run: produced, with the retry count as it was, after a success, a missing source or an
      archived file; else with a retry more, to be tried again while that is below the limit. */
  predicate IsRunOf(pipelineRetry: int, job: Job, outcome: Outcome, out: Job) {
    if outcome == Succeeded || outcome == NoSource || outcome == AlreadyInLTA then
      out == job.(status := PRODUCED)
    else
      out == job.(status := out.status, retry := job.retry + 1) &&
      out.status == if out.retry < pipelineRetry then RETRY else ERROR
  }

  const MAXINT := 0x7fff_ffff_ffff_ffff

  /** The part of ltaMaster that hands out slave queues. */
  class LtaMaster {
    const slaves: seq<string>
    const queues: seq<Queue<Job>>

    ghost predicate Valid()
      reads queues
    {
      && |queues| == |slaves|
      && (forall i, j :: 0 <= i < j < |queues| ==> queues[i] != queues[j])
      && (forall i :: 0 <= i < |queues| ==> |queues[i].items| < MAXINT)
    }

    ghost function Items(): (r: seq<seq<Job>>)
      reads queues
      ensures |r| == |queues| && forall i :: 0 <= i < |r| ==> r[i] == queues[i].items
    {
      seq(|queues|, i requires 0 <= i < |queues| reads queues => queues[i].items)
    }

    /** A slave with a shortest queue among those with the destination in their name, the first of them. */
    method GetSlave(destination: string) returns (result: Option<nat>)
      requires Valid()
      ensures result.None? <==> forall k :: 0 <= k < |slaves| ==> !Contains(slaves[k], destination)
      ensures result.Some? ==>
        && result.value < |slaves| && Contains(slaves[result.value], destination)
        && (forall k :: 0 <= k < |slaves| && Contains(slaves[k], destination) ==>
              |queues[result.value].items| < |queues[k].items| ||
              (|queues[result.value].items| == |queues[k].items| && result.value <= k))
    {
      hide Contains;
      result := None;
      var length := MAXINT;
      for k := 0 to |slaves|
        invariant result.None? ==> length == MAXINT && forall j :: 0 <= j < k ==> !Contains(slaves[j], destination)
        invariant result.Some? ==>
          && result.value < k && Contains(slaves[result.value], destination) && length == |queues[result.value].items|
          && (forall j :: 0 <= j < k && Contains(slaves[j], destination) ==>
                length < |queues[j].items| || (length == |queues[j].items| && result.value <= j))
      {
        if Contains(slaves[k], destination) {
          var size := |queues[k].items|;
          if length > size {
            result := Some(k);
            length := size;
          }
        }
      }
    }

    /** Puts a job in the queue of a slave. */
    method PutJob(slave: nat, job: Job)
      requires Valid() && slave < |queues| && |queues[slave].items| + 1 < MAXINT
      modifies queues
      ensures Valid() && Items() == old(Items())[slave := old(Items())[slave] + [job]]
    {
      queues[slave].Put(job);
    }
  }

  /** A slave reports a job done: first the update for the queue handler, then the job for the job handler. */
  method SlaveDone(updateJobMsg: Queue<Update>, jobDoneMsg: Queue<Job>, job: Job)
    modifies updateJobMsg, jobDoneMsg
    ensures updateJobMsg.items == old(updateJobMsg.items) + [Update(job.id, Some(PRODUCING), job.status)]
    ensures jobDoneMsg.items == old(jobDoneMsg.items) + [job]
  {
    updateJobMsg.Put(Update(job.id, Some(PRODUCING), job.status));
    jobDoneMsg.Put(job);
  }

  class JobHandler {
    const scheduled: Queue<Job>
    const jobDoneMsg: Queue<Job>
    const updateJobMsg: Queue<Update>
    const manager: LtaMaster
    const jobsdir: string
    const faileddir: string
    const donedir: string
    const parallelJobs: nat
    const nrOfSlaves: nat
    var active: map<Id, Job>

    constructor (scheduled: Queue<Job>, jobDoneMsg: Queue<Job>, updateJobMsg: Queue<Update>, manager: LtaMaster,
                 jobsdir: string, faileddir: string, donedir: string, parallelJobs: nat, nrOfSlaves: nat)
      ensures this.scheduled == scheduled && this.jobDoneMsg == jobDoneMsg && this.updateJobMsg == updateJobMsg
      ensures this.manager == manager && this.parallelJobs == parallelJobs && this.nrOfSlaves == nrOfSlaves
      ensures active == map[]
    {
      this.scheduled, this.jobDoneMsg, this.updateJobMsg, this.manager := scheduled, jobDoneMsg, updateJobMsg, manager;
      this.jobsdir, this.faileddir, this.donedir := jobsdir, faileddir, donedir;
      this.parallelJobs, this.nrOfSlaves := parallelJobs, nrOfSlaves;
      active := map[];
    }

    ghost predicate Valid()
      reads manager.queues
    {
      && manager.Valid() && scheduled != jobDoneMsg && scheduled !in manager.queues && jobDoneMsg !in manager.queues
    }

    ghost function View(): Hand
      reads this, scheduled, jobDoneMsg, updateJobMsg, manager.queues
    {
      Hand(scheduled.items, jobDoneMsg.items, active, updateJobMsg.items, manager.Items())
    }

    /** The new name of the job's file, and the move that gives it. */
    method UpdateFile(job: Job) returns (renamed: Job, from: string, to: string)
      ensures renamed == Renamed(job)
      ensures from == jobsdir + job.filename
      ensures exists dir: string ::
                && IsDirOf(job, dir)
                && to == (if job.status == PRODUCED then donedir + dir + "/"
                          else if job.status == RETRY then jobsdir
                          else faileddir + dir + "/") + renamed.filename
    {
      var jobname := job.filename;
      var dir := GroupDir(job);
      GroupDirIs(job);
      renamed := job;
      from := jobsdir + jobname;
      if job.status == PRODUCED {
        to := donedir + dir + jobname;
      } else {
        var suffix := LastPart(jobname);
        LastPartLength(jobname);
        var newJobname;
        if IsDigits(suffix) {
          newJobname := jobname[..|jobname| - |suffix|] + Decimal(Value(suffix) + 1);
        } else {
          newJobname := jobname + ".1";
        }
        if job.status == RETRY {
          to := jobsdir + newJobname;
        } else {
          to := faileddir + dir + newJobname;
        }
        renamed := job.(filename := newJobname);
      }
    }

    /** Removes the job from the active list and puts it back in the queue if it is to be tried again. */
    method JobDone(job: Job) returns (renamed: Job)
      requires Valid() && job.id in active  // pop fails on a job that is not active
      modifies this, scheduled
      ensures Valid() && renamed == Renamed(job) && active == old(active) - {job.id}
      ensures scheduled.items == if job.status == RETRY then old(scheduled.items) + [renamed] else old(scheduled.items)
    {
      active := active - {job.id};
      var from, to;
      renamed, from, to := UpdateFile(job);
      if job.status == RETRY {
        scheduled.Put(renamed);
      }
    }

    /** One pass of the main loop: first a job that is done, then, if there is room, a job to start. The
        result is false where the source fails: there is no slave for the destination of the job, which is no
        longer in the queue and is active. */
    method Pass() returns (ok: bool)
      requires Valid()
      requires jobDoneMsg.items != [] ==> jobDoneMsg.items[0].id in active
      requires forall i :: 0 <= i < |manager.queues| ==> |manager.queues[i].items| + 1 < MAXINT
      modifies this, scheduled, jobDoneMsg, updateJobMsg, manager.queues
      ensures Valid()
      ensures var h := HandDone(old(View()));
        if |h.active| < parallelJobs * nrOfSlaves && h.scheduled != [] then
          if exists k :: 0 <= k < |manager.slaves| && Contains(manager.slaves[k], h.scheduled[0].destination)
          then ok && exists slave: nat :: slave < |h.queues| && Chosen(h, slave) && View() == HandStart(h, slave)
          else !ok && View() == HandBegin(h)
        else ok && View() == h
    {
      hide Contains, NextName;
      var done := jobDoneMsg.Get();
      if done.Some? {
        var renamed := JobDone(done.value);
      }
      ghost var h := HandDone(old(View()));
      assert manager.Items() == old(manager.Items());
      assert View() == h;
      if |active| < parallelJobs * nrOfSlaves {
        var next := scheduled.Get();
        if next.Some? {
          ok := StartJob(next.value, h);
          return;
        }
      }
      ok := true;
    }

    /** Tells the queue handler, and puts the job in the active list. */
    method MakeActive(job: Job) returns (started: Job)
      requires Valid()
      modifies this, updateJobMsg
      ensures Valid() && started == job.(status := PRODUCING)
      ensures View() == old(View()).(active := old(active)[job.id := started],
                                     sent := old(View()).sent + [Update(job.id, Some(job.status), PRODUCING)])
    {
      hide Contains;
      updateJobMsg.Put(Update(job.id, Some(job.status), PRODUCING));
      started := job.(status := PRODUCING);
      active := active[job.id := started];
      assert manager.Items() == old(manager.Items());
    }

    method StartJob(job: Job, ghost h: Hand) returns (ok: bool)
      requires Valid() && h.scheduled != [] && View() == h.(scheduled := h.scheduled[1..]) && job == h.scheduled[0]
      requires forall i :: 0 <= i < |manager.queues| ==> |manager.queues[i].items| + 1 < MAXINT
      modifies this, updateJobMsg, manager.queues
      ensures Valid()
      ensures if exists k :: 0 <= k < |manager.slaves| && Contains(manager.slaves[k], job.destination)
              then ok && exists slave: nat :: slave < |h.queues| && Chosen(h, slave) && View() == HandStart(h, slave)
              else !ok && View() == HandBegin(h)
    {
      hide Contains, LtaMaster.Items;
      var started := MakeActive(job);
      assert manager.Items() == h.queues;
      var slave := manager.GetSlave(job.destination);
      if slave.None? { return false; }
      assert Chosen(h, slave.value);
      manager.PutJob(slave.value, started);
      assert View() == HandStart(h, slave.value);
      ok := true;
    }

    /** The slave matches the job's destination, and no matching slave has a shorter queue. */
    ghost predicate Chosen(h: Hand, slave: nat)
      requires h.scheduled != [] && slave < |h.queues|
    {
      && |h.queues| == |manager.slaves| && Contains(manager.slaves[slave], h.scheduled[0].destination)
      && forall k :: 0 <= k < |h.queues| && Contains(manager.slaves[k], h.scheduled[0].destination) ==>
           |h.queues[slave]| <= |h.queues[k]|
    }
  }

  // ---------------------------------------------------------------- the slave

  /** The error kept with a job. */
  datatype Result = Result(message: string, source: string)

  /** What the executer makes of a pipeline run: the job, the error to report, and what it tells MoM. A
      failure is told only when the job is given up. */
  method ExecuterRun(job: Job, pipelineRetry: int, outcome: Outcome, message: string, source: string, talkerFull: bool)
    returns (out: Job, result: Option<Result>, told: seq<int>)
    ensures out == Decide(pipelineRetry, job.(status := PRODUCING), outcome)
    ensures IsRunOf(pipelineRetry, job, outcome, out)
    ensures result.Some? <==> outcome.NoProject? || outcome.Failed? || outcome.Unexpected?
    ensures told == (if talkerFull then [] else [PRODUCING]) + (if out.status == RETRY then [] else [out.status])
  {
    out, result, told := job.(status := PRODUCING), None, [];
    if !talkerFull {
      told := told + [out.status];
    }
    match outcome {
      case Succeeded => out := out.(status := PRODUCED);
      case NoSource => out := out.(status := PRODUCED);
      case AlreadyInLTA => out := out.(status := PRODUCED);
      case NoProject =>
        out := out.(status := ERROR);
        result := Some(Result("Project not in LTA", "ingest"));
      case Failed =>
        out := out.(status := ERROR);
        result := Some(Result(message, source));
      case Unexpected =>
        out := out.(status := ERROR);
        result := Some(Result(message, "ingestpipeline"));
    }
    if out.status == ERROR {
      out := out.(retry := out.retry + 1);
      if out.retry < pipelineRetry {
        out := out.(status := RETRY);
      }
    }
    if out.status == PRODUCED || out.status == ERROR {
      told := told + [out.status];
    }
  }

  class LtaSlave {
    const queue: Queue<Job>
    const parallelJobs: nat
    var jobs: nat
    var running: seq<Job>

    constructor (queue: Queue<Job>, parallelJobs: nat)
      ensures this.queue == queue && this.parallelJobs == parallelJobs && jobs == 0 && running == []
    {
      this.queue, this.parallelJobs, jobs, running := queue, parallelJobs, 0, [];
    }

    /** One pass of serve: a job is taken only while fewer than parallelJobs executers are counted. */
    method Pass()
      requires |running| <= jobs <= parallelJobs
      modifies this, queue
      ensures |running| <= jobs <= parallelJobs
      ensures if old(jobs) < parallelJobs && old(queue.items) != []
              then running == old(running) + [old(queue.items)[0]] && queue.items == old(queue.items)[1..] &&
                   jobs == old(jobs) + 1
              else running == old(running) && queue.items == old(queue.items) && jobs == old(jobs)
    {
      if jobs < parallelJobs {
        var job := queue.Get();
        if job.Some? {
          jobs := jobs + 1;
          running := running + [job.value];
        }
      }
    }
  }

  // ---------------------------------------------------------------- job groups

  /** The jobs that have a status, and how many they are. */
  ghost function With(latest: map<Id, int>, status: int): set<Id> { set id | id in latest && latest[id] == status }

  ghost function Having(latest: map<Id, int>, status: int): nat { |With(latest, status)| }

  lemma HavingUpdate(latest: map<Id, int>, id: Id, status: int, x: int)
    ensures Having(latest[id := status], x)
         == Having(latest, x) - (if id in latest && latest[id] == x then 1 else 0) + (if status == x then 1 else 0)
  {
    var before, now := With(latest, x), With(latest[id := status], x);
    if status == x {
      assert now == before + {id};
    } else {
      assert now == before - {id};
    }
    assert id in before <==> id in latest && latest[id] == x;
  }

  predicate IsStatus(x: int) { RETRY <= x <= PRODUCED }

  class JobGroup {
    var jobs: map<Id, Job>
    var scheduled: int
    var active: int
    var inactive: int
    var retry: int
    var failed: int
    var done: int

    /** The counters say how many jobs have which latest status. */
    ghost predicate Counts(latest: map<Id, int>)
      reads this
    {
      && jobs.Keys == latest.Keys && (forall id :: id in latest ==> IsStatus(latest[id]))
      && scheduled == Having(latest, SCHEDULED) && active == Having(latest, PRODUCING)
      && inactive == Having(latest, HOLD) && retry == Having(latest, RETRY)
      && failed == Having(latest, ERROR) && done == Having(latest, PRODUCED)
    }

    constructor ()
      ensures Counts(map[])
    {
      jobs := map[];
      scheduled, active, inactive, retry, failed, done := 0, 0, 0, 0, 0, 0;
      new;
      forall x ensures Having(map[], x) == 0 { NoneHave(x); }
    }

    method AddJob(job: Job, ghost latest: map<Id, int>)
      requires Counts(latest) && job.id !in latest
      modifies this
      ensures Counts(latest[job.id := SCHEDULED])
    {
      jobs := jobs[job.id := job];
      scheduled := scheduled + 1;
      forall x ensures Having(latest[job.id := SCHEDULED], x) == Having(latest, x) + if x == SCHEDULED then 1 else 0 {
        HavingUpdate(latest, job.id, SCHEDULED, x);
      }
    }

    /** The counters stay right because an update starts from the status the last one ended with. */
    method UpdateJob(job: Job, oldStatus: int, newStatus: int, ghost latest: map<Id, int>)
      requires Counts(latest) && job.id in latest && latest[job.id] == oldStatus && IsStatus(newStatus)
      modifies this
      ensures Counts(latest[job.id := newStatus])
    {
      hide Having;
      jobs := jobs[job.id := job];
      if oldStatus == SCHEDULED { scheduled := scheduled - 1; }
      if oldStatus == PRODUCING { active := active - 1; }
      if oldStatus == HOLD { inactive := inactive - 1; }
      if oldStatus == RETRY { retry := retry - 1; }
      if oldStatus == ERROR { failed := failed - 1; }
      if oldStatus == PRODUCED { done := done - 1; }
      if newStatus == SCHEDULED { scheduled := scheduled + 1; }
      if newStatus == PRODUCING { active := active + 1; }
      if newStatus == HOLD { inactive := inactive + 1; }
      if newStatus == RETRY { retry := retry + 1; }
      if newStatus == ERROR { failed := failed + 1; }
      if newStatus == PRODUCED { done := done + 1; }
      HavingUpdate(latest, job.id, newStatus, SCHEDULED);
      HavingUpdate(latest, job.id, newStatus, PRODUCING);
      HavingUpdate(latest, job.id, newStatus, HOLD);
      HavingUpdate(latest, job.id, newStatus, RETRY);
      HavingUpdate(latest, job.id, newStatus, ERROR);
      HavingUpdate(latest, job.id, newStatus, PRODUCED);
    }

    /** The group is reported finished exactly when every one of its jobs is done or given up. */
    method CheckFinished(ghost latest: map<Id, int>) returns (finished: bool)
      requires Counts(latest)
      ensures finished <==> forall id :: id in latest ==> latest[id] == ERROR || latest[id] == PRODUCED
    {
      var total := |jobs|;
      finished := scheduled == 0 && active == 0 && inactive == 0 && retry == 0;
      SettledIff(latest);
      assert |jobs.Keys| == |jobs| && |latest.Keys| == |latest|;
      if finished && total == failed + done {
        return true;
      }
      return false;
    }
  }

  lemma NoneHave(x: int)
    ensures Having(map[], x) == 0
  {
    assert With(map[], x) == {};
  }

  lemma SettledIff(latest: map<Id, int>)
    requires forall id :: id in latest ==> IsStatus(latest[id])
    ensures (Having(latest, SCHEDULED) == 0 && Having(latest, PRODUCING) == 0 &&
             Having(latest, HOLD) == 0 && Having(latest, RETRY) == 0)
       <==> forall id :: id in latest ==> latest[id] == ERROR || latest[id] == PRODUCED
    ensures (forall id :: id in latest ==> latest[id] == ERROR || latest[id] == PRODUCED) ==>
      |latest.Keys| == Having(latest, ERROR) + Having(latest, PRODUCED)
  {
    forall id | id in latest ensures Having(latest, latest[id]) > 0 {
      assert id in With(latest, latest[id]);
    }
    if forall id :: id in latest ==> latest[id] == ERROR || latest[id] == PRODUCED {
      forall x | x != ERROR && x != PRODUCED ensures Having(latest, x) == 0 {
        assert With(latest, x) == {};
      }
      assert latest.Keys == With(latest, ERROR) + With(latest, PRODUCED);
      assert With(latest, ERROR) !! With(latest, PRODUCED);
    }
  }
}
