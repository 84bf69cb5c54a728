/** What holds in every run of the ingest processes, and why every job comes to an end. */
module IngestSafety {
  import opened Options
  import opened IngestJobs

  // ---------------------------------------------------------------- sums over all jobs

  /** A weight for every job, depending on the place it is in. */
  type Weight = (nat, Job) -> int

  function Sum(f: Weight, p: nat, jobs: seq<Job>): int {
    if jobs == [] then 0 else Sum(f, p, jobs[..|jobs| - 1]) + f(p, jobs[|jobs| - 1])
  }

  function SumAll(f: Weight, at: seq<seq<Job>>): int {
    if at == [] then 0 else SumAll(f, at[..|at| - 1]) + Sum(f, |at| - 1, at[|at| - 1])
  }

  lemma {:induction false} SumConcat(f: Weight, p: nat, a: seq<Job>, b: seq<Job>)
    ensures Sum(f, p, a + b) == Sum(f, p, a) + Sum(f, p, b)
  {
    if b == [] {
      assert a + b == a;
    } else {
      assert (a + b)[..|a + b| - 1] == a + b[..|b| - 1];
      SumConcat(f, p, a, b[..|b| - 1]);
    }
  }

  lemma Sum1(f: Weight, p: nat, job: Job)
    ensures Sum(f, p, [job]) == f(p, job)
  {
    assert [job][..0] == [] && Sum(f, p, []) == 0;
  }

  lemma SumRemove(f: Weight, p: nat, jobs: seq<Job>, k: nat)
    requires k < |jobs|
    ensures Sum(f, p, jobs[..k] + jobs[k + 1..]) == Sum(f, p, jobs) - f(p, jobs[k])
  {
    SumConcat(f, p, jobs[..k], jobs[k + 1..]);
    SumConcat(f, p, jobs[..k], [jobs[k]]);
    SumConcat(f, p, jobs[..k] + [jobs[k]], jobs[k + 1..]);
    Sum1(f, p, jobs[k]);
    assert jobs == jobs[..k] + [jobs[k]] + jobs[k + 1..];
  }

  lemma {:induction false} SumAllUpdate(f: Weight, at: seq<seq<Job>>, p: nat, jobs: seq<Job>)
    requires p < |at|
    ensures SumAll(f, at[p := jobs]) == SumAll(f, at) - Sum(f, p, at[p]) + Sum(f, p, jobs)
  {
    var n := |at| - 1;
    assert at[p := jobs][..n] == if p < n then at[..n][p := jobs] else at[..n];
    if p < n { SumAllUpdate(f, at[..n], p, jobs); }
  }

  /** Moving a job changes the sum by the difference of its weights. */
  lemma MoveSum(f: Weight, at: seq<seq<Job>>, p: nat, k: nat, q: nat, job: Job)
    requires p < |at| && q < |at| && p != q && k < |at[p]|
    ensures SumAll(f, Move(at, p, k, q, job)) == SumAll(f, at) - f(p, at[p][k]) + f(q, job)
  {
    var rest := at[p][..k] + at[p][k + 1..];
    SumAllUpdate(f, at, p, rest);
    SumRemove(f, p, at[p], k);
    SumAllUpdate(f, at[p := rest], q, at[q] + [job]);
    SumConcat(f, q, at[q], [job]);
    Sum1(f, q, job);
  }

  lemma AddSum(f: Weight, at: seq<seq<Job>>, q: nat, job: Job)
    requires q < |at|
    ensures SumAll(f, at[q := at[q] + [job]]) == SumAll(f, at) + f(q, job)
  {
    SumAllUpdate(f, at, q, at[q] + [job]);
    SumConcat(f, q, at[q], [job]);
    Sum1(f, q, job);
  }

  lemma {:induction false} SumBounds(f: Weight, p: nat, jobs: seq<Job>, k: nat)
    requires (forall j: Job :: f(p, j) >= 0) && k < |jobs|
    ensures Sum(f, p, jobs) >= f(p, jobs[k]) >= 0
  {
    SumNotNegative(f, p, jobs[..|jobs| - 1]);
    if k < |jobs| - 1 { SumBounds(f, p, jobs[..|jobs| - 1], k); }
  }

  lemma {:induction false} SumNotNegative(f: Weight, p: nat, jobs: seq<Job>)
    requires forall j: Job :: f(p, j) >= 0
    ensures Sum(f, p, jobs) >= 0
  {
    if jobs != [] { SumNotNegative(f, p, jobs[..|jobs| - 1]); }
  }

  lemma {:induction false} SumAllNotNegative(f: Weight, at: seq<seq<Job>>)
    requires forall p: nat, j: Job :: f(p, j) >= 0
    ensures SumAll(f, at) >= 0
  {
    if at != [] {
      SumAllNotNegative(f, at[..|at| - 1]);
      SumNotNegative(f, |at| - 1, at[|at| - 1]);
    }
  }

  lemma {:induction false} SumAllBounds(f: Weight, at: seq<seq<Job>>, p: nat, k: nat)
    requires (forall p: nat, j: Job :: f(p, j) >= 0) && p < |at| && k < |at[p]|
    ensures SumAll(f, at) >= f(p, at[p][k])
  {
    var n := |at| - 1;
    SumAllNotNegative(f, at[..n]);
    SumNotNegative(f, n, at[n]);
    if p < n { SumAllBounds(f, at[..n], p, k); } else { SumBounds(f, p, at[p], k); }
  }

  lemma {:induction false} SumZero(f: Weight, p: nat, jobs: seq<Job>)
    requires forall k :: 0 <= k < |jobs| ==> f(p, jobs[k]) == 0
    ensures Sum(f, p, jobs) == 0
  {
    if jobs != [] { SumZero(f, p, jobs[..|jobs| - 1]); }
  }

  lemma {:induction false} SumAllZero(f: Weight, at: seq<seq<Job>>)
    requires forall p, k :: 0 <= p < |at| && 0 <= k < |at[p]| ==> f(p, at[p][k]) == 0
    ensures SumAll(f, at) == 0
  {
    if at != [] {
      var n := |at| - 1;
      assert forall p :: 0 <= p < n ==> at[..n][p] == at[p];
      SumAllZero(f, at[..n]);
      SumZero(f, n, at[n]);
    }
  }

  // ---------------------------------------------------------------- how often a job is somewhere

  function Here(id: Id): Weight { (p: nat, j: Job) => if j.id == id then 1 else 0 }

  /** Active jobs are on their way through a slave. */
  function HereActive(id: Id): Weight {
    (p: nat, j: Job) => if j.id == id && p != SCHEDULED_JOBS && p != FINISHED then 1 else 0
  }

  /** In how many places job id is. */
  function Occurs(at: seq<seq<Job>>, id: Id): int { SumAll(Here(id), at) }

  function OccursActive(at: seq<seq<Job>>, id: Id): int { SumAll(HereActive(id), at) }

  // ---------------------------------------------------------------- the updates of one job

  /** What the updates of a job say: how often it was started, how often a run failed, the last status,
      and whether each update starts from the status the one before ended with. */
  datatype Record = Record(starts: nat, fails: nat, last: Option<int>, chain: bool)

  const NONE := Record(0, 0, None, true)

  function Next(r: Record, u: Update): Record {
    Record(r.starts + if u.after == PRODUCING then 1 else 0,
           r.fails + if u.after == RETRY || u.after == ERROR then 1 else 0,
           Some(u.after), r.chain && r.last == u.before)
  }

  function RecordOf(sent: seq<Update>, id: Id): Record {
    if sent == [] then NONE
    else
      var before, u := RecordOf(sent[..|sent| - 1], id), sent[|sent| - 1];
      if u.id == id then Next(before, u) else before
  }

  lemma RecordAppend(sent: seq<Update>, u: Update, id: Id)
    ensures RecordOf(sent + [u], id) == if u.id == id then Next(RecordOf(sent, id), u) else RecordOf(sent, id)
  {
    assert (sent + [u])[..|sent|] == sent;
  }

  // ---------------------------------------------------------------- the invariant

  /** What holds of a job in a place, rec being the record of its updates and first the job as accepted. A job
      that has come to a slave has a slave for its destination. */
  predicate JobOk(cfg: Config, rec: Record, first: Job, p: nat, j: Job) {
    && rec.chain && rec.last == Some(j.status) && j.retry == rec.fails && rec.fails <= cfg.Runs()
    && j.destination == first.destination
    && if p == SCHEDULED_JOBS then
         && (j.status == SCHEDULED || j.status == RETRY) && rec.starts == rec.fails < cfg.Runs()
         && j.filename == NameAfter(first.filename, rec.fails)
       else if p == JOB_DONE then
         && (if j.status == PRODUCED then rec.starts == rec.fails + 1 <= cfg.Runs()
             else rec.starts == rec.fails > 0 && j.status == if rec.fails < cfg.Runs() then RETRY else ERROR)
         && j.filename == NameAfter(first.filename, if j.status == PRODUCED then rec.fails else rec.fails - 1)
         && HasSlave(cfg, first.destination)
       else if p == FINISHED then
         && (if j.status == PRODUCED then rec.starts == rec.fails + 1 <= cfg.Runs()
             else j.status == ERROR && rec.starts == rec.fails == cfg.Runs())
         && j.filename == NameAfter(first.filename, rec.fails) && HasSlave(cfg, first.destination)
       else
         && j.status == PRODUCING && rec.starts == rec.fails + 1 <= cfg.Runs()
         && j.filename == NameAfter(first.filename, rec.fails) && (p != HELD ==> HasSlave(cfg, first.destination))
  }

  ghost predicate JobsOk(cfg: Config, s: Sys, at: seq<seq<Job>>) {
    forall p, k :: 0 <= p < |at| && 0 <= k < |at[p]| ==>
      at[p][k].id in s.accepted && JobOk(cfg, RecordOf(s.sent, at[p][k].id), s.accepted[at[p][k].id], p, at[p][k])
  }

  /** Every accepted job is in exactly one place, others are nowhere. */
  ghost predicate Once(s: Sys) {
    forall id :: Occurs(s.at, id) == if id in s.accepted then 1 else 0
  }

  /** The active list holds exactly the jobs on their way through a slave. */
  ghost predicate ActiveOk(s: Sys) {
    forall id :: id in s.active <==> OccursActive(s.at, id) == 1
  }

  ghost predicate ValuesOk(cfg: Config, s: Sys)
    requires Shaped(cfg, s)
  {
    forall k :: 0 <= k < |cfg.slaves| ==> |s.at[cfg.RunningAt(k)]| <= s.values[k] <= cfg.slaveJobs
  }

  /** What the queue handler schedules: a parsed job. */
  predicate Acceptable(job: Job) { job.status == SCHEDULED && job.retry == 0 }

  ghost predicate Inv(cfg: Config, s: Sys) {
    && Shaped(cfg, s) && Once(s) && ActiveOk(s) && JobsOk(cfg, s, s.at) && ValuesOk(cfg, s)
    && |s.active| <= cfg.parallelJobs * cfg.slavesFound && |s.at[HELD]| <= 1
    && (forall id :: id in s.accepted ==> Acceptable(s.accepted[id]))
    && (forall id :: id !in s.accepted ==> RecordOf(s.sent, id) == NONE)
  }

  // ---------------------------------------------------------------- moving a job

  /** A job that has been taken out of its place is nowhere else. */
  lemma TakenOut(at: seq<seq<Job>>, p: nat, k: nat, r: nat, i: nat)
    requires p < |at| && k < |at[p]| && Occurs(at, at[p][k].id) <= 1
    requires r < |at| && i < |at[r]| && (r != p || i != k)
    ensures at[r][i].id != at[p][k].id
  {
    var id := at[p][k].id;
    var without := at[p := at[p][..k] + at[p][k + 1..]];
    SumAllUpdate(Here(id), at, p, without[p]);
    SumRemove(Here(id), p, at[p], k);
    var j := if r == p && i > k then i - 1 else i;
    assert without[r][j] == at[r][i];
    SumAllBounds(Here(id), without, r, j);
  }

  /** Moving a job and sending an update about it keeps what holds of all jobs. */
  lemma MoveKeepsJobs(cfg: Config, s: Sys, t: Sys, p: nat, k: nat, q: nat, job: Job)
    requires Inv(cfg, s) && p < |s.at| && q < |s.at| && p != q && k < |s.at[p]|
    requires t.at == Move(s.at, p, k, q, job) && t.accepted == s.accepted && job.id == s.at[p][k].id
    requires forall id :: id != job.id ==> RecordOf(t.sent, id) == RecordOf(s.sent, id)
    requires JobOk(cfg, RecordOf(t.sent, job.id), s.accepted[job.id], q, job)
    ensures JobsOk(cfg, t, t.at)
  {
    hide JobOk, Occurs, RecordOf;
    forall r, i | 0 <= r < |t.at| && 0 <= i < |t.at[r]|
      ensures t.at[r][i].id in t.accepted &&
        JobOk(cfg, RecordOf(t.sent, t.at[r][i].id), t.accepted[t.at[r][i].id], r, t.at[r][i])
    {
      if r == q && i == |s.at[q]| {
        assert t.at[r][i] == job;
      } else {
        var j := if r == p && i >= k then i + 1 else i;
        assert t.at[r][i] == s.at[r][j];
        TakenOut(s.at, p, k, r, j);
      }
    }
  }

  lemma MoveKeepsOnce(s: Sys, t: Sys, p: nat, k: nat, q: nat, job: Job)
    requires Once(s) && p < |s.at| && q < |s.at| && p != q && k < |s.at[p]|
    requires t.at == Move(s.at, p, k, q, job) && t.accepted == s.accepted && job.id == s.at[p][k].id
    ensures Once(t)
  {
    forall id ensures Occurs(t.at, id) == Occurs(s.at, id) {
      MoveSum(Here(id), s.at, p, k, q, job);
    }
  }

  /** How a move changes the number of active occurrences. */
  lemma MoveActive(at: seq<seq<Job>>, p: nat, k: nat, q: nat, job: Job, id: Id)
    requires p < |at| && q < |at| && p != q && k < |at[p]| && job.id == at[p][k].id
    ensures OccursActive(Move(at, p, k, q, job), id)
         == OccursActive(at, id) - HereActive(id)(p, job) + HereActive(id)(q, job)
  {
    MoveSum(HereActive(id), at, p, k, q, job);
  }

  /** A job in a place is active exactly if the place is on the way through a slave. */
  lemma ActiveAt(s: Sys, p: nat, k: nat)
    requires Once(s) && p < |s.at| && k < |s.at[p]|
    ensures OccursActive(s.at, s.at[p][k].id) == if p != SCHEDULED_JOBS && p != FINISHED then 1 else 0
  {
    var id := s.at[p][k].id;
    var without := s.at[p := s.at[p][..k] + s.at[p][k + 1..]];
    SumAllUpdate(HereActive(id), s.at, p, without[p]);
    SumRemove(HereActive(id), p, s.at[p], k);
    forall r, i | 0 <= r < |without| && 0 <= i < |without[r]| ensures HereActive(id)(r, without[r][i]) == 0 {
      var j := if r == p && i >= k then i + 1 else i;
      assert without[r][i] == s.at[r][j];
      assert Occurs(s.at, id) <= 1;
      TakenOut(s.at, p, k, r, j);
    }
    SumAllZero(HereActive(id), without);
  }

  // ---------------------------------------------------------------- every step keeps the invariant

  lemma InitialSafe(cfg: Config)
    ensures Inv(cfg, Initial(cfg))
  {
    var s := Initial(cfg);
    forall id ensures Occurs(s.at, id) == 0 && OccursActive(s.at, id) == 0 {
      SumAllZero(Here(id), s.at);
      SumAllZero(HereActive(id), s.at);
    }
  }

  lemma AcceptSafe(cfg: Config, s: Sys, job: Job)
    requires Inv(cfg, s) && Step(cfg, s, Accept(job)).Some?
    ensures Inv(cfg, Step(cfg, s, Accept(job)).value)
  {
    hide Occurs, OccursActive, RecordOf, NextName;
    var t := Step(cfg, s, Accept(job)).value;
    var u := Update(job.id, None, SCHEDULED);
    forall id ensures RecordOf(t.sent, id) == if id == job.id then Next(NONE, u) else RecordOf(s.sent, id) {
      RecordAppend(s.sent, u, id);
    }
    forall id ensures Occurs(t.at, id) == Occurs(s.at, id) + if id == job.id then 1 else 0 {
      OccursAdd(s.at, SCHEDULED_JOBS, job, id);
    }
    forall id ensures OccursActive(t.at, id) == OccursActive(s.at, id) {
      OccursActiveAdd(s.at, SCHEDULED_JOBS, job, id);
    }
    forall r, i | 0 <= r < |t.at| && 0 <= i < |t.at[r]|
      ensures t.at[r][i].id in t.accepted &&
        JobOk(cfg, RecordOf(t.sent, t.at[r][i].id), t.accepted[t.at[r][i].id], r, t.at[r][i])
    {
      if !(r == SCHEDULED_JOBS && i == |s.at[r]|) { assert t.at[r][i] == s.at[r][i]; }
    }
  }

  lemma OccursAdd(at: seq<seq<Job>>, q: nat, job: Job, id: Id)
    requires q < |at|
    ensures Occurs(at[q := at[q] + [job]], id) == Occurs(at, id) + if id == job.id then 1 else 0
  {
    AddSum(Here(id), at, q, job);
  }

  lemma OccursActiveAdd(at: seq<seq<Job>>, q: nat, job: Job, id: Id)
    requires q < |at|
    ensures OccursActive(at[q := at[q] + [job]], id) == OccursActive(at, id) + HereActive(id)(q, job)
  {
    AddSum(HereActive(id), at, q, job);
  }

  lemma RecordsAfter(s: Sys, t: Sys, u: Update)
    requires t.sent == s.sent + [u]
    ensures forall id ::
      RecordOf(t.sent, id) == if u.id == id then Next(RecordOf(s.sent, id), u) else RecordOf(s.sent, id)
  {
    forall id
      ensures RecordOf(t.sent, id) == if u.id == id then Next(RecordOf(s.sent, id), u) else RecordOf(s.sent, id)
    {
      RecordAppend(s.sent, u, id);
    }
  }

  /** What a move does to the active list: it has to follow the job into and out of the slaves. */
  lemma MoveKeepsActive(s: Sys, t: Sys, p: nat, k: nat, q: nat, job: Job)
    requires Once(s) && ActiveOk(s) && p < |s.at| && q < |s.at| && p != q && k < |s.at[p]|
    requires t.at == Move(s.at, p, k, q, job) && job.id == s.at[p][k].id
    requires t.active.Keys ==
      if q != SCHEDULED_JOBS && q != FINISHED then s.active.Keys + {job.id} else s.active.Keys - {job.id}
    ensures ActiveOk(t)
  {
    hide Occurs, OccursActive;
    forall id ensures id in t.active <==> OccursActive(t.at, id) == 1 {
      MoveActive(s.at, p, k, q, job, id);
      ActiveAt(s, p, k);
      assert id in s.active <==> id in s.active.Keys;
      assert id in t.active <==> id in t.active.Keys;
    }
  }

  lemma BeginSafe(cfg: Config, s: Sys)
    requires Inv(cfg, s) && Step(cfg, s, Begin).Some?
    ensures Inv(cfg, Step(cfg, s, Begin).value)
  {
    hide Once, ActiveOk, RecordOf, NextName, NameAfter, HasSlave, JobsOk;
    var t := Step(cfg, s, Begin).value;
    var job := s.at[SCHEDULED_JOBS][0];
    var started := job.(status := PRODUCING);
    JobsOkAt(cfg, s, SCHEDULED_JOBS, 0);
    RecordsAfter(s, t, Update(job.id, Some(job.status), PRODUCING));
    MoveKeepsJobs(cfg, s, t, SCHEDULED_JOBS, 0, HELD, started);
    MoveKeepsOnce(s, t, SCHEDULED_JOBS, 0, HELD, started);
    MoveKeepsActive(s, t, SCHEDULED_JOBS, 0, HELD, started);
  }

  lemma SendSafe(cfg: Config, s: Sys, slave: nat)
    requires Inv(cfg, s) && Step(cfg, s, Send(slave)).Some?
    ensures Inv(cfg, Step(cfg, s, Send(slave)).value)
  {
    hide Once, ActiveOk, RecordOf, NextName, NameAfter, Contains, JobsOk;
    var t := Step(cfg, s, Send(slave)).value;
    var job, q := s.at[HELD][0], cfg.QueueOf(slave);
    JobsOkAt(cfg, s, HELD, 0);
    assert HasSlave(cfg, job.destination);
    MoveKeepsJobs(cfg, s, t, HELD, 0, q, job);
    MoveKeepsOnce(s, t, HELD, 0, q, job);
    ActiveIn(s, HELD, 0);
    MoveKeepsActive(s, t, HELD, 0, q, job);
  }

  lemma JobsOkAt(cfg: Config, s: Sys, p: nat, k: nat)
    requires JobsOk(cfg, s, s.at) && p < |s.at| && k < |s.at[p]|
    ensures var j := s.at[p][k];
      j.id in s.accepted && JobOk(cfg, RecordOf(s.sent, j.id), s.accepted[j.id], p, j)
  {
  }

  lemma TakeSafe(cfg: Config, s: Sys, slave: nat)
    requires Inv(cfg, s) && Step(cfg, s, Take(slave)).Some?
    ensures Inv(cfg, Step(cfg, s, Take(slave)).value)
  {
    hide Once, ActiveOk, RecordOf, NextName, NameAfter, Shortest, JobsOk;
    var t := Step(cfg, s, Take(slave)).value;
    var p, q := cfg.QueueOf(slave), cfg.RunningAt(slave);
    var job := s.at[p][0];
    JobsOkAt(cfg, s, p, 0);
    MoveKeepsJobs(cfg, s, t, p, 0, q, job);
    MoveKeepsOnce(s, t, p, 0, q, job);
    ActiveIn(s, p, 0);
    MoveKeepsActive(s, t, p, 0, q, job);
  }

  lemma ActiveIn(s: Sys, p: nat, k: nat)
    requires Once(s) && ActiveOk(s) && p < |s.at| && k < |s.at[p]|
    ensures s.at[p][k].id in s.active <==> p != SCHEDULED_JOBS && p != FINISHED
    ensures s.at[p][k].id in s.active ==> s.active.Keys == s.active.Keys + {s.at[p][k].id}
  {
    ActiveAt(s, p, k);
  }

  lemma FinishSafe(cfg: Config, s: Sys, slave: nat, k: nat, outcome: Outcome)
    requires Inv(cfg, s) && Step(cfg, s, Finish(slave, k, outcome)).Some?
    ensures Inv(cfg, Step(cfg, s, Finish(slave, k, outcome)).value)
  {
    hide Once, ActiveOk, RecordOf, NextName, NameAfter, Shortest, JobsOk;
    var t := Step(cfg, s, Finish(slave, k, outcome)).value;
    var p := cfg.RunningAt(slave);
    var job := Decide(cfg.pipelineRetry, s.at[p][k], outcome);
    JobsOkAt(cfg, s, p, k);
    RecordsAfter(s, t, Update(job.id, Some(PRODUCING), job.status));
    MoveKeepsJobs(cfg, s, t, p, k, JOB_DONE, job);
    MoveKeepsOnce(s, t, p, k, JOB_DONE, job);
    ActiveIn(s, p, k);
    MoveKeepsActive(s, t, p, k, JOB_DONE, job);
  }

  lemma DoneSafe(cfg: Config, s: Sys)
    requires Inv(cfg, s) && Step(cfg, s, Done).Some?
    ensures Inv(cfg, Step(cfg, s, Done).value)
  {
    hide Once, ActiveOk, RecordOf, NextName, Shortest, JobsOk;
    var t := Step(cfg, s, Done).value;
    var job := Renamed(s.at[JOB_DONE][0]);
    var q := if job.status == RETRY then SCHEDULED_JOBS else FINISHED;
    JobsOkAt(cfg, s, JOB_DONE, 0);
    MoveKeepsJobs(cfg, s, t, JOB_DONE, 0, q, job);
    MoveKeepsOnce(s, t, JOB_DONE, 0, q, job);
    MoveKeepsActive(s, t, JOB_DONE, 0, q, job);
    FewerKeys(s.active, job.id);
  }

  lemma FewerKeys(m: map<Id, Job>, id: Id)
    ensures |m - {id}| <= |m|
  {
    assert (m - {id}).Keys == m.Keys - {id};
    assert |m.Keys - {id}| <= |m.Keys|;
  }

  lemma StepSafe(cfg: Config, s: Sys, a: Action)
    requires Inv(cfg, s) && Step(cfg, s, a).Some?
    ensures Inv(cfg, Step(cfg, s, a).value)
  {
    match a
    case Accept(job) => AcceptSafe(cfg, s, job);
    case Begin => BeginSafe(cfg, s);
    case Send(slave) => SendSafe(cfg, s, slave);
    case Take(slave) => TakeSafe(cfg, s, slave);
    case Finish(slave, k, outcome) => FinishSafe(cfg, s, slave, k, outcome);
    case Release(slave) =>
    case Done => DoneSafe(cfg, s);
  }

  /** Every state of every run, whatever the order of the processes' steps. */
  lemma {:induction false} RunSafe(cfg: Config, actions: seq<Action>)
    requires Run(cfg, actions).Some?
    ensures Inv(cfg, Run(cfg, actions).value)
  {
    hide Inv, Step;
    if actions == [] {
      InitialSafe(cfg);
    } else {
      RunSafe(cfg, actions[..|actions| - 1]);
      StepSafe(cfg, Run(cfg, actions[..|actions| - 1]).value, actions[|actions| - 1]);
    }
  }

  // ---------------------------------------------------------------- what this means for the jobs

  lemma {:induction false} FindIn(at: seq<seq<Job>>, id: Id) returns (p: nat, k: nat)
    requires Occurs(at, id) > 0
    ensures p < |at| && k < |at[p]| && at[p][k].id == id
  {
    if forall p, k :: 0 <= p < |at| && 0 <= k < |at[p]| ==> at[p][k].id != id {
      SumAllZero(Here(id), at);
    }
    p, k :| 0 <= p < |at| && 0 <= k < |at[p]| && at[p][k].id == id;
  }

  /** The file of a job that has just been reported done with a failure has not been renamed yet. */
  function FailsInName(rec: Record, p: nat, job: Job): nat {
    if p == JOB_DONE && job.status != PRODUCED && rec.fails > 0 then rec.fails - 1 else rec.fails
  }

  /** At every moment every accepted job is in exactly one place, with as many failed runs as its retry
      count and its file name say. */
  lemma OnePlace(cfg: Config, actions: seq<Action>, id: Id) returns (p: nat, k: nat)
    requires Run(cfg, actions).Some? && id in Run(cfg, actions).value.accepted
    ensures var s := Run(cfg, actions).value;
      && p < |s.at| && k < |s.at[p]| && s.at[p][k].id == id
      && (forall r, i :: 0 <= r < |s.at| && 0 <= i < |s.at[r]| && s.at[r][i].id == id ==> r == p && i == k)
      && s.at[p][k].retry == RecordOf(s.sent, id).fails
      && s.at[p][k].filename == NameAfter(s.accepted[id].filename, FailsInName(RecordOf(s.sent, id), p, s.at[p][k]))
  {
    hide Occurs, RecordOf, NameAfter;
    RunSafe(cfg, actions);
    var s := Run(cfg, actions).value;
    p, k := FindIn(s.at, id);
    forall r, i | 0 <= r < |s.at| && 0 <= i < |s.at[r]| && s.at[r][i].id == id ensures r == p && i == k {
      if r != p || i != k { TakenOut(s.at, p, k, r, i); }
    }
    JobsOkAt(cfg, s, p, k);
  }

  /** A job is run at most max(1, pipelineRetry) times, and once more only after a failed run. */
  lemma RunsBounded(cfg: Config, actions: seq<Action>, id: Id)
    requires Run(cfg, actions).Some?
    ensures var rec := RecordOf(Run(cfg, actions).value.sent, id);
      rec.fails <= rec.starts <= rec.fails + 1 && rec.starts <= cfg.Runs()
  {
    hide Occurs, RecordOf, NameAfter;
    RunSafe(cfg, actions);
    var s := Run(cfg, actions).value;
    if id in s.accepted {
      var p, k := FindIn(s.at, id);
      JobsOkAt(cfg, s, p, k);
    }
  }

  /** Never are more jobs active than the slaves found can do, nor more executers than a slave may have. */
  lemma ConcurrencyBounded(cfg: Config, actions: seq<Action>)
    requires Run(cfg, actions).Some?
    ensures var s := Run(cfg, actions).value;
      && |s.active| <= cfg.parallelJobs * cfg.slavesFound
      && forall k :: 0 <= k < |cfg.slaves| ==> |s.at[cfg.RunningAt(k)]| <= cfg.slaveJobs
  {
    RunSafe(cfg, actions);
  }

  /** The updates about a job form a chain from Scheduled on: each one starts from the status the one
      before ended with, also when only the first n have been seen. */
  lemma {:induction false} UpdatesChain(cfg: Config, actions: seq<Action>, id: Id, n: nat)
    requires Run(cfg, actions).Some? && n <= |Run(cfg, actions).value.sent|
    ensures var rec := RecordOf(Run(cfg, actions).value.sent[..n], id);
      rec.chain && (rec.last.None? <==> rec == NONE)
  {
    hide Occurs, NameAfter;
    RunSafe(cfg, actions);
    var s := Run(cfg, actions).value;
    if id in s.accepted {
      var p, k := FindIn(s.at, id);
      JobsOkAt(cfg, s, p, k);
    }
    ChainPrefix(s.sent, n, id);
  }

  lemma {:induction false} ChainPrefix(sent: seq<Update>, n: nat, id: Id)
    requires n <= |sent| && RecordOf(sent, id).chain
    ensures RecordOf(sent[..n], id).chain
    ensures RecordOf(sent[..n], id).last.None? <==> RecordOf(sent[..n], id) == NONE
    decreases |sent|
  {
    if n < |sent| {
      ChainPrefix(sent[..|sent| - 1], n, id);
      assert sent[..|sent| - 1][..n] == sent[..n];
    } else {
      assert sent[..n] == sent;
      if sent != [] {
        ChainPrefix(sent[..n - 1], n - 1, id);
        assert sent[..n - 1][..n - 1] == sent[..n - 1];
      }
    }
  }

  /** The next update about a job starts from the status its last one ended with: what the job group's
      counters rely on. */
  lemma NextUpdateFits(cfg: Config, actions: seq<Action>, n: nat)
    requires Run(cfg, actions).Some? && n < |Run(cfg, actions).value.sent|
    ensures var sent := Run(cfg, actions).value.sent;
      sent[n].before == RecordOf(sent[..n], sent[n].id).last
  {
    var sent := Run(cfg, actions).value.sent;
    UpdatesChain(cfg, actions, sent[n].id, n + 1);
    assert sent[..n + 1][..n] == sent[..n];
  }

  /** A job that is reported done is in the active list it is removed from. */
  lemma DoneJobIsActive(cfg: Config, actions: seq<Action>)
    requires Run(cfg, actions).Some? && Run(cfg, actions).value.at[JOB_DONE] != []
    ensures Run(cfg, actions).value.at[JOB_DONE][0].id in Run(cfg, actions).value.active
  {
    RunSafe(cfg, actions);
    ActiveIn(Run(cfg, actions).value, JOB_DONE, 0);
  }

  // ---------------------------------------------------------------- first in, first out

  /** The jobs that got a status, in the order of the updates. */
  function Entered(sent: seq<Update>, status: int): seq<Id> {
    if sent == [] then []
    else
      var u := sent[|sent| - 1];
      Entered(sent[..|sent| - 1], status) + if u.after == status then [u.id] else []
  }

  /** The jobs that were started from a status, in the order of the updates. */
  function Started(sent: seq<Update>, status: int): seq<Id> {
    if sent == [] then []
    else
      var u := sent[|sent| - 1];
      Started(sent[..|sent| - 1], status) + if u.before == Some(status) && u.after == PRODUCING then [u.id] else []
  }

  function Waiting(jobs: seq<Job>, status: int): seq<Id> {
    if jobs == [] then [] else (if jobs[0].status == status then [jobs[0].id] else []) + Waiting(jobs[1..], status)
  }

  lemma UpdateAppend(sent: seq<Update>, u: Update, status: int)
    ensures Entered(sent + [u], status) == Entered(sent, status) + if u.after == status then [u.id] else []
    ensures Started(sent + [u], status)
         == Started(sent, status) + if u.before == Some(status) && u.after == PRODUCING then [u.id] else []
  {
    assert (sent + [u])[..|sent|] == sent;
  }

  lemma {:induction false} WaitingAppend(jobs: seq<Job>, job: Job, status: int)
    ensures Waiting(jobs + [job], status) == Waiting(jobs, status) + if job.status == status then [job.id] else []
  {
    if jobs == [] {
      assert [job][1..] == [] && jobs + [job] == [job] && Waiting([], status) == [];
    } else {
      WaitingAppend(jobs[1..], job, status);
      assert (jobs + [job])[1..] == jobs[1..] + [job];
    }
  }

  lemma WaitingFirst(jobs: seq<Job>, status: int)
    requires jobs != []
    ensures Waiting(jobs, status)
         == (if jobs[0].status == status then [jobs[0].id] else []) + Waiting(jobs[..0] + jobs[0 + 1..], status)
  {
    assert jobs[..0] + jobs[0 + 1..] == jobs[1..];
  }

  lemma {:induction false} NoneWaiting(jobs: seq<Job>, status: int)
    requires forall k :: 0 <= k < |jobs| ==> jobs[k].status != status
    ensures Waiting(jobs, status) == []
  {
    if jobs != [] { NoneWaiting(jobs[1..], status); }
  }

  /** No job that was reported done is still scheduled. */
  lemma NoneNew(cfg: Config, s: Sys)
    requires Inv(cfg, s)
    ensures Waiting(s.at[JOB_DONE], SCHEDULED) == []
  {
    forall k | 0 <= k < |s.at[JOB_DONE]| ensures s.at[JOB_DONE][k].status != SCHEDULED {
      JobsOkAt(cfg, s, JOB_DONE, k);
    }
    NoneWaiting(s.at[JOB_DONE], SCHEDULED);
  }

  /** Of the jobs that got a status, in this order, those first in the order have been started from it, and the
      others are still in the queue or, behind those, among the jobs reported done. */
  predicate InOrder(s: Sys, status: int)
    requires |s.at| > JOB_DONE
  {
    Entered(s.sent, status)
    == Started(s.sent, status) + Waiting(s.at[SCHEDULED_JOBS], status) + Waiting(s.at[JOB_DONE], status)
  }

  lemma AcceptInOrder(cfg: Config, s: Sys, job: Job, status: int)
    requires Inv(cfg, s) && Step(cfg, s, Accept(job)).Some? && (status == SCHEDULED || status == RETRY)
    requires InOrder(s, status)
    ensures InOrder(Step(cfg, s, Accept(job)).value, status)
  {
    UpdateAppend(s.sent, Update(job.id, None, SCHEDULED), status);
    WaitingAppend(s.at[SCHEDULED_JOBS], job, status);
    if status == SCHEDULED { NoneNew(cfg, s); }
    hide Inv, Entered, Started, Waiting;
  }

  lemma BeginInOrder(cfg: Config, s: Sys, status: int)
    requires Shaped(cfg, s) && Step(cfg, s, Begin).Some? && InOrder(s, status) && status != PRODUCING
    ensures InOrder(Step(cfg, s, Begin).value, status)
  {
    hide Entered, Started, Waiting;
    var job := s.at[SCHEDULED_JOBS][0];
    var own := if job.status == status then [job.id] else [];
    var t := Step(cfg, s, Begin).value;
    UpdateAppend(s.sent, Update(job.id, Some(job.status), PRODUCING), status);
    WaitingFirst(s.at[SCHEDULED_JOBS], status);
    assert Started(t.sent, status) == Started(s.sent, status) + own;
    assert t.at[SCHEDULED_JOBS] == s.at[SCHEDULED_JOBS][..0] + s.at[SCHEDULED_JOBS][0 + 1..];
    assert Waiting(s.at[SCHEDULED_JOBS], status) == own + Waiting(t.at[SCHEDULED_JOBS], status);
  }

  lemma FinishInOrder(cfg: Config, s: Sys, slave: nat, k: nat, outcome: Outcome, status: int)
    requires Shaped(cfg, s) && Step(cfg, s, Finish(slave, k, outcome)).Some? && InOrder(s, status)
    ensures InOrder(Step(cfg, s, Finish(slave, k, outcome)).value, status)
  {
    hide Entered, Started, Waiting;
    var job := Decide(cfg.pipelineRetry, s.at[cfg.RunningAt(slave)][k], outcome);
    UpdateAppend(s.sent, Update(job.id, Some(PRODUCING), job.status), status);
    WaitingAppend(s.at[JOB_DONE], job, status);
  }

  lemma DoneInOrder(cfg: Config, s: Sys, status: int)
    requires Inv(cfg, s) && Step(cfg, s, Done).Some? && (status == SCHEDULED || status == RETRY) && InOrder(s, status)
    ensures InOrder(Step(cfg, s, Done).value, status)
  {
    hide Once, ActiveOk, JobsOk, Entered, Started, Waiting, RecordOf, NextName, NameAfter, HasSlave;
    JobsOkAt(cfg, s, JOB_DONE, 0);
    var t := Step(cfg, s, Done).value;
    var job := Renamed(s.at[JOB_DONE][0]);
    var own := if job.status == status then [job.id] else [];
    WaitingFirst(s.at[JOB_DONE], status);
    WaitingAppend(s.at[SCHEDULED_JOBS], job, status);
    assert t.at[JOB_DONE] == s.at[JOB_DONE][..0] + s.at[JOB_DONE][0 + 1..];
    assert t.at[SCHEDULED_JOBS] == if job.status == RETRY then s.at[SCHEDULED_JOBS] + [job] else s.at[SCHEDULED_JOBS];
    assert Waiting(s.at[JOB_DONE], status) == own + Waiting(t.at[JOB_DONE], status);
    assert Waiting(t.at[SCHEDULED_JOBS], status) == Waiting(s.at[SCHEDULED_JOBS], status) + own;
  }

  lemma StepInOrder(cfg: Config, s: Sys, a: Action, status: int)
    requires Inv(cfg, s) && Step(cfg, s, a).Some? && (status == SCHEDULED || status == RETRY) && InOrder(s, status)
    ensures InOrder(Step(cfg, s, a).value, status)
  {
    match a
    case Accept(job) => AcceptInOrder(cfg, s, job, status);
    case Begin => BeginInOrder(cfg, s, status);
    case Send(slave) =>
    case Take(slave) =>
    case Finish(slave, k, outcome) => FinishInOrder(cfg, s, slave, k, outcome, status);
    case Release(slave) =>
    case Done => DoneInOrder(cfg, s, status);
  }

  /** First in, first out, for new jobs and for jobs that are tried again: they are started in the order in which
      the updates about their becoming scheduled, or to be retried, were sent. */
  lemma {:induction false} StartsInOrder(cfg: Config, actions: seq<Action>, status: int)
    requires Run(cfg, actions).Some? && (status == SCHEDULED || status == RETRY)
    ensures InOrder(Run(cfg, actions).value, status)
  {
    hide Inv, Step;
    if actions != [] {
      var before := actions[..|actions| - 1];
      StartsInOrder(cfg, before, status);
      RunSafe(cfg, before);
      StepInOrder(cfg, Run(cfg, before).value, actions[|actions| - 1], status);
    }
  }

  /** New jobs are started in the order in which they are accepted. */
  lemma NewJobsInOrder(cfg: Config, actions: seq<Action>)
    requires Run(cfg, actions).Some?
    ensures var s := Run(cfg, actions).value;
      Entered(s.sent, SCHEDULED) == Started(s.sent, SCHEDULED) + Waiting(s.at[SCHEDULED_JOBS], SCHEDULED)
  {
    hide Run;
    StartsInOrder(cfg, actions, SCHEDULED);
    RunSafe(cfg, actions);
    NoneNew(cfg, Run(cfg, actions).value);
  }

  // ---------------------------------------------------------------- every job comes to an end

  /** Twice the number of steps a job can still make, a step back into the queue counted with its runs. */
  function StepsLeft(cfg: Config): Weight {
    (p: nat, j: Job) =>
      if p == SCHEDULED_JOBS then 8 * (cfg.Runs() - j.retry)
      else if p == JOB_DONE then if j.status == RETRY then 8 * (cfg.Runs() - j.retry) + 2 else 2
      else if p == FINISHED then 0
      else if p == HELD then 8 * (cfg.Runs() - j.retry) - 1
      else if p < 4 + |cfg.slaves| then 8 * (cfg.Runs() - j.retry) - 2
      else 8 * (cfg.Runs() - j.retry) - 4
  }

  function Total(values: seq<nat>): nat {
    if values == [] then 0 else Total(values[..|values| - 1]) + values[|values| - 1]
  }

  lemma {:induction false} TotalUpdate(values: seq<nat>, k: nat, v: nat)
    requires k < |values|
    ensures Total(values[k := v]) == Total(values) - values[k] + v
  {
    var n := |values| - 1;
    assert values[k := v][..n] == if k < n then values[..n][k := v] else values[..n];
    if k < n { TotalUpdate(values[..n], k, v); }
  }

  /** Running executers hold a counter; it is given back a step after the job is reported done. */
  function Measure(cfg: Config, s: Sys): int { SumAll(StepsLeft(cfg), s.at) + Total(s.values) }

  lemma MoveMeasure(cfg: Config, s: Sys, p: nat, k: nat, q: nat, job: Job)
    requires p < |s.at| && q < |s.at| && p != q && k < |s.at[p]|
    ensures SumAll(StepsLeft(cfg), Move(s.at, p, k, q, job))
         == SumAll(StepsLeft(cfg), s.at) - StepsLeft(cfg)(p, s.at[p][k]) + StepsLeft(cfg)(q, job)
  {
    MoveSum(StepsLeft(cfg), s.at, p, k, q, job);
  }

  /** Every step but the arrival of a new job brings the end nearer. */
  lemma StepDecreases(cfg: Config, s: Sys, a: Action)
    requires Inv(cfg, s) && Step(cfg, s, a).Some? && !a.Accept?
    ensures Measure(cfg, Step(cfg, s, a).value) < Measure(cfg, s)
  {
    hide Once, ActiveOk, RecordOf, NextName, NameAfter, HasSlave, Contains, JobsOk, Total, SumAll;
    match a
    case Begin =>
      JobsOkAt(cfg, s, SCHEDULED_JOBS, 0);
      MoveMeasure(cfg, s, SCHEDULED_JOBS, 0, HELD, s.at[SCHEDULED_JOBS][0].(status := PRODUCING));
    case Send(slave) =>
      MoveMeasure(cfg, s, HELD, 0, cfg.QueueOf(slave), s.at[HELD][0]);
    case Take(slave) =>
      MoveMeasure(cfg, s, cfg.QueueOf(slave), 0, cfg.RunningAt(slave), s.at[cfg.QueueOf(slave)][0]);
      TotalUpdate(s.values, slave, s.values[slave] + 1);
    case Finish(slave, k, outcome) =>
      var job := s.at[cfg.RunningAt(slave)][k];
      JobsOkAt(cfg, s, cfg.RunningAt(slave), k);
      MoveMeasure(cfg, s, cfg.RunningAt(slave), k, JOB_DONE, Decide(cfg.pipelineRetry, job, outcome));
    case Release(slave) => TotalUpdate(s.values, slave, s.values[slave] - 1);
    case Done =>
      var job := Renamed(s.at[JOB_DONE][0]);
      JobsOkAt(cfg, s, JOB_DONE, 0);
      MoveMeasure(cfg, s, JOB_DONE, 0, if job.status == RETRY then SCHEDULED_JOBS else FINISHED, job);
  }

  lemma {:induction false} SumNatural(f: Weight, at: seq<seq<Job>>)
    requires forall p, k :: 0 <= p < |at| && 0 <= k < |at[p]| ==> f(p, at[p][k]) >= 0
    ensures SumAll(f, at) >= 0
  {
    if at != [] {
      var n := |at| - 1;
      assert forall p :: 0 <= p < n ==> at[..n][p] == at[p];
      SumNatural(f, at[..n]);
      SumNaturalIn(f, n, at[n]);
    }
  }

  lemma {:induction false} SumNaturalIn(f: Weight, p: nat, jobs: seq<Job>)
    requires forall k :: 0 <= k < |jobs| ==> f(p, jobs[k]) >= 0
    ensures Sum(f, p, jobs) >= 0
  {
    if jobs != [] { SumNaturalIn(f, p, jobs[..|jobs| - 1]); }
  }

  lemma MeasureNatural(cfg: Config, s: Sys)
    requires Inv(cfg, s)
    ensures Measure(cfg, s) >= 0
  {
    forall p, k | 0 <= p < |s.at| && 0 <= k < |s.at[p]| ensures StepsLeft(cfg)(p, s.at[p][k]) >= 0 {
      JobsOkAt(cfg, s, p, k);
    }
    SumNatural(StepsLeft(cfg), s.at);
  }

  function Continue(cfg: Config, s: Sys, actions: seq<Action>): (r: Option<Sys>)
    requires Shaped(cfg, s)
    ensures r.Some? ==> Shaped(cfg, r.value)
  {
    if actions == [] then Some(s)
    else match Continue(cfg, s, actions[..|actions| - 1])
      case None => None
      case Some(t) => Step(cfg, t, actions[|actions| - 1])
  }

  /** Without new jobs, no run goes on for longer than the measure. */
  lemma {:induction false} RunsEnd(cfg: Config, s: Sys, more: seq<Action>)
    requires Inv(cfg, s) && Continue(cfg, s, more).Some?
    requires forall i :: 0 <= i < |more| ==> !more[i].Accept?
    ensures Inv(cfg, Continue(cfg, s, more).value)
    ensures 0 <= Measure(cfg, Continue(cfg, s, more).value) <= Measure(cfg, s) - |more|
  {
    if more != [] {
      var front := more[..|more| - 1];
      RunsEnd(cfg, s, front);
      var t := Continue(cfg, s, front).value;
      StepSafe(cfg, t, more[|more| - 1]);
      StepDecreases(cfg, t, more[|more| - 1]);
      MeasureNatural(cfg, Step(cfg, t, more[|more| - 1]).value);
    } else {
      MeasureNatural(cfg, s);
    }
  }

  /** Nothing is left to do. */
  ghost predicate AllFinished(cfg: Config, s: Sys)
    requires Shaped(cfg, s)
  {
    && (forall p :: 0 <= p < |s.at| && p != FINISHED ==> s.at[p] == [])
    && (forall k :: 0 <= k < |cfg.slaves| ==> s.values[k] == 0)
  }

  /** The job handler holds a job for which there is no slave: it has failed on it, and goes on no more. */
  predicate HandlerFailed(cfg: Config, s: Sys)
    requires Shaped(cfg, s)
  {
    s.at[HELD] != [] && !HasSlave(cfg, s.at[HELD][0].destination)
  }

  /** As long as not all jobs are finished and the job handler has not failed some process can go on. */
  lemma NotStuck(cfg: Config, s: Sys)
    requires Inv(cfg, s) && cfg.parallelJobs > 0 && cfg.slavesFound > 0 && cfg.slaveJobs > 0
    ensures AllFinished(cfg, s) || HandlerFailed(cfg, s) || exists a: Action :: !a.Accept? && Step(cfg, s, a).Some?
  {
    hide Once, ActiveOk, RecordOf, NameAfter, HasSlave, Shortest;
    if k :| 0 <= k < |cfg.slaves| && s.values[k] > |s.at[cfg.RunningAt(k)]| {
      assert Step(cfg, s, Release(k)).Some?;
    } else if s.at[HELD] != [] {
      if HasSlave(cfg, s.at[HELD][0].destination) {
        var slave := ShortestExists(cfg, s.at, s.at[HELD][0].destination);
        assert Step(cfg, s, Send(slave)).Some?;
      }
    } else if s.at[JOB_DONE] != [] {
      assert Step(cfg, s, Done).Some?;
    } else if k :| 0 <= k < |cfg.slaves| && s.at[cfg.RunningAt(k)] != [] {
      assert Step(cfg, s, Finish(k, 0, Succeeded)).Some?;
    } else if k :| 0 <= k < |cfg.slaves| && s.at[cfg.QueueOf(k)] != [] {
      assert Step(cfg, s, Take(k)).Some?;
    } else {
      OthersEmpty(cfg, s);
      if s.at[SCHEDULED_JOBS] != [] {
        NothingActive(cfg, s);
        PositiveProduct(cfg.parallelJobs, cfg.slavesFound);
        assert Step(cfg, s, Begin).Some?;
      }
    }
  }

  lemma OthersEmpty(cfg: Config, s: Sys)
    requires Shaped(cfg, s) && s.at[JOB_DONE] == [] && s.at[HELD] == []
    requires forall k :: 0 <= k < |cfg.slaves| ==> s.at[cfg.RunningAt(k)] == [] && s.at[cfg.QueueOf(k)] == []
    ensures forall p :: 0 <= p < |s.at| && p != FINISHED && p != SCHEDULED_JOBS ==> s.at[p] == []
  {
    forall p | 0 <= p < |s.at| && p != FINISHED && p != SCHEDULED_JOBS ensures s.at[p] == [] {
      if p >= 4 + |cfg.slaves| {
        assert p == cfg.RunningAt(p - 4 - |cfg.slaves|);
      } else if p >= 4 {
        assert p == cfg.QueueOf(p - 4);
      }
    }
  }

  lemma PositiveProduct(a: nat, b: nat)
    requires a > 0 && b > 0
    ensures a * b > 0
  {
  }

  lemma ShortestExists(cfg: Config, at: seq<seq<Job>>, destination: string) returns (slave: nat)
    requires |at| == cfg.Places() && HasSlave(cfg, destination)
    ensures Shortest(cfg, at, destination, slave)
  {
    hide Contains;
    slave :| slave < |cfg.slaves| && Matches(cfg, slave, destination);
    for n := 0 to |cfg.slaves|
      invariant Matches(cfg, slave, destination)
      invariant forall k :: 0 <= k < n && Matches(cfg, k, destination) ==>
        |at[cfg.QueueOf(slave)]| <= |at[cfg.QueueOf(k)]|
    {
      if Matches(cfg, n, destination) && |at[cfg.QueueOf(n)]| < |at[cfg.QueueOf(slave)]| { slave := n; }
    }
  }

  /** With nothing on its way through a slave the active list is empty. */
  lemma NothingActive(cfg: Config, s: Sys)
    requires Inv(cfg, s)
    requires forall p :: 0 <= p < |s.at| && p != FINISHED && p != SCHEDULED_JOBS ==> s.at[p] == []
    ensures |s.active| == 0
  {
    forall id ensures id !in s.active {
      SumAllZero(HereActive(id), s.at);
    }
    assert s.active == map[];
  }

  /** A finished job was produced by its last run, or all the runs it may have failed. */
  lemma FinishedMeans(cfg: Config, s: Sys, k: nat)
    requires Inv(cfg, s) && k < |s.at[FINISHED]|
    ensures var j := s.at[FINISHED][k];
      var rec := RecordOf(s.sent, j.id);
      && j.id in s.accepted && (j.status == ERROR || j.status == PRODUCED) && rec.last == Some(j.status)
      && (j.status == ERROR <==> rec.fails == cfg.Runs())
      && rec.starts == rec.fails + if j.status == PRODUCED then 1 else 0
  {
  }

  /** No process can make a step, apart from new jobs. */
  ghost predicate CannotGoOn(cfg: Config, s: Sys)
    requires Shaped(cfg, s)
  {
    forall a: Action :: !a.Accept? ==> Step(cfg, s, a).None?
  }

  /** The job has come to its end. */
  ghost predicate Ended(cfg: Config, s: Sys, id: Id)
    requires Shaped(cfg, s)
  {
    exists k :: 0 <= k < |s.at[FINISHED]| && s.at[FINISHED][k].id == id &&
      (s.at[FINISHED][k].status == ERROR || s.at[FINISHED][k].status == PRODUCED)
  }

  /** A job that has ended has a slave for its destination. */
  lemma EndedHasSlave(cfg: Config, s: Sys, id: Id)
    requires Inv(cfg, s) && Ended(cfg, s, id)
    ensures id in s.accepted && HasSlave(cfg, s.accepted[id].destination)
  {
    var k :| 0 <= k < |s.at[FINISHED]| && s.at[FINISHED][k].id == id;
    JobsOkAt(cfg, s, FINISHED, k);
  }

  /** The job that the job handler has failed on is one that was accepted without a slave for it. */
  lemma FailedOn(cfg: Config, s: Sys)
    requires Inv(cfg, s) && HandlerFailed(cfg, s)
    ensures var id := s.at[HELD][0].id; id in s.accepted && !HasSlave(cfg, s.accepted[id].destination)
  {
  }

  /** Once no more jobs arrive, a run that goes on until no process can, which RunsEnd bounds, has finished
      every job that was ever accepted exactly if there was a slave for the destination of each of them. */
  lemma EveryJobFinishesIff(cfg: Config, actions: seq<Action>, more: seq<Action>)
    requires cfg.parallelJobs > 0 && cfg.slavesFound > 0 && cfg.slaveJobs > 0
    requires Run(cfg, actions).Some? && Continue(cfg, Run(cfg, actions).value, more).Some?
    requires forall i :: 0 <= i < |more| ==> !more[i].Accept?
    requires CannotGoOn(cfg, Continue(cfg, Run(cfg, actions).value, more).value)
    ensures var s := Continue(cfg, Run(cfg, actions).value, more).value;
      (forall id :: id in s.accepted ==> Ended(cfg, s, id))
      <==> forall id :: id in s.accepted ==> HasSlave(cfg, s.accepted[id].destination)
  {
    var s := Continue(cfg, Run(cfg, actions).value, more).value;
    hide Occurs, RecordOf, NameAfter, Step, Run, Continue, HasSlave;
    RunSafe(cfg, actions);
    RunsEnd(cfg, Run(cfg, actions).value, more);
    NotStuck(cfg, s);
    if HandlerFailed(cfg, s) {
      FailedOn(cfg, s);
    } else {
      forall id | id in s.accepted ensures Ended(cfg, s, id) {
        var p, k := FindIn(s.at, id);
        FinishedMeans(cfg, s, k);
      }
    }
    forall id | Ended(cfg, s, id) ensures id in s.accepted && HasSlave(cfg, s.accepted[id].destination) {
      EndedHasSlave(cfg, s, id);
    }
  }
}
