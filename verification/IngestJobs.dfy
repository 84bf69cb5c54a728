/** The life of ingest jobs between the processes of master and slaves, as a state machine over the
    queues that connect them. Every step is that of one process, in any interleaving: it takes a job from one
    place and puts it in another, together with the update it sends and the entries of its own it changes. */
module IngestJobs {
  import opened Options

  // job_parser.py
  const RETRY := -2
  const ERROR := -1
  const HOLD := 0
  const SCHEDULED := 1
  const PRODUCING := 2
  const PRODUCED := 3

  type Id = string

  datatype Job = Job(id: Id, group: string, jobType: string, destination: string, filename: string, status: int,
                     retry: int)

  /** How a run of the pipeline ends, as the executer sees it. */
  datatype Outcome = Succeeded | NoSource | AlreadyInLTA | NoProject | Failed | Unexpected

  /** A message to the queue handler; the first one of a job has no old status. */
  datatype Update = Update(id: Id, before: Option<int>, after: int)

  datatype Config = Config(slaves: seq<string>, parallelJobs: nat, slaveJobs: nat, slavesFound: nat,
                           pipelineRetry: int)
  {
    function Runs(): nat { if pipelineRetry > 1 then pipelineRetry else 1 }

    /** Where the jobs can be: four places of the master, then the queue and the executers of each slave. */
    function Places(): nat { 4 + 2 * |slaves| }
    function QueueOf(slave: nat): nat { 4 + slave }
    function RunningAt(slave: nat): nat { 4 + |slaves| + slave }
  }

  const SCHEDULED_JOBS := 0
  const JOB_DONE := 1
  const FINISHED := 2
  // with the job handler, between the queue of scheduled jobs and that of a slave
  const HELD := 3

  /** Jobs by place; the master's active list; how many executers each slave counts; all updates sent. */
  datatype Sys = Sys(at: seq<seq<Job>>, active: map<Id, Job>, values: seq<nat>, sent: seq<Update>,
                     accepted: map<Id, Job>)

  /** What the processes do: the queue handler schedules a new job; the job handler takes a scheduled job,
      tells the queue handler and makes it active, and then looks for a slave and puts the job in its queue; a
      slave gives a job to an executer; the executer reports the job done, in one call to the master, and later
      lowers the slave's count; the job handler handles a job that was reported done. */
  datatype Action =
    | Accept(job: Job)
    | Begin
    | Send(slave: nat)
    | Take(slave: nat)
    | Finish(slave: nat, k: nat, outcome: Outcome)
    | Release(slave: nat)
    | Done

  // ---------------------------------------------------------------- decisions

  /** executer.run: the status after a pipeline run, and the retry count. */
  function Decide(pipelineRetry: int, job: Job, outcome: Outcome): Job {
    match outcome
    case Succeeded | NoSource | AlreadyInLTA => job.(status := PRODUCED)
    case NoProject | Failed | Unexpected =>
      job.(retry := job.retry + 1, status := if job.retry + 1 < pipelineRetry then RETRY else ERROR)
  }

  /** update_file: the number of failed runs is kept in the suffix of the file name. */
  function Renamed(job: Job): Job {
    if job.status == PRODUCED then job else job.(filename := NextName(job.filename))
  }

  /** Some slave matches the destination. */
  predicate HasSlave(cfg: Config, destination: string) {
    exists k :: 0 <= k < |cfg.slaves| && Matches(cfg, k, destination)
  }

  predicate Matches(cfg: Config, slave: nat, destination: string) {
    slave < |cfg.slaves| && Contains(cfg.slaves[slave], destination)
  }

  /** Python's substring test. */
  predicate Contains(s: string, part: string) {
    exists i :: 0 <= i <= |s| - |part| && OccursAt(s, part, i)
  }

  predicate OccursAt(s: string, part: string, i: nat)
    requires i + |part| <= |s|
  {
    s[i..i + |part|] == part
  }

  /** A string contains what stands between any two others. */
  lemma ContainsIff(s: string, part: string)
    ensures Contains(s, part) <==> exists before: string, after: string :: s == before + part + after
  {
    if i :| 0 <= i <= |s| - |part| && OccursAt(s, part, i) {
      assert s == s[..i] + part + s[i + |part|..];
    }
    if before: string, after: string :| s == before + part + after {
      assert OccursAt(s, part, |before|);
    }
  }

  /** get_slave: a matching slave with a shortest queue. */
  predicate Shortest(cfg: Config, at: seq<seq<Job>>, destination: string, slave: nat)
    requires |at| == cfg.Places()
  {
    Matches(cfg, slave, destination) &&
    forall k :: 0 <= k < |cfg.slaves| && Matches(cfg, k, destination) ==>
      |at[cfg.QueueOf(slave)]| <= |at[cfg.QueueOf(k)]|
  }

  // ---------------------------------------------------------------- steps

  function Move(at: seq<seq<Job>>, p: nat, k: nat, q: nat, job: Job): (r: seq<seq<Job>>)
    requires p < |at| && q < |at| && p != q && k < |at[p]|
    ensures |r| == |at|
  {
    at[p := at[p][..k] + at[p][k + 1..]][q := at[q] + [job]]
  }

  predicate Shaped(cfg: Config, s: Sys) { |s.at| == cfg.Places() && |s.values| == |cfg.slaves| }

  function Step(cfg: Config, s: Sys, a: Action): (r: Option<Sys>)
    requires Shaped(cfg, s)
    ensures r.Some? ==> Shaped(cfg, r.value)
  {
    match a
    case Accept(job) =>
      if job.id !in s.accepted && job.status == SCHEDULED && job.retry == 0
      then Some(s.(at := s.at[SCHEDULED_JOBS := s.at[SCHEDULED_JOBS] + [job]],
                   sent := s.sent + [Update(job.id, None, SCHEDULED)], accepted := s.accepted[job.id := job]))
      else None
    case Begin =>
      if |s.active| < cfg.parallelJobs * cfg.slavesFound && s.at[SCHEDULED_JOBS] != [] && s.at[HELD] == []
      then
        var job := s.at[SCHEDULED_JOBS][0];
        var started := job.(status := PRODUCING);
        Some(s.(at := Move(s.at, SCHEDULED_JOBS, 0, HELD, started), active := s.active[job.id := started],
                sent := s.sent + [Update(job.id, Some(job.status), PRODUCING)]))
      else None
    case Send(slave) =>
      if s.at[HELD] != [] && Shortest(cfg, s.at, s.at[HELD][0].destination, slave)
      then Some(s.(at := Move(s.at, HELD, 0, cfg.QueueOf(slave), s.at[HELD][0])))
      else None
    case Take(slave) =>
      if slave < |cfg.slaves| && s.values[slave] < cfg.slaveJobs && s.at[cfg.QueueOf(slave)] != []
      then Some(s.(at := Move(s.at, cfg.QueueOf(slave), 0, cfg.RunningAt(slave), s.at[cfg.QueueOf(slave)][0]),
                   values := s.values[slave := s.values[slave] + 1]))
      else None
    case Finish(slave, k, outcome) =>
      if slave < |cfg.slaves| && k < |s.at[cfg.RunningAt(slave)]|
      then
        var job := Decide(cfg.pipelineRetry, s.at[cfg.RunningAt(slave)][k], outcome);
        Some(s.(at := Move(s.at, cfg.RunningAt(slave), k, JOB_DONE, job),
                sent := s.sent + [Update(job.id, Some(PRODUCING), job.status)]))
      else None
    case Release(slave) =>
      if slave < |cfg.slaves| && s.values[slave] > |s.at[cfg.RunningAt(slave)]|
      then Some(s.(values := s.values[slave := s.values[slave] - 1]))
      else None
    case Done =>
      if s.at[JOB_DONE] != [] && s.at[HELD] == []
      then
        var job := Renamed(s.at[JOB_DONE][0]);
        Some(s.(at := Move(s.at, JOB_DONE, 0, if job.status == RETRY then SCHEDULED_JOBS else FINISHED, job),
                active := s.active - {job.id}))
      else None
  }

  function Initial(cfg: Config): (s: Sys)
    ensures Shaped(cfg, s)
  {
    Sys(seq(cfg.Places(), _ => []), map[], seq(|cfg.slaves|, _ => 0), [], map[])
  }

  function Run(cfg: Config, actions: seq<Action>): (r: Option<Sys>)
    ensures r.Some? ==> Shaped(cfg, r.value)
  {
    if actions == [] then Some(Initial(cfg))
    else match Run(cfg, actions[..|actions| - 1])
      case None => None
      case Some(s) => Step(cfg, s, actions[|actions| - 1])
  }

  // ---------------------------------------------------------------- file names

  predicate IsDigit(c: char) { '0' <= c <= '9' }

  /** Python's isdigit. */
  predicate IsDigits(s: string) { s != "" && forall i :: 0 <= i < |s| ==> IsDigit(s[i]) }

  /** The part after the last dot, the whole name if there is none. */
  function LastPart(s: string): string {
    if s == "" || s[|s| - 1] == '.' then "" else LastPart(s[..|s| - 1]) + [s[|s| - 1]]
  }

  function Value(s: string): nat
    requires forall i :: 0 <= i < |s| ==> IsDigit(s[i])
  {
    if s == "" then 0
    else
      assert IsDigit(s[|s| - 1]);
      10 * Value(s[..|s| - 1]) + (s[|s| - 1] as int - '0' as int)
  }

  function Decimal(n: nat): (s: string)
    ensures IsDigits(s)
  {
    var d := [('0' as int + n % 10) as char];
    if n < 10 then d else Decimal(n / 10) + d
  }

  function NextName(name: string): string {
    var suffix := LastPart(name);
    if IsDigits(suffix) then
      LastPartLength(name);
      name[..|name| - |suffix|] + Decimal(Value(suffix) + 1)
    else name + ".1"
  }

  lemma {:induction false} LastPartLength(s: string)
    ensures |LastPart(s)| <= |s| && s[|s| - |LastPart(s)|..] == LastPart(s)
  {
    if s != "" && s[|s| - 1] != '.' { LastPartLength(s[..|s| - 1]); }
  }

  lemma {:induction false} ValueDecimal(n: nat)
    ensures Value(Decimal(n)) == n
  {
    var s := Decimal(n);
    if n >= 10 {
      ValueDecimal(n / 10);
      assert s[..|s| - 1] == Decimal(n / 10);
    } else {
      assert s[..0] == "" && Value("") == 0;
    }
  }

  /** Decimal digits, no zero in front, and how they are read. */
  lemma DecimalDigits(n: nat, d: nat)
    requires d < 10
    ensures Decimal(10 * n + d) == (if n == 0 then "" else Decimal(n)) + ["0123456789"[d]]
    ensures Value(Decimal(n) + ["0123456789"[d]]) == 10 * n + d
  {
    assert "0123456789"[d] == ('0' as int + d) as char;
    assert (10 * n + d) / 10 == n && (10 * n + d) % 10 == d;
    ValueDecimal(n);
    var s := Decimal(n) + ["0123456789"[d]];
    assert s[..|s| - 1] == Decimal(n);
  }

  predicate IsStem(s: string) { s == "" || s[|s| - 1] == '.' }

  lemma {:induction false} LastPartOf(stem: string, digits: string)
    requires IsStem(stem) && forall i :: 0 <= i < |digits| ==> digits[i] != '.'
    ensures LastPart(stem + digits) == digits
  {
    var s := stem + digits;
    if digits != "" {
      assert s[..|s| - 1] == stem + digits[..|digits| - 1];
      LastPartOf(stem, digits[..|digits| - 1]);
    } else {
      assert s == stem;
    }
  }

  /** A number at the end is counted up. */
  lemma NextNumber(stem: string, n: nat)
    requires IsStem(stem)
    ensures NextName(stem + Decimal(n)) == stem + Decimal(n + 1)
  {
    var d := Decimal(n);
    hide Decimal, LastPart, Value;
    LastPartOf(stem, d);
    ValueDecimal(n);
    assert (stem + d)[..|stem + d| - |d|] == stem;
  }

  /** The name after k failed runs. */
  function NameAfter(name: string, k: nat): string { if k == 0 then name else NextName(NameAfter(name, k - 1)) }

  /** A name that does not end in a number gets the number of failed runs as its suffix. */
  lemma {:induction false} SuffixCountsFailures(name: string, k: nat)
    requires !IsDigits(LastPart(name))
    ensures NameAfter(name, k) == if k == 0 then name else name + "." + Decimal(k)
  {
    if k == 1 {
      assert NameAfter(name, 0) == name;
      assert Decimal(1) == "1";
    } else if k > 1 {
      SuffixCountsFailures(name, k - 1);
      NextNumber(name + ".", k - 1);
    }
  }

  lemma FirstNumber(name: string)
    requires IsDigits(LastPart(name))
    ensures |LastPart(name)| <= |name|
    ensures NextName(name) == name[..|name| - |LastPart(name)|] + Decimal(Value(LastPart(name)) + 1)
  {
    hide Decimal, Value, LastPart;
    LastPartLength(name);
  }

  /** A name that ends in a number, with a dot or nothing before it, counts on from there. */
  lemma {:induction false} SuffixCountsOn(name: string, k: nat)
    requires IsDigits(LastPart(name)) && k > 0
    ensures |LastPart(name)| <= |name|
    ensures NameAfter(name, k)
         == name[..|name| - |LastPart(name)|] + Decimal(Value(LastPart(name)) + k)
  {
    hide Decimal, Value, LastPart, NextName;
    StemEndsWithDot(name);
    if k == 1 {
      assert NameAfter(name, 0) == name;
      FirstNumber(name);
    } else {
      SuffixCountsOn(name, k - 1);
      NextNumber(name[..|name| - |LastPart(name)|], Value(LastPart(name)) + k - 1);
    }
  }

  lemma {:induction false} StemEndsWithDot(name: string)
    ensures |LastPart(name)| <= |name| && IsStem(name[..|name| - |LastPart(name)|])
  {
    if name != "" && name[|name| - 1] != '.' {
      StemEndsWithDot(name[..|name| - 1]);
    }
  }
}
