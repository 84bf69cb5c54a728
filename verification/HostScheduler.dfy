/** The stand-alone mode of the ingest pipeline: a directory of jobs is run with at most one pipeline for
    each source host. */
module HostSchedulers {
  import opened Options

  datatype Job = Job(id: string, host: string, filename: string)

  /** A pipeline in its thread, and for how many more checks the thread is alive. */
  datatype Pipeline = Pipeline(job: Job, left: nat)

  type Queues = map<string, seq<Job>>
  type Pipelines = map<string, Pipeline>

  function Of(q: map<string, seq<Job>>, host: string): seq<Job> { if host in q then q[host] else [] }

  // ---------------------------------------------------------------- the order of the files

  /** The file is that of a job for the host. */
  predicate IsFor(path: string, parse: string -> Option<Job>, host: string) {
    parse(path).Some? && parse(path).value.host == host
  }

  /** The job is the one of the file, with its name. */
  predicate IsJobOf(job: Job, path: string, parse: string -> Option<Job>, host: string) {
    IsFor(path, parse, host) && job == parse(path).value.(filename := path)
  }

  /** The job at each place of the queue is that of the file at the place at of the list, with its file name; the
      places ascend, and every file of a job for the host has its place. */
  ghost predicate PlacedBy(at: seq<int>, queue: seq<Job>, paths: seq<string>, parse: string -> Option<Job>,
                           host: string) {
    && |at| == |queue|
    && (forall q :: 0 <= q < |at| ==> 0 <= at[q] < |paths| && IsJobOf(queue[q], paths[at[q]], parse, host))
    && (forall q, r :: 0 <= q < r < |at| ==> at[q] < at[r])
    && HasAll(at, paths, parse, host)
  }

  ghost predicate HasAll(at: seq<int>, paths: seq<string>, parse: string -> Option<Job>, host: string) {
    forall i :: 0 <= i < |paths| && IsFor(paths[i], parse, host) ==> i in at
  }

  /** The jobs of one host, first in first out in the order of the files. */
  ghost predicate InFileOrder(queue: seq<Job>, paths: seq<string>, parse: string -> Option<Job>, host: string) {
    exists at: seq<int> :: PlacedBy(at, queue, paths, parse, host)
  }

  /** The queue of a host once one more file has been looked at. */
  function WithFile(queue: seq<Job>, path: string, parse: string -> Option<Job>, host: string): seq<Job> {
    if IsFor(path, parse, host) then queue + [parse(path).value.(filename := path)] else queue
  }

  lemma {:induction false} NextFile(queue: seq<Job>, paths: seq<string>, parse: string -> Option<Job>, host: string,
                                    path: string)
    requires InFileOrder(queue, paths, parse, host)
    ensures InFileOrder(WithFile(queue, path, parse, host), paths + [path], parse, host)
  {
    var at: seq<int> :| PlacedBy(at, queue, paths, parse, host);
    hide PlacedBy;
    if IsFor(path, parse, host) {
      OneMore(at, queue, paths, parse, host, path, parse(path).value.(filename := path));
    } else {
      NoneMore(at, queue, paths, parse, host, path);
    }
  }

  lemma {:induction false} OneMore(at: seq<int>, queue: seq<Job>, paths: seq<string>, parse: string -> Option<Job>,
                                   host: string, path: string, job: Job)
    requires PlacedBy(at, queue, paths, parse, host) && IsJobOf(job, path, parse, host)
    ensures PlacedBy(at + [|paths|], queue + [job], paths + [path], parse, host)
  {
    HasAllMore(at, paths, parse, host, path);
    hide IsJobOf, IsFor, HasAll;
    var n := |paths|;
    var more, files := at + [n], paths + [path];
    assert forall q :: 0 <= q < |at| ==> more[q] == at[q] && files[more[q]] == paths[at[q]];
    assert more[|at|] == n && files[n] == path;
  }

  lemma {:induction false} HasAllMore(at: seq<int>, paths: seq<string>, parse: string -> Option<Job>, host: string,
                                      path: string)
    requires HasAll(at, paths, parse, host)
    ensures HasAll(at + [|paths|], paths + [path], parse, host)
  {
    hide IsFor;
    var more := at + [|paths|];
    assert more[|at|] == |paths|;
  }

  lemma {:induction false} NoneMore(at: seq<int>, queue: seq<Job>, paths: seq<string>, parse: string -> Option<Job>,
                                    host: string, path: string)
    requires PlacedBy(at, queue, paths, parse, host) && !IsFor(path, parse, host)
    ensures PlacedBy(at, queue, paths + [path], parse, host)
  {
  }

  lemma {:induction false} NoFile(parse: string -> Option<Job>, host: string)
    ensures InFileOrder([], [], parse, host)
  {
    assert PlacedBy([], [], [], parse, host);
  }

  /** Of two files of jobs for one host, the earlier one's job has the earlier place. */
  lemma {:induction false} EarlierFileFirst(queue: seq<Job>, paths: seq<string>, parse: string -> Option<Job>,
                                            host: string, i: nat, j: nat)
    returns (q: nat, r: nat)
    requires InFileOrder(queue, paths, parse, host) && i < j < |paths|
    requires IsFor(paths[i], parse, host) && IsFor(paths[j], parse, host)
    ensures q < r < |queue|
    ensures IsJobOf(queue[q], paths[i], parse, host) && IsJobOf(queue[r], paths[j], parse, host)
  {
    var at: seq<int> :| PlacedBy(at, queue, paths, parse, host);
    q, r := EarlierPlaced(at, queue, paths, parse, host, i, j);
  }

  lemma {:induction false} EarlierPlaced(at: seq<int>, queue: seq<Job>, paths: seq<string>,
                                         parse: string -> Option<Job>, host: string, i: nat, j: nat)
    returns (q: nat, r: nat)
    requires PlacedBy(at, queue, paths, parse, host) && i < j < |paths|
    requires IsFor(paths[i], parse, host) && IsFor(paths[j], parse, host)
    ensures q < r < |queue|
    ensures IsJobOf(queue[q], paths[i], parse, host) && IsJobOf(queue[r], paths[j], parse, host)
  {
    hide PlacedBy, IsFor, IsJobOf;
    q := PlaceOf(at, queue, paths, parse, host, i);
    r := PlaceOf(at, queue, paths, parse, host, j);
    Ascends(at, queue, paths, parse, host, r, q);
  }

  lemma {:induction false} Ascends(at: seq<int>, queue: seq<Job>, paths: seq<string>, parse: string -> Option<Job>,
                                   host: string, q: nat, r: nat)
    requires PlacedBy(at, queue, paths, parse, host) && q < |at| && r < |at|
    ensures q < r ==> at[q] < at[r]
  {
  }

  lemma {:induction false} PlaceOf(at: seq<int>, queue: seq<Job>, paths: seq<string>, parse: string -> Option<Job>,
                                   host: string, i: nat)
    returns (q: nat)
    requires PlacedBy(at, queue, paths, parse, host) && i < |paths| && IsFor(paths[i], parse, host)
    ensures q < |at| == |queue| && at[q] == i && IsJobOf(queue[q], paths[i], parse, host)
  {
    q :| 0 <= q < |at| && at[q] == i;
    assert IsJobOf(queue[q], paths[at[q]], parse, host);
  }

  // ---------------------------------------------------------------- how much is left to do

  function Work(lifetime: Job -> nat, jobs: seq<Job>): nat {
    if jobs == [] then 0 else lifetime(jobs[0]) + 2 + Work(lifetime, jobs[1..])
  }

  function Weight(lifetime: Job -> nat, queues: Queues, running: Pipelines, host: string): nat {
    (if host in queues then 1 + Work(lifetime, queues[host]) else 0) +
    (if host in running then 1 + running[host].left else 0)
  }

  function Total(lifetime: Job -> nat, queues: Queues, running: Pipelines, hosts: seq<string>): nat {
    if hosts == [] then 0
    else Weight(lifetime, queues, running, hosts[0]) + Total(lifetime, queues, running, hosts[1..])
  }

  lemma {:induction false} TotalShrinks(lifetime: Job -> nat, q1: Queues, r1: Pipelines, q2: Queues, r2: Pipelines,
                                        hosts: seq<string>)
    requires forall h :: h in hosts ==> Weight(lifetime, q2, r2, h) <= Weight(lifetime, q1, r1, h)
    ensures Total(lifetime, q2, r2, hosts) <= Total(lifetime, q1, r1, hosts)
    ensures (exists h :: h in hosts && Weight(lifetime, q2, r2, h) < Weight(lifetime, q1, r1, h)) ==>
      Total(lifetime, q2, r2, hosts) < Total(lifetime, q1, r1, hosts)
  {
    if hosts != [] {
      TotalShrinks(lifetime, q1, r1, q2, r2, hosts[1..]);
      assert hosts == [hosts[0]] + hosts[1..];
    }
  }

  /** The jobs of a host are those started and those still waiting, in this order; those started are those
      finished and the one that is running. */
  predicate HostOk(parsed: Queues, started: Queues, finished: Queues, queues: Queues, running: Pipelines, h: string) {
    && Of(started, h) + Of(queues, h) == Of(parsed, h)
    && Of(finished, h) + (if h in running then [running[h].job] else []) == Of(started, h)
  }

  ghost predicate Accounted(parsed: Queues, started: Queues, finished: Queues, queues: Queues, running: Pipelines) {
    forall h :: HostOk(parsed, started, finished, queues, running, h)
  }

  lemma DropKeeps(parsed: Queues, started: Queues, finished: Queues, queues: Queues, running: Pipelines, host: string)
    requires Accounted(parsed, started, finished, queues, running) && Of(queues, host) == []
    ensures Accounted(parsed, started, finished, queues - {host}, running)
  {
    forall h ensures HostOk(parsed, started, finished, queues - {host}, running, h) {
      assert HostOk(parsed, started, finished, queues, running, h);
    }
  }

  lemma StartKeeps(parsed: Queues, started: Queues, finished: Queues, queues: Queues, running: Pipelines, host: string,
                   left: nat)
    requires Accounted(parsed, started, finished, queues, running)
    requires host in queues && queues[host] != [] && host !in running
    ensures var job := queues[host][0];
      Accounted(parsed, started[host := Of(started, host) + [job]], finished, queues[host := queues[host][1..]],
                running[host := Pipeline(job, left)])
  {
    var job, running2 := queues[host][0], running[host := Pipeline(queues[host][0], left)];
    var started2, queues2 := started[host := Of(started, host) + [job]], queues[host := queues[host][1..]];
    Shift(Of(started, host), queues[host]);
    forall h ensures HostOk(parsed, started2, finished, queues2, running2, h) {
      assert HostOk(parsed, started, finished, queues, running, h);
      assert Of(finished, h) + [] == Of(finished, h);
    }
  }

  lemma Shift(a: seq<Job>, q: seq<Job>)
    requires q != []
    ensures (a + [q[0]]) + q[1..] == a + q
  {
  }

  lemma FinishKeeps(parsed: Queues, started: Queues, finished: Queues, queues: Queues, running: Pipelines, host: string)
    requires Accounted(parsed, started, finished, queues, running) && host in running
    ensures Accounted(parsed, started, finished[host := Of(finished, host) + [running[host].job]], queues,
                      running - {host})
    ensures |running - {host}| <= |running| && (running - {host}).Keys == running.Keys - {host}
  {
    var finished2 := finished[host := Of(finished, host) + [running[host].job]];
    assert (running - {host}).Keys == running.Keys - {host};
    assert |running.Keys - {host}| <= |running.Keys|;
    forall h ensures HostOk(parsed, started, finished2, queues, running - {host}, h) {
      assert HostOk(parsed, started, finished, queues, running, h);
    }
  }

  lemma AgeKeeps(parsed: Queues, started: Queues, finished: Queues, queues: Queues, running: Pipelines, host: string,
                 left: nat)
    requires Accounted(parsed, started, finished, queues, running) && host in running
    ensures Accounted(parsed, started, finished, queues, running[host := running[host].(left := left)])
  {
    var running2 := running[host := running[host].(left := left)];
    forall h ensures HostOk(parsed, started, finished, queues, running2, h) {
      assert HostOk(parsed, started, finished, queues, running, h);
    }
  }

  lemma AllFinished(parsed: Queues, started: Queues, finished: Queues, queues: Queues, running: Pipelines)
    requires Accounted(parsed, started, finished, queues, running) && queues == map[] && running == map[]
    ensures forall h :: Of(finished, h) == Of(parsed, h)
  {
    forall h ensures Of(finished, h) == Of(parsed, h) {
      assert HostOk(parsed, started, finished, queues, running, h);
    }
  }

  /** No host has more work left in the second state. */
  ghost predicate NoMore(lifetime: Job -> nat, q1: Queues, r1: Pipelines, q2: Queues, r2: Pipelines) {
    forall h :: Weight(lifetime, q2, r2, h) <= Weight(lifetime, q1, r1, h)
  }

  predicate Less(lifetime: Job -> nat, q1: Queues, r1: Pipelines, q2: Queues, r2: Pipelines, host: string) {
    Weight(lifetime, q2, r2, host) < Weight(lifetime, q1, r1, host)
  }

  /** The pipelines of r0 but those of the hosts in todo have been looked at, which gave r. */
  ghost predicate Checked(lifetime: Job -> nat, q: Queues, r0: Pipelines, r: Pipelines, todo: set<string>) {
    forall h ::
      Weight(lifetime, q, r, h) == Weight(lifetime, q, r0, h) - if h in r0 && h !in todo then 1 else 0
  }

  lemma NoMoreSame(lifetime: Job -> nat, q: Queues, r: Pipelines)
    ensures NoMore(lifetime, q, r, q, r)
  {
  }

  lemma DropWeighs(lifetime: Job -> nat, q: Queues, r: Pipelines, host: string)
    requires host in q && q[host] == []
    ensures NoMore(lifetime, q, r, q - {host}, r) && Less(lifetime, q, r, q - {host}, r, host)
  {
  }

  lemma StartWeighs(lifetime: Job -> nat, q: Queues, r: Pipelines, host: string)
    requires host in q && q[host] != [] && host !in r
    ensures NoMore(lifetime, q, r, q[host := q[host][1..]], r[host := Pipeline(q[host][0], lifetime(q[host][0]))])
  {
    var q2, r2 := q[host := q[host][1..]], r[host := Pipeline(q[host][0], lifetime(q[host][0]))];
    OtherHosts(lifetime, q, r, q2, r2, host);
  }

  lemma NoMoreAfter(lifetime: Job -> nat, q0: Queues, r0: Pipelines, q1: Queues, r1: Pipelines, q2: Queues,
                    r2: Pipelines, host: string)
    requires NoMore(lifetime, q0, r0, q1, r1) && NoMore(lifetime, q1, r1, q2, r2)
    ensures NoMore(lifetime, q0, r0, q2, r2)
    ensures Less(lifetime, q1, r1, q2, r2, host) ==> Less(lifetime, q0, r0, q2, r2, host)
    ensures forall h :: Less(lifetime, q0, r0, q1, r1, h) ==> Less(lifetime, q0, r0, q2, r2, h)
  {
    hide Weight;
    forall h ensures Less(lifetime, q0, r0, q1, r1, h) ==> Less(lifetime, q0, r0, q2, r2, h) {
      assert Weight(lifetime, q2, r2, h) <= Weight(lifetime, q1, r1, h);
    }
    assert Weight(lifetime, q1, r1, host) <= Weight(lifetime, q0, r0, host);
  }

  class HostScheduler {
    const maxParallelJobs: nat

    /** For how many checks the pipeline of a job lasts. */
    const lifetime: Job -> nat
    var hostJobQueues: Queues
    var running: Pipelines

    /** The jobs parsed, the jobs started and the jobs finished, by host and in that order; all hosts. */
    ghost var parsed: Queues
    ghost var started: Queues
    ghost var finished: Queues
    ghost var hosts: seq<string>

    ghost predicate Valid()
      reads this
    {
      && running.Keys <= hostJobQueues.Keys && |running| <= maxParallelJobs
      && (forall h :: h in hostJobQueues ==> h in hosts)
      && Accounted(parsed, started, finished, hostJobQueues, running)
    }

    constructor (maxParallelJobs: nat, lifetime: Job -> nat)
      ensures this.maxParallelJobs == maxParallelJobs && this.lifetime == lifetime
      ensures Valid() && parsed == map[] && running == map[]
    {
      this.maxParallelJobs, this.lifetime := maxParallelJobs, lifetime;
      hostJobQueues, running := map[], map[];
      parsed, started, finished, hosts := map[], map[], map[], [];
    }

    /** Puts every job that can be parsed in the queue of its host; parse gives None for a file that cannot. */
    method Fill(jobfilepaths: seq<string>, parse: string -> Option<Job>)
      requires Valid() && parsed == map[] && started == map[] && finished == map[] && hostJobQueues == map[]
      modifies this
      ensures Valid() && forall h :: InFileOrder(Of(parsed, h), jobfilepaths, parse, h)
      ensures running == old(running) && NoneEmpty() && hostJobQueues == parsed
    {
      hide InFileOrder;
      forall h ensures InFileOrder([], [], parse, h) { NoFile(parse, h); }
      assert jobfilepaths[..0] == [];
      for k := 0 to |jobfilepaths|
        invariant Valid() && hostJobQueues == parsed && started == map[] && finished == map[] && running == old(running)
        invariant NoneEmpty() && forall h :: InFileOrder(Of(parsed, h), jobfilepaths[..k], parse, h)
      {
        assert jobfilepaths[..k + 1] == jobfilepaths[..k] + [jobfilepaths[k]];
        ghost var before := parsed;
        forall h
          ensures InFileOrder(WithFile(Of(before, h), jobfilepaths[k], parse, h), jobfilepaths[..k + 1], parse, h)
        {
          NextFile(Of(before, h), jobfilepaths[..k], parse, h, jobfilepaths[k]);
        }
        var parsedJob := parse(jobfilepaths[k]);
        if parsedJob.Some? {
          var job := parsedJob.value.(filename := jobfilepaths[k]);
          if job.host !in hostJobQueues {
            hostJobQueues := hostJobQueues[job.host := []];
            hosts := hosts + [job.host];
          }
          hostJobQueues := hostJobQueues[job.host := hostJobQueues[job.host] + [job]];
          parsed := hostJobQueues;
        }
        assert forall h :: Of(parsed, h) == WithFile(Of(before, h), jobfilepaths[k], parse, h);
      }
      assert jobfilepaths[..|jobfilepaths|] == jobfilepaths;
    }

    /** Every host has a job waiting. */
    ghost predicate NoneEmpty()
      reads this
    {
      forall h :: h in hostJobQueues ==> hostJobQueues[h] != []
    }

    /** Starts the next job of a free host if allowed; a host without jobs is dropped. */
    method StartOn(host: string)
      requires Valid() && host in hostJobQueues && host !in running
      modifies this`hostJobQueues, this`running, this`started
      ensures Valid()
      ensures old(hostJobQueues).Keys - {host} <= hostJobQueues.Keys
      ensures old(running).Keys <= running.Keys <= old(running).Keys + {host}
      ensures NoMore(lifetime, old(hostJobQueues), old(running), hostJobQueues, running)
      ensures maxParallelJobs > 0 ==>
        running != map[] || Less(lifetime, old(hostJobQueues), old(running), hostJobQueues, running, host)
      ensures maxParallelJobs == 0 && old(hostJobQueues)[host] != [] ==>
        hostJobQueues == old(hostJobQueues) && running == old(running)
    {
      hide Accounted, NoMore, Less;
      NoMoreSame(lifetime, hostJobQueues, running);
      if hostJobQueues[host] == [] {
        DropWeighs(lifetime, hostJobQueues, running, host);
        DropKeeps(parsed, started, finished, hostJobQueues, running, host);
        hostJobQueues := hostJobQueues - {host};
      } else if |running| < maxParallelJobs {
        var jobToRun := hostJobQueues[host][0];
        StartWeighs(lifetime, hostJobQueues, running, host);
        StartKeeps(parsed, started, finished, hostJobQueues, running, host, lifetime(jobToRun));
        hostJobQueues := hostJobQueues[host := hostJobQueues[host][1..]];
        started := started[host := Of(started, host) + [jobToRun]];
        running := running[host := Pipeline(jobToRun, lifetime(jobToRun))];
        assert host in running;
      }
    }

    /** Starts a pipeline on every free host that has a job, as far as allowed. */
    method StartJobs()
      requires Valid()
      modifies this`hostJobQueues, this`running, this`started
      ensures Valid() && NoMore(lifetime, old(hostJobQueues), old(running), hostJobQueues, running)
      ensures old(hostJobQueues) != map[] && maxParallelJobs > 0 ==>
        || running != map[]
        || exists h :: h in old(hostJobQueues) &&
             Less(lifetime, old(hostJobQueues), old(running), hostJobQueues, running, h)
      ensures maxParallelJobs == 0 && old(NoneEmpty()) ==>
        hostJobQueues == old(hostJobQueues) && running == old(running)
    {
      hide Valid, NoMore, Less;
      ghost var q0, r0 := hostJobQueues, running;
      var freeHosts := hostJobQueues.Keys - running.Keys;
      ghost var free := freeHosts;
      ghost var settled := false;
      NoMoreSame(lifetime, q0, r0);
      while freeHosts != {}
        invariant Valid() && freeHosts <= free
        invariant freeHosts <= hostJobQueues.Keys && freeHosts !! running.Keys && r0.Keys <= running.Keys
        invariant NoMore(lifetime, q0, r0, hostJobQueues, running)
        invariant freeHosts != free && maxParallelJobs > 0 ==>
          running != map[] || exists h :: h in q0 && Less(lifetime, q0, r0, hostJobQueues, running, h)
        invariant maxParallelJobs == 0 && old(NoneEmpty()) ==> hostJobQueues == q0 && running == r0
        decreases |freeHosts|
      {
        var host :| host in freeHosts;
        freeHosts := freeHosts - {host};
        ghost var q1, r1 := hostJobQueues, running;
        assert host in free && host in q0;
        StartOn(host);
        NoMoreAfter(lifetime, q0, r0, q1, r1, hostJobQueues, running, host);
      }
      if r0 == map[] && q0 != map[] {
        var h :| h in q0;
        assert h in free;
      } else if q0 != map[] {
        var h :| h in r0;
        assert h in running.Keys;
      }
    }

    /** Removes the host's pipeline if its thread has ended. */
    method CheckOn(host: string)
      requires Valid() && host in running
      modifies this`running, this`finished
      ensures Valid()
      ensures forall h :: h != host ==>
        (h in running <==> h in old(running)) && (h in running ==> running[h] == old(running)[h])
      ensures Weight(lifetime, hostJobQueues, running, host) + 1 == Weight(lifetime, hostJobQueues, old(running), host)
    {
      hide Accounted;
      ghost var r1 := running;
      var pipeline := running[host];
      if pipeline.left > 0 {
        AgeKeeps(parsed, started, finished, hostJobQueues, running, host, pipeline.left - 1);
        running := running[host := pipeline.(left := pipeline.left - 1)];
      } else {
        FinishKeeps(parsed, started, finished, hostJobQueues, running, host);
        running := running - {host};
        finished := finished[host := Of(finished, host) + [pipeline.job]];
      }
    }

    /** Looks at all pipelines. */
    method CheckJobs()
      requires Valid()
      modifies this`running, this`finished
      ensures Valid() && Checked(lifetime, hostJobQueues, old(running), running, {})
    {
      hide Valid, Weight;
      ghost var r0 := running;
      var busyHosts := running.Keys;
      while busyHosts != {}
        invariant Valid() && busyHosts <= running.Keys && busyHosts <= r0.Keys
        invariant forall h :: h in busyHosts ==> running[h] == r0[h]
        invariant Checked(lifetime, hostJobQueues, r0, running, busyHosts)
        decreases |busyHosts|
      {
        var host :| host in busyHosts;
        busyHosts := busyHosts - {host};
        ghost var r1 := running;
        CheckOn(host);
        OtherHosts(lifetime, hostJobQueues, r1, hostJobQueues, running, host);
        assert forall h :: h in busyHosts ==> h in running.Keys by {
          forall h | h in busyHosts ensures h in running { assert h in r1.Keys && h != host; }
        }
      }
    }

    /** One pass of the main loop. Without any pipeline allowed it does nothing while all hosts have jobs. */
    method OnePass()
      requires Valid() && hostJobQueues != map[]
      modifies this`hostJobQueues, this`running, this`started, this`finished
      ensures Valid()
      ensures maxParallelJobs > 0 ==>
        Total(lifetime, hostJobQueues, running, hosts) < Total(lifetime, old(hostJobQueues), old(running), hosts)
      ensures maxParallelJobs == 0 && old(NoneEmpty()) && old(running) == map[] ==>
        hostJobQueues == old(hostJobQueues) && running == map[]
    {
      hide Accounted, NoMore, Checked, Less, Total;
      ghost var q0, r0 := hostJobQueues, running;
      StartJobs();
      ghost var q1, r1 := hostJobQueues, running;
      CheckJobs();
      if maxParallelJobs > 0 {
        Progress(lifetime, q0, r0, q1, r1, running, hosts);
      }
    }

    /** The main loop, cut off after a number of passes. If a pipeline is allowed it has ended after some
        number of passes; if none is, and there are jobs, it goes on for ever. */
    method Passes(limit: nat) returns (ended: bool)
      requires Valid()
      modifies this`hostJobQueues, this`running, this`started, this`finished
      ensures Valid() && (ended ==> hostJobQueues == map[])
      ensures maxParallelJobs > 0 && limit >= old(Total(lifetime, hostJobQueues, running, hosts)) ==> ended
      ensures maxParallelJobs == 0 && old(NoneEmpty()) && old(running) == map[] && old(hostJobQueues) != map[] ==>
        !ended && hostJobQueues == old(hostJobQueues) && running == map[]
    {
      hide Valid, Total;
      var n := 0;
      while hostJobQueues != map[] && n < limit
        invariant Valid() && n <= limit
        invariant maxParallelJobs > 0 ==>
          Total(lifetime, hostJobQueues, running, hosts) + n <= old(Total(lifetime, hostJobQueues, running, hosts))
        invariant maxParallelJobs == 0 && old(NoneEmpty()) && old(running) == map[] ==>
          hostJobQueues == old(hostJobQueues) && running == map[]
      {
        OnePass();
        n := n + 1;
      }
      ended := hostJobQueues == map[];
      if !ended && maxParallelJobs > 0 { SomeLeft(); }
    }

    /** Hosts that are not done are counted. */
    lemma SomeLeft()
      requires Valid() && hostJobQueues != map[]
      ensures Total(lifetime, hostJobQueues, running, hosts) > 0
    {
      var h :| h in hostJobQueues;
      TotalShrinks(lifetime, hostJobQueues, running, map[], map[], hosts);
      assert Weight(lifetime, map[], map[], h) < Weight(lifetime, hostJobQueues, running, h);
    }

    /** The stand-alone mode as a whole: when it ends, the jobs of every host have been run in the order of their
        files, each of them once. */
    method RunFiles(jobfilepaths: seq<string>, parse: string -> Option<Job>)
      requires Valid() && parsed == map[] && started == map[] && finished == map[] && hostJobQueues == map[]
      requires running == map[]
      requires maxParallelJobs > 0 || forall i :: 0 <= i < |jobfilepaths| ==> parse(jobfilepaths[i]).None?
      modifies this
      ensures Valid() && running == map[] && forall h :: InFileOrder(Of(finished, h), jobfilepaths, parse, h)
    {
      Fill(jobfilepaths, parse);
      if maxParallelJobs == 0 && hostJobQueues != map[] {
        var h :| h in hostJobQueues;
        var i := SomeJob(Of(parsed, h), jobfilepaths, parse, h);
      }
      hide InFileOrder, Accounted;
      Run();
    }

    /** The main loop. It ends with every parsed job having been run exactly once, in order for each host. */
    method Run()
      requires Valid() && (maxParallelJobs > 0 || hostJobQueues == map[])
      modifies this
      ensures Valid() && running == map[] && parsed == old(parsed)
      ensures forall h :: Of(finished, h) == Of(parsed, h)
    {
      hide Accounted, NoMore, Checked, Less, Total;
      while hostJobQueues != map[]
        invariant Valid() && parsed == old(parsed) && (maxParallelJobs > 0 || hostJobQueues == map[])
        decreases Total(lifetime, hostJobQueues, running, hosts)
      {
        OnePass();
      }
      assert running.Keys <= {};
      assert running == map[];
      AllFinished(parsed, started, finished, hostJobQueues, running);
    }
  }

  lemma {:induction false} SomeJob(queue: seq<Job>, paths: seq<string>, parse: string -> Option<Job>, host: string)
    returns (i: nat)
    requires InFileOrder(queue, paths, parse, host) && queue != []
    ensures i < |paths| && parse(paths[i]).Some?
  {
    var at: seq<int> :| PlacedBy(at, queue, paths, parse, host);
    assert IsJobOf(queue[0], paths[at[0]], parse, host);
    i := at[0];
  }

  /** Only the host at hand has changed. */
  lemma OtherHosts(lifetime: Job -> nat, q1: Queues, r1: Pipelines, q2: Queues, r2: Pipelines, host: string)
    requires forall h :: h != host ==> Of(q1, h) == Of(q2, h) && (h in q1 <==> h in q2)
    requires forall h :: h != host ==> (h in r1 <==> h in r2) && (h in r1 ==> r1[h] == r2[h])
    ensures forall h :: h != host ==> Weight(lifetime, q1, r1, h) == Weight(lifetime, q2, r2, h)
  {
  }

  /** A pass of the main loop makes the work that is left smaller. */
  lemma Progress(lifetime: Job -> nat, q0: Queues, r0: Pipelines, q1: Queues, r1: Pipelines, r2: Pipelines,
                 hosts: seq<string>)
    requires (forall h :: h in q0 ==> h in hosts) && r1.Keys <= q1.Keys && forall h :: h in q1 ==> h in hosts
    requires NoMore(lifetime, q0, r0, q1, r1) && Checked(lifetime, q1, r1, r2, {})
    requires r1 != map[] || exists h :: h in q0 && Less(lifetime, q0, r0, q1, r1, h)
    ensures Total(lifetime, q1, r2, hosts) < Total(lifetime, q0, r0, hosts)
  {
    hide Weight;
    if r1 != map[] {
      var h :| h in r1;
      assert h in q1.Keys && Weight(lifetime, q1, r2, h) < Weight(lifetime, q1, r1, h);
    }
    TotalShrinks(lifetime, q0, r0, q1, r2, hosts);
  }
}
