/** What a finished run has done, over in-memory connections and over FIFO connections. */
module ProtocolOutcome {
  import opened Options
  import opened ObsDomains
  import opened Protocol
  import opened ProtocolSafety
  import opened ProtocolTrace
  import opened ProtocolFlow
  import opened ProtocolSolve
  import opened ProtocolAsync

  /** What a whole run has told the workers, and what it has left behind: every worker got its plan, the first
      global worker the solve protocol with loops that end at convergence, the replies of each local worker
      all went to it and its solutions all to them, and no result is unread. */
  ghost predicate AllTold(cfg: Config, chans: seq<Chan>)
    requires cfg.Shaped() && |chans| == cfg.Size() && Usable(cfg.full, cfg.shape)
  {
    var g := chans[cfg.nLocal].hist;
    && (forall c :: 0 <= c < cfg.Size() ==> chans[c].outbox == [] && Main(chans[c].hist) == Plan(cfg, c))
    && Track(cfg.nLocal, g).Some? && Judge(cfg.procs[cfg.nLocal], g).ok
    && forall c :: 0 <= c < cfg.nLocal ==>
         && RepliesTold(c, g) == Given(cfg, c, chans[c].hist)
         && SolutionsTold(chans[c].hist) == Given(cfg, cfg.nLocal, g)
  }

  lemma ToldAll(cfg: Config, k: nat, chans: seq<Chan>)
    requires cfg.Valid() && Usable(cfg.full, cfg.shape) && SyncRun(cfg, Start(cfg), k) == Some(Sys([], chans))
    ensures |chans| == cfg.Size() && AllTold(cfg, chans)
    ensures forall c :: 0 <= c < cfg.Size() ==> HasQuit(chans[c].hist)
  {
    hide Track, Judge, RepliesTold, SolutionsTold, Given, Main, Plan, HasQuit, Program;
    GlobalWorkerProtocol(cfg, k);
    var a := RunSolves(cfg, k);
    forall c | 0 <= c < cfg.Size()
      ensures chans[c].outbox == [] && HasQuit(chans[c].hist) && Main(chans[c].hist) == Plan(cfg, c)
    {
      FinishedRunHasQuit(cfg, k, Sys([], chans), c);
      FinishedRunToldPlan(cfg, k, Sys([], chans), c);
    }
    forall c | 0 <= c < cfg.nLocal
      ensures RepliesTold(c, chans[cfg.nLocal].hist) == Given(cfg, c, chans[c].hist)
      ensures SolutionsTold(chans[c].hist) == Given(cfg, cfg.nLocal, chans[cfg.nLocal].hist)
    {
      FinishedRunToldAll(cfg, k, Sys([], chans), c);
    }
  }

  /** The same for workers in processes of their own: whatever the interleaving, once the master is done and
      every worker has read its messages, the outcome is the same. */
  lemma AsyncToldAll(cfg: Config, schedule: seq<Label>)
    requires cfg.Valid() && Usable(cfg.full, cfg.shape) && AsyncRun(cfg, Start(cfg), schedule).Some?
    requires var s := AsyncRun(cfg, Start(cfg), schedule).value;
      s.prog == [] && forall c :: 0 <= c < cfg.Size() ==> s.chans[c].inbox == []
    ensures AllTold(cfg, AsyncRun(cfg, Start(cfg), schedule).value.chans)
  {
    hide AllTold, HasQuit, Program;
    var s := AsyncRun(cfg, Start(cfg), schedule).value;
    AsyncIsSync(cfg, schedule);
    forall c | 0 <= c < cfg.Size() ensures FlushChan(cfg.procs[c], s.chans[c]) == s.chans[c] {
      assert s.chans[c].hist + [] == s.chans[c].hist && Replies(cfg.procs[c], s.chans[c].hist, []) == [];
      assert s.chans[c].outbox + [] == s.chans[c].outbox;
    }
    assert Flush(cfg, s).chans == s.chans;
    ToldAll(cfg, MasterSteps(schedule), s.chans);
  }
}
