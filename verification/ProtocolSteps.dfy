/** Single steps of the synchronous run, with what is known of them. */
module ProtocolSteps {
  import opened Options
  import opened Protocol
  import opened ProtocolSafety

  lemma NextState(cfg: Config, k: nat, s: Sys)
    requires cfg.Valid() && SyncRun(cfg, Start(cfg), k) == Some(s)
    ensures SyncStep(cfg, s).Some? && SyncRun(cfg, Start(cfg), k + 1) == SyncStep(cfg, s)
  {
    var a := SyncRunSafe(cfg, k);
    var b := SyncStepSafe(cfg, s, a);
  }

  lemma TauState(cfg: Config, k: nat, cmd: Cmd, rest: seq<Cmd>, next: seq<Cmd>, chans: seq<Chan>)
    requires cfg.Valid() && SyncRun(cfg, Start(cfg), k) == Some(Sys([cmd] + rest, chans))
    requires Act(cfg, cmd) == Tau(next)
    ensures SyncRun(cfg, Start(cfg), k + 1) == Some(Sys(next + rest, chans))
  {
    NextState(cfg, k, Sys([cmd] + rest, chans));
    assert ([cmd] + rest)[1..] == rest;
  }

  lemma SendState(cfg: Config, k: nat, cmd: Cmd, rest: seq<Cmd>, c: nat, msg: Message, next: seq<Cmd>, chans: seq<Chan>)
    requires cfg.Valid() && SyncRun(cfg, Start(cfg), k) == Some(Sys([cmd] + rest, chans))
    requires Act(cfg, cmd) == Send(c, msg, next)
    ensures |chans| == cfg.Size() && chans[c].outbox == []
    ensures SyncRun(cfg, Start(cfg), k + 1)
         == Some(Sys(next + rest, chans[c := Deliver(cfg.procs[c], chans[c], msg)]))
  {
    NextState(cfg, k, Sys([cmd] + rest, chans));
    assert ([cmd] + rest)[1..] == rest;
  }

  lemma RecvState(cfg: Config, k: nat, cmd: Cmd, rest: seq<Cmd>, c: nat, chans: seq<Chan>)
    requires cfg.Valid() && SyncRun(cfg, Start(cfg), k) == Some(Sys([cmd] + rest, chans))
    requires Act(cfg, cmd) == Recv(c)
    ensures |chans| == cfg.Size() && |chans[c].outbox| == 1
    ensures cmd.ForwardReplies? ==> GlobalSilent(chans[c].outbox[0].oper)
    ensures SyncRun(cfg, Start(cfg), k + 1)
         == Some(Sys(AfterRecv(cmd, chans[c].outbox[0]) + rest, chans[c := chans[c].(outbox := [])]))
  {
    NextState(cfg, k, Sys([cmd] + rest, chans));
    assert ([cmd] + rest)[1..] == rest;
    var a := SyncRunSafe(cfg, k);
    PendingAtRecv(cfg, cmd, a);
    assert MatchChan(cfg, c, a.occ[c], chans[c]);
    assert chans[c].outbox[1..] == [];
  }
}
