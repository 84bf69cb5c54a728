# LOFAR control and archive software: a verified model

This project models five parts of the LOFAR software and proves properties of them.

1. **The master/worker framework** (`CEP/LMWCommon`). A master drives local workers and a global worker
   through Init, SetWd, Step, GlobalInfo, GlobalExec and quit, over one-slot mailboxes in its own process or
   over FIFO connections. `Protocol.dfy` states the messages and unfolds the master's control flow one
   communication at a time. The whole-run theorems are in `ProtocolSafety.dfy` (no assertion fails),
   `ProtocolTrace.dfy` and `ProtocolTold.dfy` (what each worker is told), `ProtocolFlow.dfy` (where forwarded contents come from),
   `ProtocolSolve.dfy` (when solve loops end), `ProtocolAsync.dfy` (interleavings), `ProtocolOutcome.dfy` (what a
   finished run has done) and `ProtocolEnds.dfy` (that it finishes). `MasterControl.dfy` and `WorkerControl.dfy`
   hold the classes, every method of which is proved to perform exactly the steps of that program. Work domains
   are in `ObsDomain.dfy`.
2. **Allocation and serialisation** (`CEP/LMWCommon`, `LCS/Blob`). Mount search (`NodeDesc.dfy`), cluster
   indexes (`ClusterDesc.dfy`), the least-loaded worker search (`WorkersDesc.dfy`), the assignment of data
   parts (`Assignment.dfy` on candidate lists, `Allocation.dfy` on clusters), and step trees through blob streams
   and fragmenting sockets (`MWStep.dfy`, `Blob.dfy`, `BlobStream.dfy`, `Connection.dfy`).
3. **The long-term-archive ingest** (`LTA/LTAIngest`). The queues between master, slaves and executers as a
   state machine (`IngestJobs.dfy`, `IngestSafety.dfy`), the processes and job groups as classes
   (`IngestMaster.dfy`), one pipeline run with its retries and roll back (`IngestPipeline.dfy`), what its
   reports mean (`IngestReports.dfy`), what the answers from outside decide (`IngestAnswers.dfy`), and the per-host
   scheduler (`HostScheduler.dfy`).
4. **Source association** (`CEP/GSM`). The running averages (`Averages.dfy`), the statements that change the
   tables, row by row (`Association.dfy`), what one image keeps (`AssociationSafety.dfy`), the averages that every
   sequence of images leaves (`AssociationRuns.dfy`), when ids and identity rows stay in order
   (`AssociationOrder.dfy`), the queries' own expressions for closeness and distance (`Position.dfy`), and images,
   seen with these, that break what the association is meant to keep (`AssociationCases.dfy`).
5. **Two smaller cores.** The cached columns of the EMBRACE storage manager (`EmbraceColumn.dfy`) and the
   search for the best input delay (`PpsDelay.dfy`).

`dafny verify dfyconfig.toml` checks everything.

## How the parts fit together

*The protocol.* A worker is an arbitrary function of everything it has received and the message at hand, so
every content of replies and every convergence behaviour is covered. `LocalContract` and `GlobalContract` say
which messages are answered, and that what the master forwards is no command the receiver answers; nothing else
is assumed. The safety proof executes the master's program abstractly: each command has a condition and an
effect on what is pending on each connection, an internal step replaces a command by commands with the same
effect, and the effect of the whole program ends with every worker told to quit. The trace theorem is a
conservation law: what a worker has been told, followed by what the program still owes it, is the same plan at
every moment. The flow theorem is another one: what a worker gave for the other side is what that was told, what
the master has in hand, and what waits to be read. The convergence theorem ties the flag the master reads to the
global worker's history and to the program's next move. The FIFO system is tied to the synchronous one by
delivering everything that is under way: a worker's step does not change the delivered state, and a master's
step is one synchronous step of it. Termination is proved command by command, with the rank of a converging
global worker for the solve loop, and carries over to all interleavings by counting messages.

The assertions of `MemConnection` are preconditions of its methods, so that the verification of `MasterControl`
is the proof that they hold at every call. The two connection sets must share no objects, which `MakeControl`
establishes for the single-process branch of `runMaster`.

*The ingest.* A state machine step takes a job from one place and puts it in another; all interleavings are
covered. A step bundles what its process does to move the job: `Accept` takes a file and schedules its job;
`Begin` takes a scheduled job, sends the update and makes the job active; `Send` looks for a slave and puts the
job in its queue; `Take` counts an executer and starts it; `Finish` is the master's `slave_done`, an update and a
job reported done; `Release` lowers the count; `Done` takes a job reported done, removes it from the active list,
renames its file and may schedule it again. `DoneProjects`, `BeginProjects` and `StartProjects` say that these
steps, seen from the job handler, are the parts of `JobHandler.Pass`; `TakeProjects` and `FinishProjects` say the
same of a slave and its executers; `IsRunOf` is what both the state machine and `ExecuterRun` make of an outcome; `ProducedIff` connects a pipeline run to the status its job gets. A job for whose destination
there is no slave stays with the job handler, which goes on no more.

*The association.* Each statement is a method over the tables, proved against a function of them; the whole is
`Process`, and `Run` is what a sequence of images makes of the empty catalogue. Each theorem holds for arbitrary
distances and closeness relations. Averages need nothing else: histories are kept by row and not by id. Only
unique ids and identity rows depend on ties and on what stays close, and when they stay in order is stated over the
catalogue before an image (`Orderly`). `ImageOf` is an image with the expressions of the queries, in which sine and
cosine are parameters; the failing images need the values in `Values`, which `ValuesAgree` shows to be consistent.

## Where the code and its description differ

The code is followed. The lemmas and predicates named state the differences.

- A full domain that starts at a negative frequency makes `getNextWorkDomain` return the first tile for ever,
  because a negative start frequency marks the default domain (`NegativeStartRepeats`, `IterationEndsIff`).
- `setAllWorkers` takes the first free worker and can throw although an assignment of all parts exists
  (`AssignIncomplete`, `NeedlessThrow`). It never does for parts on given file systems exactly if no two of these
  have a worker in common that the first lists before one the second does not reach (`AlwaysFindsIff`).
  `findWorker` looks for Compute nodes unless told otherwise.
- With several root mounts the one found depends on whether the file name starts with two slashes
  (`TwoRootMounts`); `LongestUnlessDoubleSlash` says exactly when the answer is the longest mount.
- Equal distances leave a source with two matches (`OneMatchIff`, `TwoMatchesLeft`) and can bring an id into the
  catalogue twice (`IdsUniqueIff`, `RepeatedId`); with a repeated id a source can lose all its matches, and an image
  leave no trace (`AllMatchesLost`). The comment before `_insert_single_assocs` (only one-to-one associations are
  left) holds for the catalogue side always, for the source side without ties (`OneToOne`).
- Right ascension and declination are averaged each for itself, so that a row can move away from a source that is
  averaged into it. If that source was split off it counts as new and is inserted once more (`OrderKeptIff`,
  `InsertedAgain`).
- The query for new associations takes the row for the source in one place, so that rows to the north of a source
  are close to it from farther away (`AssocAgainstClose`), and an identity row can be missing (`OrderKeptIff`,
  `NoIdentityRow`).
- Success can be reported, not be acknowledged, and then be rolled back (`TakenBackIff`, `ReportMayBeTakenBack`).
- A run that finds its file archived rolls back all the same if an earlier, incomplete ticket answer had left
  a temporary URI (`AlreadyArchivedRollsBackIff`, `AlreadyArchivedMayRollBack`).
- The executer has branches for a missing source and for an archived file that are never taken: a pipeline run
  keeps these two errors to itself (`NeverRaised`). The job becomes produced all the same (`ProducedIff`).
- With a retry count of zero a stage is passed without being called, and success can be reported for a file
  that was not transferred (`SuccessMeansTransferIff`, `SuccessWithoutTransfer`).
- A job without a slave for its destination makes the job handler fail, and then no further job is started or
  finished (`EveryJobFinishesIff`).
- With `maxParallelJobs` zero and a job to run the host scheduler's loop never ends (`Passes`).
- A job file whose name ends in a number counts on from that number, so its suffix is not the number of failed
  runs (`SuffixCountsOn` against `SuffixCountsFailures`).
- The delay search sums fifteen of the sixteen antenna processors of a subrack (`GoodIsFirstFifteen`), and
  chooses delay 0 when no delay is good (`ChosenIsGoodIff`).

## Model

| member | source | states |
|---|---|---|
| `ObsDomains.ObsDomain.FirstOf` | CEP/LMWCommon/src/ObsDomain.cc:36-49 | the first work domain starts where the full domain starts and is cut off at its ends |
| `ObsDomains.ObsDomain.GetNextWorkDomain` | CEP/LMWCommon/src/ObsDomain.cc:63-90 | in-place iterator: the passed work domain becomes the next one in frequency, then time, or stays as it is with result false |
| `ObsDomains.NextDecreases` | CEP/LMWCommon/src/ObsDomain.cc:68-89 | time steps left, then frequency steps left, decrease lexicographically at every successful call, and the new domain no longer looks like the default one |
| `ObsDomains.TilesPartition` | CEP/LMWCommon/src/ObsDomain.cc:63-90 | every point of the full domain lies in exactly one of the half-open work domains of an iteration, every point outside in none |
| `ObsDomains.TilesFit` | CEP/LMWCommon/src/ObsDomain.cc:63-90 | every work domain lies within the full domain and has exactly the size of the shape, in each dimension, unless it ends where the full domain does |
| `ObsDomains.TilesInOrder` | CEP/LMWCommon/src/ObsDomain.cc:63-90 | the work domains come in the order of their times, and for one time in the order of their frequencies |
| `ObsDomains.NegativeStartRepeats` | CEP/LMWCommon/src/ObsDomain.cc:68-75 | with a negative start frequency every call gives the first work domain again |
| `ObsDomains.IterationEndsIff` | CEP/LMWCommon/src/MasterControl.cc:109-121 | for positive sizes the loop over work domains ends if and only if the full domain does not start at a negative frequency |
| `ProtocolSafety.GlobalStepEffect` | CEP/LMWCommon/src/MasterControl.cc:134-182 | visitGlobal started with all connections empty communicates without a slip and leaves all of them empty, its unbounded solve loop included |
| `ProtocolSafety.RoundEffect` | CEP/LMWCommon/src/MasterControl.cc:155-181 | one pass of the solve loop keeps all connections empty and brings the global worker to a solution |
| `ProtocolSafety.DomainEffect` | CEP/LMWCommon/src/MasterControl.cc:110-121 | one pass of the loop over work domains keeps all connections empty |
| `ProtocolSafety.ProgramBalanced` | CEP/LMWCommon/src/MasterControl.cc:72-132 | Init, all work domains and quit together lack nothing they need, and at the end every connection has been told to quit |
| `ProtocolSafety.DeliverMatches` | CEP/LMWCommon/src/WorkerProxy.cc:62-108 | a worker under its contract leaves exactly the reply, or none, that the kind of the message stands for, under the worker id it was given at Init |
| `ProtocolSafety.SendSafe` | CEP/LMWCommon/src/MemConnection.cc:53-60 | under the run invariant a write finds no unread result, and the invariant holds afterwards |
| `ProtocolSafety.RecvSafe` | CEP/LMWCommon/src/MemConnection.cc:38-51 | under the run invariant a read finds exactly one result, and the invariant holds afterwards |
| `ProtocolSafety.SyncStepSafe` | CEP/LMWCommon/src/MasterControl.cc:72-207 | no step of the master fails an assertion, and every step keeps the run invariant |
| `ProtocolSafety.SyncRunSafe` | CEP/LMWCommon/src/MasterControl.cc:72-207 | after any number of steps, for every step tree, number of workers, replies and convergence behaviour (also none): no write has met an unread result and no read an empty connection |
| `ProtocolSafety.QuietBetweenSteps` | CEP/LMWCommon/src/MasterControl.cc:106-192 | whenever the master is between two steps, work domains or solve iterations, all connections are empty |
| `ProtocolSafety.GlobalWorkerProtocol` | CEP/LMWCommon/src/MasterControl.cc:134-182 | at every moment the first global worker's messages belong to the language of the solve protocol |
| `ProtocolSafety.RepliesAtEnd` | CEP/LMWCommon/src/MasterControl.cc:164-167 | in such a history, forwarded replies come as one reply of each local worker from 0 on, in index order |
| `ProtocolSafety.ExecAfterAllReplies` | CEP/LMWCommon/src/MasterControl.cc:164-175 | directly before every GlobalExec there is exactly one reply of every local worker, in index order |
| `ProtocolSafety.FinishedRunHasQuit` | CEP/LMWCommon/src/MasterControl.cc:124-132 | when the master has finished every worker has been told to quit and no reply is unread |
| `ProtocolTrace.TauOwes` | CEP/LMWCommon/src/MWStepVisitor.cc:41-48 | unfolding a step, a list of steps or a work domain keeps what each worker is still to be told, in order |
| `ProtocolTrace.SendOwes` | CEP/LMWCommon/src/MemConnectionSet.cc:76-86 | a write moves its message from what is owed to what has been told and changes nothing for other workers |
| `ProtocolTrace.RunOnPlan` | CEP/LMWCommon/src/MasterControl.cc:106-192 | at every moment what a worker was told and what is still owed to it are together its plan: Init, each work domain followed by its leaf steps once in tree order (all for a local worker, the global ones for the first global worker), and quit |
| `ProtocolTrace.FinishedRunToldPlan` | CEP/LMWCommon/src/MasterControl.cc:106-192 | a finished run has told each worker, local and global, exactly its plan |
| `ProtocolTrace.StepTraces` | CEP/LMWCommon/src/MemConnectionSet.cc:81-86 | every step extends the traces of all local workers alike, a loop over workers that has begun being counted as done |
| `ProtocolTrace.RunSameTraces` | CEP/LMWCommon/src/MasterControl.cc:72-192 | at every moment all local workers were told the same after Init, solve rounds included, up to the message being written |
| `ProtocolTold.LeavesInOrder` | CEP/LMWCommon/src/MWStepVisitor.cc:41-48 | what a worker is told of a tree is exactly its leaves, or those of global steps, in the order of their paths |
| `ProtocolTold.PointToldOnce` | CEP/LMWCommon/src/MasterControl.cc:109-121 | in a finished run exactly one SetWd message received by each worker has a work domain that contains a given point of the full domain, and none contains a point outside |
| `ProtocolTold.ToldInOrder` | CEP/LMWCommon/src/MasterControl.cc:106-132 | in a finished run each worker was told Init with its part and number, the work domains in the order of time and frequency, each followed by the leaves of the tree in the order of their paths, and then to quit |
| `ProtocolFlow.StepFlow` | CEP/LMWCommon/src/MasterControl.cc:149-177 | every step conserves the replies meant for the other side: given equals told, in the master's hand, and not yet read |
| `ProtocolFlow.AskAnswered` | CEP/LMWCommon/src/WorkerProxy.cc:77-105 | a worker asked for a forwarded reply leaves exactly what its process function returned, under the stream of the message and its own id |
| `ProtocolFlow.RunFlow` | CEP/LMWCommon/src/MasterControl.cc:149-177 | at every moment what the process functions of the local workers returned for the global worker has been told to it unchanged and in order, but for one under way, and so have the solutions to each local worker |
| `ProtocolFlow.FinishedRunToldAll` | CEP/LMWCommon/src/MasterControl.cc:149-177 | in a finished run nothing given is missing: replies told equal replies given, solutions told equal solutions given |
| `ProtocolSolve.StepSolves` | CEP/LMWCommon/src/MasterControl.cc:153-181 | every step keeps the history, the phase and the program in agreement about the convergence flag |
| `ProtocolSolve.RunSolves` | CEP/LMWCommon/src/MasterControl.cc:153-181 | so they agree at every moment of every run |
| `ProtocolSolve.JudgeMeans` | CEP/LMWCommon/src/MasterControl.cc:155-181 | in a history that is judged right, a solution is followed by another GlobalExec if and only if it lacked the flag |
| `ProtocolSolve.LoopsUntilConverged` | CEP/LMWCommon/src/MasterControl.cc:153-181 | in every run a GlobalExec is followed by another one if and only if the body its process function returned does not have the convergence flag set, otherwise by the next step, work domain or quit |
| `ProtocolAsync.WorkerStepFlush` | CEP/LMWCommon/src/WorkerControl.cc:49-59 | a round of the worker loop does not change the state with everything delivered |
| `ProtocolAsync.MasterStepFlush` | CEP/LMWCommon/src/MasterControl.cc:106-207 | a master step over FIFO connections is one synchronous step of the delivered state |
| `ProtocolAsync.AsyncIsSync` | CEP/LMWCommon/src/WorkerControl.cc:42-60 | for every interleaving the delivered state is the state of the in-memory run after as many master steps |
| `ProtocolAsync.SameMessagesEveryInterleaving` | CEP/LMWCommon/src/WorkerControl.cc:42-60 | two interleavings with as many master steps have sent each worker the same messages in the same order |
| `ProtocolAsync.WorkerListens` | CEP/LMWCommon/src/WorkerControl.cc:49-59 | a worker with messages under way has not left its loop: nothing is sent after its quit message |
| `ProtocolAsync.ReadIsServed` | CEP/LMWCommon/src/MasterControl.cc:147-207 | at every read of the master exactly one reply is in the channel or still owed, and if it is owed its worker can go on |
| `ProtocolAsync.NeverStuck` | CEP/LMWCommon/src/WorkerControl.cc:42-60 | no interleaving deadlocks: some process can go on until the master is done and every worker has read everything, quit last |
| `ProtocolOutcome.ToldAll` | CEP/LMWCommon/src/ControllerBase.cc:166-173 | where the master is done, every worker has quit, every slot is empty, plans, solve protocol, convergence and both flows are complete |
| `ProtocolOutcome.AsyncToldAll` | CEP/LMWCommon/src/WorkerControl.cc:42-60 | the same outcome for workers in processes of their own, whatever the interleaving |
| `ProtocolSteps.SendState` | CEP/LMWCommon/src/MemConnection.cc:53-60 | a write of the program finds the slot empty and is one delivery |
| `ProtocolSteps.RecvState` | CEP/LMWCommon/src/MemConnection.cc:38-51 | a read of the program finds exactly one result and empties the slot |
| `ProtocolEnds.RoundEnds` | CEP/LMWCommon/src/MasterControl.cc:156-180 | a pass of the solve loop ends, and the flag read is that of the answer to its GlobalExec |
| `ProtocolEnds.IterationEnds` | CEP/LMWCommon/src/MasterControl.cc:154-181 | the solve loop ends if the global worker converges |
| `ProtocolEnds.VisitEnds` | CEP/LMWCommon/src/MWStepVisitor.cc:41-48 | visiting any step tree ends |
| `ProtocolEnds.MasterEnds` | CEP/LMWCommon/src/MasterControl.cc:106-132 | the whole program of the master ends if the global worker converges and the work domains do |
| `ProtocolEnds.WorkersFollow` | CEP/LMWCommon/src/WorkerControl.cc:49-59 | the workers make at most one step for each message the master has sent |
| `ProtocolEnds.SchedulesEnd` | CEP/LMWCommon/src/WorkerControl.cc:42-60 | under the same condition there is a bound on the length of all interleavings |
| `ProtocolEnds.MaximalScheduleToldAll` | CEP/LMWCommon/src/WorkerControl.cc:42-60 | an interleaving that cannot go on has the outcome of the in-memory run |
| `MasterControls.WorkerProxy.HandleMessage` | CEP/LMWCommon/src/WorkerProxy.cc:62-108 | the reply has the body and operation that the process function returned, the stream of the message and the id of the worker, or there is none; Init is answered without a body and sets the id for all later replies |
| `MasterControls.MemConnection.Write` | CEP/LMWCommon/src/MemConnection.cc:53-60 | requires the result slot empty; afterwards the worker has the message and the slot its reply, or nothing |
| `MasterControls.MemConnection.Read` | CEP/LMWCommon/src/MemConnection.cc:38-51 | requires a result; it is returned and the slot is empty, so that nothing is read twice |
| `MasterControls.MemConnectionSet.AddConnection` | CEP/LMWCommon/src/MemConnectionSet.cc:54-59 | a new connection with an empty slot is appended, earlier ones and their numbers stay |
| `MasterControls.MemConnectionSet.Clone` | CEP/LMWCommon/src/MemConnectionSet.cc:38-52 | the new set shares exactly the connections with the given indexes, in that order |
| `MasterControls.MemConnectionSet.Write` | CEP/LMWCommon/src/MemConnectionSet.cc:76-79 | only the addressed connection changes, by one delivery |
| `MasterControls.MemConnectionSet.Read` | CEP/LMWCommon/src/MemConnectionSet.cc:71-74 | gives the addressed connection's result and empties that slot only |
| `MasterControls.MemConnectionSet.WriteAll` | CEP/LMWCommon/src/MemConnectionSet.cc:81-86 | every connection gets the message once, provided all slots are empty |
| `MasterControls.MasterControl.SetInitInfo` | CEP/LMWCommon/src/MasterControl.cc:72-99 | performs the Init program: connection i gets its part and worker id, all replies are read, the full domain is copied |
| `MasterControls.MasterControl.ReadAllWorkers` | CEP/LMWCommon/src/MasterControl.cc:194-207 | reads one reply of every local and/or global worker, in order, each read being allowed |
| `MasterControls.MasterControl.VisitLocal` | CEP/LMWCommon/src/MasterControl.cc:184-192 | performs the program of a local step |
| `MasterControls.MasterControl.ForwardAll` | CEP/LMWCommon/src/MasterControl.cc:149-152 | the global worker's history grows by the replies forwarded, none of which it answers |
| `MasterControls.MasterControl.SolveRound` | CEP/LMWCommon/src/MasterControl.cc:156-180 | one pass of the loop: replies, then GlobalExec; the flag read tells whether the global worker has converged there |
| `MasterControls.MasterControl.SolveLoop` | CEP/LMWCommon/src/MasterControl.cc:154-181 | iterates the pass until convergence and ends where the program ends the step |
| `MasterControls.MasterControl.VisitGlobal` | CEP/LMWCommon/src/MasterControl.cc:134-182 | performs the program of a global step |
| `MasterControls.MasterControl.Visit` | CEP/LMWCommon/src/MWStepVisitor.cc:41-48 | performs the program of a step tree, going into nested lists |
| `MasterControls.MasterControl.ProcessSteps` | CEP/LMWCommon/src/MasterControl.cc:106-122 | performs all work domains with all steps, and ends |
| `MasterControls.MasterControl.Quit` | CEP/LMWCommon/src/MasterControl.cc:124-132 | performs the quit program, after which nothing is left to do |
| `MasterControls.MakeControl` | CEP/LMWCommon/src/ControllerBase.cc:148-167 | the single-process connections are in the start state of the protocol, no worker being shared |
| `MasterControls.RunMaster` | CEP/LMWCommon/src/ControllerBase.cc:119-174 | the whole run on the classes: every worker was told its plan with its own data part, the global worker the solve protocol with loops that end at convergence, all replies and solutions arrived, and no result is unread |
| `WorkerControls.WorkerControl.Run` | CEP/LMWCommon/src/WorkerControl.cc:48-59 | handles exactly the messages up to the first request to quit, leaves later ones unread, and writes the replies the protocol gives, in order |
| `NodeDescs.NodeDesc.AddFileSys` | CEP/LMWCommon/src/NodeDesc.cc:62-73 | strips a leading /auto; adds nothing exactly where an assertion fails |
| `NodeDescs.BelowIff` | CEP/LMWCommon/src/NodeDesc.cc:100-117 | a file is below a mount if and only if its name starts with it and goes on with a slash |
| `NodeDescs.NodeDesc.FindFileSys` | CEP/LMWCommon/src/NodeDesc.cc:75-124 | gives the file system of the chosen mount: the longest one the file is below, the first on ties, else a root mount, else the empty string |
| `NodeDescs.NodeDesc.MaxParts` | CEP/LMWCommon/src/NodeDesc.cc:79-99 | the largest number of slashes of a mount other than the root, and the last root mount |
| `NodeDescs.NodeDesc.FindSlashes` | CEP/LMWCommon/src/NodeDesc.cc:100-107 | the slash positions found suffice: every mount the file is below is one of the leading parts they mark |
| `NodeDescs.LimitLosesNothing` | CEP/LMWCommon/src/NodeDesc.cc:101-107 | stopping at the maximum number of parts of a mount loses no match |
| `NodeDescs.FirstHit` | CEP/LMWCommon/src/NodeDesc.cc:108-117 | the first equal mount met going from long to short parts is the chosen one |
| `NodeDescs.NoHit` | CEP/LMWCommon/src/NodeDesc.cc:118-123 | if no part equals a mount, the last root mount or none is the chosen one |
| `NodeDescs.ChosenUnique` | CEP/LMWCommon/src/NodeDesc.cc:75-124 | the description of the result has one answer |
| `NodeDescs.ChosenIsLongest` | CEP/LMWCommon/src/NodeDesc.cc:108-123 | with at most one root mount the answer is the longest mount, the first on ties, the root counting as below nothing longer |
| `NodeDescs.LongestUnlessDoubleSlash` | CEP/LMWCommon/src/NodeDesc.cc:77-123 | with any number of root mounts the answer is the longest mount, the root being the last one, if and only if not all of these hold: several root mounts, no other mount matches, there is another mount, and the file name starts with two slashes; with the first root mount for the last, if and only if not the opposite |
| `NodeDescs.TwoRootMounts` | CEP/LMWCommon/src/NodeDesc.cc:108-121 | mounts and two spellings of one file name for which different root mounts are found |
| `ClusterDescs.NodesWithExact` | CEP/LMWCommon/src/ClusterDesc.cc:199-208 | the file-system index lists exactly the nodes with that file system, in ascending order |
| `ClusterDescs.NodesWithStrict` | CEP/LMWCommon/src/ClusterDesc.cc:199-208 | no node is in the list twice if and only if no node names the file system twice |
| `ClusterDescs.IndexName` | CEP/LMWCommon/src/ClusterDesc.cc:202-207 | appending the node for one more file system keeps the index right for all file systems |
| `ClusterDescs.MergedKeepsFirst` | CEP/LMWCommon/src/ClusterDesc.cc:163-167 | merging keeps the known nodes in front, adds of every new name the first node, and keeps names unique |
| `ClusterDescs.MergedInOrder` | CEP/LMWCommon/src/ClusterDesc.cc:163-167 | the nodes added are, in the order given, those whose name is neither known nor that of one given before |
| `ClusterDescs.MergeTwice` | CEP/LMWCommon/src/ClusterDesc.cc:165-167 | merging the same subcluster a second time changes nothing |
| `ClusterDescs.ClusterDesc.AddNode` | CEP/LMWCommon/src/ClusterDesc.cc:182-197 | throws exactly on a known name that may not exist; otherwise appends an unknown node, both indexes agreeing with the node list afterwards |
| `ClusterDescs.ClusterDesc.Add2Map` | CEP/LMWCommon/src/ClusterDesc.cc:199-208 | brings the file-system index from the nodes before the new one to all nodes |
| `ClusterDescs.ClusterDesc.Merge` | CEP/LMWCommon/src/ClusterDesc.cc:163-167 | the node list becomes the merged one, both indexes still agreeing |
| `ClusterDescs.ClusterDesc.GetNode` | CEP/LMWCommon/src/ClusterDesc.cc:210-218 | finds the node of that name, and throws exactly if there is none |
| `WorkersDescs.LowestIsFirstMinimum` | CEP/LMWCommon/src/WorkersDesc.cc:104-118 | the search result is the first candidate of minimal load, or -1 with all candidates at 1000000 or more |
| `WorkersDescs.LowestNone` | CEP/LMWCommon/src/WorkersDesc.cc:84-85 | -1 if and only if every candidate has a load of 1000000 or more |
| `WorkersDescs.StopAtZero` | CEP/LMWCommon/src/WorkersDesc.cc:108-115 | stopping at a load of 0 changes no result |
| `WorkersDescs.IndexFindsSame` | CEP/LMWCommon/src/WorkersDesc.cc:128-158 | searching through the file-system index finds the same worker as going through all nodes of the cluster, also with nodes listed twice |
| `WorkersDescs.OnFileSysIff` | CEP/LMWCommon/src/WorkersDesc.cc:128-145 | a worker is eligible for a file system if and only if it is registered on a node that has it and is of type Any, or of the type asked for, or any type is asked for |
| `WorkersDescs.OnFileSysConcat` | CEP/LMWCommon/src/WorkersDesc.cc:128-158 | the workers come in the order of their nodes |
| `WorkersDescs.AnywhereIff` | CEP/LMWCommon/src/WorkersDesc.cc:87-103 | without a file system it is enough to be registered on a node of fitting type, or on one that is not in the cluster description |
| `WorkersDescs.EligibleIff` | CEP/LMWCommon/src/WorkersDesc.cc:62-160 | both, for what findWorker searches |
| `WorkersDescs.AnyTypeFound` | CEP/LMWCommon/src/WorkersDesc.cc:134-145 | a worker with a load below 1000000 on a node of type Any, or another with no higher load, is found whatever type is asked for |
| `WorkersDescs.LessIsLexicographic` | CEP/LMWCommon/src/WorkersDesc.cc:88-90 | the order of the node map is that of the first characters in which two names differ |
| `WorkersDescs.InOrderAscends` | CEP/LMWCommon/src/WorkersDesc.cc:88-90 | the search without a file system looks at the nodes in that order |
| `WorkersDescs.WorkersDesc.AddWorker` | CEP/LMWCommon/src/WorkersDesc.cc:41-60 | the worker has load 0, gaps get load 0, other loads stay, and the worker is appended to its node for each of its types |
| `WorkersDescs.WorkersDesc.IncrLoad` | CEP/LMWCommon/include/LMWCommon/WorkersDesc.h:62-63 | one worker's load grows by one and is returned |
| `WorkersDescs.WorkersDesc.DecrLoad` | CEP/LMWCommon/include/LMWCommon/WorkersDesc.h:64-65 | one worker's load shrinks by one and is returned |
| `WorkersDescs.WorkersDesc.FindLowestAnywhere` | CEP/LMWCommon/src/WorkersDesc.cc:80-119 | both early breaks included, the result is the first lowest over all nodes of fitting type in name order |
| `WorkersDescs.WorkersDesc.FindLowestOn` | CEP/LMWCommon/src/WorkersDesc.cc:121-160 | both early breaks and the index included, the result is the first lowest over all nodes that have the file system |
| `WorkersDescs.WorkersDesc.FindWorker` | CEP/LMWCommon/src/WorkersDesc.cc:62-78 | the first lowest over all eligible workers, -1 for an unknown work type |
| `Allocation.PositionsExact` | CEP/LMWCommon/src/ControllerBase.cc:226-237 | every remote worker is counted as local or global by its work type, in connection order |
| `Allocation.RegisteredMembers` | CEP/LMWCommon/src/WorkersDesc.cc:50-59 | a worker is registered on a host for a type exactly if it was before or was just added there with that type, behind those that were |
| `Allocation.SplitWorkers` | CEP/LMWCommon/src/ControllerBase.cc:220-237 | the local and global positions, all loads 0, and worker w registered for exactly the host and types of the w-th local connection |
| `Allocation.LowestIsFirstFree` | CEP/LMWCommon/src/ControllerBase.cc:255-264 | while no worker has two parts the least-loaded eligible worker is the first free one, or none is free and the result is none or one that holds a part |
| `Allocation.AssignParts` | CEP/LMWCommon/src/ControllerBase.cc:250-266 | throws exactly where `Pick` has no assignment, for any loads and any names; otherwise each named part's name is at its worker and all entries that hold none are empty |
| `Allocation.PickIsAssign` | CEP/LMWCommon/src/ControllerBase.cc:250-265 | for named parts and workers without load, picking the least loaded and refusing one that holds a part is taking the first free one |
| `Assignments.AssignSound` | CEP/LMWCommon/src/ControllerBase.cc:252-265 | every part gets an eligible worker, no worker two parts |
| `Assignments.AssignThrowsIff` | CEP/LMWCommon/src/ControllerBase.cc:257-261 | it throws if and only if, at some part, every eligible worker already holds one |
| `Assignments.AssignBijective` | CEP/LMWCommon/src/ControllerBase.cc:159-165 | with as many workers as parts every worker gets a part |
| `Allocation.AssignIncomplete` | CEP/LMWCommon/src/ControllerBase.cc:250-261 | a cluster of two nodes with a worker each and two parts for which it throws although an assignment exists |
| `Allocation.NeedlessThrow` | CEP/LMWCommon/src/ControllerBase.cc:220-261 | on the objects: this cluster is described, these workers are added, and no part is assigned |
| `Assignments.AssignComplete` | CEP/LMWCommon/src/ControllerBase.cc:252-265 | if no part has a worker it shares with another before one of its own, it succeeds if and only if any assignment exists |
| `Assignments.GoodEnoughIff` | CEP/LMWCommon/src/ControllerBase.cc:252-265 | for a family of candidate lists, it succeeds on all parts over these lists that have any assignment if and only if in no list a worker shared with another list comes before one the other does not have |
| `Allocation.AlwaysFindsIff` | CEP/LMWCommon/src/ControllerBase.cc:247-265 | the same for parts on given file systems of a cluster: it never throws needlessly if and only if no two of them have a worker in common that the first lists before one the second does not reach |
| `Allocation.PartIsReachable` | CEP/LMWCommon/src/ControllerBase.cc:247-255 | the worker of a part with a file system runs on a node of the cluster that has this file system and is of type Compute or Any |
| `Allocation.InitCarriesPart` | CEP/LMWCommon/src/MasterControl.cc:80-87 | Init on connection w carries the name of the part assigned to worker w, and worker id w |
| `Allocation.MakeFile` | CEP/LMWCommon/src/finddproc.cc:39-59 | the workers chosen are those of the specification, the loads grow accordingly, and it throws where the specification does |
| `Allocation.PlaceThrowsIff` | CEP/LMWCommon/src/finddproc.cc:47-52 | it throws if and only if, at some part, every eligible worker has a load of 1000000 or more |
| `Allocation.PlaceLeastLoaded` | CEP/LMWCommon/src/finddproc.cc:45-58 | every part goes to an eligible worker and no eligible one has a lower load at that moment |
| `Allocation.AfterTotal` | CEP/LMWCommon/src/finddproc.cc:55-57 | the total load grows by the number of parts assigned |
| `Allocation.PlaceEven` | CEP/LMWCommon/src/finddproc.cc:55-57 | on one shared file system the loads of the eligible workers never differ by more than one if they did not before |
| `Blobs.NumRoundTrip` | LCS/Blob/src/BlobIStream.cc:78-84 | a number is read back from its bytes in either byte order |
| `Blobs.NumBytes` | LCS/Blob/src/BlobOStream.cc:67-88 | byte i is the number divided by 256 to the power i, modulo 256, the lowest or the highest byte coming first |
| `Blobs.DecodeEncode` | CEP/LMWCommon/src/MWMultiStep.cc:73-97 | any step tree, nested to any depth the level byte allows, is read back as written whatever follows it |
| `Blobs.DecodeEncodeAll` | CEP/LMWCommon/src/MWMultiStep.cc:77-95 | so is a list of step trees |
| `Blobs.ObjectLayout` | LCS/Blob/src/BlobOStream.cc:56-96 | where length, mark, version, byte order, level, name, contents and end mark are in an object |
| `Blobs.StepLayout` | CEP/LMWCommon/src/MWMultiStep.cc:73-83 | what the object of a leaf step or of a multi step has as name and contents |
| `Blobs.HeaderAccepted` | LCS/Blob/src/BlobIStream.cc:66-102 | a header is accepted exactly if it has the mark, the right byte order, a level not above that of the reader, and the bytes of its name |
| `Blobs.EnvelopeRoundTrip` | CEP/LMWCommon/src/MWBlobIO.cc:40-48 | operation, stream, worker id and times are read back, negative numbers included |
| `Blobs.FrameLayout` | CEP/LMWCommon/src/MWBlobIO.cc:33-58 | where operation, stream, worker id, times and payload are in a message, integers as their low 32 bits |
| `Blobs.MessageRoundTrip` | CEP/LMWCommon/src/MWBlobIO.cc:33-83 | a step message is read back with its envelope, the byte order being taken from its header |
| `Blobs.SetOperation` | CEP/LMWCommon/src/MWBlobIO.cc:51-58 | overwriting the operation in the buffer gives the message that would have been written with the other operation |
| `BlobStreams.BlobOStream.PutStart` | LCS/Blob/src/BlobOStream.cc:56-72 | writes a header with length 0, remembers where, and puts the outer length on the stack |
| `BlobStreams.BlobOStream.PutEnd` | LCS/Blob/src/BlobOStream.cc:76-97 | writes the end mark, fills in the length in the header and goes on with the length of the parent |
| `BlobStreams.BlobOStream.PutStep` | CEP/LMWCommon/src/MWMultiStep.cc:73-83 | appends the encoding of the tree, lengths filled in at every nesting level, and leaves the stacks as they were |
| `BlobStreams.BlobOStream.PutMessage` | CEP/LMWCommon/src/MWBlobIO.cc:33-49 | a finished message is the frame around the step's encoding |
| `BlobStreams.PatchObject` | LCS/Blob/src/BlobOStream.cc:86-91 | filling in the length afterwards gives the same bytes as writing it at once |
| `BlobStreams.CutShort` | LCS/Blob/src/BlobHeader.cc:29-45 | which bytes complete a header that is cut short |
| `BlobStreams.BlobIStream.GetNextType` | LCS/Blob/src/BlobIStream.cc:66-100 | a cached type is given again without reading; a whole header is accepted exactly where the decoder accepts it; one that is cut short is completed with the default header and gives an object without a name |
| `BlobStreams.BlobIStream.GetBuf` | LCS/Blob/src/BlobIStream.cc:140-150 | gives the next bytes or fails exactly if there are too few |
| `BlobStreams.BlobIStream.GetEnd` | LCS/Blob/src/BlobIStream.cc:114-138 | succeeds exactly at an end mark with the whole object read, and returns to the parent object |
| `BlobStreams.BlobIStream.GetStep` | CEP/LMWCommon/src/MWMultiStep.cc:85-97 | on every input, malformed ones included, gives what the decoder gives, and after a success has read exactly the bytes of the step |
| `BlobStreams.BlobIStream.GetSteps` | CEP/LMWCommon/src/MWMultiStep.cc:91-95 | the same for the loop over the steps of a list |
| `Connections.SocketConnection.Receive` | CEP/LMWCommon/src/SocketConnection.cc:60-73 | gives exactly the next size bytes and leaves the rest, in however many fragments they come, some of them empty; nothing if and only if a read fails |
| `Connections.SocketConnection.Read` | CEP/LMWCommon/src/MWConnection.cc:43-60 | gives exactly one message, its length being found in its header, unless a read fails |
| `Connections.ReadStepMessage` | CEP/LMWCommon/src/MWBlobIO.cc:75-83 | on every buffer gives what the message decoder gives |
| `Connections.BytesFramed` | CEP/LMWCommon/src/MWConnection.cc:52-58 | a written message tells its own length and is read back |
| `Connections.ReceiveSteps` | CEP/LMWCommon/src/SocketConnection.cc:60-73 | any sequence of step messages, each of either byte order, is rebuilt from any fragmentation of its bytes, and nothing beyond is read; it stops, with the messages before, if and only if a read fails |
| `IngestJobs.SuffixCountsFailures` | LTA/LTAIngest/master.py:146-150 | a file name that does not end in a number has the number of failed runs as its suffix |
| `IngestJobs.SuffixCountsOn` | LTA/LTAIngest/master.py:146-148 | one that does counts on from that number |
| `IngestJobs.DecimalDigits` | LTA/LTAIngest/master.py:146-150 | numbers in file names are written and read digit by digit |
| `IngestJobs.ContainsIff` | LTA/LTAIngest/master.py:369-371 | a slave name has a destination in it if and only if it is the destination with something before and after it |
| `IngestSafety.StepSafe` | LTA/LTAIngest/master.py:188-210 | every step of every process keeps the invariant of the jobs |
| `IngestSafety.RunSafe` | LTA/LTAIngest/slave.py:88-140 | the invariant holds in every state of every interleaving |
| `IngestSafety.OnePlace` | LTA/LTAIngest/master.py:162-169 | every accepted job is in exactly one place, and its retry count and file name say how many of its runs have failed |
| `IngestSafety.RunsBounded` | LTA/LTAIngest/slave.py:131-134 | a job is run at most max(1, pipelineRetry) times, and once more only after a failed run |
| `IngestSafety.ConcurrencyBounded` | LTA/LTAIngest/master.py:200-206 | never more than parallelJobs times the slaves found are active, and no slave runs more executers than it may |
| `IngestSafety.UpdatesChain` | LTA/LTAIngest/master.py:240-253 | the updates about a job form a chain of statuses from Scheduled on, in every prefix the queue handler has seen |
| `IngestSafety.NextUpdateFits` | LTA/LTAIngest/master.py:383-387 | the old status in every update is the new status of the update about that job before it |
| `IngestSafety.NewJobsInOrder` | LTA/LTAIngest/master.py:199-205 | in every run the jobs started so far, followed by those that are waiting, are the jobs accepted, in the order of their acceptance |
| `IngestSafety.StartsInOrder` | LTA/LTAIngest/master.py:162-205 | jobs to be tried again, too, are started in the order in which their runs failed, whatever is interleaved |
| `IngestSafety.DoneJobIsActive` | LTA/LTAIngest/master.py:165-165 | a job that is reported done is in the active list, so that removing it does not fail |
| `IngestSafety.StepDecreases` | LTA/LTAIngest/master.py:188-210 | every step but the arrival of a job makes the work left smaller |
| `IngestSafety.RunsEnd` | LTA/LTAIngest/slave.py:131-139 | without new jobs, no run is longer than that measure |
| `IngestSafety.FinishedMeans` | LTA/LTAIngest/slave.py:131-136 | a finished job was produced by its last run, or is given up after exactly max(1, pipelineRetry) failed runs |
| `IngestSafety.NotStuck` | LTA/LTAIngest/master.py:200-210 | unless all jobs are finished, or the job handler has failed on a job without a slave, some process can go on |
| `IngestSafety.FailedOn` | LTA/LTAIngest/master.py:363-376 | the job handler fails only on a job that was accepted without a slave for its destination |
| `IngestSafety.EveryJobFinishesIff` | LTA/LTAIngest/master.py:188-210 | once no more jobs arrive, a run that goes on until no process can has finished every accepted job if and only if each of them has a slave for its destination |
| `IngestMaster.LtaMaster.GetSlave` | LTA/LTAIngest/master.py:363-376 | the first shortest queue among the slaves with the destination in their name, none exactly if no name has it |
| `IngestMaster.SlaveDone` | LTA/LTAIngest/master.py:383-387 | the update and the job are queued |
| `IngestMaster.JobHandler.UpdateFile` | LTA/LTAIngest/master.py:128-160 | the new file name, and from where to where the file is moved: A_, EoR_ or B_ before the group according to the job's type, upper and lower case counting for MoM only |
| `IngestMaster.JobHandler.JobDone` | LTA/LTAIngest/master.py:162-169 | the job leaves the active list and is scheduled again exactly if it is to be retried |
| `IngestMaster.JobHandler.Pass` | LTA/LTAIngest/master.py:190-210 | one pass of the main loop is a finished job, if any, then a start if there is room, on a slave with a shortest matching queue; if no slave matches, and only then, it fails, with the job active and in no queue |
| `IngestMaster.JobHandler.MakeActive` | LTA/LTAIngest/master.py:204-206 | the update with the old status is sent, then the job is active as producing |
| `IngestMaster.DoneProjects` | LTA/LTAIngest/master.py:192-199 | seen from the job handler, the state machine's step for a finished job is the first half of that pass |
| `IngestMaster.BeginProjects` | LTA/LTAIngest/master.py:200-205 | seen from the job handler, the step that takes a scheduled job is what it has done when it fails |
| `IngestMaster.StartProjects` | LTA/LTAIngest/master.py:200-210 | that step and the one that sends the job to a slave are the second half of the pass, the slave having a shortest queue among those with the destination in their name |
| `IngestMaster.TakeProjects` | LTA/LTAIngest/slave.py:194-206 | seen from a slave, taking a job is a pass of its loop |
| `IngestMaster.FinishProjects` | LTA/LTAIngest/slave.py:88-137 | the step that ends a run reports the job as the executer leaves it and sends the update |
| `IngestMaster.ExecuterRun` | LTA/LTAIngest/slave.py:88-137 | status, retry count, error and what MoM is told, for every way a pipeline can end; a failure is told only when the job is given up |
| `IngestMaster.LtaSlave.Pass` | LTA/LTAIngest/slave.py:194-206 | takes the oldest job exactly if fewer than parallelJobs executers are counted, and never counts more |
| `IngestMaster.JobGroup.AddJob` | LTA/LTAIngest/job_group.py.in:71-82 | the counters count one more scheduled job |
| `IngestMaster.JobGroup.UpdateJob` | LTA/LTAIngest/job_group.py.in:91-131 | given an update that fits the job's last status, the counters again say how many jobs have which status |
| `IngestMaster.JobGroup.CheckFinished` | LTA/LTAIngest/job_group.py.in:133-140 | finished if and only if every job of the group is done or given up |
| `IngestMaster.SettledIff` | LTA/LTAIngest/job_group.py.in:135-137 | the four counters are zero exactly then, and the remaining two add up to the number of jobs |
| `IngestPipelines.IngestPipeline.GetTicket` | LTA/LTAIngest/ingestpipeline.py:111-148 | fields are set up to the first missing key; an incomplete ticket is reset before the call fails; archived files and unknown projects are not retried |
| `IngestPipelines.IngestPipeline.CallStage` | LTA/LTAIngest/ingestpipeline.py:168-312 | the outcome of a call of each stage for every answer from outside |
| `IngestPipelines.IngestPipeline.RetryRun` | LTA/LTAIngest/ingestpipeline.py:503-527 | calls until success, a PipelineError or the last try; the loop is the recursive description |
| `IngestPipelines.IngestPipeline.HandleError` | LTA/LTAIngest/ingestpipeline.py:554-587 | roll back, report of the failure and which error is raised again |
| `IngestPipelines.IngestPipeline.RunPipeline` | LTA/LTAIngest/ingestpipeline.py:529-587 | the six stages in order up to the first that fails, then the handling |
| `IngestReports.SuccessMeansAllStages` | LTA/LTAIngest/ingestpipeline.py:533-544 | whenever success is reported, whatever the answer, just the stages that are tried at all have succeeded before, in order; if the report is accepted nothing is ever rolled back and no error raised |
| `IngestReports.SuccessMeansTransferIff` | LTA/LTAIngest/ingestpipeline.py:535-538 | at every report of success, whatever the answer, the file has been transferred if and only if transfers are tried at all |
| `IngestReports.SuccessWithoutTransfer` | LTA/LTAIngest/ingestpipeline.py:503-538 | a run that reports success of a file that was not transferred |
| `IngestReports.SuccessWithRetries` | LTA/LTAIngest/ingestpipeline.py:533-544 | with at least one try each, ticket, transfer, checksums, GetSIP and SendSIP have succeeded in this order before every report of success, whatever the answer |
| `IngestReports.TakenBackIff` | LTA/LTAIngest/ingestpipeline.py:544-559 | a run rolls back after it has reported success if and only if it has reported it, no such report was accepted, and it holds a URI |
| `IngestReports.ReportMayBeTakenBack` | LTA/LTAIngest/ingestpipeline.py:544-559 | such a run, all stages having succeeded before the report |
| `IngestReports.NoErrorIff` | LTA/LTAIngest/ingestpipeline.py:569-587 | the caller sees no error if and only if every stage that is tried at all has succeeded, the source does not exist, or the file is archived already; the first includes an accepted report of success if and only if calls to the archive are tried at all |
| `IngestReports.ProducedIff` | LTA/LTAIngest/slave.py:98-134 | a job becomes produced exactly in those cases; in all others its retry count goes up by one |
| `IngestReports.NeverRaised` | LTA/LTAIngest/slave.py:104-113 | the executer's branches for a missing source and an archived file are never taken |
| `IngestReports.FailureRollsBackIff` | LTA/LTAIngest/ingestpipeline.py:554-564 | a run that fails rolls back if and only if it holds a URI and the source was not missing, once, and before reporting the failure, which it reports if and only if it holds a ticket |
| `IngestReports.AlreadyArchivedRollsBackIff` | LTA/LTAIngest/ingestpipeline.py:133-147 | a run on an archived file rolls back if and only if an earlier incomplete answer had left a temporary URI |
| `IngestReports.AlreadyArchivedMayRollBack` | LTA/LTAIngest/ingestpipeline.py:143-145 | such a run exists |
| `IngestAnswers.TriesBounded` | LTA/LTAIngest/ingestpipeline.py:533-544 | transfers are tried at most srmRetry times, GetSIP at most momRetry times, the other stages at most ltaRetry times |
| `IngestAnswers.FailsIff` | LTA/LTAIngest/ingestpipeline.py:111-312 | which answers end a run at once, and with which error; apart from them a run fails if and only if all tries of some stage have been used up without success |
| `IngestAnswers.SucceededIff` | LTA/LTAIngest/ingestpipeline.py:111-312 | a stage has succeeded if and only if it was given an answer that lacks nothing |
| `IngestAnswers.FailureHandledIff` | LTA/LTAIngest/ingestpipeline.py:554-587 | a run that fails rolls back if and only if the answers have left it a URI, temporary or not, and the source was not missing; it reports the failure if and only if they have left it a ticket, until the report is accepted or rejected or ltaRetry tries are used up |
| `HostSchedulers.HostScheduler.Fill` | LTA/LTAIngest/ingestpipeline.py:664-678 | every parsed job is in its host's queue once, under the name of its file, in the order of the files; unparsable files are skipped |
| `HostSchedulers.EarlierFileFirst` | LTA/LTAIngest/ingestpipeline.py:664-678 | of two files of jobs for one host the earlier one's job has the earlier place |
| `HostSchedulers.HostScheduler.StartOn` | LTA/LTAIngest/ingestpipeline.py:689-713 | on a free host an empty queue is dropped or, if allowed, the next job is started; no other host changes |
| `HostSchedulers.HostScheduler.StartJobs` | LTA/LTAIngest/ingestpipeline.py:683-713 | at most one pipeline for each host and maxParallelJobs in all; something is running or a host is done |
| `HostSchedulers.HostScheduler.CheckJobs` | LTA/LTAIngest/ingestpipeline.py:719-731 | ended pipelines are removed, others stay |
| `HostSchedulers.HostScheduler.OnePass` | LTA/LTAIngest/ingestpipeline.py:682-747 | a pass of the main loop lowers the work left if a pipeline is allowed; if none is, and no queue is empty, it changes nothing |
| `HostSchedulers.HostScheduler.Passes` | LTA/LTAIngest/ingestpipeline.py:682-747 | the loop ends within as many passes as there is work left if a pipeline is allowed; if none is, and there are jobs, it has not ended after any number of passes |
| `HostSchedulers.HostScheduler.Run` | LTA/LTAIngest/ingestpipeline.py:682-747 | where it ends, every parsed job has been run exactly once, in FIFO order for each host |
| `HostSchedulers.HostScheduler.RunFiles` | LTA/LTAIngest/ingestpipeline.py:664-747 | from the files to the end: each host's jobs have been run once each, in the order of the files |
| `HostSchedulers.Progress` | LTA/LTAIngest/ingestpipeline.py:682-747 | every pass of the loop makes the work left smaller |
| `Averages.MixIsBatch` | CEP/GSM/src/msssprocess.py:380-409 | updating all nine averages by one measurement gives the averages over all measurements |
| `Averages.BatchSums` | CEP/GSM/src/msssprocess.py:331-409 | each of the nine averages times the number of measurements is the sum of what its column averages, in terms of the fields of the sources |
| `Averages.ExtendedOk` | CEP/GSM/src/msssprocess.py:331-409 | the extended row has the weighted means, their errors and the zone of its whole history, the id given and the data set of the row |
| `Averages.NewRowOk` | CEP/GSM/src/msssprocess.py:1303-1361 | a new row has those of its one measurement, the id of the source and the data set given |
| `Averages.ZonesDropNothing` | CEP/GSM/src/msssprocess.py:416-419 | the zone filter never drops a row that passes the declination window |
| `Associations.Database.InsertTemprunningcatalog` | CEP/GSM/src/msssprocess.py:266-433 | the temporary table holds the matches of all sources with all catalogue rows |
| `Associations.Database.MinDistance` | CEP/GSM/src/msssprocess.py:621-637 | count and smallest distance over the matches of a source joined with the catalogue rows of their ids |
| `Associations.Database.SelectFarther` | CEP/GSM/src/msssprocess.py:619-655 | selects exactly the pairs that some joined row puts farther than the smallest distance of their source |
| `Associations.Database.FlagMultipleCounterparts` | CEP/GSM/src/msssprocess.py:655-670 | deleting the pairs selected, one after the other, leaves exactly the matches that none of their source is closer than |
| `Associations.Database.InsertMultipleAssocs` | CEP/GSM/src/msssprocess.py:770-822 | appends the swapped pair for every match, in table order, whose row is counted more than once, for each catalogue row joined |
| `Associations.Database.FlagSwappedAssocs` | CEP/GSM/src/msssprocess.py:865-890 | deletes the associations of the rows counted more than once, and no other |
| `Associations.Database.InsertMultipleAssocsRuncat` | CEP/GSM/src/msssprocess.py:894-957 | appends, for every such match, its row under the source's id |
| `Associations.Database.FlagMultipleAssocs` | CEP/GSM/src/msssprocess.py:986-1006 | deletes the matches of such rows, the counts being those before the statement |
| `Associations.Database.UpdateRunningcatalog` | CEP/GSM/src/msssprocess.py:1051-1110 | one UPDATE for each match left, in order |
| `Associations.Database.InsertNewSourceRuncat` | CEP/GSM/src/msssprocess.py:1303-1390 | appends a row for each source that no row of the catalogue before the statement is close to |
| `Associations.Database.AssociateExtractedSources` | CEP/GSM/src/msssprocess.py:1537-1567 | all statements in this order change the tables as `Process` does, of which the lemmas are |
| `AssociationSafety.FindMatchesOk` | CEP/GSM/src/msssprocess.py:410-424 | a match is in the temporary table if and only if it is that of a close pair of a row and a source |
| `AssociationSafety.NearestUniqueIff` | CEP/GSM/src/msssprocess.py:619-654 | every source is left with at most one match if and only if no two matches of one are both left by the distances, for any table |
| `AssociationSafety.KeptIff` | CEP/GSM/src/msssprocess.py:619-670 | the match of a row and a source is kept if and only if the row is close and no close row is closer |
| `AssociationSafety.OneMatchIff` | CEP/GSM/src/msssprocess.py:619-670 | every source keeps at most one match if and only if no source has two different close rows at the same smallest distance |
| `AssociationSafety.NearestKeepsClosest` | CEP/GSM/src/msssprocess.py:652-653 | a match that is kept is closest among all rows joined, for any table |
| `AssociationSafety.NearestLosesNone` | CEP/GSM/src/msssprocess.py:652-666 | with unique ids a source with matches keeps one |
| `AssociationSafety.OneToOne` | CEP/GSM/src/msssprocess.py:1545-1557 | afterwards every catalogue row has at most one match and, without ties, every source too |
| `AssociationCases.TwoMatchesLeft` | CEP/GSM/src/msssprocess.py:1545-1557 | a source half way between two rows of a reached catalogue is left with two matches |
| `AssociationSafety.RowComesFrom` | CEP/GSM/src/msssprocess.py:894-1110 | every catalogue row afterwards is an old unmatched row, the updated row of a match, or a row split off for a source; ids may repeat |
| `AssociationSafety.RowsExactly` | CEP/GSM/src/msssprocess.py:894-1110 | for new sources, the catalogue afterwards is exactly the old rows without a match kept and, for every match kept, its row under the id of the row or of the source |
| `AssociationSafety.AssocsExactly` | CEP/GSM/src/msssprocess.py:770-1040 | the associations afterwards are exactly the old ones of rows that were not split, and for each match kept those it records: the swapped and the identity pair for a source of a split row, the pair with its row for any other |
| `AssociationSafety.IdsUniqueIff` | CEP/GSM/src/msssprocess.py:894-983 | the catalogue ids stay unique if and only if no source has two different close rows at the same smallest distance that are both nearest to another source as well |
| `AssociationCases.RepeatedId` | CEP/GSM/src/msssprocess.py:894-983 | two images, with the expressions of the queries, after which an id is in the catalogue twice |
| `AssociationCases.AllMatchesLost` | CEP/GSM/src/msssprocess.py:646-670 | a third image whose source then loses all its matches, so that the tables stay as they were |
| `AssociationSafety.NoTiesUnique` | CEP/GSM/src/msssprocess.py:1545-1558 | without ties they stay unique |
| `AssociationSafety.IdentityRowsKept` | CEP/GSM/src/msssprocess.py:826-891 | every catalogue id keeps or gets its identity row, ties or not, repeated ids or not |
| `AssociationSafety.NewIdsUniqueIff` | CEP/GSM/src/msssprocess.py:1303-1390 | inserting new sources keeps ids unique if and only if none of them is in the catalogue already |
| `AssociationSafety.InsertedExactly` | CEP/GSM/src/msssprocess.py:1186-1390 | inserting new sources adds exactly a row of its own for each source that no row is close to, and exactly the identity pair for each that no row is close to by the expression for new associations |
| `AssociationCases.InsertedAgain` | CEP/GSM/src/msssprocess.py:1362-1381 | two images near the pole, with the expressions of the queries, after which a source that was split off is in the catalogue twice |
| `AssociationSafety.NewIdentityRowsIff` | CEP/GSM/src/msssprocess.py:1186-1245 | every id has its identity row if and only if every source new to the catalogue is new to the associations too or has one from before |
| `AssociationCases.NoIdentityRow` | CEP/GSM/src/msssprocess.py:1221-1236 | two images near the pole, with the expressions of the queries, after which a catalogue id has no identity row |
| `AssociationRuns.WeightedKept` | CEP/GSM/src/msssprocess.py:1537-1567 | weights stay positive, so that any measured image can follow |
| `AssociationRuns.AveragesKept` | CEP/GSM/src/msssprocess.py:1537-1567 | every image, whatever is close to what, leaves each catalogue row with the averages over its history: that of the row it comes from, with the source matched, or the source that is new |
| `AssociationRuns.ReachableAverages` | CEP/GSM/src/msssprocess.py:1526-1567 | so does every sequence of measured images from the empty catalogue, ties, repeated ids and inconsistent queries included |
| `AssociationRuns.ReachableZones` | CEP/GSM/src/msssprocess.py:416-419 | in every such catalogue the zone filter drops no row that passes the declination window |
| `Positions.AssocAgainstClose` | CEP/GSM/src/msssprocess.py:1224-1235 | the expression for new associations differs from that of the other queries by the sine of the row's declination times how much larger it is than that of the source: it is wider or narrower accordingly |
| `Positions.CloseIsNear` | CEP/GSM/src/msssprocess.py:410-424 | within the windows a row is close if and only if the chord to the source is shorter than that of bmaj, so that closeness and the distances compared agree |
| `Positions.PolesKeepAll` | CEP/GSM/src/msssprocess.py:416-424 | near either pole the window in right ascension leaves out nothing within half a turn |
| `AssociationOrders.KnownAfterIff` | CEP/GSM/src/msssprocess.py:1369-1380 | a source is close to a row after the matches have been worked in if and only if it is close to a row of the catalogue before that is nearest to no source, or to a nearest row with its source averaged in |
| `AssociationOrders.InCatalogueIff` | CEP/GSM/src/msssprocess.py:894-957 | it is in the catalogue then if and only if it has a nearest row that is nearest to another source too |
| `AssociationOrders.FirstAfterIff` | CEP/GSM/src/msssprocess.py:826-891 | it has an identity row then if and only if it had one before or has such a row |
| `AssociationOrders.UniqueAfterIff` | CEP/GSM/src/msssprocess.py:1537-1567 | the catalogue ids are unique after an image if and only if no source is tied between two nearest rows it shares, and every source that is split off will be close to some row |
| `AssociationOrders.OrderKeptIff` | CEP/GSM/src/msssprocess.py:1537-1567 | an image keeps unique ids and identity rows if and only if, besides, every source that will be close to no row will not be by the expression for new associations either; all said of the catalogue before and the image |
| `AssociationOrders.TiesAloneMatter` | CEP/GSM/src/msssprocess.py:1362-1381 | if averaging keeps close rows close, every source split off is known afterwards, and with one expression for all queries ties alone decide |
| `AssociationOrders.IdsFromSources` | CEP/GSM/src/msssprocess.py:894-1390 | every id of a reachable catalogue is that of a source of an image |
| `AssociationOrders.AlwaysInOrderIff` | CEP/GSM/src/msssprocess.py:1526-1567 | for images whose sources have ids of their own, the catalogue has unique ids and identity rows after every image if and only if every image meets these conditions when its turn comes |
| `EmbraceColumns.UvwColumn.constructor` | EmbraceStMan/src/EmbraceColumn.cc:178-185 | no entry is filled and no block has been seen |
| `EmbraceColumns.UvwColumn.GetArraydoubleV` | EmbraceStMan/src/EmbraceColumn.cc:191-230 | whatever rows were asked for before, each component of the answer is what takes that of the first antenna of the row's baseline, at the time of its block, to that of the second; zero without an antenna table |
| `EmbraceColumns.AntColumn.GetIntV` | EmbraceStMan/src/EmbraceColumn.cc:62-83 | the row's antenna, and a cache range in which every row is answered rightly |
| `EmbraceColumns.AntColumn.Get` | EmbraceStMan/src/EmbraceColumn.cc:62-83 | in any order of accesses, from the cache or not, the row's antenna |
| `EmbraceColumns.TimeColumn.GetdoubleV` | EmbraceStMan/src/EmbraceColumn.cc:87-98 | the time of the row's block, and a cache range in which every row is answered rightly |
| `EmbraceColumns.TimeColumn.Get` | EmbraceStMan/src/EmbraceColumn.cc:87-98 | in any order of accesses, from the cache or not, the time of the row's block |
| `PpsDelays.GoodIsFirstFifteen` | LCU/StationTest/pps.py:218-220 | a measurement is good if and only if the first fifteen antenna processors of the subrack show no difference; the sixteenth has no influence |
| `PpsDelays.Tracker.Step` | LCU/StationTest/pps.py:229-241 | after every delay the counters hold the current run and the earliest longest run of good delays |
| `PpsDelays.PpsTest.Measured` | LCU/StationTest/pps.py:212-271 | the same for the three subracks, each from its own slice |
| `PpsDelays.FindDelays` | LCU/StationTest/pps.py:392-404 | the delay of every subrack is half way its earliest longest run |
| `PpsDelays.EarliestLongestUnique` | LCU/StationTest/pps.py:224-241 | there is one earliest longest run |
| `PpsDelays.ChosenIsGoodIff` | LCU/StationTest/pps.py:277-292 | the delay chosen is a good one if and only if there is a good delay |
| `PpsDelays.ChosenIsMiddle` | LCU/StationTest/pps.py:277-292 | it is the middle of the earliest run no other run is longer than |

## Left out

Master and workers

- The process functions of concrete workers: the reply contracts stand for them (local workers answer SetWd, Step and GlobalInfo, global workers SetWd, Step and GlobalExec; what is forwarded is no command the receiver answers).
- MasterControls.MasterControl.SolveLoop: its termination, and that of whole runs, needs that the global worker converges (`Converges`, used for nothing else); all other whole-run theorems also cover runs that never converge.
- MasterControls.MasterControl.ProcessSteps: needs a non-negative start frequency and positive sizes, because the loop does not end otherwise.
- MasterControls.RunMaster: covers the single-process branch; remote runs are covered by the FIFO system, and the assignment of parts by `Allocation`.
- WorkerControls.WorkerControl.Run: the worker information a worker sends before its loop is not in the channel; it is what `Allocation.SplitWorkers` gets.
- Messages are values in the protocol and bytes only in `Blobs`; streamId is always 0, and the timings in a reply are left out of the protocol.
- Runs with more local workers than data parts, which index past the end of the part names; runs with no global worker, for which the controller makes one.
- Step types of other visitors (registerVisit and the visit functions that throw).
- MPI, the connection set-up of sockets, ssh start-up scripts.
- Doubles are reals; integers are unbounded except where bytes are laid out.

Allocation and serialisation

- `makeFromHead` and `makeFromDirs` of finddproc, the printing of node names, reading cluster descriptions from files.
- A leaf step's own data is a length and bytes; the concrete leaf classes are not part of this model.
- Data-format bytes other than little and big endian; messages of 2^31 bytes and more.
- Connections.SocketConnection.Receive: the bytes asked for do arrive unless a read fails, and reads do not give nothing for ever, on which the code would wait for ever; connecting again.

Ingest

- IngestSafety.RunSafe: export ids are distinct and slaves do not leave; a step bundles what is said above, so a slave's queue does not change between the choice of the slave and the put.
- Jobs read from disk at a restart, job files that cannot be parsed, job groups read from old directories, mails, counters for each observation and file type.
- IngestMaster.JobGroup.UpdateJob: one group; that its updates fit is `IngestSafety.NextUpdateFits`.
- IngestPipelines.IngestPipeline.RunPipeline: interrupts and errors other than those a stage raises (the last except branch), the contents of SIPs, checksums and transfer logs, and waiting times.
- HostSchedulers.HostScheduler.Run: pipelines end after some time; the branch that puts a job back is left out because the flag it looks at is set before and never cleared; the order in which hosts are looked at is arbitrary.

Association, columns, delays

- Extracted sources have positive errors and the zone of their declination, as the insertion of detections gives them.
- Sine, cosine and the expansion in ra are arbitrary functions with the values used; distances are compared as squared chords, with which the angle grows; bands, spectra and the associations by de Ruiter radius are left out.
- AssociationOrders.AlwaysInOrderIff: sources have ids of their own, as the database gives them; a catalogue that is out of order after one image and in order again after a later one is not looked at.
- UVW coordinates are an arbitrary function of antenna and time; the interval and constant columns, and writing data, are left out.
- Reading measurements from the hardware and setting the delays; the measurement vectors are given.
