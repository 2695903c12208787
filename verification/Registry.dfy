/** The lock-file registry of crates/clawdesk-agents/src/agent_registry.rs: several processes that
  * mutate one JSON file under a lock file, through a shared temp file and a rename.
  *
  * Each file-system call is one step; steps of different processes interleave freely and a process
  * may crash between any two of its steps. A lock file is identified by the creation that made it,
  * so that two lock files at the same path can be told apart. "Older than 30 s" is a free choice of
  * the inspecting step.
  *
  * The stale-lock check and the removal are two separate calls in the source, and the removal
  * deletes whatever file is at the path by then. `ReclaimSafe` is the condition under which a
  * removal does no harm: the file it deletes has no live holder. The safety lemmas are about runs
  * whose removals all meet it; `ReclaimExactly` says that a removal that does not meet it lets two
  * processes in, and `UncheckedReclaimLosesUpdate` is a run of the source's own steps that loses an
  * update that way. `AtomicReclaimExactly` says when check and removal in one step would do.
  */
module AgentRegistry {
  import opened Wrappers

  // ---------------------------------------------------------------------------------------------
  // Registry contents
  // ---------------------------------------------------------------------------------------------

  datatype AgentState = Queued | Running | Completed | Failed | TimedOut | Cancelled | Reaped {
    predicate IsTerminal() {
      Completed? || Failed? || TimedOut? || Cancelled? || Reaped?
    }
  }

  datatype Handle = Handle(state: AgentState, output: Option<string>, error: Option<string>, completedAt: Option<nat>)

  type Agents = map<string, Handle>

  datatype Snapshot = Snapshot(version: nat, agents: Agents)

  const EMPTY := Snapshot(0, map[])

  /** The mutations the registry offers, with the time each was given. */
  datatype Op =
    | Register(id: string, handle: Handle)
    | UpdateState(id: string, state: AgentState, at: nat)
    | SetOutput(id: string, output: string, at: nat)
    | SetError(id: string, error: string, at: nat)
    | Gc(cutoff: nat)

  function Mutate(agents: Agents, op: Op): Agents {
    match op
    case Register(id, handle) => agents[id := handle]
    case UpdateState(id, state, at) =>
      if id !in agents then agents
      else
        var h := agents[id].(state := state);
        agents[id := if state.IsTerminal() then h.(completedAt := Some(at)) else h]
    case SetOutput(id, output, at) =>
      if id !in agents then agents
      else agents[id := agents[id].(state := Completed, output := Some(output), completedAt := Some(at))]
    case SetError(id, error, at) =>
      if id !in agents then agents
      else agents[id := agents[id].(state := Failed, error := Some(error), completedAt := Some(at))]
    case Gc(cutoff) =>
      map id | id in agents && !Collected(agents[id], cutoff) :: agents[id]
  }

  /** In a terminal state, with a completion time that is not after the cutoff. */
  predicate Collected(h: Handle, cutoff: nat) {
    h.state.IsTerminal() && h.completedAt.Some? && h.completedAt.value <= cutoff
  }

  function Commit(s: Snapshot, op: Op): Snapshot {
    Snapshot(s.version + 1, Mutate(s.agents, op))
  }

  /** The registry after these mutations, in this order. */
  function Fold(ops: seq<Op>): (s: Snapshot)
    ensures s.version == |ops|
    decreases |ops|
  {
    if ops == [] then EMPTY else Commit(Fold(ops[..|ops| - 1]), ops[|ops| - 1])
  }

  lemma FoldAppend(ops: seq<Op>, op: Op)
    ensures Fold(ops + [op]) == Commit(Fold(ops), op)
  {}

  // ---------------------------------------------------------------------------------------------
  // The protocol
  // ---------------------------------------------------------------------------------------------

  type Proc = nat

  /** A lock file: which creation made it, by whom, and whether the pid has been written yet. */
  datatype LockFile = LockFile(id: nat, creator: Proc, written: bool)

  datatype File = Absent | Partial | Whole(snap: Snapshot)

  /** Where a process is inside `mutate`. */
  datatype Pc =
    | Out
    | Checked(suspect: Option<nat>)          // stale check done; Some: it decided to remove
    | Trying                                 // in the create_new retry loop
    | Created(lock: nat)                     // lock file exists, pid not written
    | Holding(lock: nat)
    | Loaded(lock: nat, op: Op, snap: Snapshot)   // registry read and mutated in memory
    | Writing(lock: nat, op: Op, snap: Snapshot)  // temp file half written
    | Written(lock: nat, op: Op, snap: Snapshot)  // temp file complete
    | Renamed(lock: nat, snap: Snapshot)
    | Releasing(lock: nat)

  /** Inside the locked section. */
  predicate Inside(pc: Pc) {
    pc.Created? || pc.Holding? || pc.Loaded? || pc.Writing? || pc.Written? || pc.Renamed? || pc.Releasing?
  }

  /** Between the read of the registry and the rename. */
  predicate Mutating(pc: Pc) {
    pc.Loaded? || pc.Writing? || pc.Written?
  }

  datatype State = State(dead: set<Proc>, pcs: map<Proc, Pc>, lock: Option<LockFile>, nextId: nat,
                         tmp: File, registry: File, committed: seq<Op>,
                         caches: map<Proc, Snapshot>, pending: map<Proc, Snapshot>)
  {
    function PcOf(p: Proc): Pc { if p in pcs then pcs[p] else Out }

    function Goto(p: Proc, pc: Pc): State { this.(pcs := pcs[p := pc]) }

    /** What a reader of the registry file gets; a missing file is an empty registry. */
    function OnDisk(): Snapshot
      requires !registry.Partial?
    {
      if registry.Whole? then registry.snap else EMPTY
    }
  }

  datatype Action =
    | Inspect(aged: bool)  // exists + metadata + read_to_string + kill(pid, 0)
    | Reclaim             // remove_file, when the check decided so
    | TryCreate           // create_new
    | GiveUp              // after 100 attempts, or on another error
    | WritePid
    | FailPid             // write_all failed: mutate returns and leaves the lock file behind
    | Load(op: Op)        // read_from_disk, mutate_fn
    | StartWrite
    | FinishWrite
    | Rename
    | UpdateCache
    | Fail                // an I/O error inside the section: go on to release
    | Panic               // mutate_fn unwinds: the lock file is left behind
    | Release             // remove_file
    | ReadDisk            // read(): cache miss, file read
    | Populate            // read(): the snapshot goes into the cache
    | Crash

  datatype Step = Step(p: Proc, action: Action)

  ghost predicate Enabled(s: State, step: Step) {
    var pc := s.PcOf(step.p);
    && step.p !in s.dead
    && match step.action
       case Inspect(_) => pc.Out?
       case Reclaim => pc.Checked?
       case TryCreate => pc.Trying?
       case GiveUp => pc.Trying?
       case WritePid => pc.Created?
       case FailPid => pc.Created?
       case Load(_) => pc.Holding? && !s.registry.Partial?
       case StartWrite => pc.Loaded?
       case FinishWrite => pc.Writing?
       case Rename => pc.Written? && !s.tmp.Absent?
       case UpdateCache => pc.Renamed?
       case Fail => pc.Holding? || Mutating(pc)
       case Panic => pc.Holding?
       case Release => pc.Releasing?
       case ReadDisk => step.p !in s.caches && s.registry.Whole?
       case Populate => step.p in s.pending
       case Crash => true
  }

  /** Would the stale check decide to remove this file? It must be old, and hold a dead pid or none. */
  predicate LooksStale(s: State, f: LockFile, aged: bool) {
    aged && (f.written ==> f.creator in s.dead)
  }

  ghost function After(s: State, step: Step): State
    requires Enabled(s, step)
  {
    var p, pc := step.p, s.PcOf(step.p);
    match step.action
    case Inspect(aged) =>
      s.Goto(p, Checked(if s.lock.Some? && LooksStale(s, s.lock.value, aged) then Some(s.lock.value.id) else None))
    case Reclaim => (if pc.suspect.Some? then s.(lock := None) else s).Goto(p, Trying)
    case TryCreate =>
      if s.lock.Some? then s
      else s.(lock := Some(LockFile(s.nextId, p, false)), nextId := s.nextId + 1).Goto(p, Created(s.nextId))
    case GiveUp => s.Goto(p, Out)
    case WritePid =>
      (if s.lock.Some? && s.lock.value.id == pc.lock then s.(lock := Some(s.lock.value.(written := true))) else s)
        .Goto(p, Holding(pc.lock))
    case FailPid => s.Goto(p, Out)
    case Load(op) => s.Goto(p, Loaded(pc.lock, op, Commit(s.OnDisk(), op)))
    case StartWrite => s.(tmp := Partial).Goto(p, Writing(pc.lock, pc.op, pc.snap))
    case FinishWrite => s.(tmp := Whole(pc.snap)).Goto(p, Written(pc.lock, pc.op, pc.snap))
    case Rename =>
      s.(registry := s.tmp, tmp := Absent, committed := s.committed + [pc.op]).Goto(p, Renamed(pc.lock, pc.snap))
    case UpdateCache => s.(caches := s.caches[p := pc.snap]).Goto(p, Releasing(pc.lock))
    case Fail => s.Goto(p, Releasing(pc.lock))
    case Panic => s.Goto(p, Out)
    case Release => s.(lock := None).Goto(p, Out)
    case ReadDisk => s.(pending := s.pending[p := s.OnDisk()])
    case Populate => s.(caches := s.caches[p := s.pending[p]])
    case Crash => s.(dead := s.dead + {p})
  }

  ghost predicate Init(s: State) {
    && s.pcs == map[] && s.lock == None && s.tmp == Absent && s.registry == Absent
    && s.committed == [] && s.caches == map[] && s.pending == map[]
  }

  /** The file at the lock path is not the lock of a live process inside the section. */
  ghost predicate ReclaimSafe(s: State) {
    s.lock.Some? ==> !Held(s, s.lock.value)
  }

  ghost predicate Held(s: State, f: LockFile) {
    f.creator !in s.dead && Inside(s.PcOf(f.creator)) && s.PcOf(f.creator).lock == f.id
  }

  /** A removal is careful when it removes nothing or what it removes has no live holder. */
  ghost predicate Careful(s: State, step: Step)
    requires Enabled(s, step)
  {
    step.action.Reclaim? && s.PcOf(step.p).suspect.Some? ==> ReclaimSafe(s)
  }

  // ---------------------------------------------------------------------------------------------
  // What every careful step keeps
  // ---------------------------------------------------------------------------------------------

  /** Every live process inside the section owns the file at the lock path. */
  ghost predicate Exclusive(s: State) {
    forall p :: p !in s.dead && Inside(s.PcOf(p)) ==> Owns(s, p)
  }

  ghost predicate Owns(s: State, p: Proc)
    requires Inside(s.PcOf(p))
  {
    s.lock.Some? && s.lock.value.creator == p && s.lock.value.id == s.PcOf(p).lock
  }

  /** The file is the fold of the committed mutations; it is never half written. */
  ghost predicate Durable(s: State) {
    s.registry == if s.committed == [] then Absent else Whole(Fold(s.committed))
  }

  /** What a process inside the section is about to commit builds on everything committed so far. */
  ghost predicate InFlight(s: State) {
    forall p :: p !in s.dead ==> FlightOk(s, p)
  }

  ghost predicate FlightOk(s: State, p: Proc) {
    var pc := s.PcOf(p);
    && (Mutating(pc) ==> pc.snap == Commit(Fold(s.committed), pc.op))
    && (pc.Written? ==> s.tmp == Whole(pc.snap))
    && (pc.Renamed? ==> pc.snap == Fold(s.committed))
  }

  /** A snapshot some prefix of the committed mutations produced. */
  ghost predicate WasCommitted(s: State, snap: Snapshot) {
    exists n :: 0 <= n <= |s.committed| && snap == Fold(s.committed[..n])
  }

  ghost predicate ReadsCommitted(s: State) {
    && (forall p :: p in s.caches ==> WasCommitted(s, s.caches[p]))
    && (forall p :: p in s.pending ==> WasCommitted(s, s.pending[p]))
  }

  ghost predicate Inv(s: State) {
    Exclusive(s) && Durable(s) && InFlight(s) && ReadsCommitted(s)
  }

  lemma ExclusiveStep(s: State, step: Step)
    requires Exclusive(s) && Enabled(s, step) && Careful(s, step)
    ensures Exclusive(After(s, step))
  {
    var s' := After(s, step);
    forall p | p !in s'.dead && Inside(s'.PcOf(p)) ensures Owns(s', p) {
      if p != step.p {
        assert s'.PcOf(p) == s.PcOf(p);
        assert Owns(s, p);
      }
    }
  }

  lemma DurableStep(s: State, step: Step)
    requires Exclusive(s) && Durable(s) && InFlight(s) && Enabled(s, step)
    ensures Durable(After(s, step))
  {
    if step.action.Rename? {
      assert FlightOk(s, step.p);
      FoldAppend(s.committed, s.PcOf(step.p).op);
    }
  }

  /** Any other process that is between read and rename has been shut out. */
  lemma OthersNotInside(s: State, step: Step, p: Proc)
    requires Exclusive(s) && Enabled(s, step) && Inside(s.PcOf(step.p)) && p != step.p && p !in s.dead
    ensures !Inside(s.PcOf(p))
  {}

  lemma OtherFlightStep(s: State, step: Step, p: Proc)
    requires Exclusive(s) && FlightOk(s, p) && Enabled(s, step) && p != step.p && p !in s.dead
    ensures FlightOk(After(s, step), p)
  {
    assert After(s, step).PcOf(p) == s.PcOf(p);
    if step.action.Rename? || step.action.StartWrite? || step.action.FinishWrite? {
      OthersNotInside(s, step, p);
    }
  }

  lemma OwnFlightStep(s: State, step: Step)
    requires Durable(s) && FlightOk(s, step.p) && Enabled(s, step)
    ensures FlightOk(After(s, step), step.p)
  {
    if step.action.Rename? {
      RenameFlightStep(s, step);
    } else {
      QuietFlightStep(s, step);
    }
  }

  /** The rename makes the snapshot the fold of what is now committed. */
  lemma RenameFlightStep(s: State, step: Step)
    requires Durable(s) && FlightOk(s, step.p) && Enabled(s, step) && step.action.Rename?
    ensures FlightOk(After(s, step), step.p)
  {
    FoldAppend(s.committed, s.PcOf(step.p).op);
  }

  lemma QuietFlightStep(s: State, step: Step)
    requires Durable(s) && FlightOk(s, step.p) && Enabled(s, step) && !step.action.Rename?
    ensures FlightOk(After(s, step), step.p)
  {
    var pc, pc' := s.PcOf(step.p), After(s, step).PcOf(step.p);
    assert After(s, step).committed == s.committed;
    assert Mutating(pc') ==> (Mutating(pc) && pc'.op == pc.op && pc'.snap == pc.snap) || step.action.Load?;
  }

  lemma InFlightStep(s: State, step: Step)
    requires Exclusive(s) && Durable(s) && InFlight(s) && Enabled(s, step)
    ensures InFlight(After(s, step))
  {
    forall p | p !in After(s, step).dead ensures FlightOk(After(s, step), p) {
      assert FlightOk(s, p);
      if p == step.p {
        OwnFlightStep(s, step);
      } else {
        OtherFlightStep(s, step, p);
      }
    }
  }

  lemma CommittedStays(s: State, step: Step, snap: Snapshot)
    requires Enabled(s, step) && WasCommitted(s, snap)
    ensures WasCommitted(After(s, step), snap)
  {
    var n :| 0 <= n <= |s.committed| && snap == Fold(s.committed[..n]);
    assert After(s, step).committed[..n] == s.committed[..n];
  }

  lemma CurrentWasCommitted(s: State)
    requires Durable(s)
    ensures WasCommitted(s, Fold(s.committed))
  {
    assert s.committed[..|s.committed|] == s.committed;
  }

  lemma CachesStep(s: State, step: Step)
    requires Inv(s) && Enabled(s, step)
    ensures forall p :: p in After(s, step).caches ==> WasCommitted(After(s, step), After(s, step).caches[p])
  {
    var s' := After(s, step);
    CurrentWasCommitted(s);
    assert FlightOk(s, step.p);
    forall p | p in s'.caches ensures WasCommitted(s', s'.caches[p]) {
      assert WasCommitted(s, s'.caches[p]);
      CommittedStays(s, step, s'.caches[p]);
    }
  }

  lemma PendingStep(s: State, step: Step)
    requires Inv(s) && Enabled(s, step)
    ensures forall p :: p in After(s, step).pending ==> WasCommitted(After(s, step), After(s, step).pending[p])
  {
    var s' := After(s, step);
    CurrentWasCommitted(s);
    forall p | p in s'.pending ensures WasCommitted(s', s'.pending[p]) {
      assert WasCommitted(s, s'.pending[p]);
      CommittedStays(s, step, s'.pending[p]);
    }
  }

  lemma StepKeepsInv(s: State, step: Step)
    requires Inv(s) && Enabled(s, step) && Careful(s, step)
    ensures Inv(After(s, step))
  {
    ExclusiveStep(s, step);
    DurableStep(s, step);
    InFlightStep(s, step);
    CachesStep(s, step);
    PendingStep(s, step);
  }

  // ---------------------------------------------------------------------------------------------
  // Every careful run
  // ---------------------------------------------------------------------------------------------

  ghost predicate Runs(s: State, steps: seq<Step>, end: State)
    decreases |steps|
  {
    if steps == [] then s == end
    else Enabled(s, steps[0]) && Runs(After(s, steps[0]), steps[1..], end)
  }

  ghost predicate CarefulRun(s: State, steps: seq<Step>)
    decreases |steps|
  {
    steps != [] && Enabled(s, steps[0]) ==> Careful(s, steps[0]) && CarefulRun(After(s, steps[0]), steps[1..])
  }

  lemma {:induction false} RunKeepsInv(s: State, steps: seq<Step>, end: State)
    requires Inv(s) && Runs(s, steps, end) && CarefulRun(s, steps)
    ensures Inv(end)
    decreases |steps|
  {
    if steps != [] {
      StepKeepsInv(s, steps[0]);
      RunKeepsInv(After(s, steps[0]), steps[1..], end);
    }
  }

  lemma InitInv(s: State)
    requires Init(s)
    ensures Inv(s)
  {}

  /** Over every careful run, with crashes at any point: no two live processes are inside the locked
    * section. */
  lemma MutualExclusion(s: State, steps: seq<Step>, end: State, p: Proc, q: Proc)
    requires Init(s) && Runs(s, steps, end) && CarefulRun(s, steps)
    requires p !in end.dead && q !in end.dead && Inside(end.PcOf(p)) && Inside(end.PcOf(q))
    ensures p == q
  {
    InitInv(s);
    RunKeepsInv(s, steps, end);
    assert Owns(end, p) && Owns(end, q);
  }

  /** Over every careful run: the registry file is always the fold of the committed mutations in
    * rename order, its version counts them, and a reader never sees a half-written file. */
  lemma RegistryIsFoldOfCommits(s: State, steps: seq<Step>, end: State)
    requires Init(s) && Runs(s, steps, end) && CarefulRun(s, steps)
    ensures !end.registry.Partial? && end.OnDisk() == Fold(end.committed) && end.OnDisk().version == |end.committed|
  {
    InitInv(s);
    RunKeepsInv(s, steps, end);
  }

  /** Over every careful run: whatever a process answers from its cache or from a read in progress is
    * the registry after some prefix of the committed mutations, possibly an old one. */
  lemma ReadsAreConsistent(s: State, steps: seq<Step>, end: State, p: Proc)
    requires Init(s) && Runs(s, steps, end) && CarefulRun(s, steps)
    ensures p in end.caches ==> WasCommitted(end, end.caches[p]) && end.caches[p].version <= |end.committed|
    ensures p in end.pending ==> WasCommitted(end, end.pending[p]) && end.pending[p].version <= |end.committed|
  {
    InitInv(s);
    RunKeepsInv(s, steps, end);
  }

  lemma {:induction false} CommitsGrow(s: State, steps: seq<Step>, end: State)
    requires Runs(s, steps, end)
    ensures s.committed <= end.committed
    decreases |steps|
  {
    if steps != [] {
      CommitsGrow(After(s, steps[0]), steps[1..], end);
    }
  }

  lemma {:induction false} CarefulConcat(s: State, xs: seq<Step>, mid: State, ys: seq<Step>)
    requires Runs(s, xs, mid) && CarefulRun(s, xs) && CarefulRun(mid, ys)
    ensures CarefulRun(s, xs + ys)
    decreases |xs|
  {
    if xs == [] {
      assert xs + ys == ys;
    } else {
      CarefulConcat(After(s, xs[0]), xs[1..], mid, ys);
      assert (xs + ys)[1..] == xs[1..] + ys;
    }
  }

  /** No update is lost: over every careful run, whatever the registry file held at some point, it later
    * holds that with the mutations committed since applied on top. */
  lemma {:induction false} NoUpdateLost(s: State, xs: seq<Step>, mid: State, ys: seq<Step>, end: State)
    requires Init(s) && Runs(s, xs, mid) && Runs(mid, ys, end) && CarefulRun(s, xs) && CarefulRun(mid, ys)
    ensures !mid.registry.Partial? && !end.registry.Partial? && mid.committed <= end.committed
    ensures end.OnDisk() == FoldFrom(mid.OnDisk(), end.committed[|mid.committed|..])
  {
    RunsConcat(s, xs, mid, ys, end);
    CarefulConcat(s, xs, mid, ys);
    RegistryIsFoldOfCommits(s, xs, mid);
    RegistryIsFoldOfCommits(s, xs + ys, end);
    CommitsGrow(mid, ys, end);
    var more := end.committed[|mid.committed|..];
    assert mid.committed + more == end.committed;
    FoldSplit(mid.committed, more);
  }

  /** Further mutations on top of a snapshot. */
  function FoldFrom(base: Snapshot, ops: seq<Op>): Snapshot
    decreases |ops|
  {
    if ops == [] then base else Commit(FoldFrom(base, ops[..|ops| - 1]), ops[|ops| - 1])
  }

  lemma {:induction false} FoldSplit(ops: seq<Op>, more: seq<Op>)
    ensures Fold(ops + more) == FoldFrom(Fold(ops), more)
    decreases |more|
  {
    if more == [] {
      assert ops + more == ops;
    } else {
      FoldSplit(ops, more[..|more| - 1]);
      FoldAppend(ops + more[..|more| - 1], more[|more| - 1]);
      assert ops + more == (ops + more[..|more| - 1]) + [more[|more| - 1]];
    }
  }

  // ---------------------------------------------------------------------------------------------
  // The file, agent by agent
  // ---------------------------------------------------------------------------------------------

  // What the committed mutations say about one agent, read off them from the newest back.

  function StateBy(ops: seq<Op>, id: string): AgentState
    decreases |ops|
  {
    if ops == [] then Queued
    else
      match ops[|ops| - 1]
      case Register(x, handle) => if x == id then handle.state else StateBy(ops[..|ops| - 1], id)
      case UpdateState(x, state, _) => if x == id then state else StateBy(ops[..|ops| - 1], id)
      case SetOutput(x, _, _) => if x == id then Completed else StateBy(ops[..|ops| - 1], id)
      case SetError(x, _, _) => if x == id then Failed else StateBy(ops[..|ops| - 1], id)
      case Gc(_) => StateBy(ops[..|ops| - 1], id)
  }

  function OutputBy(ops: seq<Op>, id: string): Option<string>
    decreases |ops|
  {
    if ops == [] then None
    else
      match ops[|ops| - 1]
      case Register(x, handle) => if x == id then handle.output else OutputBy(ops[..|ops| - 1], id)
      case SetOutput(x, output, _) => if x == id then Some(output) else OutputBy(ops[..|ops| - 1], id)
      case _ => OutputBy(ops[..|ops| - 1], id)
  }

  function ErrorBy(ops: seq<Op>, id: string): Option<string>
    decreases |ops|
  {
    if ops == [] then None
    else
      match ops[|ops| - 1]
      case Register(x, handle) => if x == id then handle.error else ErrorBy(ops[..|ops| - 1], id)
      case SetError(x, error, _) => if x == id then Some(error) else ErrorBy(ops[..|ops| - 1], id)
      case _ => ErrorBy(ops[..|ops| - 1], id)
  }

  function DoneBy(ops: seq<Op>, id: string): Option<nat>
    decreases |ops|
  {
    if ops == [] then None
    else
      match ops[|ops| - 1]
      case Register(x, handle) => if x == id then handle.completedAt else DoneBy(ops[..|ops| - 1], id)
      case UpdateState(x, state, at) =>
        if x == id && state != Queued && state != Running then Some(at) else DoneBy(ops[..|ops| - 1], id)
      case SetOutput(x, _, at) => if x == id then Some(at) else DoneBy(ops[..|ops| - 1], id)
      case SetError(x, _, at) => if x == id then Some(at) else DoneBy(ops[..|ops| - 1], id)
      case Gc(_) => DoneBy(ops[..|ops| - 1], id)
  }

  /** A collection with this cutoff, after these mutations, takes the agent: it is neither queued nor running,
    * and was completed at or before the cutoff. */
  predicate Takes(ops: seq<Op>, id: string, cutoff: nat) {
    && StateBy(ops, id) != Queued && StateBy(ops, id) != Running
    && DoneBy(ops, id).Some? && DoneBy(ops, id).value <= cutoff
  }

  /** Registered, and not collected since. */
  predicate Listed(ops: seq<Op>, id: string)
    decreases |ops|
  {
    ops != [] &&
    match ops[|ops| - 1]
    case Register(x, _) => x == id || Listed(ops[..|ops| - 1], id)
    case Gc(cutoff) => Listed(ops[..|ops| - 1], id) && !Takes(ops[..|ops| - 1], id, cutoff)
    case _ => Listed(ops[..|ops| - 1], id)
  }

  ghost predicate HistoryOf(agents: Agents, ops: seq<Op>, id: string) {
    && (id in agents <==> Listed(ops, id))
    && (id in agents ==> agents[id] == Handle(StateBy(ops, id), OutputBy(ops, id), ErrorBy(ops, id), DoneBy(ops, id)))
  }

  lemma {:induction false} FoldFollowsHistory(ops: seq<Op>, id: string)
    ensures HistoryOf(Fold(ops).agents, ops, id)
    decreases |ops|
  {
    if ops != [] { FoldFollowsHistory(ops[..|ops| - 1], id); }
  }

  /** Over every careful run, whatever process committed what: an agent is in the file exactly when it was
    * registered and not collected since, and its state, output, error and completion time are those of the
    * last committed mutation that set them. */
  lemma FileFollowsHistory(s: State, steps: seq<Step>, end: State, id: string)
    requires Init(s) && Runs(s, steps, end) && CarefulRun(s, steps)
    ensures !end.registry.Partial? && HistoryOf(end.OnDisk().agents, end.committed, id)
  {
    RegistryIsFoldOfCommits(s, steps, end);
    FoldFollowsHistory(end.committed, id);
  }

  /** The mutation the process loaded the registry for last. */
  function Asked(steps: seq<Step>, p: Proc): Option<Op>
    decreases |steps|
  {
    if steps == [] then None
    else
      var last := steps[|steps| - 1];
      if last.p == p && last.action.Load? then Some(last.action.op) else Asked(steps[..|steps| - 1], p)
  }

  /** What the renames of a run commit: each time, what that process asked for last. */
  function RenamedOps(steps: seq<Step>): seq<Op>
    decreases |steps|
  {
    if steps == [] then []
    else
      var front, last := steps[..|steps| - 1], steps[|steps| - 1];
      RenamedOps(front) + if last.action.Rename? && Asked(front, last.p).Some? then [Asked(front, last.p).value] else []
  }

  ghost predicate AsAsked(s: State, past: seq<Step>) {
    && s.committed == RenamedOps(past)
    && forall p :: Mutating(s.PcOf(p)) ==> Asked(past, p) == Some(s.PcOf(p).op)
  }

  lemma StepIsAsAsked(past: seq<Step>, s: State, step: Step, more: seq<Step>)
    requires AsAsked(s, past) && Enabled(s, step) && more == past + [step]
    ensures AsAsked(After(s, step), more)
  {
    assert more[..|past|] == past;
    RenameCommits(s, step);
    var next := After(s, step);
    forall p | Mutating(next.PcOf(p)) ensures Asked(more, p) == Some(next.PcOf(p).op) {
      MutatesAsBefore(s, step, p);
    }
  }

  /** Only a rename commits, and it commits what the process is in the middle of. */
  lemma RenameCommits(s: State, step: Step)
    requires Enabled(s, step)
    ensures step.action.Rename? ==> Mutating(s.PcOf(step.p))
    ensures After(s, step).committed == s.committed + if step.action.Rename? then [s.PcOf(step.p).op] else []
  {}

  /** A process in the middle of a mutation has just loaded for it, or was in the middle of it before. */
  lemma MutatesAsBefore(s: State, step: Step, p: Proc)
    requires Enabled(s, step) && Mutating(After(s, step).PcOf(p))
    ensures
      var op := After(s, step).PcOf(p).op;
      if step.p == p && step.action.Load? then step.action.op == op
      else Mutating(s.PcOf(p)) && s.PcOf(p).op == op
  {}

  lemma {:induction false} RunIsAsAsked(past: seq<Step>, s: State, steps: seq<Step>, end: State)
    requires AsAsked(s, past) && Runs(s, steps, end)
    ensures AsAsked(end, past + steps)
    decreases |steps|
  {
    if steps == [] {
      assert past + steps == past;
    } else {
      var more := past + [steps[0]];
      StepIsAsAsked(past, s, steps[0], more);
      RunIsAsAsked(more, After(s, steps[0]), steps[1..], end);
      assert past + steps == more + steps[1..];
    }
  }

  /** Over every run, careful or not, the committed mutations are those asked for, in the order of the renames. */
  lemma CommitsAreAsked(s: State, steps: seq<Step>, end: State)
    requires Init(s) && Runs(s, steps, end)
    ensures end.committed == RenamedOps(steps)
  {
    RunIsAsAsked([], s, steps, end);
    assert [] + steps == steps;
  }

  /** A collection drops exactly the agents in a terminal state that were completed at or before the cutoff. */
  lemma GcExactly(ops: seq<Op>, cutoff: nat, id: string)
    ensures id in Fold(ops + [Gc(cutoff)]).agents <==>
      && id in Fold(ops).agents
      && var h := Fold(ops).agents[id];
         !(h.state in {Completed, Failed, TimedOut, Cancelled, Reaped} && h.completedAt.Some? && h.completedAt.value <= cutoff)
    ensures id in Fold(ops + [Gc(cutoff)]).agents ==> Fold(ops + [Gc(cutoff)]).agents[id] == Fold(ops).agents[id]
  {
    FoldAppend(ops, Gc(cutoff));
  }

  // ---------------------------------------------------------------------------------------------
  // How far the removal of stale locks can be trusted
  // ---------------------------------------------------------------------------------------------

  /** Two live processes are inside the locked section. */
  ghost predicate TwoInside(s: State) {
    exists p, q :: p != q && LiveInside(s, p) && LiveInside(s, q)
  }

  ghost predicate LiveInside(s: State, p: Proc) {
    p !in s.dead && Inside(s.PcOf(p))
  }

  /** Some careful continuation lets two live processes in. */
  ghost predicate Endangered(s: State) {
    exists steps, end :: Runs(s, steps, end) && CarefulRun(s, steps) && TwoInside(end)
  }

  lemma {:induction false} StaysExclusive(s: State, steps: seq<Step>, end: State)
    requires Exclusive(s) && Runs(s, steps, end) && CarefulRun(s, steps)
    ensures Exclusive(end)
    decreases |steps|
  {
    if steps != [] {
      ExclusiveStep(s, steps[0]);
      StaysExclusive(After(s, steps[0]), steps[1..], end);
    }
  }

  lemma ExclusiveMeansOne(s: State)
    requires Exclusive(s)
    ensures !TwoInside(s)
  {
    forall p, q | LiveInside(s, p) && LiveInside(s, q) ensures p == q {
      assert Owns(s, p) && Owns(s, q);
    }
  }

  /** A removal can be followed by two live processes inside the locked section, with no further careless
    * removal, exactly when the file it removed had a live holder. */
  lemma ReclaimExactly(s: State, p: Proc)
    requires Exclusive(s) && Enabled(s, Step(p, Reclaim)) && s.PcOf(p).suspect.Some?
    ensures Endangered(After(s, Step(p, Reclaim))) <==> !ReclaimSafe(s)
  {
    var t := After(s, Step(p, Reclaim));
    if ReclaimSafe(s) {
      ExclusiveStep(s, Step(p, Reclaim));
      forall steps, end | Runs(t, steps, end) && CarefulRun(t, steps) ensures !TwoInside(end) {
        StaysExclusive(t, steps, end);
        ExclusiveMeansOne(end);
      }
    } else {
      var end := LetIn(t, p, s.lock.value.creator);
    }
  }

  /** With no lock file in the way, whoever wants in gets in beside the process that is inside. */
  lemma LetIn(s: State, p: Proc, q: Proc) returns (end: State)
    requires p != q && p !in s.dead && s.PcOf(p).Trying? && s.lock.None? && LiveInside(s, q)
    ensures Endangered(s) && TwoInside(end)
  {
    var step := Step(p, TryCreate);
    end := After(s, step);
    assert [step][1..] == [] && Runs(end, [], end) && CarefulRun(end, []);
    assert Runs(s, [step], end) && CarefulRun(s, [step]);
    assert end.PcOf(q) == s.PcOf(q);
    assert LiveInside(end, p) && LiveInside(end, q);
  }

  /** A process that is past `Created` has its pid in the lock file it owns. */
  ghost predicate PidsWritten(s: State) {
    forall p :: LiveInside(s, p) && !s.PcOf(p).Created? && Owns(s, p) ==> s.lock.value.written
  }

  lemma PidsStep(s: State, step: Step)
    requires Exclusive(s) && PidsWritten(s) && Enabled(s, step) && Careful(s, step)
    ensures PidsWritten(After(s, step))
  {
    var t := After(s, step);
    forall p | LiveInside(t, p) && !t.PcOf(p).Created? && Owns(t, p) ensures t.lock.value.written {
      if p == step.p {
        assert LiveInside(s, p) ==> Owns(s, p);
      } else {
        assert t.PcOf(p) == s.PcOf(p) && Owns(s, p);
      }
    }
  }

  lemma {:induction false} PidsStay(s: State, steps: seq<Step>, end: State)
    requires Exclusive(s) && PidsWritten(s) && Runs(s, steps, end) && CarefulRun(s, steps)
    ensures Exclusive(end) && PidsWritten(end)
    decreases |steps|
  {
    if steps != [] {
      ExclusiveStep(s, steps[0]);
      PidsStep(s, steps[0]);
      PidsStay(After(s, steps[0]), steps[1..], end);
    }
  }

  /** The branch of the check for a file without a valid pid, taken while its creator is about to write it. */
  ghost predicate PidIsComing(s: State, f: LockFile) {
    !f.written && f.creator !in s.dead && s.PcOf(f.creator) == Created(f.id)
  }

  /** Were check and removal one step: after every careful run, a removal the check decides on hits a live
    * holder exactly when the file has no pid yet and its live creator is about to write it. So the branch
    * for a dead pid would be safe, and only the branch for a missing pid would not. */
  lemma AtomicReclaimExactly(s: State, steps: seq<Step>, end: State)
    requires Init(s) && Runs(s, steps, end) && CarefulRun(s, steps)
    requires end.lock.Some? && LooksStale(end, end.lock.value, true)
    ensures !ReclaimSafe(end) <==> PidIsComing(end, end.lock.value)
  {
    PidsStay(s, steps, end);
    var f := end.lock.value;
    assert Held(end, f) ==> Owns(end, f.creator) && LiveInside(end, f.creator);
  }

  /** A file that was found to hold a dead pid stays safe to remove for as long as it is the file at
    * the path: what goes wrong is only that another file may have taken its place. */
  lemma DeadHolderStaysSafe(s: State)
    requires s.lock.Some? && s.lock.value.creator in s.dead
    ensures ReclaimSafe(s)
  {}

  /** From the decision to remove a lock file to a mutation in memory. */
  function EnterSteps(p: Proc, op: Op): seq<Step> {
    [Step(p, Reclaim), Step(p, TryCreate), Step(p, WritePid), Step(p, Load(op))]
  }

  /** From a mutation in memory to the rename. */
  function CommitSteps(p: Proc): seq<Step> {
    [Step(p, StartWrite), Step(p, FinishWrite), Step(p, Rename)]
  }

  /** Process 0 takes the lock and dies. */
  const DEAD_HOLDER_STEPS: seq<Step> :=
    [Step(0, Inspect(false)), Step(0, Reclaim), Step(0, TryCreate), Step(0, WritePid), Step(0, Crash)]

  /** Then processes 1 and 2 both find its lock stale. */
  const STALE_STEPS: seq<Step> := DEAD_HOLDER_STEPS + [Step(1, Inspect(true)), Step(2, Inspect(true))]

  lemma EnterRun(s: State, p: Proc, op: Op) returns (end: State)
    requires p !in s.dead && s.PcOf(p).Checked? && s.PcOf(p).suspect.Some? && !s.registry.Partial?
    ensures Runs(s, EnterSteps(p, op), end)
    ensures end == s.(lock := Some(LockFile(s.nextId, p, true)), nextId := s.nextId + 1,
                      pcs := s.pcs[p := Loaded(s.nextId, op, Commit(s.OnDisk(), op))])
  {
    var steps := EnterSteps(p, op);
    var s1 := After(s, steps[0]);
    var s2 := After(s1, steps[1]);
    var s3 := After(s2, steps[2]);
    end := After(s3, steps[3]);
    RunsFour(s, steps, s1, s2, s3, end);
  }

  lemma RunsFour(s: State, steps: seq<Step>, s1: State, s2: State, s3: State, s4: State)
    requires |steps| == 4
    requires Enabled(s, steps[0]) && s1 == After(s, steps[0])
    requires Enabled(s1, steps[1]) && s2 == After(s1, steps[1])
    requires Enabled(s2, steps[2]) && s3 == After(s2, steps[2])
    requires Enabled(s3, steps[3]) && s4 == After(s3, steps[3])
    ensures Runs(s, steps, s4)
  {
    assert Runs(s4, steps[1..][1..][1..][1..], s4);
    assert Runs(s3, steps[1..][1..][1..], s4);
    assert Runs(s2, steps[1..][1..], s4);
  }

  lemma CommitRun(s: State, p: Proc) returns (end: State)
    requires p !in s.dead && s.PcOf(p).Loaded?
    ensures Runs(s, CommitSteps(p), end)
    ensures var pc := s.PcOf(p);
            end == s.(tmp := Absent, registry := Whole(pc.snap), committed := s.committed + [pc.op],
                      pcs := s.pcs[p := Renamed(pc.lock, pc.snap)])
  {
    var steps := CommitSteps(p);
    var s1 := After(s, steps[0]);
    var s2 := After(s1, steps[1]);
    end := After(s2, steps[2]);
    assert Runs(end, steps[1..][1..][1..], end);
    assert Runs(s2, steps[1..][1..], end);
    assert Runs(s1, steps[1..], end);
  }

  lemma StaleRun(s: State) returns (end: State)
    requires Init(s) && 0 !in s.dead && 1 !in s.dead && 2 !in s.dead
    ensures Runs(s, STALE_STEPS, end)
    ensures end.PcOf(1) == end.PcOf(2) == Checked(Some(s.nextId)) && end.lock == Some(LockFile(s.nextId, 0, true))
    ensures end.dead == s.dead + {0} && end.registry == Absent && end.committed == []
  {
    var dead := DeadHolderRun(s);
    var s5 := After(dead, Step(1, Inspect(true)));
    end := After(s5, Step(2, Inspect(true)));
    var last := [Step(1, Inspect(true)), Step(2, Inspect(true))];
    assert Runs(end, last[1..][1..], end);
    assert Runs(s5, last[1..], end);
    RunsConcat(s, DEAD_HOLDER_STEPS, dead, last, end);
    assert DEAD_HOLDER_STEPS + last == STALE_STEPS;
  }

  lemma DeadHolderRun(s: State) returns (end: State)
    requires Init(s) && 0 !in s.dead
    ensures Runs(s, DEAD_HOLDER_STEPS, end)
    ensures end == s.(lock := Some(LockFile(s.nextId, 0, true)), nextId := s.nextId + 1, dead := s.dead + {0},
                      pcs := map[0 := Holding(s.nextId)])
  {
    var s1 := After(s, Step(0, Inspect(false)));
    var s2 := After(s1, Step(0, Reclaim));
    var s3 := After(s2, Step(0, TryCreate));
    var s4 := After(s3, Step(0, WritePid));
    end := After(s4, Step(0, Crash));
    var steps := RunOf(s4, Step(0, Crash), [], end);
    steps := RunOf(s3, Step(0, WritePid), steps, end);
    steps := RunOf(s2, Step(0, TryCreate), steps, end);
    steps := RunOf(s1, Step(0, Reclaim), steps, end);
    steps := RunOf(s, Step(0, Inspect(false)), steps, end);
    assert steps == DEAD_HOLDER_STEPS;
  }

  lemma RunOf(s: State, step: Step, rest: seq<Step>, end: State) returns (steps: seq<Step>)
    requires Enabled(s, step) && Runs(After(s, step), rest, end)
    ensures Runs(s, steps, end) && steps == [step] + rest
  {
    steps := [step] + rest;
    assert steps[1..] == rest;
  }

  lemma {:induction false} RunsConcat(s: State, xs: seq<Step>, mid: State, ys: seq<Step>, end: State)
    requires Runs(s, xs, mid) && Runs(mid, ys, end)
    ensures Runs(s, xs + ys, end)
    decreases |xs|
  {
    if xs == [] {
      assert xs + ys == ys;
    } else {
      RunsConcat(After(s, xs[0]), xs[1..], mid, ys, end);
      assert (xs + ys)[1..] == xs[1..] + ys;
    }
  }

  /** Without the condition the source's own steps go wrong, for any two mutations: both processes see
    * the dead holder's lock, the second one's removal deletes the first one's new lock, both are
    * inside, and the registry ends up without the mutation that was committed first. */
  lemma UncheckedReclaimLosesUpdate(s: State, a: Op, b: Op) returns (both: State, end: State)
    requires Init(s) && 0 !in s.dead && 1 !in s.dead && 2 !in s.dead
    ensures Runs(s, STALE_STEPS + EnterSteps(1, a) + EnterSteps(2, b), both)
    ensures 1 !in both.dead && 2 !in both.dead && Inside(both.PcOf(1)) && Inside(both.PcOf(2))
    ensures Runs(both, CommitSteps(1) + CommitSteps(2), end)
    ensures end.committed == [a, b] && end.registry == Whole(Fold([b])) && end.registry != Whole(Fold(end.committed))
  {
    var stale := StaleRun(s);
    var first := EnterRun(stale, 1, a);
    both := EnterRun(first, 2, b);
    RunsConcat(s, STALE_STEPS, stale, EnterSteps(1, a), first);
    RunsConcat(s, STALE_STEPS + EnterSteps(1, a), first, EnterSteps(2, b), both);
    var one := CommitRun(both, 1);
    end := CommitRun(one, 2);
    RunsConcat(both, CommitSteps(1), one, CommitSteps(2), end);
    FoldAppend([], b);
    assert [] + [b] == [b];
  }
}
