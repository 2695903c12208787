/** The lock-free ring of crates/clawdesk-acp/src/streaming.rs (`SpscRing`) under concurrency.
  *
  * One producer thread runs `try_push`, one consumer thread runs `try_pop`; every atomic access is
  * one step, and the steps of the two threads interleave freely. Each thread reads its own index
  * exactly. A read of the other thread's index may be stale: it returns any value that index has
  * had since the previous read of it by the same thread. Indices are 64-bit counters that wrap.
  */
module SpscProtocol {
  import opened Wrappers
  import opened Bits

  datatype StreamEvent = StreamEvent(taskId: string, sequence: nat, producedAt: int)

  /** Where the producer is inside `try_push`. */
  datatype Producer =
    | PIdle
    | PTail(event: StreamEvent, tail: nat)   // has loaded its own tail
    | PHead(event: StreamEvent, tail: nat)   // has loaded head and found room
    | PWrote(event: StreamEvent, tail: nat)  // has written the slot

  /** Where the consumer is inside `try_pop`. */
  datatype Consumer =
    | CIdle
    | CHead(head: nat)                              // has loaded its own head
    | CTail(head: nat)                              // has loaded tail and found it different
    | CTook(head: nat, event: Option<StreamEvent>)  // has taken the slot

  /** The shared ring, both threads, and what they have done so far: `accepted` are the events whose
    * push returned Ok, `popped` the answers of every pop that advanced head. `seenHead` and
    * `seenTail` count how many pops and pushes each thread has observed of the other. */
  datatype State = State(k: nat, slots: seq<Option<StreamEvent>>, head: nat, tail: nat,
                         producer: Producer, consumer: Consumer,
                         accepted: seq<StreamEvent>, popped: seq<Option<StreamEvent>>,
                         seenHead: nat, seenTail: nat)
  {
    function Capacity(): nat { Pow2(k) }
    function Mask(): nat { Pow2(k) - 1 }
  }

  datatype Step =
    | LoadTail(event: StreamEvent)
    | CheckRoom(pops: nat)     // load head: the value it had after that many pops
    | WriteSlot
    | StoreTail
    | LoadHead
    | CheckData(pushes: nat)   // load tail: the value it had after that many pushes
    | TakeSlot
    | StoreHead

  ghost predicate Enabled(s: State, step: Step) {
    match step
    case LoadTail(_) => s.producer.PIdle?
    case CheckRoom(pops) => s.producer.PTail? && s.seenHead <= pops <= |s.popped|
    case WriteSlot => s.producer.PHead? && And(s.producer.tail, s.Mask()) < |s.slots|
    case StoreTail => s.producer.PWrote?
    case LoadHead => s.consumer.CIdle?
    case CheckData(pushes) => s.consumer.CHead? && s.seenTail <= pushes <= |s.accepted|
    case TakeSlot => s.consumer.CTail? && And(s.consumer.head, s.Mask()) < |s.slots|
    case StoreHead => s.consumer.CTook?
  }

  ghost function After(s: State, step: Step): State
    requires Enabled(s, step)
  {
    match step
    case LoadTail(event) => s.(producer := PTail(event, s.tail))
    case CheckRoom(pops) =>
      if WrappingSub(s.producer.tail % WORD, pops % WORD) >= s.Capacity()
      then s.(producer := PIdle, seenHead := pops)                     // Err(event): full
      else s.(producer := PHead(s.producer.event, s.producer.tail), seenHead := pops)
    case WriteSlot =>
      var i := And(s.producer.tail, s.Mask());
      s.(slots := s.slots[i := Some(s.producer.event)], producer := PWrote(s.producer.event, s.producer.tail))
    case StoreTail =>
      s.(tail := (s.producer.tail + 1) % WORD, producer := PIdle, accepted := s.accepted + [s.producer.event])
    case LoadHead => s.(consumer := CHead(s.head))
    case CheckData(pushes) =>
      if s.consumer.head == pushes % WORD
      then s.(consumer := CIdle, seenTail := pushes)                   // None: empty
      else s.(consumer := CTail(s.consumer.head), seenTail := pushes)
    case TakeSlot =>
      var i := And(s.consumer.head, s.Mask());
      s.(slots := s.slots[i := None], consumer := CTook(s.consumer.head, s.slots[i]))
    case StoreHead =>
      s.(head := (s.consumer.head + 1) % WORD, consumer := CIdle, popped := s.popped + [s.consumer.event])
  }

  /** A fresh ring; `SpscRing::new` makes 2 <= capacity <= 2^63 slots. */
  ghost predicate Init(s: State) {
    && 1 <= s.k <= 63 && s.head == 0 && s.tail == 0
    && |s.slots| == s.Capacity() && (forall i :: 0 <= i < |s.slots| ==> s.slots[i] == None)
    && s.producer == PIdle && s.consumer == CIdle
    && s.accepted == [] && s.popped == [] && s.seenHead == 0 && s.seenTail == 0
  }

  // ---------------------------------------------------------------------------------------------
  // What every step keeps
  // ---------------------------------------------------------------------------------------------

  /** Both indices are their event counts, wrapped, and each thread's copy of its own is current. */
  ghost predicate Counters(s: State) {
    && 1 <= s.k <= 63 && |s.slots| == s.Capacity()
    && s.tail == |s.accepted| % WORD && s.head == |s.popped| % WORD
    && (!s.producer.PIdle? ==> s.producer.tail == s.tail)
    && (!s.consumer.CIdle? ==> s.consumer.head == s.head)
  }

  /** What the threads know of each other is old but safe. */
  ghost predicate Views(s: State) {
    && s.seenHead <= |s.popped| <= s.seenTail <= |s.accepted| <= s.seenHead + s.Capacity()
    && (s.producer.PHead? || s.producer.PWrote? ==> |s.accepted| < s.seenHead + s.Capacity())
    && (s.consumer.CTail? || s.consumer.CTook? ==> |s.popped| < s.seenTail)
  }

  /** How many events have left the slots: the pops, and the one just taken. */
  ghost function Taken(s: State): nat {
    |s.popped| + if s.consumer.CTook? then 1 else 0
  }

  /** Every event accepted and not yet taken sits in its slot. */
  ghost predicate Stored(s: State)
    requires |s.slots| == s.Capacity()
  {
    && (forall i :: Taken(s) <= i < |s.accepted| ==> s.slots[i % s.Capacity()] == Some(s.accepted[i]))
    && (s.producer.PWrote? ==> s.slots[|s.accepted| % s.Capacity()] == Some(s.producer.event))
  }

  /** Every pop returned the event accepted in the same place. */
  ghost predicate Fifo(s: State) {
    && |s.popped| <= |s.accepted|
    && (forall i :: 0 <= i < |s.popped| ==> s.popped[i] == Some(s.accepted[i]))
    && (s.consumer.CTook? ==> |s.popped| < |s.accepted| && s.consumer.event == Some(s.accepted[|s.popped|]))
  }

  ghost predicate Inv(s: State) {
    Counters(s) && Views(s) && Stored(s) && Fifo(s)
  }

  lemma CapacityFits(s: State)
    requires 1 <= s.k <= 63
    ensures 2 <= s.Capacity() < WORD
  {
    Pow2Word();
    Pow2Monotone(1, s.k);
    Pow2Monotone(s.k, 63);
  }

  lemma InitInv(s: State)
    requires Init(s)
    ensures Inv(s)
  {}

  lemma CheckRoomKeeps(s: State, step: Step)
    requires Inv(s) && step.CheckRoom? && Enabled(s, step)
    ensures Inv(After(s, step))
    ensures After(s, step).producer.PIdle? <==> |s.accepted| == step.pops + s.Capacity()
  {
    CapacityFits(s);
    WrappedDistance(|s.accepted|, step.pops);
    assert WrappingSub(s.producer.tail % WORD, step.pops % WORD) == |s.accepted| - step.pops;
  }

  lemma CheckDataKeeps(s: State, step: Step)
    requires Inv(s) && step.CheckData? && Enabled(s, step)
    ensures Inv(After(s, step))
    ensures After(s, step).consumer.CIdle? <==> |s.popped| == step.pushes
  {
    CapacityFits(s);
    WrappedDistance(step.pushes, |s.popped|);
    assert s.consumer.head == step.pushes % WORD <==> step.pushes == |s.popped|;
  }

  lemma WriteSlotKeeps(s: State)
    requires Inv(s) && Enabled(s, WriteSlot)
    ensures Inv(After(s, WriteSlot))
  {
    var s', cap := After(s, WriteSlot), s.Capacity();
    MaskAfterWrap(|s.accepted|, s.k);
    forall i | Taken(s) <= i < |s.accepted| ensures s'.slots[i % cap] == Some(s.accepted[i]) {
      DistinctSlots(i, |s.accepted|, cap);
    }
  }

  lemma TakeSlotKeeps(s: State)
    requires Inv(s) && Enabled(s, TakeSlot)
    ensures Inv(After(s, TakeSlot))
  {
    var s', cap := After(s, TakeSlot), s.Capacity();
    MaskAfterWrap(|s.popped|, s.k);
    forall i | |s.popped| < i < |s.accepted| ensures s'.slots[i % cap] == Some(s.accepted[i]) {
      DistinctSlots(|s.popped|, i, cap);
    }
    if s.producer.PWrote? {
      DistinctSlots(|s.popped|, |s.accepted|, cap);
    }
  }

  lemma StoresKeep(s: State, step: Step)
    requires Inv(s) && (step.StoreTail? || step.StoreHead?) && Enabled(s, step)
    ensures Inv(After(s, step))
  {
    WrappedSuccessor(|s.accepted|);
    WrappedSuccessor(|s.popped|);
  }

  lemma WrappedSuccessor(n: nat)
    ensures (n % WORD + 1) % WORD == (n + 1) % WORD
  {}

  lemma StepKeepsInv(s: State, step: Step)
    requires Inv(s) && Enabled(s, step)
    ensures Inv(After(s, step))
  {
    match step
    case LoadTail(_) =>
    case CheckRoom(_) => CheckRoomKeeps(s, step);
    case WriteSlot => WriteSlotKeeps(s);
    case StoreTail => StoresKeep(s, step);
    case LoadHead =>
    case CheckData(_) => CheckDataKeeps(s, step);
    case TakeSlot => TakeSlotKeeps(s);
    case StoreHead => StoresKeep(s, step);
  }

  // ---------------------------------------------------------------------------------------------
  // Every interleaving
  // ---------------------------------------------------------------------------------------------

  /** The states a sequence of enabled steps leads through. */
  ghost predicate Runs(s: State, steps: seq<Step>, end: State)
    decreases |steps|
  {
    if steps == [] then s == end
    else Enabled(s, steps[0]) && Runs(After(s, steps[0]), steps[1..], end)
  }

  ghost predicate Reachable(s: State) {
    exists s0, steps :: Init(s0) && Runs(s0, steps, s)
  }

  lemma {:induction false} RunsKeepInv(s: State, steps: seq<Step>, end: State)
    requires Inv(s) && Runs(s, steps, end)
    ensures Inv(end)
    decreases |steps|
  {
    if steps != [] {
      StepKeepsInv(s, steps[0]);
      RunsKeepInv(After(s, steps[0]), steps[1..], end);
    }
  }

  lemma ReachableInv(s: State)
    requires Reachable(s)
    ensures Inv(s)
  {
    var s0, steps :| Init(s0) && Runs(s0, steps, s);
    InitInv(s0);
    RunsKeepInv(s0, steps, s);
  }

  /** In every reachable state: the pops returned the accepted events, in order, none lost, none
    * twice, none missing; at most `capacity` events are held. */
  lemma NothingLostOrDuplicated(s: State)
    requires Reachable(s)
    ensures |s.popped| <= |s.accepted| <= |s.popped| + s.Capacity()
    ensures forall i :: 0 <= i < |s.popped| ==> s.popped[i] == Some(s.accepted[i])
  {
    ReachableInv(s);
  }

  /** In every reachable state: the slot about to be written is not one that still holds an accepted
    * event, and when both threads are about to touch a slot, they touch different ones. */
  lemma NoSlotRace(s: State)
    requires Reachable(s) && s.producer.PHead?
    ensures And(s.producer.tail, s.Mask()) < |s.slots|
    ensures forall i :: Taken(s) <= i < |s.accepted| ==> i % s.Capacity() != And(s.producer.tail, s.Mask())
    ensures s.consumer.CTail? ==> And(s.consumer.head, s.Mask()) != And(s.producer.tail, s.Mask())
  {
    ReachableInv(s);
    MaskAfterWrap(|s.accepted|, s.k);
    MaskAfterWrap(|s.popped|, s.k);
    forall i | |s.popped| <= i < |s.accepted| ensures i % s.Capacity() != |s.accepted| % s.Capacity() {
      DistinctSlots(i, |s.accepted|, s.Capacity());
    }
  }

  /** In every reachable state: a push is refused exactly when the head value it read leaves a full
    * ring, and a pop finds nothing exactly when every push it can see has been popped. */
  lemma RefusalsAreHonest(s: State, pops: nat, pushes: nat)
    requires Reachable(s)
    ensures Enabled(s, CheckRoom(pops)) ==>
              (After(s, CheckRoom(pops)).producer.PIdle? <==> |s.accepted| - pops == s.Capacity())
    ensures Enabled(s, CheckData(pushes)) ==>
              (After(s, CheckData(pushes)).consumer.CIdle? <==> pushes == |s.popped|)
  {
    ReachableInv(s);
    if Enabled(s, CheckRoom(pops)) { CheckRoomKeeps(s, CheckRoom(pops)); }
    if Enabled(s, CheckData(pushes)) { CheckDataKeeps(s, CheckData(pushes)); }
  }

  // ---------------------------------------------------------------------------------------------
  // Progress
  // ---------------------------------------------------------------------------------------------

  predicate Pushing(step: Step) {
    step.LoadTail? || step.CheckRoom? || step.WriteSlot? || step.StoreTail?
  }

  /** The steps of the producer, or of the consumer. */
  function StepsOf(producer: bool, steps: seq<Step>): nat {
    if steps == [] then 0 else StepsOf(producer, steps[1..]) + if Pushing(steps[0]) == producer then 1 else 0
  }

  predicate Begins(producer: bool, step: Step) {
    if producer then step.LoadTail? else step.LoadHead?
  }

  /** The calls of `try_push`, or of `try_pop`, that begin. */
  function CallsOf(producer: bool, steps: seq<Step>): nat {
    if steps == [] then 0 else CallsOf(producer, steps[1..]) + if Begins(producer, steps[0]) then 1 else 0
  }

  /** The most steps a thread can still take in its call. */
  function Left(producer: bool, s: State): nat {
    if producer then
      match s.producer case PIdle => 0 case PTail(_, _) => 3 case PHead(_, _) => 2 case PWrote(_, _) => 1
    else
      match s.consumer case CIdle => 0 case CHead(_) => 3 case CTail(_) => 2 case CTook(_, _) => 1
  }

  /** Whatever the other thread does, no call takes a thread more than four steps. */
  lemma {:induction false} CallsAreShort(producer: bool, s: State, steps: seq<Step>, end: State)
    requires Runs(s, steps, end)
    ensures StepsOf(producer, steps) + Left(producer, end) <= Left(producer, s) + 4 * CallsOf(producer, steps)
    decreases |steps|
  {
    if steps != [] { CallsAreShort(producer, After(s, steps[0]), steps[1..], end); }
  }

  /** From every reachable state, wherever the consumer stands, the producer alone completes a push: in four
    * steps while there is room, and in two when it is refused. */
  lemma PushAlone(s: State, event: StreamEvent) returns (steps: seq<Step>, end: State)
    requires Reachable(s) && s.producer.PIdle?
    ensures Runs(s, steps, end) && end.producer.PIdle? && end.consumer == s.consumer && end.popped == s.popped
    ensures |s.accepted| < |s.popped| + s.Capacity() ==>
      steps == [LoadTail(event), CheckRoom(|s.popped|), WriteSlot, StoreTail] && end.accepted == s.accepted + [event]
    ensures |s.accepted| == |s.popped| + s.Capacity() ==>
      steps == [LoadTail(event), CheckRoom(|s.popped|)] && end.accepted == s.accepted
  {
    ReachableInv(s);
    var s1 := After(s, LoadTail(event));
    StepKeepsInv(s, LoadTail(event));
    CheckRoomKeeps(s1, CheckRoom(|s.popped|));
    var s2 := After(s1, CheckRoom(|s.popped|));
    if s2.producer.PIdle? {
      steps, end := [], s2;
    } else {
      steps, end := WriteAndStore(s2);
    }
    steps := OneMore(s1, CheckRoom(|s.popped|), steps, end);
    steps := OneMore(s, LoadTail(event), steps, end);
  }

  lemma WriteAndStore(s: State) returns (steps: seq<Step>, end: State)
    requires Inv(s) && s.producer.PHead?
    ensures steps == [WriteSlot, StoreTail] && Runs(s, steps, end)
    ensures end.producer.PIdle? && end.consumer == s.consumer && end.popped == s.popped
    ensures end.accepted == s.accepted + [s.producer.event]
  {
    MaskAfterWrap(|s.accepted|, s.k);
    var s1 := After(s, WriteSlot);
    end := After(s1, StoreTail);
    steps := OneMore(s1, StoreTail, [], end);
    steps := OneMore(s, WriteSlot, steps, end);
  }

  /** Likewise the consumer alone completes a pop: in four steps it takes the oldest event, and with nothing
    * there it is done in two. */
  lemma PopAlone(s: State) returns (steps: seq<Step>, end: State)
    requires Reachable(s) && s.consumer.CIdle?
    ensures Runs(s, steps, end) && end.consumer.CIdle? && end.producer == s.producer && end.accepted == s.accepted
    ensures |s.popped| < |s.accepted| ==>
      steps == [LoadHead, CheckData(|s.accepted|), TakeSlot, StoreHead] &&
      end.popped == s.popped + [Some(s.accepted[|s.popped|])]
    ensures |s.popped| == |s.accepted| ==>
      steps == [LoadHead, CheckData(|s.accepted|)] && end.popped == s.popped
  {
    ReachableInv(s);
    var s1 := After(s, LoadHead);
    StepKeepsInv(s, LoadHead);
    CheckDataKeeps(s1, CheckData(|s.accepted|));
    var s2 := After(s1, CheckData(|s.accepted|));
    if s2.consumer.CIdle? {
      steps, end := [], s2;
    } else {
      steps, end := TakeAndStore(s2);
    }
    steps := OneMore(s1, CheckData(|s.accepted|), steps, end);
    steps := OneMore(s, LoadHead, steps, end);
  }

  lemma TakeAndStore(s: State) returns (steps: seq<Step>, end: State)
    requires Inv(s) && s.consumer.CTail?
    ensures steps == [TakeSlot, StoreHead] && Runs(s, steps, end)
    ensures end.consumer.CIdle? && end.producer == s.producer && end.accepted == s.accepted
    ensures |s.popped| < |s.accepted| && end.popped == s.popped + [Some(s.accepted[|s.popped|])]
  {
    MaskAfterWrap(|s.popped|, s.k);
    TakeSlotKeeps(s);
    var s1 := After(s, TakeSlot);
    end := After(s1, StoreHead);
    steps := OneMore(s1, StoreHead, [], end);
    steps := OneMore(s, TakeSlot, steps, end);
  }

  lemma OneMore(s: State, step: Step, rest: seq<Step>, end: State) returns (steps: seq<Step>)
    requires Enabled(s, step) && Runs(After(s, step), rest, end)
    ensures Runs(s, steps, end) && steps == [step] + rest
  {
    steps := [step] + rest;
    assert steps[1..] == rest;
  }
}
