/** The ring of crates/clawdesk-acp/src/streaming.rs (`SpscRing`) used by one thread at a time:
  * construction, push, pop, `force_push`, and the front scan of `drain_stale`. The interleaved use
  * is in SpscProtocol.
  */
module SpscRing {
  import opened Wrappers
  import opened Bits
  import opened SpscProtocol

  /** The least power of two that is at least n (`usize::next_power_of_two`), as an exponent. */
  function NextPow2Exponent(n: nat): (k: nat)
    ensures Pow2(k) >= n
    ensures k > 0 ==> Pow2(k - 1) < n
  {
    if n <= 1 then 0
    else
      var h := NextPow2Exponent((n + 1) / 2);
      assert h > 0 ==> Pow2(h - 1) < (n + 1) / 2;
      h + 1
  }

  /** The events pushed and not yet popped sit in their slots. */
  ghost predicate InSlots(slots: seq<Option<StreamEvent>>, log: seq<StreamEvent>, popped: nat) {
    |slots| > 0 && forall i :: popped <= i < |log| ==> slots[i % |slots|] == Some(log[i])
  }

  class Ring {
    const slots: array<Option<StreamEvent>>
    const mask: nat
    var head: nat
    var tail: nat
    /** log2 of the capacity, every event ever pushed, and how many of them were popped. */
    ghost const k: nat
    ghost var log: seq<StreamEvent>
    ghost var popped: nat

    ghost predicate Valid()
      reads this, slots
    {
      && 1 <= k <= 63 && slots.Length == Pow2(k) && mask == slots.Length - 1
      && popped <= |log| <= popped + slots.Length
      && head == popped % WORD && tail == |log| % WORD
      && InSlots(slots[..], log, popped)
    }

    /** The events held, oldest first. */
    ghost function Contents(): seq<StreamEvent>
      requires popped <= |log|
      reads this
    {
      log[popped..]
    }

    /** Capacity: the next power of two, at least 2. The standard library has no next power of two
      * above 2^63. */
    constructor (minCapacity: nat)
      requires minCapacity <= Pow2(63)
      ensures Valid() && Contents() == [] && fresh(slots)
      ensures slots.Length >= minCapacity && slots.Length >= 2
      ensures slots.Length > 2 ==> slots.Length < 2 * minCapacity
    {
      var e := NextPow2Exponent(minCapacity);
      Exponent63(minCapacity);
      e := if e == 0 then 1 else e;
      Pow2Monotone(1, e);
      slots := new Option<StreamEvent>[Pow2(e)](_ => None);
      mask := Pow2(e) - 1;
      head, tail := 0, 0;
      k := e;
      log, popped := [], 0;
    }

    method Len() returns (n: nat)
      requires Valid()
      ensures n == |Contents()|
    {
      CapacityBound(k);
      WrappedDistance(|log|, popped);
      n := WrappingSub(tail, head);
    }

    method IsFull() returns (b: bool)
      requires Valid()
      ensures b <==> |Contents()| == slots.Length
    {
      var n := Len();
      b := n > mask;
    }

    /** Accepts the event unless the ring is full. */
    method TryPush(event: StreamEvent) returns (ok: bool)
      requires Valid()
      modifies this, slots
      ensures Valid()
      ensures ok <==> |old(Contents())| < slots.Length
      ensures Contents() == if ok then old(Contents()) + [event] else old(Contents())
    {
      var n := Len();
      if n >= mask + 1 {
        return false;
      }
      MaskAfterWrap(|log|, k);
      var i := And(tail, mask);
      PushStored(slots[..], log, popped, event);
      slots[i] := Some(event);
      WrappedSuccessor(|log|);
      tail := (tail + 1) % WORD;
      log := log + [event];
      return true;
    }

    method TryPop() returns (event: Option<StreamEvent>)
      requires Valid()
      modifies this, slots
      ensures Valid()
      ensures old(Contents()) == [] ==> event == None && Contents() == []
      ensures old(Contents()) != [] ==> event == Some(old(Contents())[0]) && Contents() == old(Contents())[1..]
    {
      EqualWhenEmpty(|log|, popped, k);
      if head == tail {
        return None;
      }
      MaskAfterWrap(popped, k);
      var i := And(head, mask);
      PopStored(slots[..], log, popped);
      event := slots[i];
      slots[i] := None;
      WrappedSuccessor(popped);
      head := (head + 1) % WORD;
      popped := popped + 1;
      return event;
    }

    /** Evicts the oldest event, then pushes; the push never fails. */
    method ForcePush(event: StreamEvent) returns (dropped: Option<StreamEvent>)
      requires Valid()
      modifies this, slots
      ensures Valid()
      ensures old(Contents()) == [] ==> dropped == None && Contents() == [event]
      ensures old(Contents()) != [] ==>
                dropped == Some(old(Contents())[0]) && Contents() == old(Contents())[1..] + [event]
    {
      CapacityBound(k);
      dropped := TryPop();
      var ok := TryPush(event);
    }

    /** Pops stale events from the front and stops at the first fresh one. */
    method DrainStale(now: int, maxAge: nat) returns (stale: seq<StreamEvent>)
      requires Valid()
      modifies this, slots
      ensures Valid()
      ensures old(Contents()) == stale + Contents()
      ensures forall e :: e in stale ==> now - e.producedAt > maxAge
      ensures Contents() != [] ==> now - Contents()[0].producedAt <= maxAge
    {
      stale := [];
      var more := true;
      while more
        invariant Valid() && old(Contents()) == stale + Contents()
        invariant forall e :: e in stale ==> now - e.producedAt > maxAge
        invariant !more && Contents() != [] ==> now - Contents()[0].producedAt <= maxAge
        decreases |Contents()|, more
      {
        var front := Front();
        if front.None? || now - front.value.producedAt <= maxAge {
          more := false;
        } else {
          var event := TryPop();
          stale := stale + [event.value];
        }
      }
    }

    /** The oldest event, left in place. */
    method Front() returns (event: Option<StreamEvent>)
      requires Valid()
      ensures event == if Contents() == [] then None else Some(Contents()[0])
    {
      EqualWhenEmpty(|log|, popped, k);
      if head == tail {
        return None;
      }
      MaskAfterWrap(popped, k);
      event := slots[And(head, mask)];
    }
  }

  /** Wrapped indices agree only when nothing is held. */
  lemma EqualWhenEmpty(pushed: nat, popped: nat, k: nat)
    requires 1 <= k <= 63 && popped <= pushed <= popped + Pow2(k)
    ensures popped % WORD == pushed % WORD <==> popped == pushed
  {
    CapacityBound(k);
    WrappedDistance(pushed, popped);
  }

  lemma PushStored(slots: seq<Option<StreamEvent>>, log: seq<StreamEvent>, popped: nat, event: StreamEvent)
    requires InSlots(slots, log, popped) && popped <= |log| < popped + |slots|
    ensures InSlots(slots[|log| % |slots| := Some(event)], log + [event], popped)
  {
    forall i | popped <= i < |log| ensures i % |slots| != |log| % |slots| {
      DistinctSlots(i, |log|, |slots|);
    }
  }

  lemma PopStored(slots: seq<Option<StreamEvent>>, log: seq<StreamEvent>, popped: nat)
    requires InSlots(slots, log, popped) && popped < |log| <= popped + |slots|
    ensures InSlots(slots[popped % |slots| := None], log, popped + 1)
    ensures slots[popped % |slots|] == Some(log[popped])
  {
    forall i | popped < i < |log| ensures i % |slots| != popped % |slots| {
      DistinctSlots(popped, i, |slots|);
    }
  }

  lemma CapacityBound(k: nat)
    requires 1 <= k <= 63
    ensures 2 <= Pow2(k) < WORD
  {
    Pow2Word();
    Pow2Monotone(1, k);
    Pow2Monotone(k, 63);
  }

  /** The exponent stays below 64 for every request up to 2^63. */
  lemma Exponent63(n: nat)
    requires n <= Pow2(63)
    ensures NextPow2Exponent(n) <= 63
  {
    var k := NextPow2Exponent(n);
    if k > 63 { Pow2Monotone(63, k - 1); }
  }
}
