/** The incremental text stream of crates/clawdesk-acp/src/delta_stream.rs: an encoder that numbers
  * and hashes deltas and keeps checkpoints, and a decoder that reassembles them.
  *
  * Text is a sequence of bytes. The source inserts at byte offsets of a UTF-8 string and panics off
  * a character boundary; that check is not part of this model.
  */
module DeltaStream {
  import opened Wrappers
  import opened RollingHash

  type Text = seq<Byte>

  const MAX_CHECKPOINTS: nat := 50

  datatype TextDelta = TextDelta(seq_: nat, offset: nat, text: Text, done: bool, hash: nat)

  datatype Checkpoint = Checkpoint(lastSeq: nat, offset: nat, hash: nat, hashPower: nat)

  // ---------------------------------------------------------------------------------------------
  // The encoder
  // ---------------------------------------------------------------------------------------------

  datatype Encoding = Encoding(assembled: Text, next: nat, interval: nat, checkpoints: seq<Checkpoint>)

  function CheckpointOf(lastSeq: nat, text: Text): Checkpoint {
    Checkpoint(lastSeq, |text|, Hash(text), Power(BASE, |text|) % M)
  }

  /** The newest checkpoints, at most MAX_CHECKPOINTS of them. */
  function Retain(cps: seq<Checkpoint>): seq<Checkpoint> {
    if |cps| > MAX_CHECKPOINTS then cps[1..] else cps
  }

  function Pushed(e: Encoding, text: Text): Encoding
    requires e.interval > 0
  {
    var assembled := e.assembled + text;
    Encoding(assembled, e.next + 1, e.interval,
             if e.next > 0 && e.next % e.interval == 0
             then Retain(e.checkpoints + [CheckpointOf(e.next, assembled)]) else e.checkpoints)
  }

  class DeltaEncoder {
    var assembled: Text
    var next: nat
    const checkpointInterval: nat
    var checkpoints: seq<Checkpoint>
    const rollingHash: Roller

    ghost predicate Valid()
      reads this, rollingHash
    {
      && checkpointInterval > 0
      && rollingHash.State() == StateOf(assembled)
    }

    ghost function Abs(): Encoding
      reads this
    {
      Encoding(assembled, next, checkpointInterval, checkpoints)
    }

    /** An interval of zero makes the source divide by zero on its second push. */
    constructor (checkpointInterval: nat)
      requires checkpointInterval > 0
      ensures Valid() && Abs() == Encoding([], 0, checkpointInterval, []) && fresh(rollingHash)
    {
      assembled, next, checkpoints := [], 0, [];
      this.checkpointInterval := checkpointInterval;
      rollingHash := new Roller();
    }

    /** Appends a chunk and emits its delta; every `checkpointInterval` deltas a checkpoint. */
    method Push(text: Text) returns (delta: TextDelta)
      requires Valid()
      modifies this, rollingHash
      ensures Valid() && Abs() == Pushed(old(Abs()), text)
      ensures delta == TextDelta(old(next), |old(assembled)|, text, false, Hash(assembled))
    {
      var offset := |assembled|;
      AppendedTracks(assembled, text);
      assembled := assembled + text;
      rollingHash.Append(text);
      var hash := rollingHash.hash;
      var seq_ := next;
      next := next + 1;
      if seq_ > 0 && seq_ % checkpointInterval == 0 {
        var cp := Checkpoint(seq_, |assembled|, hash, rollingHash.pPower);
        checkpoints := checkpoints + [cp];
        if |checkpoints| > MAX_CHECKPOINTS {
          checkpoints := checkpoints[1..];
        }
      }
      return TextDelta(seq_, offset, text, false, hash);
    }

    method Finish() returns (delta: TextDelta)
      requires Valid()
      modifies this`next
      ensures Valid() && Abs() == old(Abs()).(next := old(next) + 1)
      ensures delta == TextDelta(old(next), |assembled|, [], true, Hash(assembled))
    {
      delta := TextDelta(next, |assembled|, [], true, rollingHash.hash);
      next := next + 1;
    }

    /** The newest retained checkpoint whose sequence number is at most `at`. */
    method CheckpointAtOrBefore(at: nat) returns (cp: Option<Checkpoint>)
      ensures cp == LastAtOrBefore(checkpoints, at)
    {
      var i := |checkpoints|;
      assert checkpoints[..i] == checkpoints;
      while i > 0
        invariant 0 <= i <= |checkpoints|
        invariant LastAtOrBefore(checkpoints, at) == LastAtOrBefore(checkpoints[..i], at)
      {
        i := i - 1;
        assert checkpoints[..i + 1][..i] == checkpoints[..i];
        if checkpoints[i].lastSeq <= at {
          return Some(checkpoints[i]);
        }
      }
      return None;
    }
  }

  function LastAtOrBefore(cps: seq<Checkpoint>, at: nat): Option<Checkpoint>
    decreases |cps|
  {
    if cps == [] then None
    else if cps[|cps| - 1].lastSeq <= at then Some(cps[|cps| - 1])
    else LastAtOrBefore(cps[..|cps| - 1], at)
  }

  // ---------------------------------------------------------------------------------------------
  // The decoder
  // ---------------------------------------------------------------------------------------------

  datatype Decoding = Decoding(assembled: Text, lastSeq: Option<nat>, applied: nat, done: bool,
                               mismatches: nat, hash: HashState)

  const SPACE: Byte := 32

  function Spaces(n: nat): Text {
    seq(n, _ => SPACE)
  }

  /** Where the text of a delta goes: after the end, inside, or past the end behind padding. */
  function Spliced(text: Text, delta: TextDelta): Text {
    if delta.offset <= |text| then text[..delta.offset] + delta.text + text[delta.offset..]
    else text + Spaces(delta.offset - |text|) + delta.text
  }

  predicate Skips(d: Decoding, delta: TextDelta) {
    d.lastSeq.Some? && delta.seq_ <= d.lastSeq.value
  }

  function Applied(d: Decoding, delta: TextDelta): Decoding {
    if Skips(d, delta) then d
    else
      var text := if delta.done then d.assembled else Spliced(d.assembled, delta);
      var hash :=
        if delta.done then d.hash
        else if delta.offset == |d.assembled| then Appended(d.hash, delta.text)
        else StateOf(text);
      Decoding(text, Some(delta.seq_), if delta.done then d.applied else d.applied + 1, d.done || delta.done,
               if hash.hash == delta.hash then d.mismatches else d.mismatches + 1, hash)
  }

  class DeltaDecoder {
    var assembled: Text
    var lastSeq: Option<nat>
    var deltasApplied: nat
    var done: bool
    var hashMismatches: nat
    var rollingHash: Roller
    /** Never cleared by any method, so `current_hash` never rehashes from scratch. */
    var hashValid: bool

    ghost predicate Valid()
      reads this
    {
      hashValid
    }

    ghost function Abs(): Decoding
      reads this, rollingHash
    {
      Decoding(assembled, lastSeq, deltasApplied, done, hashMismatches, rollingHash.State())
    }

    constructor ()
      ensures Valid() && fresh(rollingHash)
      ensures Abs() == NewDecoding()
    {
      assembled, lastSeq, deltasApplied, done, hashMismatches := [], None, 0, false, 0;
      rollingHash := new Roller();
      hashValid := true;
    }

    constructor FromCheckpoint(cp: Checkpoint, assembledSoFar: Text)
      ensures Valid() && fresh(rollingHash)
      ensures Abs() == ResumedDecoding(cp, assembledSoFar)
    {
      assembled, lastSeq, deltasApplied, done, hashMismatches := assembledSoFar, Some(cp.lastSeq), 0, false, 0;
      rollingHash := new Roller.FromCheckpointState(cp.hash, cp.hashPower);
      hashValid := true;
    }

    method CurrentHash() returns (h: nat)
      ensures h == if hashValid then rollingHash.hash else Hash(assembled)
    {
      if hashValid {
        h := rollingHash.hash;
      } else {
        h := HashBytes(assembled);
      }
    }

    /** Applies one delta; false reports a hash mismatch. */
    method Apply(delta: TextDelta) returns (ok: bool)
      requires Valid()
      modifies this, rollingHash
      ensures Valid() && (rollingHash == old(rollingHash) || fresh(rollingHash))
      ensures Abs() == Applied(old(Abs()), delta)
      ensures ok <==> hashMismatches == old(hashMismatches)
    {
      if lastSeq.Some? && delta.seq_ <= lastSeq.value {
        return true;
      }
      if delta.done {
        done := true;
        lastSeq := Some(delta.seq_);
        var finalHash := CurrentHash();
        if finalHash != delta.hash {
          hashMismatches := hashMismatches + 1;
          return false;
        }
        return true;
      }
      if delta.offset == |assembled| {
        assert assembled + delta.text == Spliced(assembled, delta);
        assembled := assembled + delta.text;
        if hashValid {
          rollingHash.Append(delta.text);
        }
      } else if delta.offset < |assembled| {
        assembled := assembled[..delta.offset] + delta.text + assembled[delta.offset..];
        rollingHash := new Roller.FromData(assembled);
      } else {
        var padding := delta.offset - |assembled|;
        assembled := assembled + Spaces(padding);
        assembled := assembled + delta.text;
        rollingHash := new Roller.FromData(assembled);
      }
      lastSeq := Some(delta.seq_);
      deltasApplied := deltasApplied + 1;
      var localHash := CurrentHash();
      if localHash != delta.hash {
        hashMismatches := hashMismatches + 1;
        return false;
      }
      return true;
    }

    /** The decoder's own checkpoint, once it has applied something. */
    method TakeCheckpoint() returns (cp: Option<Checkpoint>)
      requires Valid()
      ensures cp == if lastSeq.None? then None
                    else Some(Checkpoint(lastSeq.value, |assembled|, rollingHash.hash, rollingHash.pPower))
    {
      if lastSeq.None? {
        return None;
      }
      var h := CurrentHash();
      return Some(Checkpoint(lastSeq.value, |assembled|, h, rollingHash.pPower));
    }
  }

  function NewDecoding(): Decoding {
    Decoding([], None, 0, false, 0, EMPTY_HASH)
  }

  function ResumedDecoding(cp: Checkpoint, text: Text): Decoding {
    Decoding(text, Some(cp.lastSeq), 0, false, 0, HashState(cp.hash, cp.hashPower))
  }

  // ---------------------------------------------------------------------------------------------
  // The hash always speaks about the text
  // ---------------------------------------------------------------------------------------------

  ghost predicate Synced(d: Decoding) {
    d.hash == StateOf(d.assembled)
  }

  /** Whatever the delta does (append, insert, pad, finish, nothing), the hash stays that of the text. */
  lemma ApplyKeepsSync(d: Decoding, delta: TextDelta)
    requires Synced(d)
    ensures Synced(Applied(d, delta))
  {
    if delta.offset == |d.assembled| {
      AppendedTracks(d.assembled, delta.text);
      assert Spliced(d.assembled, delta) == d.assembled + delta.text;
    }
  }

  /** A mismatch is never a false alarm: when it is counted, the decoder does not hold the text the
    * delta's hash was computed from. */
  lemma MismatchMeansDifferentText(d: Decoding, delta: TextDelta, sent: Text)
    requires Synced(d) && delta.hash == Hash(sent)
    requires Applied(d, delta).mismatches > d.mismatches
    ensures Applied(d, delta).assembled != sent
  {
    ApplyKeepsSync(d, delta);
  }

  // ---------------------------------------------------------------------------------------------
  // Round trip
  // ---------------------------------------------------------------------------------------------

  /** One call on the encoder. */
  datatype Op = Push(text: Text) | Finish

  function TextOf(ops: seq<Op>): Text
    decreases |ops|
  {
    if ops == [] then []
    else
      var before, last := TextOf(ops[..|ops| - 1]), ops[|ops| - 1];
      if last.Push? then before + last.text else before
  }

  /** The delta emitted by the i-th call. */
  function DeltaOf(ops: seq<Op>, i: nat): TextDelta
    requires i < |ops|
  {
    var before := TextOf(ops[..i]);
    TextDelta(i, |before|, if ops[i].Push? then ops[i].text else [], ops[i].Finish?, Hash(TextOf(ops[..i + 1])))
  }

  function Encode(e: Encoding, op: Op): Encoding
    requires e.interval > 0
  {
    if op.Push? then Pushed(e, op.text) else e.(next := e.next + 1)
  }

  function EncodeAll(interval: nat, ops: seq<Op>): (e: Encoding)
    requires interval > 0
    ensures e.interval == interval
    decreases |ops|
  {
    if ops == [] then Encoding([], 0, interval, [])
    else Encode(EncodeAll(interval, ops[..|ops| - 1]), ops[|ops| - 1])
  }

  /** A checkpoint taken by the encoder right after call number `lastSeq`. */
  ghost predicate TakenFrom(cp: Checkpoint, ops: seq<Op>) {
    cp.lastSeq < |ops| && cp == CheckpointOf(cp.lastSeq, TextOf(ops[..cp.lastSeq + 1]))
  }

  /** Checkpoints taken during these calls, oldest first. */
  ghost predicate TrueCheckpoints(cps: seq<Checkpoint>, ops: seq<Op>) {
    && (forall i :: 0 <= i < |cps| ==> TakenFrom(cps[i], ops))
    && (forall i, j :: 0 <= i < j < |cps| ==> cps[i].lastSeq < cps[j].lastSeq)
  }

  lemma CheckpointsStayTrue(cps: seq<Checkpoint>, ops: seq<Op>, op: Op)
    requires TrueCheckpoints(cps, ops)
    ensures TrueCheckpoints(cps, ops + [op])
  {
    forall i | 0 <= i < |cps| ensures TakenFrom(cps[i], ops + [op]) {
      var n := cps[i].lastSeq + 1;
      assert ops[..n] == (ops + [op])[..n];
    }
  }

  lemma {:induction false} CheckpointAdded(cps: seq<Checkpoint>, ops: seq<Op>, op: Op)
    requires TrueCheckpoints(cps, ops)
    ensures TrueCheckpoints(Retain(cps + [CheckpointOf(|ops|, TextOf(ops + [op]))]), ops + [op])
  {
    var more := ops + [op];
    CheckpointsStayTrue(cps, ops, op);
    NewCheckpointTaken(more);
    OlderCheckpoints(cps, ops);
    RetainTrue(cps, CheckpointOf(|ops|, TextOf(more)), more);
  }

  lemma {:induction false} NewCheckpointTaken(ops: seq<Op>)
    requires ops != []
    ensures TakenFrom(CheckpointOf(|ops| - 1, TextOf(ops)), ops)
  {
    assert ops[..|ops|] == ops;
  }

  lemma OlderCheckpoints(cps: seq<Checkpoint>, ops: seq<Op>)
    requires TrueCheckpoints(cps, ops)
    ensures forall i :: 0 <= i < |cps| ==> cps[i].lastSeq < |ops|
  {}

  lemma RetainTrue(cps: seq<Checkpoint>, cp: Checkpoint, ops: seq<Op>)
    requires TrueCheckpoints(cps, ops) && TakenFrom(cp, ops)
    requires forall i :: 0 <= i < |cps| ==> cps[i].lastSeq < cp.lastSeq
    ensures TrueCheckpoints(Retain(cps + [cp]), ops)
  {}

  /** The encoder holds the text and the call count, and its checkpoints are true and in order. */
  lemma {:induction false} EncoderTracks(interval: nat, ops: seq<Op>)
    requires interval > 0
    ensures var e := EncodeAll(interval, ops);
            && e.assembled == TextOf(ops) && e.next == |ops| && |e.checkpoints| <= MAX_CHECKPOINTS
            && TrueCheckpoints(e.checkpoints, ops)
    decreases |ops|
  {
    if ops != [] {
      var before, op := ops[..|ops| - 1], ops[|ops| - 1];
      assert before + [op] == ops;
      EncoderTracks(interval, before);
      CheckpointsStayTrue(EncodeAll(interval, before).checkpoints, before, op);
      CheckpointAdded(EncodeAll(interval, before).checkpoints, before, op);
    }
  }

  /** The deltas the calls really emit are the ones `DeltaOf` names. */
  lemma EmittedDelta(interval: nat, ops: seq<Op>, op: Op)
    requires interval > 0
    ensures var e := EncodeAll(interval, ops);
            DeltaOf(ops + [op], |ops|) ==
              if op.Push? then TextDelta(e.next, |e.assembled|, op.text, false, Hash(e.assembled + op.text))
              else TextDelta(e.next, |e.assembled|, [], true, Hash(e.assembled))
  {
    EncoderTracks(interval, ops);
    var all := ops + [op];
    assert all[..|ops|] == ops && all[..|ops| + 1] == all;
  }

  /** A delivery schedule: call numbers, each either already seen or the next one. */
  predicate InOrder(seen: nat, schedule: seq<nat>)
    decreases |schedule|
  {
    schedule == [] || (schedule[0] <= seen && InOrder(SeenAfter(seen, schedule[0]), schedule[1..]))
  }

  function SeenAfter(seen: nat, i: nat): nat {
    if i == seen then seen + 1 else seen
  }

  function SeenAfterAll(seen: nat, schedule: seq<nat>): nat
    decreases |schedule|
  {
    if schedule == [] then seen else SeenAfterAll(SeenAfter(seen, schedule[0]), schedule[1..])
  }

  predicate Within(schedule: seq<nat>, n: nat) {
    forall j :: 0 <= j < |schedule| ==> schedule[j] < n
  }

  function ApplyAll(d: Decoding, ops: seq<Op>, schedule: seq<nat>): Decoding
    requires Within(schedule, |ops|)
    decreases |schedule|
  {
    if schedule == [] then d
    else ApplyAll(Applied(d, DeltaOf(ops, schedule[0])), ops, schedule[1..])
  }

  /** A decoder that is exactly at the encoder's text after `seen` calls, with no mismatch counted. */
  ghost predicate At(d: Decoding, ops: seq<Op>, seen: nat)
    requires seen <= |ops|
  {
    && Synced(d) && d.assembled == TextOf(ops[..seen]) && d.mismatches == 0
    && d.lastSeq == if seen == 0 then None else Some(seen - 1)
  }

  lemma ApplyAdvances(d: Decoding, ops: seq<Op>, seen: nat, i: nat)
    requires seen <= |ops| && i < |ops| && i <= seen && At(d, ops, seen)
    ensures At(Applied(d, DeltaOf(ops, i)), ops, SeenAfter(seen, i))
  {
    if i == seen {
      ApplyKeepsSync(d, DeltaOf(ops, i));
      assert ops[..i + 1][..i] == ops[..i];
      var before := TextOf(ops[..i]);
      assert Spliced(before, DeltaOf(ops, i)) == before + DeltaOf(ops, i).text;
      assert Applied(d, DeltaOf(ops, i)).assembled == TextOf(ops[..i + 1]);
    }
  }

  lemma {:induction false} ScheduleAdvances(d: Decoding, ops: seq<Op>, seen: nat, schedule: seq<nat>)
    requires seen <= |ops| && At(d, ops, seen)
    requires Within(schedule, |ops|) && InOrder(seen, schedule)
    ensures SeenAfterAll(seen, schedule) <= |ops|
    ensures At(ApplyAll(d, ops, schedule), ops, SeenAfterAll(seen, schedule))
    decreases |schedule|
  {
    if schedule != [] {
      ApplyAdvances(d, ops, seen, schedule[0]);
      ScheduleAdvances(Applied(d, DeltaOf(ops, schedule[0])), ops, SeenAfter(seen, schedule[0]), schedule[1..]);
    }
  }

  /** For every run of the encoder and every schedule that delivers each delta's first copy in order,
    * with older deltas repeated anywhere: the decoder ends with the encoder's text and hash and has
    * counted no mismatch. */
  lemma RoundTrip(interval: nat, ops: seq<Op>, schedule: seq<nat>)
    requires interval > 0
    requires Within(schedule, |ops|) && InOrder(0, schedule)
    requires SeenAfterAll(0, schedule) == |ops|
    ensures var d := ApplyAll(NewDecoding(), ops, schedule);
            && d.assembled == EncodeAll(interval, ops).assembled
            && d.hash == StateOf(EncodeAll(interval, ops).assembled)
            && d.mismatches == 0
  {
    EncoderTracks(interval, ops);
    assert ops[..|ops|] == ops && ops[..0] == [];
    ScheduleAdvances(NewDecoding(), ops, 0, schedule);
  }

  /** For every checkpoint the encoder retains and every such schedule of the later deltas, again
    * with any older ones mixed in: a decoder resumed from the checkpoint and its text prefix reaches
    * the same text and hash, with no mismatch. */
  lemma Resumption(interval: nat, ops: seq<Op>, k: nat, schedule: seq<nat>)
    requires interval > 0 && k < |EncodeAll(interval, ops).checkpoints|
    requires Within(schedule, |ops|)
    requires
      var cp := EncodeAll(interval, ops).checkpoints[k];
      InOrder(cp.lastSeq + 1, schedule) && SeenAfterAll(cp.lastSeq + 1, schedule) == |ops|
    ensures
      var e := EncodeAll(interval, ops);
      var cp := e.checkpoints[k];
      && cp.offset <= |e.assembled|
      && var d := ApplyAll(ResumedDecoding(cp, e.assembled[..cp.offset]), ops, schedule);
         d.assembled == e.assembled && d.hash == StateOf(e.assembled) && d.mismatches == 0
  {
    EncoderTracks(interval, ops);
    var e := EncodeAll(interval, ops);
    var cp := e.checkpoints[k];
    assert TakenFrom(cp, ops);
    var seen := cp.lastSeq + 1;
    TextGrows(ops, seen);
    assert ops[..|ops|] == ops;
    assert e.assembled[..cp.offset] == TextOf(ops[..seen]);
    ScheduleAdvances(ResumedDecoding(cp, e.assembled[..cp.offset]), ops, seen, schedule);
  }

  lemma {:induction false} TextGrows(ops: seq<Op>, n: nat)
    requires n <= |ops|
    ensures TextOf(ops[..n]) <= TextOf(ops)
    decreases |ops|
  {
    if n == |ops| {
      assert ops[..n] == ops;
    } else {
      var before := ops[..|ops| - 1];
      TextGrows(before, n);
      assert before[..n] == ops[..n];
    }
  }

  /** Looking up a checkpoint for a client that has processed everything up to `at` gives the
    * retained checkpoint closest before it, and none only when none is that old. */
  lemma {:induction false} ClosestCheckpoint(interval: nat, ops: seq<Op>, at: nat)
    requires interval > 0
    ensures var cps := EncodeAll(interval, ops).checkpoints;
            match LastAtOrBefore(cps, at)
            case None => forall cp :: cp in cps ==> cp.lastSeq > at
            case Some(found) =>
              && found in cps && found.lastSeq <= at
              && forall cp :: cp in cps && cp.lastSeq <= at ==> cp.lastSeq <= found.lastSeq
  {
    EncoderTracks(interval, ops);
    LastIsClosest(EncodeAll(interval, ops).checkpoints, at);
  }

  lemma {:induction false} LastIsClosest(cps: seq<Checkpoint>, at: nat)
    requires forall i, j :: 0 <= i < j < |cps| ==> cps[i].lastSeq < cps[j].lastSeq
    ensures match LastAtOrBefore(cps, at)
            case None => forall cp :: cp in cps ==> cp.lastSeq > at
            case Some(found) =>
              && found in cps && found.lastSeq <= at
              && forall cp :: cp in cps && cp.lastSeq <= at ==> cp.lastSeq <= found.lastSeq
    decreases |cps|
  {
    if cps != [] {
      var n := |cps| - 1;
      LastIsClosest(cps[..n], at);
      assert forall cp :: cp in cps ==> cp in cps[..n] || cp == cps[n];
      assert forall cp :: cp in cps[..n] ==> cp in cps && cp.lastSeq < cps[n].lastSeq;
    }
  }

  // ---------------------------------------------------------------------------------------------
  // Checkpoints that are due
  // ---------------------------------------------------------------------------------------------

  /** The calls after which a checkpoint is due: pushes whose number is a positive multiple of the interval. */
  function DueCalls(interval: nat, ops: seq<Op>): (due: seq<nat>)
    requires interval > 0
    ensures forall i :: 0 <= i < |due| ==> due[i] < |ops|
    decreases |ops|
  {
    if ops == [] then []
    else
      var n := |ops| - 1;
      DueCalls(interval, ops[..n]) + if n > 0 && n % interval == 0 && ops[n].Push? then [n] else []
  }

  /** The last 50 of them, or all while there are no more. */
  function Newest(due: seq<nat>): seq<nat> {
    if |due| > 50 then due[|due| - 50..] else due
  }

  ghost predicate TakenAt(cps: seq<Checkpoint>, due: seq<nat>, ops: seq<Op>)
    requires forall i :: 0 <= i < |due| ==> due[i] < |ops|
  {
    |cps| == |due| && forall i :: 0 <= i < |due| ==> IsAt(cps[i], ops, due[i])
  }

  ghost predicate IsAt(cp: Checkpoint, ops: seq<Op>, i: nat)
    requires i < |ops|
  {
    cp == CheckpointOf(i, TextOf(ops[..i + 1]))
  }

  /** The encoder retains exactly the newest 50 of the checkpoints that were due. */
  lemma {:induction false} CheckpointsExactly(interval: nat, ops: seq<Op>)
    requires interval > 0
    ensures TakenAt(EncodeAll(interval, ops).checkpoints, Newest(DueCalls(interval, ops)), ops)
    decreases |ops|
  {
    if ops != [] {
      var n := |ops| - 1;
      var before := ops[..n];
      CheckpointsExactly(interval, before);
      EncoderTracks(interval, before);
      TakenStays(EncodeAll(interval, before).checkpoints, Newest(DueCalls(interval, before)), ops, n);
      if n > 0 && n % interval == 0 && ops[n].Push? {
        OneMoreTaken(EncodeAll(interval, before).checkpoints, DueCalls(interval, before), ops);
      }
    }
  }

  lemma TakenStays(cps: seq<Checkpoint>, due: seq<nat>, ops: seq<Op>, n: nat)
    requires n <= |ops| && (forall i :: 0 <= i < |due| ==> due[i] < n) && TakenAt(cps, due, ops[..n])
    ensures TakenAt(cps, due, ops)
  {
    forall i | 0 <= i < |due| ensures IsAt(cps[i], ops, due[i]) {
      assert IsAt(cps[i], ops[..n], due[i]);
      assert ops[..n][..due[i] + 1] == ops[..due[i] + 1];
    }
  }

  lemma OneMoreTaken(cps: seq<Checkpoint>, due: seq<nat>, ops: seq<Op>)
    requires ops != [] && (forall i :: 0 <= i < |due| ==> due[i] < |ops| - 1) && TakenAt(cps, Newest(due), ops)
    ensures TakenAt(Retain(cps + [CheckpointOf(|ops| - 1, TextOf(ops))]), Newest(due + [|ops| - 1]), ops)
  {
    var cp := CheckpointOf(|ops| - 1, TextOf(ops));
    assert IsAt(cp, ops, |ops| - 1) by { assert ops[..|ops|] == ops; }
    NewestOfMore(due, |ops| - 1);
    TakenWith(cps, Newest(due), ops, cp, |ops| - 1);
  }

  lemma TakenWith(cps: seq<Checkpoint>, due: seq<nat>, ops: seq<Op>, cp: Checkpoint, n: nat)
    requires n < |ops| && (forall i :: 0 <= i < |due| ==> due[i] < |ops|) && |due| <= 50
    requires TakenAt(cps, due, ops) && IsAt(cp, ops, n)
    ensures TakenAt(Retain(cps + [cp]), if |due| == 50 then due[1..] + [n] else due + [n], ops)
  {}

  lemma NewestOfMore(due: seq<nat>, n: nat)
    ensures Newest(due + [n]) == if |Newest(due)| == 50 then Newest(due)[1..] + [n] else Newest(due) + [n]
  {}

  // ---------------------------------------------------------------------------------------------
  // Any delta, and any schedule
  // ---------------------------------------------------------------------------------------------

  /** The byte at i once `piece` goes to the offset in `text`: what stood before the offset, spaces up to the
    * offset, the piece, and the rest moved behind it. */
  function ByteAfter(text: Text, offset: nat, piece: Text, i: nat): Byte
    requires i < (if offset <= |text| then |text| else offset) + |piece|
  {
    if i < |text| && i < offset then text[i]
    else if i < offset then 32
    else if i < offset + |piece| then piece[i - offset]
    else text[i - |piece|]
  }

  /** A delta that is neither skipped nor final puts its bytes at its offset. */
  lemma AppliedBytes(d: Decoding, delta: TextDelta, i: nat)
    requires !delta.done && (d.lastSeq.Some? ==> delta.seq_ > d.lastSeq.value)
    ensures var after := Applied(d, delta).assembled;
      && |after| == (if delta.offset <= |d.assembled| then |d.assembled| else delta.offset) + |delta.text|
      && (i < |after| ==> after[i] == ByteAfter(d.assembled, delta.offset, delta.text, i))
  {}

  /** A delta no newer than the last one changes nothing; a final one leaves the text and is not counted as
    * applied; and a mismatch is counted exactly when the text does not have the hash the delta carries. */
  lemma AppliedRest(d: Decoding, delta: TextDelta)
    requires Synced(d)
    ensures d.lastSeq.Some? && delta.seq_ <= d.lastSeq.value ==> Applied(d, delta) == d
    ensures d.lastSeq.None? || delta.seq_ > d.lastSeq.value ==>
      var after := Applied(d, delta);
      && after.lastSeq == Some(delta.seq_) && after.done == (d.done || delta.done)
      && after.mismatches == d.mismatches + (if Hash(after.assembled) == delta.hash then 0 else 1)
      && (if delta.done then after.assembled == d.assembled && after.applied == d.applied else after.applied == d.applied + 1)
  {
    ApplyKeepsSync(d, delta);
  }

  /** The calls whose deltas a decoder takes from a schedule: each one newer than all before it. */
  function Accepted(seen: nat, schedule: seq<nat>): set<nat>
    decreases |schedule|
  {
    if schedule == [] then {}
    else if schedule[0] >= seen then {schedule[0]} + Accepted(schedule[0] + 1, schedule[1..])
    else Accepted(seen, schedule[1..])
  }

  /** The text of the first n calls with every chunk that was not accepted blanked out. */
  function Blanked(ops: seq<Op>, n: nat, accepted: set<nat>): (text: Text)
    requires n <= |ops|
    ensures |text| == |TextOf(ops[..n])|
    decreases n
  {
    if n == 0 then []
    else
      assert ops[..n][..n - 1] == ops[..n - 1];
      Blanked(ops, n - 1, accepted) +
        if ops[n - 1].Finish? then [] else if n - 1 in accepted then ops[n - 1].text else Spaces(|ops[n - 1].text|)
  }

  /** One more than the last accepted push, among the first n calls. */
  function PushedUpTo(ops: seq<Op>, n: nat, accepted: set<nat>): (k: nat)
    requires n <= |ops|
    ensures k <= n
    decreases n
  {
    if n == 0 then 0
    else if n - 1 in accepted && ops[n - 1].Push? then n else PushedUpTo(ops, n - 1, accepted)
  }

  lemma {:induction false} SameBlanked(ops: seq<Op>, n: nat, a: set<nat>, b: set<nat>)
    requires n <= |ops| && forall i :: 0 <= i < n ==> (i in a <==> i in b)
    ensures Blanked(ops, n, a) == Blanked(ops, n, b) && PushedUpTo(ops, n, a) == PushedUpTo(ops, n, b)
    decreases n
  {
    if n > 0 { SameBlanked(ops, n - 1, a, b); }
  }

  /** Behind the last accepted push there are only spaces. */
  lemma {:induction false} BlankTail(ops: seq<Op>, n: nat, accepted: set<nat>)
    requires n <= |ops|
    ensures var head := Blanked(ops, PushedUpTo(ops, n, accepted), accepted);
      |head| <= |Blanked(ops, n, accepted)| && Blanked(ops, n, accepted) == head + Spaces(|Blanked(ops, n, accepted)| - |head|)
    decreases n
  {
    if n > 0 && !(n - 1 in accepted && ops[n - 1].Push?) { BlankTail(ops, n - 1, accepted); }
  }

  lemma {:induction false} NothingAccepted(ops: seq<Op>, m: nat, n: nat, accepted: set<nat>)
    requires m <= n <= |ops| && forall i :: m <= i < n ==> i !in accepted
    ensures PushedUpTo(ops, n, accepted) == PushedUpTo(ops, m, accepted)
    decreases n
  {
    if m < n { NothingAccepted(ops, m, n - 1, accepted); }
  }

  /** A decoder that has accepted these calls, all among the first `seen`. */
  ghost predicate Holding(d: Decoding, ops: seq<Op>, seen: nat, accepted: set<nat>)
    requires seen <= |ops|
  {
    && Synced(d) && (forall i :: i in accepted ==> i < seen)
    && d.lastSeq == (if seen == 0 then None else Some(seen - 1))
    && d.assembled == Blanked(ops, PushedUpTo(ops, seen, accepted), accepted)
  }

  lemma AcceptKeeps(d: Decoding, ops: seq<Op>, seen: nat, accepted: set<nat>, i: nat)
    requires seen <= i < |ops| && Holding(d, ops, seen, accepted)
    ensures Holding(Applied(d, DeltaOf(ops, i)), ops, i + 1, accepted + {i})
  {
    ApplyKeepsSync(d, DeltaOf(ops, i));
    AcceptedText(ops, seen, accepted, i);
  }

  /** What a push does to the text when the calls since the last accepted one are lost. */
  lemma AcceptedText(ops: seq<Op>, seen: nat, accepted: set<nat>, i: nat)
    requires seen <= i < |ops| && forall x :: x in accepted ==> x < seen
    ensures var more, text := accepted + {i}, Blanked(ops, PushedUpTo(ops, seen, accepted), accepted);
      Blanked(ops, PushedUpTo(ops, i + 1, more), more) == if ops[i].Push? then Spliced(text, DeltaOf(ops, i)) else text
  {
    var more := accepted + {i};
    NothingAccepted(ops, seen, i, accepted);
    SameBlanked(ops, i, accepted, more);
    var k := PushedUpTo(ops, i, more);
    SameBlanked(ops, k, accepted, more);
    if ops[i].Push? {
      BlankTail(ops, i, more);
      PiecePlaced(Blanked(ops, k, more), DeltaOf(ops, i));
    }
  }

  /** A delta at or behind the end. */
  lemma PiecePlaced(text: Text, delta: TextDelta)
    requires delta.offset >= |text|
    ensures Spliced(text, delta) == text + Spaces(delta.offset - |text|) + delta.text
  {}

  /** What a decoder does not accept changes nothing. */
  lemma NotAccepted(d: Decoding, ops: seq<Op>, seen: nat, accepted: set<nat>, i: nat)
    requires i < seen <= |ops| && Holding(d, ops, seen, accepted)
    ensures Applied(d, DeltaOf(ops, i)) == d
  {}

  lemma AcceptedFirst(seen: nat, schedule: seq<nat>, accepted: set<nat>)
    requires schedule != [] && schedule[0] >= seen
    ensures accepted + Accepted(seen, schedule) == accepted + {schedule[0]} + Accepted(schedule[0] + 1, schedule[1..])
  {}

  lemma {:induction false} AnyScheduleHolds(d: Decoding, ops: seq<Op>, seen: nat, accepted: set<nat>, schedule: seq<nat>)
    returns (end: nat)
    requires seen <= |ops| && Holding(d, ops, seen, accepted) && Within(schedule, |ops|)
    ensures end <= |ops| && Holding(ApplyAll(d, ops, schedule), ops, end, accepted + Accepted(seen, schedule))
    decreases |schedule|
  {
    if schedule == [] {
      end := seen;
      assert accepted + Accepted(seen, schedule) == accepted;
    } else if schedule[0] >= seen {
      var i := schedule[0];
      AcceptKeeps(d, ops, seen, accepted, i);
      AcceptedFirst(seen, schedule, accepted);
      end := AnyScheduleHolds(Applied(d, DeltaOf(ops, i)), ops, i + 1, accepted + {i}, schedule[1..]);
    } else {
      NotAccepted(d, ops, seen, accepted, schedule[0]);
      end := AnyScheduleHolds(d, ops, seen, accepted, schedule[1..]);
    }
  }

  /** For every run of the encoder and every schedule, with deltas lost, repeated or out of order: the decoder
    * holds the encoder's text up to the last push it accepted, with every chunk it did not accept replaced by
    * spaces, and the hash of that. */
  lemma LossIsBlank(ops: seq<Op>, schedule: seq<nat>)
    requires Within(schedule, |ops|)
    ensures var accepted, d := Accepted(0, schedule), ApplyAll(NewDecoding(), ops, schedule);
      && d.assembled == Blanked(ops, PushedUpTo(ops, |ops|, accepted), accepted)
      && d.hash == StateOf(d.assembled)
  {
    var end := AnyScheduleHolds(NewDecoding(), ops, 0, {}, schedule);
    assert {} + Accepted(0, schedule) == Accepted(0, schedule);
    NothingAccepted(ops, end, |ops|, Accepted(0, schedule));
  }

  /** The pushes a decoder takes from a schedule. */
  function AcceptedPushes(ops: seq<Op>, seen: nat, schedule: seq<nat>): nat
    requires Within(schedule, |ops|)
    decreases |schedule|
  {
    if schedule == [] then 0
    else if schedule[0] >= seen
    then (if ops[schedule[0]].Push? then 1 else 0) + AcceptedPushes(ops, schedule[0] + 1, schedule[1..])
    else AcceptedPushes(ops, seen, schedule[1..])
  }

  /** `deltas_applied` counts them, for a new decoder and for a resumed one. */
  lemma {:induction false} CountsApplied(d: Decoding, ops: seq<Op>, seen: nat, schedule: seq<nat>, cp: Checkpoint, text: Text)
    requires Within(schedule, |ops|) && d.lastSeq == if seen == 0 then None else Some(seen - 1)
    ensures ApplyAll(d, ops, schedule).applied == d.applied + AcceptedPushes(ops, seen, schedule)
    ensures NewDecoding().applied == 0 && ResumedDecoding(cp, text).applied == 0
    decreases |schedule|
  {
    if schedule != [] {
      CountsApplied(Applied(d, DeltaOf(ops, schedule[0])), ops, if schedule[0] >= seen then schedule[0] + 1 else seen,
                    schedule[1..], cp, text);
    }
  }

  /** Where nothing is lost, blanking changes nothing. */
  lemma {:induction false} NothingBlank(ops: seq<Op>, n: nat, accepted: set<nat>)
    requires n <= |ops| && forall i :: 0 <= i < n && ops[i].Push? ==> i in accepted
    ensures Blanked(ops, n, accepted) == TextOf(ops[..n])
    decreases n
  {
    if n > 0 {
      NothingBlank(ops, n - 1, accepted);
      assert ops[..n][..n - 1] == ops[..n - 1];
    }
  }
}
