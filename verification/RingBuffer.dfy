/** The single-producer single-consumer ring buffer, one atomic load, store or slot access at a time. */
module RingBuffers {
  import opened Arithmetic
  import opened Options

  /** Where a `push` stands: what it has loaded so far. `Writing` is in the middle of the slot. */
  datatype Producer<T> =
    | Idle
    | HasWritten(value: T, written: nat)
    | Admitted(value: T, written: nat)
    | Writing(value: T, written: nat)
    | Wrote(value: T, written: nat)
    | Overflowed

  /** Where a `poll` stands. `Reading` is in the middle of the slot. */
  datatype Consumer<T> =
    | Resting
    | HasRead(read: nat)
    | MayTake(read: nat)
    | Reading(read: nat)
    | Took(read: nat, value: T)

  /** The shared words, both threads, and what has been pushed and polled. A slot is `None` while its content is undefined. */
  datatype Ring<T> = Ring(read: nat, written: nat, data: seq<Option<T>>, producer: Producer<T>, consumer: Consumer<T>,
                          pushed: seq<T>, polled: seq<T>)
  {
    function Slot(k: nat): nat
      requires data != []
    {
      k % |data|
    }
  }

  function Empty<T>(len: nat): Ring<T> {
    Ring(0, 0, seq(len, _ => None), Idle, Resting, [], [])
  }

  // ---- Steps ----

  datatype Step<T> =
    | LoadWritten(value: T)
    | CheckRead
    | BeginWrite
    | EndWrite
    | StoreWritten
    | LoadRead
    | CheckWritten
    | BeginRead
    | EndRead
    | StoreRead

  predicate Enabled<T>(r: Ring<T>, step: Step<T>) {
    && r.data != []
    && match step
       case LoadWritten(_) => r.producer.Idle?
       case CheckRead => r.producer.HasWritten?
       case BeginWrite => r.producer.Admitted?
       case EndWrite => r.producer.Writing?
       case StoreWritten => r.producer.Wrote?
       case LoadRead => r.consumer.Resting?
       case CheckWritten => r.consumer.HasRead?
       case BeginRead => r.consumer.MayTake?
       case EndRead => r.consumer.Reading? && r.data[r.Slot(r.consumer.read)].Some?
       case StoreRead => r.consumer.Took?
  }

  function After<T>(r: Ring<T>, step: Step<T>): Ring<T>
    requires Enabled(r, step)
  {
    match step
    case LoadWritten(value) => r.(producer := HasWritten(value, r.written))
    case CheckRead =>
      var p := r.producer;
      r.(producer := if p.written < r.read + |r.data| then Admitted(p.value, p.written) else Overflowed)
    case BeginWrite =>
      var p := r.producer;
      r.(producer := Writing(p.value, p.written), data := r.data[r.Slot(p.written) := None])
    case EndWrite =>
      var p := r.producer;
      r.(producer := Wrote(p.value, p.written), data := r.data[r.Slot(p.written) := Some(p.value)])
    case StoreWritten =>
      r.(producer := Idle, written := r.producer.written + 1, pushed := r.pushed + [r.producer.value])
    case LoadRead => r.(consumer := HasRead(r.read))
    case CheckWritten =>
      r.(consumer := if r.written <= r.consumer.read then Resting else MayTake(r.consumer.read))
    case BeginRead => r.(consumer := Reading(r.consumer.read))
    case EndRead => r.(consumer := Took(r.consumer.read, r.data[r.Slot(r.consumer.read)].value))
    case StoreRead =>
      r.(consumer := Resting, read := r.consumer.read + 1, polled := r.polled + [r.consumer.value])
  }

  // ---- Invariant ----

  ghost predicate Holds<T>(r: Ring<T>, k: nat) {
    r.data != [] && k < |r.pushed| && r.data[r.Slot(k)] == Some(r.pushed[k])
  }

  ghost predicate Inv<T(!new)>(r: Ring<T>) {
    && r.data != [] && r.read <= r.written <= r.read + |r.data|
    && |r.pushed| == r.written && |r.polled| == r.read && r.polled <= r.pushed
    && (forall k: nat :: r.read <= k < r.written ==> Holds(r, k))
    && ProducerOk(r) && ConsumerOk(r)
  }

  ghost predicate ProducerOk<T>(r: Ring<T>) {
    match r.producer
    case HasWritten(_, written) => written == r.written
    case Admitted(_, written) => written == r.written < r.read + |r.data|
    case Writing(_, written) => written == r.written < r.read + |r.data|
    case Wrote(value, written) =>
      written == r.written < r.read + |r.data| && r.data != [] && r.data[r.Slot(written)] == Some(value)
    case _ => true
  }

  ghost predicate ConsumerOk<T>(r: Ring<T>) {
    match r.consumer
    case Resting => true
    case HasRead(read) => read == r.read
    case MayTake(read) => read == r.read < r.written
    case Reading(read) => read == r.read < r.written
    case Took(read, value) => read == r.read < r.written == |r.pushed| && value == r.pushed[read]
  }

  /** Positions less than a round apart share a slot only if they are the same. */
  lemma SlotsApart(a: nat, b: nat, len: nat)
    requires len > 0 && a < b < a + len
    ensures a % len != b % len
  {
    if a % len == b % len {
      var q, s := Quotient(a, len);
      DivModUnique(a, q, s, len);
      var p, t := Quotient(b, len);
      DivModUnique(b, p, t, len);
      MulAdd(p - q, q, len);
      MulOrder(1, p - q, len);
      MulOrder(p - q, 0, len);
    }
  }

  lemma StepKeepsInv<T(!new)>(r: Ring<T>, step: Step<T>)
    requires Inv(r) && Enabled(r, step)
    ensures Inv(After(r, step))
  {
    var t := After(r, step);
    forall k: nat | t.read <= k < t.written ensures Holds(t, k) {
      if k < r.written {
        assert Holds(r, k);
        if r.producer.Admitted? || r.producer.Writing? {
          SlotsApart(k, r.written, |r.data|);
        }
      }
    }
    if r.consumer.Reading? {
      assert Holds(r, r.read);
    }
  }

  // ---- Runs ----

  ghost predicate IsRun<T(!new)>(r: Ring<T>, steps: seq<Step<T>>, t: Ring<T>)
    decreases |steps|
  {
    if steps == [] then t == r
    else Enabled(r, steps[0]) && IsRun(After(r, steps[0]), steps[1..], t)
  }

  lemma {:induction false} RunKeepsInv<T(!new)>(r: Ring<T>, steps: seq<Step<T>>, t: Ring<T>)
    requires Inv(r) && IsRun(r, steps, t)
    ensures Inv(t)
    decreases |steps|
  {
    hide Inv, Enabled, After;
    if steps != [] {
      StepKeepsInv(r, steps[0]);
      RunKeepsInv(After(r, steps[0]), steps[1..], t);
    }
  }

  /** Whatever the interleaving and however often the indices wrap: the counters stay within one buffer of each other,
      the two threads are never at one slot together, a slot that is read is never half written, and what was polled is a
      prefix of what was pushed. */
  lemma EveryRun<T(!new)>(len: nat, steps: seq<Step<T>>, r: Ring<T>)
    requires len > 0 && IsRun(Empty(len), steps, r)
    ensures r.data != [] && r.read <= r.written <= r.read + |r.data| && r.polled <= r.pushed
    ensures (r.producer.Admitted? || r.producer.Writing? || r.producer.Wrote?) && (r.consumer.MayTake? || r.consumer.Reading?) ==>
              r.Slot(r.producer.written) != r.Slot(r.consumer.read)
    ensures r.consumer.Reading? ==> Enabled(r, EndRead)
  {
    hide IsRun;
    EmptyInv<T>(len);
    RunKeepsInv(Empty(len), steps, r);
    if r.consumer.Reading? {
      assert Holds(r, r.read);
    }
    if (r.producer.Admitted? || r.producer.Writing? || r.producer.Wrote?) && (r.consumer.MayTake? || r.consumer.Reading?) {
      SlotsApart(r.consumer.read, r.producer.written, |r.data|);
    }
  }

  lemma EmptyInv<T(!new)>(len: nat)
    requires len > 0
    ensures Inv(Empty<T>(len))
  {
  }

  /** `push` panics exactly when every slot holds an unread value, and `poll` finds nothing exactly when none does, each
      judged at its load of the other thread's counter. */
  lemma FullAndEmpty<T(!new)>(r: Ring<T>)
    requires Inv(r)
    ensures Enabled(r, CheckRead) ==> (After(r, CheckRead).producer.Overflowed? <==> |r.pushed| - |r.polled| == |r.data|)
    ensures Enabled(r, CheckWritten) ==> (After(r, CheckWritten).consumer.Resting? <==> |r.pushed| == |r.polled|)
  {
    hide Holds;
  }

  // ---- The buffer itself, with nobody interfering ----

  function PushSteps<T>(value: T): seq<Step<T>> {
    [LoadWritten(value), CheckRead, BeginWrite, EndWrite, StoreWritten]
  }

  function PollSteps<T>(): seq<Step<T>> {
    [LoadRead, CheckWritten, BeginRead, EndRead, StoreRead]
  }

  lemma PushRun<T(!new)>(r: Ring<T>, value: T)
    requires Inv(r) && r.producer.Idle? && r.written < r.read + |r.data|
    ensures IsRun(r, PushSteps(value), r.(written := r.written + 1, pushed := r.pushed + [value],
                                          data := r.data[r.Slot(r.written) := Some(value)]))
  {
    hide Inv, Holds, IsRun;
    var s0, s1, s2, s3, s4 := LoadWritten(value), CheckRead, BeginWrite, EndWrite, StoreWritten;
    assert r.data != [] by { NotEmpty(r); }
    var r1 := After(r, s0);
    var r2 := After(r1, s1);
    var r3 := After(r2, s2);
    var r4 := After(r3, s3);
    var r5 := After(r4, s4);
    Runs5(r, s0, s1, s2, s3, s4, r1, r2, r3, r4, r5);
    assert r5.data == r.data[r.Slot(r.written) := Some(value)];
  }

  lemma PollRun<T(!new)>(r: Ring<T>)
    requires Inv(r) && r.consumer.Resting? && r.read < r.written
    ensures r.read < |r.pushed|
    ensures IsRun(r, PollSteps(), r.(read := r.read + 1, polled := r.polled + [r.pushed[r.read]]))
  {
    hide Inv, IsRun;
    FirstUnread(r);
    var s0: Step<T>, s1: Step<T>, s2: Step<T>, s3: Step<T>, s4: Step<T> := LoadRead, CheckWritten, BeginRead, EndRead, StoreRead;
    var r1 := After(r, s0);
    var r2 := After(r1, s1);
    var r3 := After(r2, s2);
    var r4 := After(r3, s3);
    var r5 := After(r4, s4);
    Runs5(r, s0, s1, s2, s3, s4, r1, r2, r3, r4, r5);
  }

  lemma FirstUnread<T(!new)>(r: Ring<T>)
    requires Inv(r) && r.read < r.written
    ensures r.data != [] && r.read < |r.pushed| && r.data[r.Slot(r.read)] == Some(r.pushed[r.read])
  {
    assert Holds(r, r.read);
  }

  lemma NotEmpty<T(!new)>(r: Ring<T>)
    requires Inv(r)
    ensures r.data != []
  {
  }

  lemma Runs5<T(!new)>(r: Ring<T>, s0: Step<T>, s1: Step<T>, s2: Step<T>, s3: Step<T>, s4: Step<T>,
                       r1: Ring<T>, r2: Ring<T>, r3: Ring<T>, r4: Ring<T>, r5: Ring<T>)
    requires Enabled(r, s0) && r1 == After(r, s0) && Enabled(r1, s1) && r2 == After(r1, s1)
    requires Enabled(r2, s2) && r3 == After(r2, s2) && Enabled(r3, s3) && r4 == After(r3, s3)
    requires Enabled(r4, s4) && r5 == After(r4, s4)
    ensures IsRun(r, [s0, s1, s2, s3, s4], r5)
  {
    hide Enabled, After;
    assert IsRun(r5, [], r5);
    assert [s4][1..] == [] && IsRun(r4, [s4], r5);
    assert [s3, s4][1..] == [s4] && IsRun(r3, [s3, s4], r5);
    assert [s2, s3, s4][1..] == [s3, s4] && IsRun(r2, [s2, s3, s4], r5);
    assert [s1, s2, s3, s4][1..] == [s2, s3, s4] && IsRun(r1, [s1, s2, s3, s4], r5);
    assert [s0, s1, s2, s3, s4][1..] == [s1, s2, s3, s4];
  }

  class RingBuffer<T(!new)> {
    var read: nat
    var written: nat
    const data: array<Option<T>>
    ghost var pushed: seq<T>
    ghost var polled: seq<T>

    ghost function State(): Ring<T>
      reads this, data
    {
      Ring(read, written, data[..], Idle, Resting, pushed, polled)
    }

    ghost predicate Valid()
      reads this, data
    {
      Inv(State())
    }

    constructor (elementCount: nat)
      requires elementCount > 0
      ensures Valid() && fresh(data) && State() == Empty(elementCount)
    {
      read, written := 0, 0;
      data := new Option<T>[elementCount](_ => None);
      pushed, polled := [], [];
      new;
      EmptyInv<T>(elementCount);
      assert data[..] == Empty<T>(elementCount).data;
    }

    /** `ok` fails where the source panics, on a full buffer. */
    method Push(value: T) returns (ok: bool)
      requires Valid()
      modifies this`written, this`pushed, data
      ensures Valid() && ok == (|old(pushed)| - |polled| < data.Length)
      ensures ok ==> IsRun(old(State()), PushSteps(value), State()) && pushed == old(pushed) + [value]
      ensures !ok ==> State() == old(State())
    {
      hide IsRun, Holds;
      if written >= read + data.Length {
        return false;
      }
      ghost var before := State();
      PushRun(before, value);
      data[written % data.Length] := Some(value);
      written := written + 1;
      pushed := pushed + [value];
      RunKeepsInv(before, PushSteps(value), State());
      return true;
    }

    /** The oldest value that has not been polled, if there is one. */
    method Poll() returns (result: Option<T>)
      requires Valid()
      modifies this`read, this`polled
      ensures Valid() && (result.None? <==> |pushed| == |old(polled)|)
      ensures result.None? ==> State() == old(State())
      ensures result.Some? ==> result.value == pushed[|old(polled)|] && IsRun(old(State()), PollSteps(), State())
    {
      hide IsRun;
      if written <= read {
        return None;
      }
      ghost var before := State();
      PollRun(before);
      assert Holds(before, read);
      var element := data[read % data.Length];
      read := read + 1;
      polled := polled + [pushed[read - 1]];
      RunKeepsInv(before, PollSteps(), State());
      return element;
    }
  }
}
