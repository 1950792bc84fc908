/** The system calls that exchange messages, and the scheduler, working in place on the table of processes. */
module Kernels {
  import opened Actors
  import opened Arithmetic
  import opened Bytes
  import opened Ipc
  import opened Machine
  import opened Options
  import Capabilities

  const CACHE_LINE_SIZE: nat := 64

  /** How validating a capability ended, see `CertificatePages.Validate`. */
  type Claim = Capabilities.Outcome

  predicate Ended(claim: Claim) {
    && !claim.Unfinished?
    && (claim.Root? ==> Capabilities.IsCap(claim.cap) && Capabilities.Certifier(claim.cap).Some?)
  }

  /** Who granted the root of a claim: the kernel, or a process whose number has a slot. */
  function Granter(claim: Claim): (granter: Actor)
    requires Ended(claim) && claim.Root?
    ensures granter.HasPage()
  {
    Capabilities.CapIsItsParts(claim.cap);
    Capabilities.Certifier(claim.cap).value
  }

  /** The bytes of a reply to a stream request: not decodable, naming something that is not the address of a certificate,
      or a claim of the caller on shared memory with the size that the server declares. `memorySize` is what the handler
      of the memory says, `None` for a handler of another kind. */
  datatype StreamReply =
    | Undecodable
    | NotACapability
    | Offer(ring: Claim, declaredSize: nat, memorySize: Option<nat>)
  {
    predicate Sensible() {
      Offer? ==> Ended(ring) && declaredSize < WORD_END && (memorySize.Some? ==> memorySize.value < WORD_END)
    }

    predicate OffersMemory()
      requires Sensible()
    {
      Offer? && ring.Root? && Granter(ring) == Kernel && memorySize.Some? && memorySize.value % PAGE_SIZE == 0
    }

    predicate Acceptable()
      requires Sensible()
    {
      OffersMemory() && 2 * CACHE_LINE_SIZE + declaredSize <= memorySize.value && 2 * CACHE_LINE_SIZE + declaredSize < WORD_END
    }

    /** Where the kernel panics on it: unwrapping the capability, in validation, in a handler without a size, or adding
        the declared size to the header of the ring. */
    predicate Panics()
      requires Sensible()
    {
      || NotACapability?
      || (Offer? && ring.Aborted?)
      || (Offer? && ring.Root? && Granter(ring) == Kernel && memorySize.None?)
      || (OffersMemory() && 2 * CACHE_LINE_SIZE + declaredSize >= WORD_END)
    }
  }

  /** What a kernel handler does with a request for a stream or for memory: it has none, there is no room for it in the heap
      of the process, or it is mapped. */
  datatype KernelStream = NoStreams | NoRoom | Mapped

  datatype Resumption = Running | TooLong | OutOfHeap

  /** `Yielded` gives up the processor, also when the caller was killed. `Aborted` is a kernel panic. */
  datatype Outcome = Returned | Yielded | Aborted

  /** The call names the caller itself. */
  predicate CallsItself(claim: Claim, pid: nat)
    requires Ended(claim)
  {
    claim.Root? && Granter(claim) == Userspace(pid)
  }

  /** The call names a process that is not there. */
  predicate CallsNobody(claim: Claim, slots: seq<Option<Process>>)
    requires Ended(claim)
  {
    claim.Root? && Granter(claim).Userspace? && Granter(claim).pid < |slots| && slots[Granter(claim).pid].None?
  }

  /** What a caller in `state` is given by a reply, if the reply is good. */
  function Given(state: ProcessState, result: seq<Byte>, stream: StreamReply): Option<Answer>
    requires stream.Sensible()
  {
    match state
    case WaitingForReply(_, buffer) => Some(Bytes(result, buffer))
    case WaitingForStreamMap(_) => if stream.Acceptable() then Some(Ring(stream.ring.cap, stream.declaredSize)) else None
    case _ => None
  }

  /** A reply by `pid` takes `s` to `t`: the caller in service waits for `pid`, and is answered unless it asked for a
      stream and the reply is no good. */
  ghost predicate IsReply(s: System, pid: nat, result: seq<Byte>, stream: StreamReply, outcome: Outcome, t: System)
    requires stream.Sensible()
  {
    && pid < |s.slots| && s.slots[pid].Some?
    && var p := s.slots[pid].value;
    if p.serving.None? then outcome == Yielded && CanStop(s, pid) && t == Stopped(s, pid, p.messages, None)
    else
      && WaitsFor(s.slots, p.serving.value, pid)
      && var state := s.slots[p.serving.value].value.state;
      && var answer := Given(state, result, stream);
      if answer.Some? then
        outcome == Returned && CanAnswer(s, pid, answer.value) && t == Replied(s, pid, answer.value)
      else
        && state.WaitingForStreamMap?
        && (outcome == Aborted <==> stream.Panics())
        && (outcome != Aborted ==> outcome == Yielded && CanStop(s, pid) && t == Stopped(s, pid, p.messages, None))
  }

  lemma ReplyWithoutRequest(s: System, pid: nat, result: seq<Byte>, stream: StreamReply, outcome: Outcome, t: System)
    requires stream.Sensible() && IsReply(s, pid, result, stream, outcome, t)
    ensures s.slots[pid].value.serving.None? ==>
              outcome == Yielded && t.slots == s.slots[pid := Some(Process(Finished, s.slots[pid].value.messages, None))]
  {
  }

  /** What a reply does, written out for each thing that the caller in service may wait for. */
  lemma ReplyToCall(s: System, pid: nat, result: seq<Byte>, stream: StreamReply, outcome: Outcome, t: System)
    requires Inv(s) && stream.Sensible() && IsReply(s, pid, result, stream, outcome, t) && s.slots[pid].value.serving.Some?
    ensures var c := s.slots[pid].value.serving.value;
            && pid < PROCESS_COUNT && c < PROCESS_COUNT && c != pid && s.slots[c].Some? && |s.slots| == |s.traces| == PROCESS_COUNT
            && var caller := s.slots[c].value;
            && (caller.state.WaitingForReply? || caller.state.WaitingForStreamMap?) && caller.state.from == Userspace(pid)
            && (caller.state.WaitingForReply? ==>
                  && outcome == Returned && t.unborn == s.unborn
                  && t.slots == s.slots[pid := Some(s.slots[pid].value.(serving := None))]
                                [c := Some(caller.(state := ReadyReply(result, caller.state.resultBuffer)))]
                  && t.traces == s.traces[pid := s.traces[pid].(answered :=
                       s.traces[pid].answered + [Answered(c, Bytes(result, caller.state.resultBuffer))])])
  {
    hide Inv;
    InvAt(s, pid);
    var c := s.slots[pid].value.serving.value;
    WaitsForAnother(s, c);
  }

  lemma ReplyToStream(s: System, pid: nat, result: seq<Byte>, stream: StreamReply, outcome: Outcome, t: System)
    requires Inv(s) && stream.Sensible() && IsReply(s, pid, result, stream, outcome, t) && s.slots[pid].value.serving.Some?
    requires var c := s.slots[pid].value.serving.value;
             c < |s.slots| && s.slots[c].Some? && s.slots[c].value.state.WaitingForStreamMap?
    ensures outcome == Returned <==>
              && stream.Offer? && stream.ring.Root? && Capabilities.Certifier(stream.ring.cap) == Some(Kernel)
              && stream.memorySize.Some? && stream.memorySize.value % 4096 == 0
              && 2 * 64 + stream.declaredSize <= stream.memorySize.value
    ensures outcome == Aborted <==>
              || stream.NotACapability?
              || (stream.Offer? && stream.ring.Aborted?)
              || (stream.Offer? && stream.ring.Root? && Capabilities.Certifier(stream.ring.cap) == Some(Kernel)
                  && (stream.memorySize.None? ||
                      (stream.memorySize.value % 4096 == 0 && 2 * 64 + stream.declaredSize >= 0x1_0000_0000_0000_0000)))
    ensures var c := s.slots[pid].value.serving.value;
            && pid < PROCESS_COUNT && |s.slots| == |s.traces| == PROCESS_COUNT
            && (outcome == Returned ==>
                  && t.unborn == s.unborn
                  && t.slots == s.slots[pid := Some(s.slots[pid].value.(serving := None))]
                                [c := Some(s.slots[c].value.(state := ReadyStreamMap(stream.ring.cap, stream.declaredSize)))]
                  && t.traces == s.traces[pid := s.traces[pid].(answered :=
                       s.traces[pid].answered + [Answered(c, Ring(stream.ring.cap, stream.declaredSize))])])
            && (outcome == Yielded ==>
                  t == s.(slots := s.slots[pid := Some(Process(Finished, s.slots[pid].value.messages, None))]))
  {
    hide Inv, Capabilities.IsCap;
    InvAt(s, pid);
  }

  // ---- The scan for a process to run ----

  /** A process that has finished, or waits for one that has finished or is gone, loses its slot. */
  predicate Hopeless(slots: seq<Option<Process>>, p: nat) {
    && p < |slots| && slots[p].Some?
    && var state := slots[p].value.state;
    && (state.Finished? || (state.Waiting() && state.from.Userspace? && !Live(slots, state.from.pid)))
  }

  function Settled(slots: seq<Option<Process>>, p: nat): (r: seq<Option<Process>>)
    ensures |r| == |slots|
  {
    if Hopeless(slots, p) then slots[p := None] else slots
  }

  function At(start: nat, offset: nat): (p: nat)
    ensures p < PROCESS_COUNT
  {
    (start + offset) % PROCESS_COUNT
  }

  /** The table after settling the `n` slots from `start` on, one after the other. */
  function Swept(slots: seq<Option<Process>>, start: nat, n: nat): (r: seq<Option<Process>>)
    ensures |r| == |slots|
  {
    if n == 0 then slots else Settled(Swept(slots, start, n - 1), At(start, n - 1))
  }

  ghost predicate IsSweep(slots: seq<Option<Process>>, start: nat, after: seq<Option<Process>>) {
    exists n: nat :: n <= PROCESS_COUNT && after == Swept(slots, start, n)
  }

  /** `p` is the first process from `start` on that can run. */
  ghost predicate IsPick(slots: seq<Option<Process>>, start: nat, p: nat) {
    exists n: nat :: n < PROCESS_COUNT && p == At(start, n) && CanRun(slots, p) && NobodyBefore(slots, start, n)
  }

  ghost predicate NobodyBefore(slots: seq<Option<Process>>, start: nat, n: nat) {
    forall m: nat :: m < n ==> !CanRun(slots, At(start, m))
  }

  /** The scan changes the slots of no process that can run, and makes none able to. */
  lemma {:induction false} SweptKeepsRunner(slots: seq<Option<Process>>, start: nat, n: nat, q: nat)
    ensures CanRun(Swept(slots, start, n), q) <==> CanRun(slots, q)
    ensures CanRun(slots, q) ==> Swept(slots, start, n)[q] == slots[q]
  {
    hide At;
    if n > 0 {
      SweptKeepsRunner(slots, start, n - 1, q);
    }
  }

  lemma ResumableIs(slots: seq<Option<Process>>, p: nat)
    ensures Resumable(slots, p) <==>
              && p < |slots| && slots[p].Some?
              && var state := slots[p].value.state;
              || state.Runnable? || state.ReadyStreamMap? || (state.ReadyReply? && |state.reply| <= state.resultBuffer.length)
  {
  }

  lemma NoneCanGoOn(slots: seq<Option<Process>>)
    requires forall p: nat :: !Resumable(slots, p)
    ensures forall p: nat :: p < |slots| && slots[p].Some? ==>
              var state := slots[p].value.state;
              && !state.Runnable? && !state.ReadyStreamMap?
              && !(state.ReadyReply? && |state.reply| <= state.resultBuffer.length)
  {
    hide Resumable;
    forall p: nat | p < |slots| && slots[p].Some?
      ensures var state := slots[p].value.state;
              && !state.Runnable? && !state.ReadyStreamMap?
              && !(state.ReadyReply? && |state.reply| <= state.resultBuffer.length)
    {
      ResumableIs(slots, p);
    }
  }

  lemma RunnerIs(slots: seq<Option<Process>>, p: nat)
    ensures CanRun(slots, p) <==>
              && p < |slots| && slots[p].Some?
              && (slots[p].value.state.Runnable? || slots[p].value.state.ReadyReply? || slots[p].value.state.ReadyStreamMap?)
  {
  }

  /** A slot that the scan has passed: empty now if it held a process that had finished, or that waited for a process that was
      gone or had finished when the scan came to it, and as it was otherwise. */
  lemma {:induction false} SweptSlot(slots: seq<Option<Process>>, start: nat, n: nat, m: nat)
    requires |slots| == PROCESS_COUNT && m < n <= PROCESS_COUNT
    ensures var p := (start + m) % PROCESS_COUNT;
            var found := Swept(slots, start, m);
            && found[p] == slots[p]
            && Swept(slots, start, n)[p] ==
                 if slots[p].Some?
                    && (|| slots[p].value.state.Finished?
                        || ((slots[p].value.state.WaitingForReply? || slots[p].value.state.WaitingForStreamMap?)
                            && slots[p].value.state.from.Userspace?
                            && var server := slots[p].value.state.from.pid;
                               server >= |found| || found[server].None? || found[server].value.state.Finished?))
                 then None else slots[p]
    decreases n
  {
    if n == m + 1 {
      NotYetSwept(slots, start, m, m);
    } else {
      SweptSlot(slots, start, n - 1, m);
      if At(start, n - 1) == At(start, m) { OffsetUnique(start, m, n - 1); }
    }
  }

  lemma {:induction false} NotYetSwept(slots: seq<Option<Process>>, start: nat, n: nat, m: nat)
    requires |slots| == PROCESS_COUNT && n <= m < PROCESS_COUNT
    ensures Swept(slots, start, n)[At(start, m)] == slots[At(start, m)]
    decreases n
  {
    hide Settled;
    if n > 0 {
      NotYetSwept(slots, start, n - 1, m);
      if At(start, n - 1) == At(start, m) { OffsetUnique(start, n - 1, m); }
      SettledElsewhere(Swept(slots, start, n - 1), At(start, n - 1), At(start, m));
    }
  }

  lemma SettledElsewhere(slots: seq<Option<Process>>, p: nat, q: nat)
    requires p != q && q < |slots|
    ensures Settled(slots, p)[q] == slots[q]
  {
    hide Hopeless;
  }

  lemma {:induction false} SweptKeepsQueue(slots: seq<Option<Process>>, start: nat, n: nat, q: nat)
    ensures QueueKept(slots, Swept(slots, start, n), q)
  {
    hide At;
    if n > 0 {
      SweptKeepsQueue(slots, start, n - 1, q);
    }
  }

  lemma SettledKeepsInv(s: System, p: nat)
    requires Inv(s) && p < PROCESS_COUNT
    ensures Inv(s.(slots := Settled(s.slots, p)))
  {
    hide Inv;
    InvAt(s, p);
    if Hopeless(s.slots, p) {
      GoneKeepsInv(s, s.(slots := Settled(s.slots, p)), p);
    }
  }

  /** The lock the scan takes on the server of a waiter is not one that it holds. */
  lemma WaitsForAnother(s: System, p: nat)
    requires Inv(s) && p < PROCESS_COUNT && s.slots[p].Some? && s.slots[p].value.state.Waiting()
    ensures var from := s.slots[p].value.state.from; from.Userspace? && from.pid < PROCESS_COUNT && from.pid != p
  {
    hide Inv, TraceOk, ServerOk;
    InvAt(s, p);
  }

  /** A process that can run and is not stopped by an answer too long for the buffer it gave. */
  predicate Resumable(slots: seq<Option<Process>>, p: nat) {
    && CanRun(slots, p)
    && var state := slots[p].value.state;
    (state.ReadyReply? ==> |state.reply| <= state.resultBuffer.length)
  }

  predicate DueStream(slots: seq<Option<Process>>, p: nat) {
    p < |slots| && slots[p].Some? && slots[p].value.state.ReadyStreamMap?
  }

  /** `p` is the first process from `start` on that can be resumed. */
  ghost predicate IsResumed(slots: seq<Option<Process>>, start: nat, p: nat) {
    exists n: nat :: n < PROCESS_COUNT && p == At(start, n) && Resumable(slots, p) && NoneResumable(slots, start, n)
  }

  ghost predicate NoneResumable(slots: seq<Option<Process>>, start: nat, n: nat) {
    forall m: nat :: m < n ==> !Resumable(slots, At(start, m))
  }

  /** What the scheduler has done to the table so far: those that can run are as they were, and only such have gone that
      could not be resumed. */
  ghost predicate OnlyStopped(slots: seq<Option<Process>>, now: seq<Option<Process>>) {
    |slots| == |now| && forall q: nat :: RunnerKept(slots, now, q)
  }

  /** `p` goes on running, and of the others that can run all those are as they were that could be resumed. */
  ghost predicate IsSchedule(slots: seq<Option<Process>>, now: seq<Option<Process>>, p: nat) {
    && |slots| == |now| && p < |slots| && slots[p].Some? && now[p] == Some(slots[p].value.(state := Runnable))
    && forall q: nat :: q != p ==> RunnerKept(slots, now, q)
  }

  /** A process that is still there has the messages it had. */
  ghost predicate QueueKept(slots: seq<Option<Process>>, now: seq<Option<Process>>, q: nat) {
    q < |now| && now[q].Some? ==> q < |slots| && slots[q].Some? && now[q].value.messages == slots[q].value.messages
  }

  ghost predicate RunnerKept(slots: seq<Option<Process>>, now: seq<Option<Process>>, q: nat) {
    && (CanRun(now, q) ==> CanRun(slots, q) && q < |slots| && now[q] == slots[q])
    && (Resumable(slots, q) ==> CanRun(now, q))
    && QueueKept(slots, now, q)
  }

  // ---- Fairness ----

  /** How many slots the scan from `start` passes before it comes to `p`. */
  function Distance(start: nat, p: nat): (d: nat)
    requires p < PROCESS_COUNT
    ensures d < PROCESS_COUNT && At(start, d) == p
  {
    (p + PROCESS_COUNT - start % PROCESS_COUNT) % PROCESS_COUNT
  }

  lemma DistanceOf(start: nat, n: nat)
    requires n < PROCESS_COUNT
    ensures Distance(start, At(start, n)) == n
  {
    hide At;
    var d := Distance(start, At(start, n));
    if d <= n { OffsetUnique(start, d, n); } else { OffsetUnique(start, n, d); }
  }

  lemma NobodyAtAll(slots: seq<Option<Process>>, start: nat)
    requires |slots| == PROCESS_COUNT && NobodyBefore(slots, start, PROCESS_COUNT)
    ensures forall p: nat :: !CanRun(slots, p)
  {
    forall p: nat ensures !CanRun(slots, p) {
      if p < PROCESS_COUNT {
        assert !CanRun(slots, At(start, Distance(start, p)));
      }
    }
  }

  lemma OffsetUnique(start: nat, m: nat, n: nat)
    requires m <= n < PROCESS_COUNT && At(start, m) == At(start, n)
    ensures m == n
  {
    var a, b := (start + m) / PROCESS_COUNT, (start + n) / PROCESS_COUNT;
    assert n - m == (b - a) * PROCESS_COUNT;
  }

  lemma AtComposes(start: nat, n: nat, k: nat)
    ensures At(At(start, n) + 1, k) == At(start, n + 1 + k)
  {
    var q, r := Quotient(start + n, PROCESS_COUNT);
    DivModUnique(start + n, q, r, PROCESS_COUNT);
    var q', r' := Quotient(r + 1 + k, PROCESS_COUNT);
    DivModUnique(r + 1 + k, q', r', PROCESS_COUNT);
    MulAdd(q, q', PROCESS_COUNT);
    DivModUnique(start + n + 1 + k, q + q', r', PROCESS_COUNT);
  }

  /** While `p` can run, picking somebody else brings the scan strictly closer to `p`. */
  lemma PickGetsCloser(slots: seq<Option<Process>>, start: nat, pick: nat, p: nat)
    requires IsPick(slots, start, pick) && CanRun(slots, p) && p < PROCESS_COUNT && pick != p
    ensures Distance(pick + 1, p) < Distance(start, p)
  {
    hide CanRun;
    var n: nat :| n < PROCESS_COUNT && pick == At(start, n) && CanRun(slots, pick) && NobodyBefore(slots, start, n);
    var d := Distance(start, p);
    if n < d {
      AtComposes(start, n, d - n - 1);
      var e := Distance(pick + 1, p);
      if e <= d - n - 1 { OffsetUnique(pick + 1, e, d - n - 1); } else { OffsetUnique(pick + 1, d - n - 1, e); }
    }
  }

  // ---- Scheduling past processes that cannot be resumed ----

  lemma AfterScan(slots: seq<Option<Process>>, now: seq<Option<Process>>, start: nat, found: seq<Option<Process>>, n: nat)
    requires OnlyStopped(slots, now) && IsSweep(now, start, found)
    ensures OnlyStopped(slots, found)
    ensures forall p: nat :: CanRun(found, p) <==> CanRun(now, p)
    ensures forall from: nat :: NobodyBefore(now, from, n) ==> NobodyBefore(found, from, n)
  {
    hide CanRun, Resumable, At, Swept, RunnerKept, OnlyStopped;
    forall p: nat ensures (CanRun(found, p) <==> CanRun(now, p)) && RunnerKept(slots, found, p) {
      StillKept(slots, now, start, found, p);
    }
    assert |found| == |slots| && OnlyStopped(slots, found) by { SameSize(slots, now, start, found); }
  }

  lemma SameSize(slots: seq<Option<Process>>, now: seq<Option<Process>>, start: nat, found: seq<Option<Process>>)
    requires OnlyStopped(slots, now) && IsSweep(now, start, found)
    requires forall p: nat :: RunnerKept(slots, found, p)
    ensures |found| == |slots| && OnlyStopped(slots, found)
  {
  }

  lemma StillKept(slots: seq<Option<Process>>, now: seq<Option<Process>>, start: nat, found: seq<Option<Process>>, p: nat)
    requires OnlyStopped(slots, now) && IsSweep(now, start, found)
    ensures CanRun(found, p) <==> CanRun(now, p)
    ensures RunnerKept(slots, found, p)
  {
    hide Swept;
    var n: nat :| n <= PROCESS_COUNT && found == Swept(now, start, n);
    SweptKeepsRunner(now, start, n, p);
    SweptKeepsQueue(now, start, n, p);
    assert RunnerKept(slots, now, p);
  }

  /** A scan from `from` goes over the same slots as one from `start` after `passed` of them. */
  ghost predicate Continues(from: nat, start: nat, passed: nat) {
    forall k: nat :: At(from, k) == At(start, passed + k)
  }

  /** A pick after `passed` slots without a runner is the first runner from the start. */
  lemma PickAt(now: seq<Option<Process>>, start: nat, passed: nat, from: nat, p: nat) returns (n: nat)
    requires IsPick(now, from, p) && NobodyBefore(now, start, passed)
    requires Continues(from, start, passed)
    ensures passed <= n < PROCESS_COUNT && p == At(start, n) && NobodyBefore(now, start, n) && CanRun(now, p)
  {
    hide CanRun, At;
    assert forall k: nat :: At(from, k) == At(start, passed + k);
    var k: nat :| k < PROCESS_COUNT && p == At(from, k) && CanRun(now, p) && NobodyBefore(now, from, k);
    n := passed + k;
    forall m: nat | m < n ensures !CanRun(now, At(start, m)) {
      if m >= passed {
        assert At(from, m - passed) == At(start, m);
      }
    }
    if n >= PROCESS_COUNT {
      Wraps(start, n - PROCESS_COUNT);
    }
  }

  lemma Wraps(start: nat, m: nat)
    ensures At(start, m) == At(start, m + PROCESS_COUNT)
  {
  }

  lemma FirstResumable(slots: seq<Option<Process>>, found: seq<Option<Process>>, start: nat, n: nat)
    requires OnlyStopped(slots, found) && n < PROCESS_COUNT && NobodyBefore(found, start, n)
    requires Resumable(found, At(start, n))
    ensures IsResumed(slots, start, At(start, n))
  {
    hide CanRun, At;
    assert RunnerKept(slots, found, At(start, n));
    forall m: nat | m < n ensures !Resumable(slots, At(start, m)) {
      assert RunnerKept(slots, found, At(start, m));
    }
  }

  lemma ScanGoesOn(start: nat, n: nat)
    ensures Continues(At(start, n) + 1, start, n + 1)
  {
    var from := At(start, n) + 1;
    forall k: nat ensures At(from, k) == At(start, n + 1 + k) { AtComposes(start, n, k); }
  }

  lemma AfterResume(slots: seq<Option<Process>>, found: seq<Option<Process>>, p: nat)
    requires OnlyStopped(slots, found) && CanRun(found, p)
    ensures var now := found[p := Some(found[p].value.(state := Runnable))];
            IsSchedule(slots, now, p) && forall q: nat :: QueueKept(slots, now, q)
  {
    var now := found[p := Some(found[p].value.(state := Runnable))];
    assert RunnerKept(slots, found, p);
    forall q: nat ensures QueueKept(slots, now, q) && (q != p ==> RunnerKept(slots, now, q)) {
      assert RunnerKept(slots, found, q);
    }
  }

  /** Killing the process that could not be resumed: the scan goes on after it. */
  lemma AfterKill(slots: seq<Option<Process>>, found: seq<Option<Process>>, start: nat, n: nat, gone: Process)
    requires OnlyStopped(slots, found) && n < PROCESS_COUNT && NobodyBefore(found, start, n)
    requires |found| == PROCESS_COUNT && gone.state.Finished?
    requires CanRun(found, At(start, n)) && !Resumable(found, At(start, n))
    requires gone.messages == found[At(start, n)].value.messages
    ensures var after := found[At(start, n) := Some(gone)];
            OnlyStopped(slots, after) && NobodyBefore(after, start, n + 1)
    ensures Continues(At(start, n) + 1, start, n + 1)
  {
    hide At;
    var after := found[At(start, n) := Some(gone)];
    forall q: nat ensures RunnerKept(slots, after, q) {
      assert RunnerKept(slots, found, q);
    }
    ScanGoesOn(start, n);
  }

  lemma QueuesKept(slots: seq<Option<Process>>, now: seq<Option<Process>>)
    requires OnlyStopped(slots, now)
    ensures forall q: nat :: QueueKept(slots, now, q)
  {
    hide QueueKept;
    forall q: nat ensures QueueKept(slots, now, q) {
      assert RunnerKept(slots, now, q);
    }
  }

  lemma FoundAsWas(slots: seq<Option<Process>>, found: seq<Option<Process>>, p: nat)
    requires OnlyStopped(slots, found) && CanRun(found, p)
    ensures p < |slots| == |found| && found[p] == slots[p] && slots[p].Some?
  {
    assert RunnerKept(slots, found, p);
  }

  lemma NothingDone(slots: seq<Option<Process>>, start: nat)
    ensures OnlyStopped(slots, slots) && NobodyBefore(slots, start, 0) && Continues(start, start, 0)
  {
  }

  lemma RunnerThere(slots: seq<Option<Process>>, p: nat)
    requires CanRun(slots, p)
    ensures p < |slots| && slots[p].Some? && !slots[p].value.state.Waiting()
  {
  }

  lemma NoneLeft(slots: seq<Option<Process>>, now: seq<Option<Process>>)
    requires OnlyStopped(slots, now) && forall p: nat :: !CanRun(now, p)
    ensures forall p: nat :: !Resumable(slots, p)
  {
    forall p: nat ensures !Resumable(slots, p) {
      assert RunnerKept(slots, now, p);
    }
  }

  /** Picks made one after the other, each from the slot after the last, on tables that may change in between. */
  ghost predicate ArePicks(tables: seq<seq<Option<Process>>>, start: nat, picks: seq<nat>)
    decreases |picks|
  {
    && |tables| == |picks|
    && (picks != [] ==> IsPick(tables[0], start, picks[0]) && ArePicks(tables[1..], picks[0] + 1, picks[1..]))
  }

  /** A process that can run at every pick is picked before the scan has passed its distance, so within one round. */
  lemma {:induction false} RunsWithinOneRound(tables: seq<seq<Option<Process>>>, start: nat, picks: seq<nat>, p: nat)
    requires ArePicks(tables, start, picks) && p < PROCESS_COUNT
    requires forall i :: 0 <= i < |tables| ==> CanRun(tables[i], p)
    requires |picks| > Distance(start, p)
    ensures p in picks[..Distance(start, p) + 1]
    decreases |picks|
  {
    hide IsPick, CanRun, At;
    if picks[0] != p {
      PickGetsCloser(tables[0], start, picks[0], p);
      var rest := picks[1..];
      RunsWithinOneRound(tables[1..], picks[0] + 1, rest, p);
      var d := Distance(picks[0] + 1, p);
      var i :| 0 <= i < d + 1 && rest[i] == p;
      assert picks[..Distance(start, p) + 1][i + 1] == p;
    } else {
      assert picks[..Distance(start, p) + 1][0] == p;
    }
  }

  /** The table as it is for a scheduler that passes over processes that cannot be resumed. */
  ghost function Offered(slots: seq<Option<Process>>): seq<Option<Process>> {
    seq(|slots|, p requires 0 <= p < |slots| => if Resumable(slots, p) then slots[p] else None)
  }

  lemma ResumedIsPick(slots: seq<Option<Process>>, start: nat, pick: nat)
    requires IsResumed(slots, start, pick)
    ensures IsPick(Offered(slots), start, pick)
  {
    hide At;
    var n: nat :| n < PROCESS_COUNT && pick == At(start, n) && Resumable(slots, pick) && NoneResumable(slots, start, n);
    forall m: nat | m < n ensures !CanRun(Offered(slots), At(start, m)) {
      assert !Resumable(slots, At(start, m));
    }
    assert NobodyBefore(Offered(slots), start, n);
  }

  /** What `Schedule` gives on tables that may change in between, each time from the slot after the last. */
  ghost predicate AreScheduled(tables: seq<seq<Option<Process>>>, start: nat, picks: seq<nat>)
    decreases |picks|
  {
    && |tables| == |picks|
    && (picks != [] ==> IsResumed(tables[0], start, picks[0]) && AreScheduled(tables[1..], picks[0] + 1, picks[1..]))
  }

  /** A process that is there whenever the scheduler runs, and is runnable, due a stream or due an answer that fits, is
      resumed before the scan has passed its distance. */
  lemma {:induction false} ResumedWithinOneRound(tables: seq<seq<Option<Process>>>, start: nat, picks: seq<nat>, p: nat)
    requires AreScheduled(tables, start, picks) && p < PROCESS_COUNT
    requires forall i :: 0 <= i < |tables| ==>
               && p < |tables[i]| && tables[i][p].Some?
               && var state := tables[i][p].value.state;
               || state.Runnable? || state.ReadyStreamMap? || (state.ReadyReply? && |state.reply| <= state.resultBuffer.length)
    requires |picks| > Distance(start, p)
    ensures p in picks[..Distance(start, p) + 1]
    decreases |picks|
  {
    hide IsPick, IsResumed, At, Resumable;
    ResumableIs(tables[0], p);
    if picks[0] != p {
      ResumedIsPick(tables[0], start, picks[0]);
      PickGetsCloser(Offered(tables[0]), start, picks[0], p);
      var rest := picks[1..];
      ResumedWithinOneRound(tables[1..], picks[0] + 1, rest, p);
      var d := Distance(picks[0] + 1, p);
      var i :| 0 <= i < d + 1 && rest[i] == p;
      assert picks[..Distance(start, p) + 1][i + 1] == p;
    } else {
      assert picks[..Distance(start, p) + 1][0] == p;
    }
  }

  /** A caller that `server` has just answered, with a stream or with a reply that fits, is resumed within one round, if until
      then only others act on it, as `OthersLeaveReady` allows. */
  lemma AnsweredIsResumed(s: System, server: nat, answer: Answer, tables: seq<seq<Option<Process>>>, start: nat, picks: seq<nat>)
    requires Inv(s) && CanAnswer(s, server, answer) && AreScheduled(tables, start, picks)
    requires answer.Bytes? ==> |answer.reply| <= answer.buffer.length
    requires var c := s.slots[server].value.serving.value;
             && |picks| > Distance(start, c)
             && forall i :: 0 <= i < |tables| ==>
                  && c < |tables[i]| && tables[i][c].Some?
                  && tables[i][c].value.state == Replied(s, server, answer).slots[c].value.state
    ensures var c := s.slots[server].value.serving.value; c in picks[..Distance(start, c) + 1]
  {
    hide Inv, AreScheduled, Distance;
    ResumedWithinOneRound(tables, start, picks, s.slots[server].value.serving.value);
  }

  /** The process whose doing an event is; for `Clear` and `Bear` the process it happens to. */
  function Doer(e: Event): nat {
    match e
    case Send(c, _, _, _) => c
    case Take(server) => server
    case Answer(server, _) => server
    case Resume(c) => c
    case Stop(p, _, _) => p
    case Clear(p) => p
    case Bear(p) => p
  }

  /** Nothing another process does can keep `p` from running once it can. */
  lemma OthersLeaveReady(s: System, e: Event, p: nat)
    requires Inv(s) && Enabled(s, e) && CanRun(s.slots, p) && Doer(e) != p
    ensures CanRun(After(s, e).slots, p)
    ensures Resumable(s.slots, p) ==> Resumable(After(s, e).slots, p)
    ensures p < |After(s, e).slots| && After(s, e).slots[p].Some? && After(s, e).slots[p].value.state == s.slots[p].value.state
  {
    hide Inv, Live;
  }

  class Kernel {
    const processes: array<Option<Process>>
    /** The process that was running when the trap was taken. */
    var current: Option<nat>
    ghost var traces: seq<Trace>
    ghost var unborn: set<nat>

    ghost function State(): System
      reads this, processes
    {
      System(processes[..], traces, unborn)
    }

    ghost predicate Valid()
      reads this, processes
    {
      && processes.Length == |traces| == PROCESS_COUNT && Inv(State())
      && (current.Some? ==> current.value < PROCESS_COUNT)
    }

    /** A trap comes from a process that is running. */
    predicate InUser()
      reads this, processes
    {
      && processes.Length == PROCESS_COUNT && current.Some? && current.value < PROCESS_COUNT
      && processes[current.value].Some? && processes[current.value].value.state.Runnable?
    }

    ghost function Current(): Process
      requires InUser()
      reads this, processes
    {
      processes[current.value].value
    }

    constructor ()
      ensures Valid() && current == None && State() == Initial() && fresh(processes)
    {
      processes := new Option<Process>[PROCESS_COUNT](_ => None);
      current := None;
      traces := seq(PROCESS_COUNT, _ => NO_TRACE);
      unborn := {1, 2, 3, 4, 5, 6, 7};
      new;
      InitialInv();
      assert processes[..] == Initial().slots;
    }

    /** The process finishes where it stands. */
    method Kill(pid: nat)
      requires processes.Length == PROCESS_COUNT && pid < PROCESS_COUNT && processes[pid].Some?
      modifies processes
      ensures var p := old(processes[pid].value);
              processes[..] == old(processes[..])[pid := Some(Process(Finished, p.messages, p.serving))]
    {
      processes[pid] := Some(processes[pid].value.(state := Finished));
    }

    /** A process that the kernel itself gives up on. */
    method KillManual(pid: nat)
      requires Valid() && CanRun(processes[..], pid)
      modifies processes
      ensures Valid() && var p := old(processes[pid].value);
              processes[..] == old(processes[..])[pid := Some(Process(Finished, p.messages, p.serving))]
    {
      hide Inv;
      StopKeepsInv(State(), pid, processes[pid].value.messages, processes[pid].value.serving);
      Kill(pid);
    }

    method Exit()
      requires Valid() && InUser()
      modifies processes
      ensures Valid() && State() == Stopped(old(State()), current.value, old(Current()).messages, old(Current()).serving)
      ensures processes[..] == old(processes[..])[current.value := Some(old(Current()).(state := Finished))]
    {
      hide Inv;
      StopKeepsInv(State(), current.value, Current().messages, Current().serving);
      Kill(current.value);
    }

    /** A message goes out exactly when the claim leads to another process whose slot is occupied. The kernel panics when
        validation does, when a process calls itself and is caught holding its own lock, and when the handler of a kernel
        capability does; `kernelResult` is what that handler answers otherwise. */
    method IpcCall(claim: Claim, operation: nat, args: seq<Byte>, resultBuffer: Buffer, kernelResult: Option<seq<Byte>>)
      returns (outcome: Outcome)
      requires Valid() && InUser() && Ended(claim)
      modifies this`traces, processes
      ensures outcome == Aborted <==>
                || claim.Aborted? || CallsItself(claim, current.value)
                || (claim.Root? && Granter(claim) == Kernel && kernelResult.None?)
      ensures outcome != Aborted ==> Valid()
      ensures outcome == Returned <==>
                && claim.Root? && Granter(claim) == Kernel
                && kernelResult.Some? && |kernelResult.value| <= resultBuffer.length
      ensures outcome == Returned ==> State() == old(State())
      ensures outcome == Yielded ==>
                if claim.Root? && Granter(claim).Userspace? && !CallsNobody(claim, old(processes[..]))
                then State() == Sent(old(State()), current.value, Granter(claim).pid,
                                     Message(claim.cap, operation, args, current.value), Reply(resultBuffer))
                else State() == Stopped(old(State()), current.value, old(Current()).messages, old(Current()).serving)
    {
      hide Inv, Capabilities.Certifier, Capabilities.IsCap;
      var pid := current.value;
      ghost var before := State();
      if claim.Aborted? {
        return Aborted;
      }
      if claim.Rejected? {
        StopKeepsInv(before, pid, Current().messages, Current().serving);
        Kill(pid);
        return Yielded;
      }
      match Granter(claim) {
        case Userspace(dest) =>
          if dest == pid {
            return Aborted;
          }
          if processes[dest].None? {
            StopKeepsInv(before, pid, Current().messages, Current().serving);
            Kill(pid);
            return Yielded;
          }
          SendMessage(dest, Message(claim.cap, operation, args, pid), WaitingForReply(Userspace(dest), resultBuffer),
                      Reply(resultBuffer));
          return Yielded;
        case Kernel =>
          if kernelResult.None? {
            return Aborted;
          }
          if |kernelResult.value| > resultBuffer.length {
            StopKeepsInv(before, pid, Current().messages, Current().serving);
            Kill(pid);
            return Yielded;
          }
          return Returned;
      }
    }

    /** The running process waits, and its message goes to the back of the queue of `dest`. */
    method SendMessage(dest: nat, m: Message, waiting: ProcessState, ghost want: Want)
      requires Valid() && InUser() && CanSend(State(), current.value, dest, m) && waiting == want.Wait(dest)
      modifies this`traces, processes
      ensures Valid() && State() == Sent(old(State()), current.value, dest, m, want)
    {
      hide Inv;
      ghost var before := State();
      SentKeepsInv(before, current.value, dest, m, want);
      processes[current.value] := Some(processes[current.value].value.(state := waiting));
      processes[dest] := Some(processes[dest].value.(messages := processes[dest].value.messages + [m]));
      traces := Sent(before, current.value, dest, m, want).traces;
      assert processes[..] == Sent(before, current.value, dest, m, want).slots;
    }

    /** A request for a stream. Here the kernel panics on an empty slot too. */
    method IpcStream(claim: Claim, stream: nat, kernelStream: KernelStream) returns (outcome: Outcome)
      requires Valid() && InUser() && Ended(claim)
      modifies this`traces, processes
      ensures outcome == Aborted <==>
                || claim.Aborted? || CallsItself(claim, current.value) || CallsNobody(claim, old(processes[..]))
                || (claim.Root? && Granter(claim) == Kernel && kernelStream == NoStreams)
      ensures outcome != Aborted ==> Valid()
      ensures outcome == Returned <==> claim.Root? && Granter(claim) == Kernel && kernelStream == Mapped
      ensures outcome == Returned ==> State() == old(State())
      ensures outcome == Yielded ==>
                if claim.Root? && Granter(claim).Userspace?
                then State() == Sent(old(State()), current.value, Granter(claim).pid,
                                     Message(claim.cap, 1000 + stream, [], current.value), Stream)
                else State() == Stopped(old(State()), current.value, old(Current()).messages, old(Current()).serving)
    {
      hide Inv, Capabilities.Certifier, Capabilities.IsCap;
      var pid := current.value;
      ghost var before := State();
      if claim.Aborted? {
        return Aborted;
      }
      if claim.Rejected? {
        StopKeepsInv(before, pid, Current().messages, Current().serving);
        Kill(pid);
        return Yielded;
      }
      match Granter(claim) {
        case Userspace(dest) =>
          if dest == pid || processes[dest].None? {
            return Aborted;
          }
          SendMessage(dest, Message(claim.cap, 1000 + stream, [], pid), WaitingForStreamMap(Userspace(dest)), Stream);
          return Yielded;
        case Kernel =>
          match kernelStream
          case NoStreams => return Aborted;
          case NoRoom =>
            StopKeepsInv(before, pid, Current().messages, Current().serving);
            Kill(pid);
            return Yielded;
          case Mapped => return Returned;
      }
    }

    /** Maps shared memory. The kernel panics when validation does, and on a capability of its own that is not memory. */
    method MapShared(claim: Claim, memory: KernelStream) returns (outcome: Outcome)
      requires Valid() && InUser() && Ended(claim)
      modifies processes
      ensures outcome == Aborted <==> claim.Aborted? || (claim.Root? && Granter(claim) == Kernel && memory == NoStreams)
      ensures outcome == Returned <==> claim.Root? && Granter(claim) == Kernel && memory == Mapped
      ensures outcome != Aborted ==> Valid()
      ensures outcome == Returned ==> State() == old(State())
      ensures outcome == Yielded ==>
                State() == Stopped(old(State()), current.value, old(Current()).messages, old(Current()).serving)
    {
      hide Inv, Capabilities.Certifier, Capabilities.IsCap;
      if claim.Aborted? {
        return Aborted;
      }
      if claim.Root? && Granter(claim) == Kernel {
        match memory
        case NoStreams => return Aborted;
        case NoRoom =>
        case Mapped => return Returned;
      }
      StopKeepsInv(State(), current.value, Current().messages, Current().serving);
      Kill(current.value);
      return Yielded;
    }

    /** Takes the first message if nothing is being served. A server that asks again before answering, or offers too
        little room for the arguments, is killed. */
    method IpcReceive(room: nat) returns (outcome: Outcome, message: Option<Message>)
      requires Valid() && InUser()
      modifies this`traces, processes
      ensures Valid() && outcome != Aborted
      ensures var p := old(Current());
              if p.serving.Some? then
                outcome == Yielded && State() == Stopped(old(State()), current.value, p.messages, p.serving)
              else if p.messages == [] then outcome == Returned && message == None && State() == old(State())
              else if |p.messages[0].args| > room then
                outcome == Yielded && State() == Stopped(old(State()), current.value, p.messages[1..], None)
              else
                outcome == Returned && message == Some(p.messages[0]) && State() == Taken(old(State()), current.value)
    {
      hide Inv;
      var pid := current.value;
      var proc := processes[pid].value;
      ghost var before := State();
      message := None;
      if proc.serving.Some? {
        StopKeepsInv(before, pid, proc.messages, proc.serving);
        Kill(pid);
        return Yielded, None;
      }
      if proc.messages == [] {
        return Returned, None;
      }
      var first := proc.messages[0];
      processes[pid] := Some(proc.(messages := proc.messages[1..]));
      if |first.args| > room {
        StopKeepsInv(before, pid, proc.messages[1..], None);
        Kill(pid);
        assert processes[..] == Stopped(before, pid, proc.messages[1..], None).slots;
        return Yielded, None;
      }
      TakenKeepsInv(before, pid);
      processes[pid] := Some(processes[pid].value.(serving := Some(first.sender)));
      traces := Taken(before, pid).traces;
      assert processes[..] == Taken(before, pid).slots;
      return Returned, Some(first);
    }

    /** Answers the request in service. The caller is given just the bytes of the reply, or the ring and size that `stream`
        offers. The server is killed exactly when it serves nothing, or owes a stream and what it offers is no good. */
    method IpcReply(result: seq<Byte>, stream: StreamReply) returns (outcome: Outcome)
      requires Valid() && InUser() && stream.Sensible()
      modifies this`traces, processes
      ensures IsReply(old(State()), current.value, result, stream, outcome, State())
      ensures old(Current()).serving.None? ==>
                outcome == Yielded && processes[..] == old(processes[..])[current.value :=
                                                         Some(Process(Finished, old(Current()).messages, None))]
      ensures old(Current()).serving.Some? ==>
                var pid, c := current.value, old(Current()).serving.value;
                && c < PROCESS_COUNT && c != pid && old(processes[..])[c].Some? && |old(traces)| == PROCESS_COUNT
                && var asked := old(processes[..])[c].value.state;
                && (asked.WaitingForReply? || asked.WaitingForStreamMap?) && asked.from == Userspace(pid)
                && (asked.WaitingForReply? ==>
                      && outcome == Returned && processes[c].Some? && |traces| == PROCESS_COUNT
                      && processes[c].value.state == ReadyReply(result, asked.resultBuffer)
                      && traces[pid].answered == old(traces)[pid].answered + [Answered(c, Bytes(result, asked.resultBuffer))])
                && (asked.WaitingForStreamMap? ==>
                      && (outcome == Returned <==>
                            && stream.Offer? && stream.ring.Root? && Capabilities.Certifier(stream.ring.cap) == Some(Kernel)
                            && stream.memorySize.Some? && stream.memorySize.value % 4096 == 0
                            && 2 * 64 + stream.declaredSize <= stream.memorySize.value)
                      && (outcome == Returned ==>
                            && processes[c].Some? && |traces| == PROCESS_COUNT
                            && processes[c].value.state == ReadyStreamMap(stream.ring.cap, stream.declaredSize)
                            && traces[pid].answered == old(traces)[pid].answered
                                                       + [Answered(c, Ring(stream.ring.cap, stream.declaredSize))]))
      ensures outcome != Aborted ==> Valid()
      ensures outcome == Aborted ==> stream.Panics()
    {
      hide Inv, IsReply, Given, StreamReply.Panics, Capabilities.Certifier, Capabilities.IsCap;
      ghost var before := State();
      outcome := AnswerRequest(result, stream);
      ReplyWithoutRequest(before, current.value, result, stream, outcome, State());
      if before.slots[current.value].value.serving.Some? {
        ReplyToCall(before, current.value, result, stream, outcome, State());
        if before.slots[before.slots[current.value].value.serving.value].value.state.WaitingForStreamMap? {
          ReplyToStream(before, current.value, result, stream, outcome, State());
        }
      }
    }

    /** The branches of a reply. The three ways in which the source could find a caller that is not waiting for this server
        are shown to be dead. */
    method AnswerRequest(result: seq<Byte>, stream: StreamReply) returns (outcome: Outcome)
      requires Valid() && InUser() && stream.Sensible()
      modifies this`traces, processes
      ensures IsReply(old(State()), current.value, result, stream, outcome, State())
      ensures outcome != Aborted ==> Valid()
      ensures outcome == Aborted ==> stream.Panics()
    {
      hide Inv, Replied;
      var pid := current.value;
      var proc := processes[pid].value;
      ghost var before := State();
      if proc.serving.None? {
        StopKeepsInv(before, pid, proc.messages, None);
        Kill(pid);
        return Yielded;
      }
      var c := proc.serving.value;
      ServedCallerWaits(before, pid);
      processes[pid] := Some(proc.(serving := None));
      assert processes[c].Some?;
      var caller := processes[c].value;
      assert caller.state.from == Userspace(pid);
      if caller.state.WaitingForReply? {
        SetAnswer(c, ReadyReply(result, caller.state.resultBuffer), before, Bytes(result, caller.state.resultBuffer));
        return Returned;
      } else if caller.state.WaitingForStreamMap? {
        if stream.Panics() {
          return Aborted;
        }
        if !stream.Acceptable() {
          StopKeepsInv(before, pid, proc.messages, None);
          Kill(pid);
          assert processes[..] == Stopped(before, pid, proc.messages, None).slots;
          return Yielded;
        }
        var ring, size := stream.ring.cap, stream.declaredSize;
        SetAnswer(c, ReadyStreamMap(ring, size), before, Ring(ring, size));
        return Returned;
      } else {
        assert false;
      }
    }

    /** The second half of a reply: the caller is given its answer. */
    method SetAnswer(c: nat, ready: ProcessState, ghost before: System, ghost answer: Answer)
      requires processes.Length == PROCESS_COUNT && Inv(before) && InUser() && c < PROCESS_COUNT && processes[c].Some?
      requires before.traces == traces && before.unborn == unborn && ready == answer.Ready()
      requires CanAnswer(before, current.value, answer) && c == before.slots[current.value].value.serving.value
      requires processes[..] == before.slots[current.value := Some(before.slots[current.value].value.(serving := None))]
      modifies this`traces, processes
      ensures Valid() && State() == Replied(before, current.value, answer)
    {
      hide Inv;
      RepliedKeepsInv(before, current.value, answer);
      processes[c] := Some(processes[c].value.(state := ready));
      traces := Replied(before, current.value, answer).traces;
      assert processes[..] == Replied(before, current.value, answer).slots;
    }

    /** A reserved process gets its slot. */
    method CreateProcess(pid: nat) returns (outcome: Outcome)
      requires Valid() && (pid < PROCESS_COUNT ==> pid in unborn)
      modifies this`unborn, processes
      ensures outcome == Aborted <==> pid >= PROCESS_COUNT
      ensures outcome != Aborted ==> Valid() && outcome == Returned && State() == Born(old(State()), pid)
      ensures outcome != Aborted ==> processes[..] == old(processes[..])[pid := Some(Process(Runnable, [], None))]
    {
      hide Inv;
      if pid >= PROCESS_COUNT {
        return Aborted;
      }
      ghost var before := State();
      BornKeepsInv(before, pid);
      processes[pid] := Some(Process(Runnable, [], None));
      unborn := unborn - {pid};
      assert processes[..] == Born(before, pid).slots;
      return Returned;
    }

    // ---- The scheduler ----

    /** A waiter whose server has finished or is gone finishes too. */
    method InspectCanProgress(p: nat)
      requires Valid() && p < PROCESS_COUNT && processes[p].Some?
      modifies processes
      ensures processes[..] == old(processes[..])[p := Some(
                if Hopeless(old(processes[..]), p) then old(processes[p].value).(state := Finished)
                else old(processes[p].value))]
      ensures var state := old(processes[p].value).state;
              && ((state.WaitingForReply? || state.WaitingForStreamMap?) ==> state.from.Userspace? && state.from.pid < PROCESS_COUNT)
              && processes[p] == Some(
                   if (state.WaitingForReply? || state.WaitingForStreamMap?)
                      && (old(processes[..])[state.from.pid].None? || old(processes[..])[state.from.pid].value.state.Finished?)
                   then old(processes[p].value).(state := Finished) else old(processes[p].value))
    {
      hide Inv;
      var state := processes[p].value.state;
      assert state.Waiting() ==> state.from.Userspace? && state.from.pid < PROCESS_COUNT by {
        if state.Waiting() { WaitsForAnother(State(), p); }
      }
      if state.Waiting() && state.from.Userspace? {
        var from := state.from.pid;
        if processes[from].None? || processes[from].value.state.Finished? {
          processes[p] := Some(processes[p].value.(state := Finished));
        }
      }
    }

    /** One slot of the scan. */
    method SettleSlot(i: nat) returns (runs: bool)
      requires Valid() && i < PROCESS_COUNT
      modifies processes
      ensures Valid() && runs == CanRun(old(processes[..]), i) && processes[..] == Settled(old(processes[..]), i)
      ensures runs <==> var slot := old(processes[..])[i];
                        slot.Some? && (slot.value.state.Runnable? || slot.value.state.ReadyReply? || slot.value.state.ReadyStreamMap?)
      ensures var slots := old(processes[..]);
              && (slots[i].Some? && (slots[i].value.state.WaitingForReply? || slots[i].value.state.WaitingForStreamMap?) ==>
                    slots[i].value.state.from.Userspace? && slots[i].value.state.from.pid < PROCESS_COUNT)
              && processes[..] ==
                   if slots[i].Some?
                      && (|| slots[i].value.state.Finished?
                          || ((slots[i].value.state.WaitingForReply? || slots[i].value.state.WaitingForStreamMap?)
                              && (|| slots[slots[i].value.state.from.pid].None?
                                  || slots[slots[i].value.state.from.pid].value.state.Finished?)))
                   then slots[i := None] else slots
    {
      hide Inv;
      ghost var before := State();
      SettledKeepsInv(before, i);
      if processes[i].None? {
        return false;
      }
      InspectCanProgress(i);
      if processes[i].value.state.CanRun() {
        assert processes[..] == before.slots;
        return true;
      }
      if processes[i].value.state.Finished? {
        processes[i] := None;
      }
      assert processes[..] == Settled(before.slots, i);
      return false;
    }

    /** The first process that can run, from the slot after the running one on. Slots passed are settled in turn, see
        `SweptSlot`. */
    method FindRunnable() returns (next: Option<nat>)
      requires Valid()
      modifies processes
      ensures Valid()
      ensures IsSweep(old(processes[..]), if current.Some? then current.value + 1 else 0, processes[..])
      ensures next.Some? ==> next.value < PROCESS_COUNT
      ensures next.Some? ==>
                var start := if current.Some? then current.value + 1 else 0;
                processes[..] == Swept(old(processes[..]), start, Distance(start, next.value) + 1)
      ensures next.Some? ==> IsPick(old(processes[..]), if current.Some? then current.value + 1 else 0, next.value)
      ensures next.Some? ==>
                var slot := old(processes[..])[next.value];
                slot.Some? && (slot.value.state.Runnable? || slot.value.state.ReadyReply? || slot.value.state.ReadyStreamMap?)
      ensures next.None? ==>
                processes[..] == Swept(old(processes[..]), if current.Some? then current.value + 1 else 0, PROCESS_COUNT)
      ensures next.None? ==> forall p: nat :: p < PROCESS_COUNT && old(processes[..])[p].Some? ==>
                var state := old(processes[..])[p].value.state;
                !state.Runnable? && !state.ReadyReply? && !state.ReadyStreamMap?
      ensures next.None? ==> forall p: nat :: !CanRun(old(processes[..]), p)
    {
      hide Inv, Settled, CanRun, Distance;
      var start := if current.Some? then current.value + 1 else 0;
      ghost var slots := processes[..];
      for offset := 0 to PROCESS_COUNT
        invariant Valid() && processes[..] == Swept(slots, start, offset) && NobodyBefore(slots, start, offset)
      {
        SweptKeepsRunner(slots, start, offset, At(start, offset));
        var runs := SettleSlot((start + offset) % PROCESS_COUNT);
        assert processes[..] == Swept(slots, start, offset + 1);
        if runs {
          RunnerIs(slots, At(start, offset));
          DistanceOf(start, offset);
          return Some((start + offset) % PROCESS_COUNT);
        }
      }
      NobodyAtAll(slots, start);
      forall p: nat | p < PROCESS_COUNT && slots[p].Some?
        ensures var state := slots[p].value.state; !state.Runnable? && !state.ReadyReply? && !state.ReadyStreamMap?
      {
        RunnerIs(slots, p);
      }
      next := None;
    }

    ghost function ScanStart(): nat
      reads this
    {
      if current.Some? then current.value + 1 else 0
    }

    /** Fails when the answer does not fit the buffer of the caller, which the scheduler then kills. `room` says whether
        the heap of the process can take a stream; the kernel panics if it is needed and not there. */
    method ResumeProcess(p: nat, room: bool) returns (outcome: Resumption)
      requires Valid() && CanRun(processes[..], p)
      modifies this`current, this`traces, processes
      ensures current == Some(p) && (outcome == TooLong <==> !Resumable(old(processes[..]), p))
      ensures var state := old(processes[p]).value.state;
              outcome == TooLong <==> state.ReadyReply? && |state.reply| > state.resultBuffer.length
      ensures outcome == OutOfHeap <==> old(processes[p]).value.state.ReadyStreamMap? && !room
      ensures outcome != OutOfHeap ==> Valid()
      ensures outcome != Running || old(processes[p]).value.state.Runnable? ==> State() == old(State())
      ensures outcome == Running ==>
                InUser() && processes[..] == old(processes[..])[p := Some(old(processes[p]).value.(state := Runnable))]
      ensures outcome == Running && old(processes[p]).value.state.Ready() ==> State() == Resumed(old(State()), p)
      ensures p < |old(traces)|
      ensures outcome == Running && old(processes[p]).value.state.Ready() ==>
                traces == old(traces)[p := old(traces)[p].(
                            resumed := old(traces)[p].resumed + [AnswerOf(old(processes[p]).value.state)])]
    {
      hide Inv;
      ghost var before := State();
      current := Some(p);
      match processes[p].value.state {
        case Runnable =>
        case ReadyReply(reply, resultBuffer) =>
          if |reply| > resultBuffer.length {
            return TooLong;
          }
          MakeRunnable(p, before);
        case ReadyStreamMap(_, _) =>
          if !room {
            return OutOfHeap;
          }
          MakeRunnable(p, before);
        case _ =>
          assert false;
      }
      return Running;
    }

    method MakeRunnable(p: nat, ghost before: System)
      requires Valid() && State() == before && CanResume(before, p) && current == Some(p)
      modifies this`traces, processes
      ensures Valid() && InUser() && State() == Resumed(before, p)
    {
      hide Inv;
      ResumedKeepsInv(before, p);
      processes[p] := Some(processes[p].value.(state := Runnable));
      traces := Resumed(before, p).traces;
      assert processes[..] == Resumed(before, p).slots;
    }

    /** Runs the first process, from the slot after the running one on, that can be resumed; with none the machine is
        shut down. A waiting process is never resumed. The kernel panics exactly when that process is due a stream and is
        not among those with `room` for it. */
    method Schedule(room: set<nat>) returns (next: Option<nat>, aborted: bool)
      requires Valid()
      modifies this`current, this`traces, processes
      ensures next.Some? ==>
                IsResumed(old(processes[..]), if old(current).Some? then old(current).value + 1 else 0, next.value)
      ensures next.Some? ==>
                && next.value < PROCESS_COUNT && old(processes[..])[next.value].Some?
                && var state := old(processes[..])[next.value].value.state;
                && (|| state.Runnable? || state.ReadyStreamMap?
                    || (state.ReadyReply? && |state.reply| <= state.resultBuffer.length))
                && (aborted <==> state.ReadyStreamMap? && next.value !in room)
      ensures next.None? ==>
                && !aborted
                && forall p: nat :: p < PROCESS_COUNT && old(processes[..])[p].Some? ==>
                     var state := old(processes[..])[p].value.state;
                     && !state.Runnable? && !state.ReadyStreamMap?
                     && !(state.ReadyReply? && |state.reply| <= state.resultBuffer.length)
      ensures !aborted ==> Valid()
      ensures !aborted ==> forall q: nat :: QueueKept(old(processes[..]), processes[..], q)
      ensures !aborted && next.Some? ==>
                var state := old(processes[..])[next.value].value.state;
                && next.value < |old(traces)| && unborn == old(unborn)
                && (state.Runnable? ==> traces == old(traces))
                && (state.Ready() ==> traces == old(traces)[next.value := old(traces)[next.value].(
                                        resumed := old(traces)[next.value].resumed + [AnswerOf(state)])])
      ensures !aborted && next.Some? ==> InUser() && current == next && IsSchedule(old(processes[..]), processes[..], next.value)
    {
      hide Inv, Resumable, CanRun, Swept, At, Distance, IsPick, IsSweep, IsResumed, NobodyBefore, OnlyStopped;
      hide Continues, IsSchedule, CanStop, Stopped, Resumed;
      ghost var slots, start, passed := processes[..], ScanStart(), 0;
      NothingDone(slots, start);
      while true
        invariant Valid() && OnlyStopped(slots, processes[..]) && traces == old(traces)
        invariant passed <= PROCESS_COUNT && NobodyBefore(processes[..], start, passed)
        invariant Continues(ScanStart(), start, passed)
        decreases PROCESS_COUNT - passed
      {
        ghost var now, from := processes[..], ScanStart();
        next := FindRunnable();
        if next.None? {
          NoneLeft(slots, now);
          AfterScan(slots, now, from, processes[..], 0);
          QueuesKept(slots, processes[..]);
          NoneCanGoOn(slots);
          return None, false;
        }
        ghost var found := processes[..];
        ghost var n := PickAt(now, start, passed, from, next.value);
        AfterScan(slots, now, from, found, n);
        FoundAsWas(slots, found, next.value);
        var outcome := ResumeProcess(next.value, next.value in room);
        if outcome != TooLong {
          FirstResumable(slots, found, start, n);
          ResumableIs(found, next.value);
          if outcome == Running {
            AfterResume(slots, found, next.value);
          }
          return next, outcome == OutOfHeap;
        }
        assert processes[next.value].Some? by { RunnerThere(found, next.value); }
        AfterKill(slots, found, start, n, Process(Finished, found[next.value].value.messages, found[next.value].value.serving));
        KillManual(next.value);
        passed := n + 1;
      }
    }
  }
}
