/** Synchronous message passing between processes as a transition system, with the history of what happened. */
module Ipc {
  import opened Actors
  import opened Bytes
  import opened Options

  datatype Buffer = Buffer(start: nat, length: nat)

  datatype Message = Message(cap: nat, operation: nat, args: seq<Byte>, sender: nat)

  datatype ProcessState =
    | Runnable
    | Finished
    | WaitingForReply(from: Actor, resultBuffer: Buffer)
    | WaitingForStreamMap(from: Actor)
    | ReadyReply(reply: seq<Byte>, resultBuffer: Buffer)
    | ReadyStreamMap(ring: nat, declaredSize: nat)
  {
    predicate Waiting() { WaitingForReply? || WaitingForStreamMap? }

    predicate Ready() { ReadyReply? || ReadyStreamMap? }

    predicate CanRun() { Runnable? || Ready() }

    predicate WaitsFor(server: nat) { Waiting() && from == Userspace(server) }
  }

  datatype Process = Process(state: ProcessState, messages: seq<Message>, serving: Option<nat>)

  /** What a caller asked for, and what it is given: these live only in the history. */
  datatype Want = Reply(buffer: Buffer) | Stream
  {
    function Wait(server: nat): ProcessState {
      match this
      case Reply(buffer) => WaitingForReply(Userspace(server), buffer)
      case Stream => WaitingForStreamMap(Userspace(server))
    }
  }

  datatype Answer = Bytes(reply: seq<Byte>, buffer: Buffer) | Ring(ring: nat, declaredSize: nat)
  {
    function Ready(): ProcessState {
      match this
      case Bytes(reply, buffer) => ReadyReply(reply, buffer)
      case Ring(ring, declaredSize) => ReadyStreamMap(ring, declaredSize)
    }

    predicate Fits(want: Want) {
      match this
      case Bytes(_, buffer) => want == Reply(buffer)
      case Ring(_, _) => want == Stream
    }
  }

  datatype Arrival = Arrival(message: Message, call: nat)
  datatype Call = Call(server: nat, index: nat, want: Want)
  datatype Answered = Answered(caller: nat, answer: Answer)

  /** One process's history. `arrived`, `taken` and `answered` record it as a server, in the order in which
      messages were queued, popped and answered; `calls` and `resumed` record it as a caller. */
  datatype Trace = Trace(arrived: seq<Arrival>, taken: seq<Message>, answered: seq<Answered>,
                         calls: seq<Call>, resumed: seq<Answer>)

  const NO_TRACE := Trace([], [], [], [], [])

  datatype System = System(slots: seq<Option<Process>>, traces: seq<Trace>, unborn: set<nat>)

  predicate Live(slots: seq<Option<Process>>, p: nat) {
    p < |slots| && slots[p].Some? && !slots[p].value.state.Finished?
  }

  predicate WaitsFor(slots: seq<Option<Process>>, c: nat, server: nat) {
    c < |slots| && slots[c].Some? && slots[c].value.state.WaitsFor(server)
  }

  predicate CanRun(slots: seq<Option<Process>>, p: nat) {
    p < |slots| && slots[p].Some? && slots[p].value.state.CanRun()
  }

  // ---- The history on its own ----

  ghost predicate ArrivalOk(ts: seq<Trace>, p: nat, i: nat) {
    && |ts| == PROCESS_COUNT && p < |ts| && i < |ts[p].arrived|
    && var a := ts[p].arrived[i];
    && a.message.sender < |ts| && a.call < |ts[a.message.sender].calls|
    && ts[a.message.sender].calls[a.call].server == p && ts[a.message.sender].calls[a.call].index == i
  }

  ghost predicate CallOk(ts: seq<Trace>, c: nat, k: nat) {
    && |ts| == PROCESS_COUNT && c < |ts| && k < |ts[c].calls|
    && var call := ts[c].calls[k];
    && call.server < |ts| && call.index < |ts[call.server].arrived|
    && ts[call.server].arrived[call.index].message.sender == c && ts[call.server].arrived[call.index].call == k
  }

  /** The i-th answer of server `p` is for its i-th arrival and is of the kind that was asked for. */
  ghost predicate AnsweredOk(ts: seq<Trace>, p: nat, i: nat) {
    && ArrivalOk(ts, p, i) && i < |ts[p].answered|
    && var a := ts[p].arrived[i];
    && ts[p].answered[i].caller == a.message.sender
    && ts[p].answered[i].answer.Fits(ts[a.message.sender].calls[a.call].want)
  }

  /** The k-th answer that `c` went on with is the one its server gave to the k-th call of `c`. */
  ghost predicate ResumedOk(ts: seq<Trace>, c: nat, k: nat) {
    && |ts| == PROCESS_COUNT && c < |ts| && k < |ts[c].resumed| && CallOk(ts, c, k)
    && var call := ts[c].calls[k];
    && call.index < |ts[call.server].answered|
    && ts[call.server].answered[call.index] == Answered(c, ts[c].resumed[k])
  }

  /** Served in arrival order, one at a time. */
  ghost predicate InOrder(t: Trace) {
    && |t.answered| <= |t.taken| <= |t.answered| + 1 && |t.taken| <= |t.arrived|
    && (forall i :: 0 <= i < |t.taken| ==> t.taken[i] == t.arrived[i].message)
    && |t.resumed| <= |t.calls| <= |t.resumed| + 1
  }

  ghost predicate TraceOk(ts: seq<Trace>, p: nat)
    requires p < |ts|
  {
    && InOrder(ts[p])
    && (forall i: nat :: i < |ts[p].arrived| ==> ArrivalOk(ts, p, i))
    && (forall k: nat :: k < |ts[p].calls| ==> CallOk(ts, p, k))
    && (forall i: nat :: i < |ts[p].answered| ==> AnsweredOk(ts, p, i))
    && (forall k: nat :: k < |ts[p].resumed| ==> ResumedOk(ts, p, k))
  }

  // ---- The history and the processes ----

  /** Messages that have arrived and have not been taken are the queue, and what was taken and not answered is being served. */
  ghost predicate QueueOk(proc: Process, t: Trace) {
    && InOrder(t)
    && |proc.messages| == |t.arrived| - |t.taken|
    && (forall i :: 0 <= i < |proc.messages| ==> proc.messages[i] == t.arrived[|t.taken| + i].message)
    && proc.serving == (if |t.taken| == |t.answered| then None else Some(t.taken[|t.answered|].sender))
  }

  /** Arrival `i` of `server` is the last call of its sender, which is still waiting for it. */
  ghost predicate PendingOk(slots: seq<Option<Process>>, ts: seq<Trace>, server: nat, i: nat) {
    && ArrivalOk(ts, server, i)
    && var a := ts[server].arrived[i];
    && WaitsFor(slots, a.message.sender, server) && a.call + 1 == |ts[a.message.sender].calls|
  }

  ghost predicate ServerOk(slots: seq<Option<Process>>, ts: seq<Trace>, p: nat) {
    Live(slots, p) ==>
      && p < |ts| && QueueOk(slots[p].value, ts[p])
      && forall i: nat :: |ts[p].answered| <= i < |ts[p].arrived| ==> PendingOk(slots, ts, p, i)
  }

  ghost predicate WaitOk(slots: seq<Option<Process>>, ts: seq<Trace>, c: nat, call: Call, state: ProcessState) {
    && call.server != c && call.server < |ts| && state == call.want.Wait(call.server)
    && (Live(slots, call.server) ==> |ts[call.server].answered| <= call.index)
  }

  ghost predicate ReadyOk(ts: seq<Trace>, c: nat, call: Call, state: ProcessState) {
    && call.server < |ts| && call.index < |ts[call.server].answered|
    && ts[call.server].answered[call.index].caller == c
    && state == ts[call.server].answered[call.index].answer.Ready()
  }

  ghost predicate ClientOk(slots: seq<Option<Process>>, ts: seq<Trace>, c: nat) {
    Live(slots, c) ==>
      && c < |ts|
      && var t, state := ts[c], slots[c].value.state;
      if state.Runnable? then |t.calls| == |t.resumed|
      else
        && |t.calls| == |t.resumed| + 1
        && var call := t.calls[|t.calls| - 1];
        if state.Waiting() then WaitOk(slots, ts, c, call, state) else ReadyOk(ts, c, call, state)
  }

  ghost predicate Inv(s: System) {
    && |s.slots| == |s.traces| == PROCESS_COUNT
    && (forall p: nat :: p < PROCESS_COUNT ==> TraceOk(s.traces, p))
    && (forall p: nat :: p < PROCESS_COUNT ==> ServerOk(s.slots, s.traces, p))
    && (forall p: nat :: p < PROCESS_COUNT ==> ClientOk(s.slots, s.traces, p))
    && (forall p <- s.unborn :: p < PROCESS_COUNT ==> s.slots[p].None? && s.traces[p] == NO_TRACE)
  }

  // ---- Growth of the history ----

  ghost predicate Grew(t: Trace, u: Trace) {
    && t.arrived <= u.arrived && t.taken <= u.taken && t.answered <= u.answered
    && t.calls <= u.calls && t.resumed <= u.resumed
  }

  ghost predicate AllGrew(ts: seq<Trace>, us: seq<Trace>) {
    |ts| == |us| && forall p: nat :: p < |ts| ==> Grew(ts[p], us[p])
  }

  lemma OldEntriesStay(ts: seq<Trace>, us: seq<Trace>, p: nat, i: nat)
    requires AllGrew(ts, us)
    ensures ArrivalOk(ts, p, i) ==> ArrivalOk(us, p, i)
    ensures CallOk(ts, p, i) ==> CallOk(us, p, i)
    ensures AnsweredOk(ts, p, i) ==> AnsweredOk(us, p, i)
    ensures ResumedOk(ts, p, i) ==> ResumedOk(us, p, i)
  {
    if ArrivalOk(ts, p, i) {
      assert Grew(ts[p], us[p]) && Grew(ts[ts[p].arrived[i].message.sender], us[ts[p].arrived[i].message.sender]);
    }
    if CallOk(ts, p, i) {
      assert Grew(ts[p], us[p]) && Grew(ts[ts[p].calls[i].server], us[ts[p].calls[i].server]);
    }
  }

  /** A longer history is in order when its new entries are. */
  lemma NewEntriesSuffice(ts: seq<Trace>, us: seq<Trace>, p: nat)
    requires AllGrew(ts, us) && p < |ts| && TraceOk(ts, p) && InOrder(us[p])
    requires forall i: nat :: |ts[p].arrived| <= i < |us[p].arrived| ==> ArrivalOk(us, p, i)
    requires forall k: nat :: |ts[p].calls| <= k < |us[p].calls| ==> CallOk(us, p, k)
    requires forall i: nat :: |ts[p].answered| <= i < |us[p].answered| ==> AnsweredOk(us, p, i)
    requires forall k: nat :: |ts[p].resumed| <= k < |us[p].resumed| ==> ResumedOk(us, p, k)
    ensures TraceOk(us, p)
  {
    hide ArrivalOk, CallOk, AnsweredOk, ResumedOk, InOrder, Grew;
    forall i: nat | i < |us[p].arrived| ensures ArrivalOk(us, p, i) { OldEntriesStay(ts, us, p, i); }
    forall k: nat | k < |us[p].calls| ensures CallOk(us, p, k) { OldEntriesStay(ts, us, p, k); }
    forall i: nat | i < |us[p].answered| ensures AnsweredOk(us, p, i) { OldEntriesStay(ts, us, p, i); }
    forall k: nat | k < |us[p].resumed| ensures ResumedOk(us, p, k) { OldEntriesStay(ts, us, p, k); }
  }

  lemma InvAt(s: System, p: nat)
    requires Inv(s) && (p < PROCESS_COUNT || p < |s.slots|)
    ensures |s.slots| == |s.traces| == PROCESS_COUNT
    ensures TraceOk(s.traces, p) && ServerOk(s.slots, s.traces, p) && ClientOk(s.slots, s.traces, p)
  {
  }

  // ---- A call is sent ----

  predicate CanSend(s: System, c: nat, server: nat, m: Message) {
    && |s.slots| == |s.traces| == PROCESS_COUNT && c < PROCESS_COUNT && server < PROCESS_COUNT && c != server
    && s.slots[c].Some? && s.slots[c].value.state.Runnable? && s.slots[server].Some? && m.sender == c
  }

  /** `c` waits for `server`, whose queue now ends with `m`. */
  function Sent(s: System, c: nat, server: nat, m: Message, want: Want): System
    requires CanSend(s, c, server, m)
  {
    var caller, dest := s.slots[c].value, s.slots[server].value;
    var of, at := s.traces[c], s.traces[server];
    System(s.slots[c := Some(caller.(state := want.Wait(server)))]
           [server := Some(dest.(messages := dest.messages + [m]))],
           s.traces[c := of.(calls := of.calls + [Call(server, |at.arrived|, want)])]
           [server := at.(arrived := at.arrived + [Arrival(m, |of.calls|)])],
           s.unborn)
  }

  lemma SentTrace(s: System, c: nat, server: nat, m: Message, want: Want, p: nat)
    requires Inv(s) && CanSend(s, c, server, m) && p < PROCESS_COUNT
    ensures AllGrew(s.traces, Sent(s, c, server, m, want).traces)
    ensures TraceOk(Sent(s, c, server, m, want).traces, p)
  {
    hide Inv, AnsweredOk, ResumedOk, ServerOk;
    var us := Sent(s, c, server, m, want).traces;
    InvAt(s, p);
    InvAt(s, c);
    assert ArrivalOk(us, server, |s.traces[server].arrived|);
    assert CallOk(us, c, |s.traces[c].calls|);
    NewEntriesSuffice(s.traces, us, p);
  }

  lemma SentServer(s: System, c: nat, server: nat, m: Message, want: Want, p: nat)
    requires Inv(s) && CanSend(s, c, server, m) && p < PROCESS_COUNT
    ensures var t := Sent(s, c, server, m, want); ServerOk(t.slots, t.traces, p)
  {
    hide Inv, TraceOk, ClientOk;
    var t := Sent(s, c, server, m, want);
    InvAt(s, p);
    if Live(t.slots, p) {
      assert Live(s.slots, p);
      forall i: nat | |t.traces[p].answered| <= i < |t.traces[p].arrived|
        ensures PendingOk(t.slots, t.traces, p, i)
      {
        if i < |s.traces[p].arrived| {
          assert PendingOk(s.slots, s.traces, p, i);
        }
      }
    }
  }

  lemma SentClient(s: System, c: nat, server: nat, m: Message, want: Want, p: nat)
    requires Inv(s) && CanSend(s, c, server, m) && p < PROCESS_COUNT
    ensures var t := Sent(s, c, server, m, want); ClientOk(t.slots, t.traces, p)
  {
    hide Inv, ServerOk;
    InvAt(s, p);
    InvAt(s, server);
  }

  lemma SentKeepsInv(s: System, c: nat, server: nat, m: Message, want: Want)
    requires Inv(s) && CanSend(s, c, server, m)
    ensures Inv(Sent(s, c, server, m, want))
  {
    hide TraceOk, ServerOk, ClientOk;
    forall p: nat | p < PROCESS_COUNT
      ensures var t := Sent(s, c, server, m, want);
              TraceOk(t.traces, p) && ServerOk(t.slots, t.traces, p) && ClientOk(t.slots, t.traces, p)
    {
      SentTrace(s, c, server, m, want, p);
      SentServer(s, c, server, m, want, p);
      SentClient(s, c, server, m, want, p);
    }
  }

  // ---- The first message is taken ----

  predicate CanTake(s: System, server: nat) {
    && |s.slots| == |s.traces| == PROCESS_COUNT && server < PROCESS_COUNT
    && s.slots[server].Some? && s.slots[server].value.state.Runnable?
    && s.slots[server].value.messages != [] && s.slots[server].value.serving.None?
  }

  function Taken(s: System, server: nat): System
    requires CanTake(s, server)
  {
    var dest, at := s.slots[server].value, s.traces[server];
    var m := dest.messages[0];
    System(s.slots[server := Some(dest.(messages := dest.messages[1..], serving := Some(m.sender)))],
           s.traces[server := at.(taken := at.taken + [m])],
           s.unborn)
  }

  lemma TakenTrace(s: System, server: nat, p: nat)
    requires Inv(s) && CanTake(s, server) && p < PROCESS_COUNT
    ensures AllGrew(s.traces, Taken(s, server).traces) && TraceOk(Taken(s, server).traces, p)
  {
    hide Inv, ArrivalOk, CallOk, AnsweredOk, ResumedOk, ClientOk;
    InvAt(s, p);
    InvAt(s, server);
    NewEntriesSuffice(s.traces, Taken(s, server).traces, p);
  }

  lemma TakenServer(s: System, server: nat, p: nat)
    requires Inv(s) && CanTake(s, server) && p < PROCESS_COUNT
    ensures var t := Taken(s, server); ServerOk(t.slots, t.traces, p)
  {
    hide Inv, TraceOk, ClientOk;
    var t := Taken(s, server);
    InvAt(s, p);
    if Live(t.slots, p) {
      forall i: nat | |t.traces[p].answered| <= i < |t.traces[p].arrived|
        ensures PendingOk(t.slots, t.traces, p, i)
      {
        assert PendingOk(s.slots, s.traces, p, i);
      }
    }
  }

  lemma TakenKeepsInv(s: System, server: nat)
    requires Inv(s) && CanTake(s, server)
    ensures Inv(Taken(s, server))
  {
    hide TraceOk, ServerOk;
    forall p: nat | p < PROCESS_COUNT
      ensures var t := Taken(s, server);
              TraceOk(t.traces, p) && ServerOk(t.slots, t.traces, p) && ClientOk(t.slots, t.traces, p)
    {
      TakenTrace(s, server, p);
      TakenServer(s, server, p);
      InvAt(s, p);
    }
  }

  // ---- A request is answered ----

  predicate CanAnswer(s: System, server: nat, answer: Answer) {
    && |s.slots| == |s.traces| == PROCESS_COUNT && server < PROCESS_COUNT
    && s.slots[server].Some? && s.slots[server].value.state.Runnable? && s.slots[server].value.serving.Some?
    && var c := s.slots[server].value.serving.value;
    && c != server && WaitsFor(s.slots, c, server)
    && (answer.Bytes? <==> s.slots[c].value.state.WaitingForReply?)
    && (answer.Bytes? ==> answer.buffer == s.slots[c].value.state.resultBuffer)
  }

  function Replied(s: System, server: nat, answer: Answer): System
    requires CanAnswer(s, server, answer)
  {
    var dest, at := s.slots[server].value, s.traces[server];
    var c := dest.serving.value;
    System(s.slots[server := Some(dest.(serving := None))][c := Some(s.slots[c].value.(state := answer.Ready()))],
           s.traces[server := at.(answered := at.answered + [Answered(c, answer)])],
           s.unborn)
  }

  /** The request in service is the last call of its sender. */
  lemma ServedCall(s: System, server: nat, answer: Answer)
    requires Inv(s) && CanAnswer(s, server, answer)
    ensures var t, c := s.traces[server], s.slots[server].value.serving.value;
            && |t.answered| < |t.arrived| && PendingOk(s.slots, s.traces, server, |t.answered|)
            && |t.answered| + 1 == |t.taken|
            && t.arrived[|t.answered|].message.sender == c
            && |s.traces[c].calls| > 0
            && var call := s.traces[c].calls[|s.traces[c].calls| - 1];
            call.server == server && call.index == |t.answered| && answer.Fits(call.want)
  {
    hide Inv;
    InvAt(s, server);
    InvAt(s, s.slots[server].value.serving.value);
  }

  lemma RepliedTrace(s: System, server: nat, answer: Answer, p: nat)
    requires Inv(s) && CanAnswer(s, server, answer) && p < PROCESS_COUNT
    ensures var us := Replied(s, server, answer).traces; AllGrew(s.traces, us) && TraceOk(us, p)
  {
    hide Inv, CallOk, ResumedOk, ServerOk, ClientOk;
    var us := Replied(s, server, answer).traces;
    InvAt(s, p);
    InvAt(s, server);
    ServedCall(s, server, answer);
    assert AnsweredOk(us, server, |s.traces[server].answered|);
    NewEntriesSuffice(s.traces, us, p);
  }

  lemma RepliedServer(s: System, server: nat, answer: Answer, p: nat)
    requires Inv(s) && CanAnswer(s, server, answer) && p < PROCESS_COUNT
    ensures var t := Replied(s, server, answer); ServerOk(t.slots, t.traces, p)
  {
    hide Inv, TraceOk, ClientOk;
    var t := Replied(s, server, answer);
    InvAt(s, p);
    ServedCall(s, server, answer);
    if Live(t.slots, p) {
      forall i: nat | |t.traces[p].answered| <= i < |t.traces[p].arrived|
        ensures PendingOk(t.slots, t.traces, p, i)
      {
        assert PendingOk(s.slots, s.traces, p, i);
      }
    }
  }

  lemma RepliedClient(s: System, server: nat, answer: Answer, p: nat)
    requires Inv(s) && CanAnswer(s, server, answer) && p < PROCESS_COUNT
    ensures var t := Replied(s, server, answer); ClientOk(t.slots, t.traces, p)
  {
    hide Inv, ServerOk, PendingOk;
    var t := Replied(s, server, answer);
    InvAt(s, p);
    InvAt(s, s.slots[server].value.serving.value);
    ServedCall(s, server, answer);
    if WaitsFor(t.slots, p, server) {
      OtherCallPending(s, server, answer, p);
    }
  }

  /** Another process waiting for the same server is not the one being answered. */
  lemma OtherCallPending(s: System, server: nat, answer: Answer, p: nat)
    requires Inv(s) && CanAnswer(s, server, answer) && p < PROCESS_COUNT && p != s.slots[server].value.serving.value
    requires WaitsFor(s.slots, p, server)
    ensures |s.traces[p].calls| > 0 && s.traces[p].calls[|s.traces[p].calls| - 1].index > |s.traces[server].answered|
  {
    hide Inv, ServerOk, PendingOk;
    InvAt(s, p);
    ServedCall(s, server, answer);
    assert CallOk(s.traces, p, |s.traces[p].calls| - 1);
  }

  lemma RepliedKeepsInv(s: System, server: nat, answer: Answer)
    requires Inv(s) && CanAnswer(s, server, answer)
    ensures Inv(Replied(s, server, answer))
  {
    hide TraceOk, ServerOk, ClientOk;
    forall p: nat | p < PROCESS_COUNT
      ensures var t := Replied(s, server, answer);
              TraceOk(t.traces, p) && ServerOk(t.slots, t.traces, p) && ClientOk(t.slots, t.traces, p)
    {
      RepliedTrace(s, server, answer, p);
      RepliedServer(s, server, answer, p);
      RepliedClient(s, server, answer, p);
    }
  }

  // ---- A caller goes on with its answer ----

  predicate CanResume(s: System, c: nat) {
    && |s.slots| == |s.traces| == PROCESS_COUNT && c < PROCESS_COUNT
    && s.slots[c].Some? && s.slots[c].value.state.Ready()
  }

  function AnswerOf(state: ProcessState): Answer
    requires state.Ready()
  {
    match state
    case ReadyReply(reply, resultBuffer) => Bytes(reply, resultBuffer)
    case ReadyStreamMap(ring, declaredSize) => Ring(ring, declaredSize)
  }

  function Resumed(s: System, c: nat): System
    requires CanResume(s, c)
  {
    var caller, of := s.slots[c].value, s.traces[c];
    System(s.slots[c := Some(caller.(state := Runnable))],
           s.traces[c := of.(resumed := of.resumed + [AnswerOf(caller.state)])],
           s.unborn)
  }

  lemma ResumedTrace(s: System, c: nat, p: nat)
    requires Inv(s) && CanResume(s, c) && p < PROCESS_COUNT
    ensures AllGrew(s.traces, Resumed(s, c).traces) && TraceOk(Resumed(s, c).traces, p)
  {
    hide Inv, ArrivalOk, AnsweredOk, ServerOk;
    var us := Resumed(s, c).traces;
    InvAt(s, p);
    InvAt(s, c);
    assert CallOk(s.traces, c, |s.traces[c].calls| - 1);
    OldEntriesStay(s.traces, us, c, |s.traces[c].calls| - 1);
    assert ResumedOk(us, c, |s.traces[c].resumed|);
    NewEntriesSuffice(s.traces, us, p);
  }

  lemma ResumedServer(s: System, c: nat, p: nat)
    requires Inv(s) && CanResume(s, c) && p < PROCESS_COUNT
    ensures var t := Resumed(s, c); ServerOk(t.slots, t.traces, p)
  {
    hide Inv, TraceOk, ClientOk;
    var t := Resumed(s, c);
    InvAt(s, p);
    if Live(t.slots, p) {
      forall i: nat | |t.traces[p].answered| <= i < |t.traces[p].arrived|
        ensures PendingOk(t.slots, t.traces, p, i)
      {
        assert PendingOk(s.slots, s.traces, p, i);
      }
    }
  }

  lemma ResumedKeepsInv(s: System, c: nat)
    requires Inv(s) && CanResume(s, c)
    ensures Inv(Resumed(s, c))
  {
    hide TraceOk, ServerOk;
    forall p: nat | p < PROCESS_COUNT
      ensures var t := Resumed(s, c);
              TraceOk(t.traces, p) && ServerOk(t.slots, t.traces, p) && ClientOk(t.slots, t.traces, p)
    {
      ResumedTrace(s, c, p);
      ResumedServer(s, c, p);
      InvAt(s, p);
    }
  }

  // ---- A process finishes, its slot is cleared, a process is created ----

  /** Only a process that no live server still owes an answer may finish. Its queue no longer matters. */
  predicate CanStop(s: System, p: nat) {
    && |s.slots| == |s.traces| == PROCESS_COUNT && p < PROCESS_COUNT && s.slots[p].Some?
    && var state := s.slots[p].value.state;
    (state.Waiting() ==> state.from.Userspace? && !Live(s.slots, state.from.pid))
  }

  function Stopped(s: System, p: nat, messages: seq<Message>, serving: Option<nat>): System
    requires CanStop(s, p)
  {
    s.(slots := s.slots[p := Some(Process(Finished, messages, serving))])
  }

  predicate CanClear(s: System, p: nat) {
    && |s.slots| == |s.traces| == PROCESS_COUNT && p < PROCESS_COUNT
    && s.slots[p].Some? && s.slots[p].value.state.Finished?
  }

  function Cleared(s: System, p: nat): System
    requires CanClear(s, p)
  {
    s.(slots := s.slots[p := None])
  }

  /** Slots in which only one process that nobody owes an answer is gone. */
  lemma GoneKeepsInv(s: System, t: System, p: nat)
    requires Inv(s) && p < PROCESS_COUNT && t.traces == s.traces && t.unborn == s.unborn
    requires |t.slots| == PROCESS_COUNT && !Live(t.slots, p) && s.slots[p].Some?
    requires forall q: nat :: q < PROCESS_COUNT && q != p ==> t.slots[q] == s.slots[q]
    requires forall q: nat :: WaitsFor(s.slots, p, q) ==> !Live(s.slots, q)
    ensures Inv(t)
  {
    hide TraceOk, QueueOk, ReadyOk;
    forall q: nat | q < PROCESS_COUNT
      ensures ServerOk(t.slots, t.traces, q) && ClientOk(t.slots, t.traces, q)
    {
      InvAt(s, q);
      if Live(t.slots, q) {
        forall i: nat | |t.traces[q].answered| <= i < |t.traces[q].arrived|
          ensures PendingOk(t.slots, t.traces, q, i)
        {
          assert PendingOk(s.slots, s.traces, q, i);
        }
      }
    }
  }

  predicate CanBear(s: System, p: nat) {
    |s.slots| == |s.traces| == PROCESS_COUNT && p < PROCESS_COUNT && p in s.unborn
  }

  function Born(s: System, p: nat): System
    requires CanBear(s, p)
  {
    System(s.slots[p := Some(Process(Runnable, [], None))], s.traces, s.unborn - {p})
  }

  lemma BornKeepsInv(s: System, p: nat)
    requires Inv(s) && CanBear(s, p)
    ensures Inv(Born(s, p))
  {
    hide TraceOk;
    var t := Born(s, p);
    forall q: nat | q < PROCESS_COUNT
      ensures ServerOk(t.slots, t.traces, q) && ClientOk(t.slots, t.traces, q)
    {
      BornLinks(s, p, q);
    }
  }

  lemma BornLinks(s: System, p: nat, q: nat)
    requires Inv(s) && CanBear(s, p) && q < PROCESS_COUNT
    ensures var t := Born(s, p); ServerOk(t.slots, t.traces, q) && ClientOk(t.slots, t.traces, q)
  {
    hide Inv;
    InvAt(s, q);
    NobodyCalledUnborn(s, p, q);
    var t := Born(s, p);
    if Live(t.slots, q) {
      forall i: nat | |t.traces[q].answered| <= i < |t.traces[q].arrived|
        ensures PendingOk(t.slots, t.traces, q, i)
      {
        assert PendingOk(s.slots, s.traces, q, i);
      }
    }
  }

  lemma NobodyCalledUnborn(s: System, p: nat, q: nat)
    requires Inv(s) && CanBear(s, p) && q < PROCESS_COUNT
    ensures s.slots[p].None? && s.traces[p] == NO_TRACE
    ensures forall k: nat :: k < |s.traces[q].calls| ==> s.traces[q].calls[k].server != p
  {
    hide ServerOk, ClientOk;
    InvAt(s, q);
    forall k: nat | k < |s.traces[q].calls| ensures s.traces[q].calls[k].server != p {
      assert CallOk(s.traces, q, k);
    }
  }

  // ---- Runs ----

  datatype Event =
    | Send(c: nat, server: nat, m: Message, want: Want)
    | Take(server: nat)
    | Answer(server: nat, answer: Answer)
    | Resume(c: nat)
    | Stop(p: nat, messages: seq<Message>, serving: Option<nat>)
    | Clear(p: nat)
    | Bear(p: nat)

  predicate Enabled(s: System, e: Event) {
    match e
    case Send(c, server, m, _) => CanSend(s, c, server, m)
    case Take(server) => CanTake(s, server)
    case Answer(server, answer) => CanAnswer(s, server, answer)
    case Resume(c) => CanResume(s, c)
    case Stop(p, _, _) => CanStop(s, p)
    case Clear(p) => CanClear(s, p)
    case Bear(p) => CanBear(s, p)
  }

  function After(s: System, e: Event): System
    requires Enabled(s, e)
  {
    match e
    case Send(c, server, m, want) => Sent(s, c, server, m, want)
    case Take(server) => Taken(s, server)
    case Answer(server, answer) => Replied(s, server, answer)
    case Resume(c) => Resumed(s, c)
    case Stop(p, messages, serving) => Stopped(s, p, messages, serving)
    case Clear(p) => Cleared(s, p)
    case Bear(p) => Born(s, p)
  }

  lemma StepKeepsInv(s: System, e: Event)
    requires Inv(s) && Enabled(s, e)
    ensures Inv(After(s, e))
  {
    hide Inv, Sent, Taken, Replied, Resumed, Born, CanSend, CanTake, CanAnswer, CanResume, CanBear, Live;
    match e
    case Send(c, server, m, want) => SentKeepsInv(s, c, server, m, want);
    case Take(server) => TakenKeepsInv(s, server);
    case Answer(server, answer) => RepliedKeepsInv(s, server, answer);
    case Resume(c) => ResumedKeepsInv(s, c);
    case Stop(p, messages, serving) => StopKeepsInv(s, p, messages, serving);
    case Clear(p) => ClearKeepsInv(s, p);
    case Bear(p) => BornKeepsInv(s, p);
  }

  lemma StopKeepsInv(s: System, p: nat, messages: seq<Message>, serving: Option<nat>)
    requires Inv(s) && CanStop(s, p)
    ensures Inv(Stopped(s, p, messages, serving))
  {
    hide Inv;
    GoneKeepsInv(s, Stopped(s, p, messages, serving), p);
  }

  lemma ClearKeepsInv(s: System, p: nat)
    requires Inv(s) && CanClear(s, p)
    ensures Inv(Cleared(s, p))
  {
    hide Inv;
    GoneKeepsInv(s, Cleared(s, p), p);
  }

  lemma StepGrows(s: System, e: Event)
    requires Enabled(s, e)
    ensures AllGrew(s.traces, After(s, e).traces)
  {
    hide Live, WaitsFor;
  }

  ghost predicate IsRun(s: System, events: seq<Event>, t: System)
    decreases |events|
  {
    if events == [] then t == s
    else Enabled(s, events[0]) && IsRun(After(s, events[0]), events[1..], t)
  }

  function Initial(): System {
    System(seq(PROCESS_COUNT, _ => None), seq(PROCESS_COUNT, _ => NO_TRACE), {1, 2, 3, 4, 5, 6, 7})
  }

  lemma AllGrewChains(a: seq<Trace>, b: seq<Trace>, c: seq<Trace>)
    requires AllGrew(a, b) && AllGrew(b, c)
    ensures AllGrew(a, c)
  {
    forall p: nat | p < |a| ensures Grew(a[p], c[p]) {
      assert Grew(a[p], b[p]) && Grew(b[p], c[p]);
    }
  }

  /** Every run keeps the invariant and only adds to the history. */
  lemma {:induction false} RunKeepsInv(s: System, events: seq<Event>, t: System)
    requires Inv(s) && IsRun(s, events, t)
    ensures Inv(t) && AllGrew(s.traces, t.traces)
    decreases |events|
  {
    hide Inv, Enabled, After, AllGrew;
    if events == [] {
      assert AllGrew(s.traces, s.traces) by { NothingGrows(s.traces); }
    } else {
      StepKeepsInv(s, events[0]);
      StepGrows(s, events[0]);
      RunKeepsInv(After(s, events[0]), events[1..], t);
      AllGrewChains(s.traces, After(s, events[0]).traces, t.traces);
    }
  }

  lemma NothingGrows(ts: seq<Trace>)
    ensures AllGrew(ts, ts)
  {
  }

  lemma InitialInv()
    ensures Inv(Initial())
  {
  }

  // ---- What the invariant says about requests ----

  function Senders(messages: seq<Message>): (r: seq<nat>)
    ensures |r| == |messages|
    ensures forall i :: 0 <= i < |r| ==> r[i] == messages[i].sender
  {
    seq(|messages|, i requires 0 <= i < |messages| => messages[i].sender)
  }

  /** The callers with a request at a server: the one in service, if any, and those queued. */
  function Requests(proc: Process): seq<nat> {
    (if proc.serving.Some? then [proc.serving.value] else []) + Senders(proc.messages)
  }

  /** At a live server the callers with a request are exactly the processes waiting for it, each with one request.
      A process waits for one server at most, so it has none elsewhere; one that does not wait has none at all. */
  lemma OneRequestEach(s: System, server: nat)
    requires Inv(s) && Live(s.slots, server)
    ensures forall c: nat :: WaitsFor(s.slots, c, server) <==> c in Requests(s.slots[server].value)
    ensures forall i, j :: 0 <= i < j < |Requests(s.slots[server].value)|
              ==> Requests(s.slots[server].value)[i] != Requests(s.slots[server].value)[j]
  {
    hide Inv, Requests, TraceOk, ClientOk;
    var r := Requests(s.slots[server].value);
    InvAt(s, server);
    RequestsArePending(s, server);
    forall i, j | 0 <= i < j < |r| ensures r[i] != r[j] {
      var n := |s.traces[server].answered|;
      assert PendingOk(s.slots, s.traces, server, n + i) && PendingOk(s.slots, s.traces, server, n + j);
    }
    forall c: nat ensures WaitsFor(s.slots, c, server) <==> c in r {
      if c in r {
        var i :| 0 <= i < |r| && r[i] == c;
        assert PendingOk(s.slots, s.traces, server, |s.traces[server].answered| + i);
      }
      if WaitsFor(s.slots, c, server) {
        WaiterHasRequest(s, c, server);
      }
    }
  }

  lemma RequestsArePending(s: System, server: nat)
    requires Inv(s) && Live(s.slots, server)
    ensures var r, t := Requests(s.slots[server].value), s.traces[server];
            && |r| == |t.arrived| - |t.answered|
            && forall i :: 0 <= i < |r| ==> r[i] == t.arrived[|t.answered| + i].message.sender
  {
    hide Inv, TraceOk, ClientOk, PendingOk;
    InvAt(s, server);
  }

  lemma WaiterHasRequest(s: System, c: nat, server: nat)
    requires Inv(s) && Live(s.slots, server) && WaitsFor(s.slots, c, server)
    ensures c in Requests(s.slots[server].value)
  {
    hide Inv, ServerOk, Requests;
    InvAt(s, c);
    RequestsArePending(s, server);
    var t := s.traces[c];
    assert CallOk(s.traces, c, |t.calls| - 1);
    assert Requests(s.slots[server].value)[t.calls[|t.calls| - 1].index - |s.traces[server].answered|] == c;
  }

  /** A running server that has a request in service can answer it: the slot of the caller is occupied, the caller is
      waiting, and it is waiting for this very server and not for itself. */
  lemma ServedCallerWaits(s: System, server: nat)
    requires Inv(s) && CanRun(s.slots, server) && s.slots[server].value.serving.Some?
    ensures var c := s.slots[server].value.serving.value; c != server && WaitsFor(s.slots, c, server)
  {
    hide Inv, Requests;
    var c := s.slots[server].value.serving.value;
    OneRequestEach(s, server);
    assert Requests(s.slots[server].value)[0] == c by { InService(s.slots[server].value); }
    assert c in Requests(s.slots[server].value);
    InvAt(s, c);
  }

  lemma InService(proc: Process)
    requires proc.serving.Some?
    ensures |Requests(proc)| > 0 && Requests(proc)[0] == proc.serving.value
  {
  }

  // ---- What the invariant says about the history ----

  /** A server takes messages in the order they came, has at most one in service, and its answers are, one each and in
      order, for the messages it took. */
  lemma ServedInOrder(s: System, server: nat)
    requires Inv(s) && server < PROCESS_COUNT
    ensures var t := s.traces[server];
            && |t.answered| <= |t.taken| <= |t.answered| + 1 && |t.taken| <= |t.arrived|
            && (forall i :: 0 <= i < |t.taken| ==> t.taken[i] == t.arrived[i].message)
            && (forall i :: 0 <= i < |t.answered| ==> t.answered[i].caller == t.taken[i].sender)
  {
    hide Inv, CallOk, ResumedOk, ServerOk, ClientOk;
    InvAt(s, server);
    var t := s.traces[server];
    forall i | 0 <= i < |t.answered| ensures t.answered[i].caller == t.taken[i].sender {
      assert AnsweredOk(s.traces, server, i);
    }
  }

  /** A caller goes on once for each call, in order, with the answer its server gave to that call, of the kind it asked
      for; and no two calls share an answer. */
  lemma CallsGetTheirAnswers(s: System, c: nat)
    requires Inv(s) && c < PROCESS_COUNT
    ensures |s.traces[c].resumed| <= |s.traces[c].calls| <= |s.traces[c].resumed| + 1
    ensures forall k: nat :: k < |s.traces[c].resumed| ==> CallAnswered(s.traces, c, k)
    ensures forall j, k :: 0 <= j < k < |s.traces[c].calls|
              ==> (s.traces[c].calls[j].server, s.traces[c].calls[j].index)
                  != (s.traces[c].calls[k].server, s.traces[c].calls[k].index)
  {
    hide Inv, ArrivalOk, AnsweredOk, ResumedOk, ServerOk, ClientOk, CallAnswered;
    InvAt(s, c);
    forall k: nat | k < |s.traces[c].resumed| ensures CallAnswered(s.traces, c, k) {
      CallGetsItsAnswer(s, c, k);
    }
    forall j, k | 0 <= j < k < |s.traces[c].calls|
      ensures (s.traces[c].calls[j].server, s.traces[c].calls[j].index)
              != (s.traces[c].calls[k].server, s.traces[c].calls[k].index)
    {
      assert CallOk(s.traces, c, j) && CallOk(s.traces, c, k);
    }
  }

  /** The k-th call of `c` arrived at its server as a message from `c`, and what `c` went on with is that server's
      answer at the same place. */
  ghost predicate CallAnswered(ts: seq<Trace>, c: nat, k: nat) {
    && c < |ts| && k < |ts[c].calls| && k < |ts[c].resumed|
    && var call, answer := ts[c].calls[k], ts[c].resumed[k];
    && call.server < |ts| && answer.Fits(call.want)
    && call.index < |ts[call.server].arrived| && ts[call.server].arrived[call.index].message.sender == c
    && call.index < |ts[call.server].answered| && ts[call.server].answered[call.index] == Answered(c, answer)
  }

  lemma CallGetsItsAnswer(s: System, c: nat, k: nat)
    requires Inv(s) && c < PROCESS_COUNT && k < |s.traces[c].resumed|
    ensures CallAnswered(s.traces, c, k)
  {
    hide Inv, ServerOk, ClientOk, InOrder;
    InvAt(s, c);
    assert ResumedOk(s.traces, c, k);
    var call := s.traces[c].calls[k];
    InvAt(s, call.server);
    assert AnsweredOk(s.traces, call.server, call.index);
  }
}
