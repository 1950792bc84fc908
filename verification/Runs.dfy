/** What a run is: which events can happen, when the kernel panics or shuts the machine down, and what each event changes. */
module Runs {
  import opened Actors
  import opened Bytes
  import opened Capabilities
  import opened Delegation
  import opened Dispatching
  import opened Options
  import Ipc
  import Kernels

  /** A call that reached the server and the handler it was given to. */
  datatype Delivery = Delivery(cap: nat, handler: Handler)

  /** Each delivery went to the handler that its capability was granted for. */
  ghost predicate Delivered(served: seq<Delivery>, granted: map<nat, Handler>) {
    forall d <- served :: LocalIndex(d.cap) in granted && granted[LocalIndex(d.cap)] == d.handler
  }

  datatype Event =
    | Reserve
    | ExportTo(n: nat, grantee: nat)
    | Start(n: nat)
    | KernelGrant(grantee: nat)
    | Schedule(room: set<nat>)
    | Spawn(caps: seq<nat>)
    | Exit
    | Call(cap: nat, operation: nat, args: seq<Byte>, resultBuffer: Ipc.Buffer, kernelResult: Option<seq<Byte>>)
    | Stream(cap: nat, stream: nat, kernelStream: Kernels.KernelStream)
    | Receive(length: nat)
    | Reply(result: seq<Byte>, reply: Kernels.StreamReply)
    | Forward(inner: nat, forwardee: Actor)
    | Grant(recipient: Actor, target: Handler)
    | Begin(target: Handler)
    | Observe
    | Install
  {
    predicate OfKernel() { Reserve? || ExportTo? || Start? || KernelGrant? || Schedule? || Spawn? }
  }

  datatype Ending = GoesOn | Panic | ShutDown

  /** What there is between two events: the processes and their history, the certificates and how many slots each page has
      given away, who has been given what, the process numbers, and the server with its handlers and deliveries. */
  datatype Snapshot = Snapshot(
    system: Ipc.System, current: Option<nat>, graph: Graph, next: seq<nat>, known: seq<nat>, reserved: nat, pending: set<nat>,
    serves: bool, busy: bool, granted: map<nat, Handler>, served: seq<Delivery>)

  ghost function Boot(): Snapshot {
    Snapshot(Ipc.Initial(), None, seq(SLOTS, _ => ZERO), seq(PAGES, p => if p == 0 then 0 else 1), [], 0, {},
             false, false, map[], [])
  }

  /** The process that was running when the trap was taken runs still. */
  ghost predicate InUser(s: Snapshot) {
    && s.current.Some? && s.current.value < |s.system.slots| == |s.system.traces| == PROCESS_COUNT
    && s.system.slots[s.current.value].Some? && s.system.slots[s.current.value].value.state.Runnable?
  }

  ghost predicate ServerRuns(pid: nat, s: Snapshot) {
    InUser(s) && s.current.value == pid && s.serves
  }

  /** Only a running process makes system calls; it hands on capabilities that exist; and only the server's own `Dispatch`
      asks for its messages and grants its slots. */
  ghost predicate Can(pid: nat, s: Snapshot, e: Event) {
    match e
    case Reserve => true
    case ExportTo(n, grantee) =>
      n in s.pending && Userspace(n).Legal() && NewCap(Userspace(n), 0) !in s.known && Userspace(grantee).Legal()
    case Start(n) => n in s.pending
    case KernelGrant(grantee) => Userspace(grantee).Legal()
    case Schedule(_) => true
    case Spawn(caps) => InUser(s) && forall cap <- caps :: cap in s.known && AddressedTo(s.graph, cap, Kernel)
    case Exit => InUser(s)
    case Call(cap, _, _, _, _) => InUser(s) && IsCap(cap)
    case Stream(cap, _, _) => InUser(s) && IsCap(cap)
    case Receive(_) => InUser(s) && (s.current.value == pid ==> s.serves && !s.busy)
    case Reply(_, stream) => InUser(s) && stream.Sensible()
    case Forward(inner, forwardee) => InUser(s) && inner in s.known && forwardee.Legal()
    case Grant(grantee, _) => InUser(s) && grantee.Legal() && (s.current.value == pid ==> s.serves && s.busy)
    case Begin(_) => InUser(s) && s.current.value == pid && !s.serves
    case Observe => ServerRuns(pid, s) && !s.busy
    case Install => ServerRuns(pid, s) && s.busy
  }

  /** The slot of `p` holds a process that the scheduler can go on with. */
  ghost predicate CanGoOn(slots: seq<Option<Ipc.Process>>, p: nat) {
    && p < |slots| && slots[p].Some?
    && var state := slots[p].value.state;
    || state.Runnable? || state.ReadyStreamMap? || (state.ReadyReply? && |state.reply| <= state.resultBuffer.length)
  }

  /** The scheduler goes on with `p`: the first that can, from the slot after the process that ran. */
  ghost predicate IsNext(s: Snapshot, p: nat) {
    && CanGoOn(s.system.slots, p)
    && exists n: nat :: FirstAfter(s.system.slots, After(s.current), p, n)
  }

  ghost predicate FirstAfter(slots: seq<Option<Ipc.Process>>, start: nat, p: nat, n: nat) {
    n < PROCESS_COUNT && p == Scanned(start, n) && forall m: nat :: m < n ==> !CanGoOn(slots, Scanned(start, m))
  }

  function After(current: Option<nat>): nat { if current.Some? then current.value + 1 else 0 }

  /** The slot that a scan from `start` looks at after `n` others. */
  function Scanned(start: nat, n: nat): nat { (start + n) % PROCESS_COUNT }

  ghost predicate ShutsDown(s: Snapshot, e: Event) {
    e.Schedule? && forall p: nat :: !CanGoOn(s.system.slots, p)
  }

  ghost predicate ClaimPanics(s: Snapshot, claim: Outcome) {
    claim.Aborted? || (claim.Root? && IsCap(claim.cap) && s.current.Some? && Certifier(claim.cap) == Some(Userspace(s.current.value)))
  }

  ghost predicate ClaimsKernel(claim: Outcome) {
    claim.Root? && IsCap(claim.cap) && Certifier(claim.cap) == Some(Kernel)
  }

  ghost predicate ClaimsEmptySlot(s: Snapshot, claim: Outcome) {
    && claim.Root? && IsCap(claim.cap) && Certifier(claim.cap).Some? && Certifier(claim.cap).value.Userspace?
    && Certifier(claim.cap).value.pid < |s.system.slots| && s.system.slots[Certifier(claim.cap).value.pid].None?
  }

  ghost predicate CallPanics(s: Snapshot, cap: nat, kernelResult: Option<seq<Byte>>, claim: Outcome)
    requires IsCap(cap) && InUser(s)
  {
    && Resolves(s.graph, cap, Userspace(s.current.value), claim)
    && (ClaimPanics(s, claim) || (ClaimsKernel(claim) && kernelResult.None?))
  }

  ghost predicate StreamPanics(s: Snapshot, cap: nat, kernelStream: Kernels.KernelStream, claim: Outcome)
    requires IsCap(cap) && InUser(s)
  {
    && Resolves(s.graph, cap, Userspace(s.current.value), claim)
    && (ClaimPanics(s, claim) || ClaimsEmptySlot(s, claim) || (ClaimsKernel(claim) && kernelStream == Kernels.NoStreams))
  }

  /** The reply is for a caller that asked for a stream, and is one that the kernel panics on. */
  ghost predicate ReplyPanics(s: Snapshot, stream: Kernels.StreamReply)
    requires InUser(s) && stream.Sensible()
  {
    var served := s.system.slots[s.current.value].value.serving;
    && served.Some? && served.value < |s.system.slots| && s.system.slots[served.value].Some?
    && s.system.slots[served.value].value.state.WaitingForStreamMap? && stream.Panics()
  }

  ghost predicate Panics(pid: nat, s: Snapshot, e: Event) {
    && Can(pid, s, e)
    && match e
       case Reserve => s.reserved >= MAX_PROCESSES
       case Start(n) => n >= PROCESS_COUNT
       case KernelGrant(_) => |s.next| > 0 && s.next[0] >= SLOTS_PER_PAGE
       case Schedule(room) => exists p: nat :: IsNext(s, p) && s.system.slots[p].value.state.ReadyStreamMap? && p !in room
       case Spawn(caps) =>
         s.reserved + 1 >= PROCESS_COUNT || exists cap :: cap in caps && !CertifiedBy(cap, Userspace(s.current.value))
       case Call(cap, _, _, _, kernelResult) => exists claim :: CallPanics(s, cap, kernelResult, claim)
       case Stream(cap, _, kernelStream) => exists claim :: StreamPanics(s, cap, kernelStream, claim)
       case Reply(_, stream) => ReplyPanics(s, stream)
       case _ => false
  }

  // ---- What each event changes ----

  ghost function Stop(s: Snapshot, messages: seq<Ipc.Message>, serving: Option<nat>): Snapshot
    requires InUser(s)
  {
    s.(system := s.system.(slots := s.system.slots[s.current.value := Some(Ipc.Process(Ipc.Finished, messages, serving))]))
  }

  ghost function Killed(s: Snapshot): Snapshot
    requires InUser(s)
  {
    var p := s.system.slots[s.current.value].value;
    Stop(s, p.messages, p.serving)
  }

  /** `q` is the process that the claim leads to, and is there. */
  ghost predicate LeadsTo(s: Snapshot, claim: Outcome, q: nat) {
    && claim.Root? && IsCap(claim.cap) && Certifier(claim.cap) == Some(Userspace(q)) && q < |s.system.slots|
    && s.system.slots[q].Some?
  }

  /** The running process waits for `server`, whose queue ends with the message: it names the root of the claim. */
  ghost predicate SendsTo(s: Snapshot, server: nat, m: Ipc.Message, want: Ipc.Want, t: Snapshot)
    requires InUser(s)
  {
    Ipc.CanSend(s.system, s.current.value, server, m) && t == s.(system := Ipc.Sent(s.system, s.current.value, server, m, want))
  }

  ghost predicate CallGoes(s: Snapshot, claim: Outcome, operation: nat, args: seq<Byte>, resultBuffer: Ipc.Buffer,
                           kernelResult: Option<seq<Byte>>, t: Snapshot)
    requires InUser(s)
  {
    if ClaimsKernel(claim) then
      kernelResult.Some? && t == if |kernelResult.value| <= resultBuffer.length then s else Killed(s)
    else if claim.Root? && !ClaimsEmptySlot(s, claim) then
      exists q: nat :: LeadsTo(s, claim, q) && SendsTo(s, q, Ipc.Message(claim.cap, operation, args, s.current.value),
                                                       Ipc.Reply(resultBuffer), t)
    else t == Killed(s)
  }

  ghost predicate StreamGoes(s: Snapshot, claim: Outcome, stream: nat, kernelStream: Kernels.KernelStream, t: Snapshot)
    requires InUser(s)
  {
    if ClaimsKernel(claim) then
      kernelStream != Kernels.NoStreams && t == if kernelStream == Kernels.Mapped then s else Killed(s)
    else if claim.Root? then
      exists q: nat :: LeadsTo(s, claim, q)
                       && SendsTo(s, q, Ipc.Message(claim.cap, 1000 + stream, [], s.current.value), Ipc.Stream, t)
    else t == Killed(s)
  }

  /** The outcomes of asking for a message. What the server gets goes to the handler that was granted for it. */
  ghost predicate Receives(pid: nat, s: Snapshot, room: nat, t: Snapshot)
    requires InUser(s)
  {
    var p := s.system.slots[s.current.value].value;
    if p.serving.Some? then t == Killed(s)
    else if p.messages == [] then t == s
    else if |p.messages[0].args| > room then t == Stop(s, p.messages[1..], None)
    else
      && Ipc.CanTake(s.system, s.current.value)
      && var cap := p.messages[0].cap;
      if s.current.value == pid then
        && LocalIndex(cap) in s.granted
        && t == s.(system := Ipc.Taken(s.system, pid), busy := true,
                   served := s.served + [Delivery(cap, s.granted[LocalIndex(cap)])])
      else t == s.(system := Ipc.Taken(s.system, s.current.value))
  }

  ghost predicate GoesOnWith(s: Snapshot, room: set<nat>, p: nat, t: Snapshot) {
    && IsNext(s, p) && p < |s.system.traces|
    && var state := s.system.slots[p].value.state;
    && (state.ReadyStreamMap? ==> p in room)
    && Kernels.IsSchedule(s.system.slots, t.system.slots, p)
    && t == s.(current := Some(p),
               system := s.system.(slots := t.system.slots,
                                   traces := if state.Runnable? then s.system.traces
                                             else s.system.traces[p := s.system.traces[p].(
                                                    resumed := s.system.traces[p].resumed + [Ipc.AnswerOf(state)])]))
  }

  /** The next slot of the page of `certifier` is granted, if there is one. */
  ghost predicate Grants(s: Snapshot, certifier: Actor, grantee: Actor, cap: Option<nat>, t: Snapshot) {
    && certifier.HasPage() && |s.next| == PAGES
    && var i := s.next[certifier.Code()];
    && t.next == s.next[certifier.Code() := i + 1] && t.known == Learn(s.known, cap)
    && (cap.None? <==> i >= SLOTS_PER_PAGE) && (cap.None? ==> t.graph == s.graph)
    && (cap.Some? ==> cap.value == NewCap(certifier, i) && IsGrant(s.graph, t.graph, cap.value, certifier, grantee))
  }

  ghost predicate Forwards(s: Snapshot, certifier: Actor, forwardee: Actor, inner: nat, cap: Option<nat>, t: Snapshot) {
    && certifier.HasPage() && |s.next| == PAGES
    && var i := s.next[certifier.Code()];
    && t.next == s.next[certifier.Code() := i + 1] && t.known == Learn(s.known, cap)
    && (cap.None? <==> i >= SLOTS_PER_PAGE) && (cap.None? ==> t.graph == s.graph)
    && (cap.Some? ==> cap.value == NewCap(certifier, i) && IsForward(s.graph, t.graph, cap.value, certifier, forwardee, inner))
  }

  /** The list of known capabilities after at most one more was given. */
  function Learn(known: seq<nat>, cap: Option<nat>): seq<nat> {
    if cap.Some? then known + [cap.value] else known
  }

  /** The handlers of the server after it has granted `cap`, if its page was not full. */
  function WithHandler(granted: map<nat, Handler>, cap: Option<nat>, target: Handler): map<nat, Handler> {
    if cap.Some? then granted[LocalIndex(cap.value) := target] else granted
  }

  ghost predicate SpawnGoes(s: Snapshot, caps: seq<nat>, n: nat, t: Snapshot)
    requires InUser(s)
  {
    && 0 < n < PROCESS_COUNT && Ipc.CanBear(s.system, n)
    && IsHandOver(s.graph, t.graph, NewCap(Userspace(n), 0), s.current.value, n, caps)
    && t == s.(system := Ipc.Born(s.system, n), graph := t.graph, known := s.known + [NewCap(Userspace(n), 0)], reserved := n)
  }

  ghost predicate Follows(pid: nat, s: Snapshot, e: Event, t: Snapshot) {
    && Can(pid, s, e)
    && match e
       case Reserve => t == s.(reserved := s.reserved + 1, pending := s.pending + {s.reserved + 1})
       case ExportTo(n, grantee) =>
         if n >= PROCESS_COUNT then t == s
         else
           && IsGrant(s.graph, t.graph, NewCap(Userspace(n), 0), Userspace(n), Userspace(grantee))
           && t == s.(graph := t.graph, known := s.known + [NewCap(Userspace(n), 0)])
       case Start(n) => Ipc.CanBear(s.system, n) && t == s.(system := Ipc.Born(s.system, n), pending := s.pending - {n})
       case KernelGrant(grantee) =>
         && (exists cap: Option<nat> :: cap.Some? && Grants(s, Kernel, Userspace(grantee), cap, t))
         && t == s.(graph := t.graph, next := t.next, known := t.known)
       case Schedule(room) => exists p: nat :: GoesOnWith(s, room, p, t)
       case Spawn(caps) => SpawnGoes(s, caps, s.reserved + 1, t)
       case Exit => t == Killed(s)
       case Call(cap, operation, args, resultBuffer, kernelResult) =>
         exists claim :: Resolves(s.graph, cap, Userspace(s.current.value), claim)
                         && CallGoes(s, claim, operation, args, resultBuffer, kernelResult, t)
       case Stream(cap, stream, kernelStream) =>
         exists claim :: Resolves(s.graph, cap, Userspace(s.current.value), claim)
                         && StreamGoes(s, claim, stream, kernelStream, t)
       case Receive(room) => Receives(pid, s, room, t)
       case Reply(result, stream) =>
         && (exists outcome :: outcome != Kernels.Aborted
                               && Kernels.IsReply(s.system, s.current.value, result, stream, outcome, t.system))
         && t == s.(system := t.system)
       case Forward(inner, forwardee) =>
         && (exists cap :: Forwards(s, Userspace(s.current.value), forwardee, inner, cap, t))
         && t == s.(graph := t.graph, next := t.next, known := t.known)
       case Grant(grantee, target) =>
         exists cap :: Grants(s, Userspace(s.current.value), grantee, cap, t)
                       && t == s.(graph := t.graph, next := t.next, known := t.known,
                                  granted := if s.current.value == pid then WithHandler(s.granted, cap, target) else s.granted)
       case Begin(target) => t == s.(serves := true, granted := map[0 := target])
       case Observe => t == s.(busy := true)
       case Install => t == s.(busy := false)
  }

  // ---- The events one at a time ----

  lemma SimpleFollows(pid: nat, s: Snapshot, e: Event, t: Snapshot)
    requires Can(pid, s, e)
    ensures e.Reserve? && t == s.(reserved := s.reserved + 1, pending := s.pending + {s.reserved + 1}) ==> Follows(pid, s, e, t)
    ensures e.Exit? && t == Killed(s) ==> Follows(pid, s, e, t)
    ensures e.Begin? && t == s.(serves := true, granted := map[0 := e.target]) ==> Follows(pid, s, e, t)
    ensures e.Observe? && t == s.(busy := true) ==> Follows(pid, s, e, t)
    ensures e.Install? && t == s.(busy := false) ==> Follows(pid, s, e, t)
    ensures e.Receive? && Receives(pid, s, e.length, t) ==> Follows(pid, s, e, t)
    ensures e.Spawn? && SpawnGoes(s, e.caps, s.reserved + 1, t) ==> Follows(pid, s, e, t)
  {
    hide Can, Receives, SpawnGoes;
  }

  lemma NeverPanics(pid: nat, s: Snapshot, e: Event)
    ensures e.ExportTo? || e.Exit? || e.Receive? || e.Forward? || e.Grant? || e.Begin? || e.Observe? || e.Install? ==>
              !Panics(pid, s, e)
    ensures !e.Schedule? ==> !ShutsDown(s, e)
  {
    hide Can;
  }

  lemma ExportFollows(pid: nat, s: Snapshot, n: nat, grantee: nat, t: Snapshot)
    requires Can(pid, s, ExportTo(n, grantee))
    requires if n >= PROCESS_COUNT then t == s
             else && Userspace(n).HasPage()
                  && IsGrant(s.graph, t.graph, NewCap(Userspace(n), 0), Userspace(n), Userspace(grantee))
                  && t == s.(graph := t.graph, known := s.known + [NewCap(Userspace(n), 0)])
    ensures Follows(pid, s, ExportTo(n, grantee), t)
  {
    hide Can, IsGrant;
  }

  lemma StartFollows(pid: nat, s: Snapshot, n: nat, t: Snapshot)
    requires Can(pid, s, Start(n))
    ensures Panics(pid, s, Start(n)) <==> n >= PROCESS_COUNT
    ensures Ipc.CanBear(s.system, n) && t == s.(system := Ipc.Born(s.system, n), pending := s.pending - {n}) ==>
              Follows(pid, s, Start(n), t)
  {
    hide Can;
  }

  lemma ReservePanics(pid: nat, s: Snapshot)
    ensures Can(pid, s, Reserve) && (Panics(pid, s, Reserve) <==> s.reserved >= MAX_PROCESSES)
  {
  }

  lemma SpawnPanics(pid: nat, s: Snapshot, caps: seq<nat>)
    requires Can(pid, s, Spawn(caps))
    ensures s.current.Some?
    ensures Panics(pid, s, Spawn(caps)) <==>
              s.reserved + 1 >= PROCESS_COUNT || exists cap :: cap in caps && !CertifiedBy(cap, Userspace(s.current.value))
  {
    hide AddressedTo, CertifiedBy;
  }

  lemma KernelGrantFollows(pid: nat, s: Snapshot, grantee: nat, cap: Option<nat>, t: Snapshot)
    requires Can(pid, s, KernelGrant(grantee)) && |s.next| == PAGES
    ensures Panics(pid, s, KernelGrant(grantee)) <==> s.next[0] >= SLOTS_PER_PAGE
    ensures cap.Some? && Grants(s, Kernel, Userspace(grantee), cap, t) ==>
              (t == s.(graph := t.graph, next := t.next, known := t.known) ==> Follows(pid, s, KernelGrant(grantee), t))
  {
    hide Can, Grants;
  }

  lemma ForwardFollows(pid: nat, s: Snapshot, inner: nat, forwardee: Actor, cap: Option<nat>, t: Snapshot)
    requires Can(pid, s, Event.Forward(inner, forwardee)) && InUser(s)
    requires Forwards(s, Userspace(s.current.value), forwardee, inner, cap, t)
    requires t == s.(graph := t.graph, next := t.next, known := t.known)
    ensures Follows(pid, s, Event.Forward(inner, forwardee), t)
  {
    hide Can, Forwards;
  }

  lemma GrantFollows(pid: nat, s: Snapshot, grantee: Actor, target: Handler, cap: Option<nat>, t: Snapshot)
    requires Can(pid, s, Event.Grant(grantee, target)) && InUser(s)
    requires Grants(s, Userspace(s.current.value), grantee, cap, t)
    requires t == s.(graph := t.graph, next := t.next, known := t.known,
                     granted := if s.current.value == pid then WithHandler(s.granted, cap, target) else s.granted)
    ensures Follows(pid, s, Event.Grant(grantee, target), t)
  {
    hide Can, Grants, WithHandler;
  }

  /** Of one claim the kernel panics exactly for these reasons. */
  lemma CallPanicsIff(pid: nat, s: Snapshot, e: Event, claim: Outcome)
    requires e.Call? && Can(pid, s, e) && InUser(s) && IsCap(e.cap) && Resolves(s.graph, e.cap, Userspace(s.current.value), claim)
    requires Kernels.Ended(claim)
    ensures Panics(pid, s, e) <==>
              || claim.Aborted? || Kernels.CallsItself(claim, s.current.value)
              || (claim.Root? && Kernels.Granter(claim) == Kernel && e.kernelResult.None?)
  {
    hide IsCap, Certifier, Resolves, Can;
    var q := s.current.value;
    if Panics(pid, s, e) {
      var other :| CallPanics(s, e.cap, e.kernelResult, other);
      OutcomeIsUnique(s.graph, e.cap, Userspace(q), claim, other);
    }
    assert CallPanics(s, e.cap, e.kernelResult, claim) ==> Panics(pid, s, e);
  }

  lemma StreamPanicsIff(pid: nat, s: Snapshot, e: Event, claim: Outcome)
    requires e.Stream? && Can(pid, s, e) && InUser(s) && IsCap(e.cap) && Resolves(s.graph, e.cap, Userspace(s.current.value), claim)
    requires Kernels.Ended(claim)
    ensures Panics(pid, s, e) <==>
              || claim.Aborted? || Kernels.CallsItself(claim, s.current.value) || Kernels.CallsNobody(claim, s.system.slots)
              || (claim.Root? && Kernels.Granter(claim) == Kernel && e.kernelStream == Kernels.NoStreams)
  {
    hide IsCap, Certifier, Resolves, Can;
    var q := s.current.value;
    if Panics(pid, s, e) {
      var other :| StreamPanics(s, e.cap, e.kernelStream, other);
      OutcomeIsUnique(s.graph, e.cap, Userspace(q), claim, other);
    }
    assert StreamPanics(s, e.cap, e.kernelStream, claim) ==> Panics(pid, s, e);
  }

  lemma CallFollows(pid: nat, s: Snapshot, e: Event, claim: Outcome, t: Snapshot)
    requires e.Call? && Can(pid, s, e) && InUser(s) && IsCap(e.cap) && Resolves(s.graph, e.cap, Userspace(s.current.value), claim)
    requires Kernels.Ended(claim) && !Kernels.CallsItself(claim, s.current.value)
    requires claim.Root? && Kernels.Granter(claim) == Kernel ==>
               e.kernelResult.Some? && t == if |e.kernelResult.value| <= e.resultBuffer.length then s else Killed(s)
    requires claim.Root? && Kernels.Granter(claim).Userspace? && !Kernels.CallsNobody(claim, s.system.slots) ==>
               SendsTo(s, Kernels.Granter(claim).pid, Ipc.Message(claim.cap, e.operation, e.args, s.current.value),
                       Ipc.Reply(e.resultBuffer), t)
    requires claim.Root? && Kernels.CallsNobody(claim, s.system.slots) ==> t == Killed(s)
    requires !claim.Root? ==> t == Killed(s)
    ensures Follows(pid, s, e, t)
  {
    hide IsCap, Certifier, Resolves, Can, SendsTo;
    assert claim.Root? && Kernels.Granter(claim).Userspace? && !Kernels.CallsNobody(claim, s.system.slots) ==>
             LeadsTo(s, claim, Kernels.Granter(claim).pid);
    assert CallGoes(s, claim, e.operation, e.args, e.resultBuffer, e.kernelResult, t);
  }

  lemma StreamFollows(pid: nat, s: Snapshot, e: Event, claim: Outcome, t: Snapshot)
    requires e.Stream? && Can(pid, s, e) && InUser(s) && IsCap(e.cap) && Resolves(s.graph, e.cap, Userspace(s.current.value), claim)
    requires Kernels.Ended(claim) && !Kernels.CallsItself(claim, s.current.value) && !Kernels.CallsNobody(claim, s.system.slots)
    requires claim.Root? && Kernels.Granter(claim) == Kernel ==>
               e.kernelStream != Kernels.NoStreams && t == if e.kernelStream == Kernels.Mapped then s else Killed(s)
    requires claim.Root? && Kernels.Granter(claim).Userspace? ==>
               SendsTo(s, Kernels.Granter(claim).pid, Ipc.Message(claim.cap, 1000 + e.stream, [], s.current.value), Ipc.Stream, t)
    requires !claim.Root? ==> t == Killed(s)
    ensures Follows(pid, s, e, t)
  {
    hide IsCap, Certifier, Resolves, Can, SendsTo;
    assert claim.Root? && Kernels.Granter(claim).Userspace? ==> LeadsTo(s, claim, Kernels.Granter(claim).pid);
    assert StreamGoes(s, claim, e.stream, e.kernelStream, t);
  }

  lemma ReplyFollows(pid: nat, s: Snapshot, e: Event, outcome: Kernels.Outcome, t: Snapshot)
    requires e.Reply? && Can(pid, s, e) && InUser(s) && e.reply.Sensible()
    requires Kernels.IsReply(s.system, s.current.value, e.result, e.reply, outcome, t.system)
    ensures Panics(pid, s, e) <==> outcome == Kernels.Aborted
    ensures outcome != Kernels.Aborted && t == s.(system := t.system) ==> Follows(pid, s, e, t)
  {
    hide Can, Follows, Panics, Certifier, IsCap;
    ReplyPanicsIs(pid, s, e);
    if outcome != Kernels.Aborted && t == s.(system := t.system) { ReplyFollowsIs(pid, s, e, outcome, t); }
    assert outcome == Kernels.Aborted <==> ReplyPanics(s, e.reply);
  }

  lemma ReplyPanicsIs(pid: nat, s: Snapshot, e: Event)
    requires e.Reply? && Can(pid, s, e) && InUser(s) && e.reply.Sensible()
    ensures Panics(pid, s, e) <==> ReplyPanics(s, e.reply)
  {
    hide Can, ReplyPanics, Kernels.StreamReply.Sensible;
  }

  lemma ReplyFollowsIs(pid: nat, s: Snapshot, e: Event, outcome: Kernels.Outcome, t: Snapshot)
    requires e.Reply? && Can(pid, s, e) && InUser(s) && e.reply.Sensible() && outcome != Kernels.Aborted
    requires Kernels.IsReply(s.system, s.current.value, e.result, e.reply, outcome, t.system) && t == s.(system := t.system)
    ensures Follows(pid, s, e, t)
  {
    hide Can, Kernels.IsReply, Kernels.StreamReply.Sensible;
  }

  lemma ResumedIsNext(s: Snapshot, p: nat)
    requires Kernels.IsResumed(s.system.slots, if s.current.Some? then s.current.value + 1 else 0, p)
    ensures IsNext(s, p)
  {
    hide Kernels.At, Kernels.Resumable, CanGoOn, Scanned;
    var slots, start := s.system.slots, if s.current.Some? then s.current.value + 1 else 0;
    var n: nat :| n < PROCESS_COUNT && p == Kernels.At(start, n) && Kernels.Resumable(slots, p) && Kernels.NoneResumable(slots, start, n);
    GoesOnIs(slots, p);
    ScannedIs(start, n);
    forall m: nat | m < n ensures !CanGoOn(slots, Scanned(start, m)) {
      ScannedIs(start, m);
      assert !Kernels.Resumable(slots, Kernels.At(start, m));
      GoesOnIs(slots, Scanned(start, m));
    }
    assert FirstAfter(slots, After(s.current), p, n);
  }

  lemma ScannedIs(start: nat, n: nat)
    ensures Scanned(start, n) == Kernels.At(start, n)
  {
  }

  lemma GoesOnIs(slots: seq<Option<Ipc.Process>>, p: nat)
    ensures CanGoOn(slots, p) <==> Kernels.Resumable(slots, p)
  {
  }

  lemma OneIsNext(s: Snapshot, p: nat, q: nat)
    requires IsNext(s, p) && IsNext(s, q)
    ensures p == q
  {
    hide CanGoOn, Scanned;
    var slots, start := s.system.slots, After(s.current);
    var m: nat :| FirstAfter(slots, start, p, m);
    var n: nat :| FirstAfter(slots, start, q, n);
    assert CanGoOn(slots, Scanned(start, m)) && CanGoOn(slots, Scanned(start, n));
  }

  lemma ScheduleFollows(pid: nat, s: Snapshot, room: set<nat>, p: nat, t: Snapshot)
    requires IsNext(s, p)
    ensures Panics(pid, s, Schedule(room)) <==> s.system.slots[p].value.state.ReadyStreamMap? && p !in room
    ensures !ShutsDown(s, Schedule(room))
    ensures GoesOnWith(s, room, p, t) ==> Follows(pid, s, Schedule(room), t)
  {
    hide GoesOnWith, FirstAfter;
    if q: nat :| IsNext(s, q) && s.system.slots[q].value.state.ReadyStreamMap? && q !in room {
      OneIsNext(s, p, q);
    }
  }

  lemma ScheduleEnds(pid: nat, s: Snapshot, room: set<nat>)
    requires |s.system.slots| == PROCESS_COUNT
    requires forall p: nat :: p < PROCESS_COUNT && s.system.slots[p].Some? ==>
               var state := s.system.slots[p].value.state;
               && !state.Runnable? && !state.ReadyStreamMap?
               && !(state.ReadyReply? && |state.reply| <= state.resultBuffer.length)
    ensures ShutsDown(s, Schedule(room)) && !Panics(pid, s, Schedule(room))
  {
    forall p: nat ensures !CanGoOn(s.system.slots, p) { }
  }

  /** One event after which the machine goes on; one that cannot happen is passed over. */
  ghost predicate GoesTo(pid: nat, s: Snapshot, e: Event, t: Snapshot) {
    if Can(pid, s, e) then !Panics(pid, s, e) && !ShutsDown(s, e) && Follows(pid, s, e, t) else t == s
  }

  /** The event with which it ends. */
  ghost predicate EndsWith(pid: nat, s: Snapshot, e: Event, ending: Ending) {
    && Can(pid, s, e)
    && (ending == Panic ==> Panics(pid, s, e)) && (ending == ShutDown ==> ShutsDown(s, e))
  }

  /** The snapshots of a run from boot on, one after each event, until it ends. */
  ghost predicate IsRun(pid: nat, run: seq<Snapshot>, events: seq<Event>, ending: Ending) {
    && 0 < |run| <= |events| + 1 && run[0] == Boot()
    && (forall i :: 0 <= i < |run| - 1 ==> GoesTo(pid, run[i], events[i], run[i + 1]))
    && if ending == GoesOn then |run| == |events| + 1
       else |run| <= |events| && EndsWith(pid, run[|run| - 1], events[|run| - 1], ending)
  }

  lemma StepIs(pid: nat, s: Snapshot, e: Event, t: Snapshot)
    requires Can(pid, s, e) && !Panics(pid, s, e) && !ShutsDown(s, e) && Follows(pid, s, e, t)
    ensures GoesTo(pid, s, e, t)
  {
    hide Can, Panics, ShutsDown, Follows;
  }

  lemma PassedOver(pid: nat, s: Snapshot, e: Event)
    requires !Can(pid, s, e)
    ensures GoesTo(pid, s, e, s)
  {
    hide Can, Panics, ShutsDown, Follows;
  }

  lemma EndIs(pid: nat, s: Snapshot, e: Event, ending: Ending)
    requires Can(pid, s, e) && (ending == Panic ==> Panics(pid, s, e)) && (ending == ShutDown ==> ShutsDown(s, e))
    ensures EndsWith(pid, s, e, ending)
  {
    hide Can, Panics, ShutsDown;
  }

  // ---- What holds in every run ----

  /** The server has run a handler for every message that it has taken, in this order, and it was the one that the
      capability named in the message was granted for. */
  ghost predicate Serves(pid: nat, s: Snapshot) {
    && |s.system.slots| == |s.system.traces| == PROCESS_COUNT && |s.next| == PAGES && 0 < pid < PAGES && s.next[pid] > 0
    && (!s.serves ==> s.granted == map[] && !s.busy)
    && (forall i <- s.granted :: i < s.next[pid])
    && Delivered(s.served, s.granted)
    && ServedTaken(s.served, s.system.traces[pid].taken)
  }

  ghost predicate ServedTaken(served: seq<Delivery>, taken: seq<Ipc.Message>) {
    |served| == |taken| && forall k :: 0 <= k < |served| ==> served[k].cap == taken[k].cap
  }

  /** The processes have changed, but the server has taken no message. */
  ghost predicate NothingTaken(pid: nat, s: Ipc.System, t: Ipc.System) {
    && |t.slots| == |t.traces| == |s.traces| == PROCESS_COUNT && pid < PROCESS_COUNT
    && t.traces[pid].taken == s.traces[pid].taken
  }

  lemma ServesStill(pid: nat, s: Snapshot, t: Snapshot)
    requires Serves(pid, s) && NothingTaken(pid, s.system, t.system)
    requires t.serves == s.serves && t.busy == s.busy && t.granted == s.granted && t.served == s.served
    requires |t.next| == PAGES && t.next[pid] >= s.next[pid]
    ensures Serves(pid, t)
  {
    hide Delivered, ServedTaken;
  }

  lemma SentTakesNothing(pid: nat, s: Ipc.System, c: nat, server: nat, m: Ipc.Message, want: Ipc.Want)
    requires Ipc.CanSend(s, c, server, m) && pid < PROCESS_COUNT
    ensures NothingTaken(pid, s, Ipc.Sent(s, c, server, m, want))
  {
  }

  lemma ReplyTakesNothing(pid: nat, s: Ipc.System, q: nat, result: seq<Byte>, stream: Kernels.StreamReply,
                          outcome: Kernels.Outcome, t: Ipc.System)
    requires stream.Sensible() && Kernels.IsReply(s, q, result, stream, outcome, t) && outcome != Kernels.Aborted
    requires |s.slots| == |s.traces| == PROCESS_COUNT && pid < PROCESS_COUNT
    ensures NothingTaken(pid, s, t)
  {
    hide Kernels.Given, Kernels.StreamReply.Sensible, Kernels.StreamReply.Panics;
  }

  lemma CallTakesNothing(pid: nat, s: Snapshot, claim: Outcome, operation: nat, args: seq<Byte>, resultBuffer: Ipc.Buffer,
                         kernelResult: Option<seq<Byte>>, t: Snapshot)
    requires InUser(s) && pid < PROCESS_COUNT && CallGoes(s, claim, operation, args, resultBuffer, kernelResult, t)
    ensures NothingTaken(pid, s.system, t.system) && t == s.(system := t.system)
  {
    hide Ipc.CanSend, Ipc.Sent, ClaimsKernel, ClaimsEmptySlot;
    if q: nat :| LeadsTo(s, claim, q)
                 && SendsTo(s, q, Ipc.Message(claim.cap, operation, args, s.current.value), Ipc.Reply(resultBuffer), t) {
      SentTakesNothing(pid, s.system, s.current.value, q, Ipc.Message(claim.cap, operation, args, s.current.value),
                       Ipc.Reply(resultBuffer));
    }
  }

  lemma StreamTakesNothing(pid: nat, s: Snapshot, claim: Outcome, stream: nat, kernelStream: Kernels.KernelStream, t: Snapshot)
    requires InUser(s) && pid < PROCESS_COUNT && StreamGoes(s, claim, stream, kernelStream, t)
    ensures NothingTaken(pid, s.system, t.system) && t == s.(system := t.system)
  {
    hide Ipc.CanSend, Ipc.Sent, ClaimsKernel;
    if q: nat :| LeadsTo(s, claim, q)
                 && SendsTo(s, q, Ipc.Message(claim.cap, 1000 + stream, [], s.current.value), Ipc.Stream, t) {
      SentTakesNothing(pid, s.system, s.current.value, q, Ipc.Message(claim.cap, 1000 + stream, [], s.current.value), Ipc.Stream);
    }
  }

  /** A message that the server takes is one more delivery. */
  lemma ReceiveServes(pid: nat, s: Snapshot, room: nat, t: Snapshot)
    requires Serves(pid, s) && InUser(s) && Receives(pid, s, room, t) && (s.current.value == pid ==> s.serves)
    ensures Serves(pid, t)
  {
    hide LocalIndex;
  }

  lemma GrantServes(pid: nat, s: Snapshot, grantee: Actor, target: Handler, cap: Option<nat>, t: Snapshot)
    requires Serves(pid, s) && InUser(s) && Grants(s, Userspace(s.current.value), grantee, cap, t)
    requires s.current.value == pid ==> s.serves
    requires t == s.(graph := t.graph, next := t.next, known := t.known,
                     granted := if s.current.value == pid then WithHandler(s.granted, cap, target) else s.granted)
    ensures Serves(pid, t)
  {
    hide IsGrant, LocalIndex, NewCap, ServedTaken;
    if s.current.value == pid && cap.Some? {
      CapRoundTrip(Userspace(pid), s.next[pid]);
      assert LocalIndex(cap.value) !in s.granted;
      assert Delivered(t.served, t.granted);
    }
  }

  lemma {:induction false} EventServes(pid: nat, s: Snapshot, e: Event, t: Snapshot)
    requires Serves(pid, s) && Follows(pid, s, e, t)
    ensures Serves(pid, t)
  {
    if e.OfKernel() { KernelEventServes(pid, s, e, t); } else { ProcessEventServes(pid, s, e, t); }
  }

  lemma KernelEventServes(pid: nat, s: Snapshot, e: Event, t: Snapshot)
    requires Serves(pid, s) && Follows(pid, s, e, t) && e.OfKernel()
    ensures Serves(pid, t)
  {
    hide Can, Serves, IsGrant, IsHandOver, AddressedTo, Kernels.IsSchedule, IsNext, NewCap;
    assert |s.system.slots| == |s.system.traces| == PROCESS_COUNT && |s.next| == PAGES && 0 < pid < PAGES by { SizesOf(pid, s); }
    match e
    case Schedule(room) =>
      var p: nat :| GoesOnWith(s, room, p, t);
      ScheduledSize(s, room, p, t);
      ServesStill(pid, s, t);
    case _ =>
      ServesStill(pid, s, t);
  }

  lemma SizesOf(pid: nat, s: Snapshot)
    requires Serves(pid, s)
    ensures |s.system.slots| == |s.system.traces| == PROCESS_COUNT && |s.next| == PAGES && 0 < pid < PAGES
  {
  }

  lemma ScheduledSize(s: Snapshot, room: set<nat>, p: nat, t: Snapshot)
    requires GoesOnWith(s, room, p, t)
    ensures |t.system.slots| == |s.system.slots|
  {
    hide IsNext;
  }

  lemma ProcessEventServes(pid: nat, s: Snapshot, e: Event, t: Snapshot)
    requires Serves(pid, s) && Follows(pid, s, e, t) && !e.OfKernel()
    ensures Serves(pid, t)
  {
    hide Serves, IsForward, Resolves, CallGoes, StreamGoes, Receives, Kernels.IsReply, Grants, NewCap, WithHandler, IsCap;
    hide Kernels.StreamReply.Sensible;
    SizesOf(pid, s);
    match e
    case Exit => ServesStill(pid, s, t);
    case Call(cap, operation, args, resultBuffer, kernelResult) =>
      var claim :| Resolves(s.graph, cap, Userspace(s.current.value), claim)
                   && CallGoes(s, claim, operation, args, resultBuffer, kernelResult, t);
      CallTakesNothing(pid, s, claim, operation, args, resultBuffer, kernelResult, t);
      ServesStill(pid, s, t);
    case Stream(cap, stream, kernelStream) =>
      var claim :| Resolves(s.graph, cap, Userspace(s.current.value), claim) && StreamGoes(s, claim, stream, kernelStream, t);
      StreamTakesNothing(pid, s, claim, stream, kernelStream, t);
      ServesStill(pid, s, t);
    case Receive(room) => ReceiveServes(pid, s, room, t);
    case Reply(result, stream) =>
      var outcome :| outcome != Kernels.Aborted
                     && Kernels.IsReply(s.system, s.current.value, result, stream, outcome, t.system);
      ReplyTakesNothing(pid, s.system, s.current.value, result, stream, outcome, t.system);
      ServesStill(pid, s, t);
    case Forward(inner, forwardee) => ServesStill(pid, s, t);
    case Grant(grantee, target) =>
      var cap :| Grants(s, Userspace(s.current.value), grantee, cap, t)
                 && t == s.(graph := t.graph, next := t.next, known := t.known,
                            granted := if s.current.value == pid then WithHandler(s.granted, cap, target) else s.granted);
      GrantServes(pid, s, grantee, target, cap, t);
    case Begin(target) => BeginServes(pid, s, target, t);
    case Observe => BusyServes(pid, s, t);
    case Install => BusyServes(pid, s, t);
  }

  lemma BeginServes(pid: nat, s: Snapshot, target: Handler, t: Snapshot)
    requires Serves(pid, s) && !s.serves && t == s.(serves := true, granted := map[0 := target])
    ensures Serves(pid, t)
  {
    hide LocalIndex;
  }

  lemma BusyServes(pid: nat, s: Snapshot, t: Snapshot)
    requires Serves(pid, s) && s.serves && t == s.(busy := t.busy)
    ensures Serves(pid, t)
  {
    hide Delivered, ServedTaken;
  }

  lemma BootServes(pid: nat)
    requires 0 < pid < PROCESS_COUNT
    ensures Serves(pid, Boot())
  {
  }

  /** In every run, at any time: every message that the server has taken was given to a handler, in the order taken, the one
      that the capability in the message was granted for. */
  lemma {:induction false} RunServes(pid: nat, run: seq<Snapshot>, events: seq<Event>, ending: Ending, i: nat)
    requires 0 < pid < PROCESS_COUNT && IsRun(pid, run, events, ending) && i < |run|
    ensures Serves(pid, run[i])
    decreases i
  {
    hide Serves, GoesTo, EndsWith, Boot;
    if i == 0 {
      BootServes(pid);
    } else {
      RunServes(pid, run, events, ending, i - 1);
      assert GoesTo(pid, run[i - 1], events[i - 1], run[i]);
      GoingServes(pid, run[i - 1], events[i - 1], run[i]);
    }
  }

  lemma AllServe(pid: nat, run: seq<Snapshot>, events: seq<Event>, ending: Ending)
    requires 0 < pid < PROCESS_COUNT && IsRun(pid, run, events, ending)
    ensures forall i :: 0 <= i < |run| ==> Serves(pid, run[i])
  {
    hide Serves, IsRun;
    forall i | 0 <= i < |run| ensures Serves(pid, run[i]) { RunServes(pid, run, events, ending, i); }
  }

  lemma GoingServes(pid: nat, s: Snapshot, e: Event, t: Snapshot)
    requires Serves(pid, s) && GoesTo(pid, s, e, t)
    ensures Serves(pid, t)
  {
    hide Serves, Can, Panics, ShutsDown, Follows;
    if Can(pid, s, e) {
      EventServes(pid, s, e, t);
    }
  }

  // ---- The way of a call ----

  /** A process that was reserved starts able to run, with nothing to do for others. */
  lemma ReservedStarts(pid: nat, s: Snapshot, n: nat, t: Snapshot)
    requires n in s.pending && n < PROCESS_COUNT && GoesTo(pid, s, Start(n), t)
    ensures |t.system.slots| == PROCESS_COUNT && t.system.slots[n] == Some(Ipc.Process(Ipc.Runnable, [], None))
    ensures t.pending == s.pending - {n}
  {
  }

  /** The server begins with one handler, for its export. */
  lemma ServerBegins(pid: nat, s: Snapshot, target: Handler, t: Snapshot)
    requires InUser(s) && s.current.value == pid && !s.serves
    ensures GoesTo(pid, s, Begin(target), t) <==> t == s.(serves := true, granted := map[0 := target])
  {
  }

  /** During a call the server grants the next slot of its page, with a handler of its choice. */
  lemma GrantIsRecorded(pid: nat, s: Snapshot, grantee: Actor, target: Handler, t: Snapshot)
    requires InUser(s) && s.current.value == pid && s.serves && s.busy && grantee.Legal() && 0 < pid < PROCESS_COUNT
    requires |s.next| == PAGES && s.next[pid] < 512 && GoesTo(pid, s, Event.Grant(grantee, target), t)
    ensures var i := s.next[pid];
            && t.granted == s.granted[i := target] && t.next == s.next[pid := i + 1]
            && var cap := 0x200_0000 + pid * 0x1000 + i * 8;
            IsCap(cap) && Resolves(t.graph, cap, grantee, Root(cap))
  {
    hide Panics, Resolves;
    CapRoundTrip(Userspace(pid), s.next[pid]);
  }

  /** A call whose claim leads to another process that is there: the caller waits, and its message is the last in the queue. */
  lemma CallArrives(pid: nat, s: Snapshot, e: Event, cap: nat, q: nat, t: Snapshot)
    requires InUser(s) && e.Call? && IsCap(e.cap) && IsCap(cap) && q != s.current.value && q < PROCESS_COUNT
    requires Resolves(s.graph, e.cap, Userspace(s.current.value), Root(cap)) && Certifier(cap) == Some(Userspace(q))
    requires s.system.slots[q].Some? && GoesTo(pid, s, e, t)
    ensures t.current == s.current && t.graph == s.graph && |t.system.slots| == |t.system.traces| == PROCESS_COUNT
    ensures t.system.slots[s.current.value] == Some(s.system.slots[s.current.value].value.(
                                                 state := Ipc.WaitingForReply(Userspace(q), e.resultBuffer)))
    ensures var to, m := s.system.slots[q].value, Ipc.Message(cap, e.operation, e.args, s.current.value);
            && t.system.slots[q] == Some(to.(messages := to.messages + [m]))
            && t.system.traces[q].arrived ==
               s.system.traces[q].arrived + [Ipc.Arrival(m, |s.system.traces[s.current.value].calls|)]
  {
    hide Resolves, IsCap, Certifier, Panics;
    var claim :| Resolves(s.graph, e.cap, Userspace(s.current.value), claim)
                 && CallGoes(s, claim, e.operation, e.args, e.resultBuffer, e.kernelResult, t);
    OutcomeIsUnique(s.graph, e.cap, Userspace(s.current.value), claim, Root(cap));
  }

  /** The server takes the first message whenever it asks while serving nobody, and its handler gets it. */
  lemma MessageIsHandled(pid: nat, s: Snapshot, room: nat, t: Snapshot)
    requires InUser(s) && s.current.value == pid && s.serves && !s.busy
    requires var p := s.system.slots[pid].value; p.serving == None && p.messages != [] && |p.messages[0].args| <= room
    requires LocalIndex(s.system.slots[pid].value.messages[0].cap) in s.granted
    ensures var p, trace := s.system.slots[pid].value, s.system.traces[pid];
            var m := p.messages[0];
            GoesTo(pid, s, Receive(room), t) <==>
            t == s.(busy := true, served := s.served + [Delivery(m.cap, s.granted[LocalIndex(m.cap)])],
                    system := s.system.(
                      slots := s.system.slots[pid := Some(Ipc.Process(Ipc.Runnable, p.messages[1..], Some(m.sender)))],
                      traces := s.system.traces[pid := trace.(taken := trace.taken + [m])]))
  {
    hide LocalIndex;
  }

  /** What is replied while a caller is served is what that caller will be resumed with. */
  lemma ReplyGetsBack(pid: nat, s: Snapshot, e: Event, c: nat, t: Snapshot)
    requires InUser(s) && e.Reply? && e.reply.Sensible() && GoesTo(pid, s, e, t)
    requires s.system.slots[s.current.value].value.serving == Some(c) && c < PROCESS_COUNT
    requires s.system.slots[c].Some? && s.system.slots[c].value.state.WaitingForReply?
    ensures c != s.current.value && |t.system.slots| == |t.system.traces| == PROCESS_COUNT
    ensures var buffer := s.system.slots[c].value.state.resultBuffer;
            && t.system.slots[c] == Some(s.system.slots[c].value.(state := Ipc.ReadyReply(e.result, buffer)))
            && t.system.slots[s.current.value] == Some(s.system.slots[s.current.value].value.(serving := None))
  {
    hide Panics, Kernels.StreamReply.Sensible, Kernels.StreamReply.Acceptable, Kernels.StreamReply.Panics;
  }

  /** The next that can go on runs, and a caller gets its answer. */
  lemma NextRuns(pid: nat, s: Snapshot, room: set<nat>, p: nat, t: Snapshot)
    requires IsNext(s, p) && GoesTo(pid, s, Schedule(room), t)
    ensures t.current == Some(p) && p < |t.system.slots| && p < |s.system.traces| == |t.system.traces|
    ensures t.system.slots[p] == Some(s.system.slots[p].value.(state := Ipc.Runnable))
    ensures var state := s.system.slots[p].value.state;
            t.system.traces[p].resumed ==
            if state.ReadyReply? then s.system.traces[p].resumed + [Ipc.Bytes(state.reply, state.resultBuffer)]
            else if state.ReadyStreamMap? then s.system.traces[p].resumed + [Ipc.Ring(state.ring, state.declaredSize)]
            else s.system.traces[p].resumed
  {
    hide Panics, FirstAfter, ShutsDown;
    var q: nat :| GoesOnWith(s, room, q, t);
    OneIsNext(s, p, q);
  }
}
