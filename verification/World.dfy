/** Kernel, certificates and one server together: whatever the processes do, every call that reaches the server finds its
    handler. */
module Worlds {
  import opened Actors
  import opened Bytes
  import opened Capabilities
  import opened Delegation
  import opened Dispatching
  import opened Options
  import opened Runs
  import Ipc
  import Kernels

  type Slots = seq<Option<Ipc.Process>>

  // ---- What holds between the parts ----

  /** Every message queued at `pid` is for a slot that `pid` has granted. */
  ghost predicate Deliverables(slots: Slots, g: Graph, time: seq<nat>, pid: nat) {
    pid < |slots| && slots[pid].Some? ==> forall m <- slots[pid].value.messages :: CanDeliver(g, time, pid, m.cap)
  }

  /** Kernel and certificates agree on who does not run yet: all that are not reserved or wait to be started. */
  ghost predicate Births(inKernel: set<nat>, inPages: set<nat>, reserved: nat, pending: set<nat>) {
    && inKernel == inPages
    && (forall n: nat :: 0 < n < PROCESS_COUNT && (n > reserved || n in pending) ==> n in inPages)
    && (forall n <- pending :: 0 < n <= MAX_PROCESSES && n <= reserved)
  }

  ghost predicate KnownOk(known: seq<nat>, time: seq<nat>) {
    forall c: nat :: GivenAt(time, c) <==> c in known
  }

  /** Nobody has been given the export of a process that is not even reserved. */
  ghost predicate ExportsFresh(known: seq<nat>, reserved: nat) {
    forall n: nat :: reserved < n < PROCESS_COUNT ==> NewCap(Userspace(n), 0) !in known
  }

  ghost predicate OnlyExport(g: Graph, time: seq<nat>, pid: nat) {
    forall i: nat :: GrantedSlot(g, time, pid, i) ==> i == 0
  }

  ghost predicate MoreGranted(g: Graph, time: seq<nat>, h: Graph, times: seq<nat>, pid: nat) {
    forall i: nat :: GrantedSlot(g, time, pid, i) ==> GrantedSlot(h, times, pid, i)
  }

  /** No process appears and no queue gets a message. */
  ghost predicate NoNews(slots: Slots, now: Slots) {
    && |slots| == |now|
    && forall q: nat :: q < |now| && now[q].Some? ==>
         slots[q].Some? && forall m <- now[q].value.messages :: m in slots[q].value.messages
  }

  lemma NoNewsDelivers(slots: Slots, now: Slots, g: Graph, time: seq<nat>, pid: nat)
    requires NoNews(slots, now) && Deliverables(slots, g, time, pid)
    ensures Deliverables(now, g, time, pid)
    ensures |slots| > 0 && slots[0].None? ==> now[0].None?
  {
    hide CanDeliver;
  }

  lemma MoreGrantedDelivers(slots: Slots, g: Graph, time: seq<nat>, h: Graph, times: seq<nat>, pid: nat)
    requires Deliverables(slots, g, time, pid) && MoreGranted(g, time, h, times, pid)
    ensures Deliverables(slots, h, times, pid)
  {
    hide GrantedSlot, IsCap, Certifier, LocalIndex;
  }

  lemma StoppedIsNoNews(s: Ipc.System, p: nat, messages: seq<Ipc.Message>, serving: Option<nat>)
    requires Ipc.CanStop(s, p) && forall m <- messages :: m in s.slots[p].value.messages
    ensures NoNews(s.slots, Ipc.Stopped(s, p, messages, serving).slots)
  {
  }

  lemma RepliedIsNoNews(s: Ipc.System, p: nat, answer: Ipc.Answer)
    requires Ipc.CanAnswer(s, p, answer)
    ensures NoNews(s.slots, Ipc.Replied(s, p, answer).slots)
  {
  }

  lemma QueuesKeptIsNoNews(slots: Slots, now: Slots)
    requires |slots| == |now| && forall q: nat :: Kernels.QueueKept(slots, now, q)
    ensures NoNews(slots, now)
  {
    forall q: nat | q < |now| && now[q].Some?
      ensures slots[q].Some? && forall m <- now[q].value.messages :: m in slots[q].value.messages
    {
      assert Kernels.QueueKept(slots, now, q);
    }
  }

  lemma SentDelivers(s: Ipc.System, c: nat, server: nat, m: Ipc.Message, want: Ipc.Want, g: Graph, time: seq<nat>, pid: nat)
    requires Ipc.CanSend(s, c, server, m) && Deliverables(s.slots, g, time, pid)
    requires server == pid ==> CanDeliver(g, time, pid, m.cap)
    ensures Deliverables(Ipc.Sent(s, c, server, m, want).slots, g, time, pid)
    ensures |Ipc.Sent(s, c, server, m, want).slots| == |s.slots|
    ensures s.slots[0].None? ==> Ipc.Sent(s, c, server, m, want).slots[0].None?
  {
    hide CanDeliver;
  }

  lemma ReplyIsNoNews(s: Ipc.System, pid: nat, result: seq<Byte>, stream: Kernels.StreamReply, outcome: Kernels.Outcome,
                      t: Ipc.System)
    requires stream.Sensible() && Kernels.IsReply(s, pid, result, stream, outcome, t) && outcome != Kernels.Aborted
    ensures NoNews(s.slots, t.slots)
  {
    hide Kernels.Given;
    var p := s.slots[pid].value;
    if outcome == Kernels.Returned {
      RepliedIsNoNews(s, pid, Kernels.Given(s.slots[p.serving.value].value.state, result, stream).value);
    } else {
      StoppedIsNoNews(s, pid, p.messages, None);
    }
  }

  /** A claim that ended, ended in a way that the system calls understand, and its root may be delivered. */
  lemma ClaimUsable(g: Graph, time: seq<nat>, cap: nat, sender: nat, claim: Outcome)
    requires Ordered(g, time) && |time| == SLOTS && IsCap(cap) && Resolves(g, cap, Userspace(sender), claim)
    ensures Kernels.Ended(claim)
    ensures claim.Root? && Certifier(claim.cap).value.Userspace? ==>
              CanDeliver(g, time, Certifier(claim.cap).value.pid, claim.cap)
  {
    hide Meaning, Certifier, Unpack, IsCap, Resolve, LocalIndex, Ordered;
    if claim.Root? {
      var fuel: nat :| Resolve(g, cap, Userspace(sender), fuel) == claim;
      RootIsGrantedToProcess(g, time, cap, Userspace(sender), fuel);
      if Certifier(claim.cap).value.Userspace? {
        RootIsGrantedSlot(g, time, cap, sender, claim.cap, Certifier(claim.cap).value.pid);
      }
    }
  }

  /** A capability of the kernel that a process validates is one the kernel has granted, so it has a handler. */
  lemma KernelCallsHaveHandlers(pages: CertificatePages, cap: nat, sender: nat, root: nat)
    requires pages.Valid() && IsCap(cap) && IsCap(root) && Certifier(root) == Some(Kernel)
    requires Resolves(pages.Graph(), cap, Userspace(sender), Root(root))
    ensures pages.next.Length == PAGES && LocalIndex(root) < pages.next[0]
  {
    hide Meaning, Certifier, Unpack, IsCap, Resolve, LocalIndex;
    var g, time := pages.Graph(), pages.time;
    var fuel: nat :| Resolve(g, cap, Userspace(sender), fuel) == Root(root);
    RootIsGrantedToProcess(g, time, cap, Userspace(sender), fuel);
    MeaningAt(g, root);
    SlotOfCapIs(root);
    GrantedUnpacks(Kernel);
    assert SlotOk(g, time, SlotOfCap(root));
    assert PageOk(g, time, pages.next[0], 0, true);
    assert LocalIndex(root) >= pages.next[0] ==> Unused(time, 0, LocalIndex(root));
  }

  // ---- What a step on the pages does ----

  lemma ForwardSameGranted(g: Graph, time: seq<nat>, h: Graph, times: seq<nat>, pid: nat, i: nat, cap: nat, v: Certificate)
    requires Userspace(pid).HasPage() && IsWrite(g, time, h, times, Userspace(pid), i, cap, v)
    requires Unpack(v).Some? && Unpack(v).value.Forwarded?
    ensures SameGranted(g, time, h, times, pid)
  {
    hide GrantedSlot, IsWrite, Unpack;
    forall j: nat ensures GrantedSlot(g, time, pid, j) <==> GrantedSlot(h, times, pid, j) {
      OwnWrite(g, time, h, times, pid, i, cap, v, j);
    }
  }

  lemma Learnt(known: seq<nat>, time: seq<nat>, times: seq<nat>, cap: Option<nat>)
    requires KnownOk(known, time) && NewlyGiven(time, times, cap)
    ensures KnownOk(Learn(known, cap), times)
  {
    hide GivenAt;
    forall c: nat ensures GivenAt(times, c) <==> c in Learn(known, cap) { }
  }

  /** A slot that a page gives away is not the export of a process that is not reserved. */
  lemma StillFresh(known: seq<nat>, reserved: nat, cap: Option<nat>, certifier: Actor, i: nat)
    requires ExportsFresh(known, reserved) && certifier.HasPage() && i < SLOTS_PER_PAGE
    requires cap.Some? ==> cap.value == NewCap(certifier, i) && (i > 0 || certifier == Kernel || certifier.pid <= reserved)
    ensures ExportsFresh(Learn(known, cap), reserved)
  {
    hide Certifier, LocalIndex, IsCap;
    forall n: nat | reserved < n < PROCESS_COUNT ensures NewCap(Userspace(n), 0) !in Learn(known, cap) {
      CapRoundTrip(certifier, i);
      CapRoundTrip(Userspace(n), 0);
    }
  }

  lemma NobodyKnows(pages: CertificatePages, pid: nat)
    requires pages.Valid() && forall s: nat :: s < SLOTS ==> pages.time[s] == 0
    ensures |pages.time| == SLOTS == pages.slots.Length
    ensures KnownOk([], pages.time) && ExportsFresh([], 0) && OnlyExport(pages.Graph(), pages.time, pid)
  {
    hide Certifier, LocalIndex, IsCap, SlotOfCap, Unpack, Ordered, PagesOk;
  }

  lemma NobodyRuns(kernel: Kernels.Kernel, pages: CertificatePages, pid: nat)
    requires kernel.State() == Ipc.Initial() && pages.unborn == {1, 2, 3, 4, 5, 6, 7} && |pages.Graph()| == SLOTS
    ensures Births(kernel.unborn, pages.unborn, 0, {}) && kernel.processes.Length == PROCESS_COUNT && kernel.processes[0].None?
    ensures Deliverables(kernel.processes[..], pages.Graph(), pages.time, pid)
  {
    hide CanDeliver;
    assert kernel.State().slots[0].None?;
  }

  ghost predicate Extends(granted: map<nat, Handler>, now: map<nat, Handler>) {
    forall i <- granted :: i in now && now[i] == granted[i]
  }

  lemma StillDelivered(served: seq<Delivery>, granted: map<nat, Handler>, now: map<nat, Handler>)
    requires Delivered(served, granted) && Extends(granted, now)
    ensures Delivered(served, now)
  {
    hide LocalIndex;
  }

  lemma OneMoreDelivered(served: seq<Delivery>, granted: map<nat, Handler>, cap: nat, handler: Handler)
    requires Delivered(served, granted) && LocalIndex(cap) in granted && granted[LocalIndex(cap)] == handler
    ensures Delivered(served + [Delivery(cap, handler)], granted)
  {
    hide LocalIndex;
  }

  lemma SameGrantedIsMore(g: Graph, time: seq<nat>, h: Graph, times: seq<nat>, pid: nat)
    requires SameGranted(g, time, h, times, pid)
    ensures MoreGranted(g, time, h, times, pid)
    ensures OnlyExport(g, time, pid) ==> OnlyExport(h, times, pid)
    ensures forall granted :: Covered(g, time, pid, granted) ==> Covered(h, times, pid, granted)
  {
    hide GrantedSlot;
  }

  lemma SlotsOf(k: Kernels.Kernel)
    requires k.Valid()
    ensures |k.State().slots| == |k.State().traces| == PROCESS_COUNT == k.processes.Length
    ensures k.InUser() ==> k.current.value !in k.unborn && Ipc.CanStop(k.State(), k.current.value)
  {
  }

  lemma PagesOrdered(pages: CertificatePages)
    requires pages.Valid()
    ensures Ordered(pages.Graph(), pages.time) && |pages.time| == SLOTS == pages.slots.Length && pages.next.Length == PAGES
  {
  }

  /** After a call of `q` on `claim` that did not return: `m` has gone out, or `q` has finished. */
  lemma RequestDelivers(s: Ipc.System, t: Ipc.System, q: nat, claim: Outcome, m: Ipc.Message, want: Ipc.Want,
                        g: Graph, time: seq<nat>, pid: nat)
    requires Ipc.CanStop(s, q) && s.slots[q].value.state.Runnable? && Kernels.Ended(claim) && !Kernels.CallsItself(claim, q)
    requires if claim.Root? && Kernels.Granter(claim).Userspace? && !Kernels.CallsNobody(claim, s.slots)
             then m.cap == claim.cap && m.sender == q && t == Ipc.Sent(s, q, Kernels.Granter(claim).pid, m, want)
             else t == Ipc.Stopped(s, q, s.slots[q].value.messages, s.slots[q].value.serving)
    requires Deliverables(s.slots, g, time, pid) && s.slots[0].None?
    requires claim.Root? && Certifier(claim.cap).value.Userspace? ==> CanDeliver(g, time, Certifier(claim.cap).value.pid, claim.cap)
    ensures Deliverables(t.slots, g, time, pid) && |t.slots| > 0 && t.slots[0].None?
    ensures claim.Root? && Kernels.Granter(claim).Userspace? && !Kernels.CallsNobody(claim, s.slots) ==>
              Ipc.CanSend(s, q, Kernels.Granter(claim).pid, m)
  {
    hide CanDeliver, Deliverables, Certifier, IsCap, NoNews, Ipc.Sent, Ipc.Stopped;
    if claim.Root? && Kernels.Granter(claim).Userspace? && !Kernels.CallsNobody(claim, s.slots) {
      SentDelivers(s, q, Kernels.Granter(claim).pid, m, want, g, time, pid);
    } else {
      StoppedIsNoNews(s, q, s.slots[q].value.messages, s.slots[q].value.serving);
      NoNewsDelivers(s.slots, t.slots, g, time, pid);
    }
  }

  lemma ServerHasPage(pages: CertificatePages, p: nat)
    requires pages.Valid() && 0 < p < PAGES
    ensures pages.next.Length == PAGES && pages.next[p] > 0
  {
    assert PageOk(pages.Graph(), pages.time, pages.next[p], p, p !in pages.unborn);
  }

  lemma RunnerHasPage(inKernel: set<nat>, inPages: set<nat>, reserved: nat, pending: set<nat>, q: nat)
    requires Births(inKernel, inPages, reserved, pending) && 0 < q < PROCESS_COUNT && q !in inKernel
    ensures q !in inPages && Userspace(q).HasPage() && q <= reserved && q !in pending
  {
  }

  lemma KnownIsGiven(known: seq<nat>, time: seq<nat>, cap: nat)
    requires KnownOk(known, time) && cap in known
    ensures GivenAt(time, cap) && IsCap(cap)
  {
    assert GivenAt(time, cap);
  }

  lemma NothingGranted(g: Graph, time: seq<nat>, pid: nat)
    ensures SameGranted(g, time, g, time, pid)
  {
  }

  lemma WrittenAt(g: Graph, time: seq<nat>, h: Graph, times: seq<nat>, certifier: Actor, i: nat, cap: nat, v: Certificate)
    requires IsWrite(g, time, h, times, certifier, i, cap, v)
    ensures i < SLOTS_PER_PAGE && certifier.HasPage() && cap == NewCap(certifier, i)
  {
  }

  /** After asking for a message: as before, or without the first message, or finished. */
  lemma ReceivedIsNoNews(s: Ipc.System, q: nat, t: Ipc.System)
    requires Ipc.CanStop(s, q)
    requires var p := s.slots[q].value;
             || t == s || t == Ipc.Stopped(s, q, p.messages, p.serving)
             || (p.messages != [] && t == Ipc.Stopped(s, q, p.messages[1..], None))
             || (Ipc.CanTake(s, q) && t == Ipc.Taken(s, q))
    ensures NoNews(s.slots, t.slots)
  {
  }

  lemma FirstDelivers(slots: Slots, g: Graph, time: seq<nat>, pid: nat)
    requires Deliverables(slots, g, time, pid) && pid < |slots| && slots[pid].Some? && slots[pid].value.messages != []
    ensures CanDeliver(g, time, pid, slots[pid].value.messages[0].cap)
  {
    hide CanDeliver;
  }

  lemma PendingIsUnborn(k: Kernels.Kernel, pages: CertificatePages, reserved: nat, pending: set<nat>, n: nat)
    requires k.Valid() && Births(k.unborn, pages.unborn, reserved, pending) && n in pending
    ensures 0 < n <= reserved
    ensures n < PROCESS_COUNT ==> n in pages.unborn && Userspace(n).HasPage() && n in k.unborn && k.processes[n].None?
  {
  }

  lemma NextIsUnborn(k: Kernels.Kernel, pages: CertificatePages, reserved: nat, pending: set<nat>, n: nat)
    requires k.Valid() && Births(k.unborn, pages.unborn, reserved, pending) && n == reserved + 1 < PROCESS_COUNT
    ensures n in pages.unborn && Userspace(n).HasPage() && n !in pending && n in k.unborn && k.processes[n].None?
  {
  }

  lemma OneBorn(inKernel: set<nat>, inPages: set<nat>, reserved: nat, pending: set<nat>, n: nat, more: nat, left: set<nat>)
    requires Births(inKernel, inPages, reserved, pending)
    requires (n in pending && more == reserved && left == pending - {n}) || (n == more == reserved + 1 && left == pending)
    ensures Births(inKernel - {n}, inPages - {n}, more, left)
  {
  }

  lemma NotGivenYet(known: seq<nat>, time: seq<nat>, cap: nat)
    requires KnownOk(known, time) && cap !in known
    ensures !GivenAt(time, cap)
  {
    hide GivenAt;
  }

  lemma AllGiven(known: seq<nat>, time: seq<nat>, caps: seq<nat>)
    requires KnownOk(known, time) && forall cap <- caps :: cap in known
    ensures forall cap <- caps :: GivenAt(time, cap)
  {
    hide GivenAt;
  }

  lemma UnbornPage(pages: CertificatePages, n: nat)
    requires pages.Valid() && n in pages.unborn && n < PAGES
    ensures PageOk(pages.Graph(), pages.time, 1, n, false)
  {
    assert PageOk(pages.Graph(), pages.time, pages.next[n], n, false);
  }

  /** Granting the export of `n` gives away no slot of a server that runs. */
  lemma ExportKeeps(g: Graph, time: seq<nat>, h: Graph, times: seq<nat>, n: nat, pid: nat, slots: Slots)
    requires Userspace(n).HasPage() && Userspace(pid).HasPage() && Deliverables(slots, g, time, pid)
    requires OthersKept(g, time, h, times, n) && NewlyGiven(time, times, Some(NewCap(Userspace(n), 0)))
    requires n == pid ==> PageOk(g, time, 1, pid, false) && pid < |slots| && slots[pid].None?
    ensures n != pid ==> SameGranted(g, time, h, times, pid)
    ensures n == pid ==> OnlyExport(h, times, pid)
    ensures Deliverables(slots, h, times, pid)
  {
    hide OthersKept, NewlyGiven, GrantedSlot, IsCap, Certifier, SlotOfCap, CanDeliver;
    if n != pid {
      OthersKeepCovered(g, time, h, times, n, pid);
      SameGrantedIsMore(g, time, h, times, pid);
      MoreGrantedDelivers(slots, g, time, h, times, pid);
    } else {
      forall i: nat | GrantedSlot(h, times, pid, i) ensures i == 0 { OnlyExportGiven(g, time, h, times, pid, i); }
    }
  }

  lemma OnlyExportGiven(g: Graph, time: seq<nat>, h: Graph, times: seq<nat>, pid: nat, i: nat)
    requires Userspace(pid).HasPage() && NewlyGiven(time, times, Some(NewCap(Userspace(pid), 0)))
    requires PageOk(g, time, 1, pid, false) && GrantedSlot(h, times, pid, i)
    ensures i == 0
  {
    hide IsCap, Certifier, SlotOfCap, LocalIndex;
    SlotOfNewCap(Userspace(pid), i);
    SlotOfNewCap(Userspace(pid), 0);
    assert GivenAt(times, NewCap(Userspace(pid), i));
    assert i > 0 ==> Unused(time, pid, i);
  }

  lemma BornDelivers(s: Ipc.System, n: nat, g: Graph, time: seq<nat>, pid: nat)
    requires Ipc.CanBear(s, n) && Deliverables(s.slots, g, time, pid)
    ensures var t := Ipc.Born(s, n);
            && Deliverables(t.slots, g, time, pid) && |t.slots| > 0 && t.unborn == s.unborn - {n}
            && (n > 0 && s.slots[0].None? ==> t.slots[0].None?)
  {
    hide CanDeliver;
  }

  /** Kernel, pages and one process that runs a `Dispatch`, the server. The other processes do what they like with the
      same system calls. */
  class World {
    const kernel: Kernels.Kernel
    const pages: CertificatePages
    /** The process number of the server. */
    const pid: nat
    var dispatch: Dispatch?
    /** The server is in a call or an observation, and has not installed the handlers made in it. */
    var busy: bool
    var served: seq<Delivery>
    /** Every capability that has been given to anybody. */
    var known: seq<nat>
    var reserved: nat
    /** Processes reserved at boot and not started yet. */
    var pending: set<nat>

    ghost function Footprint(): set<object>
      reads this
    {
      {this, kernel, kernel.processes, pages, pages.slots, pages.next} + (if dispatch == null then {} else {dispatch})
    }

    /** Which handler each capability of the server was granted for. */
    ghost function Granted(): map<nat, Handler>
      reads this, dispatch
    {
      if dispatch == null then map[] else dispatch.granted
    }

    ghost function Now(): Snapshot
      requires pages.slots.Length == SLOTS
      reads Footprint()
    {
      Snapshot(kernel.State(), kernel.current, pages.Graph(), pages.next[..], known, reserved, pending,
               dispatch != null, busy, Granted(), served)
    }

    ghost predicate KernelOk()
      reads kernel, kernel.processes
    {
      && kernel.Valid() && 0 < pid < PROCESS_COUNT
      && kernel.processes.Length == PROCESS_COUNT && kernel.processes[0].None?
    }

    /** The server, where the certificates are those of `g`. */
    ghost predicate ServerOk(g: Graph, time: seq<nat>)
      reads this, pages, pages.next, dispatch
    {
      if dispatch == null then !busy && OnlyExport(g, time, pid)
      else
        && dispatch.pages == pages && dispatch.pid == pid && (!busy ==> dispatch.newHandlers == [])
        && pid !in pages.unborn && Covered(g, time, pid, dispatch.granted)
        && pid < pages.next.Length && TableOk(dispatch.handlers, dispatch.newHandlers, dispatch.granted, pages.next[pid])
    }

    ghost predicate Valid()
      reads Footprint()
    {
      && KernelOk() && pages.Valid() && pages.slots.Length == SLOTS
      && Births(kernel.unborn, pages.unborn, reserved, pending)
      && KnownOk(known, pages.time) && ExportsFresh(known, reserved)
      && ServerOk(pages.Graph(), pages.time) && Delivered(served, Granted())
      && Deliverables(kernel.processes[..], pages.Graph(), pages.time, pid)
    }

    constructor (pid: nat)
      requires 0 < pid < PROCESS_COUNT
      ensures Valid() && fresh(Footprint()) && this.pid == pid && Now() == Boot()
    {
      hide Kernels.Kernel.Valid, CertificatePages.Valid, Births, KnownOk, ExportsFresh, OnlyExport, Deliverables;
      hide Covered, TableOk, Ipc.Initial;
      var k := new Kernels.Kernel();
      var p := new CertificatePages();
      kernel, pages := k, p;
      this.pid, dispatch, busy, served, known, reserved, pending := pid, null, false, [], [], 0, {};
      new;
      NobodyKnows(p, pid);
      NobodyRuns(k, p, pid);
      assert KernelOk() && ServerOk(pages.Graph(), pages.time);
    }

    // ---- What can happen ----

    predicate Running(p: nat)
      reads kernel, kernel.processes
    {
      kernel.InUser() && kernel.current.value == p
    }

    predicate Serving()
      reads this, kernel, kernel.processes
    {
      Running(pid) && dispatch != null && busy
    }

    /** What can happen next. Only a running process makes system calls; it hands on capabilities that exist; and only the
        server's own `Dispatch` asks for its messages and grants its slots. */
    predicate Enabled(e: Event)
      requires pages.slots.Length == SLOTS
      reads this, kernel, kernel.processes, pages.slots
    {
      match e
      case Reserve => true
      case ExportTo(n, grantee) =>
        n in pending && Userspace(n).Legal() && NewCap(Userspace(n), 0) !in known && Userspace(grantee).Legal()
      case Start(n) => n in pending
      case KernelGrant(grantee) => Userspace(grantee).Legal()
      case Schedule(_) => true
      case Spawn(caps) => kernel.InUser() && forall cap <- caps :: cap in known && AddressedTo(pages.slots[..], cap, Kernel)
      case Exit => kernel.InUser()
      case Call(cap, _, _, _, _) => kernel.InUser() && IsCap(cap)
      case Stream(cap, _, _) => kernel.InUser() && IsCap(cap)
      case Receive(_) => kernel.InUser() && (Running(pid) ==> dispatch != null && !busy)
      case Reply(_, stream) => kernel.InUser() && stream.Sensible()
      case Forward(inner, forwardee) => kernel.InUser() && inner in known && forwardee.Legal()
      case Grant(grantee, _) => kernel.InUser() && grantee.Legal() && (Running(pid) ==> Serving())
      case Begin(_) => Running(pid) && dispatch == null
      case Observe => Running(pid) && dispatch != null && !busy
      case Install => Serving()
    }

    lemma EnabledIs(e: Event)
      requires Valid()
      ensures Enabled(e) <==> Can(pid, Now(), e)
      ensures kernel.InUser() <==> InUser(Now())
      ensures kernel.InUser() ==> kernel.current == Some(kernel.current.value)
      ensures pages.slots.Length == SLOTS
      ensures |Now().next| == PAGES && |Now().system.slots| == |Now().system.traces| == PROCESS_COUNT
    {
      hide Kernels.Kernel.Valid, CertificatePages.Valid, Births, KnownOk, ExportsFresh, OnlyExport, Deliverables, Covered;
      hide TableOk, Delivered, AddressedTo, IsCap, Certifier, NewCap, Actor.Legal, Kernels.StreamReply.Sensible, ServerOk;
      SlotsOf(kernel);
      PagesOrdered(pages);
    }

    // ---- Processes ----

    /** A process number is reserved at boot. `aborted` is the panic when there are none left. */
    method Reserve() returns (aborted: bool)
      requires Valid()
      modifies this`reserved, this`pending
      ensures aborted <==> old(reserved) >= MAX_PROCESSES
      ensures !aborted ==> Valid() && reserved == old(reserved) + 1 && pending == old(pending) + {reserved}
      ensures aborted <==> Panics(pid, old(Now()), Event.Reserve)
      ensures !aborted ==> Follows(pid, old(Now()), Event.Reserve, Now())
    {
      hide Kernels.Kernel.Valid, CertificatePages.Valid, KnownOk, OnlyExport, Deliverables, Covered, TableOk, Delivered;
      hide Follows, Panics, Can;
      ghost var was := Now();
      ReservePanics(pid, was);
      if reserved >= MAX_PROCESSES {
        return true;
      }
      reserved := reserved + 1;
      pending := pending + {reserved};
      SimpleFollows(pid, was, Event.Reserve, Now());
      return false;
    }

    /** At boot, the export of a process that does not run yet is granted to another. That of number 8 lies on a page that
        nobody can read. */
    method ExportTo(n: nat, grantee: nat)
      requires Valid() && n in pending && Userspace(n).Legal() && NewCap(Userspace(n), 0) !in known
      requires Userspace(grantee).Legal()
      modifies this`known, pages`time, pages`clock, pages.slots
      ensures Valid() && Follows(pid, old(Now()), Event.ExportTo(n, grantee), Now())
    {
      hide Follows, Can;
      ghost var was, e := Now(), Event.ExportTo(n, grantee);
      EnabledIs(e);
      hide Kernels.Kernel.Valid, CertificatePages.Valid, KnownOk, ExportsFresh, OnlyExport, Deliverables, Covered;
      hide TableOk, Delivered, OthersKept, SameGranted, MoreGranted, IsGrant, NewlyGiven, GivenAt, IsCap, Certifier;
      hide LocalIndex;
      PagesOrdered(pages);
      SlotsOf(kernel);
      PendingIsUnborn(kernel, pages, reserved, pending, n);
      if n >= PROCESS_COUNT {
        ExportFollows(pid, was, n, grantee, Now());
        return;
      }
      NotGivenYet(known, pages.time, NewCap(Userspace(n), 0));
      ghost var g, time := pages.Graph(), pages.time;
      assert n == pid ==> dispatch == null;
      assert ServerOk(g, time);
      UnbornPage(pages, n);
      var cap := pages.GrantExport(n, grantee);
      PagesOrdered(pages);
      ExportKeeps(g, time, pages.Graph(), pages.time, n, pid, kernel.processes[..]);
      if n != pid {
        ServerUndisturbed(g, time, pages.Graph(), pages.time);
      }
      Learnt(known, time, pages.time, Some(cap));
      StillFresh(known, reserved, Some(cap), Userspace(n), 0);
      known := known + [cap];
      ExportFollows(pid, was, n, grantee, Now());
    }

    /** A process reserved at boot starts. `aborted` is the panic when no slot has its number. */
    method Start(n: nat) returns (aborted: bool)
      requires Valid() && n in pending
      modifies this`pending, pages`unborn, kernel`unborn, kernel.processes
      ensures aborted <==> n >= PROCESS_COUNT
      ensures aborted <==> Panics(pid, old(Now()), Event.Start(n))
      ensures !aborted ==> Valid() && Follows(pid, old(Now()), Event.Start(n), Now())
    {
      hide Follows, Panics, Can;
      ghost var was := Now();
      EnabledIs(Event.Start(n));
      StartFollows(pid, was, n, was);
      hide Kernels.Kernel.Valid, CertificatePages.Valid, KnownOk, ExportsFresh, OnlyExport, Deliverables, Covered;
      hide TableOk, Delivered, Births, Ipc.Born;
      SlotsOf(kernel);
      PendingIsUnborn(kernel, pages, reserved, pending, n);
      ghost var s := kernel.State();
      var outcome := kernel.CreateProcess(n);
      if outcome == Kernels.Aborted {
        return true;
      }
      BornDelivers(s, n, pages.Graph(), pages.time, pid);
      OneBorn(s.unborn, pages.unborn, reserved, pending, n, reserved, pending - {n});
      pages.Start(n);
      pending := pending - {n};
      StartFollows(pid, was, n, Now());
      return false;
    }

    /** What the kernel does to certificates when it starts process `n` for `sender`. */
    method HandOver(sender: nat, n: nat, caps: seq<nat>) returns (handed: bool)
      requires Valid() && Userspace(sender).Legal() && n == reserved + 1 && n in pages.unborn && Userspace(n).HasPage()
      requires kernel.processes[n].None?
      requires forall cap <- caps :: cap in known && AddressedTo(pages.Graph(), cap, Kernel)
      modifies this`known, pages`time, pages`clock, pages`unborn, pages.slots
      ensures handed <==> !exists cap :: cap in caps && !CertifiedBy(cap, Userspace(sender))
      ensures handed ==> pages.Valid() && pages.slots.Length == SLOTS && pages.unborn == old(pages.unborn) - {n}
      ensures handed ==> known == old(known) + [NewCap(Userspace(n), 0)]
      ensures handed ==> KnownOk(known, pages.time) && ExportsFresh(known, n) && ServerOk(pages.Graph(), pages.time)
      ensures handed ==> Deliverables(kernel.processes[..], pages.Graph(), pages.time, pid)
      ensures handed ==> IsHandOver(old(pages.Graph()), pages.Graph(), NewCap(Userspace(n), 0), sender, n, caps)
    {
      hide Kernels.Kernel.Valid, CertificatePages.Valid, KnownOk, OnlyExport, Deliverables, Covered, TableOk, Delivered;
      hide OthersKept, SameGranted, MoreGranted, IsHandOver, NewlyGiven, GivenAt, IsCap, Certifier, LocalIndex;
      hide Births, Ipc.Born, AddressedTo, CertifiedBy;
      PagesOrdered(pages);
      NotGivenYet(known, pages.time, NewCap(Userspace(n), 0));
      AllGiven(known, pages.time, caps);
      ghost var g, time := pages.Graph(), pages.time;
      assert n == pid ==> dispatch == null;
      assert ServerOk(g, time);
      UnbornPage(pages, n);
      var exported := pages.HandOver(sender, n, caps);
      if exported.None? {
        return false;
      }
      PagesOrdered(pages);
      ExportKeeps(g, time, pages.Graph(), pages.time, n, pid, kernel.processes[..]);
      if n != pid {
        ServerUndisturbed(g, time, pages.Graph(), pages.time);
      }
      Learnt(known, time, pages.time, exported);
      StillFresh(known, n, exported, Userspace(n), 0);
      known := Learn(known, exported);
      return true;
    }

    /** The steps of starting a process. */
    method Spawning(caps: seq<nat>) returns (aborted: bool)
      requires Valid() && kernel.InUser()
      requires forall cap <- caps :: cap in known && AddressedTo(pages.Graph(), cap, Kernel)
      modifies this`known, this`reserved, pages`time, pages`clock, pages`unborn, pages.slots, kernel`unborn, kernel.processes
      ensures aborted <==> old(reserved) + 1 >= PROCESS_COUNT
                           || exists cap :: cap in caps && !CertifiedBy(cap, Userspace(old(kernel.current.value)))
      ensures !aborted ==> Valid() && reserved == old(reserved) + 1 && 0 < reserved < PROCESS_COUNT
      ensures !aborted ==> known == old(known) + [NewCap(Userspace(reserved), 0)]
      ensures !aborted ==>
                Ipc.CanBear(old(kernel.State()), reserved) && kernel.State() == Ipc.Born(old(kernel.State()), reserved)
      ensures !aborted ==> IsHandOver(old(pages.Graph()), pages.Graph(), NewCap(Userspace(reserved), 0),
                                      kernel.current.value, reserved, caps)
    {
      hide Kernels.Kernel.Valid, CertificatePages.Valid, KnownOk, ExportsFresh, OnlyExport, Deliverables, Covered;
      hide TableOk, Delivered, IsHandOver, IsCap, Certifier, Births, Ipc.Born, AddressedTo, CertifiedBy;
      var q, n := kernel.current.value, reserved + 1;
      if n >= PROCESS_COUNT {
        return true;
      }
      SlotsOf(kernel);
      RunnerHasPage(kernel.unborn, pages.unborn, reserved, pending, q);
      NextIsUnborn(kernel, pages, reserved, pending, n);
      ghost var s := kernel.State();
      var handed := HandOver(q, n, caps);
      if !handed {
        return true;
      }
      var outcome := kernel.CreateProcess(n);
      if outcome == Kernels.Aborted {
        return true;
      }
      BornDelivers(s, n, pages.Graph(), pages.time, pid);
      OneBorn(s.unborn, old(pages.unborn), reserved, pending, n, n, pending);
      reserved := n;
      return false;
    }

    /** The running process has the kernel start a new one with `caps` among its arguments, made out to the kernel.
        `aborted` is the panic when there is no number or no slot left or an argument is not certified by the caller. */
    method Spawn(caps: seq<nat>) returns (aborted: bool)
      requires Valid() && kernel.InUser()
      requires forall cap <- caps :: cap in known && AddressedTo(pages.Graph(), cap, Kernel)
      modifies this`known, this`reserved, pages`time, pages`clock, pages`unborn, pages.slots, kernel`unborn, kernel.processes
      ensures aborted <==> Panics(pid, old(Now()), Event.Spawn(caps))
      ensures !aborted ==> Valid() && Follows(pid, old(Now()), Event.Spawn(caps), Now())
    {
      hide Valid, Follows, Panics, Can, AddressedTo, CertifiedBy, IsHandOver, Ipc.Born, Ipc.CanBear, NewCap;
      EnabledIs(Event.Spawn(caps));
      ghost var was := Now();
      SpawnPanics(pid, was, caps);
      aborted := Spawning(caps);
      if !aborted {
        SimpleFollows(pid, was, Event.Spawn(caps), Now());
      }
    }

    // ---- System calls of any process ----

    /** The running process exits, or is killed. */
    method Exit()
      requires Valid() && kernel.InUser()
      modifies kernel.processes
      ensures Valid() && Follows(pid, old(Now()), Event.Exit, Now())
    {
      hide Follows, Can;
      ghost var was := Now();
      EnabledIs(Event.Exit);
      hide Kernels.Kernel.Valid, CertificatePages.Valid, Births, KnownOk, ExportsFresh, OnlyExport, Deliverables;
      hide Covered, TableOk, NoNews, Delivered;
      SlotsOf(kernel);
      ghost var s, p := kernel.State(), kernel.Current();
      kernel.Exit();
      StoppedIsNoNews(s, kernel.current.value, p.messages, p.serving);
      NoNewsDelivers(s.slots, kernel.State().slots, pages.Graph(), pages.time, pid);
      SimpleFollows(pid, was, Event.Exit, Now());
    }

    /** A call on `cap`. */
    method Call(cap: nat, operation: nat, args: seq<Byte>, resultBuffer: Ipc.Buffer, kernelResult: Option<seq<Byte>>)
      returns (outcome: Kernels.Outcome, claim: Outcome)
      requires Valid() && kernel.InUser() && IsCap(cap)
      modifies kernel`traces, kernel.processes
      ensures Resolves(pages.Graph(), cap, Userspace(kernel.current.value), claim) && Kernels.Ended(claim)
      ensures outcome == Kernels.Aborted <==>
                Panics(pid, old(Now()), Event.Call(cap, operation, args, resultBuffer, kernelResult))
      ensures outcome != Kernels.Aborted ==>
                Valid() && Follows(pid, old(Now()), Event.Call(cap, operation, args, resultBuffer, kernelResult), Now())
    {
      hide Follows, Panics, Can;
      ghost var was, e := Now(), Event.Call(cap, operation, args, resultBuffer, kernelResult);
      EnabledIs(e);
      hide Kernels.Kernel.Valid, CertificatePages.Valid, Births, KnownOk, ExportsFresh, OnlyExport, Deliverables;
      hide Covered, TableOk, NoNews, Delivered, Ipc.Stopped, Ipc.Sent, IsCap, Certifier, Resolves, CanDeliver;
      hide Kernels.CallsItself, Kernels.CallsNobody;
      SlotsOf(kernel);
      PagesOrdered(pages);
      ghost var s, q := kernel.State(), kernel.current.value;
      AbortsOffPages(pages, cap, Userspace(kernel.current.value));
      claim := pages.Validate(cap, kernel.current.value);
      ClaimUsable(pages.Graph(), pages.time, cap, kernel.current.value, claim);
      outcome := kernel.IpcCall(claim, operation, args, resultBuffer, kernelResult);
      if outcome == Kernels.Yielded {
        RequestDelivers(s, kernel.State(), q, claim, Ipc.Message(if claim.Root? then claim.cap else 0, operation, args, q),
                        Ipc.Reply(resultBuffer), pages.Graph(), pages.time, pid);
      }
      CallPanicsIff(pid, was, e, claim);
      if outcome != Kernels.Aborted {
        CallFollows(pid, was, e, claim, Now());
      }
    }

    /** The branches of a request for a stream. */
    method Streaming(cap: nat, stream: nat, kernelStream: Kernels.KernelStream)
      returns (outcome: Kernels.Outcome, claim: Outcome)
      requires Valid() && kernel.InUser() && IsCap(cap)
      modifies kernel`traces, kernel.processes
      ensures Resolves(pages.Graph(), cap, Userspace(kernel.current.value), claim) && Kernels.Ended(claim)
      ensures outcome != Kernels.Aborted ==> Valid()
      ensures var q := kernel.current.value;
              && (outcome == Kernels.Aborted <==>
                    || claim.Aborted? || Kernels.CallsItself(claim, q) || Kernels.CallsNobody(claim, old(kernel.processes[..]))
                    || (claim.Root? && Kernels.Granter(claim) == Kernel && kernelStream == Kernels.NoStreams))
              && (outcome == Kernels.Returned <==>
                    claim.Root? && Kernels.Granter(claim) == Kernel && kernelStream == Kernels.Mapped)
              && (outcome == Kernels.Returned ==> kernel.State() == old(kernel.State()))
              && (outcome == Kernels.Yielded ==>
                    if claim.Root? && Kernels.Granter(claim).Userspace? then
                      var m := Ipc.Message(claim.cap, 1000 + stream, [], q);
                      && Ipc.CanSend(old(kernel.State()), q, Kernels.Granter(claim).pid, m)
                      && kernel.State() == Ipc.Sent(old(kernel.State()), q, Kernels.Granter(claim).pid, m, Ipc.Stream)
                    else
                      kernel.State() == Ipc.Stopped(old(kernel.State()), q, old(kernel.Current()).messages,
                                                    old(kernel.Current()).serving))
    {
      hide Kernels.Kernel.Valid, CertificatePages.Valid, Births, KnownOk, ExportsFresh, OnlyExport, Deliverables;
      hide Covered, TableOk, NoNews, Delivered, Ipc.Stopped, Ipc.Sent, Ipc.CanSend, Ipc.CanStop, IsCap, Certifier;
      hide Resolves, CanDeliver, Kernels.CallsItself, Kernels.CallsNobody;
      SlotsOf(kernel);
      PagesOrdered(pages);
      ghost var s, q := kernel.State(), kernel.current.value;
      AbortsOffPages(pages, cap, Userspace(kernel.current.value));
      claim := pages.Validate(cap, kernel.current.value);
      ClaimUsable(pages.Graph(), pages.time, cap, kernel.current.value, claim);
      outcome := kernel.IpcStream(claim, stream, kernelStream);
      if outcome == Kernels.Yielded {
        RequestDelivers(s, kernel.State(), q, claim, Ipc.Message(if claim.Root? then claim.cap else 0, 1000 + stream, [], q),
                        Ipc.Stream, pages.Graph(), pages.time, pid);
      }
    }

    /** A request for a stream on `cap`. */
    method Stream(cap: nat, stream: nat, kernelStream: Kernels.KernelStream)
      returns (outcome: Kernels.Outcome, claim: Outcome)
      requires Valid() && kernel.InUser() && IsCap(cap)
      modifies kernel`traces, kernel.processes
      ensures outcome == Kernels.Aborted <==> Panics(pid, old(Now()), Event.Stream(cap, stream, kernelStream))
      ensures outcome != Kernels.Aborted ==>
                Valid() && Follows(pid, old(Now()), Event.Stream(cap, stream, kernelStream), Now())
    {
      hide Valid, Follows, Panics, Can, IsCap, Certifier, Resolves, Ipc.Sent, Ipc.CanSend, Kernels.CallsItself;
      hide Kernels.CallsNobody;
      ghost var e := Event.Stream(cap, stream, kernelStream);
      EnabledIs(e);
      ghost var was := Now();
      outcome, claim := Streaming(cap, stream, kernelStream);
      StreamPanicsIff(pid, was, e, claim);
      if outcome != Kernels.Aborted {
        StreamFollows(pid, was, e, claim, Now());
      }
    }

    /** A reply of the running process. */
    method Reply(result: seq<Byte>, stream: Kernels.StreamReply) returns (outcome: Kernels.Outcome)
      requires Valid() && kernel.InUser() && stream.Sensible()
      modifies kernel`traces, kernel.processes
      ensures Kernels.IsReply(old(kernel.State()), kernel.current.value, result, stream, outcome, kernel.State())
      ensures outcome == Kernels.Aborted <==> Panics(pid, old(Now()), Event.Reply(result, stream))
      ensures outcome != Kernels.Aborted ==> Valid() && Follows(pid, old(Now()), Event.Reply(result, stream), Now())
    {
      hide Follows, Panics, Can;
      ghost var was, e := Now(), Event.Reply(result, stream);
      EnabledIs(e);
      hide Kernels.Kernel.Valid, CertificatePages.Valid, Births, KnownOk, ExportsFresh, OnlyExport, Deliverables;
      hide Covered, TableOk, NoNews, Delivered, Kernels.IsReply;
      SlotsOf(kernel);
      ghost var s := kernel.State();
      outcome := kernel.IpcReply(result, stream);
      if outcome != Kernels.Aborted {
        ReplyIsNoNews(s, kernel.current.value, result, stream, outcome, kernel.State());
        NoNewsDelivers(s.slots, kernel.State().slots, pages.Graph(), pages.time, pid);
      }
      ReplyFollows(pid, was, e, outcome, Now());
    }

    /** The next process that can be resumed runs; with none the machine is shut down. */
    method Schedule(room: set<nat>) returns (next: Option<nat>, aborted: bool)
      requires Valid()
      modifies kernel`current, kernel`traces, kernel.processes
      ensures aborted <==> Panics(pid, old(Now()), Event.Schedule(room))
      ensures next.None? <==> ShutsDown(old(Now()), Event.Schedule(room))
      ensures next.None? ==> !aborted
      ensures !aborted ==> Valid()
      ensures !aborted && next.Some? ==> Follows(pid, old(Now()), Event.Schedule(room), Now()) && kernel.current == next
    {
      hide Kernels.Kernel.Valid, CertificatePages.Valid, Births, KnownOk, ExportsFresh, OnlyExport, Deliverables;
      hide Covered, TableOk, NoNews, Delivered, Kernels.IsSchedule, Kernels.IsResumed, Kernels.Resumable;
      hide Kernels.DueStream, Kernels.QueueKept, Follows, Panics, Can, ShutsDown, IsNext;
      ghost var was := Now();
      SlotsOf(kernel);
      ghost var s := kernel.State();
      next, aborted := kernel.Schedule(room);
      if !aborted {
        SlotsOf(kernel);
        QueuesKeptIsNoNews(s.slots, kernel.State().slots);
        NoNewsDelivers(s.slots, kernel.State().slots, pages.Graph(), pages.time, pid);
      }
      if next.None? {
        ScheduleEnds(pid, was, room);
      } else {
        ResumedIsNext(was, next.value);
        ScheduleFollows(pid, was, room, next.value, Now());
      }
    }

    // ---- What processes do with certificates ----

    /** The server, after a step that gave and took none of its slots. */
    lemma ServerUndisturbed(g: Graph, time: seq<nat>, h: Graph, times: seq<nat>)
      requires ServerOk(g, time) && SameGranted(g, time, h, times, pid)
      ensures ServerOk(h, times)
    {
      hide GrantedSlot, TableOk, SameGranted, Covered, OnlyExport;
      SameGrantedIsMore(g, time, h, times, pid);
    }

    /** A grant of a process that is not the server. */
    method GrantingByOther(grantee: Actor) returns (cap: Option<nat>)
      requires Valid() && kernel.InUser() && kernel.current.value != pid && grantee.Legal()
      modifies this`known, pages`time, pages`clock, pages.slots, pages.next
      ensures Valid() && known == Learn(old(known), cap)
      ensures var q := kernel.current.value;
              && Userspace(q).HasPage() && pages.next.Length == PAGES && |old(pages.next[..])| == PAGES
              && pages.next[..] == old(pages.next[..])[q := old(pages.next[..])[q] + 1]
              && (cap.None? <==> old(pages.next[..])[q] >= SLOTS_PER_PAGE) && (cap.None? ==> pages.Graph() == old(pages.Graph()))
              && (cap.Some? ==>
                    && cap.value == NewCap(Userspace(q), old(pages.next[..])[q])
                    && IsGrant(old(pages.Graph()), pages.Graph(), cap.value, Userspace(q), grantee))
    {
      hide Kernels.Kernel.Valid, CertificatePages.Valid, Births, KnownOk, ExportsFresh, OnlyExport, Deliverables;
      hide Covered, TableOk, Delivered, OthersKept, SameGranted, MoreGranted, IsGrant, IsWrite, NewlyGiven;
      hide CertificatePages.Given, GrantedTo;
      var q := kernel.current.value;
      SlotsOf(kernel);
      RunnerHasPage(kernel.unborn, pages.unborn, reserved, pending, q);
      ServerHasPage(pages, q);
      PagesOrdered(pages);
      ghost var g, time, i := pages.Graph(), pages.time, pages.next[q];
      cap := pages.GrantUnhandled(q, grantee);
      PagesOrdered(pages);
      OthersKeepCovered(g, time, pages.Graph(), pages.time, q, pid);
      SameGrantedIsMore(g, time, pages.Graph(), pages.time, pid);
      MoreGrantedDelivers(kernel.processes[..], g, time, pages.Graph(), pages.time, pid);
      assert ServerOk(g, time);
      ServerUndisturbed(g, time, pages.Graph(), pages.time);
      if cap.Some? {
        CapIs(g, time, pages.Graph(), pages.time, q, i, cap.value, GrantedTo(grantee));
      }
      Learnt(known, time, pages.time, cap);
      StillFresh(known, reserved, cap, Userspace(q), if cap.Some? then i else 0);
      known := Learn(known, cap);
    }

    /** Another process than the server grants one of its own slots. */
    method GrantByOther(grantee: Actor, target: Handler) returns (cap: Option<nat>)
      requires Valid() && kernel.InUser() && kernel.current.value != pid && grantee.Legal()
      modifies this`known, pages`time, pages`clock, pages.slots, pages.next
      ensures Valid() && Follows(pid, old(Now()), Event.Grant(grantee, target), Now())
    {
      hide Valid, IsGrant, Follows, Can, Actor.Legal, NewCap, Kernels.Kernel.InUser;
      ghost var e := Event.Grant(grantee, target);
      EnabledIs(e);
      ghost var was := Now();
      cap := GrantingByOther(grantee);
      GrantFollows(pid, was, grantee, target, cap, Now());
    }

    /** The forward itself keeps everything in step. */
    method Forwarding(inner: nat, forwardee: Actor) returns (cap: Option<nat>)
      requires Valid() && kernel.InUser() && forwardee.Legal() && inner in known
      modifies this`known, pages`time, pages`clock, pages.slots, pages.next
      ensures Valid() && known == Learn(old(known), cap)
      ensures var q := kernel.current.value;
              && Userspace(q).HasPage() && pages.next.Length == PAGES && |old(pages.next[..])| == PAGES
              && pages.next[..] == old(pages.next[..])[q := old(pages.next[..])[q] + 1]
              && (cap.None? <==> old(pages.next[..])[q] >= SLOTS_PER_PAGE) && (cap.None? ==> pages.Graph() == old(pages.Graph()))
              && (cap.Some? ==>
                    && cap.value == NewCap(Userspace(q), old(pages.next[..])[q])
                    && IsForward(old(pages.Graph()), pages.Graph(), cap.value, Userspace(q), forwardee, inner))
    {
      hide Kernels.Kernel.Valid, CertificatePages.Valid, Births, KnownOk, ExportsFresh, OnlyExport, Deliverables;
      hide Covered, TableOk, Delivered, OthersKept, SameGranted, MoreGranted, IsForward, IsWrite, NewlyGiven, GivenAt;
      hide ForwardedTo, IsCap;
      var q := kernel.current.value;
      SlotsOf(kernel);
      RunnerHasPage(kernel.unborn, pages.unborn, reserved, pending, q);
      ServerHasPage(pages, q);
      PagesOrdered(pages);
      KnownIsGiven(known, pages.time, inner);
      ghost var g, time, i := pages.Graph(), pages.time, pages.next[q];
      cap := pages.Forward(q, inner, forwardee);
      PagesOrdered(pages);
      if q != pid {
        OthersKeepCovered(g, time, pages.Graph(), pages.time, q, pid);
      } else if cap.Some? {
        ForwardedUnpacks(forwardee, inner);
        ForwardSameGranted(g, time, pages.Graph(), pages.time, q, i, cap.value, ForwardedTo(forwardee, inner));
      } else {
        NothingGranted(g, time, pid);
      }
      SameGrantedIsMore(g, time, pages.Graph(), pages.time, pid);
      MoreGrantedDelivers(kernel.processes[..], g, time, pages.Graph(), pages.time, pid);
      if dispatch != null && q == pid {
        TableBound(dispatch.handlers, dispatch.newHandlers, dispatch.granted, i, i + 1);
      }
      assert ServerOk(g, time);
      ServerUndisturbed(g, time, pages.Graph(), pages.time);
      if cap.Some? {
        CapIs(g, time, pages.Graph(), pages.time, q, i, cap.value, ForwardedTo(forwardee, inner));
      }
      Learnt(known, time, pages.time, cap);
      StillFresh(known, reserved, cap, Userspace(q), if cap.Some? then i else 0);
      known := Learn(known, cap);
    }

    /** A process forwards one of the capabilities that have been given to anybody, before or after it starts to serve. */
    method Forward(inner: nat, forwardee: Actor) returns (cap: Option<nat>)
      requires Valid() && kernel.InUser() && forwardee.Legal() && inner in known
      modifies this`known, pages`time, pages`clock, pages.slots, pages.next
      ensures Valid() && Follows(pid, old(Now()), Event.Forward(inner, forwardee), Now())
    {
      hide Valid, IsForward, Follows, Can, Actor.Legal, NewCap, Kernels.Kernel.InUser;
      ghost var e := Event.Forward(inner, forwardee);
      EnabledIs(e);
      ghost var was := Now();
      cap := Forwarding(inner, forwardee);
      ForwardFollows(pid, was, inner, forwardee, cap, Now());
    }

    /** A grant of the kernel. */
    method KernelGranting(grantee: nat) returns (cap: Option<nat>)
      requires Valid() && Userspace(grantee).Legal()
      modifies this`known, pages`time, pages`clock, pages.slots, pages.next
      ensures pages.next.Length == PAGES && |old(pages.next[..])| == PAGES
      ensures cap.None? <==> old(pages.next[..])[0] >= SLOTS_PER_PAGE
      ensures cap.Some? ==>
                && Valid() && known == old(known) + [cap.value] && cap.value == NewCap(Kernel, old(pages.next[..])[0])
                && pages.next[..] == old(pages.next[..])[0 := old(pages.next[..])[0] + 1]
                && IsGrant(old(pages.Graph()), pages.Graph(), cap.value, Kernel, Userspace(grantee))
    {
      hide Kernels.Kernel.Valid, CertificatePages.Valid, Births, KnownOk, ExportsFresh, OnlyExport, Deliverables;
      hide Covered, TableOk, Delivered, OthersKept, SameGranted, MoreGranted, IsGrant, IsWrite, NewlyGiven, GrantedTo;
      hide CertificatePages.Given;
      PagesOrdered(pages);
      ghost var g, time, i := pages.Graph(), pages.time, pages.next[0];
      cap := pages.GrantKernelCapability(grantee);
      if cap.None? {
        return;
      }
      PagesOrdered(pages);
      OthersKeepCovered(g, time, pages.Graph(), pages.time, 0, pid);
      SameGrantedIsMore(g, time, pages.Graph(), pages.time, pid);
      MoreGrantedDelivers(kernel.processes[..], g, time, pages.Graph(), pages.time, pid);
      assert ServerOk(g, time);
      ServerUndisturbed(g, time, pages.Graph(), pages.time);
      WrittenAt(g, time, pages.Graph(), pages.time, Kernel, i, cap.value, GrantedTo(Userspace(grantee)));
      Learnt(known, time, pages.time, cap);
      StillFresh(known, reserved, cap, Kernel, i);
      known := Learn(known, cap);
    }

    /** The kernel grants a capability of its own. `aborted` is the panic when there is no room for its handler. */
    method KernelGrant(grantee: nat) returns (aborted: bool)
      requires Valid() && Userspace(grantee).Legal()
      modifies this`known, pages`time, pages`clock, pages.slots, pages.next
      ensures aborted <==> Panics(pid, old(Now()), Event.KernelGrant(grantee))
      ensures !aborted ==> Valid() && Follows(pid, old(Now()), Event.KernelGrant(grantee), Now())
    {
      hide Valid, IsGrant, Follows, Panics, Can, Actor.Legal, NewCap, Kernels.Kernel.InUser;
      EnabledIs(Event.KernelGrant(grantee));
      ghost var was := Now();
      KernelGrantFollows(pid, was, grantee, None, was);
      var cap := KernelGranting(grantee);
      if cap.Some? {
        KernelGrantFollows(pid, was, grantee, cap, Now());
      }
      return cap.None?;
    }

    // ---- The server ----

    /** The server starts to serve. Before, of its page only the export may have been granted. */
    method Begin(target: Handler)
      requires Valid() && kernel.InUser() && kernel.current.value == pid && dispatch == null
      modifies this`dispatch
      ensures Valid() && dispatch != null && fresh(dispatch)
      ensures Follows(pid, old(Now()), Event.Begin(target), Now())
    {
      hide Follows, Can;
      ghost var was := Now();
      EnabledIs(Event.Begin(target));
      hide Kernels.Kernel.Valid, CertificatePages.Valid, Births, KnownOk, ExportsFresh, Deliverables, Covered, TableOk;
      hide GrantedSlot;
      SlotsOf(kernel);
      RunnerHasPage(kernel.unborn, pages.unborn, reserved, pending, pid);
      ServerHasPage(pages, pid);
      dispatch := new Dispatch(pages, pid, target);
      SimpleFollows(pid, was, Event.Begin(target), Now());
    }

    /** A grant of the server, with the handler for it. */
    method Granting(grantee: Actor, target: Handler) returns (cap: Option<nat>)
      requires Valid() && kernel.InUser() && kernel.current.value == pid && dispatch != null && busy && grantee.Legal()
      modifies this`known, dispatch`newHandlers, dispatch`granted, pages`time, pages`clock, pages.slots, pages.next
      ensures Valid() && Extends(old(Granted()), Granted()) && known == Learn(old(known), cap)
      ensures Userspace(pid).HasPage() && pages.next.Length == PAGES && |old(pages.next[..])| == PAGES
      ensures pages.next[..] == old(pages.next[..])[pid := old(pages.next[..])[pid] + 1]
      ensures cap.None? <==> old(pages.next[..])[pid] >= SLOTS_PER_PAGE
      ensures cap.None? ==> pages.Graph() == old(pages.Graph())
      ensures cap.Some? ==>
                && cap.value == NewCap(Userspace(pid), old(pages.next[..])[pid])
                && IsGrant(old(pages.Graph()), pages.Graph(), cap.value, Userspace(pid), grantee)
      ensures Granted() == WithHandler(old(Granted()), cap, target)
    {
      hide Kernels.Kernel.Valid, CertificatePages.Valid, Births, KnownOk, ExportsFresh, Deliverables, Covered, TableOk;
      hide Delivered, SameGranted, IsGrant, NewlyGiven, GrantedSlot, LocalIndex, IsCap, Certifier;
      SlotsOf(kernel);
      RunnerHasPage(kernel.unborn, pages.unborn, reserved, pending, pid);
      PagesOrdered(pages);
      ghost var g, time, i, granted := pages.Graph(), pages.time, pages.next[pid], dispatch.granted;
      cap := dispatch.Grant(grantee, target);
      PagesOrdered(pages);
      MoreGrantedDelivers(kernel.processes[..], g, time, pages.Graph(), pages.time, pid);
      StillDelivered(served, granted, dispatch.granted);
      Learnt(known, time, pages.time, cap);
      StillFresh(known, reserved, cap, Userspace(pid), if cap.Some? then i else 0);
      known := Learn(known, cap);
    }

    /** The server grants one of its slots in a call or an observation. */
    method Grant(grantee: Actor, target: Handler) returns (cap: Option<nat>)
      requires Valid() && kernel.InUser() && kernel.current.value == pid && dispatch != null && busy && grantee.Legal()
      modifies this`known, dispatch`newHandlers, dispatch`granted, pages`time, pages`clock, pages.slots, pages.next
      ensures Valid() && Extends(old(Granted()), Granted()) && known == Learn(old(known), cap)
      ensures Follows(pid, old(Now()), Event.Grant(grantee, target), Now())
    {
      hide Valid, IsGrant, Follows, Can, Actor.Legal, NewCap, Extends, WithHandler, Kernels.Kernel.InUser;
      ghost var e := Event.Grant(grantee, target);
      EnabledIs(e);
      ghost var was := Now();
      cap := Granting(grantee, target);
      GrantFollows(pid, was, grantee, target, cap, Now());
    }

    /** The server looks at what it observes. */
    method Observe()
      requires Valid() && kernel.InUser() && kernel.current.value == pid && dispatch != null && !busy
      modifies this`busy
      ensures Valid() && Follows(pid, old(Now()), Event.Observe, Now())
    {
      hide Follows, Can;
      ghost var was := Now();
      EnabledIs(Event.Observe);
      hide Kernels.Kernel.Valid, CertificatePages.Valid, Births, KnownOk, ExportsFresh, Deliverables, Covered, TableOk;
      hide Delivered;
      busy := true;
      SimpleFollows(pid, was, Event.Observe, Now());
    }

    /** The end of a call or an observation. */
    method Install()
      requires Valid() && kernel.InUser() && kernel.current.value == pid && dispatch != null && busy
      modifies this`busy, dispatch`handlers, dispatch`newHandlers
      ensures Valid() && Follows(pid, old(Now()), Event.Install, Now())
    {
      hide Follows, Can;
      ghost var was := Now();
      EnabledIs(Event.Install);
      hide Kernels.Kernel.Valid, CertificatePages.Valid, Births, KnownOk, ExportsFresh, Deliverables, Covered, TableOk;
      hide Delivered;
      dispatch.Install();
      busy := false;
      SimpleFollows(pid, was, Event.Install, Now());
    }

    /** The branches of asking for a message. */
    method Receiving(room: nat) returns (message: Option<Ipc.Message>)
      requires Valid() && kernel.InUser() && (kernel.current.value == pid ==> dispatch != null && !busy)
      modifies this`busy, this`served, kernel`traces, kernel.processes
      ensures Valid()
      ensures var p := old(kernel.Current());
              if p.serving.Some? then
                message.None? && kernel.State() == Ipc.Stopped(old(kernel.State()), kernel.current.value, p.messages, p.serving)
              else if p.messages == [] then message.None? && kernel.State() == old(kernel.State())
              else if |p.messages[0].args| > room then
                message.None? && kernel.State() == Ipc.Stopped(old(kernel.State()), kernel.current.value, p.messages[1..], None)
              else
                && message == Some(p.messages[0]) && Ipc.CanTake(old(kernel.State()), kernel.current.value)
                && kernel.State() == Ipc.Taken(old(kernel.State()), kernel.current.value)
      ensures message.Some? && kernel.current.value == pid ==>
                && busy && LocalIndex(message.value.cap) in Granted()
                && served == old(served) + [Delivery(message.value.cap, Granted()[LocalIndex(message.value.cap)])]
      ensures message.None? || kernel.current.value != pid ==> served == old(served) && busy == old(busy)
    {
      hide Kernels.Kernel.Valid, CertificatePages.Valid, Births, KnownOk, ExportsFresh, Covered, TableOk, OnlyExport;
      hide Delivered, NoNews, Ipc.Stopped, Ipc.Taken, Ipc.CanStop, LocalIndex, CanDeliver, Deliverables;
      SlotsOf(kernel);
      ghost var s, q, p := kernel.State(), kernel.current.value, kernel.Current();
      var outcome: Kernels.Outcome;
      outcome, message := kernel.IpcReceive(room);
      ReceivedIsNoNews(s, q, kernel.State());
      NoNewsDelivers(s.slots, kernel.State().slots, pages.Graph(), pages.time, pid);
      if outcome != Kernels.Returned {
        return None;
      }
      if message.Some? && kernel.current.value == pid {
        FirstDelivers(s.slots, pages.Graph(), pages.time, pid);
        var handler := dispatch.FindHandler(message.value.cap);
        OneMoreDelivered(served, Granted(), message.value.cap, handler);
        served := served + [Delivery(message.value.cap, handler)];
        busy := true;
      }
    }

    /** Any process asks for a message; the server only when it is not in a call. A message that the server gets goes to
        its handler. */
    method Receive(room: nat) returns (message: Option<Ipc.Message>)
      requires Valid() && kernel.InUser() && (kernel.current.value == pid ==> dispatch != null && !busy)
      modifies this`busy, this`served, kernel`traces, kernel.processes
      ensures Valid() && Follows(pid, old(Now()), Event.Receive(room), Now())
      ensures message.Some? <==> && old(kernel.Current()).serving.None? && old(kernel.Current()).messages != []
                                 && |old(kernel.Current()).messages[0].args| <= room
      ensures message.Some? ==> message.value == old(kernel.Current()).messages[0]
      ensures message.Some? ==>
                && Ipc.CanTake(old(kernel.State()), kernel.current.value)
                && kernel.State() == Ipc.Taken(old(kernel.State()), kernel.current.value)
      ensures message.Some? && kernel.current.value == pid ==>
                && busy && LocalIndex(message.value.cap) in Granted()
                && served == old(served) + [Delivery(message.value.cap, Granted()[LocalIndex(message.value.cap)])]
      ensures message.None? || kernel.current.value != pid ==> served == old(served) && busy == old(busy)
    {
      hide Valid, Follows, Can, LocalIndex, Ipc.Taken, Ipc.CanTake;
      ghost var e := Event.Receive(room);
      EnabledIs(e);
      ghost var was := Now();
      message := Receiving(room);
      assert Receives(pid, was, room, Now());
      SimpleFollows(pid, was, e, Now());
    }

    /** Every call queued at the server, now and not just when its turn comes, is on a slot that the server has granted,
        with its handler in the table unless the server is about to install it. */
    lemma QueuedCallsHaveHandlers(i: nat)
      requires Valid() && dispatch != null && kernel.processes[pid].Some? && i < |kernel.processes[pid].value.messages|
      ensures var cap := kernel.processes[pid].value.messages[i].cap;
              && IsCap(cap) && Certifier(cap) == Some(Userspace(pid)) && LocalIndex(cap) in dispatch.granted
              && Has(dispatch.handlers, dispatch.newHandlers, LocalIndex(cap), dispatch.granted[LocalIndex(cap)])
              && (!busy ==> LocalIndex(cap) < |dispatch.handlers|
                            && dispatch.handlers[LocalIndex(cap)] == Some(dispatch.granted[LocalIndex(cap)]))
    {
      hide Kernels.Kernel.Valid, CertificatePages.Valid, Births, KnownOk, ExportsFresh, Delivered, GrantedSlot, IsCap;
      hide Certifier, LocalIndex;
      var cap := kernel.processes[pid].value.messages[i].cap;
      assert CanDeliver(pages.Graph(), pages.time, pid, cap);
      assert Has(dispatch.handlers, dispatch.newHandlers, LocalIndex(cap), dispatch.granted[LocalIndex(cap)]);
    }

    // ---- Runs ----

    /** What the kernel does at boot, for a new process and in its scheduler. */
    method KernelStep(e: Event) returns (ending: Ending)
      requires Valid() && Enabled(e) && e.OfKernel()
      modifies Footprint()
      ensures ending == Panic <==> Panics(pid, old(Now()), e)
      ensures ending == ShutDown <==> ShutsDown(old(Now()), e)
      ensures ending == GoesOn ==> Valid() && fresh(Footprint() - old(Footprint())) && Follows(pid, old(Now()), e, Now())
      ensures ending == GoesOn ==> Extends(old(Granted()), Granted()) && old(served) <= served
    {
      hide Valid, IsCap, AddressedTo, Actor.Legal, NewCap, Kernels.StreamReply.Sensible, Follows, Panics, Kernels.IsReply;
      hide Resolves, ShutsDown;
      EnabledIs(e);
      NeverPanics(pid, Now(), e);
      var aborted := false;
      match e {
        case Reserve => aborted := Reserve();
        case ExportTo(n, grantee) => ExportTo(n, grantee);
        case Start(n) => aborted := Start(n);
        case KernelGrant(grantee) => aborted := KernelGrant(grantee);
        case Spawn(caps) => aborted := Spawn(caps);
        case Schedule(room) =>
          var next;
          next, aborted := Schedule(room);
          if next.None? { return ShutDown; }
      }
      return if aborted then Panic else GoesOn;
    }

    /** What the running process does. */
    method ProcessStep(e: Event) returns (ending: Ending)
      requires Valid() && Enabled(e) && !e.OfKernel()
      modifies Footprint()
      ensures ending == Panic <==> Panics(pid, old(Now()), e)
      ensures ending == ShutDown <==> ShutsDown(old(Now()), e)
      ensures ending == GoesOn ==> Valid() && fresh(Footprint() - old(Footprint())) && Follows(pid, old(Now()), e, Now())
      ensures ending == GoesOn ==> Extends(old(Granted()), Granted()) && old(served) <= served
    {
      hide Valid, IsCap, AddressedTo, Actor.Legal, NewCap, Kernels.StreamReply.Sensible, Follows, Panics, Kernels.IsReply;
      hide Resolves, ShutsDown;
      EnabledIs(e);
      NeverPanics(pid, Now(), e);
      var outcome, claim, cap := Kernels.Returned, Rejected, None;
      match e {
        case Exit => Exit();
        case Call(cap, operation, args, resultBuffer, kernelResult) =>
          outcome, claim := Call(cap, operation, args, resultBuffer, kernelResult);
        case Stream(cap, stream, kernelStream) => outcome, claim := Stream(cap, stream, kernelStream);
        case Receive(room) => var message := Receive(room);
        case Reply(result, stream) => outcome := Reply(result, stream);
        case Forward(inner, forwardee) => cap := Forward(inner, forwardee);
        case Grant(grantee, target) =>
          if kernel.current.value == pid { cap := Grant(grantee, target); } else { cap := GrantByOther(grantee, target); }
        case Begin(target) => Begin(target);
        case Observe => Observe();
        case Install => Install();
      }
      return if outcome == Kernels.Aborted then Panic else GoesOn;
    }

    method Step(e: Event) returns (ending: Ending)
      requires Valid() && Enabled(e)
      modifies Footprint()
      ensures ending == Panic <==> Panics(pid, old(Now()), e)
      ensures ending == ShutDown <==> ShutsDown(old(Now()), e)
      ensures ending == GoesOn ==> Valid() && fresh(Footprint() - old(Footprint())) && Follows(pid, old(Now()), e, Now())
      ensures ending == GoesOn ==> Extends(old(Granted()), Granted()) && old(served) <= served
    {
      hide Valid, IsCap, AddressedTo, Actor.Legal, NewCap, Kernels.StreamReply.Sensible, Follows, Panics, Kernels.IsReply;
      hide Resolves, ShutsDown;
      if e.OfKernel() { ending := KernelStep(e); } else { ending := ProcessStep(e); }
    }
  }

  /** Any run from boot on, until the kernel panics, the machine is shut down or the events are used up. An event that cannot
      happen is passed over. `run` is what there is after each event. */
  method Replay(pid: nat, events: seq<Event>) returns (w: World, ending: Ending, ghost run: seq<Snapshot>)
    requires 0 < pid < PROCESS_COUNT
    ensures w.pid == pid && IsRun(pid, run, events, ending)
    ensures forall i :: 0 <= i < |run| ==> Serves(pid, run[i])
    ensures ending == GoesOn ==> w.Valid() && w.Now() == run[|events|]
  {
    hide World.Enabled, World.KernelOk, World.ServerOk, Births, KnownOk, ExportsFresh, Deliverables, Delivered, Extends;
    hide CertificatePages.Valid, GoesTo, Follows, Panics, ShutsDown, Can, Serves;
    w := new World(pid);
    run := [w.Now()];
    ending := GoesOn;
    for i := 0 to |events|
      invariant w.Valid() && w.pid == pid && fresh(w.Footprint())
      invariant |run| == i + 1 && run[0] == Boot() && run[i] == w.Now()
      invariant forall j :: 0 <= j < i ==> GoesTo(pid, run[j], events[j], run[j + 1])
    {
      w.EnabledIs(events[i]);
      if w.Enabled(events[i]) {
        ghost var was := w.Now();
        ending := w.Step(events[i]);
        if ending != GoesOn {
          EndIs(pid, was, events[i], ending);
          AllServe(pid, run, events, ending);
          return;
        }
        StepIs(pid, was, events[i], w.Now());
      } else {
        PassedOver(pid, w.Now(), events[i]);
      }
      run := run + [w.Now()];
    }
    ending := GoesOn;
    AllServe(pid, run, events, ending);
  }
}
