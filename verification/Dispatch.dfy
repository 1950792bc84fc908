/** The user side of calls: a server keeps a table of handlers, one for each capability it has granted. */
module Dispatching {
  import opened Actors
  import opened Capabilities
  import opened Delegation
  import opened Options

  /** A handler stands for the object it was made with. */
  type Handler = nat

  datatype HandlerEntry = HandlerEntry(localIndex: nat, handler: Handler)

  /** Slot `i` of the page of `pid` has been given away as a grant. */
  ghost predicate GrantedSlot(g: Graph, time: seq<nat>, pid: nat, i: nat) {
    && pid < PAGES && i < SLOTS_PER_PAGE && |time| == SLOTS
    && time[pid * SLOTS_PER_PAGE + i] > 0 && GrantedAt(g, pid * SLOTS_PER_PAGE + i)
  }

  /** `cap` may be delivered to `pid`: it is a slot that `pid` has given away as a grant. */
  ghost predicate CanDeliver(g: Graph, time: seq<nat>, pid: nat, cap: nat) {
    IsCap(cap) && Certifier(cap) == Some(Userspace(pid)) && GrantedSlot(g, time, pid, LocalIndex(cap))
  }

  ghost predicate Covered(g: Graph, time: seq<nat>, pid: nat, granted: map<nat, Handler>) {
    forall i: nat :: GrantedSlot(g, time, pid, i) ==> i in granted
  }

  /** The handler that belongs to slot `i` is in the table, or about to be put there. */
  ghost predicate Has(handlers: seq<Option<Handler>>, entries: seq<HandlerEntry>, i: nat, h: Handler) {
    (i < |handlers| && handlers[i] == Some(h)) || HandlerEntry(i, h) in entries
  }

  ghost predicate Belongs(granted: map<nat, Handler>, i: nat, h: Handler, bound: nat) {
    i in granted && granted[i] == h && i < bound
  }

  ghost predicate TableOk(handlers: seq<Option<Handler>>, entries: seq<HandlerEntry>, granted: map<nat, Handler>, bound: nat) {
    && |handlers| <= bound
    && (forall i <- granted :: Has(handlers, entries, i, granted[i]))
    && (forall i: nat :: i < |handlers| && handlers[i].Some? ==> Belongs(granted, i, handlers[i].value, bound))
    && (forall e <- entries :: Belongs(granted, e.localIndex, e.handler, bound))
  }

  // ---- What can be delivered ----

  /** The kernel never forwards, so no claim of a process ends in a certificate made out to the kernel. */
  lemma {:induction false} RootIsGrantedToProcess(g: Graph, time: seq<nat>, cap: nat, claimer: Actor, fuel: nat)
    requires Ordered(g, time) && IsCap(cap) && claimer != Kernel && Resolve(g, cap, claimer, fuel).Root?
    ensures var r := Resolve(g, cap, claimer, fuel).cap;
            && IsCap(r) && Meaning(g, r).Some? && Meaning(g, r).value.Granted? && Meaning(g, r).value.grantee != Kernel
    decreases fuel
  {
    hide Meaning, Certifier, Unpack, IsCap, Ordered;
    match Meaning(g, cap)
    case Some(Forwarded(_, inner)) =>
      if Certifier(cap) == Some(Kernel) {
        KernelOnlyGrants(g, time, cap);
      }
      RootIsGrantedToProcess(g, time, inner, Certifier(cap).value, fuel - 1);
    case _ =>
  }

  lemma KernelOnlyGrants(g: Graph, time: seq<nat>, cap: nat)
    requires Ordered(g, time) && IsCap(cap) && Certifier(cap) == Some(Kernel) && Meaning(g, cap).Some?
    ensures Meaning(g, cap).value.Granted?
  {
    hide Certifier, Unpack, IsCap, LinksBack;
    MeaningAt(g, cap);
    assert SlotOk(g, time, SlotOfCap(cap));
  }

  /** A capability that a process validates, and that is therefore sent to its certifier, is one of the certifier's slots
      that has been given away as a grant. */
  lemma RootIsGrantedSlot(g: Graph, time: seq<nat>, cap: nat, sender: nat, root: nat, pid: nat)
    requires Ordered(g, time) && |time| == SLOTS && IsCap(cap) && Resolves(g, cap, Userspace(sender), Root(root))
    requires IsCap(root) && Certifier(root) == Some(Userspace(pid))
    ensures GrantedSlot(g, time, pid, LocalIndex(root))
  {
    hide Meaning, Certifier, Unpack, IsCap, Resolve, LocalIndex;
    var fuel: nat :| Resolve(g, cap, Userspace(sender), fuel) == Root(root);
    RootIsGrantedToProcess(g, time, cap, Userspace(sender), fuel);
    MeaningAt(g, root);
    SlotOfCapIs(root);
    CapIsItsParts(root);
    GrantedUnpacks(Kernel);
    assert SlotOk(g, time, SlotOfCap(root));
  }

  lemma UntouchedSlots(g: Graph, time: seq<nat>, h: Graph, times: seq<nat>, pid: nat, i: nat)
    requires PageUntouched(g, time, h, times, pid)
    ensures GrantedSlot(g, time, pid, i) <==> GrantedSlot(h, times, pid, i)
  {
    hide Unpack;
    if i < SLOTS_PER_PAGE {
      assert SlotKept(g, time, h, times, pid, i);
    }
  }

  ghost predicate SameGranted(g: Graph, time: seq<nat>, h: Graph, times: seq<nat>, pid: nat) {
    forall i: nat :: GrantedSlot(g, time, pid, i) <==> GrantedSlot(h, times, pid, i)
  }

  /** What other processes and the kernel do between two steps of the server neither gives away slots of the server
      nor takes any back, so its handlers keep covering them. */
  lemma OthersKeepCovered(g: Graph, time: seq<nat>, h: Graph, times: seq<nat>, p: nat, pid: nat)
    requires OthersKept(g, time, h, times, p) && p != pid && pid < PAGES
    ensures SameGranted(g, time, h, times, pid)
    ensures forall granted :: Covered(g, time, pid, granted) <==> Covered(h, times, pid, granted)
  {
    hide GrantedSlot, SlotKept;
    forall i: nat ensures GrantedSlot(g, time, pid, i) <==> GrantedSlot(h, times, pid, i) {
      UntouchedSlots(g, time, h, times, pid, i);
    }
  }

  /** One write to the server's own page. */
  lemma OwnWrite(g: Graph, time: seq<nat>, h: Graph, times: seq<nat>, pid: nat, j: nat, cap: nat, v: Certificate, i: nat)
    requires Userspace(pid).HasPage() && IsWrite(g, time, h, times, Userspace(pid), j, cap, v)
    ensures GrantedSlot(g, time, pid, i) ==> GrantedSlot(h, times, pid, i)
    ensures GrantedSlot(h, times, pid, i) ==> GrantedSlot(g, time, pid, i) || (i == j && Unpack(v).Some? && Unpack(v).value.Granted?)
  {
    hide Unpack;
  }

  class Dispatch {
    const pages: CertificatePages
    const pid: nat
    var handlers: seq<Option<Handler>>
    /** Handlers made during the call or observation under way. */
    var newHandlers: seq<HandlerEntry>
    /** Which handler each granted slot was granted for. */
    ghost var granted: map<nat, Handler>

    ghost predicate Valid()
      reads this, pages, pages.slots, pages.next
    {
      && pages.Valid() && Userspace(pid).HasPage() && pid !in pages.unborn
      && Covered(pages.Graph(), pages.time, pid, granted)
      && TableOk(handlers, newHandlers, granted, pages.next[pid])
    }

    ghost predicate Deliverable(cap: nat)
      reads this, pages, pages.slots
    {
      pages.slots.Length == SLOTS && CanDeliver(pages.Graph(), pages.time, pid, cap)
    }

    /** Forwards made before do not matter; of the page only the export, slot 0, may be granted. */
    constructor (pages: CertificatePages, pid: nat, target: Handler)
      requires pages.Valid() && Userspace(pid).HasPage() && pid !in pages.unborn && pages.next[pid] > 0
      requires forall i: nat :: GrantedSlot(pages.Graph(), pages.time, pid, i) ==> i == 0
      ensures Valid() && this.pages == pages && this.pid == pid && newHandlers == [] && granted == map[0 := target]
    {
      this.pages, this.pid := pages, pid;
      handlers := [Some(target)];
      newHandlers := [];
      granted := map[0 := target];
    }

    /** Finds the handler of a delivered call. Its index is in the table and there is a handler there, the one that the
        capability was granted for. */
    method FindHandler(cap: nat) returns (handler: Handler)
      requires Valid() && newHandlers == [] && Deliverable(cap)
      ensures LocalIndex(cap) in granted && handler == granted[LocalIndex(cap)]
    {
      hide GrantedSlot, LocalIndex, IsCap, Certifier;
      var i := LocalIndex(cap);
      assert Has(handlers, newHandlers, i, granted[i]);
      assert i < |handlers| && handlers[i].Some?;
      return handlers[i].value;
    }

    /** `grant_to_sender` and, with `grantee` the kernel, `grant_to_kernel`. */
    method Grant(grantee: Actor, target: Handler) returns (cap: Option<nat>)
      requires Valid() && grantee.Legal()
      modifies this`newHandlers, this`granted, pages`time, pages`clock, pages.slots, pages.next
      ensures Valid()
      ensures cap.None? <==> old(pages.next[pid]) >= SLOTS_PER_PAGE
      ensures pages.next.Length == PAGES && pages.next[..] == old(pages.next[..])[pid := old(pages.next[pid]) + 1]
      ensures cap.None? ==> pages.Graph() == old(pages.Graph())
      ensures cap.None? ==> newHandlers == old(newHandlers) && granted == old(granted)
      ensures cap.Some? ==> LocalIndex(cap.value) !in old(granted) && granted == old(granted)[LocalIndex(cap.value) := target]
      ensures NewlyGiven(old(pages.time), pages.time, cap) && pages.unborn == old(pages.unborn)
      ensures cap.Some? ==> cap.value == NewCap(Userspace(pid), old(pages.next[pid])) && old(pages.next[pid]) > 0
      ensures cap.Some? ==> IsGrant(old(pages.Graph()), pages.Graph(), cap.value, Userspace(pid), grantee)
      ensures forall j: nat :: old(GrantedSlot(pages.Graph(), pages.time, pid, j)) ==> GrantedSlot(pages.Graph(), pages.time, pid, j)
    {
      hide Unpack, Certifier, IsCap, LocalIndex, GrantedSlot, Covered, TableOk, IsGrant, SlotOf, OthersKept;
      hide CertificatePages.Valid, NewlyGiven, CertificatePages.Given, IsWrite;
      PageInUse(pages, pid);
      cap := pages.GrantUnhandled(pid, grantee);
      ghost var i := old(pages.next[pid]);
      if cap.Some? {
        CapIs(old(pages.Graph()), old(pages.time), pages.Graph(), pages.time, pid, i, cap.value, GrantedTo(grantee));
        newHandlers := newHandlers + [HandlerEntry(LocalIndex(cap.value), target)];
        granted := granted[i := target];
        CoveredAfterWrite(old(pages.Graph()), old(pages.time), pages.Graph(), pages.time, pid, i, cap.value,
                          GrantedTo(grantee), old(granted), target);
        TableAfterGrant(handlers, old(newHandlers), old(granted), i, target);
      } else {
        TableBound(handlers, newHandlers, granted, i, i + 1);
      }
    }

    /** Any forward, to the sender or elsewhere. It makes no handler and needs none. */
    method Forward(inner: nat, forwardee: Actor) returns (cap: Option<nat>)
      requires Valid() && forwardee.Legal() && pages.Given(inner)
      modifies pages`time, pages`clock, pages.slots, pages.next
      ensures Valid()
      ensures cap.None? <==> old(pages.next[pid]) >= SLOTS_PER_PAGE
      ensures NewlyGiven(old(pages.time), pages.time, cap) && pages.unborn == old(pages.unborn)
      ensures cap.Some? ==> cap.value == NewCap(Userspace(pid), old(pages.next[pid])) && old(pages.next[pid]) > 0
      ensures cap.Some? ==> IsForward(old(pages.Graph()), pages.Graph(), cap.value, Userspace(pid), forwardee, inner)
      ensures forall j: nat :: old(GrantedSlot(pages.Graph(), pages.time, pid, j)) ==> GrantedSlot(pages.Graph(), pages.time, pid, j)
    {
      hide Unpack, Certifier, LocalIndex, GrantedSlot, Covered, TableOk, IsForward, SlotOf, OthersKept;
      hide CertificatePages.Valid, NewlyGiven, IsWrite;
      PageInUse(pages, pid);
      cap := pages.Forward(pid, inner, forwardee);
      ghost var i := old(pages.next[pid]);
      TableBound(handlers, newHandlers, granted, i, i + 1);
      if cap.Some? {
        ForwardedUnpacks(forwardee, inner);
        CapIs(old(pages.Graph()), old(pages.time), pages.Graph(), pages.time, pid, i, cap.value, ForwardedTo(forwardee, inner));
        CoveredAfterForward(old(pages.Graph()), old(pages.time), pages.Graph(), pages.time, pid, i, cap.value,
                            ForwardedTo(forwardee, inner), granted);
      }
    }

    /** After the server has run: the table grows to the number of slots given away, and the new handlers go in. */
    method Install()
      requires Valid()
      modifies this`handlers, this`newHandlers
      ensures Valid() && newHandlers == [] && |handlers| == pages.next[pid]
      ensures forall i: nat :: i < |handlers| ==> handlers[i] == if i in granted then Some(granted[i]) else None
    {
      hide CertificatePages.Valid, Covered, TableOk, PageOk;
      PageInUse(pages, pid);
      ghost var bound := pages.next[pid];
      TableSize(handlers, newHandlers, granted, bound);
      handlers := handlers + seq(pages.next[pid] - |handlers|, _ => None);
      TableGrown(old(handlers), handlers, newHandlers, granted, bound);
      var k := 0;
      while k < |newHandlers|
        invariant k <= |newHandlers| && |handlers| == bound
        invariant TableOk(handlers, newHandlers[k..], granted, bound)
      {
        EntryInRange(handlers, newHandlers[k..], granted, bound);
        ghost var before := handlers;
        handlers := handlers[newHandlers[k].localIndex := Some(newHandlers[k].handler)];
        assert newHandlers[k..][1..] == newHandlers[k + 1..];
        EntryInstalled(before, newHandlers[k..], granted, bound);
        k := k + 1;
      }
      assert newHandlers[k..] == [];
      newHandlers := [];
      TableComplete(handlers, granted, bound);
    }
  }

  // ---- Changes of the table ----

  lemma PageInUse(pages: CertificatePages, pid: nat)
    requires pages.Valid() && 0 < pid < PAGES
    ensures pages.next.Length == PAGES && pages.next[pid] > 0 && pages.slots.Length == SLOTS
  {
    assert PageOk(pages.Graph(), pages.time, pages.next[pid], pid, pid !in pages.unborn);
  }

  lemma CapIs(g: Graph, time: seq<nat>, h: Graph, times: seq<nat>, pid: nat, i: nat, cap: nat, v: Certificate)
    requires IsWrite(g, time, h, times, Userspace(pid), i, cap, v)
    ensures LocalIndex(cap) == i && cap == NewCap(Userspace(pid), i)
  {
    CapRoundTrip(Userspace(pid), i);
  }

  lemma CoveredAfterWrite(g: Graph, time: seq<nat>, h: Graph, times: seq<nat>, pid: nat, i: nat, cap: nat, v: Certificate,
                          granted: map<nat, Handler>, target: Handler)
    requires Userspace(pid).HasPage() && IsWrite(g, time, h, times, Userspace(pid), i, cap, v) && Covered(g, time, pid, granted)
    ensures Covered(h, times, pid, granted[i := target])
    ensures forall j: nat :: GrantedSlot(g, time, pid, j) ==> GrantedSlot(h, times, pid, j)
  {
    hide GrantedSlot, IsWrite, Unpack;
    forall j: nat
      ensures GrantedSlot(g, time, pid, j) ==> GrantedSlot(h, times, pid, j)
      ensures GrantedSlot(h, times, pid, j) ==> j in granted[i := target]
    {
      OwnWrite(g, time, h, times, pid, i, cap, v, j);
    }
  }

  lemma CoveredAfterForward(g: Graph, time: seq<nat>, h: Graph, times: seq<nat>, pid: nat, i: nat, cap: nat, v: Certificate,
                            granted: map<nat, Handler>)
    requires Userspace(pid).HasPage() && IsWrite(g, time, h, times, Userspace(pid), i, cap, v) && Covered(g, time, pid, granted)
    requires Unpack(v).Some? && Unpack(v).value.Forwarded?
    ensures Covered(h, times, pid, granted)
    ensures forall j: nat :: GrantedSlot(g, time, pid, j) ==> GrantedSlot(h, times, pid, j)
  {
    hide GrantedSlot, IsWrite, Unpack;
    forall j: nat
      ensures GrantedSlot(g, time, pid, j) ==> GrantedSlot(h, times, pid, j)
      ensures GrantedSlot(h, times, pid, j) ==> j in granted
    {
      OwnWrite(g, time, h, times, pid, i, cap, v, j);
    }
  }

  lemma TableBound(handlers: seq<Option<Handler>>, entries: seq<HandlerEntry>, granted: map<nat, Handler>, bound: nat, more: nat)
    requires TableOk(handlers, entries, granted, bound) && bound <= more
    ensures TableOk(handlers, entries, granted, more)
  {
    hide Has;
    forall i: nat | i < |handlers| && handlers[i].Some? ensures Belongs(granted, i, handlers[i].value, more) {
      assert Belongs(granted, i, handlers[i].value, bound);
    }
  }

  lemma TableAfterGrant(handlers: seq<Option<Handler>>, entries: seq<HandlerEntry>, granted: map<nat, Handler>, i: nat,
                        target: Handler)
    requires TableOk(handlers, entries, granted, i)
    ensures i !in granted && TableOk(handlers, entries + [HandlerEntry(i, target)], granted[i := target], i + 1)
  {
    var now, more := granted[i := target], entries + [HandlerEntry(i, target)];
    NotYetGranted(handlers, entries, granted, i);
    forall j <- now ensures Has(handlers, more, j, now[j]) {
      assert j != i ==> Has(handlers, entries, j, granted[j]);
      assert more[|entries|] == HandlerEntry(i, target);
    }
    forall j: nat | j < |handlers| && handlers[j].Some? ensures Belongs(now, j, handlers[j].value, i + 1) {
      assert Belongs(granted, j, handlers[j].value, i);
    }
  }

  lemma NotYetGranted(handlers: seq<Option<Handler>>, entries: seq<HandlerEntry>, granted: map<nat, Handler>, i: nat)
    requires TableOk(handlers, entries, granted, i)
    ensures i !in granted
  {
    forall j <- granted ensures j < i {
      assert Has(handlers, entries, j, granted[j]);
    }
  }

  lemma TableSize(handlers: seq<Option<Handler>>, entries: seq<HandlerEntry>, granted: map<nat, Handler>, bound: nat)
    requires TableOk(handlers, entries, granted, bound)
    ensures |handlers| <= bound
  {
  }

  lemma TableGrown(handlers: seq<Option<Handler>>, grown: seq<Option<Handler>>, entries: seq<HandlerEntry>,
                   granted: map<nat, Handler>, bound: nat)
    requires TableOk(handlers, entries, granted, bound) && handlers <= grown && |grown| == bound
    requires forall i :: |handlers| <= i < bound ==> grown[i].None?
    ensures TableOk(grown, entries, granted, bound) && entries == entries[0..]
  {
    forall i <- granted ensures Has(grown, entries, i, granted[i]) {
      assert Has(handlers, entries, i, granted[i]);
    }
  }

  lemma EntryInRange(handlers: seq<Option<Handler>>, entries: seq<HandlerEntry>, granted: map<nat, Handler>, bound: nat)
    requires TableOk(handlers, entries, granted, bound) && entries != []
    ensures entries[0].localIndex < bound
  {
  }

  lemma EntryInstalled(handlers: seq<Option<Handler>>, entries: seq<HandlerEntry>, granted: map<nat, Handler>, bound: nat)
    requires TableOk(handlers, entries, granted, bound) && entries != [] && entries[0].localIndex < |handlers|
    ensures TableOk(handlers[entries[0].localIndex := Some(entries[0].handler)], entries[1..], granted, bound)
  {
    var after, e := handlers[entries[0].localIndex := Some(entries[0].handler)], entries[0];
    assert Belongs(granted, e.localIndex, e.handler, bound);
    forall i <- granted ensures Has(after, entries[1..], i, granted[i]) {
      assert Has(handlers, entries, i, granted[i]);
    }
  }

  lemma TableComplete(handlers: seq<Option<Handler>>, granted: map<nat, Handler>, bound: nat)
    requires TableOk(handlers, [], granted, bound)
    ensures forall i: nat :: i < |handlers| ==> handlers[i] == if i in granted then Some(granted[i]) else None
  {
    forall i: nat | i < |handlers| ensures handlers[i] == if i in granted then Some(granted[i]) else None {
      if i in granted { assert Has(handlers, [], i, granted[i]); }
    }
  }
}
