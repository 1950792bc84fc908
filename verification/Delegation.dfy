/** Certificates over time: what grants, forwards and hand-offs to new processes do to claims. */
module Delegation {
  import opened Actors
  import opened Capabilities
  import opened Options

  function SlotOfCap(cap: nat): (s: nat)
    requires IsCap(cap) && Certifier(cap).Some?
    ensures s < SLOTS
  {
    CapIsItsParts(cap);
    CapRoundTrip(Certifier(cap).value, LocalIndex(cap));
    SlotOf(Certifier(cap).value, LocalIndex(cap))
  }

  lemma SlotIdentifiesCap(a: nat, b: nat)
    requires IsCap(a) && IsCap(b) && Certifier(a).Some? && Certifier(b).Some? && SlotOfCap(a) == SlotOfCap(b)
    ensures a == b
  {
    hide Certifier, LocalIndex, IsCap;
    CapIsItsParts(a);
    CapIsItsParts(b);
    assert Certifier(a).value.Code() == Certifier(b).value.Code();
  }

  // ---- An order on certificates that links follow backwards ----

  /** `time` says when a slot was first given away, 0 for never. A forwarded certificate names one given away before it;
      the kernel only grants. */
  ghost predicate SlotOk(g: Graph, time: seq<nat>, s: nat) {
    && |time| == SLOTS && s < SLOTS && Unpack(g[s]).Some?
    && (Unpack(g[s]).value.Forwarded? ==> LinksBack(time, Unpack(g[s]).value.inner, s))
    && (time[s] == 0 ==> g[s] == ZERO)
    && (s < SLOTS_PER_PAGE ==> Unpack(g[s]).value.Granted?)
  }

  ghost predicate LinksBack(time: seq<nat>, inner: nat, s: nat) {
    |time| == SLOTS && s < SLOTS && IsCap(inner) && Certifier(inner).Some? && 0 < time[SlotOfCap(inner)] < time[s]
  }

  ghost predicate Ordered(g: Graph, time: seq<nat>) {
    forall s: nat :: s < SLOTS ==> SlotOk(g, time, s)
  }

  lemma MeaningAt(g: Graph, cap: nat)
    requires IsCap(cap) && Certifier(cap).Some?
    ensures Meaning(g, cap) == Unpack(g[SlotOfCap(cap)])
  {
  }

  /** In such an order a claim on a process's or the kernel's page always ends, and does not panic. */
  lemma {:induction false} OrderedEnds(g: Graph, time: seq<nat>, cap: nat, claimer: Actor)
    requires Ordered(g, time) && IsCap(cap) && Certifier(cap).Some? && |time| == SLOTS
    ensures Resolve(g, cap, claimer, time[SlotOfCap(cap)] + 1).Root? || Resolve(g, cap, claimer, time[SlotOfCap(cap)] + 1).Rejected?
    decreases time[SlotOfCap(cap)]
  {
    hide Meaning, Certifier, SlotOfCap, IsCap, Unpack, Ordered;
    var s := SlotOfCap(cap);
    MeaningAt(g, cap);
    assert SlotOk(g, time, s) by { OrderedAt(g, time, s); }
    match Unpack(g[s])
    case Some(Forwarded(forwardee, inner)) =>
      OrderedEnds(g, time, inner, Certifier(cap).value);
      MoreFuel(g, inner, Certifier(cap).value, time[SlotOfCap(inner)] + 1, time[s]);
    case _ =>
  }

  lemma OrderedAt(g: Graph, time: seq<nat>, s: nat)
    requires Ordered(g, time) && s < SLOTS
    ensures SlotOk(g, time, s)
  {
  }

  // ---- Writing to a slot ----

  ghost predicate SameOutcome(g: Graph, cap: nat, claimer: Actor, h: Graph, cap': nat, claimer': Actor)
    requires IsCap(cap) && IsCap(cap')
  {
    forall o :: Resolves(g, cap, claimer, o) <==> Resolves(h, cap', claimer', o)
  }

  lemma SameFromEveryFuel(g: Graph, cap: nat, claimer: Actor, h: Graph, cap': nat, claimer': Actor, n: nat)
    requires IsCap(cap) && IsCap(cap')
    requires forall fuel: nat :: Resolve(h, cap', claimer', fuel + n) == Resolve(g, cap, claimer, fuel)
    ensures SameOutcome(g, cap, claimer, h, cap', claimer')
  {
    hide Resolve;
    forall o ensures Resolves(g, cap, claimer, o) <==> Resolves(h, cap', claimer', o) {
      if Resolves(g, cap, claimer, o) {
        var fuel: nat :| Resolve(g, cap, claimer, fuel) == o;
        assert Resolve(h, cap', claimer', fuel + n) == o;
      }
      if Resolves(h, cap', claimer', o) {
        var fuel: nat :| Resolve(h, cap', claimer', fuel) == o;
        MoreFuel(h, cap', claimer', fuel, fuel + n);
        assert Resolve(g, cap, claimer, fuel) == o;
      }
    }
  }

  lemma SameOutcomeChains(g: Graph, cap: nat, claimer: Actor, h: Graph, cap': nat, claimer': Actor,
                          k: Graph, cap'': nat, claimer'': Actor)
    requires IsCap(cap) && IsCap(cap') && IsCap(cap'')
    requires SameOutcome(g, cap, claimer, h, cap', claimer') && SameOutcome(h, cap', claimer', k, cap'', claimer'')
    ensures SameOutcome(g, cap, claimer, k, cap'', claimer'')
  {
    hide Resolves;
  }

  /** A slot that no certificate names matters only to a claim on that slot itself. */
  lemma {:induction false} UnlinkedSlot(g: Graph, time: seq<nat>, x: nat, v: Certificate, cap: nat, claimer: Actor, fuel: nat)
    requires Ordered(g, time) && |time| == SLOTS && x < SLOTS && time[x] == 0
    requires IsCap(cap) && (Certifier(cap).Some? ==> SlotOfCap(cap) != x)
    ensures Resolve(g[x := v], cap, claimer, fuel) == Resolve(g, cap, claimer, fuel)
    decreases fuel
  {
    hide Certifier, SlotOfCap, IsCap, Unpack, Ordered, Meaning;
    if fuel > 0 && Meaning(g, cap).Some? {
      var s := SlotOfCap(cap);
      MeaningAt(g, cap);
      MeaningAt(g[x := v], cap);
      assert SlotOk(g, time, s) by { OrderedAt(g, time, s); }
      match Unpack(g[s])
      case Some(Forwarded(forwardee, inner)) =>
        UnlinkedSlot(g, time, x, v, inner, Certifier(cap).value, fuel - 1);
      case _ =>
    } else {
      NoMeaning(g, x, v, cap);
    }
  }

  lemma NoMeaning(g: Graph, x: nat, v: Certificate, cap: nat)
    requires x < SLOTS && IsCap(cap) && (Certifier(cap).Some? ==> SlotOfCap(cap) != x)
    ensures Meaning(g, cap).None? ==> Meaning(g[x := v], cap).None?
  {
    hide Unpack, Certifier;
    if Certifier(cap).Some? {
      MeaningAt(g, cap);
      MeaningAt(g[x := v], cap);
    }
  }

  // ---- Replacing the recipient of a certificate ----

  function Recipient(u: Unpacked): Actor {
    match u
    case Granted(grantee) => grantee
    case Forwarded(forwardee, _) => forwardee
  }

  /** `actor` has forwarded nothing. */
  ghost predicate Quiet(g: Graph, actor: Actor)
    requires actor.HasPage()
  {
    forall i: nat :: i < SLOTS_PER_PAGE ==> GrantedAt(g, SlotOf(actor, i))
  }

  ghost predicate GrantedAt(g: Graph, s: nat) {
    s < SLOTS && Unpack(g[s]).Some? && Unpack(g[s]).value.Granted?
  }

  lemma QuietForwardsNothing(g: Graph, actor: Actor, cap: nat)
    requires actor.HasPage() && Quiet(g, actor) && IsCap(cap) && Certifier(cap) == Some(actor)
    ensures Meaning(g, cap).Some? && Meaning(g, cap).value.Granted?
  {
    hide Certifier, Unpack, IsCap;
    MeaningAt(g, cap);
    assert GrantedAt(g, SlotOf(actor, LocalIndex(cap)));
  }

  /** `h` is `g` with the recipient of `x`, which was the kernel or `n`, replaced by `n`. */
  ghost predicate Readdressed(g: Graph, h: Graph, x: nat, n: Actor)
    requires n.HasPage()
  {
    && IsCap(x) && Certifier(x).Some? && Unpack(g[SlotOfCap(x)]).Some?
    && (Recipient(Unpack(g[SlotOfCap(x)]).value) == Kernel || Recipient(Unpack(g[SlotOfCap(x)]).value) == n)
    && h == g[SlotOfCap(x) := ReplaceRecipient(g[SlotOfCap(x)], n).value]
  }

  lemma ReaddressedMeaning(g: Graph, h: Graph, x: nat, n: Actor, cap: nat)
    requires n.HasPage() && Readdressed(g, h, x, n) && IsCap(cap)
    ensures cap != x ==> Meaning(h, cap) == Meaning(g, cap)
    ensures Meaning(g, x).Some? && Meaning(h, x) == Some(
              match Meaning(g, x).value
              case Granted(_) => Granted(n)
              case Forwarded(_, inner) => Forwarded(n, inner))
  {
    hide Certifier, Unpack, IsCap, ReplaceRecipient, SlotOfCap;
    MeaningAt(g, x);
    MeaningAt(h, x);
    PackingRoundTrip(n, x, g[SlotOfCap(x)]);
    if Certifier(cap).Some? && cap != x {
      MeaningAt(g, cap);
      MeaningAt(h, cap);
      if SlotOfCap(cap) == SlotOfCap(x) {
        SlotIdentifiesCap(cap, x);
      }
    }
  }

  /** Claims other than those of the kernel and of `n` on `x` itself do not notice. */
  lemma {:induction false} ReaddressingUnnoticed(g: Graph, h: Graph, x: nat, n: Actor, cap: nat, claimer: Actor, fuel: nat)
    requires n.HasPage() && Readdressed(g, h, x, n) && Quiet(g, n) && Quiet(g, Kernel)
    requires IsCap(cap) && (cap == x ==> claimer != Kernel && claimer != n)
    ensures Resolve(h, cap, claimer, fuel) == Resolve(g, cap, claimer, fuel)
    decreases fuel
  {
    hide Certifier, Unpack, IsCap, Readdressed, Meaning, Quiet;
    ReaddressedMeaning(g, h, x, n, cap);
    assert cap == x ==> Recipient(Meaning(g, x).value) == Kernel || Recipient(Meaning(g, x).value) == n by {
      ReaddressedRecipient(g, h, x, n);
    }
    if fuel > 0 && Meaning(g, cap).Some? {
      match Meaning(g, cap).value
      case Forwarded(forwardee, inner) =>
        if Certifier(cap).value == n { QuietForwardsNothing(g, n, cap); }
        if Certifier(cap).value == Kernel { QuietForwardsNothing(g, Kernel, cap); }
        if forwardee == claimer {
          ReaddressingUnnoticed(g, h, x, n, inner, Certifier(cap).value, fuel - 1);
        }
      case _ =>
    }
  }

  lemma ReaddressedRecipient(g: Graph, h: Graph, x: nat, n: Actor)
    requires n.HasPage() && Readdressed(g, h, x, n)
    ensures Meaning(g, x).Some?
    ensures Recipient(Meaning(g, x).value) == Kernel || Recipient(Meaning(g, x).value) == n
  {
    MeaningAt(g, x);
  }

  /** What the recipient of `x` could have claimed with it, `n` now can. */
  lemma ReaddressedTo(g: Graph, h: Graph, x: nat, n: Actor, fuel: nat)
    requires n.HasPage() && Readdressed(g, h, x, n) && Quiet(g, n) && Quiet(g, Kernel)
    ensures Meaning(g, x).Some? && Resolve(h, x, n, fuel) == Resolve(g, x, Recipient(Meaning(g, x).value), fuel)
  {
    hide Certifier, Unpack, IsCap, Readdressed, Meaning, Quiet;
    assert IsCap(x) && Meaning(g, x).Some? by { ReaddressedIsCap(g, h, x, n); }
    ReaddressedMeaning(g, h, x, n, x);
    if fuel > 0 {
      match Meaning(g, x).value
      case Forwarded(forwardee, inner) =>
        if Certifier(x).value == n { QuietForwardsNothing(g, n, x); }
        if Certifier(x).value == Kernel { QuietForwardsNothing(g, Kernel, x); }
        ReaddressingUnnoticed(g, h, x, n, inner, Certifier(x).value, fuel - 1);
      case _ =>
    }
  }

  lemma ReaddressedIsCap(g: Graph, h: Graph, x: nat, n: Actor)
    requires n.HasPage() && Readdressed(g, h, x, n)
    ensures IsCap(x) && Meaning(g, x).Some?
  {
    MeaningAt(g, x);
  }

  lemma ReaddressedKeepsOrder(g: Graph, h: Graph, x: nat, n: Actor, time: seq<nat>)
    requires n.HasPage() && Readdressed(g, h, x, n) && Ordered(g, time) && |time| == SLOTS && time[SlotOfCap(x)] > 0
    ensures Ordered(h, time)
  {
    hide Certifier, SlotOfCap, IsCap, Unpack, ReplaceRecipient, LinksBack;
    forall s: nat | s < SLOTS ensures SlotOk(h, time, s) {
      assert SlotOk(g, time, s);
      PackingRoundTrip(n, x, g[s]);
    }
  }

  /** Outcomes after a readdressing, for every claim. */
  lemma ReaddressedOutcomes(g: Graph, h: Graph, x: nat, n: Actor, cap: nat, claimer: Actor)
    requires n.HasPage() && Readdressed(g, h, x, n) && Quiet(g, n) && Quiet(g, Kernel) && IsCap(cap)
    ensures (cap == x ==> claimer != Kernel && claimer != n) ==> SameOutcome(g, cap, claimer, h, cap, claimer)
    ensures IsCap(x) && Meaning(g, x).Some? && SameOutcome(g, x, Recipient(Meaning(g, x).value), h, x, n)
  {
    hide Certifier, Unpack, IsCap, Readdressed, Meaning, Quiet, Resolve, SameOutcome;
    ReaddressedIsCap(g, h, x, n);
    forall fuel: nat ensures Resolve(h, x, n, fuel + 0) == Resolve(g, x, Recipient(Meaning(g, x).value), fuel) {
      ReaddressedTo(g, h, x, n, fuel);
    }
    SameFromEveryFuel(g, x, Recipient(Meaning(g, x).value), h, x, n, 0);
    if cap == x ==> claimer != Kernel && claimer != n {
      forall fuel: nat ensures Resolve(h, cap, claimer, fuel + 0) == Resolve(g, cap, claimer, fuel) {
        ReaddressingUnnoticed(g, h, x, n, cap, claimer, fuel);
      }
      SameFromEveryFuel(g, cap, claimer, h, cap, claimer, 0);
    }
  }

  // ---- Handing certificates over to a new process ----

  /** The kernel's claim on `cap` is now that of `n`. */
  ghost predicate Passed(g: Graph, h: Graph, cap: nat, n: Actor) {
    IsCap(cap) && SameOutcome(g, cap, Kernel, h, cap, n)
  }

  /** The claims that a hand-over of `caps` does not touch. */
  ghost predicate Untouched(caps: seq<nat>, cap: nat, claimer: Actor, n: Actor) {
    IsCap(cap) && (cap in caps ==> claimer != Kernel && claimer != n)
  }

  predicate AddressedTo(g: Graph, cap: nat, actor: Actor) {
    IsCap(cap) && Meaning(g, cap).Some? && Recipient(Meaning(g, cap).value) == actor
  }

  /** The first `i` of `caps` have been handed over. */
  ghost predicate HandedOver(g: Graph, h: Graph, caps: seq<nat>, i: nat, n: Actor) {
    && i <= |caps|
    && (forall cap <- caps :: AddressedTo(h, cap, if cap in caps[..i] then n else Kernel))
    && (forall cap <- caps[..i] :: Passed(g, h, cap, n))
    && (forall cap: nat, claimer: Actor :: Untouched(caps[..i], cap, claimer, n) ==> SameOutcome(g, cap, claimer, h, cap, claimer))
  }

  lemma OneHandedOver(g: Graph, h: Graph, k: Graph, caps: seq<nat>, i: nat, n: Actor)
    requires n.HasPage() && n != Kernel && HandedOver(g, h, caps, i, n) && i < |caps| && Readdressed(h, k, caps[i], n)
    requires Quiet(h, n) && Quiet(h, Kernel)
    ensures HandedOver(g, k, caps, i + 1, n)
  {
    hide Quiet, Readdressed, SameOutcome, IsCap, Meaning, Recipient, Resolve;
    var done := caps[..i + 1];
    assert forall cap :: cap in done <==> cap in caps[..i] || cap == caps[i];
    forall cap <- caps ensures AddressedTo(k, cap, if cap in done then n else Kernel) {
      StillAddressed(h, k, caps[i], n, cap, if cap in caps[..i] then n else Kernel);
    }
    forall cap <- done ensures Passed(g, k, cap, n) {
      OnePassed(g, h, k, caps, i, n, cap);
    }
    forall cap: nat, claimer: Actor | Untouched(done, cap, claimer, n) ensures SameOutcome(g, cap, claimer, k, cap, claimer) {
      assert Untouched(caps[..i], cap, claimer, n);
      ReaddressedOutcomes(h, k, caps[i], n, cap, claimer);
      SameOutcomeChains(g, cap, claimer, h, cap, claimer, k, cap, claimer);
    }
  }

  lemma StillAddressed(h: Graph, k: Graph, x: nat, n: Actor, cap: nat, actor: Actor)
    requires n.HasPage() && Readdressed(h, k, x, n) && AddressedTo(h, cap, actor)
    ensures AddressedTo(k, cap, if cap == x then n else actor)
  {
    hide Readdressed, IsCap, Meaning;
    ReaddressedMeaning(h, k, x, n, cap);
  }

  lemma OnePassed(g: Graph, h: Graph, k: Graph, caps: seq<nat>, i: nat, n: Actor, cap: nat)
    requires n.HasPage() && n != Kernel && HandedOver(g, h, caps, i, n) && i < |caps| && Readdressed(h, k, caps[i], n)
    requires Quiet(h, n) && Quiet(h, Kernel) && (cap in caps[..i] || cap == caps[i])
    ensures Passed(g, k, cap, n)
  {
    hide Quiet, Readdressed, SameOutcome, IsCap, Meaning, Recipient, Resolve;
    var x := caps[i];
    if cap in caps[..i] {
      assert Passed(g, h, cap, n) && AddressedTo(h, cap, n);
      ReaddressedOutcomes(h, k, x, n, cap, n);
      SameOutcomeChains(g, cap, Kernel, h, cap, n, k, cap, n);
    } else {
      assert AddressedTo(h, x, Kernel) && Untouched(caps[..i], x, Kernel, n);
      ReaddressedOutcomes(h, k, x, n, x, n);
      SameOutcomeChains(g, x, Kernel, h, x, Kernel, k, x, n);
    }
  }

  // ---- Giving away a fresh slot ----

  lemma FreshKeepsOrder(g: Graph, time: seq<nat>, clock: nat, x: nat, v: Certificate)
    requires Ordered(g, time) && |time| == SLOTS && x < SLOTS && time[x] == 0
    requires forall s: nat :: s < SLOTS ==> time[s] <= clock
    requires Unpack(v).Some? && (Unpack(v).value.Forwarded? ==>
               && x >= SLOTS_PER_PAGE && IsCap(Unpack(v).value.inner) && Certifier(Unpack(v).value.inner).Some?
               && time[SlotOfCap(Unpack(v).value.inner)] > 0)
    ensures Ordered(g[x := v], time[x := clock + 1])
  {
    hide Certifier, SlotOfCap, IsCap, Unpack;
    var h, times := g[x := v], time[x := clock + 1];
    forall s: nat | s < SLOTS ensures SlotOk(h, times, s) {
      assert SlotOk(g, time, s);
    }
  }

  /** Every claim on another capability has the outcome it had. */
  ghost predicate Unaffected(g: Graph, h: Graph, cap: nat) {
    forall c: nat, claimer: Actor :: IsCap(c) && c != cap ==> SameOutcome(g, c, claimer, h, c, claimer)
  }

  lemma FreshLeavesOthers(g: Graph, time: seq<nat>, cap: nat, v: Certificate)
    requires Ordered(g, time) && |time| == SLOTS && IsCap(cap) && Certifier(cap).Some? && time[SlotOfCap(cap)] == 0
    ensures Unaffected(g, g[SlotOfCap(cap) := v], cap)
  {
    hide Certifier, SlotOfCap, IsCap, Unpack, Ordered, SameOutcome, Resolve;
    var h := g[SlotOfCap(cap) := v];
    forall c: nat, claimer: Actor | IsCap(c) && c != cap ensures SameOutcome(g, c, claimer, h, c, claimer) {
      if Certifier(c).Some? && SlotOfCap(c) == SlotOfCap(cap) { SlotIdentifiesCap(c, cap); }
      forall fuel: nat ensures Resolve(h, c, claimer, fuel + 0) == Resolve(g, c, claimer, fuel) {
        UnlinkedSlot(g, time, SlotOfCap(cap), v, c, claimer, fuel);
      }
      SameFromEveryFuel(g, c, claimer, h, c, claimer, 0);
    }
  }

  /** Whoever is granted a capability validates it with itself as the root, and nobody else validates it. */
  lemma GrantGives(g: Graph, cap: nat, grantee: Actor, claimer: Actor)
    requires IsCap(cap) && Certifier(cap).Some? && grantee.Legal() && g[SlotOfCap(cap)] == GrantedTo(grantee)
    ensures Resolves(g, cap, claimer, if claimer == grantee then Root(cap) else Rejected)
  {
    hide Certifier, SlotOfCap, IsCap;
    MeaningAt(g, cap);
    PackingRoundTrip(grantee, cap, ZERO);
    assert Resolve(g, cap, claimer, 1) == if claimer == grantee then Root(cap) else Rejected;
  }

  /** Whoever a capability is forwarded to has the claim of the forwarder, with the same root. */
  lemma ForwardGives(g: Graph, time: seq<nat>, cap: nat, certifier: Actor, forwardee: Actor, inner: nat)
    requires Ordered(g, time) && |time| == SLOTS && IsCap(cap) && Certifier(cap) == Some(certifier) && forwardee.Legal()
    requires time[SlotOfCap(cap)] == 0 && IsCap(inner) && inner != cap
    ensures var h := g[SlotOfCap(cap) := ForwardedTo(forwardee, inner)];
            SameOutcome(g, inner, certifier, h, cap, forwardee)
  {
    hide Certifier, SlotOfCap, IsCap, Unpack, Ordered, SameOutcome, Meaning;
    var v := ForwardedTo(forwardee, inner);
    var h := g[SlotOfCap(cap) := v];
    MeaningAt(h, cap);
    PackingRoundTrip(forwardee, inner, ZERO);
    if Certifier(inner).Some? && SlotOfCap(cap) == SlotOfCap(inner) { SlotIdentifiesCap(cap, inner); }
    forall fuel: nat ensures Resolve(h, cap, forwardee, fuel + 1) == Resolve(g, inner, certifier, fuel) {
      UnlinkedSlot(g, time, SlotOfCap(cap), v, inner, certifier, fuel);
    }
    SameFromEveryFuel(g, inner, certifier, h, cap, forwardee, 1);
  }

  ghost predicate Unused(time: seq<nat>, p: nat, i: nat) {
    |time| == SLOTS && p * SLOTS_PER_PAGE + i < SLOTS && time[p * SLOTS_PER_PAGE + i] == 0
  }

  /** Page `p`, of which `n` slots are given away. One of a process that does not run yet has forwarded nothing. */
  ghost predicate PageOk(g: Graph, time: seq<nat>, n: nat, p: nat, running: bool) {
    && p < PAGES && (p > 0 ==> n > 0)
    && (forall i: nat :: n <= i < SLOTS_PER_PAGE ==> Unused(time, p, i))
    && (!running ==> n == 1 && p > 0 && GrantedAt(g, p * SLOTS_PER_PAGE))
  }

  ghost predicate PagesOk(g: Graph, time: seq<nat>, ns: seq<nat>, unborn: set<nat>) {
    |ns| == PAGES && forall p: nat :: p < PAGES ==> PageOk(g, time, ns[p], p, p !in unborn)
  }

  lemma PagesKept(g: Graph, time: seq<nat>, ns: seq<nat>, unborn: set<nat>, page: nat, v: Certificate, t: nat)
    requires PagesOk(g, time, ns, unborn) && |time| == SLOTS && page < PAGES && page !in unborn
    ensures ns[page] >= SLOTS_PER_PAGE ==> PagesOk(g, time, ns[page := ns[page] + 1], unborn)
    ensures ns[page] < SLOTS_PER_PAGE ==>
              var x := page * SLOTS_PER_PAGE + ns[page];
              time[x] == 0 && PagesOk(g[x := v], time[x := t], ns[page := ns[page] + 1], unborn)
  {
    hide PageOk;
    var ms := ns[page := ns[page] + 1];
    if ns[page] >= SLOTS_PER_PAGE {
      PageFull(g, time, ns[page], page);
    } else {
      NextUnused(g, time, ns[page], page);
      var x := page * SLOTS_PER_PAGE + ns[page];
      var h, times := g[x := v], time[x := t];
      forall p: nat | p < PAGES ensures PageOk(h, times, ms[p], p, p !in unborn) {
        PageKept(g, time, ns[p], p, p !in unborn, page, ns[page], v, t);
      }
    }
  }

  lemma PageKept(g: Graph, time: seq<nat>, n: nat, p: nat, running: bool, page: nat, i: nat, v: Certificate, t: nat)
    requires PageOk(g, time, n, p, running) && |time| == SLOTS && page < PAGES && i < SLOTS_PER_PAGE
    requires p == page ==> running && i == n
    ensures var x := page * SLOTS_PER_PAGE + i;
            PageOk(g[x := v], time[x := t], if p == page then n + 1 else n, p, running)
  {
    hide Unpack;
    var x := page * SLOTS_PER_PAGE + i;
    var times, m := time[x := t], if p == page then n + 1 else n;
    forall j: nat | m <= j < SLOTS_PER_PAGE ensures Unused(times, p, j) {
      assert Unused(time, p, j);
    }
  }

  lemma SlotOfNewCap(certifier: Actor, i: nat)
    requires certifier.HasPage() && i < SLOTS_PER_PAGE
    ensures var cap := NewCap(certifier, i);
            IsCap(cap) && Certifier(cap) == Some(certifier) && SlotOfCap(cap) == SlotOf(certifier, i)
  {
    hide Certifier, LocalIndex, IsCap;
    CapRoundTrip(certifier, i);
  }

  // ---- Pages that a step leaves alone ----

  /** Slot `i` of page `p` has been given away as before, and is a grant or a forward as before. */
  ghost predicate SlotKept(g: Graph, time: seq<nat>, h: Graph, times: seq<nat>, p: nat, i: nat) {
    && p < PAGES && i < SLOTS_PER_PAGE && |time| == |times| == SLOTS
    && var s := p * SLOTS_PER_PAGE + i;
    && times[s] == time[s]
    && Unpack(g[s]).Some? && Unpack(h[s]).Some? && (Unpack(g[s]).value.Granted? <==> Unpack(h[s]).value.Granted?)
  }

  ghost predicate PageUntouched(g: Graph, time: seq<nat>, h: Graph, times: seq<nat>, p: nat) {
    forall i: nat :: i < SLOTS_PER_PAGE ==> SlotKept(g, time, h, times, p, i)
  }

  /** The certificate `v` has been put in slot `i` of the page of `certifier`, which is `cap`. */
  ghost predicate IsWrite(g: Graph, time: seq<nat>, h: Graph, times: seq<nat>, certifier: Actor, i: nat, cap: nat, v: Certificate) {
    && certifier.HasPage() && i < SLOTS_PER_PAGE && cap == NewCap(certifier, i) && |time| == SLOTS
    && var x := SlotOf(certifier, i);
    x < SLOTS && time[x] == 0 && h == g[x := v] && |times| == SLOTS && times[x] > 0 && times == time[x := times[x]]
  }

  /** Only page `p` has new certificates. */
  ghost predicate OthersKept(g: Graph, time: seq<nat>, h: Graph, times: seq<nat>, p: nat) {
    forall q: nat :: q < PAGES && q != p ==> PageUntouched(g, time, h, times, q)
  }

  lemma WriteKeepsOthers(g: Graph, time: seq<nat>, p: nat, i: nat, v: Certificate, t: nat)
    requires Ordered(g, time) && |time| == SLOTS && p < PAGES && i < SLOTS_PER_PAGE
    ensures OthersKept(g, time, g[p * SLOTS_PER_PAGE + i := v], time[p * SLOTS_PER_PAGE + i := t], p)
  {
    hide Unpack, LinksBack;
    var x := p * SLOTS_PER_PAGE + i;
    var h, times := g[x := v], time[x := t];
    forall q: nat | q < PAGES && q != p ensures PageUntouched(g, time, h, times, q) {
      forall j: nat | j < SLOTS_PER_PAGE ensures SlotKept(g, time, h, times, q, j) {
        assert SlotOk(g, time, q * SLOTS_PER_PAGE + j);
      }
    }
  }

  lemma NothingTouched(g: Graph, time: seq<nat>, p: nat)
    requires Ordered(g, time) && |time| == SLOTS
    ensures OthersKept(g, time, g, time, p)
  {
    hide Unpack, LinksBack;
    forall q: nat | q < PAGES ensures PageUntouched(g, time, g, time, q) {
      forall j: nat | j < SLOTS_PER_PAGE ensures SlotKept(g, time, g, time, q, j) {
        assert SlotOk(g, time, q * SLOTS_PER_PAGE + j);
      }
    }
  }

  lemma ReaddressKeepsAll(g: Graph, time: seq<nat>, h: Graph, times: seq<nat>, k: Graph, x: nat, n: Actor, p: nat)
    requires n.HasPage() && OthersKept(g, time, h, times, p) && Readdressed(h, k, x, n)
    ensures OthersKept(g, time, k, times, p)
  {
    hide Unpack, Certifier, SlotOfCap, IsCap, ReplaceRecipient;
    forall q: nat | q < PAGES && q != p ensures PageUntouched(g, time, k, times, q) {
      assert PageUntouched(g, time, h, times, q);
      forall j: nat | j < SLOTS_PER_PAGE ensures SlotKept(g, time, k, times, q, j) {
        assert SlotKept(g, time, h, times, q, j);
        PackingRoundTrip(n, x, h[q * SLOTS_PER_PAGE + j]);
      }
    }
  }

  /** `cap`, new and certified by `certifier`, is granted: it is the root of the claim of `grantee`, and of no other. */
  ghost predicate IsGrant(g: Graph, h: Graph, cap: nat, certifier: Actor, grantee: Actor) {
    && IsCap(cap) && Certifier(cap) == Some(certifier) && Unaffected(g, h, cap)
    && Resolves(h, cap, grantee, Root(cap))
    && forall claimer: Actor :: claimer != grantee ==> Resolves(h, cap, claimer, Rejected)
  }

  /** `cap`, new and certified by `certifier`, is a forward: what `certifier` could claim with `inner` its `forwardee`
      claims with `cap`, and nobody else claims anything with it. */
  ghost predicate IsForward(g: Graph, h: Graph, cap: nat, certifier: Actor, forwardee: Actor, inner: nat) {
    && IsCap(cap) && IsCap(inner) && Certifier(cap) == Some(certifier) && Unaffected(g, h, cap)
    && SameOutcome(g, inner, certifier, h, cap, forwardee)
    && forall claimer: Actor :: claimer != forwardee ==> Resolves(h, cap, claimer, Rejected)
  }

  lemma GrantedUnpacks(actor: Actor)
    requires actor.Legal()
    ensures Unpack(GrantedTo(actor)) == Some(Granted(actor))
  {
    PackingRoundTrip(actor, USER_CAPABILITIES_START, ZERO);
  }

  lemma ForwardedUnpacks(actor: Actor, cap: nat)
    requires actor.Legal() && IsCap(cap)
    ensures Unpack(ForwardedTo(actor, cap)) == Some(Forwarded(actor, cap))
  {
    PackingRoundTrip(actor, cap, ZERO);
  }

  lemma GrantEffect(g: Graph, time: seq<nat>, cap: nat, certifier: Actor, grantee: Actor)
    requires Ordered(g, time) && |time| == SLOTS && IsCap(cap) && Certifier(cap) == Some(certifier)
    requires time[SlotOfCap(cap)] == 0 && grantee.Legal()
    ensures IsGrant(g, g[SlotOfCap(cap) := GrantedTo(grantee)], cap, certifier, grantee)
  {
    hide Ordered, Certifier, IsCap, SlotOfCap, Unaffected, Resolves;
    var h := g[SlotOfCap(cap) := GrantedTo(grantee)];
    FreshLeavesOthers(g, time, cap, GrantedTo(grantee));
    GrantGives(h, cap, grantee, grantee);
    forall claimer: Actor | claimer != grantee ensures Resolves(h, cap, claimer, Rejected) {
      GrantGives(h, cap, grantee, claimer);
    }
  }

  lemma ForwardEffect(g: Graph, time: seq<nat>, cap: nat, certifier: Actor, forwardee: Actor, inner: nat)
    requires Ordered(g, time) && |time| == SLOTS && IsCap(cap) && Certifier(cap) == Some(certifier)
    requires time[SlotOfCap(cap)] == 0 && GivenAt(time, inner) && forwardee.Legal()
    ensures IsCap(inner) && IsForward(g, g[SlotOfCap(cap) := ForwardedTo(forwardee, inner)], cap, certifier, forwardee, inner)
  {
    hide Ordered, Certifier, IsCap, SlotOfCap, Unaffected, SameOutcome, Resolves, Meaning, Unpack;
    var v := ForwardedTo(forwardee, inner);
    var h := g[SlotOfCap(cap) := v];
    FreshLeavesOthers(g, time, cap, v);
    ForwardGives(g, time, cap, certifier, forwardee, inner);
    forall claimer: Actor | claimer != forwardee ensures Resolves(h, cap, claimer, Rejected) {
      MeaningAt(h, cap);
      ForwardedUnpacks(forwardee, inner);
      Begins(h, cap, claimer);
      Ends(h, cap, claimer, 0, cap, claimer);
    }
  }

  lemma ExportKeepsPages(g: Graph, time: seq<nat>, ns: seq<nat>, unborn: set<nat>, n: nat, v: Certificate, t: nat)
    requires PagesOk(g, time, ns, unborn) && |time| == SLOTS && n in unborn && n < PAGES && Unpack(v).Some? && Unpack(v).value.Granted?
    ensures PagesOk(g[n * SLOTS_PER_PAGE := v], time[n * SLOTS_PER_PAGE := t], ns, unborn)
  {
    hide Unpack;
    var x := n * SLOTS_PER_PAGE;
    var h, times := g[x := v], time[x := t];
    forall p: nat | p < PAGES ensures PageOk(h, times, ns[p], p, p !in unborn) {
      assert PageOk(g, time, ns[p], p, p !in unborn) && PageOk(g, time, ns[n], n, false);
      forall i: nat | ns[p] <= i < SLOTS_PER_PAGE ensures Unused(times, p, i) {
        assert Unused(time, p, i);
      }
    }
  }

  lemma UnbornIsQuiet(g: Graph, time: seq<nat>, ns: seq<nat>, unborn: set<nat>, n: nat)
    requires Ordered(g, time) && PagesOk(g, time, ns, unborn) && |time| == SLOTS && n in unborn && 0 < n < PAGES
    ensures Userspace(n).HasPage() && Quiet(g, Userspace(n)) && Quiet(g, Kernel)
  {
    hide IsCap, LinksBack;
    assert PageOk(g, time, ns[n], n, false);
    GrantedUnpacks(Kernel);
    forall i: nat | i < SLOTS_PER_PAGE ensures GrantedAt(g, SlotOf(Userspace(n), i)) && GrantedAt(g, SlotOf(Kernel, i)) {
      assert SlotOk(g, time, SlotOf(Kernel, i)) && SlotOk(g, time, SlotOf(Userspace(n), i));
      assert i > 0 ==> Unused(time, n, i);
    }
  }

  lemma ReaddressedKeepsPages(g: Graph, h: Graph, x: nat, n: Actor, time: seq<nat>, ns: seq<nat>, unborn: set<nat>)
    requires n.HasPage() && Readdressed(g, h, x, n) && PagesOk(g, time, ns, unborn)
    ensures PagesOk(h, time, ns, unborn)
  {
    hide Certifier, SlotOfCap, IsCap, Unpack, ReplaceRecipient;
    forall p: nat | p < PAGES ensures PageOk(h, time, ns[p], p, p !in unborn) {
      assert PageOk(g, time, ns[p], p, p !in unborn);
      PackingRoundTrip(n, x, g[p * SLOTS_PER_PAGE]);
    }
  }

  lemma BornKeepsPages(g: Graph, time: seq<nat>, ns: seq<nat>, unborn: set<nat>, n: nat)
    requires PagesOk(g, time, ns, unborn)
    ensures PagesOk(g, time, ns, unborn - {n})
  {
    forall p: nat | p < PAGES ensures PageOk(g, time, ns[p], p, p !in unborn - {n}) {
      assert PageOk(g, time, ns[p], p, p !in unborn);
    }
  }

  lemma NothingHandedOver(g: Graph, caps: seq<nat>, n: Actor)
    requires forall cap <- caps :: AddressedTo(g, cap, Kernel)
    ensures HandedOver(g, g, caps, 0, n)
  {
    hide Resolves;
  }

  lemma StillAddressedToKernel(g: Graph, h: Graph, time: seq<nat>, own: nat, caps: seq<nat>)
    requires IsCap(own) && Certifier(own).Some? && !GivenAt(time, own) && |time| == SLOTS
    requires forall s: nat :: s < SLOTS && s != SlotOfCap(own) ==> h[s] == g[s]
    requires forall cap <- caps :: GivenAt(time, cap) && AddressedTo(g, cap, Kernel)
    ensures forall cap <- caps :: AddressedTo(h, cap, Kernel)
  {
    hide Certifier, SlotOfCap, IsCap, Unpack;
    forall cap <- caps ensures AddressedTo(h, cap, Kernel) {
      MeaningAt(g, cap);
      MeaningAt(h, cap);
      if SlotOfCap(cap) == SlotOfCap(own) { SlotIdentifiesCap(cap, own); }
    }
  }

  lemma AllStillGiven(before: seq<nat>, now: seq<nat>, more: Option<nat>, caps: seq<nat>)
    requires NewlyGiven(before, now, more) && forall cap <- caps :: GivenAt(before, cap)
    ensures forall cap <- caps :: GivenAt(now, cap)
  {
    hide GivenAt;
  }

  lemma HandOverAt(g: Graph, h: Graph, caps: seq<nat>, i: nat, n: Actor)
    requires HandedOver(g, h, caps, i, n) && i < |caps|
    ensures AddressedTo(h, caps[i], if caps[i] in caps[..i] then n else Kernel)
  {
    hide AddressedTo, Passed, Untouched;
  }

  predicate CertifiedBy(cap: nat, actor: Actor) {
    IsCap(cap) && Certifier(cap) == Some(actor)
  }

  /** First the export of `n` is granted to `sender`, then `caps` are handed over. */
  ghost predicate IsHandOver(g: Graph, h: Graph, own: nat, sender: nat, n: nat, caps: seq<nat>) {
    exists mid: Graph :: IsGrant(g, mid, own, Userspace(n), Userspace(sender)) && HandedOver(mid, h, caps, |caps|, Userspace(n))
  }

  /** After a hand-over the new process claims with each argument what the kernel could, the sender claims the export, and
      every claim that is neither the kernel's nor the new process's on an argument has the outcome it had. */
  lemma HandOverGives(g: Graph, h: Graph, own: nat, sender: nat, n: nat, caps: seq<nat>, cap: nat, claimer: Actor)
    requires IsHandOver(g, h, own, sender, n, caps) && own !in caps && sender != n && IsCap(cap) && cap != own
    ensures cap in caps ==> SameOutcome(g, cap, Kernel, h, cap, Userspace(n))
    ensures Untouched(caps, cap, claimer, Userspace(n)) ==> SameOutcome(g, cap, claimer, h, cap, claimer)
    ensures IsCap(own) && Resolves(h, own, Userspace(sender), Root(own))
  {
    hide IsCap, Resolves, SameOutcome;
    var mid: Graph :| IsGrant(g, mid, own, Userspace(n), Userspace(sender)) && HandedOver(mid, h, caps, |caps|, Userspace(n));
    assert caps[..|caps|] == caps;
    if cap in caps {
      assert Passed(mid, h, cap, Userspace(n));
      SameOutcomeChains(g, cap, Kernel, mid, cap, Kernel, h, cap, Userspace(n));
    }
    if Untouched(caps, cap, claimer, Userspace(n)) {
      SameOutcomeChains(g, cap, claimer, mid, cap, claimer, h, cap, claimer);
    }
    assert Untouched(caps, own, Userspace(sender), Userspace(n));
    OutcomeKept(mid, h, own, Userspace(sender), Root(own));
  }

  lemma OutcomeKept(g: Graph, h: Graph, cap: nat, claimer: Actor, o: Outcome)
    requires IsCap(cap) && SameOutcome(g, cap, claimer, h, cap, claimer) && Resolves(g, cap, claimer, o)
    ensures Resolves(h, cap, claimer, o)
  {
    hide Resolves;
  }

  lemma CanReaddress(g: Graph, time: seq<nat>, cap: nat, n: Actor, actor: Actor)
    requires n.HasPage() && AddressedTo(g, cap, actor) && (actor == Kernel || actor == n) && GivenAt(time, cap)
    ensures Unpack(g[SlotOfCap(cap)]).Some? && ReplaceRecipient(g[SlotOfCap(cap)], n).Some?
    ensures Readdressed(g, g[SlotOfCap(cap) := ReplaceRecipient(g[SlotOfCap(cap)], n).value], cap, n)
  {
    hide Certifier, SlotOfCap, IsCap, Unpack;
    MeaningAt(g, cap);
    PackingRoundTrip(n, cap, g[SlotOfCap(cap)]);
  }

  /** The capability pages of the kernel and all processes, with what each has given away so far. */
  class CertificatePages {
    const slots: array<Certificate>
    /** How many slots each page has given away: the kernel starts at 0, a process at 1. */
    const next: array<nat>
    ghost var time: seq<nat>
    ghost var clock: nat
    /** Processes that do not run yet. */
    ghost var unborn: set<nat>

    ghost function Graph(): (g: seq<Certificate>)
      reads this, slots
    {
      slots[..]
    }

    ghost predicate Valid()
      reads this, next, slots
    {
      && slots.Length == SLOTS && next.Length == PAGES && |time| == SLOTS && Ordered(Graph(), time)
      && (forall s: nat :: s < SLOTS ==> time[s] <= clock)
      && 0 !in unborn && PagesOk(Graph(), time, next[..], unborn)
    }

    /** A capability that somebody has been given. */
    ghost predicate Given(cap: nat)
      reads this
    {
      GivenAt(time, cap)
    }

    constructor ()
      ensures Valid() && fresh(slots) && fresh(next) && unborn == {1, 2, 3, 4, 5, 6, 7}
      ensures |time| == SLOTS && forall s: nat :: s < SLOTS ==> slots[s] == ZERO && time[s] == 0
      ensures next.Length == PAGES && forall p: nat :: p < PAGES ==> next[p] == if p == 0 then 0 else 1
    {
      slots := new Certificate[SLOTS](_ => ZERO);
      next := new nat[PAGES](p => if p == 0 then 0 else 1);
      time := seq(SLOTS, _ => 0);
      clock := 0;
      unborn := {1, 2, 3, 4, 5, 6, 7};
      new;
      hide Unpack, Ordered, SlotOk, PagesOk, GrantedAt;
      NothingGiven(Graph(), time);
      PagesFresh(Graph(), time, next[..], unborn);
    }

    /** `allocate_certificate` with the store that follows it. The count goes up even when the page is full. */
    method StoreNew(certifier: Actor, v: Certificate) returns (cap: Option<nat>)
      requires Valid() && certifier.HasPage() && Unpack(v).Some?
      requires Unpack(v).value.Forwarded? ==> certifier.Userspace? && Given(Unpack(v).value.inner)
      requires certifier.Userspace? ==> certifier.pid !in unborn
      modifies this`time, this`clock, slots, next
      ensures Valid() && NewlyGiven(old(time), time, cap)
      ensures cap.None? <==> old(next[certifier.Code()]) >= SLOTS_PER_PAGE
      ensures next[..] == old(next[..])[certifier.Code() := old(next[certifier.Code()]) + 1]
      ensures cap.None? ==> Graph() == old(Graph()) && time == old(time)
      ensures OthersKept(old(Graph()), old(time), Graph(), time, certifier.Code())
      ensures cap.Some? ==> cap == Some(NewCap(certifier, old(next[certifier.Code()])))
      ensures cap.Some? ==> !old(Given(cap.value)) && Given(cap.value)
      ensures cap.Some? ==> time == old(time)[SlotOfCap(cap.value) := clock]
      ensures cap.Some? ==> Certifier(cap.value) == Some(certifier)
      ensures cap.Some? ==> old(time[SlotOfCap(cap.value)] == 0) && Graph() == old(Graph())[SlotOfCap(cap.value) := v]
    {
      hide Unpack, Certifier, IsCap, LocalIndex, SlotOfCap, Ordered, PagesOk, NewlyGiven, OthersKept;
      var page := certifier.Code();
      var index := next[page];
      PagesKept(Graph(), time, next[..], unborn, page, v, clock + 1);
      next[page] := index + 1;
      assert next[..] == old(next[..])[page := index + 1];
      if index >= SLOTS_PER_PAGE {
        NoneTaken(time);
        NothingTouched(Graph(), time, page);
        return None;
      }
      var x := SlotOf(certifier, index);
      CapRoundTrip(certifier, index);
      SlotOfCapIs(NewCap(certifier, index));
      FreshKeepsOrder(Graph(), time, clock, x, v);
      WriteKeepsOthers(Graph(), time, page, index, v, clock + 1);
      slots[x] := v;
      time := time[x := clock + 1];
      clock := clock + 1;
      MoreTaken(old(time), NewCap(certifier, index), clock);
      return Some(NewCap(certifier, index));
    }

    /** A process grants a capability of its own. `None` is the panic when its page is full. */
    method GrantUnhandled(pid: nat, grantee: Actor) returns (cap: Option<nat>)
      requires Valid() && Userspace(pid).HasPage() && pid !in unborn && grantee.Legal()
      modifies this`time, this`clock, slots, next
      ensures Valid() && NewlyGiven(old(time), time, cap)
      ensures cap.None? <==> old(next[pid]) >= SLOTS_PER_PAGE
      ensures next[..] == old(next[..])[pid := old(next[pid]) + 1]
      ensures OthersKept(old(Graph()), old(time), Graph(), time, pid)
      ensures cap.None? ==> Graph() == old(Graph()) && time == old(time)
      ensures cap.Some? ==> IsGrant(old(Graph()), Graph(), cap.value, Userspace(pid), grantee)
      ensures cap.Some? ==> !old(Given(cap.value)) && Given(cap.value)
      ensures cap.Some? ==> IsWrite(old(Graph()), old(time), Graph(), time, Userspace(pid), old(next[pid]), cap.value,
                                    GrantedTo(grantee))
    {
      hide Ordered, PagesOk, Unpack, Certifier, LocalIndex, IsCap, SlotOfCap, NewlyGiven, Unaffected, OthersKept;
      GrantedUnpacks(grantee);
      cap := StoreNew(Userspace(pid), GrantedTo(grantee));
      if cap.Some? {
        GrantEffect(old(Graph()), old(time), cap.value, Userspace(pid), grantee);
        SlotOfNewCap(Userspace(pid), old(next[pid]));
      }
    }

    /** The kernel grants a capability of its own, when there is room for another handler. */
    method GrantKernelCapability(grantee: nat) returns (cap: Option<nat>)
      requires Valid() && Userspace(grantee).Legal()
      modifies this`time, this`clock, slots, next
      ensures Valid() && NewlyGiven(old(time), time, cap)
      ensures cap.None? <==> old(next[0]) >= SLOTS_PER_PAGE
      ensures next[..] == old(next[..])[0 := old(next[0]) + 1]
      ensures OthersKept(old(Graph()), old(time), Graph(), time, 0)
      ensures cap.None? ==> Graph() == old(Graph()) && time == old(time)
      ensures cap.Some? ==> IsWrite(old(Graph()), old(time), Graph(), time, Kernel, old(next[0]), cap.value,
                                    GrantedTo(Userspace(grantee)))
      ensures cap.Some? ==> IsGrant(old(Graph()), Graph(), cap.value, Kernel, Userspace(grantee))
      ensures cap.Some? ==> !old(Given(cap.value)) && Given(cap.value)
    {
      hide Ordered, PagesOk, Unpack, Certifier, LocalIndex, IsCap, SlotOfCap, NewlyGiven, Unaffected, OthersKept;
      GrantedUnpacks(Userspace(grantee));
      cap := StoreNew(Kernel, GrantedTo(Userspace(grantee)));
      if cap.Some? {
        GrantEffect(old(Graph()), old(time), cap.value, Kernel, Userspace(grantee));
        SlotOfNewCap(Kernel, old(next[0]));
      }
    }

    /** A process forwards a capability that exists: `forwardee` gets exactly its claim. */
    method Forward(pid: nat, inner: nat, forwardee: Actor) returns (cap: Option<nat>)
      requires Valid() && Userspace(pid).HasPage() && pid !in unborn && forwardee.Legal() && Given(inner)
      modifies this`time, this`clock, slots, next
      ensures Valid() && NewlyGiven(old(time), time, cap)
      ensures cap.None? <==> old(next[pid]) >= SLOTS_PER_PAGE
      ensures next[..] == old(next[..])[pid := old(next[pid]) + 1]
      ensures OthersKept(old(Graph()), old(time), Graph(), time, pid)
      ensures cap.None? ==> Graph() == old(Graph()) && time == old(time)
      ensures cap.Some? ==> IsForward(old(Graph()), Graph(), cap.value, Userspace(pid), forwardee, inner)
                            && !old(Given(cap.value)) && Given(cap.value)
      ensures cap.Some? ==> IsWrite(old(Graph()), old(time), Graph(), time, Userspace(pid), old(next[pid]), cap.value,
                                    ForwardedTo(forwardee, inner))
    {
      hide Ordered, PagesOk, Unpack, Certifier, LocalIndex, SlotOfCap, NewlyGiven, Unaffected, SameOutcome, OthersKept;
      assert IsCap(inner);
      ForwardedUnpacks(forwardee, inner);
      cap := StoreNew(Userspace(pid), ForwardedTo(forwardee, inner));
      if cap.Some? {
        ForwardEffect(old(Graph()), old(time), cap.value, Userspace(pid), forwardee, inner);
        SlotOfNewCap(Userspace(pid), old(next[pid]));
      }
    }

    /** The export of a process that does not run yet, slot 0 of its page, is granted to `grantee`. */
    method GrantExport(n: nat, grantee: nat) returns (cap: nat)
      requires Valid() && Userspace(grantee).Legal() && n in unborn && Userspace(n).HasPage() && !Given(NewCap(Userspace(n), 0))
      modifies this`time, this`clock, slots
      ensures Valid() && NewlyGiven(old(time), time, Some(cap)) && cap == NewCap(Userspace(n), 0) && Given(cap)
      ensures Certifier(cap).Some?
      ensures IsGrant(old(Graph()), Graph(), cap, Userspace(n), Userspace(grantee))
      ensures OthersKept(old(Graph()), old(time), Graph(), time, n)
      ensures SlotOfCap(cap) < SLOTS && Graph() == old(Graph())[SlotOfCap(cap) := GrantedTo(Userspace(grantee))]
    {
      hide Ordered, PagesOk, Unpack, Certifier, LocalIndex, IsCap, SlotOfCap, NewlyGiven, Unaffected, IsGrant, OthersKept;
      cap := NewCap(Userspace(n), 0);
      CapRoundTrip(Userspace(n), 0);
      SlotOfCapIs(cap);
      var x, v := SlotOf(Userspace(n), 0), GrantedTo(Userspace(grantee));
      GrantedUnpacks(Userspace(grantee));
      FreshKeepsOrder(Graph(), time, clock, x, v);
      ExportKeepsPages(Graph(), time, next[..], unborn, n, v, clock + 1);
      GrantEffect(Graph(), time, cap, Userspace(n), Userspace(grantee));
      MoreTaken(time, cap, clock + 1);
      WriteKeepsOthers(Graph(), time, n, 0, v, clock + 1);
      slots[x] := v;
      time := time[x := clock + 1];
      clock := clock + 1;
    }

    /** One argument of a new process: its certificate, made out to the kernel, is made out to `n`. */
    method Readdress(cap: nat, n: nat, ghost actor: Actor)
      requires Valid() && n in unborn && Userspace(n).HasPage() && Given(cap)
      requires AddressedTo(Graph(), cap, actor) && (actor == Kernel || actor == Userspace(n))
      modifies slots
      ensures Valid() && Readdressed(old(Graph()), Graph(), cap, Userspace(n))
    {
      hide Ordered, PagesOk, Unpack, Certifier, LocalIndex, IsCap, SlotOfCap, Readdressed, ReplaceRecipient, AddressedTo;
      SlotOfCapIs(cap);
      CanReaddress(Graph(), time, cap, Userspace(n), actor);
      var slot := SlotOf(Certifier(cap).value, LocalIndex(cap));
      var after := ReplaceRecipient(slots[slot], Userspace(n)).value;
      ReaddressedKeepsPages(Graph(), Graph()[slot := after], cap, Userspace(n), time, next[..], unborn);
      ReaddressedKeepsOrder(Graph(), Graph()[slot := after], cap, Userspace(n), time);
      slots[slot] := after;
    }

    /** Starts process `n` for `sender`, who is granted its export, and makes the certificates among its arguments, which
        `sender` made out to the kernel, out to `n`. `None` is the panic on an argument that `sender` did not certify. */
    method HandOver(sender: nat, n: nat, caps: seq<nat>) returns (exported: Option<nat>)
      requires Valid() && Userspace(sender).Legal() && n in unborn && Userspace(n).HasPage()
      requires !Given(NewCap(Userspace(n), 0))
      requires forall cap <- caps :: Given(cap) && AddressedTo(Graph(), cap, Kernel)
      modifies this`time, this`clock, this`unborn, slots
      ensures exported.None? <==> exists cap :: cap in caps && !CertifiedBy(cap, Userspace(sender))
      ensures exported.Some? ==> Valid() && NewlyGiven(old(time), time, exported) && unborn == old(unborn) - {n}
      ensures exported.Some? ==> exported.value == NewCap(Userspace(n), 0)
      ensures exported.Some? ==> OthersKept(old(Graph()), old(time), Graph(), time, n)
      ensures exported.Some? ==> IsHandOver(old(Graph()), Graph(), exported.value, sender, n, caps)
    {
      hide Ordered, PagesOk, Unpack, Certifier, LocalIndex, SlotOfCap, NewlyGiven, Unaffected, IsGrant, Readdressed, HandedOver;
      hide GivenAt, AddressedTo, OthersKept;
      var cap := GrantExport(n, sender);
      ghost var mid := Graph();
      ghost var given := time;
      AllStillGiven(old(time), time, Some(cap), caps);
      StillAddressedToKernel(old(Graph()), mid, old(time), cap, caps);
      NothingHandedOver(mid, caps, Userspace(n));
      for i := 0 to |caps|
        invariant Valid() && HandedOver(mid, Graph(), caps, i, Userspace(n))
        invariant time == given && unborn == old(unborn) && OthersKept(old(Graph()), old(time), Graph(), time, n)
        invariant forall j :: 0 <= j < i ==> CertifiedBy(caps[j], Userspace(sender))
      {
        if !CertifiedBy(caps[i], Userspace(sender)) {
          return None;
        }
        ghost var before := Graph();
        HandOverAt(mid, before, caps, i, Userspace(n));
        UnbornIsQuiet(before, time, next[..], unborn, n);
        Readdress(caps[i], n, if caps[i] in caps[..i] then Userspace(n) else Kernel);
        ReaddressKeepsAll(old(Graph()), old(time), before, time, Graph(), caps[i], Userspace(n), n);
        OneHandedOver(mid, before, Graph(), caps, i, Userspace(n));
      }
      BornKeepsPages(Graph(), time, next[..], unborn, n);
      unborn := unborn - {n};
      exported := Some(cap);
    }

    /** A process starts with arguments that have been granted to it already. */
    ghost method Start(n: nat)
      requires Valid() && n in unborn
      modifies this`unborn
      ensures Valid() && unborn == old(unborn) - {n}
    {
      BornKeepsPages(Graph(), time, next[..], unborn, n);
      unborn := unborn - {n};
    }

    /** The certificate at the end of the chain, as `Resolve` has it, on whatever certificates there are, if it has an end.
        On those that grants, forwards and hand-offs make it has one, and validation panics only where no page is. */
    method Validate(cap: nat, pid: nat) returns (outcome: Outcome)
      requires slots.Length == SLOTS && IsCap(cap) && Finishes(Graph(), cap, Userspace(pid))
      ensures Resolves(Graph(), cap, Userspace(pid), outcome)
      ensures Valid() ==> (outcome == Aborted <==> cap >= CERTIFICATES_END)
    {
      hide Certifier, LocalIndex, IsCap, Unpack, Ordered, SlotOk, SlotOfCap, SlotOf, PageOk, Resolve, GoesOn, Resolves, PagesOk;
      var capability, claimer := cap, Userspace(pid);
      ghost var rounds := 0;
      ghost var fuel: nat :| !Resolve(Graph(), cap, Userspace(pid), fuel).Unfinished?;
      Begins(Graph(), cap, claimer);
      while true
        invariant IsCap(capability) && GoesOn(Graph(), cap, Userspace(pid), rounds, capability, claimer)
        decreases fuel - rounds
      {
        NotYet(Graph(), cap, Userspace(pid), rounds, capability, claimer, fuel);
        Ends(Graph(), cap, Userspace(pid), rounds, capability, claimer);
        AbortsOffPages(this, cap, Userspace(pid));
        var certifier := Certifier(capability);
        if certifier.None? {
          return Aborted;
        }
        SlotOfCapIs(capability);
        MeaningAt(Graph(), capability);
        match Unpack(slots[SlotOf(certifier.value, LocalIndex(capability))]) {
          case None =>
            return Aborted;
          case Some(Granted(grantee)) =>
            outcome := if grantee == claimer then Root(capability) else Rejected;
            return;
          case Some(Forwarded(forwardee, inner)) =>
            if forwardee != claimer {
              return Rejected;
            }
            OneMore(Graph(), cap, Userspace(pid), rounds, capability, claimer);
            rounds := rounds + 1;
            capability, claimer := inner, certifier.value;
        }
      }
    }
  }

  /** On the pages of a run every claim ends, and it aborts exactly where no page is. */
  lemma AbortsOffPages(pages: CertificatePages, cap: nat, claimer: Actor)
    requires IsCap(cap) && pages.slots.Length == SLOTS
    ensures pages.Valid() ==> Finishes(pages.Graph(), cap, claimer)
    ensures pages.Valid() ==> forall outcome :: Resolves(pages.Graph(), cap, claimer, outcome) ==>
                                (outcome == Aborted <==> cap >= CERTIFICATES_END)
  {
    hide Certifier, SlotOfCap, IsCap, Unpack, Ordered, PagesOk;
    var g := pages.Graph();
    CapIsItsParts(cap);
    if pages.Valid() {
      var fuel := if Certifier(cap).Some? then pages.time[SlotOfCap(cap)] + 1 else 1;
      if Certifier(cap).Some? { OrderedEnds(g, pages.time, cap, claimer); }
      assert Resolve(g, cap, claimer, fuel).Aborted? <==> Certifier(cap).None?;
      assert Resolves(g, cap, claimer, Resolve(g, cap, claimer, fuel));
      forall outcome | Resolves(g, cap, claimer, outcome)
        ensures outcome == Aborted <==> cap >= CERTIFICATES_END
      {
        OutcomeIsUnique(g, cap, claimer, outcome, Resolve(g, cap, claimer, fuel));
      }
    }
  }

  /** Before as many rounds as it takes, the claim has not ended. */
  lemma NotYet(g: Graph, cap: nat, claimer: Actor, rounds: nat, now: nat, nowBy: Actor, fuel: nat)
    requires IsCap(cap) && IsCap(now) && GoesOn(g, cap, claimer, rounds, now, nowBy)
    requires !Resolve(g, cap, claimer, fuel).Unfinished?
    ensures rounds < fuel
  {
    hide Certifier, Meaning, IsCap;
    assert Resolve(g, cap, claimer, 0 + rounds) == Resolve(g, now, nowBy, 0);
    if fuel <= rounds {
      MoreFuel(g, cap, claimer, fuel, rounds);
    }
  }

  lemma NothingGiven(g: Graph, time: seq<nat>)
    requires |time| == SLOTS && forall s: nat :: s < SLOTS ==> g[s] == ZERO && time[s] == 0
    ensures Ordered(g, time)
    ensures forall s: nat :: s < SLOTS ==> GrantedAt(g, s)
  {
    hide IsCap;
    PackingRoundTrip(Kernel, USER_CAPABILITIES_START, ZERO);
    assert Unpack(ZERO) == Some(Granted(Kernel));
  }

  ghost predicate GivenAt(time: seq<nat>, cap: nat) {
    IsCap(cap) && Certifier(cap).Some? && |time| == SLOTS && time[SlotOfCap(cap)] > 0
  }

  /** At most one capability has been given away since: `cap`. */
  ghost predicate NewlyGiven(before: seq<nat>, now: seq<nat>, cap: Option<nat>) {
    forall c: nat :: GivenAt(now, c) <==> GivenAt(before, c) || cap == Some(c)
  }

  lemma MoreTaken(time: seq<nat>, cap: nat, t: nat)
    requires |time| == SLOTS && IsCap(cap) && Certifier(cap).Some? && t > 0
    ensures NewlyGiven(time, time[SlotOfCap(cap) := t], Some(cap))
  {
    hide Certifier, SlotOfCap, IsCap;
    forall c: nat ensures GivenAt(time[SlotOfCap(cap) := t], c) <==> GivenAt(time, c) || c == cap {
      if IsCap(c) && Certifier(c).Some? && SlotOfCap(c) == SlotOfCap(cap) { SlotIdentifiesCap(c, cap); }
    }
  }

  lemma NoneTaken(time: seq<nat>)
    ensures NewlyGiven(time, time, None)
  {
  }

  lemma PagesFresh(g: Graph, time: seq<nat>, ns: seq<nat>, unborn: set<nat>)
    requires |time| == SLOTS && (forall s: nat :: s < SLOTS ==> time[s] == 0 && GrantedAt(g, s))
    requires |ns| == PAGES && ns[0] == 0 && (forall p :: 0 < p < PAGES ==> ns[p] == 1) && unborn == {1, 2, 3, 4, 5, 6, 7}
    ensures PagesOk(g, time, ns, unborn)
  {
    hide Unpack;
  }

  lemma PageFull(g: Graph, time: seq<nat>, n: nat, p: nat)
    requires PageOk(g, time, n, p, true) && n >= SLOTS_PER_PAGE
    ensures PageOk(g, time, n + 1, p, true)
  {
  }

  lemma NextUnused(g: Graph, time: seq<nat>, n: nat, p: nat)
    requires PageOk(g, time, n, p, true) && n < SLOTS_PER_PAGE && |time| == SLOTS
    ensures time[p * SLOTS_PER_PAGE + n] == 0
  {
    assert Unused(time, p, n);
  }

  /** The claim on `cap` comes, after some rounds, to a claim on `now`. */
  ghost predicate GoesOn(g: Graph, cap: nat, claimer: Actor, rounds: nat, now: nat, nowBy: Actor)
    requires IsCap(cap) && IsCap(now)
  {
    forall fuel: nat :: Resolve(g, cap, claimer, fuel + rounds) == Resolve(g, now, nowBy, fuel)
  }

  lemma Begins(g: Graph, cap: nat, claimer: Actor)
    requires IsCap(cap)
    ensures GoesOn(g, cap, claimer, 0, cap, claimer)
  {
    hide Resolve;
  }

  lemma Ends(g: Graph, cap: nat, claimer: Actor, rounds: nat, now: nat, nowBy: Actor)
    requires IsCap(cap) && IsCap(now) && GoesOn(g, cap, claimer, rounds, now, nowBy)
    ensures Meaning(g, now).None? ==> Resolves(g, cap, claimer, Aborted)
    ensures Certifier(now).None? ==> Meaning(g, now).None?
    ensures Meaning(g, now).Some? && Meaning(g, now).value.Granted? ==>
              Resolves(g, cap, claimer, if Meaning(g, now).value.grantee == nowBy then Root(now) else Rejected)
    ensures Meaning(g, now).Some? && Meaning(g, now).value.Forwarded? && Meaning(g, now).value.forwardee != nowBy ==>
              Resolves(g, cap, claimer, Rejected)
  {
    hide Certifier, Meaning;
    assert Certifier(now).None? ==> Meaning(g, now).None? by { NoCertifierNoMeaning(g, now); }
    assert Resolve(g, cap, claimer, 1 + rounds) == Resolve(g, now, nowBy, 1);
  }

  lemma NoCertifierNoMeaning(g: Graph, cap: nat)
    requires IsCap(cap)
    ensures Certifier(cap).None? ==> Meaning(g, cap).None?
  {
  }

  lemma OneMore(g: Graph, cap: nat, claimer: Actor, rounds: nat, now: nat, nowBy: Actor)
    requires IsCap(cap) && IsCap(now) && GoesOn(g, cap, claimer, rounds, now, nowBy)
    requires Meaning(g, now).Some? && Meaning(g, now).value.Forwarded? && Meaning(g, now).value.forwardee == nowBy
    ensures GoesOn(g, cap, claimer, rounds + 1, Meaning(g, now).value.inner, Certifier(now).value)
  {
    hide Certifier, Meaning;
    var inner, certifier := Meaning(g, now).value.inner, Certifier(now).value;
    forall fuel: nat ensures Resolve(g, cap, claimer, fuel + (rounds + 1)) == Resolve(g, inner, certifier, fuel) {
      assert Resolve(g, cap, claimer, (fuel + 1) + rounds) == Resolve(g, now, nowBy, fuel + 1);
    }
  }

  lemma SlotOfCapIs(cap: nat)
    requires IsCap(cap) && Certifier(cap).Some?
    ensures SlotOfCap(cap) == SlotOf(Certifier(cap).value, LocalIndex(cap)) < SLOTS
  {
  }
}
