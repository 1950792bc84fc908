/** Capability certificates: how they are packed into words and how a claim is followed through them. */
module Capabilities {
  import opened Actors
  import opened Arithmetic
  import opened Machine
  import opened Options

  const CERTIFICATE_SIZE: nat := 8
  const SLOTS_PER_PAGE: nat := 512
  const PAGES: nat := PROCESS_COUNT
  const SLOTS: nat := 4096
  const USER_CAPABILITIES_START: nat := 0x200_0000
  const USER_CAPABILITIES_END: nat := 0x400_0000
  /** Processes map the certificates before this. */
  const CERTIFICATES_END: nat := USER_CAPABILITIES_START + PAGES * PAGE_SIZE

  type u32 = x: nat | x < 0x1_0000_0000

  // ---- Addresses ----

  /** A capability is the address of its certificate. Such addresses cover more pages than there are processes. */
  predicate IsCap(a: nat) {
    USER_CAPABILITIES_START <= a < USER_CAPABILITIES_END && a % CERTIFICATE_SIZE == 0
  }

  function NewCap(certifier: Actor, localIndex: nat): (cap: nat)
    requires certifier.Legal() && localIndex < SLOTS_PER_PAGE
  {
    USER_CAPABILITIES_START + certifier.Code() * PAGE_SIZE + localIndex * CERTIFICATE_SIZE
  }

  /** `None` where making the process number would panic. */
  function ProcessActor(n: nat): Option<Actor> {
    if n == 0 then None else if n <= MAX_PROCESSES then Some(Userspace(n)) else None
  }

  /** `None` where the certificate cannot be read: making the process number panics, or, on the page of number 8, the kernel
      faults because nothing is mapped there, and panics. */
  function Certifier(cap: nat): Option<Actor>
    requires IsCap(cap)
  {
    var page := (cap - USER_CAPABILITIES_START) / PAGE_SIZE;
    if page == 0 then Some(Kernel) else if page < PAGES then Some(Userspace(page)) else None
  }

  function LocalIndex(cap: nat): (i: nat)
    ensures i < SLOTS_PER_PAGE
  {
    cap % PAGE_SIZE / CERTIFICATE_SIZE
  }

  /** Where the certificate lies in the array of pages. */
  function SlotOf(certifier: Actor, localIndex: nat): nat {
    certifier.Code() * SLOTS_PER_PAGE + localIndex
  }

  /** Addresses on the pages of the kernel and of processes that have a slot are exactly the pairs of a certifier and an index. */
  lemma CapRoundTrip(certifier: Actor, localIndex: nat)
    requires certifier.HasPage() && localIndex < SLOTS_PER_PAGE
    ensures var cap := NewCap(certifier, localIndex);
            IsCap(cap) && Certifier(cap) == Some(certifier) && LocalIndex(cap) == localIndex && SlotOf(certifier, localIndex) < SLOTS
  {
    var cap, page := NewCap(certifier, localIndex), certifier.Code();
    DivModUnique(cap - USER_CAPABILITIES_START, page, localIndex * CERTIFICATE_SIZE, PAGE_SIZE);
    DivModUnique(cap, 0x2000 + page, localIndex * CERTIFICATE_SIZE, PAGE_SIZE);
    DivModUnique(localIndex * CERTIFICATE_SIZE, localIndex, 0, CERTIFICATE_SIZE);
    DivModUnique(cap, 0x40_0000 + page * SLOTS_PER_PAGE + localIndex, 0, CERTIFICATE_SIZE);
  }

  lemma CapIsItsParts(cap: nat)
    requires IsCap(cap)
    ensures Certifier(cap).Some? <==> cap < CERTIFICATES_END
    ensures Certifier(cap).Some? ==> Certifier(cap).value.HasPage() && NewCap(Certifier(cap).value, LocalIndex(cap)) == cap
  {
    var page, rest := Quotient(cap - USER_CAPABILITIES_START, PAGE_SIZE);
    DivModUnique(cap - USER_CAPABILITIES_START, page, rest, PAGE_SIZE);
    DivModUnique(cap, 0x2000 + page, rest, PAGE_SIZE);
    var index := Multiple(cap, CERTIFICATE_SIZE);
    DivModUnique(rest, index - (0x2000 + page) * SLOTS_PER_PAGE, 0, CERTIFICATE_SIZE);
  }

  // ---- Certificates ----

  datatype Certificate = Certificate(grantee: u32, payload: u32)

  datatype Unpacked = Granted(grantee: Actor) | Forwarded(forwardee: Actor, inner: nat)

  const ZERO := Certificate(0, 0)

  function GrantedTo(grantee: Actor): Certificate
    requires grantee.Legal()
  {
    Certificate(grantee.Code(), 0)
  }

  function ForwardedTo(forwardee: Actor, cap: nat): Certificate
    requires forwardee.Legal()
  {
    Certificate(forwardee.Code(), cap % 0x1_0000_0000)
  }

  /** `None` where the source panics: on a recipient that is not a process number after truncation to 16 bits, and on a
      payload that is not the address of a certificate. */
  function Unpack(c: Certificate): Option<Unpacked> {
    var recipient := if c.grantee == 0 then Some(Kernel) else ProcessActor(c.grantee % 0x1_0000);
    if recipient.None? then None
    else if c.payload == 0 then Some(Granted(recipient.value))
    else if IsCap(c.payload) then Some(Forwarded(recipient.value, c.payload))
    else None
  }

  function ReplaceRecipient(c: Certificate, recipient: Actor): Option<Certificate>
    requires recipient.Legal()
  {
    match Unpack(c)
    case None => None
    case Some(Granted(_)) => Some(GrantedTo(recipient))
    case Some(Forwarded(_, inner)) => Some(ForwardedTo(recipient, inner))
  }

  /** Packing loses nothing: every legal recipient and every capability address come back, and replacing the recipient
      replaces just that. */
  lemma PackingRoundTrip(actor: Actor, cap: nat, c: Certificate)
    requires actor.Legal() && IsCap(cap)
    ensures Unpack(GrantedTo(actor)) == Some(Granted(actor))
    ensures Unpack(ForwardedTo(actor, cap)) == Some(Forwarded(actor, cap))
    ensures ReplaceRecipient(c, actor).None? <==> Unpack(c).None?
    ensures Unpack(c).Some? ==> Unpack(ReplaceRecipient(c, actor).value) == Some(
              match Unpack(c).value
              case Granted(_) => Granted(actor)
              case Forwarded(_, inner) => Forwarded(actor, inner))
  {
  }

  /** What a certificate says: only the low 16 bits of a process number count, but a kernel certificate has none at all set. */
  lemma UnpackIff(c: Certificate, u: Unpacked)
    ensures Unpack(c) == Some(u) <==>
            match u
            case Granted(grantee) =>
              && c.payload == 0 && grantee.Legal() && c.grantee % 0x1_0000 == grantee.Code()
              && (c.grantee == 0 <==> grantee == Kernel)
            case Forwarded(forwardee, inner) =>
              && c.payload == inner && 0x200_0000 <= inner < 0x400_0000 && inner % 8 == 0
              && forwardee.Legal() && c.grantee % 0x1_0000 == forwardee.Code() && (c.grantee == 0 <==> forwardee == Kernel)
  {
  }

  // ---- Following a claim ----

  datatype Outcome = Root(cap: nat) | Rejected | Aborted | Unfinished

  type Graph = g: seq<Certificate> | |g| == SLOTS witness seq(SLOTS, _ => ZERO)

  /** The certificate a capability stands for, where its page exists. */
  function Lookup(g: Graph, cap: nat): Certificate
    requires IsCap(cap) && Certifier(cap).Some?
  {
    CapRoundTrip(Certifier(cap).value, LocalIndex(cap));
    CapIsItsParts(cap);
    g[SlotOf(Certifier(cap).value, LocalIndex(cap))]
  }

  function Meaning(g: Graph, cap: nat): (r: Option<Unpacked>)
    requires IsCap(cap)
    ensures r.Some? ==> Certifier(cap).Some? && (r.value.Forwarded? ==> IsCap(r.value.inner))
  {
    if Certifier(cap).Some? then Unpack(Lookup(g, cap)) else None
  }

  /** `validate` cut off after `fuel` rounds. */
  function Resolve(g: Graph, cap: nat, claimer: Actor, fuel: nat): Outcome
    requires IsCap(cap)
    decreases fuel
  {
    if fuel == 0 then Unfinished else
    match Meaning(g, cap)
    case None => Aborted
    case Some(Granted(grantee)) => if grantee == claimer then Root(cap) else Rejected
    case Some(Forwarded(forwardee, inner)) =>
      if forwardee == claimer then Resolve(g, inner, Certifier(cap).value, fuel - 1) else Rejected
  }

  /** What `validate` ends with, if it ends. */
  ghost predicate Resolves(g: Graph, cap: nat, claimer: Actor, outcome: Outcome)
    requires IsCap(cap)
  {
    !outcome.Unfinished? && exists fuel: nat :: Resolve(g, cap, claimer, fuel) == outcome
  }

  ghost predicate Finishes(g: Graph, cap: nat, claimer: Actor)
    requires IsCap(cap)
  {
    exists fuel: nat :: !Resolve(g, cap, claimer, fuel).Unfinished?
  }

  /** A delegation chain: certificates from the claimed one to a granted one, each forwarded to whoever claims it, where
      the first claimer is given and each later one is the certifier before. */
  ghost predicate IsChain(g: Graph, chain: seq<nat>, claimer: Actor)
    decreases |chain|
  {
    && chain != [] && IsCap(chain[0])
    && if |chain| == 1 then Meaning(g, chain[0]) == Some(Granted(claimer))
       else
         && Meaning(g, chain[0]) == Some(Forwarded(claimer, chain[1]))
         && Certifier(chain[0]).Some? && IsChain(g, chain[1..], Certifier(chain[0]).value)
  }

  lemma {:induction false} ChainResolves(g: Graph, chain: seq<nat>, claimer: Actor)
    requires IsChain(g, chain, claimer)
    ensures Resolve(g, chain[0], claimer, |chain|) == Root(chain[|chain| - 1])
    decreases |chain|
  {
    hide Meaning, Certifier;
    if |chain| > 1 {
      ChainResolves(g, chain[1..], Certifier(chain[0]).value);
    }
  }

  lemma {:induction false} ResolveHasChain(g: Graph, cap: nat, claimer: Actor, fuel: nat) returns (chain: seq<nat>)
    requires IsCap(cap) && Resolve(g, cap, claimer, fuel).Root?
    ensures IsChain(g, chain, claimer) && chain != [] && chain[0] == cap && Resolve(g, cap, claimer, fuel) == Root(chain[|chain| - 1])
    decreases fuel
  {
    hide Meaning, Certifier;
    match Meaning(g, cap)
    case Some(Granted(_)) => chain := [cap];
    case Some(Forwarded(_, inner)) =>
      var rest := ResolveHasChain(g, inner, Certifier(cap).value, fuel - 1);
      chain := [cap] + rest;
      assert chain[1..] == rest;
  }

  lemma {:induction false} MoreFuel(g: Graph, cap: nat, claimer: Actor, fuel: nat, more: nat)
    requires IsCap(cap) && fuel <= more && !Resolve(g, cap, claimer, fuel).Unfinished?
    ensures Resolve(g, cap, claimer, more) == Resolve(g, cap, claimer, fuel)
    decreases fuel
  {
    hide Meaning, Certifier;
    match Meaning(g, cap)
    case Some(Forwarded(forwardee, inner)) =>
      if forwardee == claimer {
        MoreFuel(g, inner, Certifier(cap).value, fuel - 1, more - 1);
      }
    case _ =>
  }

  /** On every graph of certificates, cyclic ones too: a claim is validated with root `r` exactly when a delegation chain
      leads from the claimed capability to `r`. */
  lemma ValidatedIffChain(g: Graph, cap: nat, claimer: Actor, r: nat)
    requires IsCap(cap)
    ensures Resolves(g, cap, claimer, Root(r)) <==>
            exists chain :: IsChain(g, chain, claimer) && chain != [] && chain[0] == cap && chain[|chain| - 1] == r
  {
    hide IsChain, Resolve, Meaning, Certifier;
    if Resolves(g, cap, claimer, Root(r)) {
      var fuel: nat :| Resolve(g, cap, claimer, fuel) == Root(r);
      var chain := ResolveHasChain(g, cap, claimer, fuel);
    }
    if chain :| IsChain(g, chain, claimer) && chain != [] && chain[0] == cap && chain[|chain| - 1] == r {
      ChainResolves(g, chain, claimer);
    }
  }

  /** There is only one outcome, so only one root. */
  lemma OutcomeIsUnique(g: Graph, cap: nat, claimer: Actor, a: Outcome, b: Outcome)
    requires IsCap(cap) && Resolves(g, cap, claimer, a) && Resolves(g, cap, claimer, b)
    ensures a == b
  {
    hide Resolve;
    var m: nat :| Resolve(g, cap, claimer, m) == a;
    var n: nat :| Resolve(g, cap, claimer, n) == b;
    if m <= n { MoreFuel(g, cap, claimer, m, n); } else { MoreFuel(g, cap, claimer, n, m); }
  }
}
