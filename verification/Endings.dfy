/** When following a claim ends, on any certificates, also those that a process wrote into its own page. */
module Endings {
  import opened Actors
  import opened Capabilities
  import opened Delegation
  import opened Options

  /** Where a claim has come to: a capability, and who claims it. */
  datatype Place = Place(cap: nat, claimer: Actor)

  /** One more forward that is made out to the claimer. */
  function Next(g: Graph, p: Place): (r: Option<Place>)
    ensures r.Some? ==> IsCap(r.value.cap)
  {
    if !IsCap(p.cap) then None else
    match Meaning(g, p.cap)
    case Some(Forwarded(forwardee, inner)) =>
      if forwardee == p.claimer then Some(Place(inner, Certifier(p.cap).value)) else None
    case _ => None
  }

  /** Where the claim comes to by `n` forwards, if they are there. */
  function Reached(g: Graph, p: Place, n: nat): Option<Place> {
    if n == 0 then Some(p) else
    match Reached(g, p, n - 1)
    case Some(q) => Next(g, q)
    case None => None
  }

  ghost predicate NeverEnds(g: Graph, p: Place)
    requires IsCap(p.cap)
  {
    forall fuel: nat :: Resolve(g, p.cap, p.claimer, fuel).Unfinished?
  }

  /** The claim comes back to where it has been. */
  ghost predicate ComesBack(g: Graph, p: Place) {
    exists i: nat, j: nat :: Repeats(g, p, i, j)
  }

  ghost predicate Repeats(g: Graph, p: Place, i: nat, j: nat) {
    i < j && Reached(g, p, i).Some? && Reached(g, p, i) == Reached(g, p, j)
  }

  lemma {:induction false} ReachedFirst(g: Graph, p: Place, n: nat)
    ensures Reached(g, p, n + 1) == match Next(g, p) { case Some(q) => Reached(g, q, n) case None => None }
    decreases n
  {
    hide Next;
    assert Reached(g, p, 1) == Next(g, p) by { assert Reached(g, p, 0) == Some(p); }
    if n > 0 {
      ReachedFirst(g, p, n - 1);
    }
  }

  /** Validation is still going on after as many rounds as there are forwards. */
  lemma {:induction false} UnfinishedIff(g: Graph, p: Place, fuel: nat)
    requires IsCap(p.cap)
    ensures Resolve(g, p.cap, p.claimer, fuel).Unfinished? <==> Reached(g, p, fuel).Some?
    decreases fuel
  {
    hide Meaning, Certifier, IsCap, Reached;
    if fuel == 0 {
      assert Reached(g, p, 0) == Some(p) by { NoForward(g, p); }
    } else {
      ReachedFirst(g, p, fuel - 1);
      if Next(g, p).Some? {
        UnfinishedIff(g, Next(g, p).value, fuel - 1);
      }
    }
  }

  lemma NoForward(g: Graph, p: Place)
    ensures Reached(g, p, 0) == Some(p)
  {
  }

  lemma {:induction false} ReachedBefore(g: Graph, p: Place, m: nat, n: nat)
    requires m <= n && Reached(g, p, n).Some?
    ensures Reached(g, p, m).Some?
    decreases n
  {
    hide Next;
    if m < n {
      ReachedBefore(g, p, m, n - 1);
    }
  }

  /** From the same place on, the same places. */
  lemma {:induction false} SameFromThere(g: Graph, p: Place, i: nat, j: nat, k: nat)
    requires Reached(g, p, i) == Reached(g, p, j)
    ensures Reached(g, p, i + k) == Reached(g, p, j + k)
    decreases k
  {
    hide Next;
    if k > 0 {
      SameFromThere(g, p, i, j, k - 1);
    }
  }

  lemma {:induction false} ForeverReached(g: Graph, p: Place, i: nat, j: nat, n: nat)
    requires Repeats(g, p, i, j)
    ensures Reached(g, p, n).Some?
    decreases n
  {
    hide Reached;
    if n <= j {
      ReachedBefore(g, p, n, j);
    } else {
      SameFromThere(g, p, i, j, n - j);
      ForeverReached(g, p, i, j, n - (j - i));
    }
  }

  /** The certificate says whom a claim that goes on from it was by. */
  lemma PlaceIsItsCap(g: Graph, p: Place, q: Place)
    requires Next(g, p).Some? && Next(g, q).Some? && p.cap == q.cap
    ensures p == q
  {
    hide Meaning, Certifier, IsCap;
  }

  ghost predicate GoesPast(g: Graph, p: Place, n: nat) {
    Reached(g, p, n).Some? && Next(g, Reached(g, p, n).value).Some?
  }

  ghost function SlotAt(g: Graph, p: Place, n: nat): (s: nat)
    requires GoesPast(g, p, n)
    ensures s < SLOTS
  {
    SlotOfCap(Reached(g, p, n).value.cap)
  }

  /** Among more numbers than there are values, two are equal. */
  lemma {:induction false} Pigeonhole(s: seq<nat>, n: nat) returns (i: nat, j: nat)
    requires 0 < n < |s| && forall k :: 0 <= k < |s| ==> s[k] < n
    ensures i < j < |s| && s[i] == s[j]
    decreases n
  {
    if n == 1 {
      return 0, 1;
    }
    if i', j' :| 0 <= i' < j' < |s| && s[i'] == s[j'] == n - 1 {
      return i', j';
    }
    var k := |s| - 1;
    if m :| 0 <= m < |s| && s[m] == n - 1 {
      k := m;
    }
    i, j := Pigeonhole(s[..k] + s[k + 1..], n - 1);
    i, j := if i < k then i else i + 1, if j < k then j else j + 1;
  }

  lemma LongWalkRepeats(g: Graph, p: Place)
    requires Reached(g, p, SLOTS + 1).Some?
    ensures ComesBack(g, p)
  {
    hide Next, SlotOfCap;
    forall n: nat | n <= SLOTS ensures GoesPast(g, p, n) {
      ReachedBefore(g, p, n + 1, SLOTS + 1);
    }
    var slots := seq(SLOTS + 1, n requires 0 <= n <= SLOTS => SlotAt(g, p, n));
    var i, j := Pigeonhole(slots, SLOTS);
    SameSlotSamePlace(g, p, i, j);
    assert Repeats(g, p, i, j);
  }

  lemma SameSlotSamePlace(g: Graph, p: Place, i: nat, j: nat)
    requires GoesPast(g, p, i) && GoesPast(g, p, j) && SlotAt(g, p, i) == SlotAt(g, p, j)
    ensures Reached(g, p, i).Some? && Reached(g, p, i) == Reached(g, p, j)
  {
    hide SlotOfCap, Certifier, IsCap;
    var a, b := Reached(g, p, i).value, Reached(g, p, j).value;
    SlotIdentifiesCap(a.cap, b.cap);
    PlaceIsItsCap(g, a, b);
  }

  /** On any certificates: validation does not end if and only if the claim comes back to a place where it has been, and it
      is enough to look at one round more than there are certificates. */
  lemma NeverEndsIff(g: Graph, cap: nat, claimer: Actor)
    requires IsCap(cap)
    ensures NeverEnds(g, Place(cap, claimer)) <==> ComesBack(g, Place(cap, claimer))
    ensures NeverEnds(g, Place(cap, claimer)) <==> Resolve(g, cap, claimer, SLOTS + 1).Unfinished?
    ensures Finishes(g, cap, claimer) <==> !NeverEnds(g, Place(cap, claimer))
  {
    hide Resolve, Reached, IsCap, Repeats;
    var p := Place(cap, claimer);
    UnfinishedIff(g, p, SLOTS + 1);
    if Reached(g, p, SLOTS + 1).Some? {
      LongWalkRepeats(g, p);
    }
    if i: nat, j: nat :| Repeats(g, p, i, j) {
      forall fuel: nat ensures Resolve(g, cap, claimer, fuel).Unfinished? {
        ForeverReached(g, p, i, j, fuel);
        UnfinishedIff(g, p, fuel);
      }
    }
  }

  /** A certificate that forwards itself to its own certifier: the certifier's claim on it never ends. */
  lemma SelfForwardNeverEnds(g: Graph, certifier: Actor, i: nat)
    requires certifier.HasPage() && i < SLOTS_PER_PAGE
    requires g[SlotOf(certifier, i)] == ForwardedTo(certifier, NewCap(certifier, i))
    ensures IsCap(NewCap(certifier, i)) && NeverEnds(g, Place(NewCap(certifier, i), certifier))
  {
    hide IsCap, Certifier, LocalIndex, Resolve, Reached, Unpack;
    var cap := NewCap(certifier, i);
    SlotOfNewCap(certifier, i);
    MeaningAt(g, cap);
    ForwardedUnpacks(certifier, cap);
    var p := Place(cap, certifier);
    assert Repeats(g, p, 0, 1) by { NoForward(g, p); ReachedFirst(g, p, 0); }
    NeverEndsIff(g, cap, certifier);
  }
}
