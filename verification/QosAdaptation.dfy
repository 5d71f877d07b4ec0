/**
 * Choosing profiles: the subscription request that meets all publishers of a topic, and the
 * publisher offer that stands for all recorded publishers.
 */
module QosAdaptation {
  import opened Basics
  import opened Yaml
  import opened QosCodec

  // ----- Compatibility -----

  /** The kinds of reliability and durability the adaptation tells apart. */
  predicate TwoKinds(q: Qos) {
    q.reliability in {RELIABLE, BEST_EFFORT} && q.durability in {TRANSIENT_LOCAL, VOLATILE}
  }

  /** Best effort is weaker than reliable, volatile weaker than transient local. */
  predicate ReliableEnough(offered: int, requested: int) { requested == RELIABLE ==> offered == RELIABLE }

  predicate DurableEnough(offered: int, requested: int) { requested == TRANSIENT_LOCAL ==> offered == TRANSIENT_LOCAL }

  /** An offer satisfies a request when each of its policies is at least as strong (sections 2.2.3.4
      and 2.2.3.14 of OMG DDS 1.4). */
  predicate Satisfies(offer: Qos, request: Qos) {
    ReliableEnough(offer.reliability, request.reliability) && DurableEnough(offer.durability, request.durability)
  }

  predicate SatisfiedByAll(request: Qos, offers: seq<Qos>) {
    forall i | 0 <= i < |offers| :: Satisfies(offers[i], request)
  }

  // ----- The adapted request -----

  predicate AllReliable(offers: seq<Qos>) { forall i | 0 <= i < |offers| :: offers[i].reliability == RELIABLE }

  predicate AllTransientLocal(offers: seq<Qos>) {
    forall i | 0 <= i < |offers| :: offers[i].durability == TRANSIENT_LOCAL
  }

  function MaxDepth(offers: seq<Qos>): uint64 {
    if offers == [] then 0
    else
      var most, last := MaxDepth(offers[..|offers| - 1]), offers[|offers| - 1].depth;
      if last > most then last else most
  }

  lemma {:induction false} MaxDepthIsMaximum(offers: seq<Qos>)
    ensures forall i | 0 <= i < |offers| :: offers[i].depth <= MaxDepth(offers)
    ensures MaxDepth(offers) == 0 || exists i :: 0 <= i < |offers| && offers[i].depth == MaxDepth(offers)
  {
    if offers != [] {
      var most := offers[..|offers| - 1];
      MaxDepthIsMaximum(most);
      assert forall i | 0 <= i < |most| :: most[i] == offers[i];
    }
  }

  function KeepAll(q: Qos): Qos { q.(history := KEEP_ALL, depth := 0) }

  function KeepLast(q: Qos, depth: uint64): Qos { q.(history := KEEP_LAST, depth := depth) }

  function AdaptedRequest(offers: seq<Qos>): Qos {
    if offers == [] then DEFAULT_QOS
    else
      var q := if MaxDepth(offers) > 1 then KeepLast(DEFAULT_QOS, MaxDepth(offers)) else KeepAll(DEFAULT_QOS);
      q.(reliability := if AllReliable(offers) then RELIABLE else BEST_EFFORT,
         durability := if AllTransientLocal(offers) then TRANSIENT_LOCAL else VOLATILE)
  }

  /** The loop over the endpoints. */
  method CountOffers(offers: seq<Qos>) returns (reliable: nat, transientLocal: nat, maxDepth: uint64)
    ensures reliable == |offers| <==> AllReliable(offers)
    ensures transientLocal == |offers| <==> AllTransientLocal(offers)
    ensures maxDepth == MaxDepth(offers)
  {
    reliable, transientLocal, maxDepth := 0, 0, 0;
    for k := 0 to |offers|
      invariant reliable <= k && (reliable == k <==> forall i | 0 <= i < k :: offers[i].reliability == RELIABLE)
      invariant transientLocal <= k
      invariant transientLocal == k <==> forall i | 0 <= i < k :: offers[i].durability == TRANSIENT_LOCAL
      invariant maxDepth == MaxDepth(offers[..k])
    {
      assert offers[..k + 1][..k] == offers[..k];
      if offers[k].reliability == RELIABLE { reliable := reliable + 1; }
      if offers[k].durability == TRANSIENT_LOCAL { transientLocal := transientLocal + 1; }
      if offers[k].depth > maxDepth { maxDepth := offers[k].depth; }
    }
    assert offers[..|offers|] == offers;
  }

  method AdaptRequestToOffers(offers: seq<Qos>) returns (request: Qos)
    ensures request == AdaptedRequest(offers)
  {
    if offers == [] { return DEFAULT_QOS; }
    var reliable, transientLocal, maxDepth := CountOffers(offers);
    request := DEFAULT_QOS;
    request := if maxDepth > 1 then KeepLast(request, maxDepth) else KeepAll(request);
    request := request.(reliability := if reliable == |offers| then RELIABLE else BEST_EFFORT);
    request := request.(durability := if transientLocal == |offers| then TRANSIENT_LOCAL else VOLATILE);
  }

  /** All offers satisfy the adapted request, and they satisfy another one exactly when it asks
      for no more. */
  lemma StrongestRequest(offers: seq<Qos>, request: Qos)
    requires offers != [] && TwoKinds(request) && forall i | 0 <= i < |offers| :: TwoKinds(offers[i])
    ensures SatisfiedByAll(AdaptedRequest(offers), offers)
    ensures SatisfiedByAll(request, offers) <==> Satisfies(AdaptedRequest(offers), request)
  {
    if SatisfiedByAll(request, offers) {
      assert request.reliability == RELIABLE ==> AllReliable(offers);
      assert request.durability == TRANSIENT_LOCAL ==> AllTransientLocal(offers);
    }
  }

  /** Neither the order of the endpoints nor endpoints with equal profiles matter. */
  lemma RequestOrderIrrelevant(a: seq<Qos>, b: seq<Qos>)
    requires forall q :: q in a <==> q in b
    ensures AdaptedRequest(a) == AdaptedRequest(b)
  {
    assert a == [] <==> b == [] by {
      if a != [] { assert a[0] in b; }
      if b != [] { assert b[0] in a; }
    }
    SameVerdicts(a, b);
    SameVerdicts(b, a);
    DepthAtLeast(a, b);
    DepthAtLeast(b, a);
  }

  lemma SameVerdicts(a: seq<Qos>, b: seq<Qos>)
    requires forall q | q in a :: q in b
    ensures AllReliable(b) ==> AllReliable(a)
    ensures AllTransientLocal(b) ==> AllTransientLocal(a)
  {
    forall i | 0 <= i < |a| ensures a[i] in b { assert a[i] in a; }
  }

  lemma DepthAtLeast(a: seq<Qos>, b: seq<Qos>)
    requires forall q | q in a :: q in b
    ensures MaxDepth(a) <= MaxDepth(b)
  {
    MaxDepthIsMaximum(a);
    MaxDepthIsMaximum(b);
    if MaxDepth(a) > 0 {
      var i :| 0 <= i < |a| && a[i].depth == MaxDepth(a);
      assert a[i] in b;
    }
  }

  /** More endpoints never make the request stronger, once there is one. */
  lemma MoreOffersNeverStrengthen(offers: seq<Qos>, more: seq<Qos>)
    requires offers != []
    ensures Satisfies(AdaptedRequest(offers), AdaptedRequest(offers + more))
    ensures AdaptedRequest(offers + more).depth >= AdaptedRequest(offers).depth
  {
    SameVerdicts(offers, offers + more);
    DepthAtLeast(offers, offers + more);
  }

  /** From no endpoint to one the request can get stronger: the default asks for volatile. */
  lemma FirstOfferMayStrengthen(offer: Qos)
    requires TwoKinds(offer)
    ensures Satisfies(AdaptedRequest([]), AdaptedRequest([offer])) <==> offer.durability == VOLATILE
  {
    assert [offer][0] == offer;
  }

  /** Everything but history, depth, reliability and durability is as in a default profile. */
  predicate OtherwiseDefault(q: Qos) {
    && q.deadline == q.lifespan == q.leaseDuration == Time(0, 0) && q.liveliness == 0 && !q.avoidNamespaces
  }

  /** The request keeps the greatest depth offered when that is above 1 and keeps all otherwise, is
      reliable or transient local only when all offers are, and is the default without offers. */
  lemma RequestFields(offers: seq<Qos>)
    ensures var r := AdaptedRequest(offers);
      && OtherwiseDefault(r)
      && (offers == [] ==> r.history == 1 && r.depth == 10 && r.reliability == 1 && r.durability == 2)
      && (offers != [] ==>
        && r.reliability == (if forall i | 0 <= i < |offers| :: offers[i].reliability == 1 then 1 else 2)
        && r.durability == (if forall i | 0 <= i < |offers| :: offers[i].durability == 1 then 1 else 2)
        && if forall i | 0 <= i < |offers| :: offers[i].depth <= 1 then r.history == 2 && r.depth == 0
           else
             && r.history == 1 && (forall i | 0 <= i < |offers| :: offers[i].depth <= r.depth)
             && exists i | 0 <= i < |offers| :: offers[i].depth == r.depth)
  {
    MaxDepthIsMaximum(offers);
  }

  // ----- The adapted offer -----

  /** Equality of the policies that affect compatibility, history and lifespan left out. */
  predicate SameOffer(a: Qos, b: Qos) {
    && a.reliability == b.reliability && a.durability == b.durability && a.deadline == b.deadline
    && a.liveliness == b.liveliness && a.leaseDuration == b.leaseDuration
  }

  predicate AllSame(profiles: seq<Qos>) {
    forall i, j | 0 <= i < |profiles| && 0 <= j < |profiles| :: SameOffer(profiles[i], profiles[j])
  }

  /** Comparing every profile with the first decides whether any two of them agree. */
  method AllProfilesEffectivelySame(profiles: seq<Qos>) returns (same: bool)
    requires profiles != []
    ensures same <==> AllSame(profiles)
  {
    for k := 1 to |profiles|
      invariant forall i | 0 <= i < k :: SameOffer(profiles[0], profiles[i])
    {
      if !SameOffer(profiles[0], profiles[k]) { return false; }
    }
    return true;
  }

  function AdaptedOffer(profiles: seq<Qos>): Qos {
    if profiles != [] && AllSame(profiles) then KeepLast(profiles[0], DEFAULT_DEPTH) else DEFAULT_QOS
  }

  method AdaptOfferToRecordedOffers(profiles: seq<Qos>) returns (offer: Qos)
    ensures offer == AdaptedOffer(profiles)
  {
    if profiles == [] { return DEFAULT_QOS; }
    var same := AllProfilesEffectivelySame(profiles);
    if same {
      return KeepLast(profiles[0], DEFAULT_DEPTH);
    }
    return DEFAULT_QOS;
  }

  /** The offer is the first profile with a keep-last history of depth 10 when all agree in what
      matters for compatibility, and the default profile otherwise. */
  lemma OfferFields(profiles: seq<Qos>)
    ensures var offer := AdaptedOffer(profiles);
      && offer.history == 1 && offer.depth == 10
      && (AllSame(profiles) <==> forall i | 0 <= i < |profiles| ::
            && profiles[i].reliability == profiles[0].reliability && profiles[i].durability == profiles[0].durability
            && profiles[i].deadline == profiles[0].deadline && profiles[i].liveliness == profiles[0].liveliness
            && profiles[i].leaseDuration == profiles[0].leaseDuration)
      && if profiles != [] && AllSame(profiles) then
           var first := profiles[0];
           && offer.reliability == first.reliability && offer.durability == first.durability
           && offer.deadline == first.deadline && offer.lifespan == first.lifespan
           && offer.liveliness == first.liveliness && offer.leaseDuration == first.leaseDuration
           && offer.avoidNamespaces == first.avoidNamespaces
         else OtherwiseDefault(offer) && offer.reliability == 1 && offer.durability == 2
  {
    if AllSame(profiles) {
      assert forall i | 0 <= i < |profiles| :: SameOffer(profiles[0], profiles[i]);
    }
  }

  /** The order of the recorded profiles matters at most for lifespan and the namespace flag. */
  lemma OfferOrder(a: seq<Qos>, b: seq<Qos>)
    requires forall q :: q in a <==> q in b
    ensures SameOffer(AdaptedOffer(a), AdaptedOffer(b))
    ensures AdaptedOffer(a).history == AdaptedOffer(b).history && AdaptedOffer(a).depth == AdaptedOffer(b).depth
    ensures AllSame(a) <==> AllSame(b)
  {
    AllSameWithin(a, b);
    AllSameWithin(b, a);
    if a != [] { assert a[0] in b; }
    if b != [] { assert b[0] in a; }
  }

  lemma AllSameWithin(a: seq<Qos>, b: seq<Qos>)
    requires forall q | q in a :: q in b
    ensures AllSame(b) ==> AllSame(a)
  {
    if AllSame(b) {
      forall i, j | 0 <= i < |a| && 0 <= j < |a| ensures SameOffer(a[i], a[j]) {
        assert a[i] in b && a[j] in b;
      }
    }
  }
}
