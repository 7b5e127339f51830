/** The reservation ledger: claiming a product through a flash promo and
    completing a reservation. A reservation is open while it is not completed
    and its hold lies strictly in the future; the ledger keeps at most one
    open reservation per product. The check for an open reservation and the
    insert that follows it are one atomic step here. */
module Ledger {
  import opened Basics
  import opened Models
  import opened Geo
  import opened Segments

  /** A claim holds the product for one minute. */
  const HoldSeconds: int := 60

  predicate IsOpen(r: ProductReservation, now: Timestamp) {
    !r.isCompleted && r.reservedUntil > now
  }

  /** Some open reservation exists for `product` at `now`. */
  predicate ProductIsHeld(rs: map<ReservationId, ProductReservation>, product: ProductId, now: Timestamp) {
    exists id :: id in rs && rs[id].product == product && IsOpen(rs[id], now)
  }

  /** The central invariant: no two open reservations share a product. */
  ghost predicate AtMostOneOpen(rs: map<ReservationId, ProductReservation>, now: Timestamp) {
    forall i, j :: i in rs && j in rs && i != j && IsOpen(rs[i], now) && IsOpen(rs[j], now)
      ==> rs[i].product != rs[j].product
  }

  // ---------------------------------------------------------------------
  // reserve

  datatype ReserveOutcome =
    | Reserved(id: ReservationId)
    | PromoNotFound
    | PromoInactive
    | NotEligible
    | NotNearStore
    | AlreadyReserved
  {
    /** The HTTP status the action answers with. */
    function StatusCode(): nat {
      match this
      case Reserved(_) => 201
      case PromoNotFound => 404
      case PromoInactive => 400
      case NotEligible => 403
      case NotNearStore => 403
      case AlreadyReserved => 409
    }

    function ErrorMessage(): string {
      match this
      case Reserved(_) => ""
      // the lookup raises the framework's own 404, which the handler for a
      // missing promo (promotions/views.py:61-65) does not catch; the body
      // is the framework's, not that handler's text
      case PromoNotFound => ""
      case PromoInactive => "This promo is not active"
      case NotEligible => "You are not eligible for this promo"
      case NotNearStore => "You are not near the store"
      case AlreadyReserved => "Product is already reserved"
    }
  }

  datatype ReserveResult = ReserveResult(world: World, outcome: ReserveOutcome)

  /** `caller` claims the product of promo `promoId` at `now`. The checks run
      in a fixed order and the first failing one decides the answer; only the
      promo's active flag is consulted, not its time-of-day window. */
  function Reserve(w: World, promoId: PromoId, caller: UserId, now: Timestamp, dist: DistanceFn): (r: ReserveResult)
    requires WellFormed(w) && caller in w.users
    ensures WellFormed(r.world)
    ensures !r.outcome.Reserved? ==> r.world == w
    ensures r.outcome.Reserved? ==>
      && promoId in w.promos
      && r.outcome.id == w.nextReservationId
      && r.outcome.id !in w.reservations
      && r.world == w.(
           reservations := w.reservations[r.outcome.id :=
             NewReservation(w.promos[promoId].product, caller, now + HoldSeconds, now)],
           nextReservationId := w.nextReservationId + 1)
    ensures AtMostOneOpen(w.reservations, now) ==> AtMostOneOpen(r.world.reservations, now)
  {
    if promoId !in w.promos then ReserveResult(w, PromoNotFound)
    else
      var promo := w.promos[promoId];
      var user := w.users[caller];
      if !promo.isActive then ReserveResult(w, PromoInactive)
      else if !IsUserEligible(promo.eligibleSegments, user.userType) then ReserveResult(w, NotEligible)
      else if !IsUserNearStore(user, PromoStore(w, promoId), DefaultMaxDistanceKm, dist) then
        ReserveResult(w, NotNearStore)
      else if ProductIsHeld(w.reservations, promo.product, now) then ReserveResult(w, AlreadyReserved)
      else
        var id := w.nextReservationId;
        var w' := w.(
          reservations := w.reservations[id := NewReservation(promo.product, caller, now + HoldSeconds, now)],
          nextReservationId := id + 1);
        assert AtMostOneOpen(w.reservations, now) ==> AtMostOneOpen(w'.reservations, now) by {
          ClaimKeepsExclusive(w.reservations, id, NewReservation(promo.product, caller, now + HoldSeconds, now), now);
        }
        ReserveResult(w', Reserved(id))
  }

  /** Adding an open reservation for a product nobody holds keeps the
      invariant. */
  lemma ClaimKeepsExclusive(rs: map<ReservationId, ProductReservation>, id: ReservationId,
                            claim: ProductReservation, now: Timestamp)
    requires id !in rs
    requires !ProductIsHeld(rs, claim.product, now)
    ensures AtMostOneOpen(rs, now) ==> AtMostOneOpen(rs[id := claim], now)
  {
    var rs' := rs[id := claim];
    if AtMostOneOpen(rs, now) {
      forall i, j | i in rs' && j in rs' && i != j && IsOpen(rs'[i], now) && IsOpen(rs'[j], now)
        ensures rs'[i].product != rs'[j].product
      {
        if i == id {
          assert rs'[j] == rs[j];
        } else if j == id {
          assert rs'[i] == rs[i];
        }
      }
    }
  }

  /** Which answer `reserve` gives, stated as the ordered chain of checks:
      404, then 400 on the flag, 403 on the segment, 403 on distance, 409 on
      an open reservation for the product, and 201 only when all pass. */
  lemma ReserveDecision(w: World, promoId: PromoId, caller: UserId, now: Timestamp, dist: DistanceFn)
    requires WellFormed(w) && caller in w.users
    ensures var o := Reserve(w, promoId, caller, now, dist).outcome;
      && (o == PromoNotFound <==> promoId !in w.promos)
      && (o == PromoInactive <==> promoId in w.promos && !w.promos[promoId].isActive)
      && (o == NotEligible <==>
            promoId in w.promos && w.promos[promoId].isActive
            && w.users[caller].userType !in TargetedTypes(w.promos[promoId].eligibleSegments))
      && (o == NotNearStore <==>
            promoId in w.promos && w.promos[promoId].isActive
            && w.users[caller].userType in TargetedTypes(w.promos[promoId].eligibleSegments)
            && !IsUserNearStore(w.users[caller], PromoStore(w, promoId), DefaultMaxDistanceKm, dist))
      && (o == AlreadyReserved <==>
            promoId in w.promos && w.promos[promoId].isActive
            && w.users[caller].userType in TargetedTypes(w.promos[promoId].eligibleSegments)
            && IsUserNearStore(w.users[caller], PromoStore(w, promoId), DefaultMaxDistanceKm, dist)
            && ProductIsHeld(w.reservations, w.promos[promoId].product, now))
      && (o.Reserved? <==>
            promoId in w.promos && w.promos[promoId].isActive
            && w.users[caller].userType in TargetedTypes(w.promos[promoId].eligibleSegments)
            && IsUserNearStore(w.users[caller], PromoStore(w, promoId), DefaultMaxDistanceKm, dist)
            && !ProductIsHeld(w.reservations, w.promos[promoId].product, now))
      && o.StatusCode() == (if o.Reserved? then 201 else if o == PromoNotFound then 404
                             else if o == PromoInactive then 400
                             else if o == AlreadyReserved then 409 else 403)
  {
  }

  /** The promo's time-of-day window plays no part in `reserve`: moving the
      window changes neither the answer nor the resulting ledger. */
  lemma ReserveIgnoresWindow(w: World, promoId: PromoId, caller: UserId, now: Timestamp,
                             dist: DistanceFn, start: TimeOfDay, end: TimeOfDay)
    requires WellFormed(w) && caller in w.users && promoId in w.promos
    ensures var w2 := w.(promos := w.promos[promoId := w.promos[promoId].(startTime := start, endTime := end)]);
      WellFormed(w2)
      && Reserve(w2, promoId, caller, now, dist).outcome == Reserve(w, promoId, caller, now, dist).outcome
      && Reserve(w2, promoId, caller, now, dist).world.reservations
         == Reserve(w, promoId, caller, now, dist).world.reservations
  {
    var w2 := w.(promos := w.promos[promoId := w.promos[promoId].(startTime := start, endTime := end)]);
    assert PromoStore(w2, promoId) == PromoStore(w, promoId);
  }

  /** A successful claim leaves exactly one open reservation on the product,
      the new one, and it belongs to the caller. */
  lemma ReservedIsTheOnlyHold(w: World, promoId: PromoId, caller: UserId, now: Timestamp, dist: DistanceFn)
    requires WellFormed(w) && caller in w.users
    requires Reserve(w, promoId, caller, now, dist).outcome.Reserved?
    ensures var r := Reserve(w, promoId, caller, now, dist);
      var rs := r.world.reservations;
      && r.outcome.id in rs
      && IsOpen(rs[r.outcome.id], now)
      && rs[r.outcome.id].user == caller
      && forall id :: id in rs && id != r.outcome.id && rs[id].product == rs[r.outcome.id].product
           ==> !IsOpen(rs[id], now)
  {
    var r := Reserve(w, promoId, caller, now, dist);
    var rs := r.world.reservations;
    var p := w.promos[promoId].product;
    assert !ProductIsHeld(w.reservations, p, now);
    forall id | id in rs && id != r.outcome.id && rs[id].product == p
      ensures !IsOpen(rs[id], now)
    {
      assert rs[id] == w.reservations[id];
    }
  }

  // ---------------------------------------------------------------------
  // complete

  datatype CompleteOutcome = Completed | ReservationNotFound | Expired {
    function StatusCode(): nat {
      match this
      case Completed => 200
      case ReservationNotFound => 404
      case Expired => 400
    }
  }

  datatype CompleteResult = CompleteResult(world: World, outcome: CompleteOutcome)

  /** Mark a reservation completed. It is refused only when the hold ended
      strictly before `now`; who completes it, and whether it was already
      completed, is not checked. */
  function Complete(w: World, id: ReservationId, now: Timestamp): (r: CompleteResult)
    ensures r.outcome != Completed ==> r.world == w
    ensures r.outcome == ReservationNotFound <==> id !in w.reservations
    ensures r.outcome == Expired <==> id in w.reservations && w.reservations[id].reservedUntil < now
    ensures r.outcome == Completed ==>
      && id in w.reservations
      && r.world == w.(reservations := w.reservations[id := w.reservations[id].(isCompleted := true)])
    ensures WellFormed(w) ==> WellFormed(r.world)
    ensures AtMostOneOpen(w.reservations, now) ==> AtMostOneOpen(r.world.reservations, now)
  {
    if id !in w.reservations then CompleteResult(w, ReservationNotFound)
    else if w.reservations[id].reservedUntil < now then CompleteResult(w, Expired)
    else
      var w' := w.(reservations := w.reservations[id := w.reservations[id].(isCompleted := true)]);
      assert AtMostOneOpen(w.reservations, now) ==> AtMostOneOpen(w'.reservations, now) by {
        CloseKeepsExclusive(w.reservations, id, now);
      }
      CompleteResult(w', Completed)
  }

  /** Closing a reservation can only shrink the set of open ones. */
  lemma CloseKeepsExclusive(rs: map<ReservationId, ProductReservation>, id: ReservationId, now: Timestamp)
    requires id in rs
    ensures AtMostOneOpen(rs, now) ==> AtMostOneOpen(rs[id := rs[id].(isCompleted := true)], now)
  {
    var rs' := rs[id := rs[id].(isCompleted := true)];
    if AtMostOneOpen(rs, now) {
      forall i, j | i in rs' && j in rs' && i != j && IsOpen(rs'[i], now) && IsOpen(rs'[j], now)
        ensures rs'[i].product != rs'[j].product
      {
        assert i != id && j != id;
        assert rs'[i] == rs[i] && rs'[j] == rs[j];
      }
    }
  }

  /** Completing twice is the same as completing once. */
  lemma CompleteIdempotent(w: World, id: ReservationId, now: Timestamp)
    ensures var once := Complete(w, id, now);
      var twice := Complete(once.world, id, now);
      twice.world == once.world && twice.outcome == once.outcome
  {
    var once := Complete(w, id, now);
    if once.outcome == Completed {
      assert once.world.reservations[id] == w.reservations[id].(isCompleted := true);
      assert once.world.reservations[id := once.world.reservations[id].(isCompleted := true)]
          == once.world.reservations;
    }
  }

  /** At the instant a hold ends the reservation no longer blocks a claim,
      yet it can still be completed. */
  lemma BoundaryInstant(w: World, id: ReservationId, now: Timestamp)
    requires id in w.reservations && w.reservations[id].reservedUntil == now
    ensures !IsOpen(w.reservations[id], now)
    ensures Complete(w, id, now).outcome == Completed
  {
  }

  // ---------------------------------------------------------------------
  // time

  /** Letting the clock run on only lets holds lapse: the invariant survives. */
  lemma {:induction false} ClockAdvanceKeepsExclusive(rs: map<ReservationId, ProductReservation>,
                                                      now: Timestamp, later: Timestamp)
    requires now <= later
    requires AtMostOneOpen(rs, now)
    ensures AtMostOneOpen(rs, later)
  {
    forall i, j | i in rs && j in rs && i != j && IsOpen(rs[i], later) && IsOpen(rs[j], later)
      ensures rs[i].product != rs[j].product
    {
      assert IsOpen(rs[i], now) && IsOpen(rs[j], now);
    }
  }

  /** One step of the ledger's environment: a claim, a completion, or the
      clock moving (a clock never moves backwards). */
  datatype Event =
    | ClaimEvent(promoId: PromoId, caller: UserId)
    | CompleteEvent(id: ReservationId)
    | TickEvent(later: Timestamp)

  datatype LedgerState = LedgerState(world: World, now: Timestamp)

  /** Apply one event. A claim by an unknown caller is refused before the
      action runs and changes nothing. */
  function Step(s: LedgerState, e: Event, dist: DistanceFn): (s': LedgerState)
    requires WellFormed(s.world)
    ensures WellFormed(s'.world)
    ensures s'.now >= s.now
  {
    match e
    case ClaimEvent(promoId, caller) =>
      if caller in s.world.users then LedgerState(Reserve(s.world, promoId, caller, s.now, dist).world, s.now)
      else s
    case CompleteEvent(id) => LedgerState(Complete(s.world, id, s.now).world, s.now)
    case TickEvent(later) => LedgerState(s.world, if later > s.now then later else s.now)
  }

  function Run(s: LedgerState, events: seq<Event>, dist: DistanceFn): (s': LedgerState)
    requires WellFormed(s.world)
    ensures WellFormed(s'.world)
    decreases |events|
  {
    if events == [] then s else Run(Step(s, events[0], dist), events[1..], dist)
  }

  /** Any interleaving of claims, completions and clock ticks keeps at most
      one open reservation per product. */
  lemma {:induction false} RunKeepsExclusive(s: LedgerState, events: seq<Event>, dist: DistanceFn)
    requires WellFormed(s.world)
    requires AtMostOneOpen(s.world.reservations, s.now)
    ensures AtMostOneOpen(Run(s, events, dist).world.reservations, Run(s, events, dist).now)
    decreases |events|
  {
    if events != [] {
      var s1 := Step(s, events[0], dist);
      if events[0].TickEvent? {
        ClockAdvanceKeepsExclusive(s.world.reservations, s.now, s1.now);
      }
      assert AtMostOneOpen(s1.world.reservations, s1.now);
      RunKeepsExclusive(s1, events[1..], dist);
    }
  }
}
