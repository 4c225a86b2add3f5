/** The store as the routes use it: one object whose tables the booking,
    release and capacity routes change in place. Each method is one request
    handled to its commit; its effect is the transition function of the same
    name on the store value, and every method keeps the store consistent.
    Error answers return before anything is written, which is what the
    routes' early returns before `db.session.commit()` amount to. */
module ParkingStore {

  import opened Wrappers
  import opened Seqs
  import opened Models
  import opened Store
  import opened Allocation
  import opened Capacity
  import opened CapacityInvariants

  /** Dropping the rows whose keys are in `a` and then those in `b` drops
      the rows whose keys are in either. */
  lemma {:induction false} DropKeysTwice(s: seq<Spot>, a: set<nat>, b: set<nat>)
    ensures Filter(Filter(s, NotAmong(a)), NotAmong(b)) == Filter(s, NotAmong(a + b))
  {
    if s != [] {
      var init, x := Init(s), Last(s);
      DropKeysTwice(init, a, b);
      var f := Filter(init, NotAmong(a));
      var tail := if x.id !in a then [x] else [];
      FilterAppend(f, tail, NotAmong(b));
      if x.id !in a {
        assert Init([x]) == [];
      }
    }
  }

  lemma KeysOfLonger(c: seq<Spot>, k: nat)
    requires k < |c|
    ensures SpotIds(c[..k + 1]) == SpotIds(c[..k]) + {c[k].id}
  {
    assert c[..k + 1] == c[..k] + [c[k]];
  }

  /** The checking loop of a shrink: whether every candidate is 'A'. */
  method AllFree(cands: seq<Spot>) returns (ok: bool)
    ensures ok <==> AllAvailable(cands)
  {
    var k := 0;
    while k < |cands|
      invariant 0 <= k <= |cands|
      invariant forall m :: 0 <= m < k ==> cands[m].status == Available
    {
      if cands[k].status != Available {
        assert cands[k] in cands;
        return false;
      }
      k := k + 1;
    }
    return true;
  }

  class ParkingStore {
    var lots: seq<Lot>
    var spots: seq<Spot>
    var reservations: seq<Reservation>
    var nextLotId: nat
    var nextSpotId: nat
    var nextReservationId: nat

    /** The three tables and their key counters as one value. */
    function State(): Db
      reads this
    {
      Db(lots, spots, reservations, nextLotId, nextSpotId, nextReservationId)
    }

    ghost predicate Valid()
      reads this
    {
      Store.Valid(State())
    }

    /** A fresh database: no rows, every key counter at 1. */
    constructor ()
      ensures State() == Empty && Valid()
    {
      lots, spots, reservations := [], [], [];
      nextLotId, nextSpotId, nextReservationId := 1, 1, 1;
      EmptyValid();
    }

    /** The spot-creating loop of `create_lot` and of a grow: `k` new
        available spots of lot `lotId`, numbered on from `start`. */
    method AddSpots(lotId: nat, start: int, k: nat, now: int)
      modifies this`spots, this`nextSpotId
      ensures spots == old(spots) + NewSpots(lotId, old(nextSpotId), start, k, now)
      ensures nextSpotId == old(nextSpotId) + k
    {
      var firstId := nextSpotId;
      for i := 1 to k + 1
        invariant spots == old(spots) + NewSpots(lotId, firstId, start, i - 1, now)
        invariant nextSpotId == firstId + i - 1
      {
        spots := spots + [NewSpot(nextSpotId, lotId, start + i, now)];
        nextSpotId := nextSpotId + 1;
      }
    }

    /** The deleting loop of a shrink: each candidate row is deleted by key. */
    method RemoveSpots(cands: seq<Spot>)
      modifies this`spots
      ensures spots == Filter(old(spots), NotAmong(SpotIds(cands)))
    {
      var k := 0;
      FilterKeepsAll(spots, NotAmong(SpotIds(cands[..0])));
      while k < |cands|
        invariant 0 <= k <= |cands|
        invariant spots == Filter(old(spots), NotAmong(SpotIds(cands[..k])))
      {
        DropKeysTwice(old(spots), SpotIds(cands[..k]), {cands[k].id});
        KeysOfLonger(cands, k);
        spots := Filter(spots, NotAmong({cands[k].id}));
        k := k + 1;
      }
      assert cands[..|cands|] == cands;
    }

    /** `book_spot`: claim the lowest-numbered free spot of the lot for the
        user and open an active reservation on it. */
    method BookSpotStep(userId: int, lotId: Option<int>, now: int) returns (o: BookOutcome)
      modifies this
      ensures (State(), o) == Book(old(State()), userId, lotId, now)
    {
      ghost var d0 := State();
      if !Truthy(lotId) {
        return LotIdRequired;
      }
      var held := FirstReservation(reservations, ActiveOf(userId));
      if held.Some? {
        o := AlreadyActive(reservations[held.value].id);
        assert Book(d0, userId, lotId, now) == (d0, o);
        return;
      }
      var free := FirstAvailableIndex(spots, lotId.value);
      if free.None? {
        assert Book(d0, userId, lotId, now) == (d0, NoAvailableSpot);
        return NoAvailableSpot;
      }
      var i := free.value;
      assert Book(d0, userId, lotId, now) ==
             (Claim(d0, i, userId, now), Booked(lotId.value, d0.nextReservationId, spots[i].id, spots[i].number));
      var spot, id := spots[i], nextReservationId;
      ClaimSpot(i, userId, now);
      o := Booked(lotId.value, id, spot.id, spot.number);
    }

    /** The writes of a booking: spot `i` becomes 'O' and a new active
        reservation of it for the user is added. */
    method ClaimSpot(i: nat, userId: int, now: int)
      requires i < |spots|
      modifies this`spots, this`reservations, this`nextReservationId
      ensures State() == Claim(old(State()), i, userId, now)
    {
      var spot := spots[i];
      spots := spots[i := spot.(status := Occupied)];
      reservations := reservations + [NewReservation(nextReservationId, spot.id, userId, now)];
      nextReservationId := nextReservationId + 1;
    }

    /** `leave_spot`: complete the caller's active reservation, bill it and
        free its spot. */
    method LeaveSpotStep(userId: int, reservationId: Option<int>, now: int) returns (o: LeaveOutcome)
      modifies this
      ensures (State(), o) == Leave(old(State()), userId, reservationId, now)
    {
      ghost var d0 := State();
      if !Truthy(reservationId) {
        return ReservationIdRequired;
      }
      var found := FirstReservation(reservations, ActiveMatch(reservationId.value, userId));
      if found.None? {
        return ActiveReservationNotFound;
      }
      var k := found.value;
      var res := reservations[k];
      var seconds := now - res.parkingTimestamp;
      var at := FirstIndex(spots, SpotHasId(res.spotId));
      if at.None? {
        return ReleaseFailed;
      }
      var i := at.value;
      LeaveIsRelease(d0, userId, reservationId, now, k, i);
      var cost := LeaveCost(State(), k, i, now);
      reservations := reservations[k := Completion(res, now, cost)];
      spots := spots[i := spots[i].(status := Available)];
      o := Released(cost, seconds as real / 60.0);
    }

    /** `create_lot`: insert the lot, then its spots numbered 1 to n one by
        one. */
    method CreateLotStep(name: Option<string>, price: NumberField, count: NumberField,
                     address: Option<string>, pincode: Option<string>, now: int) returns (o: CreateOutcome)
      modifies this
      ensures (State(), o) == Capacity.CreateLot(old(State()), name, price, count, address, pincode, now)
    {
      ghost var d0 := State();
      var p, c := FloatOr(price, 0.0), IntOr(count, 0);
      if p.None? || c.None? {
        return CreateFailed;
      }
      var n := c.value;
      if !NonEmpty(name) || n <= 0 {
        return NameAndCountRequired;
      }
      var lot := Lot(nextLotId, name.value, address, pincode, p.value, n, now);
      lots := lots + [lot];
      nextLotId := nextLotId + 1;
      AddSpots(lot.id, 0, n, now);
      o := LotCreated(lot.id, n);
    }

    /** `update_lot`: look the lot up, convert the request's numbers, edit
        the lot's fields and resize its spot pool. The field edits are
        staged and written together with the resize, so an error answer
        leaves every table as it was. */
    method UpdateLotStep(lotId: int, q: UpdateRequest, now: int) returns (o: UpdateOutcome)
      modifies this
      ensures (State(), o) == UpdateLotRequest(old(State()), lotId, q, now)
    {
      ghost var d0 := State();
      var found := FirstIndex(lots, LotHasId(lotId));
      if found.None? {
        return LotNotFound;
      }
      var converted := ConvertUpdate(q);
      if converted.None? {
        return UpdateFailed;
      }
      var u := converted.value;
      var j := found.value;
      var lot := EditFields(lots[j], u);
      if u.numberOfSpots.None? {
        lots := lots[j := lot];
        return LotUpdated(lot.id);
      }
      var n := u.numberOfSpots.value;
      if n < 0 {
        return NegativeCount;
      }
      if n == lot.numberOfSpots {
        lots := lots[j := lot];
        return LotUpdated(lot.id);
      }
      if n > lot.numberOfSpots {
        UpdateIsGrow(d0, lotId, u, now, j);
        o := GrowLot(j, lot, n, now);
      } else {
        UpdateIsShrink(d0, lotId, u, now, j);
        o := ShrinkLot(j, lot, n);
      }
    }

    /** The growing branch: the new spots, then the lot row with its new
        count. */
    method GrowLot(j: nat, lot: Lot, n: int, now: int) returns (o: UpdateOutcome)
      requires j < |lots| && n > lot.numberOfSpots
      modifies this`lots, this`spots, this`nextSpotId
      ensures (State(), o) == Grow(old(State()), j, lot, n, now)
    {
      var start := HighestNumber(LotSpots(spots, lot.id));
      AddSpots(lot.id, start, n - lot.numberOfSpots, now);
      lots := lots[j := lot.(numberOfSpots := n)];
      o := LotUpdated(lot.id);
    }

    /** The shrinking branch: refuse when a candidate is not free, fail
        when a reservation row names one, otherwise delete the candidates and
        record the new count. */
    method ShrinkLot(j: nat, lot: Lot, n: int) returns (o: UpdateOutcome)
      requires j < |lots| && 0 <= n < lot.numberOfSpots
      modifies this`lots, this`spots
      ensures (State(), o) == Shrink(old(State()), j, lot, n)
    {
      ghost var d0 := State();
      var cands := ShrinkCandidates(spots, lot.id, lot.numberOfSpots - n);
      var free := AllFree(cands);
      if !free {
        return ShrinkBlocked;
      }
      if NamedByReservation(reservations, SpotIds(cands)) {
        return UpdateFailed;
      }
      ShrinkApplies(d0, j, lot, n);
      RemoveSpots(cands);
      lots := lots[j := lot.(numberOfSpots := n)];
      o := LotUpdated(lot.id);
    }

    /** `delete_lot`: refuse while the lot is in use, fail when a
        reservation row names one of its spots; otherwise delete it, and with
        it (by the cascade) all its spots. */
    method DeleteLotStep(lotId: int) returns (o: DeleteOutcome)
      modifies this
      ensures (State(), o) == Capacity.DeleteLot(old(State()), lotId)
    {
      ghost var d0 := State();
      var found := FirstIndex(lots, LotHasId(lotId));
      if found.None? {
        return DeleteNotFound;
      }
      if OccupiedIn(spots, lotId) > 0 || Count(reservations, ActiveInLot(spots, lotId)) > 0 {
        return LotInUse;
      }
      if NamedByReservation(reservations, SpotIds(LotSpots(spots, lotId))) {
        return DeleteFailed;
      }
      lots := RemoveAt(lots, found.value);
      spots := Filter(spots, OutsideLot(lotId));
      o := LotDeleted;
    }

    method BookSpot(userId: int, lotId: Option<int>, now: int) returns (o: BookOutcome)
      requires Valid()
      modifies this
      ensures (State(), o) == Book(old(State()), userId, lotId, now)
      ensures Valid()
    {
      ghost var d0 := State();
      BookPreservesValid(d0, userId, lotId, now);
      o := BookSpotStep(userId, lotId, now);
    }

    method LeaveSpot(userId: int, reservationId: Option<int>, now: int) returns (o: LeaveOutcome)
      requires Valid()
      modifies this
      ensures (State(), o) == Leave(old(State()), userId, reservationId, now)
      ensures Valid()
    {
      ghost var d0 := State();
      LeavePreservesValid(d0, userId, reservationId, now);
      o := LeaveSpotStep(userId, reservationId, now);
    }

    method CreateLot(name: Option<string>, price: NumberField, count: NumberField,
                     address: Option<string>, pincode: Option<string>, now: int) returns (o: CreateOutcome)
      requires Valid()
      modifies this
      ensures (State(), o) == Capacity.CreateLot(old(State()), name, price, count, address, pincode, now)
      ensures Valid()
    {
      ghost var d0 := State();
      CreatePreservesValid(d0, name, price, count, address, pincode, now);
      o := CreateLotStep(name, price, count, address, pincode, now);
    }

    method UpdateLot(lotId: int, q: UpdateRequest, now: int) returns (o: UpdateOutcome)
      requires Valid()
      modifies this
      ensures (State(), o) == UpdateLotRequest(old(State()), lotId, q, now)
      ensures Valid()
    {
      ghost var d0 := State();
      UpdateRequestPreservesValid(d0, lotId, q, now);
      o := UpdateLotStep(lotId, q, now);
    }

    method DeleteLot(lotId: int) returns (o: DeleteOutcome)
      requires Valid()
      modifies this
      ensures (State(), o) == Capacity.DeleteLot(old(State()), lotId)
      ensures Valid()
    {
      ghost var d0 := State();
      DeletePreservesValid(d0, lotId);
      o := DeleteLotStep(lotId);
    }
  }
}
