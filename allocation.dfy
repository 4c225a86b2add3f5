/** The user-facing allocation routes (backend/routes/user_routes.py): booking
    the first free spot of a lot, releasing it with its bill, the availability
    list and the reservation history. Each route is one atomic step on the
    store value; the clock reading `now` (seconds) is a parameter. */
module Allocation {

  import opened Wrappers
  import opened Seqs
  import opened Models
  import opened Store

  // ---- book_spot ----

  datatype BookOutcome =
    | Booked(lotId: int, reservationId: nat, spotId: nat, spotNumber: int)
    | LotIdRequired
    | AlreadyActive(reservationId: nat)
    | NoAvailableSpot

  function BookStatus(o: BookOutcome): int {
    match o
    case Booked(_, _, _, _) => 201
    case LotIdRequired => 400
    case AlreadyActive(_) => 409
    case NoAvailableSpot => 409
  }

  /** A request field JSON-decoded to an integer is truthy unless absent or 0. */
  predicate Truthy(x: Option<int>) {
    x.Some? && x.value != 0
  }

  /** `book_spot` for user `userId` with request body `{"lot_id": lotId}`.
      A refusal changes nothing; a booking changes no lot and no spot count,
      and appends one active reservation of the user on the spot it names. */
  function Book(d: Db, userId: int, lotId: Option<int>, now: int): (r: (Db, BookOutcome))
    ensures !r.1.Booked? ==> r.0 == d
    ensures r.0.lots == d.lots && |r.0.spots| == |d.spots|
    ensures r.1.Booked? ==>
              && |r.0.reservations| == |d.reservations| + 1
              && r.0.reservations[..|d.reservations|] == d.reservations
              && r.0.reservations[|d.reservations|].id == r.1.reservationId
              && r.0.reservations[|d.reservations|].userId == userId
              && r.0.reservations[|d.reservations|].spotId == r.1.spotId
              && r.0.reservations[|d.reservations|].status == Active
  {
    if !Truthy(lotId) then (d, LotIdRequired)
    else
      match FirstReservation(d.reservations, ActiveOf(userId))
      case Some(k) => (d, AlreadyActive(d.reservations[k].id))
      case None =>
        match FirstAvailableIndex(d.spots, lotId.value)
        case None => (d, NoAvailableSpot)
        case Some(i) =>
          var spot := d.spots[i];
          var r := NewReservation(d.nextReservationId, spot.id, userId, now);
          (d.(spots := d.spots[i := spot.(status := Occupied)],
              reservations := d.reservations + [r],
              nextReservationId := d.nextReservationId + 1),
           Booked(lotId.value, r.id, spot.id, spot.number))
  }

  // ---- leave_spot ----

  datatype LeaveOutcome =
    | Released(cost: real, durationMinutes: real)
    | ReservationIdRequired
    | ActiveReservationNotFound
      /** the reservation's spot row is gone: `res.spot.status` raises, the
          session is rolled back and the route answers 500 */
    | ReleaseFailed

  function LeaveStatus(o: LeaveOutcome): int {
    match o
    case Released(_, _) => 200
    case ReservationIdRequired => 400
    case ActiveReservationNotFound => 404
    case ReleaseFailed => 500
  }

  function ActiveMatch(id: int, userId: int): Reservation -> bool {
    (r: Reservation) => r.id == id && r.userId == userId && r.status == Active
  }

  /** Hours billed for `seconds` of parking: every started hour counts in
      full, and nothing is billed when no time has elapsed. */
  function BillableHours(seconds: int): (h: nat)
    ensures seconds <= 0 ==> h == 0
    ensures seconds > 0 ==> (h - 1) * 3600 < seconds <= h * 3600
  {
    if seconds > 0 then (seconds + 3599) / 3600 else 0
  }

  /** The price the bill uses: that of the lot the spot belongs to now, or 0
      when the lot row is missing. */
  function PriceOf(d: Db, spot: Spot): real {
    match FirstIndex(d.lots, LotHasId(spot.lotId))
    case Some(j) => d.lots[j].pricePerHour
    case None => 0.0
  }

  /** `leave_spot` for user `userId` with body `{"reservation_id": reservationId}`.
      A refusal changes nothing; a release changes no lot and adds or
      removes no row. */
  function Leave(d: Db, userId: int, reservationId: Option<int>, now: int): (r: (Db, LeaveOutcome))
    ensures !r.1.Released? ==> r.0 == d
    ensures r.0.lots == d.lots && |r.0.spots| == |d.spots| && |r.0.reservations| == |d.reservations|
    ensures r.1.Released? ==> reservationId.Some? && reservationId.value != 0
  {
    if !Truthy(reservationId) then (d, ReservationIdRequired)
    else
      match FirstReservation(d.reservations, ActiveMatch(reservationId.value, userId))
      case None => (d, ActiveReservationNotFound)
      case Some(k) =>
        var res := d.reservations[k];
        var seconds := now - res.parkingTimestamp;
        match FirstIndex(d.spots, SpotHasId(res.spotId))
        case None => (d, ReleaseFailed)
        case Some(i) =>
          var spot := d.spots[i];
          var cost := BillableHours(seconds) as real * PriceOf(d, spot);
          var done := res.(leavingTimestamp := Some(now), parkingCost := Some(cost), status := Completed);
          (d.(reservations := d.reservations[k := done],
              spots := d.spots[i := spot.(status := Available)]),
           Released(cost, seconds as real / 60.0))
  }

  // ---- list_available_lots ----

  datatype LotAvailability = LotAvailability(
    id: nat, name: string, pricePerHour: real, availableSpots: int, totalSpots: int,
    address: Option<string>, pincode: Option<string>)

  /** `number_of_spots` minus the lot's spots with status 'O'. */
  function AvailableIn(d: Db, l: Lot): int {
    l.numberOfSpots - OccupiedIn(d.spots, l.id)
  }

  function AvailabilityRow(d: Db, l: Lot): LotAvailability {
    LotAvailability(l.id, l.name, l.pricePerHour, AvailableIn(d, l), l.numberOfSpots, l.address, l.pincode)
  }

  function AvailabilityRows(d: Db, lots: seq<Lot>): (out: seq<LotAvailability>)
    ensures |out| == |lots|
    ensures forall k :: 0 <= k < |out| ==> out[k] == AvailabilityRow(d, lots[|lots| - 1 - k])
  {
    if lots == [] then []
    else
      assert forall k :: 0 <= k < |lots| - 1 ==> Init(lots)[k] == lots[k];
      [AvailabilityRow(d, Last(lots))] + AvailabilityRows(d, Init(lots))
  }

  /** `list_available_lots`: every lot, newest first, with its availability. */
  function AvailableLots(d: Db): (rows: seq<LotAvailability>)
    ensures |rows| == |d.lots|
    ensures forall k :: 0 <= k < |rows| ==> rows[k].totalSpots == d.lots[|d.lots| - 1 - k].numberOfSpots
  {
    AvailabilityRows(d, d.lots)
  }

  // ---- my_reservations ----

  datatype HistoryRow = HistoryRow(
    id: nat, spotId: nat, spotNumber: Option<int>, lotId: Option<nat>,
    parkingTimestamp: int, leavingTimestamp: Option<int>, parkingCost: Option<real>,
    status: ReservationStatus)

  /** One reservation as the history shows it; the spot columns are null when
      the spot row no longer exists. */
  function HistoryRowOf(d: Db, r: Reservation): HistoryRow {
    var spot := FirstIndex(d.spots, SpotHasId(r.spotId));
    HistoryRow(r.id, r.spotId,
               if spot.Some? then Some(d.spots[spot.value].number) else None,
               if spot.Some? then Some(d.spots[spot.value].lotId) else None,
               r.parkingTimestamp, r.leavingTimestamp, r.parkingCost, r.status)
  }

  function HistoryRows(d: Db, rs: seq<Reservation>): (out: seq<HistoryRow>)
    ensures |out| == |rs|
    ensures forall k :: 0 <= k < |out| ==> out[k] == HistoryRowOf(d, rs[|rs| - 1 - k])
  {
    if rs == [] then []
    else [HistoryRowOf(d, Last(rs))] + HistoryRows(d, Init(rs))
  }

  /** `my_reservations`: the user's reservations, newest first: one row per
      reservation the user holds or held. */
  function MyReservations(d: Db, userId: int): (rows: seq<HistoryRow>)
    ensures |rows| == Count(d.reservations, OwnedBy(userId))
  {
    HistoryRows(d, Filter(d.reservations, OwnedBy(userId)))
  }

  // ---- what booking does ----

  /** Spot `i` is an available spot of lot `lotId` numbered no higher than
      any other available spot of that lot. */
  ghost predicate LowestFree(spots: seq<Spot>, lotId: int, i: int) {
    && 0 <= i < |spots|
    && spots[i].lotId == lotId
    && spots[i].status == Available
    && forall s :: s in spots && s.lotId == lotId && s.status == Available ==> spots[i].number <= s.number
  }

  /** The store after user `userId` claims spot `i` at time `now`. */
  function Claim(d: Db, i: nat, userId: int, now: int): Db
    requires i < |d.spots|
  {
    d.(spots := d.spots[i := d.spots[i].(status := Occupied)],
       reservations := d.reservations + [NewReservation(d.nextReservationId, d.spots[i].id, userId, now)],
       nextReservationId := d.nextReservationId + 1)
  }

  /** Booking without a lot_id is refused with 400 and changes nothing. */
  lemma BookNeedsLotId(d: Db, userId: int, lotId: Option<int>, now: int)
    requires !Truthy(lotId)
    ensures Book(d, userId, lotId, now) == (d, LotIdRequired)
    ensures BookStatus(Book(d, userId, lotId, now).1) == 400
  {
  }

  /** A user who already holds an active reservation is refused with 409 and
      the id of that reservation; nothing changes. */
  lemma BookRefusesSecondActive(d: Db, userId: int, lotId: Option<int>, now: int)
    requires Truthy(lotId)
    requires Count(d.reservations, ActiveOf(userId)) > 0
    ensures Book(d, userId, lotId, now).0 == d
    ensures Book(d, userId, lotId, now).1.AlreadyActive?
    ensures BookStatus(Book(d, userId, lotId, now).1) == 409
    ensures exists r :: r in d.reservations && r.userId == userId && r.status == Active &&
                        r.id == Book(d, userId, lotId, now).1.reservationId
  {
    var k := FirstReservation(d.reservations, ActiveOf(userId)).value;
    assert d.reservations[k] in d.reservations;
  }

  /** A lot without an available spot refuses with 409; nothing changes. */
  lemma BookRefusesFullLot(d: Db, userId: int, lotId: Option<int>, now: int)
    requires Truthy(lotId)
    requires Count(d.reservations, ActiveOf(userId)) == 0
    requires forall s :: s in d.spots && s.lotId == lotId.value ==> s.status != Available
    ensures Book(d, userId, lotId, now) == (d, NoAvailableSpot)
    ensures BookStatus(Book(d, userId, lotId, now).1) == 409
  {
  }

  /** Otherwise booking succeeds with 201: it claims the lowest-numbered
      available spot of the lot, flips it to 'O' and appends one active
      reservation of that spot for the user, without end time or cost. No
      other row changes. */
  lemma BookClaimsLowestFreeSpot(d: Db, userId: int, lotId: Option<int>, now: int)
    requires Truthy(lotId)
    requires Count(d.reservations, ActiveOf(userId)) == 0
    requires exists s :: s in d.spots && s.lotId == lotId.value && s.status == Available
    ensures Book(d, userId, lotId, now).1.Booked?
    ensures BookStatus(Book(d, userId, lotId, now).1) == 201
    ensures exists i :: LowestFree(d.spots, lotId.value, i) &&
              Book(d, userId, lotId, now) ==
                (Claim(d, i, userId, now),
                 Booked(lotId.value, d.nextReservationId, d.spots[i].id, d.spots[i].number))
  {
    var f := FirstAvailableIndex(d.spots, lotId.value);
    assert FirstReservation(d.reservations, ActiveOf(userId)).None?;
    var s :| s in d.spots && s.lotId == lotId.value && s.status == Available;
    assert f.Some?;
    assert LowestFree(d.spots, lotId.value, f.value);
  }

  // ---- booking keeps the invariant ----

  lemma ClaimKeepsKeys(d: Db, i: nat, userId: int, now: int)
    requires LotKeys(d.lots, d.nextLotId) && SpotKeys(d.spots, d.nextSpotId)
    requires ReservationKeys(d.reservations, d.nextReservationId) && ReservationsShaped(d)
    requires i < |d.spots|
    ensures LotKeys(Claim(d, i, userId, now).lots, Claim(d, i, userId, now).nextLotId)
    ensures SpotKeys(Claim(d, i, userId, now).spots, Claim(d, i, userId, now).nextSpotId)
    ensures ReservationKeys(Claim(d, i, userId, now).reservations, Claim(d, i, userId, now).nextReservationId)
    ensures ReservationsShaped(Claim(d, i, userId, now))
  {
    var d' := Claim(d, i, userId, now);
    assert forall k :: 0 <= k < |d.spots| ==> d'.spots[k].id == d.spots[k].id;
    var rs := d.reservations;
    forall a | 0 <= a < |d'.reservations|
      ensures 0 < d'.reservations[a].id < d'.nextReservationId
    {
      if a < |rs| { assert d'.reservations[a] == rs[a]; }
    }
    forall a, b | 0 <= a < b < |d'.reservations|
      ensures d'.reservations[a].id < d'.reservations[b].id
    {
      if b < |rs| {
        assert d'.reservations[a] == rs[a] && d'.reservations[b] == rs[b];
      } else {
        assert d'.reservations[a] == rs[a];
      }
    }
    forall r | r in d'.reservations ensures ReservationShape(r) {
      if r !in rs {
        assert r == Last(d'.reservations);
      }
    }
  }

  lemma ClaimKeepsLayout(d: Db, i: nat, userId: int, now: int)
    requires SpotsInLots(d) && CapacityMatches(d) && i < |d.spots|
    ensures SpotsInLots(Claim(d, i, userId, now))
    ensures CapacityMatches(Claim(d, i, userId, now))
    ensures SpotIds(Claim(d, i, userId, now).spots) == SpotIds(d.spots)
  {
    var d' := Claim(d, i, userId, now);
    var x := d.spots[i].(status := Occupied);
    assert d.spots[i] in d.spots;
    forall s | s in d'.spots ensures s.lotId in LotIds(d'.lots) {
      InUpdate(d.spots, i, x, s);
    }
    forall l | l in d'.lots ensures NumberedFromOne(LotSpots(d'.spots, l.id), l.numberOfSpots) {
      StatusFlipKeepsLayout(d.spots, i, x, l.id);
    }
    SpotIdsAfterUpdate(d.spots, i, x);
  }

  lemma ClaimKeepsOccupancy(d: Db, i: nat, userId: int, now: int)
    requires SpotKeys(d.spots, d.nextSpotId) && OccupancyMatches(d)
    requires ActiveOnLiveSpots(d) && OneActivePerUser(d)
    requires i < |d.spots| && d.spots[i].status == Available
    requires Count(d.reservations, ActiveOf(userId)) == 0
    ensures OccupancyMatches(Claim(d, i, userId, now))
    ensures ActiveOnLiveSpots(Claim(d, i, userId, now))
    ensures OneActivePerUser(Claim(d, i, userId, now))
  {
    var d' := Claim(d, i, userId, now);
    var spot := d.spots[i];
    var r := NewReservation(d.nextReservationId, spot.id, userId, now);
    assert spot in d.spots;
    forall s | s in d'.spots
      ensures Count(d'.reservations, ActiveOn(s.id)) == if s.status == Occupied then 1 else 0
    {
      CountAppend(d.reservations, r, ActiveOn(s.id));
      var k :| 0 <= k < |d'.spots| && d'.spots[k] == s;
      if k != i {
        assert d.spots[k] == s && s in d.spots;
        assert s.id != spot.id by {
          if k < i { assert d.spots[k].id < d.spots[i].id; }
          else { assert d.spots[i].id < d.spots[k].id; }
        }
      }
    }
    SpotIdsAfterUpdate(d.spots, i, spot.(status := Occupied));
    assert d'.spots[i] in d'.spots;
    forall u ensures Count(d'.reservations, ActiveOf(u)) <= 1 {
      CountAppend(d.reservations, r, ActiveOf(u));
    }
  }

  /** Booking keeps every store invariant. */
  lemma BookPreservesValid(d: Db, userId: int, lotId: Option<int>, now: int)
    requires Valid(d)
    ensures Valid(Book(d, userId, lotId, now).0)
  {
    if Truthy(lotId) && FirstReservation(d.reservations, ActiveOf(userId)).None? {
      var f := FirstAvailableIndex(d.spots, lotId.value);
      if f.Some? {
        var i := f.value;
        assert Book(d, userId, lotId, now).0 == Claim(d, i, userId, now);
        ClaimKeepsKeys(d, i, userId, now);
        ClaimKeepsLayout(d, i, userId, now);
        ClaimKeepsOccupancy(d, i, userId, now);
      }
    }
  }

  // ---- what leaving does ----

  /** Reservation `k` after its release at `now`, billed `cost`. */
  function Completion(r: Reservation, now: int, cost: real): Reservation {
    r.(leavingTimestamp := Some(now), parkingCost := Some(cost), status := Completed)
  }

  /** The store after reservation `k` is completed and spot `i` freed. */
  function Release(d: Db, k: nat, i: nat, now: int, cost: real): Db
    requires k < |d.reservations| && i < |d.spots|
  {
    d.(reservations := d.reservations[k := Completion(d.reservations[k], now, cost)],
       spots := d.spots[i := d.spots[i].(status := Available)])
  }

  /** Leaving without a reservation_id is refused with 400; nothing changes. */
  lemma LeaveNeedsReservationId(d: Db, userId: int, reservationId: Option<int>, now: int)
    requires !Truthy(reservationId)
    ensures Leave(d, userId, reservationId, now) == (d, ReservationIdRequired)
    ensures LeaveStatus(Leave(d, userId, reservationId, now).1) == 400
  {
  }

  /** Unless the id names an active reservation of this very user, leaving is
      refused with 404 and nothing changes: another user's reservation and a
      completed one are both "not found". */
  lemma LeaveRefusesOthers(d: Db, userId: int, reservationId: Option<int>, now: int)
    requires Truthy(reservationId)
    requires forall r :: r in d.reservations && r.id == reservationId.value ==>
               r.userId != userId || r.status != Active
    ensures Leave(d, userId, reservationId, now) == (d, ActiveReservationNotFound)
    ensures LeaveStatus(Leave(d, userId, reservationId, now).1) == 404
  {
  }

  /** Leaving an active reservation of one's own completes it: the leaving
      time is `now`, the cost is the started hours times the lot's hourly
      price, the status is "completed", and its spot is 'A' again. Nothing
      else changes, and the route answers 200 with that cost. */
  lemma LeaveReleases(d: Db, userId: int, reservationId: Option<int>, now: int, k: nat)
    requires Truthy(reservationId)
    requires k < |d.reservations|
    requires ActiveMatch(reservationId.value, userId)(d.reservations[k])
    requires ReservationKeys(d.reservations, d.nextReservationId)
    requires exists s :: s in d.spots && s.id == d.reservations[k].spotId
    ensures Leave(d, userId, reservationId, now).1.Released?
    ensures LeaveStatus(Leave(d, userId, reservationId, now).1) == 200
    ensures exists i :: 0 <= i < |d.spots| && d.spots[i].id == d.reservations[k].spotId &&
              Leave(d, userId, reservationId, now) ==
                (Release(d, k, i, now, LeaveCost(d, k, i, now)),
                 Released(LeaveCost(d, k, i, now), (now - d.reservations[k].parkingTimestamp) as real / 60.0))
  {
    var f := FirstReservation(d.reservations, ActiveMatch(reservationId.value, userId));
    assert f.Some?;
    assert f.value == k;
    var s :| s in d.spots && s.id == d.reservations[k].spotId;
    var g := FirstIndex(d.spots, SpotHasId(d.reservations[k].spotId));
    assert g.Some?;
    LeaveAnswerAt(d, userId, reservationId, now, k, g.value);
  }

  /** The answer of a release whose reservation and spot are found at `k`
      and `i`. */
  lemma LeaveAnswerAt(d: Db, userId: int, reservationId: Option<int>, now: int, k: nat, i: nat)
    requires Truthy(reservationId)
    requires FirstReservation(d.reservations, ActiveMatch(reservationId.value, userId)) == Some(k)
    requires k < |d.reservations|
    requires FirstIndex(d.spots, SpotHasId(d.reservations[k].spotId)) == Some(i) && i < |d.spots|
    ensures Leave(d, userId, reservationId, now).1.Released?
    ensures LeaveStatus(Leave(d, userId, reservationId, now).1) == 200
    ensures d.spots[i].id == d.reservations[k].spotId
    ensures Leave(d, userId, reservationId, now) ==
              (Release(d, k, i, now, LeaveCost(d, k, i, now)),
               Released(LeaveCost(d, k, i, now), (now - d.reservations[k].parkingTimestamp) as real / 60.0))
  {
    LeaveIsRelease(d, userId, reservationId, now, k, i);
    var answer := Leave(d, userId, reservationId, now);
    assert answer == (answer.0, answer.1);
  }

  /** On a consistent store the spot of an active reservation always exists,
      so leaving never takes the 500 path. */
  lemma LeaveNeverFailsOnValidStore(d: Db, userId: int, reservationId: Option<int>, now: int)
    requires ActiveOnLiveSpots(d)
    ensures !Leave(d, userId, reservationId, now).1.ReleaseFailed?
  {
    if Truthy(reservationId) {
      var f := FirstReservation(d.reservations, ActiveMatch(reservationId.value, userId));
      if f.Some? {
        var r := d.reservations[f.value];
        assert r in d.reservations;
        assert r.spotId in SpotIds(d.spots);
        var s :| s in d.spots && s.id == r.spotId;
        var k :| 0 <= k < |d.spots| && d.spots[k] == s;
        assert FirstIndex(d.spots, SpotHasId(r.spotId)).Some?;
      }
    }
  }

  /** A reservation cannot be released twice: once left, the same request
      answers 404. */
  lemma LeaveTwiceFails(d: Db, userId: int, reservationId: Option<int>, now: int, later: int)
    requires ReservationKeys(d.reservations, d.nextReservationId)
    requires Leave(d, userId, reservationId, now).1.Released?
    ensures Leave(Leave(d, userId, reservationId, now).0, userId, reservationId, later) ==
            (Leave(d, userId, reservationId, now).0, ActiveReservationNotFound)
  {
    var k := FirstReservation(d.reservations, ActiveMatch(reservationId.value, userId)).value;
    var i := FirstIndex(d.spots, SpotHasId(d.reservations[k].spotId)).value;
    LeaveIsRelease(d, userId, reservationId, now, k, i);
    var d' := Release(d, k, i, now, LeaveCost(d, k, i, now));
    forall r | r in d'.reservations && r.id == reservationId.value
      ensures r.userId != userId || r.status != Active
    {
      var j :| 0 <= j < |d'.reservations| && d'.reservations[j] == r;
      assert d.reservations[j].id == r.id;
      ReservationKeyAt(d.reservations, d.nextReservationId, j, k);
    }
    LeaveRefusesOthers(d', userId, reservationId, later);
  }

  /** Reservation keys are distinct, so a key names one position. */
  lemma ReservationKeyAt(rs: seq<Reservation>, next: nat, a: nat, b: nat)
    requires ReservationKeys(rs, next) && a < |rs| && b < |rs| && rs[a].id == rs[b].id
    ensures a == b
  {
  }


  // ---- leaving keeps the invariant ----

  lemma ReleaseKeepsKeys(d: Db, k: nat, i: nat, now: int, cost: real)
    requires LotKeys(d.lots, d.nextLotId) && SpotKeys(d.spots, d.nextSpotId)
    requires ReservationKeys(d.reservations, d.nextReservationId) && ReservationsShaped(d)
    requires k < |d.reservations| && i < |d.spots|
    ensures LotKeys(Release(d, k, i, now, cost).lots, Release(d, k, i, now, cost).nextLotId)
    ensures SpotKeys(Release(d, k, i, now, cost).spots, Release(d, k, i, now, cost).nextSpotId)
    ensures ReservationKeys(Release(d, k, i, now, cost).reservations,
                            Release(d, k, i, now, cost).nextReservationId)
    ensures ReservationsShaped(Release(d, k, i, now, cost))
  {
    var d' := Release(d, k, i, now, cost);
    assert forall j :: 0 <= j < |d.spots| ==> d'.spots[j].id == d.spots[j].id;
    assert forall j :: 0 <= j < |d.reservations| ==> d'.reservations[j].id == d.reservations[j].id;
    forall r | r in d'.reservations ensures ReservationShape(r) {
      InUpdate(d.reservations, k, Completion(d.reservations[k], now, cost), r);
    }
  }

  lemma ReleaseKeepsLayout(d: Db, k: nat, i: nat, now: int, cost: real)
    requires SpotsInLots(d) && CapacityMatches(d) && k < |d.reservations| && i < |d.spots|
    ensures SpotsInLots(Release(d, k, i, now, cost))
    ensures CapacityMatches(Release(d, k, i, now, cost))
    ensures SpotIds(Release(d, k, i, now, cost).spots) == SpotIds(d.spots)
  {
    var d' := Release(d, k, i, now, cost);
    var x := d.spots[i].(status := Available);
    assert d.spots[i] in d.spots;
    forall s | s in d'.spots ensures s.lotId in LotIds(d'.lots) {
      InUpdate(d.spots, i, x, s);
    }
    forall l | l in d'.lots ensures NumberedFromOne(LotSpots(d'.spots, l.id), l.numberOfSpots) {
      StatusFlipKeepsLayout(d.spots, i, x, l.id);
    }
    SpotIdsAfterUpdate(d.spots, i, x);
  }

  lemma ReleaseKeepsOccupancy(d: Db, k: nat, i: nat, now: int, cost: real)
    requires SpotKeys(d.spots, d.nextSpotId) && OccupancyMatches(d)
    requires k < |d.reservations| && i < |d.spots|
    requires d.reservations[k].status == Active && d.spots[i].id == d.reservations[k].spotId
    ensures OccupancyMatches(Release(d, k, i, now, cost))
  {
    var d' := Release(d, k, i, now, cost);
    var r := d.reservations[k];
    var done := Completion(r, now, cost);
    var spot := d.spots[i];
    assert spot in d.spots && r in d.reservations;
    assert Count(d.reservations, ActiveOn(spot.id)) >= 1 by {
      CountZero(d.reservations, ActiveOn(spot.id));
    }
    forall s | s in d'.spots
      ensures Count(d'.reservations, ActiveOn(s.id)) == if s.status == Occupied then 1 else 0
    {
      CountUpdate(d.reservations, k, done, ActiveOn(s.id));
      var j :| 0 <= j < |d'.spots| && d'.spots[j] == s;
      if j != i {
        assert d.spots[j] == s && s in d.spots;
        assert s.id != spot.id by {
          if j < i { assert d.spots[j].id < d.spots[i].id; }
          else { assert d.spots[i].id < d.spots[j].id; }
        }
      }
    }
  }

  lemma ReleaseKeepsHolders(d: Db, k: nat, i: nat, now: int, cost: real)
    requires Valid(d) && k < |d.reservations| && i < |d.spots|
    ensures ActiveOnLiveSpots(Release(d, k, i, now, cost))
    ensures OneActivePerUser(Release(d, k, i, now, cost))
  {
    var d' := Release(d, k, i, now, cost);
    var done := Completion(d.reservations[k], now, cost);
    ReleaseKeepsLayout(d, k, i, now, cost);
    forall q | q in d'.reservations && q.status == Active ensures q.spotId in SpotIds(d'.spots) {
      InUpdate(d.reservations, k, done, q);
    }
    forall u ensures Count(d'.reservations, ActiveOf(u)) <= 1 {
      CountUpdate(d.reservations, k, done, ActiveOf(u));
    }
  }

  lemma ReleaseKeepsValid(d: Db, k: nat, i: nat, now: int, cost: real)
    requires Valid(d) && k < |d.reservations| && i < |d.spots|
    requires d.reservations[k].status == Active && d.spots[i].id == d.reservations[k].spotId
    ensures Valid(Release(d, k, i, now, cost))
  {
    ReleaseKeepsKeys(d, k, i, now, cost);
    ReleaseKeepsLayout(d, k, i, now, cost);
    ReleaseKeepsOccupancy(d, k, i, now, cost);
    ReleaseKeepsHolders(d, k, i, now, cost);
  }

  /** Leaving keeps every store invariant. */
  lemma LeavePreservesValid(d: Db, userId: int, reservationId: Option<int>, now: int)
    requires Valid(d)
    ensures Valid(Leave(d, userId, reservationId, now).0)
  {
    if Truthy(reservationId) {
      var f := FirstReservation(d.reservations, ActiveMatch(reservationId.value, userId));
      if f.Some? {
        var k := f.value;
        var g := FirstIndex(d.spots, SpotHasId(d.reservations[k].spotId));
        if g.Some? {
          var i := g.value;
          LeaveIsRelease(d, userId, reservationId, now, k, i);
          ReleaseKeepsValid(d, k, i, now, LeaveCost(d, k, i, now));
        }
      }
    }
  }

  /** What a successful `leave_spot` bills: started hours times the lot's price. */
  function LeaveCost(d: Db, k: nat, i: nat, now: int): real
    requires k < |d.reservations| && i < |d.spots|
  {
    BillableHours(now - d.reservations[k].parkingTimestamp) as real * PriceOf(d, d.spots[i])
  }

  /** Once the reservation and its spot are found, leaving is `Release`. */
  lemma LeaveIsRelease(d: Db, userId: int, reservationId: Option<int>, now: int, k: nat, i: nat)
    requires Truthy(reservationId)
    requires FirstReservation(d.reservations, ActiveMatch(reservationId.value, userId)) == Some(k)
    requires k < |d.reservations|
    requires FirstIndex(d.spots, SpotHasId(d.reservations[k].spotId)) == Some(i) && i < |d.spots|
    ensures Leave(d, userId, reservationId, now).0 == Release(d, k, i, now, LeaveCost(d, k, i, now))
    ensures Leave(d, userId, reservationId, now).1 ==
            Released(LeaveCost(d, k, i, now), (now - d.reservations[k].parkingTimestamp) as real / 60.0)
    ensures d.reservations[k].status == Active && d.spots[i].id == d.reservations[k].spotId
  {
  }


  // ---- billing ----

  /** Billing examples: 61 minutes at 50 an hour is two started hours, 100;
      exactly one hour is 50; no elapsed time is free. */
  lemma BillExamples()
    ensures BillableHours(61 * 60) * 50 == 100
    ensures BillableHours(60 * 60) * 50 == 50
    ensures BillableHours(59) * 50 == 50
    ensures BillableHours(0) * 50 == 0
  {
  }

  /** A longer stay is never billed fewer hours. */
  lemma BillableHoursMonotone(a: int, b: int)
    requires a <= b
    ensures BillableHours(a) <= BillableHours(b)
  {
  }

  // ---- availability ----

  /** On a consistent store the availability a lot reports is the number of
      its spots with status 'A', between 0 and `number_of_spots`. */
  lemma AvailabilityCountsFreeSpots(d: Db, l: Lot)
    requires CapacityMatches(d) && l in d.lots
    ensures AvailableIn(d, l) == Count(LotSpots(d.spots, l.id), IsAvailable)
    ensures 0 <= AvailableIn(d, l) <= l.numberOfSpots
  {
    StatusesPartition(LotSpots(d.spots, l.id));
  }

  /** Every row of the availability list is consistent on a consistent store. */
  lemma AvailableLotsBounded(d: Db)
    requires Valid(d)
    ensures |AvailableLots(d)| == |d.lots|
    ensures forall row :: row in AvailableLots(d) ==> 0 <= row.availableSpots <= row.totalSpots
  {
    var rows := AvailableLots(d);
    forall row | row in rows ensures 0 <= row.availableSpots <= row.totalSpots {
      var k :| 0 <= k < |rows| && rows[k] == row;
      var l := d.lots[|d.lots| - 1 - k];
      assert l in d.lots;
      AvailabilityCountsFreeSpots(d, l);
    }
  }

  /** A successful booking takes one spot of the booked lot: its availability
      drops by one and every other lot's stays as it was. */
  lemma BookTakesOneSpot(d: Db, userId: int, lotId: Option<int>, now: int)
    requires Valid(d)
    requires Book(d, userId, lotId, now).1.Booked?
    ensures Book(d, userId, lotId, now).0.lots == d.lots
    ensures forall l :: l in d.lots ==>
              AvailableIn(Book(d, userId, lotId, now).0, l) ==
              AvailableIn(d, l) - (if l.id == lotId.value then 1 else 0)
  {
    var i := FirstAvailableIndex(d.spots, lotId.value).value;
    var x := d.spots[i].(status := Occupied);
    forall l | l in d.lots
      ensures AvailableIn(Book(d, userId, lotId, now).0, l) ==
              AvailableIn(d, l) - (if l.id == lotId.value then 1 else 0)
    {
      OccupiedAfterUpdate(d.spots, i, x, l.id);
    }
  }

  lemma ReleaseFreesSpot(d: Db, k: nat, i: nat, now: int, cost: real)
    requires k < |d.reservations| && i < |d.spots| && d.spots[i].status == Occupied
    ensures forall l :: l in d.lots ==>
              AvailableIn(Release(d, k, i, now, cost), l) ==
              AvailableIn(d, l) + (if l.id == d.spots[i].lotId then 1 else 0)
  {
    forall l | l in d.lots
      ensures AvailableIn(Release(d, k, i, now, cost), l) ==
              AvailableIn(d, l) + (if l.id == d.spots[i].lotId then 1 else 0)
    {
      OccupiedAfterUpdate(d.spots, i, d.spots[i].(status := Available), l.id);
    }
  }

  /** A successful release frees the spot of the reservation it completes,
      the caller's active reservation of key `reservationId`: that spot was
      occupied, the availability of its lot rises by one and every other
      lot's stays as it was. */
  lemma LeaveFreesOneSpot(d: Db, userId: int, reservationId: Option<int>, now: int)
    requires OccupancyMatches(d)
    requires Leave(d, userId, reservationId, now).1.Released?
    ensures Leave(d, userId, reservationId, now).0.lots == d.lots
    ensures reservationId.Some?
    ensures exists r, s :: r in d.reservations && r.id == reservationId.value && r.userId == userId &&
              r.status == Active && s in d.spots && s.id == r.spotId && s.status == Occupied &&
              forall l :: l in d.lots ==>
                AvailableIn(Leave(d, userId, reservationId, now).0, l) ==
                AvailableIn(d, l) + (if l.id == s.lotId then 1 else 0)
  {
    var k := FirstReservation(d.reservations, ActiveMatch(reservationId.value, userId)).value;
    var r := d.reservations[k];
    var i := FirstIndex(d.spots, SpotHasId(r.spotId)).value;
    LeaveIsRelease(d, userId, reservationId, now, k, i);
    assert r in d.reservations && d.spots[i] in d.spots;
    HeldSpotIsOccupied(d, r, d.spots[i]);
    ReleaseFreesSpot(d, k, i, now, LeaveCost(d, k, i, now));
  }

  // ---- reservation history ----

  /** `b` keeps every reservation of `a` at its place, with the same key,
      spot, user and start, and leaves completed ones exactly as they were:
      history is only ever appended to or completed. */
  ghost predicate HistoryExtends(a: seq<Reservation>, b: seq<Reservation>) {
    && |a| <= |b|
    && forall j :: 0 <= j < |a| ==>
         && b[j].id == a[j].id && b[j].spotId == a[j].spotId && b[j].userId == a[j].userId
         && b[j].parkingTimestamp == a[j].parkingTimestamp
         && (a[j].status == Completed ==> b[j] == a[j])
  }

  lemma BookExtendsHistory(d: Db, userId: int, lotId: Option<int>, now: int)
    ensures HistoryExtends(d.reservations, Book(d, userId, lotId, now).0.reservations)
  {
  }

  lemma LeaveExtendsHistory(d: Db, userId: int, reservationId: Option<int>, now: int)
    ensures HistoryExtends(d.reservations, Leave(d, userId, reservationId, now).0.reservations)
  {
  }

  /** `my_reservations` lists exactly the user's reservations, one row each,
      newest first. */
  lemma MyReservationsAreTheUsers(d: Db, userId: int)
    ensures |MyReservations(d, userId)| == Count(d.reservations, OwnedBy(userId))
    ensures forall row :: row in MyReservations(d, userId) ==>
              exists r :: r in d.reservations && r.userId == userId && r.id == row.id
    ensures forall r :: r in d.reservations && r.userId == userId ==>
              exists row :: row in MyReservations(d, userId) && row.id == r.id && row.status == r.status
  {
    HistoryRowsMirror(d, Filter(d.reservations, OwnedBy(userId)));
  }

  /** Each history row is the row of one of the reservations, and each
      reservation has its row. */
  lemma HistoryRowsMirror(d: Db, rs: seq<Reservation>)
    ensures forall row :: row in HistoryRows(d, rs) ==> exists r :: r in rs && r.id == row.id
    ensures forall r :: r in rs ==>
              exists row :: row in HistoryRows(d, rs) && row.id == r.id && row.status == r.status
  {
    var rows := HistoryRows(d, rs);
    forall row | row in rows ensures exists r :: r in rs && r.id == row.id {
      var k :| 0 <= k < |rows| && rows[k] == row;
      assert rs[|rs| - 1 - k] in rs;
    }
    forall r | r in rs ensures exists row :: row in rows && row.id == r.id && row.status == r.status {
      var j :| 0 <= j < |rs| && rs[j] == r;
      assert rows[|rs| - 1 - j] in rows;
    }
  }

}
