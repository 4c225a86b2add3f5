/** The read-only admin routes (backend/routes/admin_routes.py): the lot list
    with occupancy, the spot list of one lot, and the dashboard counts. Each
    is a function of the store; the users table and the two revenue window
    starts (midnight and the first of the month, in seconds) are parameters. */
module AdminViews {

  import opened Wrappers
  import opened Seqs
  import opened Models
  import opened Store
  import opened Allocation

  // ---- list_lots ----

  datatype LotRow = LotRow(
    id: nat, name: string, pricePerHour: real, numberOfSpots: int,
    occupied: nat, available: int,
    address: Option<string>, pincode: Option<string>, createdAt: int)

  function LotRowOf(d: Db, l: Lot): LotRow {
    var occupied := OccupiedIn(d.spots, l.id);
    LotRow(l.id, l.name, l.pricePerHour, l.numberOfSpots, occupied, l.numberOfSpots - occupied,
           l.address, l.pincode, l.createdAt)
  }

  function LotRows(d: Db, lots: seq<Lot>): (out: seq<LotRow>)
    ensures |out| == |lots|
    ensures forall k :: 0 <= k < |out| ==> out[k] == LotRowOf(d, lots[|lots| - 1 - k])
  {
    if lots == [] then []
    else
      assert forall k :: 0 <= k < |lots| - 1 ==> Init(lots)[k] == lots[k];
      [LotRowOf(d, Last(lots))] + LotRows(d, Init(lots))
  }

  /** `list_lots`: every lot, newest first (creation times grow with the
      key), with its occupied and available counts. */
  function ListLots(d: Db): (rows: seq<LotRow>)
    ensures |rows| == |d.lots|
    ensures forall k :: 0 <= k < |rows| ==> rows[k].occupied + rows[k].available == rows[k].numberOfSpots
  {
    LotRows(d, d.lots)
  }

  /** The lot list has one row per lot, newest first. */
  lemma ListLotsOnePerLot(d: Db)
    requires LotKeys(d.lots, d.nextLotId)
    ensures |ListLots(d)| == |d.lots|
    ensures forall i, j :: 0 <= i < j < |ListLots(d)| ==> ListLots(d)[i].id > ListLots(d)[j].id
    ensures forall l :: l in d.lots ==> exists row :: row in ListLots(d) && row.id == l.id
  {
    var rows := ListLots(d);
    forall l | l in d.lots ensures exists row :: row in rows && row.id == l.id {
      var j :| 0 <= j < |d.lots| && d.lots[j] == l;
      assert rows[|d.lots| - 1 - j] in rows;
    }
  }

  /** On a consistent store a lot's row counts between 0 and its capacity
      occupied spots, and its available count is the number of its spots
      with status 'A', the same number the users' availability list shows. */
  lemma LotRowCounts(d: Db, l: Lot)
    requires CapacityMatches(d) && l in d.lots
    ensures 0 <= LotRowOf(d, l).occupied <= LotRowOf(d, l).numberOfSpots
    ensures LotRowOf(d, l).available == Count(LotSpots(d.spots, l.id), IsAvailable)
    ensures LotRowOf(d, l).available == AvailabilityRow(d, l).availableSpots
  {
    AvailabilityCountsFreeSpots(d, l);
  }

  lemma LotRowAt(d: Db, k: nat)
    requires CapacityMatches(d) && k < |d.lots|
    ensures 0 <= ListLots(d)[k].occupied <= ListLots(d)[k].numberOfSpots
    ensures ListLots(d)[k].available == Count(LotSpots(d.spots, ListLots(d)[k].id), IsAvailable)
    ensures ListLots(d)[k].available == AvailableLots(d)[k].availableSpots
  {
    var l := ListedLot(d, k);
    LotRowCounts(d, l);
  }

  /** The k-th row of both lot lists is the row of the k-th newest lot. */
  lemma ListedLot(d: Db, k: nat) returns (l: Lot)
    requires k < |d.lots|
    ensures l in d.lots
    ensures ListLots(d)[k] == LotRowOf(d, l) && AvailableLots(d)[k] == AvailabilityRow(d, l)
  {
    l := d.lots[|d.lots| - 1 - k];
  }

  /** Every row of the lot list is consistent on a consistent store, and
      agrees with the users' availability list row by row. */
  lemma ListLotsCounts(d: Db)
    requires Valid(d)
    ensures forall k :: 0 <= k < |ListLots(d)| ==>
              && 0 <= ListLots(d)[k].occupied <= ListLots(d)[k].numberOfSpots
              && ListLots(d)[k].available == Count(LotSpots(d.spots, ListLots(d)[k].id), IsAvailable)
              && ListLots(d)[k].available == AvailableLots(d)[k].availableSpots
  {
    forall k | 0 <= k < |ListLots(d)| {
      LotRowAt(d, k);
    }
  }

  // ---- list_spots_for_lot ----

  datatype ReservationInfo = ReservationInfo(
    reservationId: nat, userId: int, parkingTimestamp: int, status: ReservationStatus)

  datatype SpotRow = SpotRow(
    id: nat, number: int, status: SpotStatus, createdAt: int,
    reservation: Option<ReservationInfo>)

  datatype SpotListing = SpotListing(lotId: nat, lotName: string, spots: seq<SpotRow>)

  /** The rows whose spot_id is `spotId`, whatever their status. */
  function OnSpot(spotId: int): Reservation -> bool {
    (r: Reservation) => r.spotId == spotId
  }

  /** The reservation a spot row shows: the first row that `link` picks out
      for the spot's id, if any. */
  function Linked(d: Db, s: Spot, link: int -> (Reservation -> bool)): Option<Reservation> {
    match FirstIndex(d.reservations, link(s.id))
    case Some(k) => Some(d.reservations[k])
    case None => None
  }

  function InfoOf(r: Reservation): ReservationInfo {
    ReservationInfo(r.id, r.userId, r.parkingTimestamp, r.status)
  }

  /** One spot as listed: reservation details only for an occupied spot
      whose link finds a row. */
  function SpotRowOf(d: Db, s: Spot, link: int -> (Reservation -> bool)): SpotRow {
    var r := Linked(d, s, link);
    SpotRow(s.id, s.number, s.status, s.createdAt,
            if s.status == Occupied && r.Some? then Some(InfoOf(r.value)) else None)
  }

  function SpotRows(d: Db, spots: seq<Spot>, link: int -> (Reservation -> bool)): (out: seq<SpotRow>)
    ensures |out| == |spots|
    ensures forall k :: 0 <= k < |out| ==> out[k] == SpotRowOf(d, spots[k], link)
  {
    if spots == [] then []
    else SpotRows(d, Init(spots), link) + [SpotRowOf(d, Last(spots), link)]
  }

  function Listing(d: Db, lotId: int, link: int -> (Reservation -> bool)): Option<SpotListing> {
    match FirstIndex(d.lots, LotHasId(lotId))
    case None => None
    case Some(j) =>
      Some(SpotListing(d.lots[j].id, d.lots[j].name,
                       SpotRows(d, SortByNumber(LotSpots(d.spots, lotId)), link)))
  }

  /** `list_spots_for_lot`: None is the 404 answer. The reservation shown for
      an occupied spot is what the one-to-one `spot.reservation` link loads:
      the first reservation row that names the spot, of any status. */
  function ListSpotsForLot(d: Db, lotId: int): (r: Option<SpotListing>)
    ensures r.None? <==> forall j :: 0 <= j < |d.lots| ==> d.lots[j].id != lotId
    ensures r.Some? ==> r.value.lotId == lotId && |r.value.spots| == |LotSpots(d.spots, lotId)|
  {
    Listing(d, lotId, OnSpot)
  }

  function ListSpotsStatus(o: Option<SpotListing>): int {
    if o.None? then 404 else 200
  }

  /** The listing is refused with 404 exactly when no lot has the id. */
  lemma ListSpotsNotFound(d: Db, lotId: int)
    ensures ListSpotsForLot(d, lotId).None? <==> forall l :: l in d.lots ==> l.id != lotId
    ensures ListSpotsStatus(ListSpotsForLot(d, lotId)) == 404 <==> ListSpotsForLot(d, lotId).None?
  {
    var f := FirstIndex(d.lots, LotHasId(lotId));
    if f.Some? {
      assert d.lots[f.value] in d.lots;
    }
  }

  /** A listing that is found lists the lot's own spots, sorted by number. */
  lemma ListingFound(d: Db, lotId: int, link: int -> (Reservation -> bool)) returns (sorted: seq<Spot>)
    requires Listing(d, lotId, link).Some?
    ensures Listing(d, lotId, link).value.spots == SpotRows(d, sorted, link)
    ensures SortedByNumber(sorted) && |sorted| == |LotSpots(d.spots, lotId)|
    ensures sorted == SortByNumber(LotSpots(d.spots, lotId))
    ensures forall s :: s in sorted <==> s in d.spots && s.lotId == lotId
  {
    sorted := SortByNumber(LotSpots(d.spots, lotId));
    SameMembers(LotSpots(d.spots, lotId), sorted);
  }

  /** Each listed row is the row of one of the listed spots, and each spot
      has its row. */
  lemma {:induction false} RowsMirrorSpots(d: Db, spots: seq<Spot>, link: int -> (Reservation -> bool))
    ensures forall row :: row in SpotRows(d, spots, link) ==>
              exists s :: s in spots && row == SpotRowOf(d, s, link)
    ensures forall s :: s in spots ==> SpotRowOf(d, s, link) in SpotRows(d, spots, link)
  {
    var rows := SpotRows(d, spots, link);
    forall row | row in rows ensures exists s :: s in spots && row == SpotRowOf(d, s, link) {
      var k :| 0 <= k < |rows| && rows[k] == row;
      assert spots[k] in spots;
    }
    forall s | s in spots ensures SpotRowOf(d, s, link) in rows {
      var k :| 0 <= k < |spots| && spots[k] == s;
      assert rows[k] == SpotRowOf(d, s, link);
    }
  }

  /** The listing shows every spot of the lot once, in ascending spot
      number, with its own number and status. */
  lemma ListSpotsInOrder(d: Db, lotId: int)
    requires ListSpotsForLot(d, lotId).Some?
    ensures var rows := ListSpotsForLot(d, lotId).value.spots;
            && |rows| == |LotSpots(d.spots, lotId)|
            && (forall i, j :: 0 <= i < j < |rows| ==> rows[i].number <= rows[j].number)
            && (forall row :: row in rows ==>
                  exists s :: s in d.spots && s.lotId == lotId && s.id == row.id &&
                              s.number == row.number && s.status == row.status)
            && (forall s :: s in d.spots && s.lotId == lotId ==> exists row :: row in rows && row.id == s.id)
  {
    var sorted := ListingFound(d, lotId, OnSpot);
    RowsMirrorSpots(d, sorted, OnSpot);
    RowsInOrder(d, sorted, OnSpot);
  }

  /** Rows built from spots sorted by number are sorted by number. */
  lemma RowsInOrder(d: Db, spots: seq<Spot>, link: int -> (Reservation -> bool))
    requires SortedByNumber(spots)
    ensures forall i, j :: 0 <= i < j < |SpotRows(d, spots, link)| ==>
              SpotRows(d, spots, link)[i].number <= SpotRows(d, spots, link)[j].number
  {
    var rows := SpotRows(d, spots, link);
    assert forall i :: 0 <= i < |rows| ==> rows[i].number == spots[i].number;
  }

  /** On a consistent store the listed numbers are exactly 1, 2, ..., the
      lot's `number_of_spots`. */
  lemma ListSpotsNumberedOneToN(d: Db, lotId: int)
    requires Valid(d) && ListSpotsForLot(d, lotId).Some?
    ensures exists l :: l in d.lots && l.id == lotId &&
              var rows := ListSpotsForLot(d, lotId).value.spots;
              |rows| == l.numberOfSpots && forall k :: 0 <= k < |rows| ==> rows[k].number == k + 1
  {
    var j := FirstIndex(d.lots, LotHasId(lotId)).value;
    var l := d.lots[j];
    assert l in d.lots;
    var own := LotSpots(d.spots, lotId);
    assert NumberedFromOne(own, l.numberOfSpots);
    SortSortedIsIdentity(own);
  }

  /** On a consistent store an occupied spot has an active reservation, so
      both links find a row for it: the first row naming the spot, and the
      active row that holds it. */
  lemma OccupiedSpotIsLinked(d: Db, s: Spot)
    requires OccupancyMatches(d) && s in d.spots && s.status == Occupied
    ensures Linked(d, s, OnSpot).Some?
    ensures Linked(d, s, OnSpot).value in d.reservations && Linked(d, s, OnSpot).value.spotId == s.id
    ensures Linked(d, s, ActiveOn).Some?
    ensures Linked(d, s, ActiveOn).value in d.reservations
    ensures ActiveOn(s.id)(Linked(d, s, ActiveOn).value)
  {
    assert Count(d.reservations, ActiveOn(s.id)) == 1;
    CountZero(d.reservations, ActiveOn(s.id));
    var h :| h in d.reservations && ActiveOn(s.id)(h);
    var a :| 0 <= a < |d.reservations| && d.reservations[a] == h;
    assert OnSpot(s.id)(d.reservations[a]);
    var f := FirstIndex(d.reservations, OnSpot(s.id));
    assert d.reservations[f.value] in d.reservations;
    var g := FirstIndex(d.reservations, ActiveOn(s.id));
    assert d.reservations[g.value] in d.reservations;
  }

  /** An occupied spot of a consistent store always shows reservation
      details, taken from a reservation row of that spot; an available spot
      shows none. */
  lemma OccupiedSpotsShowReservation(d: Db, lotId: int)
    requires OccupancyMatches(d) && ListSpotsForLot(d, lotId).Some?
    ensures forall row :: row in ListSpotsForLot(d, lotId).value.spots && row.status == Occupied ==>
              && row.reservation.Some?
              && exists r :: r in d.reservations && r.spotId == row.id && r.id == row.reservation.value.reservationId
    ensures forall row :: row in ListSpotsForLot(d, lotId).value.spots && row.status == Available ==>
              row.reservation.None?
  {
    var sorted := ListingFound(d, lotId, OnSpot);
    RowsMirrorSpots(d, sorted, OnSpot);
    forall s | s in sorted && s.status == Occupied {
      OccupiedSpotIsLinked(d, s);
    }
  }

  /** One lot with one spot, used twice: reservation 1 is over, reservation
      2 holds the spot now. */
  function TwiceUsedSpot(): Db {
    Db([Lot(1, "L", None, None, 10.0, 1, 0)],
       [Spot(1, 1, 1, Occupied, 0)],
       [Reservation(1, 1, 7, 0, Some(60), Some(10.0), Completed, 0),
        Reservation(2, 1, 8, 100, None, None, Active, 100)],
       2, 2, 3)
  }

  lemma TwiceUsedSpotIsValid()
    ensures Valid(TwiceUsedSpot())
  {
    TwiceUsedSpotKeys();
    TwiceUsedSpotLayout();
    TwiceUsedSpotHolders();
  }

  lemma TwiceUsedSpotKeys()
    ensures var d := TwiceUsedSpot();
            && LotKeys(d.lots, d.nextLotId) && SpotKeys(d.spots, d.nextSpotId)
            && ReservationKeys(d.reservations, d.nextReservationId)
            && ReservationsShaped(d) && ActiveOnLiveSpots(d)
  {
    var d := TwiceUsedSpot();
    assert d.spots[0].id == 1;
  }

  lemma TwiceUsedSpotLayout()
    ensures CapacityMatches(TwiceUsedSpot()) && SpotsInLots(TwiceUsedSpot())
  {
    var d := TwiceUsedSpot();
    assert LotSpots(d.spots, 1) == d.spots by {
      assert Init(d.spots) == [];
    }
  }

  lemma TwiceUsedSpotHolders()
    ensures OccupancyMatches(TwiceUsedSpot()) && OneActivePerUser(TwiceUsedSpot())
  {
    var d := TwiceUsedSpot();
    var r1, r2 := d.reservations[0], d.reservations[1];
    assert Init([r1, r2]) == [r1];
    assert Init([r1]) == [];
    assert Count(d.reservations, ActiveOn(1)) == 1;
    forall u ensures Count(d.reservations, ActiveOf(u)) <= 1 {
    }
  }


  /** The link loads the first reservation row naming the spot, so once a
      spot has been used twice the listing shows the first, completed
      reservation even though another one holds the spot now. */
  lemma ListSpotsShowsStaleReservation()
    ensures Valid(TwiceUsedSpot())
    ensures ListSpotsForLot(TwiceUsedSpot(), 1).Some?
    ensures ListSpotsForLot(TwiceUsedSpot(), 1).value.spots[0].status == Occupied
    ensures ListSpotsForLot(TwiceUsedSpot(), 1).value.spots[0].reservation ==
            Some(ReservationInfo(1, 7, 0, Completed))
  {
    TwiceUsedSpotIsValid();
    var d := TwiceUsedSpot();
    assert LotSpots(d.spots, 1) == d.spots by {
      assert Init(d.spots) == [];
    }
    assert SortByNumber(d.spots) == d.spots;
    assert FirstIndex(d.lots, LotHasId(1)) == Some(0);
    assert FirstIndex(d.reservations, OnSpot(1)) == Some(0);
    var spot := d.spots[0];
    assert Linked(d, spot, OnSpot) == Some(d.reservations[0]);
    var sorted := ListingFound(d, 1, OnSpot);
    assert sorted == d.spots;
    var row := SpotRows(d, d.spots, OnSpot)[0];
    assert row == SpotRowOf(d, spot, OnSpot);
    assert spot.status == Occupied;
    assert row.reservation == Some(InfoOf(d.reservations[0]));
    assert InfoOf(d.reservations[0]) == ReservationInfo(1, 7, 0, Completed);
  }

  /** What the listing evidently means to show: the reservation that holds
      the spot now, the active one. */
  function ListSpotsForLotCurrent(d: Db, lotId: int): Option<SpotListing> {
    Listing(d, lotId, ActiveOn)
  }

  /** With the active reservation as the link, an occupied spot of a
      consistent store shows the one active reservation that holds it, and
      an available spot shows nothing. */
  lemma CurrentListingShowsHolder(d: Db, lotId: int)
    requires OccupancyMatches(d) && ListSpotsForLotCurrent(d, lotId).Some?
    ensures forall row :: row in ListSpotsForLotCurrent(d, lotId).value.spots && row.status == Occupied ==>
              && row.reservation.Some?
              && row.reservation.value.status == Active
              && exists r :: r in d.reservations && r.spotId == row.id && r.status == Active &&
                             r.id == row.reservation.value.reservationId && r.userId == row.reservation.value.userId
    ensures forall row :: row in ListSpotsForLotCurrent(d, lotId).value.spots && row.status == Available ==>
              row.reservation.None?
  {
    var sorted := ListingFound(d, lotId, ActiveOn);
    RowsMirrorSpots(d, sorted, ActiveOn);
    forall s | s in sorted && s.status == Occupied {
      OccupiedSpotIsLinked(d, s);
    }
  }

  // ---- dashboard_stats ----

  datatype Stats = Stats(
    totalLots: nat, totalSpots: int, occupiedSpots: nat, availableSpots: int,
    occupancyRate: real, activeReservations: nat, totalUsers: nat,
    todayRevenue: real, monthRevenue: real)

  /** `SUM(number_of_spots)` over the lots, 0 when there are none. */
  function SpotCapacity(lots: seq<Lot>): int {
    if lots == [] then 0 else SpotCapacity(Init(lots)) + Last(lots).numberOfSpots
  }

  /** What one reservation adds to the revenue since `since`: its cost when
      it is completed and left at or after `since` (a missing cost is a NULL
      the sum skips). */
  function Earned(r: Reservation, since: int): real {
    if r.status == Completed && r.leavingTimestamp.Some? && r.leavingTimestamp.value >= since
    then r.parkingCost.GetOr(0.0)
    else 0.0
  }

  function Revenue(rs: seq<Reservation>, since: int): real {
    if rs == [] then 0.0 else Revenue(Init(rs), since) + Earned(Last(rs), since)
  }

  predicate IsUserRole(u: User) {
    u.role == "user"
  }

  /** `dashboard_stats`. The occupancy rate is a percentage, without the
      rounding to two places. */
  function DashboardStats(d: Db, users: seq<User>, todayStart: int, monthStart: int): (st: Stats)
    ensures st.totalLots == |d.lots| && st.occupiedSpots + st.availableSpots == st.totalSpots
    ensures st.occupiedSpots <= |d.spots| && st.activeReservations <= |d.reservations|
    ensures st.totalUsers <= |users|
  {
    var total := SpotCapacity(d.lots);
    var occupied := Count(d.spots, IsOccupied);
    Stats(|d.lots|, total, occupied, total - occupied,
          if total > 0 then occupied as real / total as real * 100.0 else 0.0,
          Count(d.reservations, IsActive), Count(users, IsUserRole),
          Revenue(d.reservations, todayStart), Revenue(d.reservations, monthStart))
  }

  function LotsIn(ids: set<nat>): Spot -> bool {
    (s: Spot) => s.lotId in ids
  }

  function ActiveAmong(ids: set<nat>): Reservation -> bool {
    (r: Reservation) => r.status == Active && r.spotId in ids
  }

  /** Summing the capacities of lots with distinct keys counts the spots
      that belong to one of them. */
  lemma {:induction false} CapacityCountsSpots(spots: seq<Spot>, lots: seq<Lot>)
    requires forall i, j :: 0 <= i < j < |lots| ==> lots[i].id < lots[j].id
    requires forall l :: l in lots ==> |LotSpots(spots, l.id)| == l.numberOfSpots
    ensures SpotCapacity(lots) == Count(spots, LotsIn(LotIds(lots)))
  {
    if lots == [] {
      CountZero(spots, LotsIn(LotIds(lots)));
    } else {
      var init, l := Init(lots), Last(lots);
      InitLast(lots);
      CapacityCountsSpots(spots, init);
      assert LotIds(lots) == LotIds(init) + {l.id};
      assert l.id !in LotIds(init);
      CountSplit(spots, LotsIn(LotIds(lots)), LotsIn(LotIds(init)), InLot(l.id));
    }
  }

  /** Counting active reservations spot by spot over spots with distinct
      keys counts the occupied spots. */
  lemma {:induction false} ActiveCountsOccupied(rs: seq<Reservation>, spots: seq<Spot>)
    requires SpotIdsIncreasing(spots)
    requires forall s :: s in spots ==> Count(rs, ActiveOn(s.id)) == if s.status == Occupied then 1 else 0
    ensures Count(rs, ActiveAmong(SpotIds(spots))) == Count(spots, IsOccupied)
  {
    if spots == [] {
      CountZero(rs, ActiveAmong(SpotIds(spots)));
    } else {
      var init, x := Init(spots), Last(spots);
      InitLast(spots);
      InitIdsIncreasing(spots);
      ActiveCountsOccupied(rs, init);
      assert SpotIds(spots) == SpotIds(init) + {x.id};
      assert x.id !in SpotIds(init);
      CountSplit(rs, ActiveAmong(SpotIds(spots)), ActiveAmong(SpotIds(init)), ActiveOn(x.id));
    }
  }

  /** On a consistent store the dashboard adds up: the capacity sum is the
      number of spot rows, the available count is the number of 'A' spots,
      occupied spots and active reservations are equal in number, and the
      occupancy rate is a percentage. */
  lemma DashboardConsistent(d: Db, users: seq<User>, todayStart: int, monthStart: int)
    requires Valid(d)
    ensures var st := DashboardStats(d, users, todayStart, monthStart);
            && st.totalSpots == |d.spots|
            && st.availableSpots == Count(d.spots, IsAvailable)
            && st.occupiedSpots == st.activeReservations
            && 0.0 <= st.occupancyRate <= 100.0
  {
    forall l | l in d.lots ensures |LotSpots(d.spots, l.id)| == l.numberOfSpots {
    }
    CapacityCountsSpots(d.spots, d.lots);
    FilterKeepsAll(d.spots, LotsIn(LotIds(d.lots)));
    StatusesPartition(d.spots);
    ActiveCountsOccupied(d.reservations, d.spots);
    CountSame(d.reservations, ActiveAmong(SpotIds(d.spots)), IsActive);
    RateIsPercentage(Count(d.spots, IsOccupied), |d.spots|);
  }

  lemma RateIsPercentage(occupied: nat, total: nat)
    requires occupied <= total
    ensures 0.0 <= (if total > 0 then occupied as real / total as real * 100.0 else 0.0) <= 100.0
  {
    if total > 0 {
      var q := occupied as real / total as real;
      assert q * total as real == occupied as real;
      assert q <= 1.0;
    }
  }

  /** Replacing one reservation row changes the revenue by the difference of
      what the two rows earn. */
  lemma {:induction false} RevenueUpdate(rs: seq<Reservation>, k: nat, x: Reservation, since: int)
    requires k < |rs|
    ensures Revenue(rs[k := x], since) == Revenue(rs, since) - Earned(rs[k], since) + Earned(x, since)
  {
    if k < |rs| - 1 {
      assert Init(rs[k := x]) == Init(rs)[k := x];
      RevenueUpdate(Init(rs), k, x, since);
    } else {
      assert Init(rs[k := x]) == Init(rs);
    }
  }

  /** A release adds its cost to every revenue window that has already
      started when it happens, and leaves later windows as they were. */
  lemma {:induction false} LeaveAddsToRevenue(d: Db, userId: int, reservationId: Option<int>, now: int, since: int)
    requires Leave(d, userId, reservationId, now).1.Released?
    ensures Revenue(Leave(d, userId, reservationId, now).0.reservations, since) ==
            Revenue(d.reservations, since) +
            (if since <= now then Leave(d, userId, reservationId, now).1.cost else 0.0)
  {
    var k := FirstReservation(d.reservations, ActiveMatch(reservationId.value, userId)).value;
    var r := d.reservations[k];
    var i := FirstIndex(d.spots, SpotHasId(r.spotId)).value;
    LeaveIsRelease(d, userId, reservationId, now, k, i);
    var cost := LeaveCost(d, k, i, now);
    RevenueUpdate(d.reservations, k, Completion(r, now, cost), since);
  }

  /** A booking adds an active reservation, which earns nothing yet. */
  lemma {:induction false} BookKeepsRevenue(d: Db, userId: int, lotId: Option<int>, now: int, since: int)
    ensures Revenue(Book(d, userId, lotId, now).0.reservations, since) == Revenue(d.reservations, since)
  {
    var d' := Book(d, userId, lotId, now).0;
    if d'.reservations != d.reservations {
      AppendInitLast(d.reservations, Last(d'.reservations));
    }
  }
}
