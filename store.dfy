/** The whole store as one value: the three tables the allocation core works
    on, each in insertion (primary key) order, and the next primary key each
    table will hand out. The queries the routes run against it are functions
    here, and `Valid` collects the invariants every route preserves. */
module Store {

  import opened Wrappers
  import opened Seqs
  import opened Models

  datatype Db = Db(
    lots: seq<Lot>,
    spots: seq<Spot>,
    reservations: seq<Reservation>,
    nextLotId: nat,
    nextSpotId: nat,
    nextReservationId: nat)

  /** A fresh database: empty tables, keys counted from 1. */
  const Empty: Db := Db([], [], [], 1, 1, 1)

  // ---- the WHERE clauses of the queries ----

  function InLot(lotId: int): Spot -> bool {
    (s: Spot) => s.lotId == lotId
  }

  function OutsideLot(lotId: int): Spot -> bool {
    (s: Spot) => s.lotId != lotId
  }

  function SpotHasId(id: int): Spot -> bool {
    (s: Spot) => s.id == id
  }

  function LotHasId(id: int): Lot -> bool {
    (l: Lot) => l.id == id
  }

  function SpotIs(x: Spot): Spot -> bool {
    s => s == x
  }

  function NotAmong(ids: set<nat>): Spot -> bool {
    (s: Spot) => s.id !in ids
  }

  predicate IsAvailable(s: Spot) {
    s.status == Available
  }

  predicate IsOccupied(s: Spot) {
    s.status == Occupied
  }

  predicate IsActive(r: Reservation) {
    r.status == Active
  }

  predicate IsCompleted(r: Reservation) {
    r.status == Completed
  }

  function ActiveOn(spotId: int): Reservation -> bool {
    (r: Reservation) => r.status == Active && r.spotId == spotId
  }

  function ActiveOf(userId: int): Reservation -> bool {
    (r: Reservation) => r.status == Active && r.userId == userId
  }

  function OwnedBy(userId: int): Reservation -> bool {
    (r: Reservation) => r.userId == userId
  }

  // ---- queries ----

  /** `lot.spots`: the spots whose lot_id is `lotId`, in insertion order. */
  function LotSpots(spots: seq<Spot>, lotId: int): seq<Spot> {
    Filter(spots, InLot(lotId))
  }

  /** `lot.spots.filter_by(status="O").count()`. */
  function OccupiedIn(spots: seq<Spot>, lotId: int): nat {
    Count(LotSpots(spots, lotId), IsOccupied)
  }

  function SpotIds(spots: seq<Spot>): set<nat> {
    set s | s in spots :: s.id
  }

  /** Some reservation row, whatever its status, names one of the spots
      `ids`. Deleting those spot rows then fails: the ORM clears the
      row's `spot_id`, a NOT NULL column (backend/models.py:55, 62). */
  predicate NamedByReservation(rs: seq<Reservation>, ids: set<nat>) {
    exists r :: r in rs && r.spotId in ids
  }

  ghost function LotIds(lots: seq<Lot>): set<nat> {
    set l | l in lots :: l.id
  }

  ghost predicate SortedByNumber(s: seq<Spot>) {
    forall i, j :: 0 <= i < j < |s| ==> s[i].number <= s[j].number
  }

  function InsertByNumber(x: Spot, s: seq<Spot>): (r: seq<Spot>)
    requires SortedByNumber(s)
    ensures SortedByNumber(r)
    ensures multiset(r) == multiset(s) + multiset{x}
    ensures forall y :: y in r ==> y == x || y in s
  {
    if s == [] || x.number <= s[0].number then
      InsertFront(x, s);
      [x] + s
    else
      var rest := InsertByNumber(x, s[1..]);
      assert s == [s[0]] + s[1..];
      SortedHeadIsLeast(s);
      HeadBelowRest(s[0], rest);
      [s[0]] + rest
  }

  lemma InsertFront(x: Spot, s: seq<Spot>)
    requires SortedByNumber(s)
    requires s == [] || x.number <= s[0].number
    ensures SortedByNumber([x] + s)
  {
    if s != [] {
      SortedHeadIsLeast(s);
    }
    var r := [x] + s;
    forall i, j | 0 <= i < j < |r|
      ensures r[i].number <= r[j].number
    {
      assert r[j] == s[j - 1];
      if i > 0 {
        assert r[i] == s[i - 1];
      } else {
        assert s[j - 1] in s;
      }
    }
  }

  lemma HeadBelowRest(h: Spot, rest: seq<Spot>)
    requires SortedByNumber(rest)
    requires forall y :: y in rest ==> h.number <= y.number
    ensures SortedByNumber([h] + rest)
  {
    var r := [h] + rest;
    forall i, j | 0 <= i < j < |r|
      ensures r[i].number <= r[j].number
    {
      assert r[j] == rest[j - 1];
      if i > 0 {
        assert r[i] == rest[i - 1];
      } else {
        assert rest[j - 1] in rest;
      }
    }
  }

  /** `ORDER BY spot_number`: the spots rearranged by ascending number. */
  function SortByNumber(s: seq<Spot>): (r: seq<Spot>)
    ensures SortedByNumber(r)
    ensures multiset(r) == multiset(s)
    ensures |r| == |s|
  {
    if s == [] then []
    else
      assert s == [s[0]] + s[1..];
      InsertByNumber(s[0], SortByNumber(s[1..]))
  }

  /** Sorting a sequence that is already in order changes nothing. */
  lemma {:induction false} SortSortedIsIdentity(s: seq<Spot>)
    requires SortedByNumber(s)
    ensures SortByNumber(s) == s
  {
    if s != [] {
      SortSortedIsIdentity(s[1..]);
      assert s == [s[0]] + s[1..];
    }
  }

  /** The position of the spot `ParkingSpot.query.filter_by(lot_id=lotId,
      status="A").order_by(spot_number).first()` returns: an available spot of
      the lot whose number is as small as any available spot's of that lot. */
  function FirstAvailableIndex(spots: seq<Spot>, lotId: int): (r: Option<nat>)
    ensures r.Some? ==> r.value < |spots|
    ensures r.Some? ==> spots[r.value].lotId == lotId && spots[r.value].status == Available
    ensures r.Some? ==> forall s :: s in spots && s.lotId == lotId && s.status == Available ==>
                           spots[r.value].number <= s.number
    ensures r.None? ==> forall s :: s in spots && s.lotId == lotId ==> s.status != Available
  {
    var free := Filter(LotSpots(spots, lotId), IsAvailable);
    var ordered := SortByNumber(free);
    SameMembers(free, ordered);
    if ordered == [] then None
    else
      SortedHeadIsLeast(ordered);
      assert ordered[0] in ordered;
      FirstIndex(spots, SpotIs(ordered[0]))
  }

  lemma SameMembers<T>(a: seq<T>, b: seq<T>)
    requires multiset(a) == multiset(b)
    ensures forall y :: y in a <==> y in b
  {
    forall y ensures y in a <==> y in b {
      assert y in a <==> y in multiset(a);
      assert y in b <==> y in multiset(b);
    }
  }

  lemma SortedHeadIsLeast(s: seq<Spot>)
    requires SortedByNumber(s) && s != []
    ensures forall y :: y in s ==> s[0].number <= y.number
  {
  }

  lemma SortedLastIsGreatest(s: seq<Spot>)
    requires SortedByNumber(s) && s != []
    ensures Last(s) in s
    ensures forall y :: y in s ==> y.number <= Last(s).number
  {
  }

  /** In a sorted sequence every row of a suffix is numbered at least as high
      as every row outside it. */
  lemma SortedSuffixIsTop(s: seq<Spot>, k: nat)
    requires SortedByNumber(s) && k <= |s|
    ensures forall x, y :: x in s[|s| - k..] && y in s && y !in s[|s| - k..] ==> y.number <= x.number
  {
    var c := s[|s| - k..];
    forall x, y | x in c && y in s && y !in c ensures y.number <= x.number {
      var a :| 0 <= a < |s| && s[a] == y;
      var b :| 0 <= b < |c| && c[b] == x;
      assert s[|s| - k + b] == x;
    }
  }

  /** The first reservation row satisfying `p`, if any. */
  function FirstReservation(rs: seq<Reservation>, p: Reservation -> bool): (r: Option<nat>)
    ensures r.Some? ==> r.value < |rs| && p(rs[r.value])
    ensures r.None? <==> Count(rs, p) == 0
  {
    var k := FirstIndex(rs, p);
    CountZero(rs, p);
    k
  }

  // ---- invariants ----

  ghost predicate LotKeys(lots: seq<Lot>, next: nat) {
    && 0 < next
    && (forall i :: 0 <= i < |lots| ==> 0 < lots[i].id < next)
    && (forall i, j :: 0 <= i < j < |lots| ==> lots[i].id < lots[j].id)
  }

  ghost predicate SpotKeys(spots: seq<Spot>, next: nat) {
    && 0 < next
    && (forall i :: 0 <= i < |spots| ==> 0 < spots[i].id < next)
    && SpotIdsIncreasing(spots)
  }

  ghost predicate SpotIdsIncreasing(spots: seq<Spot>) {
    forall i, j :: 0 <= i < j < |spots| ==> spots[i].id < spots[j].id
  }

  ghost predicate ReservationKeys(rs: seq<Reservation>, next: nat) {
    && 0 < next
    && (forall i :: 0 <= i < |rs| ==> 0 < rs[i].id < next)
    && (forall i, j :: 0 <= i < j < |rs| ==> rs[i].id < rs[j].id)
  }

  /** The spots of one lot, in insertion order, are numbered 1, 2, ..., n. */
  ghost predicate NumberedFromOne(s: seq<Spot>, n: int) {
    |s| == n && forall k :: 0 <= k < |s| ==> s[k].number == k + 1
  }

  /** Every spot's lot_id names an existing lot. */
  ghost predicate SpotsInLots(d: Db) {
    forall s :: s in d.spots ==> s.lotId in LotIds(d.lots)
  }

  /** `number_of_spots` equals the lot's spot count, and its spots are numbered
      1..number_of_spots in creation order. */
  ghost predicate CapacityMatches(d: Db) {
    forall l :: l in d.lots ==> NumberedFromOne(LotSpots(d.spots, l.id), l.numberOfSpots)
  }

  /** A spot is 'O' exactly when one active reservation holds it, and no spot
      is held by two. */
  ghost predicate OccupancyMatches(d: Db) {
    forall s :: s in d.spots ==>
      Count(d.reservations, ActiveOn(s.id)) == if s.status == Occupied then 1 else 0
  }

  /** An active reservation holds a spot that exists. */
  ghost predicate ActiveOnLiveSpots(d: Db) {
    forall r :: r in d.reservations && r.status == Active ==> r.spotId in SpotIds(d.spots)
  }

  /** No user holds two active reservations. */
  ghost predicate OneActivePerUser(d: Db) {
    forall u :: Count(d.reservations, ActiveOf(u)) <= 1
  }

  ghost predicate ReservationsShaped(d: Db) {
    forall r :: r in d.reservations ==> ReservationShape(r)
  }

  ghost predicate Valid(d: Db) {
    && LotKeys(d.lots, d.nextLotId)
    && SpotKeys(d.spots, d.nextSpotId)
    && ReservationKeys(d.reservations, d.nextReservationId)
    && SpotsInLots(d)
    && CapacityMatches(d)
    && OccupancyMatches(d)
    && ActiveOnLiveSpots(d)
    && OneActivePerUser(d)
    && ReservationsShaped(d)
  }

  lemma EmptyValid()
    ensures Valid(Empty)
  {
    forall u ensures Count(Empty.reservations, ActiveOf(u)) <= 1 {
    }
  }

  // ---- facts about the queries ----

  lemma {:induction false} FilterKeepsIdsIncreasing(s: seq<Spot>, p: Spot -> bool)
    requires SpotIdsIncreasing(s)
    ensures SpotIdsIncreasing(Filter(s, p))
  {
    if s != [] {
      var init, last := Init(s), Last(s);
      InitIdsIncreasing(s);
      FilterKeepsIdsIncreasing(init, p);
      var f := Filter(init, p);
      forall x | x in f ensures x.id < last.id {
        BelowLast(s, x);
      }
      if p(last) {
        AppendKeepsIdsIncreasing(f, last);
      }
    }
  }

  lemma InitIdsIncreasing(s: seq<Spot>)
    requires s != [] && SpotIdsIncreasing(s)
    ensures SpotIdsIncreasing(Init(s))
  {
  }

  lemma BelowLast(s: seq<Spot>, x: Spot)
    requires s != [] && SpotIdsIncreasing(s) && x in Init(s)
    ensures x.id < Last(s).id
  {
    var k :| 0 <= k < |Init(s)| && Init(s)[k] == x;
    assert s[k] == x;
  }

  lemma AppendKeepsIdsIncreasing(f: seq<Spot>, x: Spot)
    requires SpotIdsIncreasing(f)
    requires forall y :: y in f ==> y.id < x.id
    ensures SpotIdsIncreasing(f + [x])
  {
    var r := f + [x];
    forall i, j | 0 <= i < j < |r| ensures r[i].id < r[j].id {
      if j < |f| {
        assert r[i] == f[i] && r[j] == f[j];
      } else {
        assert r[i] == f[i] && f[i] in f;
      }
    }
  }

  /** Two rows of a table with increasing keys that share a key are one row. */
  lemma SameIdSameSpot(spots: seq<Spot>, a: Spot, b: Spot)
    requires SpotIdsIncreasing(spots)
    requires a in spots && b in spots && a.id == b.id
    ensures a == b
  {
    var i :| 0 <= i < |spots| && spots[i] == a;
    var j :| 0 <= j < |spots| && spots[j] == b;
    assert !(i < j) && !(j < i);
  }

  /** Two spots agree on everything but status. */
  ghost predicate SameLayout(a: seq<Spot>, b: seq<Spot>) {
    |a| == |b| &&
    forall k :: 0 <= k < |a| ==>
      a[k].id == b[k].id && a[k].lotId == b[k].lotId && a[k].number == b[k].number
  }

  /** Flipping the status of one spot leaves every lot's layout as it was. */
  lemma {:induction false} StatusFlipKeepsLayout(spots: seq<Spot>, i: nat, x: Spot, lotId: int)
    requires i < |spots|
    requires x.id == spots[i].id && x.lotId == spots[i].lotId && x.number == spots[i].number
    ensures SameLayout(LotSpots(spots[i := x], lotId), LotSpots(spots, lotId))
  {
    var t := spots[i := x];
    InitLast(spots);
    InitLast(t);
    if i < |spots| - 1 {
      assert Init(t) == Init(spots)[i := x];
      StatusFlipKeepsLayout(Init(spots), i, x, lotId);
    } else {
      assert Init(t) == Init(spots);
    }
  }

  lemma SpotIdsAfterUpdate(spots: seq<Spot>, i: nat, x: Spot)
    requires i < |spots| && x.id == spots[i].id
    ensures SpotIds(spots[i := x]) == SpotIds(spots)
  {
    var t := spots[i := x];
    forall id | id in SpotIds(spots) ensures id in SpotIds(t) {
      var s :| s in spots && s.id == id;
      var k :| 0 <= k < |spots| && spots[k] == s;
      assert t[k].id == id;
    }
    forall id | id in SpotIds(t) ensures id in SpotIds(spots) {
      var s :| s in t && s.id == id;
      var k :| 0 <= k < |t| && t[k] == s;
      assert spots[k].id == id;
    }
  }

  lemma InUpdate<T>(s: seq<T>, i: nat, x: T, y: T)
    requires i < |s| && y in s[i := x]
    ensures y == x || exists k :: 0 <= k < |s| && k != i && s[k] == y
  {
  }

  /** Every spot is either available or occupied. */
  lemma {:induction false} StatusesPartition(s: seq<Spot>)
    ensures Count(s, IsOccupied) + Count(s, IsAvailable) == |s|
  {
    if s != [] {
      StatusesPartition(Init(s));
    }
  }

  /** Changing one spot changes its lot's occupied count by what the old and
      the new row contribute. */
  lemma OccupiedAfterUpdate(spots: seq<Spot>, i: nat, x: Spot, lotId: int)
    requires i < |spots|
    ensures OccupiedIn(spots[i := x], lotId) ==
            OccupiedIn(spots, lotId)
            - (if spots[i].lotId == lotId && spots[i].status == Occupied then 1 else 0)
            + (if x.lotId == lotId && x.status == Occupied then 1 else 0)
  {
    CountOfFilter(spots[i := x], InLot(lotId), IsOccupied);
    CountOfFilter(spots, InLot(lotId), IsOccupied);
    CountUpdate(spots, i, x, Both(InLot(lotId), IsOccupied));
  }

  /** On a consistent store the spot an active reservation holds is 'O'. */
  lemma HeldSpotIsOccupied(d: Db, r: Reservation, s: Spot)
    requires OccupancyMatches(d)
    requires r in d.reservations && r.status == Active
    requires s in d.spots && s.id == r.spotId
    ensures s.status == Occupied
  {
    CountZero(d.reservations, ActiveOn(s.id));
  }

  /** On a consistent store a spot is 'O' exactly when some active
      reservation holds it. */
  lemma OccupiedIffHeld(d: Db, s: Spot)
    requires Valid(d) && s in d.spots
    ensures s.status == Occupied <==>
            exists r :: r in d.reservations && r.status == Active && r.spotId == s.id
  {
    CountZero(d.reservations, ActiveOn(s.id));
  }

  /** Appending spots that all belong to lot `lotId` extends that lot's spots
      and leaves every other lot's spots as they were. */
  lemma AppendToLot(spots: seq<Spot>, added: seq<Spot>, lotId: int)
    requires forall s :: s in added ==> s.lotId == lotId
    ensures LotSpots(spots + added, lotId) == LotSpots(spots, lotId) + added
    ensures forall other :: other != lotId ==> LotSpots(spots + added, other) == LotSpots(spots, other)
  {
    FilterAppend(spots, added, InLot(lotId));
    FilterKeepsAll(added, InLot(lotId));
    forall other | other != lotId ensures LotSpots(spots + added, other) == LotSpots(spots, other) {
      FilterAppend(spots, added, InLot(other));
      FilterDropsAll(added, InLot(other));
      assert LotSpots(spots, other) + [] == LotSpots(spots, other);
    }
  }

  /** No spot belongs to a lot key not yet handed out. */
  lemma NoSpotsInFreshLot(d: Db)
    requires LotKeys(d.lots, d.nextLotId) && SpotsInLots(d)
    ensures LotSpots(d.spots, d.nextLotId) == []
  {
    forall s | s in d.spots ensures !InLot(d.nextLotId)(s) {
      var l :| l in d.lots && l.id == s.lotId;
      var k :| 0 <= k < |d.lots| && d.lots[k] == l;
    }
    FilterDropsAll(d.spots, InLot(d.nextLotId));
  }
}
