/** The capacity manager (backend/routes/admin_routes.py): creating a lot with
    its spots, editing a lot and resizing its spot pool, and deleting it. Each
    route is one atomic step on the store value; an error answer leaves the
    store exactly as it was, because those paths return before the commit. */
module Capacity {

  import opened Wrappers
  import opened Seqs
  import opened Models
  import opened Store

  /** A request string is truthy unless absent or empty. */
  predicate NonEmpty(s: Option<string>) {
    s.Some? && s.value != ""
  }

  /** `k` new available spots of lot `lotId`, numbered `start + 1` to
      `start + k`, with keys handed out from `firstId` on. */
  function NewSpots(lotId: nat, firstId: nat, start: int, k: nat, now: int): (r: seq<Spot>)
    ensures |r| == k
    ensures forall j :: 0 <= j < k ==> r[j] == NewSpot(firstId + j, lotId, start + j + 1, now)
  {
    if k == 0 then []
    else NewSpots(lotId, firstId, start, k - 1, now) + [NewSpot(firstId + k - 1, lotId, start + k, now)]
  }

  // ---- numbers in a request body ----

  /** A numeric member of a JSON request body as Python's `int()` and
      `float()` receive it. JSON `true` and `false` read as the numbers 1
      and 0. Strings are told apart by the conversions that accept them. */
  datatype NumberField =
    | Missing               // the member is absent
    | Null                  // JSON null
    | Number(x: real)       // a JSON number
    | IntegerText(n: int)   // a string both conversions accept, such as "12"
    | DecimalText(x: real)  // a string only `float()` accepts, such as "2.5"
    | OtherValue            // any other string, a list or an object

  /** `int(x)` of a float: its integer part, rounded toward zero. */
  function Truncate(x: real): (n: int)
    ensures 0.0 <= x ==> n as real <= x < n as real + 1.0
    ensures x < 0.0 ==> n as real - 1.0 < x <= n as real
  {
    if x >= 0.0 then x.Floor else -((-x).Floor)
  }

  /** `int(v)` of a member present in the body; None when it raises
      (TypeError for null, a list or an object, ValueError for text that is
      not an integer numeral). */
  function ToInt(v: NumberField): Option<int> {
    match v
    case Number(x) => Some(Truncate(x))
    case IntegerText(n) => Some(n)
    case _ => None
  }

  /** `float(v)` of a member present in the body; None when it raises. */
  function ToFloat(v: NumberField): Option<real> {
    match v
    case Number(x) => Some(x)
    case IntegerText(n) => Some(n as real)
    case DecimalText(x) => Some(x)
    case _ => None
  }

  /** `int(data.get(key, default))`. */
  function IntOr(v: NumberField, default: int): Option<int> {
    if v.Missing? then Some(default) else ToInt(v)
  }

  /** `float(data.get(key, default))`. */
  function FloatOr(v: NumberField, default: real): Option<real> {
    if v.Missing? then Some(default) else ToFloat(v)
  }

  /** The two conversions agree: whatever `int()` accepts `float()` accepts
      too, and `int()` is the float rounded toward zero. Null and values that
      are not numbers are refused by both. */
  lemma ConversionsAgree(v: NumberField)
    ensures ToInt(v).Some? ==> ToFloat(v).Some? && ToInt(v).value == Truncate(ToFloat(v).value)
    ensures v.Null? || v.OtherValue? ==> ToInt(v).None? && ToFloat(v).None?
    ensures ToFloat(v).Some? && ToInt(v).None? <==> v.DecimalText?
  {
    if v.IntegerText? {
      TruncateWhole(v.n);
    }
  }

  /** Rounding a whole number toward zero gives it back. */
  lemma TruncateWhole(n: int)
    ensures Truncate(n as real) == n
  {
  }

  /** `int()` drops the fraction of a JSON number: 2.9 reads as 2 and -2.9
      as -2. */
  lemma TruncateExamples()
    ensures ToInt(Number(2.9)) == Some(2)
    ensures ToInt(Number(-2.9)) == Some(-2)
    ensures ToInt(DecimalText(2.9)).None?
  {
    assert Truncate(2.9) == 2;
    assert Truncate(-2.9) == -2;
  }

  // ---- create_lot ----

  datatype CreateOutcome = LotCreated(lotId: nat, spotsCreated: nat) | NameAndCountRequired | CreateFailed

  function CreateStatus(o: CreateOutcome): int {
    match o
    case LotCreated(_, _) => 201
    case NameAndCountRequired => 400
    case CreateFailed => 500
  }

  /** `create_lot` with the request's fields. The price and the count are
      converted before the route's `try`, so a value the conversions refuse
      ends the request with an unhandled error (500) and nothing stored. A
      missing price is 0.0 and a missing count 0, which is refused. */
  function CreateLot(d: Db, name: Option<string>, price: NumberField, count: NumberField,
                     address: Option<string>, pincode: Option<string>, now: int): (r: (Db, CreateOutcome))
    ensures !r.1.LotCreated? ==> r.0 == d
  {
    var p, n := FloatOr(price, 0.0), IntOr(count, 0);
    if p.None? || n.None? then (d, CreateFailed)
    else if !NonEmpty(name) || n.value <= 0 then (d, NameAndCountRequired)
    else
      var lot := Lot(d.nextLotId, name.value, address, pincode, p.value, n.value, now);
      (d.(lots := d.lots + [lot],
          spots := d.spots + NewSpots(lot.id, d.nextSpotId, 0, n.value, now),
          nextLotId := d.nextLotId + 1,
          nextSpotId := d.nextSpotId + n.value),
       LotCreated(lot.id, n.value))
  }

  // ---- update_lot ----

  /** The body of an update request. */
  datatype UpdateRequest = UpdateRequest(
    name: Option<string>,
    price: NumberField,
    address: Option<string>,
    pincode: Option<string>,
    numberOfSpots: NumberField)

  /** The fields of an update request once its numbers are converted; None
      is an absent or null field. */
  datatype LotUpdate = LotUpdate(
    name: Option<string>,
    price: Option<real>,
    address: Option<string>,
    pincode: Option<string>,
    numberOfSpots: Option<int>)

  datatype UpdateOutcome = LotUpdated(lotId: nat) | LotNotFound | NegativeCount | ShrinkBlocked | UpdateFailed

  function UpdateStatus(o: UpdateOutcome): int {
    match o
    case LotUpdated(_) => 200
    case LotNotFound => 404
    case NegativeCount => 400
    case ShrinkBlocked => 400
    case UpdateFailed => 500
  }

  /** A member `data.get` reads as `None`: absent or null. */
  predicate IsNone(v: NumberField) {
    v.Missing? || v.Null?
  }

  /** The request's numbers as the route converts them: a member read as
      `None` is skipped, a price goes through `float()` and a count through
      `int()`. None when a conversion raises. */
  function ConvertUpdate(q: UpdateRequest): Option<LotUpdate> {
    if (!IsNone(q.price) && ToFloat(q.price).None?) ||
       (!IsNone(q.numberOfSpots) && ToInt(q.numberOfSpots).None?)
    then None
    else
      Some(LotUpdate(q.name, if IsNone(q.price) then None else ToFloat(q.price),
                     q.address, q.pincode,
                     if IsNone(q.numberOfSpots) then None else ToInt(q.numberOfSpots)))
  }

  /** The lot after the plain field assignments: the name only when truthy,
      price, address and pincode whenever present. */
  function EditFields(l: Lot, u: LotUpdate): (r: Lot)
    ensures r.id == l.id && r.numberOfSpots == l.numberOfSpots && r.createdAt == l.createdAt
  {
    l.(name := if NonEmpty(u.name) then u.name.value else l.name,
       pricePerHour := u.price.GetOr(l.pricePerHour),
       address := if u.address.Some? then u.address else l.address,
       pincode := if u.pincode.Some? then u.pincode else l.pincode)
  }

  /** The number of the highest-numbered of `spots`, or 0 when there is none. */
  function HighestNumber(spots: seq<Spot>): (h: int)
    ensures spots == [] ==> h == 0
    ensures spots != [] ==> exists s :: s in spots && s.number == h
    ensures forall s :: s in spots ==> s.number <= h
  {
    var sorted := SortByNumber(spots);
    SameMembers(spots, sorted);
    if sorted == [] then 0
    else
      SortedLastIsGreatest(sorted);
      Last(sorted).number
  }

  /** The `m` highest-numbered spots of the lot (all of them when it has
      fewer): the shrink candidates. */
  function ShrinkCandidates(spots: seq<Spot>, lotId: int, m: nat): (c: seq<Spot>)
    ensures |c| == if m < |LotSpots(spots, lotId)| then m else |LotSpots(spots, lotId)|
    ensures forall s :: s in c ==> s in spots && s.lotId == lotId
    ensures forall s, t :: s in c && t in spots && t.lotId == lotId && t !in c ==> t.number <= s.number
  {
    var sorted := SortByNumber(LotSpots(spots, lotId));
    var k := if m < |sorted| then m else |sorted|;
    TopSpots(spots, lotId, k);
    sorted[|sorted| - k..]
  }

  /** The last `k` spots of the lot in number order are spots of the lot,
      numbered at least as high as every other spot of the lot. */
  lemma TopSpots(spots: seq<Spot>, lotId: int, k: nat)
    requires k <= |LotSpots(spots, lotId)|
    ensures var sorted := SortByNumber(LotSpots(spots, lotId));
            var c := sorted[|sorted| - k..];
            && |c| == k
            && (forall s :: s in c ==> s in spots && s.lotId == lotId)
            && (forall s, t :: s in c && t in spots && t.lotId == lotId && t !in c ==> t.number <= s.number)
  {
    var all := LotSpots(spots, lotId);
    var sorted := SortByNumber(all);
    SameMembers(all, sorted);
    SortedSuffixIsTop(sorted, k);
    var c := sorted[|sorted| - k..];
    SuffixIn(sorted, |sorted| - k);
    forall s, t | s in c && t in spots && t.lotId == lotId && t !in c
      ensures t.number <= s.number
    {
      assert t in all;
    }
  }

  predicate AllAvailable(spots: seq<Spot>) {
    forall s :: s in spots ==> s.status == Available
  }

  /** `update_lot` as the route runs it. The lot is looked up first. The
      request's numbers are converted inside the `try`, so a conversion that
      raises is rolled back and answered 500. */
  function UpdateLotRequest(d: Db, lotId: int, q: UpdateRequest, now: int): (r: (Db, UpdateOutcome))
    ensures !r.1.LotUpdated? ==> r.0 == d
  {
    if FirstIndex(d.lots, LotHasId(lotId)).None? then (d, LotNotFound)
    else
      match ConvertUpdate(q)
      case None => (d, UpdateFailed)
      case Some(u) => UpdateLot(d, lotId, u, now)
  }

  /** `update_lot` for lot `lotId`, once the request's numbers are
      converted. */
  function UpdateLot(d: Db, lotId: int, u: LotUpdate, now: int): (r: (Db, UpdateOutcome))
    ensures !r.1.LotUpdated? ==> r.0 == d
  {
    match FirstIndex(d.lots, LotHasId(lotId))
    case None => (d, LotNotFound)
    case Some(j) =>
      var lot := EditFields(d.lots[j], u);
      if u.numberOfSpots.None? then (d.(lots := d.lots[j := lot]), LotUpdated(lot.id))
      else
        var n := u.numberOfSpots.value;
        if n < 0 then (d, NegativeCount)
        else if n == lot.numberOfSpots then (d.(lots := d.lots[j := lot]), LotUpdated(lot.id))
        else if n > lot.numberOfSpots then Grow(d, j, lot, n, now)
        else Shrink(d, j, lot, n)
  }

  /** The growing branch of `update_lot`: lot `j`, its fields already
      edited to `lot`, gets `n - current` new spots numbered on from its
      highest spot number, and the new count. */
  function Grow(d: Db, j: nat, lot: Lot, n: int, now: int): (r: (Db, UpdateOutcome))
    requires j < |d.lots| && n > lot.numberOfSpots
    ensures r.1 == LotUpdated(lot.id)
    ensures |r.0.spots| == |d.spots| + (n - lot.numberOfSpots) && |r.0.lots| == |d.lots|
  {
    var start := HighestNumber(LotSpots(d.spots, lot.id));
    (d.(lots := d.lots[j := lot.(numberOfSpots := n)],
        spots := d.spots + NewSpots(lot.id, d.nextSpotId, start, n - lot.numberOfSpots, now),
        nextSpotId := d.nextSpotId + (n - lot.numberOfSpots)),
     LotUpdated(lot.id))
  }

  /** The shrinking branch of `update_lot`: refused when a candidate is not
      available. Otherwise the candidates are deleted and the new count
      recorded, unless a reservation row names one of them: then the commit
      fails on its NOT NULL `spot_id`, is rolled back and answered 500. */
  function Shrink(d: Db, j: nat, lot: Lot, n: int): (r: (Db, UpdateOutcome))
    requires j < |d.lots| && 0 <= n < lot.numberOfSpots
    ensures !r.1.LotUpdated? ==> r.0 == d
  {
    var cands := ShrinkCandidates(d.spots, lot.id, lot.numberOfSpots - n);
    if !AllAvailable(cands) then (d, ShrinkBlocked)
    else if NamedByReservation(d.reservations, SpotIds(cands)) then (d, UpdateFailed)
    else
      (d.(lots := d.lots[j := lot.(numberOfSpots := n)],
          spots := Filter(d.spots, NotAmong(SpotIds(cands)))),
       LotUpdated(lot.id))
  }

  // ---- delete_lot ----

  datatype DeleteOutcome = LotDeleted | DeleteNotFound | LotInUse | DeleteFailed

  function DeleteStatus(o: DeleteOutcome): int {
    match o
    case LotDeleted => 200
    case DeleteNotFound => 404
    case LotInUse => 400
    case DeleteFailed => 500
  }

  /** The join `Reservation JOIN ParkingSpot ... WHERE lot_id = lotId AND
      status = 'active'`. */
  function ActiveInLot(spots: seq<Spot>, lotId: int): Reservation -> bool {
    (r: Reservation) => r.status == Active && exists s :: s in spots && s.id == r.spotId && s.lotId == lotId
  }

  function RemoveAt<T>(s: seq<T>, j: nat): (r: seq<T>)
    requires j < |s|
    ensures |r| == |s| - 1
    ensures forall k :: 0 <= k < |r| ==> r[k] == if k < j then s[k] else s[k + 1]
  {
    s[..j] + s[j + 1..]
  }

  /** `delete_lot` for lot `lotId`: the lot goes and its spots with it (the
      cascade of backend/models.py:42). When a reservation row, even a
      completed one, names one of those spots, the commit fails on its NOT
      NULL `spot_id`, is rolled back and answered 500. */
  function DeleteLot(d: Db, lotId: int): (r: (Db, DeleteOutcome))
    ensures !r.1.LotDeleted? ==> r.0 == d
  {
    match FirstIndex(d.lots, LotHasId(lotId))
    case None => (d, DeleteNotFound)
    case Some(j) =>
      if OccupiedIn(d.spots, lotId) > 0 || Count(d.reservations, ActiveInLot(d.spots, lotId)) > 0 then
        (d, LotInUse)
      else if NamedByReservation(d.reservations, SpotIds(LotSpots(d.spots, lotId))) then (d, DeleteFailed)
      else
        (d.(lots := RemoveAt(d.lots, j), spots := Filter(d.spots, OutsideLot(lotId))), LotDeleted)
  }

  // ---- what the new spots are ----

  lemma {:induction false} NewSpotsFacts(lotId: nat, firstId: nat, start: int, k: nat, now: int)
    ensures forall s :: s in NewSpots(lotId, firstId, start, k, now) ==>
              s.lotId == lotId && s.status == Available && firstId <= s.id < firstId + k
    ensures NumberedFromOne(NewSpots(lotId, firstId, 0, k, now), k)
    ensures AllAvailable(NewSpots(lotId, firstId, start, k, now))
    ensures SpotIdsIncreasing(NewSpots(lotId, firstId, start, k, now))
  {
  }

  // ---- what create_lot does ----

  /** `create_lot` fails with 500 exactly when the price or the count is a
      value the conversions refuse. Otherwise it refuses with 400 exactly
      when the name is missing or empty or the count is not positive. Both
      change nothing. */
  lemma CreateRefusedIff(d: Db, name: Option<string>, price: NumberField, count: NumberField,
                         address: Option<string>, pincode: Option<string>, now: int)
    ensures CreateLot(d, name, price, count, address, pincode, now).1.CreateFailed? <==>
            FloatOr(price, 0.0).None? || IntOr(count, 0).None?
    ensures CreateLot(d, name, price, count, address, pincode, now).1.NameAndCountRequired? <==>
            FloatOr(price, 0.0).Some? && IntOr(count, 0).Some? &&
            (!NonEmpty(name) || IntOr(count, 0).value <= 0)
    ensures !CreateLot(d, name, price, count, address, pincode, now).1.LotCreated? ==>
            CreateLot(d, name, price, count, address, pincode, now).0 == d
    ensures CreateLot(d, name, price, count, address, pincode, now).1.NameAndCountRequired? ==>
            CreateStatus(CreateLot(d, name, price, count, address, pincode, now).1) == 400
    ensures CreateLot(d, name, price, count, address, pincode, now).1.CreateFailed? ==>
            CreateStatus(CreateLot(d, name, price, count, address, pincode, now).1) == 500
  {
  }

  /** A null spot count or price fails with 500, while a missing one is
      read as 0: the count is then refused with 400, the price is free. */
  lemma CreateNullIsNotMissing(d: Db, now: int)
    ensures CreateLot(d, Some("A"), Missing, Null, None, None, now).1 == CreateFailed
    ensures CreateLot(d, Some("A"), Null, Number(3.0), None, None, now).1 == CreateFailed
    ensures CreateLot(d, Some("A"), Missing, Missing, None, None, now).1 == NameAndCountRequired
    ensures CreateLot(d, Some("A"), Missing, Number(2.9), None, None, now).1 == LotCreated(d.nextLotId, 2)
  {
    TruncateExamples();
  }

  /** A created lot gets the next lot key and exactly `n` spots, numbered 1 to
      `n` in creation order and all available. The answer is 201 with
      `spots_created = n`, and no existing lot's spots change. */
  lemma CreateNumbersOneToN(d: Db, name: Option<string>, price: NumberField, count: NumberField,
                            address: Option<string>, pincode: Option<string>, now: int, p: real, n: int)
    requires Valid(d)
    requires FloatOr(price, 0.0) == Some(p) && IntOr(count, 0) == Some(n)
    requires NonEmpty(name) && n > 0
    ensures CreateLot(d, name, price, count, address, pincode, now).1 == LotCreated(d.nextLotId, n)
    ensures CreateStatus(CreateLot(d, name, price, count, address, pincode, now).1) == 201
    ensures CreateLot(d, name, price, count, address, pincode, now).0.lots ==
            d.lots + [Lot(d.nextLotId, name.value, address, pincode, p, n, now)]
    ensures NumberedFromOne(LotSpots(CreateLot(d, name, price, count, address, pincode, now).0.spots, d.nextLotId), n)
    ensures AllAvailable(LotSpots(CreateLot(d, name, price, count, address, pincode, now).0.spots, d.nextLotId))
    ensures forall l :: l in d.lots ==>
              LotSpots(CreateLot(d, name, price, count, address, pincode, now).0.spots, l.id) == LotSpots(d.spots, l.id)
  {
    var added := NewSpots(d.nextLotId, d.nextSpotId, 0, n, now);
    var lot := Lot(d.nextLotId, name.value, address, pincode, p, n, now);
    assert CreateLot(d, name, price, count, address, pincode, now) ==
           (d.(lots := d.lots + [lot], spots := d.spots + added,
               nextLotId := d.nextLotId + 1, nextSpotId := d.nextSpotId + n),
            LotCreated(lot.id, n));
    forall s | s in d.spots ensures !InLot(d.nextLotId)(s) {
      var l :| l in d.lots && l.id == s.lotId;
    }
    FilterDropsAll(d.spots, InLot(d.nextLotId));
    NewSpotsFacts(d.nextLotId, d.nextSpotId, 0, n, now);
    AppendToLot(d.spots, added, d.nextLotId);
    assert [] + added == added;
  }

  // ---- what update_lot does ----

  /** An unknown lot is answered with 404 and nothing changes. */
  lemma UpdateNotFound(d: Db, lotId: int, u: LotUpdate, now: int)
    requires forall l :: l in d.lots ==> l.id != lotId
    ensures UpdateLot(d, lotId, u, now) == (d, LotNotFound)
    ensures UpdateStatus(UpdateLot(d, lotId, u, now).1) == 404
  {
  }

  /** Once its numbers convert, a request is the update with the converted
      numbers, the 404 for an unknown lot included. */
  lemma UpdateRequestIsUpdate(d: Db, lotId: int, q: UpdateRequest, now: int, u: LotUpdate)
    requires ConvertUpdate(q) == Some(u)
    ensures UpdateLotRequest(d, lotId, q, now) == UpdateLot(d, lotId, u, now)
  {
  }

  /** A price `float()` refuses, or a count `int()` refuses, is answered
      with 500 for a known lot, and the rollback undoes the field edits
      already made: nothing changes. */
  lemma UpdateConversionFails(d: Db, lotId: int, q: UpdateRequest, now: int)
    requires exists l :: l in d.lots && l.id == lotId
    requires (!IsNone(q.price) && ToFloat(q.price).None?) ||
             (!IsNone(q.numberOfSpots) && ToInt(q.numberOfSpots).None?)
    ensures UpdateLotRequest(d, lotId, q, now) == (d, UpdateFailed)
    ensures UpdateStatus(UpdateLotRequest(d, lotId, q, now).1) == 500
  {
    var l :| l in d.lots && l.id == lotId;
    var k :| 0 <= k < |d.lots| && d.lots[k] == l;
    assert FirstIndex(d.lots, LotHasId(lotId)).Some?;
  }

  /** Unlike `create_lot`, `update_lot` reads a null price or count as
      absent: both are skipped. */
  lemma UpdateNullIsMissing(d: Db, lotId: int, q: UpdateRequest, now: int)
    ensures UpdateLotRequest(d, lotId, q.(price := Null), now) ==
            UpdateLotRequest(d, lotId, q.(price := Missing), now)
    ensures UpdateLotRequest(d, lotId, q.(numberOfSpots := Null), now) ==
            UpdateLotRequest(d, lotId, q.(numberOfSpots := Missing), now)
  {
  }

  /** A fractional JSON count is cut to its integer part: asking for 2.9
      spots is asking for 2. */
  lemma UpdateTruncatesCount(d: Db, lotId: int, q: UpdateRequest, now: int, x: real)
    ensures UpdateLotRequest(d, lotId, q.(numberOfSpots := Number(x)), now) ==
            UpdateLotRequest(d, lotId, q.(numberOfSpots := IntegerText(Truncate(x))), now)
  {
  }

  /** A negative spot count is answered with 400 and nothing changes, not
      even the name or price the same request asked for. */
  lemma UpdateRejectsNegative(d: Db, lotId: int, u: LotUpdate, now: int)
    requires exists l :: l in d.lots && l.id == lotId
    requires u.numberOfSpots.Some? && u.numberOfSpots.value < 0
    ensures UpdateLot(d, lotId, u, now) == (d, NegativeCount)
    ensures UpdateStatus(UpdateLot(d, lotId, u, now).1) == 400
  {
    var l :| l in d.lots && l.id == lotId;
    var k :| 0 <= k < |d.lots| && d.lots[k] == l;
    assert FirstIndex(d.lots, LotHasId(lotId)).Some?;
  }

  /** Without a spot count, or with the current one, only the lot's own
      fields change; its spots are left alone. */
  lemma UpdateSameCountKeepsSpots(d: Db, lotId: int, u: LotUpdate, now: int, j: nat)
    requires j < |d.lots| && d.lots[j].id == lotId
    requires forall k :: 0 <= k < j ==> d.lots[k].id != lotId
    requires u.numberOfSpots.None? ||
             (u.numberOfSpots.value >= 0 && u.numberOfSpots.value == d.lots[j].numberOfSpots)
    ensures UpdateLot(d, lotId, u, now) ==
            (d.(lots := d.lots[j := EditFields(d.lots[j], u)]), LotUpdated(lotId))
  {
    LotAt(d.lots, lotId, j);
  }

  /** Growing appends `new - current` available spots to the lot, numbered on
      from its highest existing spot number (from 1 when it has none), and
      records the new count; no other lot's spots change. */
  lemma {:induction false} UpdateGrows(d: Db, lotId: nat, u: LotUpdate, now: int, j: nat)
    requires j < |d.lots| && d.lots[j].id == lotId
    requires forall k :: 0 <= k < j ==> d.lots[k].id != lotId
    requires u.numberOfSpots.Some? && u.numberOfSpots.value >= 0
    requires u.numberOfSpots.value > d.lots[j].numberOfSpots
    ensures UpdateLot(d, lotId, u, now).1 == LotUpdated(lotId)
    ensures UpdateLot(d, lotId, u, now).0.lots ==
            d.lots[j := EditFields(d.lots[j], u).(numberOfSpots := u.numberOfSpots.value)]
    ensures LotSpots(UpdateLot(d, lotId, u, now).0.spots, lotId) ==
            LotSpots(d.spots, lotId) +
            NewSpots(lotId, d.nextSpotId, HighestNumber(LotSpots(d.spots, lotId)),
                     u.numberOfSpots.value - d.lots[j].numberOfSpots, now)
    ensures forall other :: other != lotId ==>
              LotSpots(UpdateLot(d, lotId, u, now).0.spots, other) == LotSpots(d.spots, other)
  {
    LotAt(d.lots, lotId, j);
    GrowStep(d, lotId, u, now, j);
    var k: nat := u.numberOfSpots.value - d.lots[j].numberOfSpots;
    GrownLotSpots(d.spots, UpdateLot(d, lotId, u, now).0.spots, lotId, d.nextSpotId,
                  HighestNumber(LotSpots(d.spots, lotId)), k, now);
  }

  /** Appending new spots of lot `lotId` extends that lot's spots by them
      and leaves every other lot's spots alone. */
  lemma {:induction false} GrownLotSpots(spots: seq<Spot>, spots': seq<Spot>, lotId: nat, firstId: nat, start: int, k: nat, now: int)
    requires spots' == spots + NewSpots(lotId, firstId, start, k, now)
    ensures LotSpots(spots', lotId) == LotSpots(spots, lotId) + NewSpots(lotId, firstId, start, k, now)
    ensures forall other :: other != lotId ==> LotSpots(spots', other) == LotSpots(spots, other)
  {
    NewSpotsFacts(lotId, firstId, start, k, now);
    AppendToLot(spots, NewSpots(lotId, firstId, start, k, now), lotId);
  }

  /** The step a successful grow takes, field by field. */
  lemma {:induction false} GrowStep(d: Db, lotId: nat, u: LotUpdate, now: int, j: nat)
    requires FirstIndex(d.lots, LotHasId(lotId)) == Some(j) && j < |d.lots| && d.lots[j].id == lotId
    requires u.numberOfSpots.Some? && u.numberOfSpots.value >= 0
    requires u.numberOfSpots.value > d.lots[j].numberOfSpots
    ensures UpdateLot(d, lotId, u, now).1 == LotUpdated(lotId)
    ensures UpdateLot(d, lotId, u, now).0.lots ==
            d.lots[j := EditFields(d.lots[j], u).(numberOfSpots := u.numberOfSpots.value)]
    ensures UpdateLot(d, lotId, u, now).0.spots ==
            d.spots + NewSpots(lotId, d.nextSpotId, HighestNumber(LotSpots(d.spots, lotId)),
                               u.numberOfSpots.value - d.lots[j].numberOfSpots, now)
    ensures UpdateLot(d, lotId, u, now).0.nextSpotId ==
            d.nextSpotId + (u.numberOfSpots.value - d.lots[j].numberOfSpots)
    ensures UpdateLot(d, lotId, u, now).0.reservations == d.reservations
    ensures UpdateLot(d, lotId, u, now).0.nextLotId == d.nextLotId
    ensures UpdateLot(d, lotId, u, now).0.nextReservationId == d.nextReservationId
  {
    UpdateIsGrow(d, lotId, u, now, j);
  }

  /** A shrink whose candidates are not all available is answered with 400
      before anything is deleted: nothing changes. */
  lemma ShrinkBlockedChangesNothing(d: Db, lotId: nat, u: LotUpdate, now: int, j: nat)
    requires j < |d.lots| && d.lots[j].id == lotId
    requires forall k :: 0 <= k < j ==> d.lots[k].id != lotId
    requires u.numberOfSpots.Some? && 0 <= u.numberOfSpots.value < d.lots[j].numberOfSpots
    requires exists s :: s in ShrinkCandidates(d.spots, lotId, d.lots[j].numberOfSpots - u.numberOfSpots.value) &&
                         s.status != Available
    ensures UpdateLot(d, lotId, u, now) == (d, ShrinkBlocked)
    ensures UpdateStatus(UpdateLot(d, lotId, u, now).1) == 400
  {
    LotAt(d.lots, lotId, j);
    UpdateIsShrink(d, lotId, u, now, j);
  }

  /** A shrink whose candidates are all available, and that no reservation
      row names, deletes exactly those candidates, the highest-numbered spots
      of the lot, and records the new count. */
  lemma ShrinkDeletesCandidates(d: Db, lotId: nat, u: LotUpdate, now: int, j: nat)
    requires j < |d.lots| && d.lots[j].id == lotId
    requires forall k :: 0 <= k < j ==> d.lots[k].id != lotId
    requires u.numberOfSpots.Some? && 0 <= u.numberOfSpots.value < d.lots[j].numberOfSpots
    requires AllAvailable(ShrinkCandidates(d.spots, lotId, d.lots[j].numberOfSpots - u.numberOfSpots.value))
    requires !NamedByReservation(d.reservations,
                                 SpotIds(ShrinkCandidates(d.spots, lotId, d.lots[j].numberOfSpots - u.numberOfSpots.value)))
    ensures UpdateLot(d, lotId, u, now) ==
            (d.(lots := d.lots[j := EditFields(d.lots[j], u).(numberOfSpots := u.numberOfSpots.value)],
                spots := Filter(d.spots, NotAmong(SpotIds(
                           ShrinkCandidates(d.spots, lotId, d.lots[j].numberOfSpots - u.numberOfSpots.value))))),
             LotUpdated(lotId))
  {
    LotAt(d.lots, lotId, j);
    UpdateIsShrink(d, lotId, u, now, j);
    ShrinkApplies(d, j, EditFields(d.lots[j], u), u.numberOfSpots.value);
  }

  /** An available candidate that a reservation row names, even a
      completed one, makes the shrink fail with 500: the deletion is rolled
      back and nothing changes. */
  lemma ShrinkFailsOnHistory(d: Db, lotId: nat, u: LotUpdate, now: int, j: nat)
    requires j < |d.lots| && d.lots[j].id == lotId
    requires forall k :: 0 <= k < j ==> d.lots[k].id != lotId
    requires u.numberOfSpots.Some? && 0 <= u.numberOfSpots.value < d.lots[j].numberOfSpots
    requires AllAvailable(ShrinkCandidates(d.spots, lotId, d.lots[j].numberOfSpots - u.numberOfSpots.value))
    requires NamedByReservation(d.reservations,
                                SpotIds(ShrinkCandidates(d.spots, lotId, d.lots[j].numberOfSpots - u.numberOfSpots.value)))
    ensures UpdateLot(d, lotId, u, now) == (d, UpdateFailed)
    ensures UpdateStatus(UpdateLot(d, lotId, u, now).1) == 500
  {
    LotAt(d.lots, lotId, j);
    ShrinkFailsAt(d, j, EditFields(d.lots[j], u), u.numberOfSpots.value);
    ShrinkFailureAnswers(d, lotId, u, now, j);
  }

  /** A shrinking branch that fails makes the update answer 500 with
      nothing changed. */
  lemma ShrinkFailureAnswers(d: Db, lotId: int, u: LotUpdate, now: int, j: nat)
    requires FirstIndex(d.lots, LotHasId(lotId)) == Some(j) && j < |d.lots|
    requires u.numberOfSpots.Some? && 0 <= u.numberOfSpots.value < d.lots[j].numberOfSpots
    requires Shrink(d, j, EditFields(d.lots[j], u), u.numberOfSpots.value) == (d, UpdateFailed)
    ensures UpdateLot(d, lotId, u, now) == (d, UpdateFailed)
    ensures UpdateStatus(UpdateLot(d, lotId, u, now).1) == 500
  {
    UpdateIsShrink(d, lotId, u, now, j);
  }

  /** The shrinking branch, when every candidate is available and some
      reservation row names one. */
  lemma ShrinkFailsAt(d: Db, j: nat, lot: Lot, n: int)
    requires j < |d.lots| && 0 <= n < lot.numberOfSpots
    requires AllAvailable(ShrinkCandidates(d.spots, lot.id, lot.numberOfSpots - n))
    requires NamedByReservation(d.reservations, SpotIds(ShrinkCandidates(d.spots, lot.id, lot.numberOfSpots - n)))
    ensures Shrink(d, j, lot, n) == (d, UpdateFailed)
  {
  }

  /** The shrinking branch, when every candidate is available and no
      reservation row names one. */
  lemma ShrinkApplies(d: Db, j: nat, lot: Lot, n: int)
    requires j < |d.lots| && 0 <= n < lot.numberOfSpots
    requires AllAvailable(ShrinkCandidates(d.spots, lot.id, lot.numberOfSpots - n))
    requires !NamedByReservation(d.reservations, SpotIds(ShrinkCandidates(d.spots, lot.id, lot.numberOfSpots - n)))
    ensures Shrink(d, j, lot, n) ==
            (d.(lots := d.lots[j := lot.(numberOfSpots := n)],
                spots := Filter(d.spots, NotAmong(SpotIds(ShrinkCandidates(d.spots, lot.id, lot.numberOfSpots - n))))),
             LotUpdated(lot.id))
  {
  }

  /** A shrink answered 200 found all of its candidates available and named
      by no reservation row. */
  lemma ShrinkSucceededOnAvailable(d: Db, lotId: nat, u: LotUpdate, now: int, j: nat)
    requires j < |d.lots| && d.lots[j].id == lotId
    requires forall k :: 0 <= k < j ==> d.lots[k].id != lotId
    requires u.numberOfSpots.Some? && 0 <= u.numberOfSpots.value < d.lots[j].numberOfSpots
    requires UpdateLot(d, lotId, u, now).1.LotUpdated?
    ensures AllAvailable(ShrinkCandidates(d.spots, lotId, d.lots[j].numberOfSpots - u.numberOfSpots.value))
    ensures !NamedByReservation(d.reservations,
                                SpotIds(ShrinkCandidates(d.spots, lotId, d.lots[j].numberOfSpots - u.numberOfSpots.value)))
  {
    LotAt(d.lots, lotId, j);
    UpdateIsShrink(d, lotId, u, now, j);
  }

  /** The lot of key `lotId` is found at position `j` when it sits there
      and no earlier lot has that key. */
  lemma {:induction false} LotAt(lots: seq<Lot>, lotId: int, j: nat)
    requires j < |lots| && lots[j].id == lotId
    requires forall k :: 0 <= k < j ==> lots[k].id != lotId
    ensures FirstIndex(lots, LotHasId(lotId)) == Some(j)
  {
    FirstIndexAt(lots, LotHasId(lotId), j);
  }

  /** A count above the current one takes the growing branch. */
  lemma UpdateIsGrow(d: Db, lotId: int, u: LotUpdate, now: int, j: nat)
    requires FirstIndex(d.lots, LotHasId(lotId)) == Some(j) && j < |d.lots|
    requires u.numberOfSpots.Some? && u.numberOfSpots.value >= 0
    requires u.numberOfSpots.value > d.lots[j].numberOfSpots
    ensures UpdateLot(d, lotId, u, now) == Grow(d, j, EditFields(d.lots[j], u), u.numberOfSpots.value, now)
  {
  }

  /** A non-negative count below the current one takes the shrinking
      branch. */
  lemma UpdateIsShrink(d: Db, lotId: int, u: LotUpdate, now: int, j: nat)
    requires FirstIndex(d.lots, LotHasId(lotId)) == Some(j) && j < |d.lots|
    requires u.numberOfSpots.Some? && 0 <= u.numberOfSpots.value < d.lots[j].numberOfSpots
    ensures UpdateLot(d, lotId, u, now) == Shrink(d, j, EditFields(d.lots[j], u), u.numberOfSpots.value)
  {
  }

  // ---- what delete_lot does ----

  /** An unknown lot is answered with 404 and nothing changes. */
  lemma DeleteNotFoundChangesNothing(d: Db, lotId: int)
    requires forall l :: l in d.lots ==> l.id != lotId
    ensures DeleteLot(d, lotId) == (d, DeleteNotFound)
    ensures DeleteStatus(DeleteLot(d, lotId).1) == 404
  {
  }

  /** A lot with an occupied spot or an active reservation on one of its
      spots is not deleted: 400, nothing changes. */
  lemma DeleteRefusedInUse(d: Db, lotId: int)
    requires exists l :: l in d.lots && l.id == lotId
    requires (exists s :: s in d.spots && s.lotId == lotId && s.status == Occupied) ||
             (exists r, s :: r in d.reservations && r.status == Active && s in d.spots &&
                             s.id == r.spotId && s.lotId == lotId)
    ensures DeleteLot(d, lotId) == (d, LotInUse)
    ensures DeleteStatus(DeleteLot(d, lotId).1) == 400
  {
    var l :| l in d.lots && l.id == lotId;
    var k :| 0 <= k < |d.lots| && d.lots[k] == l;
    assert FirstIndex(d.lots, LotHasId(lotId)).Some?;
    if s :| s in d.spots && s.lotId == lotId && s.status == Occupied {
      assert s in LotSpots(d.spots, lotId);
      CountZero(LotSpots(d.spots, lotId), IsOccupied);
    } else {
      var r, s :| r in d.reservations && r.status == Active && s in d.spots && s.id == r.spotId && s.lotId == lotId;
      CountZero(d.reservations, ActiveInLot(d.spots, lotId));
    }
  }

  /** A lot in no use whose spots no reservation row names, active or
      completed, is deleted together with all its spots; every other spot
      stays, and no reservation is left naming a deleted spot. */
  lemma DeleteRemovesLotAndSpots(d: Db, lotId: int, j: nat)
    requires j < |d.lots| && d.lots[j].id == lotId
    requires forall k :: 0 <= k < j ==> d.lots[k].id != lotId
    requires forall s :: s in d.spots && s.lotId == lotId ==> s.status != Occupied
    requires forall r, s :: r in d.reservations && s in d.spots && s.id == r.spotId ==> s.lotId != lotId
    ensures DeleteLot(d, lotId).1 == LotDeleted
    ensures DeleteLot(d, lotId).0.lots == RemoveAt(d.lots, j)
    ensures forall s :: s in DeleteLot(d, lotId).0.spots <==> s in d.spots && s.lotId != lotId
    ensures DeleteLot(d, lotId).0.reservations == d.reservations
    ensures forall r, s :: r in d.reservations && s in d.spots && r.spotId == s.id ==>
                           s in DeleteLot(d, lotId).0.spots
  {
    LotAt(d.lots, lotId, j);
    CountZero(LotSpots(d.spots, lotId), IsOccupied);
    CountZero(d.reservations, ActiveInLot(d.spots, lotId));
  }

  /** A lot in no use one of whose spots some reservation row names, even a
      completed one, is not deleted: the commit fails, is rolled back and
      answered 500, and nothing changes. */
  lemma DeleteFailsOnHistory(d: Db, lotId: int)
    requires exists l :: l in d.lots && l.id == lotId
    requires forall s :: s in d.spots && s.lotId == lotId ==> s.status != Occupied
    requires forall r, s :: r in d.reservations && r.status == Active && s in d.spots && s.id == r.spotId ==>
                            s.lotId != lotId
    requires exists r, s :: r in d.reservations && s in d.spots && s.id == r.spotId && s.lotId == lotId
    ensures DeleteLot(d, lotId) == (d, DeleteFailed)
    ensures DeleteStatus(DeleteLot(d, lotId).1) == 500
  {
    var l :| l in d.lots && l.id == lotId;
    var k :| 0 <= k < |d.lots| && d.lots[k] == l;
    assert FirstIndex(d.lots, LotHasId(lotId)).Some?;
    CountZero(LotSpots(d.spots, lotId), IsOccupied);
    CountZero(d.reservations, ActiveInLot(d.spots, lotId));
    var r, s :| r in d.reservations && s in d.spots && s.id == r.spotId && s.lotId == lotId;
    assert s in LotSpots(d.spots, lotId);
    assert r.spotId in SpotIds(LotSpots(d.spots, lotId));
    DeleteFailsWhenNamed(d, lotId);
  }

  /** The last step of DeleteFailsOnHistory, stated on the guards of DeleteLot. */
  lemma DeleteFailsWhenNamed(d: Db, lotId: int)
    requires FirstIndex(d.lots, LotHasId(lotId)).Some?
    requires OccupiedIn(d.spots, lotId) == 0 && Count(d.reservations, ActiveInLot(d.spots, lotId)) == 0
    requires NamedByReservation(d.reservations, SpotIds(LotSpots(d.spots, lotId)))
    ensures DeleteLot(d, lotId) == (d, DeleteFailed)
    ensures DeleteStatus(DeleteLot(d, lotId).1) == 500
  {
  }

  /** A lot with one spot, booked once and released: the spot is free and
      no reservation is active, yet deleting the lot answers 500 and keeps
      everything. */
  lemma DeleteUsedLotFails()
    ensures DeleteLot(Db([Lot(1, "L", None, None, 10.0, 1, 0)], [Spot(7, 1, 1, Available, 0)],
                         [Reservation(1, 7, 1, 0, Some(60), Some(10.0), Completed, 0)], 2, 8, 2), 1).1
            == DeleteFailed
  {
    var d := Db([Lot(1, "L", None, None, 10.0, 1, 0)], [Spot(7, 1, 1, Available, 0)],
                [Reservation(1, 7, 1, 0, Some(60), Some(10.0), Completed, 0)], 2, 8, 2);
    DeleteFailsOnHistory(d, 1);
  }
}
