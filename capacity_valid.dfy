/** The capacity routes keep the store consistent: after `create_lot`,
    `update_lot` and `delete_lot` every lot's `number_of_spots` still equals
    its spot count, its spots are still numbered 1..n, and a spot is still 'O'
    exactly when an active reservation holds it. Shrinking removes the
    highest-numbered spots, growing numbers on from the highest, and the two
    together reuse spot numbers. */
module CapacityInvariants {

  import opened Wrappers
  import opened Seqs
  import opened Models
  import opened Store
  import opened Capacity

  // ---- sequence facts ----

  lemma ConcatIdsIncreasing(a: seq<Spot>, b: seq<Spot>)
    requires SpotIdsIncreasing(a) && SpotIdsIncreasing(b)
    requires forall x, y :: x in a && y in b ==> x.id < y.id
    ensures SpotIdsIncreasing(a + b)
  {
    var r := a + b;
    forall i, j | 0 <= i < j < |r| ensures r[i].id < r[j].id {
      if j < |a| {
        assert r[i] == a[i] && r[j] == a[j];
      } else if i >= |a| {
        assert r[i] == b[i - |a|] && r[j] == b[j - |a|];
      } else {
        assert r[i] == a[i] && r[j] == b[j - |a|];
        assert a[i] in a && b[j - |a|] in b;
      }
    }
  }

  /** Spots numbered 1..c followed by new spots numbered c+1..c+k are
      numbered 1..c+k. */
  lemma {:induction false} NumberedConcat(a: seq<Spot>, c: nat, lotId: nat, firstId: nat, k: nat, now: int)
    requires NumberedFromOne(a, c)
    ensures NumberedFromOne(a + NewSpots(lotId, firstId, c, k, now), c + k)
  {
  }

  /** Removing the rows whose keys make up `ids`, when those are exactly the
      rows from position `n` on, leaves the first `n` rows. */
  lemma {:induction false} DropSuffix(s: seq<Spot>, n: nat, ids: set<nat>)
    requires n <= |s|
    requires forall x :: x in s[..n] ==> x.id !in ids
    requires forall x :: x in s[n..] ==> x.id in ids
    ensures Filter(s, NotAmong(ids)) == s[..n]
  {
    if |s| == n {
      assert s[..n] == s;
      FilterKeepsAll(s, NotAmong(ids));
    } else {
      assert Last(s) in s[n..];
      var init := Init(s);
      assert init[..n] == s[..n];
      forall x | x in init[n..] ensures x.id in ids {
        var k :| 0 <= k < |init[n..]| && init[n..][k] == x;
        assert s[n..][k] == x;
      }
      DropSuffix(init, n, ids);
    }
  }

  /** In a sequence with increasing keys, no key of the first `n` rows occurs
      among the rows from position `n` on. */
  lemma PrefixKeysOutsideSuffix(s: seq<Spot>, n: nat)
    requires n <= |s| && SpotIdsIncreasing(s)
    ensures forall x :: x in s[..n] ==> x.id !in SpotIds(s[n..])
  {
    forall x | x in s[..n] ensures x.id !in SpotIds(s[n..]) {
      var a :| 0 <= a < n && s[..n][a] == x;
    }
  }

  /** Replacing a lot by one with the same key keeps the key invariant and
      the set of keys. */
  lemma EditKeepsLotKeys(lots: seq<Lot>, next: nat, j: nat, l: Lot)
    requires LotKeys(lots, next) && j < |lots| && l.id == lots[j].id
    ensures LotKeys(lots[j := l], next)
    ensures LotIds(lots[j := l]) == LotIds(lots)
    ensures forall m :: m in lots[j := l] ==> m == l || (m in lots && m.id != l.id)
  {
    var t := lots[j := l];
    assert forall k :: 0 <= k < |lots| ==> t[k].id == lots[k].id;
    forall id | id in LotIds(lots) ensures id in LotIds(t) {
      var m :| m in lots && m.id == id;
      var k :| 0 <= k < |lots| && lots[k] == m;
      assert t[k].id == id;
    }
    forall id | id in LotIds(t) ensures id in LotIds(lots) {
      var m :| m in t && m.id == id;
      var k :| 0 <= k < |t| && t[k] == m;
      assert lots[k].id == id;
    }
    forall m | m in t ensures m == l || (m in lots && m.id != l.id) {
      var k :| 0 <= k < |t| && t[k] == m;
      if k != j {
        assert m == lots[k];
        if k < j { assert lots[k].id < lots[j].id; } else { assert lots[j].id < lots[k].id; }
      }
    }
  }

  /** The position the lot lookup finds holds the only lot with that key. */
  lemma LotFound(d: Db, lotId: int, j: nat)
    requires Valid(d) && FirstIndex(d.lots, LotHasId(lotId)) == Some(j)
    ensures j < |d.lots| && d.lots[j].id == lotId && d.lots[j] in d.lots
    ensures forall k :: 0 <= k < |d.lots| && k != j ==> d.lots[k].id != lotId
  {
    forall k | 0 <= k < |d.lots| && k != j ensures d.lots[k].id != lotId {
      if k < j { assert d.lots[k].id < d.lots[j].id; } else { assert d.lots[j].id < d.lots[k].id; }
    }
  }

  // ---- consequences of the invariant ----

  /** Spot numbers are unique within a lot. */
  lemma SpotNumbersUnique(d: Db, a: Spot, b: Spot)
    requires Valid(d)
    requires a in d.spots && b in d.spots && a.lotId == b.lotId && a.number == b.number
    ensures a == b
  {
    var l :| l in d.lots && l.id == a.lotId;
    var s := LotSpots(d.spots, l.id);
    assert a in s && b in s;
    var i :| 0 <= i < |s| && s[i] == a;
    var k :| 0 <= k < |s| && s[k] == b;
  }

  /** On a consistent store the highest spot number of a lot is its spot
      count, so growing numbers on from `number_of_spots`. */
  lemma HighestIsCount(d: Db, l: Lot)
    requires CapacityMatches(d) && l in d.lots
    ensures HighestNumber(LotSpots(d.spots, l.id)) == l.numberOfSpots
  {
    var s := LotSpots(d.spots, l.id);
    if s != [] {
      assert Last(s) in s;
    }
  }

  /** On a consistent store the two checks `delete_lot` makes agree: the lot
      has an occupied spot exactly when an active reservation sits on one of
      its spots. */
  lemma DeleteChecksAgree(d: Db, lotId: int)
    requires Valid(d)
    ensures OccupiedIn(d.spots, lotId) > 0 <==> Count(d.reservations, ActiveInLot(d.spots, lotId)) > 0
  {
    CountZero(LotSpots(d.spots, lotId), IsOccupied);
    CountZero(d.reservations, ActiveInLot(d.spots, lotId));
    if OccupiedIn(d.spots, lotId) > 0 {
      var s :| s in LotSpots(d.spots, lotId) && IsOccupied(s);
      OccupiedIffHeld(d, s);
      var r :| r in d.reservations && r.status == Active && r.spotId == s.id;
      assert ActiveInLot(d.spots, lotId)(r);
    }
    if Count(d.reservations, ActiveInLot(d.spots, lotId)) > 0 {
      var r :| r in d.reservations && ActiveInLot(d.spots, lotId)(r);
      var s :| s in d.spots && s.id == r.spotId && s.lotId == lotId;
      HeldSpotIsOccupied(d, r, s);
      assert s in LotSpots(d.spots, lotId);
    }
  }

  // ---- appending new spots ----

  lemma {:induction false} AddedSpotsKeepKeys(d: Db, d': Db, lotId: nat, start: int, k: nat, now: int)
    requires Valid(d)
    requires d'.spots == d.spots + NewSpots(lotId, d.nextSpotId, start, k, now)
    requires d'.nextSpotId == d.nextSpotId + k
    ensures SpotKeys(d'.spots, d'.nextSpotId)
  {
    var added := NewSpots(lotId, d.nextSpotId, start, k, now);
    NewSpotsFacts(lotId, d.nextSpotId, start, k, now);
    ConcatIdsIncreasing(d.spots, added);
    forall i | 0 <= i < |d'.spots| ensures 0 < d'.spots[i].id < d'.nextSpotId {
      if i < |d.spots| { assert d'.spots[i] == d.spots[i]; }
      else { assert d'.spots[i] == added[i - |d.spots|] && added[i - |d.spots|] in added; }
    }
  }

  lemma {:induction false} AddedSpotsKeepOccupancy(d: Db, d': Db, lotId: nat, start: int, k: nat, now: int)
    requires Valid(d)
    requires d'.spots == d.spots + NewSpots(lotId, d.nextSpotId, start, k, now)
    requires d'.reservations == d.reservations
    ensures OccupancyMatches(d') && ActiveOnLiveSpots(d') && OneActivePerUser(d') && ReservationsShaped(d')
  {
    var added := NewSpots(lotId, d.nextSpotId, start, k, now);
    NewSpotsFacts(lotId, d.nextSpotId, start, k, now);
    forall s | s in d'.spots
      ensures Count(d'.reservations, ActiveOn(s.id)) == if s.status == Occupied then 1 else 0
    {
      if s !in d.spots {
        assert s in added;
        forall r | r in d.reservations ensures !ActiveOn(s.id)(r) {
        }
        CountZero(d.reservations, ActiveOn(s.id));
      }
    }
  }

  // ---- create_lot ----

  lemma CreateKeepsLotKeys(d: Db, lot: Lot)
    requires Valid(d) && lot.id == d.nextLotId
    ensures LotKeys(d.lots + [lot], d.nextLotId + 1)
  {
    var t := d.lots + [lot];
    forall i, k | 0 <= i < k < |t| ensures t[i].id < t[k].id {
      if k < |d.lots| { assert t[i] == d.lots[i] && t[k] == d.lots[k]; }
      else { assert t[i] == d.lots[i]; }
    }
    forall i | 0 <= i < |t| ensures 0 < t[i].id < d.nextLotId + 1 {
      if i < |d.lots| { assert t[i] == d.lots[i]; }
    }
  }

  lemma {:induction false} CreateKeepsSpotsInLots(d: Db, d': Db, lot: Lot, n: nat, now: int)
    requires SpotsInLots(d)
    requires d'.lots == d.lots + [lot]
    requires d'.spots == d.spots + NewSpots(lot.id, d.nextSpotId, 0, n, now)
    ensures SpotsInLots(d')
  {
    NewSpotsFacts(lot.id, d.nextSpotId, 0, n, now);
    assert lot in d'.lots;
    forall s | s in d'.spots ensures s.lotId in LotIds(d'.lots) {
      if s in d.spots {
        var l :| l in d.lots && l.id == s.lotId;
        assert l in d'.lots;
      }
    }
  }

  lemma {:induction false} CreateKeepsCapacity(d: Db, d': Db, lot: Lot, n: nat, now: int)
    requires LotKeys(d.lots, d.nextLotId) && SpotsInLots(d) && CapacityMatches(d)
    requires lot.id == d.nextLotId && lot.numberOfSpots == n
    requires d'.lots == d.lots + [lot]
    requires d'.spots == d.spots + NewSpots(lot.id, d.nextSpotId, 0, n, now)
    ensures CapacityMatches(d')
  {
    CreatedLotSpots(d, d'.spots, n, now);
    forall l | l in d'.lots ensures NumberedFromOne(LotSpots(d'.spots, l.id), l.numberOfSpots) {
      if l != lot {
        assert l in d.lots;
        var k :| 0 <= k < |d.lots| && d.lots[k] == l;
      }
    }
  }

  /** After `create_lot`, the new lot holds exactly its new spots, numbered
      from one, and every other lot keeps its spots. */
  lemma {:induction false} CreatedLotSpots(d: Db, spots': seq<Spot>, n: nat, now: int)
    requires LotKeys(d.lots, d.nextLotId) && SpotsInLots(d)
    requires spots' == d.spots + NewSpots(d.nextLotId, d.nextSpotId, 0, n, now)
    ensures NumberedFromOne(LotSpots(spots', d.nextLotId), n)
    ensures forall other :: other != d.nextLotId ==> LotSpots(spots', other) == LotSpots(d.spots, other)
  {
    NewSpotsFacts(d.nextLotId, d.nextSpotId, 0, n, now);
    NoSpotsInFreshLot(d);
    GrownLotSpots(d.spots, spots', d.nextLotId, d.nextSpotId, 0, n, now);
    assert LotSpots(spots', d.nextLotId) == NewSpots(d.nextLotId, d.nextSpotId, 0, n, now);
  }



  /** `create_lot` keeps every store invariant. */
  lemma CreatePreservesValid(d: Db, name: Option<string>, price: NumberField, count: NumberField,
                             address: Option<string>, pincode: Option<string>, now: int)
    requires Valid(d)
    ensures Valid(CreateLot(d, name, price, count, address, pincode, now).0)
  {
    var p, c := FloatOr(price, 0.0), IntOr(count, 0);
    if p.Some? && c.Some? && NonEmpty(name) && c.value > 0 {
      var n: nat := c.value;
      var d' := CreateLot(d, name, price, count, address, pincode, now).0;
      var lot := Lot(d.nextLotId, name.value, address, pincode, p.value, n, now);
      assert d'.lots == d.lots + [lot] && d'.reservations == d.reservations;
      assert d'.spots == d.spots + NewSpots(lot.id, d.nextSpotId, 0, n, now);
      assert d'.nextLotId == d.nextLotId + 1 && d'.nextSpotId == d.nextSpotId + n;
      assert d'.nextReservationId == d.nextReservationId;
      CreateKeepsLotKeys(d, lot);
      CreateKeepsSpotsInLots(d, d', lot, n, now);
      CreateKeepsCapacity(d, d', lot, n, now);
      AddedSpotsKeepKeys(d, d', d.nextLotId, 0, n, now);
      AddedSpotsKeepOccupancy(d, d', d.nextLotId, 0, n, now);
    }
  }

  // ---- update_lot ----

  lemma EditOnlyKeepsValid(d: Db, j: nat, l: Lot)
    requires Valid(d) && j < |d.lots|
    requires l.id == d.lots[j].id && l.numberOfSpots == d.lots[j].numberOfSpots
    ensures Valid(d.(lots := d.lots[j := l]))
  {
    EditKeepsLotKeys(d.lots, d.nextLotId, j, l);
    assert d.lots[j] in d.lots;
  }

  lemma {:induction false} GrowKeepsSpotsInLots(d: Db, d': Db, j: nat, l': Lot, c: int, k: nat, now: int)
    requires LotKeys(d.lots, d.nextLotId) && SpotsInLots(d)
    requires j < |d.lots| && l'.id == d.lots[j].id
    requires d'.lots == d.lots[j := l']
    requires d'.spots == d.spots + NewSpots(l'.id, d.nextSpotId, c, k, now)
    ensures SpotsInLots(d')
  {
    NewSpotsFacts(l'.id, d.nextSpotId, c, k, now);
    EditKeepsLotKeys(d.lots, d.nextLotId, j, l');
    assert d'.lots[j] == l' && l' in d'.lots;
  }

  lemma GrowKeepsCapacity(d: Db, d': Db, j: nat, l': Lot, now: int)
    requires LotKeys(d.lots, d.nextLotId) && CapacityMatches(d)
    requires j < |d.lots| && l'.id == d.lots[j].id
    requires d.lots[j].numberOfSpots < l'.numberOfSpots
    requires d'.lots == d.lots[j := l']
    requires d'.spots == d.spots + NewSpots(l'.id, d.nextSpotId, d.lots[j].numberOfSpots,
                                            l'.numberOfSpots - d.lots[j].numberOfSpots, now)
    ensures CapacityMatches(d')
  {
    var c := d.lots[j].numberOfSpots;
    assert d.lots[j] in d.lots;
    var k: nat := l'.numberOfSpots - c;
    GrownLotSpots(d.spots, d'.spots, l'.id, d.nextSpotId, c, k, now);
    NumberedConcat(LotSpots(d.spots, l'.id), c, l'.id, d.nextSpotId, k, now);
    EditKeepsLotKeys(d.lots, d.nextLotId, j, l');
  }

  lemma GrowKeepsValid(d: Db, lotId: nat, u: LotUpdate, now: int, j: nat)
    requires Valid(d) && FirstIndex(d.lots, LotHasId(lotId)) == Some(j)
    requires u.numberOfSpots.Some? && u.numberOfSpots.value >= 0
    requires u.numberOfSpots.value > d.lots[j].numberOfSpots
    ensures Valid(UpdateLot(d, lotId, u, now).0)
  {
    assert d.lots[j].id == lotId && d.lots[j] in d.lots;
    HighestIsCount(d, d.lots[j]);
    GrowStep(d, lotId, u, now, j);
    GrowValid(d, UpdateLot(d, lotId, u, now).0, j,
              EditFields(d.lots[j], u).(numberOfSpots := u.numberOfSpots.value), now);
  }

  /** The store after a grow of lot `j` to the count of `l'`, whatever the
      request looked like, is consistent. */
  lemma GrowValid(d: Db, d': Db, j: nat, l': Lot, now: int)
    requires Valid(d) && j < |d.lots| && l'.id == d.lots[j].id
    requires d.lots[j].numberOfSpots < l'.numberOfSpots
    requires d'.lots == d.lots[j := l'] && d'.reservations == d.reservations
    requires d'.spots == d.spots + NewSpots(l'.id, d.nextSpotId, d.lots[j].numberOfSpots,
                                            l'.numberOfSpots - d.lots[j].numberOfSpots, now)
    requires d'.nextSpotId == d.nextSpotId + (l'.numberOfSpots - d.lots[j].numberOfSpots)
    requires d'.nextLotId == d.nextLotId && d'.nextReservationId == d.nextReservationId
    ensures Valid(d')
  {
    var c := d.lots[j].numberOfSpots;
    assert d.lots[j] in d.lots;
    var k: nat := l'.numberOfSpots - c;
    GrowKeepsSpotsInLots(d, d', j, l', c, k, now);
    GrowKeepsCapacity(d, d', j, l', now);
    AddedSpotsKeepKeys(d, d', l'.id, c, k, now);
    AddedSpotsKeepOccupancy(d, d', l'.id, c, k, now);
    EditKeepsLotKeys(d.lots, d.nextLotId, j, l');
  }

  /** Under the invariant the shrink candidates are exactly the lot's spots
      from position `n` on, that is the spots numbered above `n`. */
  lemma CandidatesAreTail(d: Db, l: Lot, n: nat)
    requires Valid(d) && l in d.lots && n < l.numberOfSpots
    ensures ShrinkCandidates(d.spots, l.id, l.numberOfSpots - n) == LotSpots(d.spots, l.id)[n..]
  {
    var s := LotSpots(d.spots, l.id);
    assert SortedByNumber(s);
    SortSortedIsIdentity(s);
  }

  /** The keys of the spots of lot `l` from position `n` on. */
  function TailIds(d: Db, l: Lot, n: nat): set<nat>
    requires n <= |LotSpots(d.spots, l.id)|
  {
    SpotIds(LotSpots(d.spots, l.id)[n..])
  }

  lemma ShrinkOwnLot(d: Db, l: Lot, n: nat)
    requires Valid(d) && l in d.lots && n < l.numberOfSpots
    ensures LotSpots(Filter(d.spots, NotAmong(TailIds(d, l, n))), l.id) == LotSpots(d.spots, l.id)[..n]
  {
    var s := LotSpots(d.spots, l.id);
    var ids := TailIds(d, l, n);
    FilterKeepsIdsIncreasing(d.spots, InLot(l.id));
    PrefixKeysOutsideSuffix(s, n);
    DropSuffix(s, n, ids);
    FilterCommutes(d.spots, NotAmong(ids), InLot(l.id));
  }

  lemma ShrinkOtherLot(d: Db, l: Lot, n: nat, other: int)
    requires Valid(d) && l in d.lots && n < l.numberOfSpots && other != l.id
    ensures LotSpots(Filter(d.spots, NotAmong(TailIds(d, l, n))), other) == LotSpots(d.spots, other)
  {
    var ids := TailIds(d, l, n);
    FilterCommutes(d.spots, NotAmong(ids), InLot(other));
    forall x | x in LotSpots(d.spots, other) ensures NotAmong(ids)(x) {
      if x.id in ids {
        var y :| y in LotSpots(d.spots, l.id)[n..] && y.id == x.id;
        assert y in LotSpots(d.spots, l.id);
        SameIdSameSpot(d.spots, x, y);
      }
    }
    FilterKeepsAll(LotSpots(d.spots, other), NotAmong(ids));
  }

  /** Under the invariant a successful shrink to `n` leaves the lot exactly
      its first `n` spots, those numbered 1..n, and no other lot's spots
      change. */
  lemma ShrinkKeepsLowest(d: Db, lotId: nat, u: LotUpdate, now: int, j: nat)
    requires Valid(d) && FirstIndex(d.lots, LotHasId(lotId)) == Some(j)
    requires u.numberOfSpots.Some? && 0 <= u.numberOfSpots.value < d.lots[j].numberOfSpots
    requires UpdateLot(d, lotId, u, now).1.LotUpdated?
    ensures LotSpots(UpdateLot(d, lotId, u, now).0.spots, lotId) ==
            LotSpots(d.spots, lotId)[..u.numberOfSpots.value]
    ensures forall other :: other != lotId ==>
              LotSpots(UpdateLot(d, lotId, u, now).0.spots, other) == LotSpots(d.spots, other)
  {
    assert d.lots[j].id == lotId;
    UpdateIsShrink(d, lotId, u, now, j);
    var lot := EditFields(d.lots[j], u);
    var n := u.numberOfSpots.value;
    ShrinkApplies(d, j, lot, n);
    ShrinkSpotsFor(d, Shrink(d, j, lot, n).0.spots, j, lot, n);
  }

  /** Deleting the shrink candidates of lot `j` leaves it its first `n`
      spots and every other lot its spots. */
  lemma ShrinkSpotsFor(d: Db, spots': seq<Spot>, j: nat, lot: Lot, n: int)
    requires Valid(d) && j < |d.lots| && 0 <= n < lot.numberOfSpots
    requires lot.id == d.lots[j].id && lot.numberOfSpots == d.lots[j].numberOfSpots
    requires spots' == Filter(d.spots, NotAmong(SpotIds(ShrinkCandidates(d.spots, lot.id, lot.numberOfSpots - n))))
    ensures LotSpots(spots', lot.id) == LotSpots(d.spots, lot.id)[..n]
    ensures forall other :: other != lot.id ==> LotSpots(spots', other) == LotSpots(d.spots, other)
  {
    var l := d.lots[j];
    assert l in d.lots;
    CandidateKeysAreTail(d, spots', j, lot, n);
    ShrinkOwnLot(d, l, n);
    ShrinkOtherLots(d, l, n);
  }

  /** Under the invariant, deleting the shrink candidates is deleting the
      lot's spots from position `n` on. */
  lemma CandidateKeysAreTail(d: Db, spots': seq<Spot>, j: nat, lot: Lot, n: int)
    requires Valid(d) && j < |d.lots| && 0 <= n < lot.numberOfSpots
    requires lot.id == d.lots[j].id && lot.numberOfSpots == d.lots[j].numberOfSpots
    requires spots' == Filter(d.spots, NotAmong(SpotIds(ShrinkCandidates(d.spots, lot.id, lot.numberOfSpots - n))))
    ensures spots' == Filter(d.spots, NotAmong(TailIds(d, d.lots[j], n)))
  {
    assert d.lots[j] in d.lots;
    CandidatesAreTail(d, d.lots[j], n);
  }

  lemma ShrinkOtherLots(d: Db, l: Lot, n: nat)
    requires Valid(d) && l in d.lots && n < l.numberOfSpots
    ensures forall other :: other != l.id ==>
              LotSpots(Filter(d.spots, NotAmong(TailIds(d, l, n))), other) == LotSpots(d.spots, other)
  {
    forall other | other != l.id
      ensures LotSpots(Filter(d.spots, NotAmong(TailIds(d, l, n))), other) == LotSpots(d.spots, other)
    {
      ShrinkOtherLot(d, l, n, other);
    }
  }

  lemma ShrinkKeepsLayout(d: Db, d': Db, j: nat, l': Lot)
    requires Valid(d) && j < |d.lots| && l'.id == d.lots[j].id
    requires 0 <= l'.numberOfSpots < d.lots[j].numberOfSpots
    requires d'.lots == d.lots[j := l']
    requires d'.spots == Filter(d.spots, NotAmong(TailIds(d, d.lots[j], l'.numberOfSpots)))
    ensures SpotsInLots(d') && CapacityMatches(d')
  {
    var l := d.lots[j];
    assert l in d.lots;
    EditKeepsLotKeys(d.lots, d.nextLotId, j, l');
    ShrinkOwnLot(d, l, l'.numberOfSpots);
    forall m | m in d'.lots ensures NumberedFromOne(LotSpots(d'.spots, m.id), m.numberOfSpots) {
      if m != l' {
        ShrinkOtherLot(d, l, l'.numberOfSpots, m.id);
      }
    }
  }

  lemma ShrinkKeepsHolders(d: Db, d': Db, l: Lot, n: nat)
    requires Valid(d) && l in d.lots && n < l.numberOfSpots
    requires AllAvailable(LotSpots(d.spots, l.id)[n..])
    requires d'.spots == Filter(d.spots, NotAmong(TailIds(d, l, n)))
    requires d'.reservations == d.reservations && d'.nextSpotId == d.nextSpotId
    ensures SpotKeys(d'.spots, d'.nextSpotId)
    ensures OccupancyMatches(d') && ActiveOnLiveSpots(d')
  {
    var ids := TailIds(d, l, n);
    FilterKeepsIdsIncreasing(d.spots, NotAmong(ids));
    forall i | 0 <= i < |d'.spots| ensures 0 < d'.spots[i].id < d'.nextSpotId {
      assert d'.spots[i] in d'.spots;
    }
    forall r | r in d'.reservations && r.status == Active ensures r.spotId in SpotIds(d'.spots) {
      var s :| s in d.spots && s.id == r.spotId;
      if s.id in ids {
        var c :| c in LotSpots(d.spots, l.id)[n..] && c.id == s.id;
        assert c in LotSpots(d.spots, l.id);
        SameIdSameSpot(d.spots, s, c);
        HeldSpotIsOccupied(d, r, s);
      }
      assert s in d'.spots;
    }
  }

  lemma ShrinkKeepsValid(d: Db, lotId: nat, u: LotUpdate, now: int, j: nat)
    requires Valid(d) && FirstIndex(d.lots, LotHasId(lotId)) == Some(j)
    requires u.numberOfSpots.Some? && 0 <= u.numberOfSpots.value < d.lots[j].numberOfSpots
    requires UpdateLot(d, lotId, u, now).1.LotUpdated?
    ensures Valid(UpdateLot(d, lotId, u, now).0)
  {
    assert d.lots[j].id == lotId;
    UpdateIsShrink(d, lotId, u, now, j);
    ShrinkBranchKeepsValid(d, j, EditFields(d.lots[j], u), u.numberOfSpots.value);
  }

  /** The shrinking branch of `update_lot`, when it succeeds, keeps the
      store consistent. */
  lemma ShrinkBranchKeepsValid(d: Db, j: nat, lot: Lot, n: int)
    requires Valid(d) && j < |d.lots| && 0 <= n < lot.numberOfSpots
    requires lot.id == d.lots[j].id && lot.numberOfSpots == d.lots[j].numberOfSpots
    requires Shrink(d, j, lot, n).1.LotUpdated?
    ensures Valid(Shrink(d, j, lot, n).0)
  {
    ShrinkApplies(d, j, lot, n);
    ShrinkValidFor(d, Shrink(d, j, lot, n).0, j, lot, n);
  }

  /** The store after the shrinking branch deleted its candidates, all of
      them available, is consistent. */
  lemma ShrinkValidFor(d: Db, d': Db, j: nat, lot: Lot, n: int)
    requires Valid(d) && j < |d.lots| && 0 <= n < lot.numberOfSpots
    requires lot.id == d.lots[j].id && lot.numberOfSpots == d.lots[j].numberOfSpots
    requires AllAvailable(ShrinkCandidates(d.spots, lot.id, lot.numberOfSpots - n))
    requires d'.lots == d.lots[j := lot.(numberOfSpots := n)]
    requires d'.spots == Filter(d.spots, NotAmong(SpotIds(ShrinkCandidates(d.spots, lot.id, lot.numberOfSpots - n))))
    requires d'.reservations == d.reservations && d'.nextSpotId == d.nextSpotId
    requires d'.nextLotId == d.nextLotId && d'.nextReservationId == d.nextReservationId
    ensures Valid(d')
  {
    assert d.lots[j] in d.lots;
    CandidatesAreTail(d, d.lots[j], n);
    ShrinkValid(d, d', j, lot.(numberOfSpots := n));
  }

  /** The store after lot `j` drops its spots from position `n` on, all of
      them available, and records the count `n` is consistent. */
  lemma ShrinkValid(d: Db, d': Db, j: nat, l': Lot)
    requires Valid(d) && j < |d.lots| && l'.id == d.lots[j].id
    requires 0 <= l'.numberOfSpots < d.lots[j].numberOfSpots
    requires AllAvailable(LotSpots(d.spots, l'.id)[l'.numberOfSpots..])
    requires d'.lots == d.lots[j := l']
    requires d'.spots == Filter(d.spots, NotAmong(TailIds(d, d.lots[j], l'.numberOfSpots)))
    requires d'.reservations == d.reservations && d'.nextSpotId == d.nextSpotId
    requires d'.nextLotId == d.nextLotId && d'.nextReservationId == d.nextReservationId
    ensures Valid(d')
  {
    assert d.lots[j] in d.lots;
    EditKeepsLotKeys(d.lots, d.nextLotId, j, l');
    ShrinkKeepsLayout(d, d', j, l');
    ShrinkKeepsHolders(d, d', d.lots[j], l'.numberOfSpots);
  }

  /** `update_lot` keeps every store invariant. */
  lemma UpdatePreservesValid(d: Db, lotId: int, u: LotUpdate, now: int)
    requires Valid(d)
    ensures Valid(UpdateLot(d, lotId, u, now).0)
  {
    var f := FirstIndex(d.lots, LotHasId(lotId));
    if f.Some? {
      var j := f.value;
      LotFound(d, lotId, j);
      var l := EditFields(d.lots[j], u);
      if u.numberOfSpots.None? || u.numberOfSpots.value == l.numberOfSpots {
        EditOnlyKeepsValid(d, j, l);
      } else if u.numberOfSpots.value > l.numberOfSpots && u.numberOfSpots.value >= 0 {
        GrowKeepsValid(d, d.lots[j].id, u, now, j);
      } else if 0 <= u.numberOfSpots.value < l.numberOfSpots && UpdateLot(d, lotId, u, now).1.LotUpdated? {
        ShrinkKeepsValid(d, d.lots[j].id, u, now, j);
      }
    }
  }

  /** An update request, converted or refused, keeps every store
      invariant. */
  lemma UpdateRequestPreservesValid(d: Db, lotId: int, q: UpdateRequest, now: int)
    requires Valid(d)
    ensures Valid(UpdateLotRequest(d, lotId, q, now).0)
  {
    if ConvertUpdate(q).Some? {
      UpdatePreservesValid(d, lotId, ConvertUpdate(q).value, now);
    }
  }

  lemma ShrinkResult(d: Db, lotId: nat, n: nat, now: int, j: nat)
    requires Valid(d) && FirstIndex(d.lots, LotHasId(lotId)) == Some(j)
    requires n < d.lots[j].numberOfSpots
    requires UpdateLot(d, lotId, LotUpdate(None, None, None, None, Some(n)), now).1.LotUpdated?
    ensures var d1 := UpdateLot(d, lotId, LotUpdate(None, None, None, None, Some(n)), now).0;
            && Valid(d1) && d1.nextSpotId == d.nextSpotId
            && j < |d1.lots| && d1.lots[j].id == lotId && d1.lots[j].numberOfSpots == n
            && FirstIndex(d1.lots, LotHasId(lotId)) == Some(j)
  {
    var u := LotUpdate(None, None, None, None, Some(n));
    LotFound(d, lotId, j);
    ShrinkKeepsValid(d, lotId, u, now, j);
    ShrinkSucceededOnAvailable(d, lotId, u, now, j);
    ShrinkDeletesCandidates(d, lotId, u, now, j);
    LookupAfterEdit(d.lots, lotId, j, EditFields(d.lots[j], u).(numberOfSpots := n));
  }

  /** Replacing the lot a lookup found by one with the same key leaves the
      lookup where it was. */
  lemma LookupAfterEdit(lots: seq<Lot>, lotId: int, j: nat, l: Lot)
    requires FirstIndex(lots, LotHasId(lotId)) == Some(j) && l.id == lotId
    ensures FirstIndex(lots[j := l], LotHasId(lotId)) == Some(j)
  {
    var t := lots[j := l];
    assert forall k :: 0 <= k < j ==> t[k] == lots[k] && !LotHasId(lotId)(lots[k]);
    FirstIndexAt(t, LotHasId(lotId), j);
  }

  lemma GrowByOne(d: Db, lotId: nat, n: nat, later: int, j: nat)
    requires CapacityMatches(d) && FirstIndex(d.lots, LotHasId(lotId)) == Some(j)
    requires d.lots[j].numberOfSpots == n
    ensures exists s :: s in UpdateLot(d, lotId, LotUpdate(None, None, None, None, Some(n + 1)), later).0.spots &&
                        s.lotId == lotId && s.number == n + 1 && s.id >= d.nextSpotId
  {
    var u := LotUpdate(None, None, None, None, Some(n + 1));
    assert d.lots[j].id == lotId && d.lots[j] in d.lots;
    HighestIsCount(d, d.lots[j]);
    GrowStep(d, lotId, u, later, j);
    OneMoreSpot(d.spots, UpdateLot(d, lotId, u, later).0.spots, lotId, d.nextSpotId, n, later);
  }

  /** Appending one new spot numbered on from `n` adds a spot numbered
      `n + 1` with a fresh key. */
  lemma {:induction false} OneMoreSpot(spots: seq<Spot>, spots': seq<Spot>, lotId: nat, firstId: nat, n: nat, now: int)
    requires spots' == spots + NewSpots(lotId, firstId, n, 1, now)
    ensures exists s :: s in spots' && s.lotId == lotId && s.number == n + 1 && s.id >= firstId
  {
    assert spots'[|spots|] == NewSpots(lotId, firstId, n, 1, now)[0];
    assert spots'[|spots|] in spots';
  }

  lemma LotIndex(d: Db, l: Lot) returns (j: nat)
    requires Valid(d) && l in d.lots
    ensures FirstIndex(d.lots, LotHasId(l.id)) == Some(j) && j < |d.lots| && d.lots[j] == l
  {
    var k :| 0 <= k < |d.lots| && d.lots[k] == l;
    assert forall i :: 0 <= i < k ==> d.lots[i].id < l.id;
    FirstIndexAt(d.lots, LotHasId(l.id), k);
    j := k;
  }

  lemma NumberPresent(d: Db, l: Lot, n: nat)
    requires Valid(d) && l in d.lots && n < l.numberOfSpots
    ensures exists p :: p in d.spots && p.lotId == l.id && p.number == n + 1
  {
    var s := LotSpots(d.spots, l.id);
    assert s[n] in s;
  }

  lemma KeysBelowNext(d: Db)
    requires SpotKeys(d.spots, d.nextSpotId)
    ensures forall x :: x in d.spots ==> x.id < d.nextSpotId
  {
    forall x | x in d.spots ensures x.id < d.nextSpotId {
      var i :| 0 <= i < |d.spots| && d.spots[i] == x;
    }
  }

  /** Spot numbers are reused: after shrinking a lot to `n` spots and growing
      it back by one, the lot again has a spot numbered `n + 1`, a new row
      that is not the spot that carried this number before. */
  lemma ShrinkThenGrowReusesNumber(d: Db, l: Lot, n: nat, now: int, later: int)
    requires Valid(d) && l in d.lots && n < l.numberOfSpots
    requires UpdateLot(d, l.id, LotUpdate(None, None, None, None, Some(n)), now).1.LotUpdated?
    ensures exists p :: p in d.spots && p.lotId == l.id && p.number == n + 1
    ensures var d1 := UpdateLot(d, l.id, LotUpdate(None, None, None, None, Some(n)), now).0;
            var d2 := UpdateLot(d1, l.id, LotUpdate(None, None, None, None, Some(n + 1)), later).0;
            exists s :: s in d2.spots && s.lotId == l.id && s.number == n + 1 && s !in d.spots
  {
    var j := LotIndex(d, l);
    NumberPresent(d, l, n);
    KeysBelowNext(d);
    ShrinkResult(d, l.id, n, now, j);
    var d1 := UpdateLot(d, l.id, LotUpdate(None, None, None, None, Some(n)), now).0;
    GrowByOne(d1, l.id, n, later, j);
  }

  // ---- delete_lot ----

  /** `delete_lot` keeps every store invariant. */
  lemma DeletePreservesValid(d: Db, lotId: int)
    requires Valid(d)
    ensures Valid(DeleteLot(d, lotId).0)
  {
    if DeleteLot(d, lotId).1.LotDeleted? {
      var j := FirstIndex(d.lots, LotHasId(lotId)).value;
      LotFound(d, lotId, j);
      var d' := DeleteLot(d, lotId).0;
      assert d' == d.(lots := RemoveAt(d.lots, j), spots := Filter(d.spots, OutsideLot(lotId)));
      DeleteKeepsKeys(d, lotId, j);
      DeleteKeepsLayout(d, lotId, j);
      CountZero(d.reservations, ActiveInLot(d.spots, lotId));
      forall r | r in d'.reservations && r.status == Active ensures r.spotId in SpotIds(d'.spots) {
        var s :| s in d.spots && s.id == r.spotId;
        assert !ActiveInLot(d.spots, lotId)(r);
        assert s in d'.spots;
      }
    }
  }

  lemma DeleteKeepsKeys(d: Db, lotId: int, j: nat)
    requires Valid(d) && j < |d.lots| && d.lots[j].id == lotId
    ensures LotKeys(RemoveAt(d.lots, j), d.nextLotId)
    ensures SpotKeys(Filter(d.spots, OutsideLot(lotId)), d.nextSpotId)
  {
    var r := RemoveAt(d.lots, j);
    forall a, b | 0 <= a < b < |r| ensures r[a].id < r[b].id {
      var a' := if a < j then a else a + 1;
      var b' := if b < j then b else b + 1;
      assert r[a] == d.lots[a'] && r[b] == d.lots[b'];
    }
    FilterKeepsIdsIncreasing(d.spots, OutsideLot(lotId));
    var f := Filter(d.spots, OutsideLot(lotId));
    forall i | 0 <= i < |f| ensures 0 < f[i].id < d.nextSpotId {
      assert f[i] in f;
    }
  }

  lemma DeleteKeepsSpotsInLots(d: Db, lotId: int, j: nat)
    requires SpotsInLots(d) && j < |d.lots| && d.lots[j].id == lotId
    ensures SpotsInLots(d.(lots := RemoveAt(d.lots, j), spots := Filter(d.spots, OutsideLot(lotId))))
  {
    var r := RemoveAt(d.lots, j);
    var f := Filter(d.spots, OutsideLot(lotId));
    forall s | s in f ensures s.lotId in LotIds(r) {
      var l :| l in d.lots && l.id == s.lotId;
      var k :| 0 <= k < |d.lots| && d.lots[k] == l;
      assert k != j;
      var at := if k < j then k else k - 1;
      assert r[at] == l;
      assert l in r;
    }
  }

  lemma DeleteKeepsCapacity(d: Db, lotId: int, j: nat)
    requires Valid(d) && j < |d.lots| && d.lots[j].id == lotId
    requires forall k :: 0 <= k < |d.lots| && k != j ==> d.lots[k].id != lotId
    ensures CapacityMatches(d.(lots := RemoveAt(d.lots, j), spots := Filter(d.spots, OutsideLot(lotId))))
  {
    var r := RemoveAt(d.lots, j);
    var f := Filter(d.spots, OutsideLot(lotId));
    forall l | l in r ensures NumberedFromOne(LotSpots(f, l.id), l.numberOfSpots) {
      var k :| 0 <= k < |r| && r[k] == l;
      assert l in d.lots && l.id != lotId by {
        assert l == d.lots[if k < j then k else k + 1];
      }
      FilterCommutes(d.spots, OutsideLot(lotId), InLot(l.id));
      FilterKeepsAll(LotSpots(d.spots, l.id), OutsideLot(lotId));
    }
  }

  lemma DeleteKeepsLayout(d: Db, lotId: int, j: nat)
    requires Valid(d) && j < |d.lots| && d.lots[j].id == lotId
    requires forall k :: 0 <= k < |d.lots| && k != j ==> d.lots[k].id != lotId
    ensures SpotsInLots(d.(lots := RemoveAt(d.lots, j), spots := Filter(d.spots, OutsideLot(lotId))))
    ensures CapacityMatches(d.(lots := RemoveAt(d.lots, j), spots := Filter(d.spots, OutsideLot(lotId))))
  {
    DeleteKeepsSpotsInLots(d, lotId, j);
    DeleteKeepsCapacity(d, lotId, j);
  }
}
