/** The manual order of the fleet list: `ensure_car_order` gives every car
    an order entry and renumbers the entries 1..N, and the move buttons swap
    a car's index with its neighbour's.

    The renumbering sorts the entries by `order_index` and numbers them from
    1.  Entries with equal indices come out of the store's sort in an order
    the application does not fix; the model breaks such ties by store
    position. */
module Ordering {
  import opened Basics
  import opened Records

  /** `car_id` is unique in the order table. */
  predicate UniqueCars(os: seq<CarOrder>) {
    forall i, j :: 0 <= i < j < |os| ==> os[i].carId != os[j].carId
  }

  /** Car ids are primary keys. */
  predicate UniqueCarIds(cars: seq<Car>) {
    forall i, j :: 0 <= i < j < |cars| ==> cars[i].id != cars[j].id
  }

  /** `func.max(order_index) or 0`. */
  function MaxIndexOr0(os: seq<CarOrder>): (m: int)
    ensures forall i :: 0 <= i < |os| ==> os[i].index <= m
    ensures os == [] ==> m == 0
  {
    if os == [] then 0 else Max(os[0].index, MaxIndexOr0(os[1..]))
  }

  /** `{co.car_id for co in CarOrder.query.all()}`. */
  function CarIds(os: seq<CarOrder>): set<int> {
    set i | 0 <= i < |os| :: os[i].carId
  }

  /** The ids of the cars without an order entry, in car order. */
  function Missing(cars: seq<Car>, existing: set<int>): (ids: seq<int>)
    ensures forall k :: 0 <= k < |ids| ==> ids[k] !in existing
    ensures forall c :: c in cars && c.id !in existing ==> c.id in ids
    ensures forall x :: x in ids ==> exists c :: c in cars && c.id == x
  {
    if cars == [] then []
    else (if cars[0].id in existing then [] else [cars[0].id]) + Missing(cars[1..], existing)
  }

  /** Without duplicate car ids there are no duplicate missing ids. */
  lemma {:induction false} MissingUnique(cars: seq<Car>, existing: set<int>)
    requires UniqueCarIds(cars)
    ensures forall k, l :: 0 <= k < l < |Missing(cars, existing)| ==>
      Missing(cars, existing)[k] != Missing(cars, existing)[l]
  {
    if cars != [] {
      var rest := Missing(cars[1..], existing);
      var h := if cars[0].id in existing then [] else [cars[0].id];
      var ms := Missing(cars, existing);
      assert ms == h + rest;
      MissingUnique(cars[1..], existing);
      forall x | x in rest ensures x != cars[0].id {
        var c :| c in cars[1..] && c.id == x;
        var i :| 0 <= i < |cars| - 1 && cars[1..][i] == c;
        assert cars[i + 1] == c;
      }
      forall k, l | 0 <= k < l < |ms| ensures ms[k] != ms[l] {
        if h == [] {
          assert ms[k] == rest[k] && ms[l] == rest[l];
        } else if k == 0 {
          assert ms[l] == rest[l - 1];
          assert rest[l - 1] in rest;
        } else {
          assert ms[k] == rest[k - 1] && ms[l] == rest[l - 1];
        }
      }
    }
  }

  /** The entries the first loop of `ensure_car_order` appends, numbered on
      from `from`. */
  function Numbered(ids: seq<int>, from: int): (os: seq<CarOrder>)
    ensures |os| == |ids|
    ensures forall k :: 0 <= k < |ids| ==> os[k] == CarOrder(ids[k], from + 1 + k)
  {
    seq(|ids|, k requires 0 <= k < |ids| => CarOrder(ids[k], from + 1 + k))
  }

  /** The table after the first loop of `ensure_car_order`. */
  function WithMissing(cars: seq<Car>, os: seq<CarOrder>): seq<CarOrder> {
    os + Numbered(Missing(cars, CarIds(os)), MaxIndexOr0(os))
  }

  /** The first loop: a running `max_index`, one new entry per car that has
      none. */
  method AppendMissing(cars: seq<Car>, os: seq<CarOrder>) returns (out: seq<CarOrder>)
    ensures out == WithMissing(cars, os)
  {
    var maxIndex := MaxIndexOr0(os);
    var existing := CarIds(os);
    out := os;
    var i := 0;
    ghost var added: seq<int> := [];
    while i < |cars|
      invariant 0 <= i <= |cars|
      invariant added == Missing(cars[..i], existing)
      invariant maxIndex == MaxIndexOr0(os) + |added|
      invariant out == os + Numbered(added, MaxIndexOr0(os))
    {
      MissingSnoc(cars, i, existing);
      if cars[i].id !in existing {
        NumberedSnoc(added, cars[i].id, MaxIndexOr0(os));
        maxIndex := maxIndex + 1;
        out := out + [CarOrder(cars[i].id, maxIndex)];
        added := added + [cars[i].id];
      }
      i := i + 1;
    }
    assert cars[..i] == cars;
  }

  lemma NumberedSnoc(ids: seq<int>, x: int, from: int)
    ensures Numbered(ids + [x], from) == Numbered(ids, from) + [CarOrder(x, from + 1 + |ids|)]
  {
    assert (ids + [x])[|ids|] == x;
  }

  /** One more car extends the missing list by at most that car. */
  lemma {:induction false} MissingSnoc(cars: seq<Car>, i: nat, existing: set<int>)
    requires i < |cars|
    ensures Missing(cars[..i + 1], existing)
            == Missing(cars[..i], existing) + (if cars[i].id in existing then [] else [cars[i].id])
  {
    MissingConcat(cars[..i], [cars[i]], existing);
    assert cars[..i + 1] == cars[..i] + [cars[i]];
  }

  lemma {:induction false} MissingConcat(a: seq<Car>, b: seq<Car>, existing: set<int>)
    ensures Missing(a + b, existing) == Missing(a, existing) + Missing(b, existing)
  {
    if a == [] {
      assert a + b == b;
    } else {
      assert (a + b)[1..] == a[1..] + b;
      MissingConcat(a[1..], b, existing);
    }
  }

  // ---------------------------------------------------------------------
  // Renumbering

  /** Entry `j` comes before entry `i` in the sorted order. */
  predicate Precedes(os: seq<CarOrder>, j: int, i: int)
    requires 0 <= j < |os| && 0 <= i < |os|
  {
    os[j].index < os[i].index || (os[j].index == os[i].index && j < i)
  }

  /** The number of entries among the first `n` that come before entry `i`. */
  function CountBefore(os: seq<CarOrder>, i: nat, n: nat): (c: nat)
    requires i < |os| && n <= |os|
    ensures c <= n
  {
    if n == 0 then 0 else CountBefore(os, i, n - 1) + (if Precedes(os, n - 1, i) then 1 else 0)
  }

  /** The 0-based position of entry `i` in the sorted order. */
  function Rank(os: seq<CarOrder>, i: nat): nat
    requires i < |os|
  {
    CountBefore(os, i, |os|)
  }

  /** The table after the second loop of `ensure_car_order`:
      `for idx, co in enumerate(ordered, start=1): co.order_index = idx`. */
  function Renumber(os: seq<CarOrder>): (out: seq<CarOrder>)
    ensures |out| == |os|
    ensures forall i :: 0 <= i < |os| ==> out[i].carId == os[i].carId && out[i].index >= 1
  {
    seq(|os|, i requires 0 <= i < |os| => os[i].(index := 1 + Rank(os, i)))
  }

  /** The whole of `ensure_car_order` on the table. */
  function Normalize(cars: seq<Car>, os: seq<CarOrder>): seq<CarOrder> {
    Renumber(WithMissing(cars, os))
  }

  /** The existing entries keep their positions and cars, and one entry per
      car without one follows them, in car order. */
  lemma NormalizeLayout(cars: seq<Car>, os: seq<CarOrder>)
    ensures |Normalize(cars, os)| == |os| + |Missing(cars, CarIds(os))|
    ensures forall i :: 0 <= i < |os| ==> Normalize(cars, os)[i].carId == os[i].carId
    ensures forall k :: 0 <= k < |Missing(cars, CarIds(os))| ==>
      Normalize(cars, os)[|os| + k].carId == Missing(cars, CarIds(os))[k]
  {
  }

  /** The second loop, computing each entry's place in the sorted order. */
  method RenumberOrders(os: seq<CarOrder>) returns (out: seq<CarOrder>)
    ensures out == Renumber(os)
  {
    out := os;
    var i := 0;
    while i < |os|
      invariant 0 <= i <= |os| == |out|
      invariant forall k :: 0 <= k < i ==> out[k] == os[k].(index := 1 + Rank(os, k))
      invariant forall k :: i <= k < |os| ==> out[k] == os[k]
    {
      var count := 0;
      var j := 0;
      while j < |os|
        invariant 0 <= j <= |os|
        invariant count == CountBefore(os, i, j)
      {
        if os[j].index < os[i].index || (os[j].index == os[i].index && j < i) {
          count := count + 1;
        }
        j := j + 1;
      }
      out := out[i := out[i].(index := 1 + count)];
      i := i + 1;
    }
  }

  /** An entry never precedes itself, so its rank is below the length. */
  lemma {:induction false} CountBeforeSelf(os: seq<CarOrder>, i: nat, n: nat)
    requires i < |os| && n <= |os|
    ensures CountBefore(os, i, n) <= (if i < n then n - 1 else n)
  {
    if n > 0 {
      CountBeforeSelf(os, i, n - 1);
    }
  }

  /** Whatever precedes `a` precedes `b` when `a` precedes `b`, and `a`
      itself is counted for `b` but not for `a`. */
  lemma {:induction false} CountBeforeMonotone(os: seq<CarOrder>, a: nat, b: nat, n: nat)
    requires a < |os| && b < |os| && n <= |os|
    requires Precedes(os, a, b)
    ensures CountBefore(os, a, n) + (if a < n then 1 else 0) <= CountBefore(os, b, n)
  {
    if n > 0 {
      CountBeforeMonotone(os, a, b, n - 1);
    }
  }

  /** Earlier in the sorted order means a smaller rank. */
  lemma RankMonotone(os: seq<CarOrder>, a: nat, b: nat)
    requires a < |os| && b < |os| && Precedes(os, a, b)
    ensures Rank(os, a) < Rank(os, b)
  {
    CountBeforeMonotone(os, a, b, |os|);
  }

  /** Ranks are below the length and pairwise distinct. */
  lemma RankInjective(os: seq<CarOrder>)
    ensures forall i :: 0 <= i < |os| ==> Rank(os, i) < |os|
    ensures forall i, j :: 0 <= i < |os| && 0 <= j < |os| && i != j ==> Rank(os, i) != Rank(os, j)
  {
    forall i | 0 <= i < |os| ensures Rank(os, i) < |os| {
      CountBeforeSelf(os, i, |os|);
    }
    forall i, j | 0 <= i < |os| && 0 <= j < |os| && i != j ensures Rank(os, i) != Rank(os, j) {
      if Precedes(os, i, j) {
        RankMonotone(os, i, j);
      } else {
        RankMonotone(os, j, i);
      }
    }
  }

  /** The ranks of the first `n` entries form a set of `n` values. */
  lemma {:induction false} RankImageCard(os: seq<CarOrder>, n: nat)
    requires n <= |os|
    requires forall i, j :: 0 <= i < |os| && 0 <= j < |os| && i != j ==> Rank(os, i) != Rank(os, j)
    ensures |set i | 0 <= i < n :: Rank(os, i)| == n
  {
    if n > 0 {
      RankImageCard(os, n - 1);
      var prev := set i | 0 <= i < n - 1 :: Rank(os, i);
      assert (set i | 0 <= i < n :: Rank(os, i)) == prev + {Rank(os, n - 1)};
      assert Rank(os, n - 1) !in prev;
    }
  }

  /** The set `{lo, ..., lo + n - 1}`. */
  function Iota(lo: int, n: nat): (r: set<int>)
    ensures forall k :: k in r <==> lo <= k < lo + n
    ensures |r| == n
  {
    if n == 0 then {} else Iota(lo, n - 1) + {lo + n - 1}
  }

  /** A subset as large as its superset is the superset. */
  lemma SubsetSameCard(a: set<int>, b: set<int>)
    requires a <= b && |a| == |b|
    ensures a == b
  {
    assert |b - a| == |b| - |a|;
    assert b - a == {};
  }

  /** Some entry has rank `k`. */
  predicate HasRank(os: seq<CarOrder>, k: int) {
    exists i :: 0 <= i < |os| && Rank(os, i) == k
  }

  /** Every value `0 <= k < N` is the rank of some entry. */
  lemma RankSurjective(os: seq<CarOrder>)
    ensures forall k :: 0 <= k < |os| ==> HasRank(os, k)
  {
    RankInjective(os);
    RankImageCard(os, |os|);
    var image := set i | 0 <= i < |os| :: Rank(os, i);
    assert image <= Iota(0, |os|);
    SubsetSameCard(image, Iota(0, |os|));
    forall k | 0 <= k < |os| ensures HasRank(os, k) {
      assert k in image;
    }
  }

  /** Some entry has order index `k`. */
  predicate Attains(os: seq<CarOrder>, k: int) {
    exists i :: 0 <= i < |os| && os[i].index == k
  }

  /** The indices are exactly `1..N`, each used once. */
  predicate Consecutive(os: seq<CarOrder>) {
    && (forall i :: 0 <= i < |os| ==> 1 <= os[i].index <= |os|)
    && (forall i, j :: 0 <= i < j < |os| ==> os[i].index != os[j].index)
    && (forall k :: 1 <= k <= |os| ==> Attains(os, k))
  }

  /** Renumbering gives indices `1..N` and keeps every entry's car. */
  lemma RenumberConsecutive(os: seq<CarOrder>)
    ensures Consecutive(Renumber(os))
    ensures forall i :: 0 <= i < |os| ==> Renumber(os)[i].carId == os[i].carId
  {
    var out := Renumber(os);
    RankInjective(os);
    RankSurjective(os);
    forall k | 1 <= k <= |os| ensures Attains(out, k) {
      assert HasRank(os, k - 1);
      var i :| 0 <= i < |os| && Rank(os, i) == k - 1;
      assert out[i].index == k;
    }
  }

  /** Renumbering keeps the relative order: a smaller old index stays
      smaller, and equal old indices are ordered by position. */
  lemma RenumberKeepsOrder(os: seq<CarOrder>)
    ensures forall i, j ::
      0 <= i < |os| && 0 <= j < |os| && os[i].index < os[j].index ==> Renumber(os)[i].index < Renumber(os)[j].index
    ensures forall i, j ::
      0 <= i < j < |os| && os[i].index == os[j].index ==> Renumber(os)[i].index < Renumber(os)[j].index
  {
    forall i, j | 0 <= i < |os| && 0 <= j < |os| && Precedes(os, i, j)
      ensures Renumber(os)[i].index < Renumber(os)[j].index
    {
      RankMonotone(os, i, j);
    }
  }

  /** The table before renumbering: the old entries, then one entry per
      missing car numbered on from the old maximum. */
  lemma WithMissingAt(cars: seq<Car>, os: seq<CarOrder>)
    ensures |WithMissing(cars, os)| == |os| + |Missing(cars, CarIds(os))|
    ensures forall i :: 0 <= i < |os| ==> WithMissing(cars, os)[i] == os[i]
    ensures forall i :: |os| <= i < |WithMissing(cars, os)| ==>
      WithMissing(cars, os)[i] == CarOrder(Missing(cars, CarIds(os))[i - |os|], MaxIndexOr0(os) + 1 + i - |os|)
  {
  }

  /** After `ensure_car_order` the indices are exactly `1..N`. */
  lemma NormalizeConsecutive(cars: seq<Car>, os: seq<CarOrder>)
    ensures Consecutive(Normalize(cars, os))
    ensures |Normalize(cars, os)| == |os| + |Missing(cars, CarIds(os))|
  {
    WithMissingAt(cars, os);
    RenumberConsecutive(WithMissing(cars, os));
  }

  /** After `ensure_car_order` every car has exactly one entry, and the
      old entries keep their cars. */
  lemma NormalizeCoversCars(cars: seq<Car>, os: seq<CarOrder>)
    requires UniqueCarIds(cars) && UniqueCars(os)
    ensures UniqueCars(Normalize(cars, os))
    ensures forall c :: c in cars ==> exists i :: 0 <= i < |Normalize(cars, os)| && Normalize(cars, os)[i].carId == c.id
    ensures forall i :: 0 <= i < |os| ==> Normalize(cars, os)[i].carId == os[i].carId
  {
    var w := WithMissing(cars, os);
    var missing := Missing(cars, CarIds(os));
    WithMissingAt(cars, os);
    MissingUnique(cars, CarIds(os));
    RenumberConsecutive(w);
    var n := Renumber(w);
    forall i, j | 0 <= i < j < |n| ensures n[i].carId != n[j].carId {
      assert n[i].carId == w[i].carId && n[j].carId == w[j].carId;
      if j >= |os| && i < |os| {
        assert os[i].carId in CarIds(os);
      } else if i >= |os| {
        assert w[i].carId == missing[i - |os|] && w[j].carId == missing[j - |os|];
      }
    }
    forall c | c in cars ensures exists i :: 0 <= i < |n| && n[i].carId == c.id {
      if c.id in CarIds(os) {
        var i :| 0 <= i < |os| && os[i].carId == c.id;
        assert n[i].carId == c.id;
      } else {
        var k :| 0 <= k < |missing| && missing[k] == c.id;
        assert n[|os| + k].carId == c.id;
      }
    }
  }

  /** After `ensure_car_order` the old entries keep their relative order
      and the new ones come after them, in the order of the car list. */
  lemma NormalizeKeepsOrder(cars: seq<Car>, os: seq<CarOrder>)
    ensures |os| <= |Normalize(cars, os)|
    ensures forall i, j ::
      0 <= i < |os| && 0 <= j < |os| && os[i].index < os[j].index ==> Normalize(cars, os)[i].index < Normalize(cars, os)[j].index
    ensures forall i, j ::
      0 <= i < |os| <= j < |Normalize(cars, os)| ==> Normalize(cars, os)[i].index < Normalize(cars, os)[j].index
    ensures forall i, j ::
      |os| <= i < j < |Normalize(cars, os)| ==> Normalize(cars, os)[i].index < Normalize(cars, os)[j].index
  {
    var w := WithMissing(cars, os);
    WithMissingAt(cars, os);
    RenumberKeepsOrder(w);
    var n := Renumber(w);
    forall i, j | 0 <= i < |os| && 0 <= j < |os| && os[i].index < os[j].index
      ensures n[i].index < n[j].index
    {
      assert w[i] == os[i] && w[j] == os[j];
    }
    forall i, j | 0 <= i < |os| <= j < |n| ensures n[i].index < n[j].index {
      assert w[i].index <= MaxIndexOr0(os) < w[j].index;
    }
    forall i, j | |os| <= i < j < |n| ensures n[i].index < n[j].index {
      assert w[i].index < w[j].index;
    }
  }

  // ---------------------------------------------------------------------
  // Moving a car up or down

  /** `CarOrder.query.filter_by(car_id=...).first()`. */
  function PositionOf(os: seq<CarOrder>, carId: int): (k: Option<nat>)
    ensures k.None? <==> forall i :: 0 <= i < |os| ==> os[i].carId != carId
    ensures k.Some? ==> k.value < |os| && os[k.value].carId == carId
  {
    FindFirst(os, (o: CarOrder) => o.carId == carId)
  }

  /** Entry `j` is the one just above entry `i`: the largest index below
      `i`'s. */
  predicate IsPrev(os: seq<CarOrder>, i: int, j: int)
    requires 0 <= i < |os|
  {
    0 <= j < |os| && os[j].index < os[i].index
    && forall k :: 0 <= k < |os| && os[k].index < os[i].index ==> os[k].index <= os[j].index
  }

  /** Entry `j` is the one just below entry `i`: the smallest index above
      `i`'s. */
  predicate IsNext(os: seq<CarOrder>, i: int, j: int)
    requires 0 <= i < |os|
  {
    0 <= j < |os| && os[j].index > os[i].index
    && forall k :: 0 <= k < |os| && os[k].index > os[i].index ==> os[k].index >= os[j].index
  }

  /** The entry just above entry `i` among the first `n`: the largest
      smaller index, the first such in table order. */
  function PrevAmong(os: seq<CarOrder>, i: nat, n: nat): (j: Option<nat>)
    requires i < |os| && n <= |os|
    ensures j.None? <==> forall k :: 0 <= k < n ==> os[k].index >= os[i].index
    ensures j.Some? ==> j.value < n && os[j.value].index < os[i].index
    ensures j.Some? ==> forall k :: 0 <= k < n && os[k].index < os[i].index ==> os[k].index <= os[j.value].index
  {
    if n == 0 then None
    else
      var rest := PrevAmong(os, i, n - 1);
      if os[n - 1].index < os[i].index && (rest.None? || os[n - 1].index > os[rest.value].index)
      then Some(n - 1) else rest
  }

  /** The entry just below entry `i` among the first `n`: the smallest
      larger index, the first such in table order. */
  function NextAmong(os: seq<CarOrder>, i: nat, n: nat): (j: Option<nat>)
    requires i < |os| && n <= |os|
    ensures j.None? <==> forall k :: 0 <= k < n ==> os[k].index <= os[i].index
    ensures j.Some? ==> j.value < n && os[j.value].index > os[i].index
    ensures j.Some? ==> forall k :: 0 <= k < n && os[k].index > os[i].index ==> os[k].index >= os[j.value].index
  {
    if n == 0 then None
    else
      var rest := NextAmong(os, i, n - 1);
      if os[n - 1].index > os[i].index && (rest.None? || os[n - 1].index < os[rest.value].index)
      then Some(n - 1) else rest
  }

  /** `filter(order_index < current).order_by(order_index.desc()).first()`. */
  method FindPrev(os: seq<CarOrder>, i: nat) returns (prev: Option<nat>)
    requires i < |os|
    ensures prev == PrevAmong(os, i, |os|)
    ensures prev.None? <==> forall k :: 0 <= k < |os| ==> os[k].index >= os[i].index
    ensures prev.Some? ==> IsPrev(os, i, prev.value)
  {
    prev := None;
    var k := 0;
    while k < |os|
      invariant 0 <= k <= |os|
      invariant prev == PrevAmong(os, i, k)
    {
      if os[k].index < os[i].index && (prev.None? || os[k].index > os[prev.value].index) {
        prev := Some(k);
      }
      k := k + 1;
    }
  }

  /** `filter(order_index > current).order_by(order_index.asc()).first()`. */
  method FindNext(os: seq<CarOrder>, i: nat) returns (next: Option<nat>)
    requires i < |os|
    ensures next == NextAmong(os, i, |os|)
    ensures next.None? <==> forall k :: 0 <= k < |os| ==> os[k].index <= os[i].index
    ensures next.Some? ==> IsNext(os, i, next.value)
  {
    next := None;
    var k := 0;
    while k < |os|
      invariant 0 <= k <= |os|
      invariant next == NextAmong(os, i, k)
    {
      if os[k].index > os[i].index && (next.None? || os[k].index < os[next.value].index) {
        next := Some(k);
      }
      k := k + 1;
    }
  }

  /** `current.order_index, other.order_index = other.order_index, current.order_index`. */
  function SwapIndex(os: seq<CarOrder>, i: nat, j: nat): (out: seq<CarOrder>)
    requires i < |os| && j < |os|
    ensures |out| == |os|
  {
    os[i := os[i].(index := os[j].index)][j := os[j].(index := os[i].index)]
  }

  /** In a renumbered table the neighbour above is the entry with index one
      less, and there is none exactly for the entry with index 1. */
  lemma PrevIsAdjacent(os: seq<CarOrder>, i: nat)
    requires Consecutive(os) && i < |os|
    ensures (exists k :: 0 <= k < |os| && os[k].index < os[i].index) <==> os[i].index > 1
    ensures forall j :: IsPrev(os, i, j) <==> 0 <= j < |os| && os[j].index == os[i].index - 1
  {
    if os[i].index > 1 {
      assert Attains(os, os[i].index - 1);
      var k :| 0 <= k < |os| && os[k].index == os[i].index - 1;
      assert IsPrev(os, i, k);
    }
  }

  /** In a renumbered table the neighbour below is the entry with index one
      more, and there is none exactly for the entry with index N. */
  lemma NextIsAdjacent(os: seq<CarOrder>, i: nat)
    requires Consecutive(os) && i < |os|
    ensures (exists k :: 0 <= k < |os| && os[k].index > os[i].index) <==> os[i].index < |os|
    ensures forall j :: IsNext(os, i, j) <==> 0 <= j < |os| && os[j].index == os[i].index + 1
  {
    if os[i].index < |os| {
      assert Attains(os, os[i].index + 1);
      var k :| 0 <= k < |os| && os[k].index == os[i].index + 1;
      assert IsNext(os, i, k);
    }
  }

  /** Swapping two indices keeps the table renumbered and every car in
      place. */
  lemma SwapKeepsConsecutive(os: seq<CarOrder>, i: nat, j: nat)
    requires Consecutive(os) && i < |os| && j < |os|
    ensures Consecutive(SwapIndex(os, i, j))
    ensures forall k :: 0 <= k < |os| ==> SwapIndex(os, i, j)[k].carId == os[k].carId
  {
    var out := SwapIndex(os, i, j);
    forall k | 1 <= k <= |os| ensures Attains(out, k) {
      assert Attains(os, k);
      var l :| 0 <= l < |os| && os[l].index == k;
      if l == i {
        assert out[j].index == k;
      } else if l == j {
        assert out[i].index == k;
      } else {
        assert out[l].index == k;
      }
    }
  }

  /** The table after moving car `carId` up: its index swapped with the
      entry just above, or unchanged when there is none. */
  function MovedUp(os: seq<CarOrder>, carId: int): (out: seq<CarOrder>)
    ensures |out| == |os|
    ensures forall i :: 0 <= i < |os| ==> out[i].carId == os[i].carId
    ensures PositionOf(os, carId).None? ==> out == os
  {
    match PositionOf(os, carId)
    case None => os
    case Some(i) =>
      match PrevAmong(os, i, |os|)
      case None => os
      case Some(j) => SwapIndex(os, i, j)
  }

  /** The table after moving car `carId` down. */
  function MovedDown(os: seq<CarOrder>, carId: int): (out: seq<CarOrder>)
    ensures |out| == |os|
    ensures forall i :: 0 <= i < |os| ==> out[i].carId == os[i].carId
    ensures PositionOf(os, carId).None? ==> out == os
  {
    match PositionOf(os, carId)
    case None => os
    case Some(i) =>
      match NextAmong(os, i, |os|)
      case None => os
      case Some(j) => SwapIndex(os, i, j)
  }

  /** The body of `move_car_up` after normalisation. */
  method MoveUp(os: seq<CarOrder>, carId: int) returns (out: seq<CarOrder>)
    ensures out == MovedUp(os, carId)
  {
    out := os;
    var pos := PositionOf(os, carId);
    if pos.Some? {
      var i := pos.value;
      var prev := FindPrev(os, i);
      if prev.Some? {
        var j := prev.value;
        out := os[i := os[i].(index := os[j].index)][j := os[j].(index := os[i].index)];
      }
    }
  }

  /** The body of `move_car_down` after normalisation. */
  method MoveDown(os: seq<CarOrder>, carId: int) returns (out: seq<CarOrder>)
    ensures out == MovedDown(os, carId)
  {
    out := os;
    var pos := PositionOf(os, carId);
    if pos.Some? {
      var i := pos.value;
      var next := FindNext(os, i);
      if next.Some? {
        var j := next.value;
        out := os[i := os[i].(index := os[j].index)][j := os[j].(index := os[i].index)];
      }
    }
  }

  /** Swapping the indices of two distinct entries of a renumbered table,
      where `j` holds index `v`: `i` gets `v`, `j` gets `i`'s old index,
      and every other entry is untouched. */
  lemma SwapAt(os: seq<CarOrder>, i: nat, j: nat, v: int)
    requires Consecutive(os) && i < |os| && j < |os| && os[j].index == v && os[i].index != v
    ensures Consecutive(SwapIndex(os, i, j))
    ensures |SwapIndex(os, i, j)| == |os|
    ensures forall k :: 0 <= k < |os| ==> SwapIndex(os, i, j)[k].carId == os[k].carId
    ensures SwapIndex(os, i, j)[i].index == v
    ensures forall k :: 0 <= k < |os| && os[k].index == v ==> SwapIndex(os, i, j)[k].index == os[i].index
    ensures forall k :: 0 <= k < |os| && k != i && os[k].index != v ==> SwapIndex(os, i, j)[k] == os[k]
  {
    SwapKeepsConsecutive(os, i, j);
    forall k | 0 <= k < |os| && os[k].index == v ensures k == j {
      assert os[k].index == os[j].index;
    }
  }

  /** On a renumbered table, moving a car up keeps the indices `1..N` and
      every entry's car; a car at index 1 stays, any other car trades
      places with the car at the index just above it, and no other entry
      changes. */
  lemma MoveUpSpec(os: seq<CarOrder>, carId: int)
    requires Consecutive(os)
    ensures Consecutive(MovedUp(os, carId))
    ensures |MovedUp(os, carId)| == |os|
    ensures forall k :: 0 <= k < |os| ==> MovedUp(os, carId)[k].carId == os[k].carId
    ensures PositionOf(os, carId).Some? ==>
      var i := PositionOf(os, carId).value;
      && (os[i].index == 1 ==> MovedUp(os, carId) == os)
      && (os[i].index > 1 ==> MovedUp(os, carId)[i].index == os[i].index - 1)
      && (forall k :: 0 <= k < |os| && os[k].index == os[i].index - 1 ==> MovedUp(os, carId)[k].index == os[i].index)
      && (forall k :: 0 <= k < |os| && k != i && os[k].index != os[i].index - 1 ==> MovedUp(os, carId)[k] == os[k])
  {
    match PositionOf(os, carId)
    case None =>
    case Some(i) =>
      PrevIsAdjacent(os, i);
      match PrevAmong(os, i, |os|)
      case None =>
        assert os[i].index == 1;
      case Some(j) =>
        assert IsPrev(os, i, j);
        SwapAt(os, i, j, os[i].index - 1);
  }

  /** On a renumbered table, moving a car down keeps the indices `1..N`
      and every entry's car; a car at index N stays, any other car trades
      places with the car at the index just below it, and no other entry
      changes. */
  lemma MoveDownSpec(os: seq<CarOrder>, carId: int)
    requires Consecutive(os)
    ensures Consecutive(MovedDown(os, carId))
    ensures |MovedDown(os, carId)| == |os|
    ensures forall k :: 0 <= k < |os| ==> MovedDown(os, carId)[k].carId == os[k].carId
    ensures PositionOf(os, carId).Some? ==>
      var i := PositionOf(os, carId).value;
      && (os[i].index == |os| ==> MovedDown(os, carId) == os)
      && (os[i].index < |os| ==> MovedDown(os, carId)[i].index == os[i].index + 1)
      && (forall k :: 0 <= k < |os| && os[k].index == os[i].index + 1 ==> MovedDown(os, carId)[k].index == os[i].index)
      && (forall k :: 0 <= k < |os| && k != i && os[k].index != os[i].index + 1 ==> MovedDown(os, carId)[k] == os[k])
  {
    match PositionOf(os, carId)
    case None =>
    case Some(i) =>
      NextIsAdjacent(os, i);
      match NextAmong(os, i, |os|)
      case None =>
        assert os[i].index == |os|;
      case Some(j) =>
        assert IsNext(os, i, j);
        SwapAt(os, i, j, os[i].index + 1);
  }
}
