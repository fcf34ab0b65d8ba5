/** The nearest-shop ranking of loadAndShowShops: keep the shops with truthy
    coordinates, attach the distance from the user, sort ascending by distance
    (Array.prototype.sort is stable) and keep the first five. The Haversine distance
    itself is a parameter: any function from two coordinates to a real number. */
module Ranking {
  import opened Geo
  import opened Seqs

  datatype RankedShop = RankedShop(shop: Shop, distance: real)

  /** `slice(0, 5)`. */
  const MaxShown: nat := 5

  /** `shop.coordinates && shop.coordinates.latitude && shop.coordinates.longitude`. */
  predicate HasCoordinates(s: Shop) {
    IsTruthy(s.coordinates.latitude) && IsTruthy(s.coordinates.longitude)
  }

  /** The filtered shops with their distances: the list the sort receives. */
  function Candidates(shops: seq<Shop>, from: Coord, distance: (Coord, Coord) -> real): seq<RankedShop> {
    var located := Filter(shops, HasCoordinates);
    seq(|located|, k requires 0 <= k < |located| => RankedShop(located[k], distance(from, located[k].coordinates)))
  }

  predicate SortedByDistance(s: seq<RankedShop>) {
    forall i, j :: 0 <= i < j < |s| ==> s[i].distance <= s[j].distance
  }

  /** Place `x` after every element of `s` that is not farther than `x`. */
  function InsertByDistance(s: seq<RankedShop>, x: RankedShop): seq<RankedShop> {
    if |s| == 0 then [x]
    else if s[|s| - 1].distance <= x.distance then s + [x]
    else InsertByDistance(s[..|s| - 1], x) + [s[|s| - 1]]
  }

  /** Stable insertion sort on `a.distance - b.distance`. */
  function SortByDistance(s: seq<RankedShop>): seq<RankedShop> {
    if |s| == 0 then [] else InsertByDistance(SortByDistance(s[..|s| - 1]), s[|s| - 1])
  }

  function Take<T>(s: seq<T>, n: nat): seq<T> {
    if |s| <= n then s else s[..n]
  }

  /** `shops.filter(...).map(...).sort(...).slice(0, 5)`. */
  function Rank(shops: seq<Shop>, from: Coord, distance: (Coord, Coord) -> real): seq<RankedShop> {
    Take(SortByDistance(Candidates(shops, from, distance)), MaxShown)
  }

  function SameDistance(d: real): RankedShop -> bool {
    (x: RankedShop) => x.distance == d
  }

  /** The shops at distance exactly `d`, in their order in `s`. */
  function AtDistance(s: seq<RankedShop>, d: real): seq<RankedShop> {
    Filter(s, SameDistance(d))
  }

  // ---------------------------------------------------------------- the sort

  lemma {:induction false} InsertPermutes(s: seq<RankedShop>, x: RankedShop)
    ensures multiset(InsertByDistance(s, x)) == multiset(s) + multiset{x}
  {
    if |s| > 0 && s[|s| - 1].distance > x.distance {
      InsertPermutes(s[..|s| - 1], x);
      assert s == s[..|s| - 1] + [s[|s| - 1]];
    }
  }

  lemma {:induction false} InsertSorted(s: seq<RankedShop>, x: RankedShop)
    requires SortedByDistance(s)
    ensures SortedByDistance(InsertByDistance(s, x))
  {
    if |s| > 0 && s[|s| - 1].distance > x.distance {
      var init := s[..|s| - 1];
      var last := s[|s| - 1];
      InsertSorted(init, x);
      InsertPermutes(init, x);
      var r := InsertByDistance(init, x);
      forall i | 0 <= i < |r| ensures r[i].distance <= last.distance {
        assert r[i] in multiset(r);
        assert r[i] in multiset(init) || r[i] == x;
      }
    }
  }

  /** Inserting into a sorted list puts `x` behind every shop at its own distance. */
  lemma {:induction false} InsertStable(s: seq<RankedShop>, x: RankedShop, d: real)
    requires SortedByDistance(s)
    ensures AtDistance(InsertByDistance(s, x), d) == AtDistance(s, d) + AtDistance([x], d)
  {
    if |s| > 0 {
      var init := s[..|s| - 1];
      var last := s[|s| - 1];
      assert s == init + [last];
      if last.distance <= x.distance {
        FilterAppend(s, [x], SameDistance(d));
      } else {
        InsertStable(init, x, d);
        FilterAppend(InsertByDistance(init, x), [last], SameDistance(d));
        FilterAppend(init, [last], SameDistance(d));
        assert AtDistance([x], d) == [] || AtDistance([last], d) == [];
      }
    }
  }

  lemma {:induction false} SortSpec(s: seq<RankedShop>)
    ensures SortedByDistance(SortByDistance(s))
    ensures multiset(SortByDistance(s)) == multiset(s)
  {
    if |s| > 0 {
      var init := s[..|s| - 1];
      SortSpec(init);
      InsertSorted(SortByDistance(init), s[|s| - 1]);
      InsertPermutes(SortByDistance(init), s[|s| - 1]);
      assert s == init + [s[|s| - 1]];
    }
  }

  /** Stability: among shops at the same distance the sort keeps their original order. */
  lemma {:induction false} SortStable(s: seq<RankedShop>, d: real)
    ensures AtDistance(SortByDistance(s), d) == AtDistance(s, d)
  {
    if |s| > 0 {
      var init := s[..|s| - 1];
      SortStable(init, d);
      SortSpec(init);
      InsertStable(SortByDistance(init), s[|s| - 1], d);
      assert s == init + [s[|s| - 1]];
      FilterAppend(init, [s[|s| - 1]], SameDistance(d));
    }
  }

  // ---------------------------------------------------------------- the ranking

  /** At most five shops are offered, and fewer only when fewer have coordinates. */
  lemma RankSize(shops: seq<Shop>, from: Coord, distance: (Coord, Coord) -> real)
    ensures |Rank(shops, from, distance)| <= MaxShown
    ensures |Rank(shops, from, distance)| == if |Filter(shops, HasCoordinates)| <= MaxShown then |Filter(shops, HasCoordinates)| else MaxShown
  {
    SortSpec(Candidates(shops, from, distance));
    assert |multiset(SortByDistance(Candidates(shops, from, distance)))| == |Filter(shops, HasCoordinates)|;
  }

  /** Every offered shop comes from the input, has truthy coordinates and carries its distance from the user. */
  lemma RankOnlyLocated(shops: seq<Shop>, from: Coord, distance: (Coord, Coord) -> real)
    ensures forall x :: x in Rank(shops, from, distance) ==>
      x.shop in shops && HasCoordinates(x.shop) && x.distance == distance(from, x.shop.coordinates)
  {
    var c := Candidates(shops, from, distance);
    var sorted := SortByDistance(c);
    SortSpec(c);
    forall x | x in Rank(shops, from, distance)
      ensures x.shop in shops && HasCoordinates(x.shop) && x.distance == distance(from, x.shop.coordinates)
    {
      assert x in sorted;
      assert x in multiset(c);
      var k :| 0 <= k < |c| && c[k] == x;
      var located := Filter(shops, HasCoordinates);
      assert located[k] in located;
      FilterMembers(shops, HasCoordinates, located[k]);
    }
  }

  /** The offered list is ordered from nearest to farthest. */
  lemma RankSorted(shops: seq<Shop>, from: Coord, distance: (Coord, Coord) -> real)
    ensures SortedByDistance(Rank(shops, from, distance))
  {
    SortSpec(Candidates(shops, from, distance));
  }

  /** No located shop left out is nearer than any shop that is offered. */
  lemma RankNearest(shops: seq<Shop>, from: Coord, distance: (Coord, Coord) -> real)
    ensures forall y, i ::
              y in Candidates(shops, from, distance) && y !in Rank(shops, from, distance) && 0 <= i < |Rank(shops, from, distance)|
              ==> Rank(shops, from, distance)[i].distance <= y.distance
  {
    var c := Candidates(shops, from, distance);
    var sorted := SortByDistance(c);
    var r := Rank(shops, from, distance);
    SortSpec(c);
    forall y, i | y in c && y !in r && 0 <= i < |r| ensures r[i].distance <= y.distance {
      assert y in multiset(sorted);
      var j :| 0 <= j < |sorted| && sorted[j] == y;
      assert j >= |r|;
      assert r[i] == sorted[i];
    }
  }

  /** The offered list is the head of the stable sort of all located shops:
      for every distance, the shops at that distance keep the input order. */
  lemma RankStablePrefix(shops: seq<Shop>, from: Coord, distance: (Coord, Coord) -> real)
    ensures Rank(shops, from, distance) <= SortByDistance(Candidates(shops, from, distance))
    ensures forall d :: AtDistance(SortByDistance(Candidates(shops, from, distance)), d) == AtDistance(Candidates(shops, from, distance), d)
  {
    forall d ensures AtDistance(SortByDistance(Candidates(shops, from, distance)), d) == AtDistance(Candidates(shops, from, distance), d) {
      SortStable(Candidates(shops, from, distance), d);
    }
  }
}
