/** Restoring a captured wire order: golang/utils.go, wireRank to orderExtensionsByWireOrder. */
module WireOrder {
  import opened Text
  import opened StableSort

  const ALPS_OLD: U16 := 0x4469
  const ALPS_NEW: U16 := 0x44cd

  /** id -> index of its first appearance in the captured order. */
  function WireRank(order: seq<U16>): (rank: map<U16, nat>) {
    if order == [] then map[]
    else
      var last := |order| - 1;
      var rank := WireRank(order[..last]);
      if order[last] in rank then rank else rank[order[last] := last]
  }

  lemma {:induction false} WireRankFirstIndex(order: seq<U16>)
    ensures forall id :: id in WireRank(order) <==> id in order
    ensures forall id :: id in WireRank(order) ==>
              var r := WireRank(order)[id];
              r < |order| && order[r] == id && forall j :: 0 <= j < r ==> order[j] != id
    decreases |order|
  {
    if order != [] {
      WireRankFirstIndex(order[..|order| - 1]);
    }
  }

  /** `wireRank`, in the source's loop form. */
  method BuildWireRank(order: seq<U16>) returns (rank: map<U16, nat>)
    ensures rank == WireRank(order)
    ensures forall id :: id in rank <==> id in order
    ensures forall id :: id in rank ==> rank[id] < |order| && order[rank[id]] == id && id !in order[..rank[id]]
  {
    rank := map[];
    for i := 0 to |order|
      invariant rank == WireRank(order[..i])
    {
      assert order[..i + 1][..i] == order[..i];
      if order[i] !in rank {
        rank := rank[order[i] := i];
      }
    }
    assert order[..|order|] == order;
    WireRankFirstIndex(order);
  }

  /** `rankOf`: ALPS draft ids stand in for each other; any other miss is looked up as id 0. */
  function RankOf(rank: map<U16, nat>, id: U16): Option<nat> {
    if id in rank then Some(rank[id])
    else
      var alt: U16 := if id == ALPS_OLD then ALPS_NEW else if id == ALPS_NEW then ALPS_OLD else 0;
      if alt in rank then Some(rank[alt]) else None
  }

  /** The comparator of `orderByWireOrder`. */
  predicate CipherLess(rank: map<U16, nat>, a: U16, b: U16) {
    if (a in rank) != (b in rank) then a in rank
    else a in rank && rank[a] < rank[b]
  }

  /** The comparator of `orderExtensionsByWireOrder`. */
  predicate ExtLess(rank: map<U16, nat>, a: U16, b: U16) {
    var ra, rb := RankOf(rank, a), RankOf(rank, b);
    if ra.Some? != rb.Some? then ra.Some?
    else ra.Some? && ra.value < rb.value
  }

  /** Sort keys that stand for the comparators: unranked items share the one key after all ranks. */
  function CipherKey(order: seq<U16>): U16 -> int {
    (id: U16) => if id in WireRank(order) then WireRank(order)[id] else |order|
  }

  function ExtKey(order: seq<U16>): U16 -> int {
    (id: U16) => match RankOf(WireRank(order), id) case Some(r) => r case None => |order|
  }

  /** Both comparators are exactly "smaller key first", so they are strict weak orders. */
  lemma ComparatorsAreKeys(order: seq<U16>, a: U16, b: U16)
    ensures CipherLess(WireRank(order), a, b) <==> CipherKey(order)(a) < CipherKey(order)(b)
    ensures ExtLess(WireRank(order), a, b) <==> ExtKey(order)(a) < ExtKey(order)(b)
  {
    WireRankFirstIndex(order);
  }

  /** `orderByWireOrder(items, wireRank(order))`. */
  function OrderCiphers(items: seq<U16>, order: seq<U16>): (out: seq<U16>) {
    if |WireRank(order)| == 0 || |items| < 2 then items else Sort(items, CipherKey(order))
  }

  /** `orderExtensionsByWireOrder` seen through the extension ids. */
  function OrderExtIds(ids: seq<U16>, order: seq<U16>): (out: seq<U16>) {
    if |WireRank(order)| == 0 || |ids| < 2 then ids else Sort(ids, ExtKey(order))
  }

  lemma ShortOrFlatIsSorted(s: seq<U16>, key: U16 -> int)
    requires |s| < 2 || forall x, y :: x in s && y in s ==> key(x) == key(y)
    ensures Sort(s, key) == s
  {
    SortUnique(s, s, key);
  }

  lemma EmptyRank(order: seq<U16>)
    requires |WireRank(order)| == 0
    ensures forall id :: CipherKey(order)(id) == |order| && ExtKey(order)(id) == |order|
  {
    assert WireRank(order).Keys == {};
  }

  /** The early return changes nothing: both functions are the stable sort by key. */
  lemma OrderIsStableSort(items: seq<U16>, order: seq<U16>)
    ensures OrderCiphers(items, order) == Sort(items, CipherKey(order))
    ensures OrderExtIds(items, order) == Sort(items, ExtKey(order))
  {
    if |WireRank(order)| == 0 {
      EmptyRank(order);
    }
    if |WireRank(order)| == 0 || |items| < 2 {
      ShortOrFlatIsSorted(items, CipherKey(order));
      ShortOrFlatIsSorted(items, ExtKey(order));
    }
  }

  /** The result is the one and only stable permutation sorted by the comparator. */
  lemma CipherOrderUnique(items: seq<U16>, order: seq<U16>, out: seq<U16>)
    ensures out == OrderCiphers(items, order) <==>
            SortedBy(out, CipherKey(order)) && SameClasses(out, items, CipherKey(order))
    ensures multiset(OrderCiphers(items, order)) == multiset(items)
  {
    OrderIsStableSort(items, order);
    SortUnique(items, out, CipherKey(order));
    SortMultiset(items, CipherKey(order));
  }

  lemma ExtOrderUnique(ids: seq<U16>, order: seq<U16>, out: seq<U16>)
    ensures out == OrderExtIds(ids, order) <==>
            SortedBy(out, ExtKey(order)) && SameClasses(out, ids, ExtKey(order))
    ensures multiset(OrderExtIds(ids, order)) == multiset(ids)
  {
    OrderIsStableSort(ids, order);
    SortUnique(ids, out, ExtKey(order));
    SortMultiset(ids, ExtKey(order));
  }

  lemma DistinctRank(w: seq<U16>)
    requires Distinct(w)
    ensures forall i :: 0 <= i < |w| ==> w[i] in WireRank(w) && WireRank(w)[w[i]] == i
  {
    WireRankFirstIndex(w);
  }

  /** Ciphers come back in exactly the captured order, from any permutation. */
  lemma CipherOrderRecovers(w: seq<U16>, s: seq<U16>)
    requires Distinct(w) && multiset(s) == multiset(w)
    ensures OrderCiphers(s, w) == w
  {
    var key := CipherKey(w);
    DistinctRank(w);
    assert forall i :: 0 <= i < |w| ==> key(w[i]) == i;
    OrderIsStableSort(s, w);
    SortIsStable(s, key);
    SortedPermutationUnique(Sort(s, key), w, key);
  }

  function Twin(id: U16): U16 {
    if id == ALPS_OLD then ALPS_NEW else if id == ALPS_NEW then ALPS_OLD else id
  }

  /** `v` is `w`, possibly with one ALPS draft id written as the other. */
  predicate SameUpToAlps(w: seq<U16>, v: seq<U16>) {
    && |v| == |w|
    && forall i :: 0 <= i < |w| ==> v[i] == w[i] || (v[i] == Twin(w[i]) && v[i] !in w)
  }

  /** Extensions come back in the captured order, even when the capture has the other ALPS draft id. */
  lemma ExtOrderRecovers(w: seq<U16>, v: seq<U16>, s: seq<U16>)
    requires Distinct(w) && SameUpToAlps(w, v) && multiset(s) == multiset(v)
    ensures OrderExtIds(s, w) == v
  {
    var key := ExtKey(w);
    DistinctRank(w);
    WireRankFirstIndex(w);
    forall i | 0 <= i < |w| ensures key(v[i]) == i {
      if v[i] != w[i] {
        assert Twin(v[i]) == w[i];
      }
    }
    OrderIsStableSort(s, w);
    SortIsStable(s, key);
    SortedPermutationUnique(Sort(s, key), v, key);
  }

  // ---- items the capture does not list -----------------------------------

  /** Unlisted ciphers go last, in their original order. */
  lemma UnlistedCiphersGoLast(items: seq<U16>, order: seq<U16>)
    ensures var out := OrderCiphers(items, order);
            (forall i, j :: 0 <= i < j < |out| && out[i] !in order ==> out[j] !in order)
            && WithKey(out, CipherKey(order), |order|) == WithKey(items, CipherKey(order), |order|)
    ensures forall id :: CipherKey(order)(id) == |order| <==> id !in order
  {
    WireRankFirstIndex(order);
    OrderIsStableSort(items, order);
    SortIsStable(items, CipherKey(order));
  }

  /** An extension the capture lists, under its own id or its ALPS twin. */
  function Listed(order: seq<U16>): U16 -> bool {
    (id: U16) => id in order || Twin(id) in order
  }

  function Unlisted(order: seq<U16>): U16 -> bool {
    (id: U16) => !Listed(order)(id)
  }

  lemma ExtKeyCases(order: seq<U16>, id: U16)
    ensures Listed(order)(id) ==> 0 <= ExtKey(order)(id) < |order|
    ensures Unlisted(order)(id) && 0 !in order ==> ExtKey(order)(id) == |order|
    ensures Unlisted(order)(id) && 0 in order && Twin(id) == id ==> ExtKey(order)(id) == ExtKey(order)(0)
    ensures Unlisted(order)(id) && Twin(id) != id ==> ExtKey(order)(id) == |order|
  {
    WireRankFirstIndex(order);
  }

  /** The plain-miss fallback to rank[0], seen as a set of ids. */
  function Misplaced(order: seq<U16>): U16 -> bool {
    (id: U16) => Unlisted(order)(id) && Twin(id) == id && 0 in order
  }

  /** An unlisted extension can overtake a listed one in exactly one way: id 0 is in the capture, the
      unlisted id is no ALPS id, and the listed one either ranks after id 0, or ties with id 0 and
      already stood behind the unlisted one. */
  lemma UnlistedExtensionsGoLastIff(ids: seq<U16>, order: seq<U16>)
    ensures var key, r0 := ExtKey(order), ExtKey(order)(0);
            Overtakes(OrderExtIds(ids, order), Unlisted(order), Listed(order)) <==>
              (Has(ids, Misplaced(order)) && HasBeyond(ids, key, r0, Listed(order)))
              || Overtakes(WithKey(ids, key, r0), Misplaced(order), Listed(order))
  {
    hide WireRank, RankOf, Sort, WithKey, Overtakes, OrderExtIds, Twin;
    var key, r0 := ExtKey(order), ExtKey(order)(0);
    var out := OrderExtIds(ids, order);
    OrderIsStableSort(ids, order);
    SortIsStable(ids, key);
    assert WithKey(out, key, r0) == WithKey(ids, key, r0);
    assert forall x :: x in out <==> x in ids by {
      assert forall x :: x in out <==> x in multiset(out);
    }
    forall x ensures Misplaced(order)(x) ==> key(x) == r0 {
      ExtKeyCases(order, x);
    }
    SortedOvertakes(out, key, r0, Misplaced(order), Listed(order));
    OvertakesIndices(out, Misplaced(order), Listed(order));
    OvertakesIndices(out, Unlisted(order), Listed(order));
    if i, j :| 0 <= i < j < |out| && Unlisted(order)(out[i]) && Listed(order)(out[j]) {
      ExtKeyCases(order, out[i]);
      ExtKeyCases(order, out[j]);
      assert Misplaced(order)(out[i]);
    }
  }

  lemma PairOrder(a: U16, b: U16, order: seq<U16>)
    ensures OrderExtIds([a, b], order) == if ExtKey(order)(a) <= ExtKey(order)(b) then [a, b] else [b, a]
  {
    SortPair<U16>(a, b, ExtKey(order));
    OrderIsStableSort([a, b], order);
  }

  lemma ListedRank(order: seq<U16>, id: U16)
    requires id in order
    ensures 0 <= ExtKey(order)(id) < |order| && order[ExtKey(order)(id)] == id
  {
    WireRankFirstIndex(order);
  }

  lemma PairKeys(a: U16, b: U16, with0: seq<U16>, without0: seq<U16>)
    requires a != 0 && b != 0 && a != b && Twin(a) == a
    requires |with0| == 2 && with0[0] == 0 && with0[1] == b && |without0| == 1 && without0[0] == b
    ensures ExtKey(with0)(a) <= ExtKey(with0)(b) && Unlisted(with0)(a) && Listed(with0)(b)
    ensures ExtKey(without0)(a) > ExtKey(without0)(b)
  {
    hide WireRank, RankOf;
    ListedRank(with0, b);
    ListedRank(with0, 0);
    ExtKeyCases(with0, a);
    ExtKeyCases(without0, a);
    ExtKeyCases(without0, b);
  }

  /** A capture "0-b" sends any unlisted plain extension `a` in front of the listed `b`; a capture
      without id 0 does not. For instance a == 5 (status_request) and b == 23. */
  lemma UnlistedExtensionOvertakes(a: U16, b: U16, with0: seq<U16>, without0: seq<U16>)
    requires a != 0 && b != 0 && a != b && Twin(a) == a
    requires |with0| == 2 && with0[0] == 0 && with0[1] == b && |without0| == 1 && without0[0] == b
    ensures OrderExtIds([a, b], with0) == [a, b] && Unlisted(with0)(a) && Listed(with0)(b)
    ensures OrderExtIds([a, b], without0) == [b, a]
  {
    PairOrder(a, b, with0);
    PairOrder(a, b, without0);
    PairKeys(a, b, with0, without0);
  }
}
