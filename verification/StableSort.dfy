/** `sort.SliceStable` as a function, and the reason its result is the only possible one. */
module StableSort {

  predicate Distinct<T(==)>(s: seq<T>) {
    forall i, j :: 0 <= i < j < |s| ==> s[i] != s[j]
  }

  ghost predicate SortedBy<T(!new)>(s: seq<T>, key: T -> int) {
    forall i, j :: 0 <= i < j < |s| ==> key(s[i]) <= key(s[j])
  }

  /** The items with key `k`, in order. */
  function WithKey<T>(s: seq<T>, key: T -> int, k: int): (r: seq<T>) {
    if s == [] then []
    else (if key(s[0]) == k then [s[0]] else []) + WithKey(s[1..], key, k)
  }

  /** Items with equal keys keep their relative order (so nothing is added or dropped either). */
  ghost predicate SameClasses<T(!new)>(a: seq<T>, b: seq<T>, key: T -> int) {
    forall k :: WithKey(a, key, k) == WithKey(b, key, k)
  }

  function Insert<T>(x: T, s: seq<T>, key: T -> int): (r: seq<T>) {
    if s == [] || key(x) <= key(s[0]) then [x] + s
    else [s[0]] + Insert(x, s[1..], key)
  }

  function Sort<T>(s: seq<T>, key: T -> int): (r: seq<T>) {
    if s == [] then [] else Insert(s[0], Sort(s[1..], key), key)
  }

  lemma SortPair<T>(a: T, b: T, key: T -> int)
    ensures Sort([a, b], key) == if key(a) <= key(b) then [a, b] else [b, a]
  {
    assert [a, b][1..] == [b] && [b][1..] == [];
    assert Sort([b], key) == [b] && Insert(a, [], key) == [a];
  }

  lemma {:induction false} InsertMultiset<T>(x: T, s: seq<T>, key: T -> int)
    ensures multiset(Insert(x, s, key)) == multiset{x} + multiset(s)
    decreases |s|
  {
    if s != [] && key(x) > key(s[0]) {
      InsertMultiset(x, s[1..], key);
      assert s == [s[0]] + s[1..];
    }
  }

  lemma {:induction false} SortMultiset<T>(s: seq<T>, key: T -> int)
    ensures multiset(Sort(s, key)) == multiset(s)
    decreases |s|
  {
    if s != [] {
      SortMultiset(s[1..], key);
      InsertMultiset(s[0], Sort(s[1..], key), key);
      assert s == [s[0]] + s[1..];
    }
  }

  lemma {:induction false} InsertSorted<T(!new)>(x: T, s: seq<T>, key: T -> int)
    requires SortedBy(s, key)
    ensures SortedBy(Insert(x, s, key), key)
    decreases |s|
  {
    if s != [] && key(x) > key(s[0]) {
      InsertSorted(x, s[1..], key);
      InsertMultiset(x, s[1..], key);
      var r := Insert(x, s[1..], key);
      forall y | y in r ensures key(s[0]) <= key(y) {
        assert y in multiset(r);
        assert y == x || y in s[1..];
      }
    }
  }

  lemma {:induction false} InsertWithKey<T>(x: T, s: seq<T>, key: T -> int, k: int)
    ensures WithKey(Insert(x, s, key), key, k) == WithKey([x] + s, key, k)
    decreases |s|
  {
    if s != [] && key(x) > key(s[0]) {
      InsertWithKey(x, s[1..], key, k);
      assert ([x] + s)[1..] == s && ([x] + s[1..])[1..] == s[1..];
    }
  }

  lemma {:induction false} SortWithKey<T>(s: seq<T>, key: T -> int, k: int)
    ensures WithKey(Sort(s, key), key, k) == WithKey(s, key, k)
    decreases |s|
  {
    if s != [] {
      SortWithKey(s[1..], key, k);
      InsertWithKey(s[0], Sort(s[1..], key), key, k);
      assert ([s[0]] + Sort(s[1..], key))[1..] == Sort(s[1..], key);
    }
  }

  lemma {:induction false} SortSorted<T(!new)>(s: seq<T>, key: T -> int)
    ensures SortedBy(Sort(s, key), key)
    decreases |s|
  {
    if s != [] {
      SortSorted(s[1..], key);
      InsertSorted(s[0], Sort(s[1..], key), key);
    }
  }

  /** The sort is a stable, sorted permutation. */
  lemma SortIsStable<T(!new)>(s: seq<T>, key: T -> int)
    ensures SortedBy(Sort(s, key), key)
    ensures SameClasses(Sort(s, key), s, key)
    ensures multiset(Sort(s, key)) == multiset(s)
  {
    SortSorted(s, key);
    SortMultiset(s, key);
    forall k ensures WithKey(Sort(s, key), key, k) == WithKey(s, key, k) {
      SortWithKey(s, key, k);
    }
  }

  lemma {:induction false} WithKeyMember<T>(s: seq<T>, key: T -> int, k: int)
    ensures WithKey(s, key, k) != [] <==> exists i :: 0 <= i < |s| && key(s[i]) == k
    decreases |s|
  {
    if s != [] {
      WithKeyMember(s[1..], key, k);
      if i :| 0 <= i < |s| && key(s[i]) == k {
        if i > 0 { assert s[i] == s[1..][i - 1]; }
      }
    }
  }

  lemma WithKeyTail<T>(s: seq<T>, key: T -> int, k: int)
    requires s != []
    ensures key(s[0]) == k ==> WithKey(s, key, k) != [] && WithKey(s, key, k)[1..] == WithKey(s[1..], key, k)
    ensures key(s[0]) != k ==> WithKey(s, key, k) == WithKey(s[1..], key, k)
  {
    assert [] + WithKey(s[1..], key, k) == WithKey(s[1..], key, k);
  }

  lemma SomeClassInhabited<T>(s: seq<T>, key: T -> int)
    requires s != []
    ensures exists k :: WithKey(s, key, k) != []
  {
    WithKeyTail(s, key, key(s[0]));
  }

  /** Two sorted sequences with the same key classes are the same sequence. */
  lemma {:induction false} StableSortUnique<T(!new)>(a: seq<T>, b: seq<T>, key: T -> int)
    requires SortedBy(a, key) && SortedBy(b, key) && SameClasses(a, b, key)
    ensures a == b
    decreases |a|
  {
    if a == [] {
      if b != [] {
        SomeClassInhabited(b, key);
        assert false;
      }
    } else {
      var ka := key(a[0]);
      WithKeyMember(b, key, ka);
      var kb := key(b[0]);
      WithKeyMember(a, key, kb);
      assert ka == kb;
      assert WithKey(a, key, ka)[0] == a[0] && WithKey(b, key, ka)[0] == b[0];
      forall k ensures WithKey(a[1..], key, k) == WithKey(b[1..], key, k) {
        WithKeyTail(a, key, k);
        WithKeyTail(b, key, k);
      }
      StableSortUnique(a[1..], b[1..], key);
      assert a == [a[0]] + a[1..] && b == [b[0]] + b[1..];
    }
  }

  /** Any stable sorted rearrangement of `s` is what the sort returns. */
  lemma SortUnique<T(!new)>(s: seq<T>, out: seq<T>, key: T -> int)
    ensures SortedBy(out, key) && SameClasses(out, s, key) <==> out == Sort(s, key)
  {
    SortIsStable(s, key);
    if SortedBy(out, key) && SameClasses(out, s, key) {
      assert SameClasses(out, Sort(s, key), key);
      StableSortUnique(out, Sort(s, key), key);
    }
  }

  lemma SameLength<T>(a: seq<T>, b: seq<T>)
    requires multiset(a) == multiset(b)
    ensures |a| == |b|
  {
    assert |multiset(a)| == |a| && |multiset(b)| == |b|;
  }

  lemma HeadIsLeast<T(!new)>(a: seq<T>, b: seq<T>, key: T -> int)
    requires SortedBy(b, key) && multiset(a) == multiset(b) && a != []
    ensures b != [] && a[0] in b && key(b[0]) <= key(a[0])
  {
    SameLength(a, b);
    assert a[0] in multiset(b);
    var i :| 0 <= i < |b| && b[i] == a[0];
    assert i > 0 ==> key(b[0]) <= key(b[i]);
  }

  lemma TailMultiset<T>(a: seq<T>, b: seq<T>)
    requires a != [] && b != [] && a[0] == b[0] && multiset(a) == multiset(b)
    ensures multiset(a[1..]) == multiset(b[1..])
  {
    assert a == [a[0]] + a[1..] && b == [b[0]] + b[1..];
    assert multiset(a[1..]) == multiset(a) - multiset{a[0]};
    assert multiset(b[1..]) == multiset(b) - multiset{b[0]};
  }

  /** With keys that tell the elements apart, the multiset alone fixes the sorted order. */
  lemma {:induction false} SortedPermutationUnique<T(!new)>(a: seq<T>, b: seq<T>, key: T -> int)
    requires SortedBy(a, key) && SortedBy(b, key) && multiset(a) == multiset(b)
    requires forall x, y :: x in b && y in b && key(x) == key(y) ==> x == y
    ensures a == b
    decreases |a|
  {
    SameLength(a, b);
    if a != [] {
      HeadIsLeast(a, b, key);
      HeadIsLeast(b, a, key);
      assert a[0] == b[0];
      TailMultiset(a, b);
      SortedPermutationUnique(a[1..], b[1..], key);
    }
  }

  // ---- sorting through a projection --------------------------------------

  function Map<A, B>(s: seq<A>, f: A -> B): (r: seq<B>)
    ensures |r| == |s|
    ensures forall i :: 0 <= i < |s| ==> r[i] == f(s[i])
  {
    if s == [] then [] else [f(s[0])] + Map(s[1..], f)
  }

  lemma MapConcat<A, B>(s: seq<A>, t: seq<A>, f: A -> B)
    ensures Map(s + t, f) == Map(s, f) + Map(t, f)
  {
    hide Map;
    var whole, parts := Map(s + t, f), Map(s, f) + Map(t, f);
    assert forall i :: 0 <= i < |whole| ==> whole[i] == parts[i];
  }

  lemma {:induction false} InsertMap<A, B>(x: A, s: seq<A>, f: A -> B, keyA: A -> int, keyB: B -> int)
    requires forall a :: a in s || a == x ==> keyA(a) == keyB(f(a))
    ensures Map(Insert(x, s, keyA), f) == Insert(f(x), Map(s, f), keyB)
    decreases |s|
  {
    if s != [] {
      assert Map(s, f)[1..] == Map(s[1..], f);
      if keyA(x) > keyA(s[0]) {
        InsertMap(x, s[1..], f, keyA, keyB);
        var r := Insert(x, s[1..], keyA);
        assert ([s[0]] + r)[1..] == r;
      } else {
        assert ([x] + s)[1..] == s;
      }
    }
  }

  lemma {:induction false} SortMap<A, B>(s: seq<A>, f: A -> B, keyA: A -> int, keyB: B -> int)
    requires forall a :: a in s ==> keyA(a) == keyB(f(a))
    ensures Map(Sort(s, keyA), f) == Sort(Map(s, f), keyB)
    decreases |s|
  {
    if s != [] {
      SortMap(s[1..], f, keyA, keyB);
      SortMultiset(s[1..], keyA);
      forall a | a in Sort(s[1..], keyA) || a == s[0] ensures keyA(a) == keyB(f(a)) {
        assert a in Sort(s[1..], keyA) ==> a in multiset(Sort(s[1..], keyA));
      }
      InsertMap(s[0], Sort(s[1..], keyA), f, keyA, keyB);
      assert Map(s, f)[1..] == Map(s[1..], f);
    }
  }

  // ---- filtering ------------------------------------------------------------

  function Keep<T>(s: seq<T>, p: T -> bool): (r: seq<T>) {
    if s == [] then [] else (if p(s[0]) then [s[0]] else []) + Keep(s[1..], p)
  }

  lemma {:induction false} KeepMember<T>(s: seq<T>, p: T -> bool, x: T)
    ensures x in Keep(s, p) <==> x in s && p(x)
    decreases |s|
  {
    if s != [] {
      KeepMember(s[1..], p, x);
      assert s == [s[0]] + s[1..];
    }
  }

  lemma KeepMembers<T(!new)>(s: seq<T>, p: T -> bool)
    ensures forall x :: x in Keep(s, p) <==> x in s && p(x)
  {
    forall x ensures x in Keep(s, p) <==> x in s && p(x) {
      KeepMember(s, p, x);
    }
  }

  lemma {:induction false} KeepConcat<T>(s: seq<T>, t: seq<T>, p: T -> bool)
    ensures Keep(s + t, p) == Keep(s, p) + Keep(t, p)
    decreases |s|
  {
    if s == [] {
      assert s + t == t;
    } else {
      KeepConcat(s[1..], t, p);
      assert (s + t)[1..] == s[1..] + t;
    }
  }

  lemma {:induction false} KeepAll<T>(s: seq<T>, p: T -> bool)
    requires forall x :: x in s ==> p(x)
    ensures Keep(s, p) == s
    decreases |s|
  {
    if s != [] {
      KeepAll(s[1..], p);
      assert s == [s[0]] + s[1..];
    }
  }

  /** Keeping everything is the only way to keep the sequence unchanged. */
  lemma {:induction false} KeepUnchanged<T(!new)>(s: seq<T>, p: T -> bool)
    ensures Keep(s, p) == s <==> forall x :: x in s ==> p(x)
  {
    KeepMembers(s, p);
    if forall x :: x in s ==> p(x) {
      KeepAll(s, p);
    }
  }

  lemma {:induction false} KeepCount<T>(s: seq<T>, p: T -> bool, x: T)
    ensures multiset(Keep(s, p))[x] == if p(x) then multiset(s)[x] else 0
    decreases |s|
  {
    if s != [] {
      KeepCount(s[1..], p, x);
      assert s == [s[0]] + s[1..];
    }
  }

  lemma KeepMultiset<T(!new)>(a: seq<T>, b: seq<T>, p: T -> bool)
    requires multiset(a) == multiset(b)
    ensures multiset(Keep(a, p)) == multiset(Keep(b, p))
  {
    var ma, mb := multiset(Keep(a, p)), multiset(Keep(b, p));
    forall x: T ensures ma[x] == mb[x] {
      KeepCount(a, p, x);
      KeepCount(b, p, x);
    }
    assert ma == mb;
  }

  lemma SpliceMultiset<B>(l: seq<B>, x: B, r: seq<B>)
    ensures multiset(l + [x] + r) == multiset{x} + multiset(l + r)
  {
  }

  lemma MapSplit<A, B>(s: seq<A>, i: nat, f: A -> B)
    requires i < |s|
    ensures Map(s, f) == Map(s[..i], f) + [f(s[i])] + Map(s[i + 1..], f)
  {
    hide *;
    var whole, parts := Map(s, f), Map(s[..i], f) + [f(s[i])] + Map(s[i + 1..], f);
    assert |whole| == |parts|;
    assert forall k :: 0 <= k < |whole| ==> whole[k] == parts[k];
  }

  lemma MapRemove<A, B>(s: seq<A>, i: nat, f: A -> B)
    requires i < |s|
    ensures multiset(Map(s, f)) == multiset{f(s[i])} + multiset(Map(s[..i] + s[i + 1..], f))
  {
    hide *;
    MapSplit(s, i, f);
    MapConcat(s[..i], s[i + 1..], f);
    SpliceMultiset(Map(s[..i], f), f(s[i]), Map(s[i + 1..], f));
  }

  lemma MultisetRemove<A>(s: seq<A>, i: nat)
    requires i < |s|
    ensures multiset(s[..i] + s[i + 1..]) == multiset(s) - multiset{s[i]}
  {
    assert s == s[..i] + [s[i]] + s[i + 1..];
  }

  lemma FindHead<A>(a: seq<A>, b: seq<A>) returns (i: nat)
    requires a != [] && multiset(a) == multiset(b)
    ensures i < |b| && b[i] == a[0]
    ensures multiset(a[1..]) == multiset(b[..i] + b[i + 1..])
  {
    hide *;
    assert a[0] in multiset(b);
    i :| 0 <= i < |b| && b[i] == a[0];
    MultisetRemove(a, 0);
    MultisetRemove(b, i);
    assert a[..0] + a[1..] == a[1..];
  }

  lemma {:induction false} MapMultiset<A, B>(a: seq<A>, b: seq<A>, f: A -> B)
    requires multiset(a) == multiset(b)
    ensures multiset(Map(a, f)) == multiset(Map(b, f))
    decreases |a|
  {
    hide *;
    if a == [] {
      SameLength(a, b);
      assert a == b;
    } else {
      var i := FindHead(a, b);
      var b' := b[..i] + b[i + 1..];
      assert a[..0] + a[1..] == a[1..];
      MapRemove(a, 0, f);
      MapRemove(b, i, f);
      MapMultiset(a[1..], b', f);
    }
  }

  ghost predicate Has<T(!new)>(s: seq<T>, p: T -> bool) {
    exists x :: x in s && p(x)
  }

  /** Some `bad` item stands before some `good` one. */
  ghost predicate Overtakes<T(!new)>(s: seq<T>, bad: T -> bool, good: T -> bool) {
    s != [] && ((bad(s[0]) && Has(s[1..], good)) || Overtakes(s[1..], bad, good))
  }

  lemma {:induction false} OvertakesIndices<T(!new)>(s: seq<T>, bad: T -> bool, good: T -> bool)
    ensures Overtakes(s, bad, good) <==> exists i, j :: 0 <= i < j < |s| && bad(s[i]) && good(s[j])
    decreases |s|
  {
    if s != [] {
      OvertakesIndices(s[1..], bad, good);
      if i, j :| 0 <= i < j < |s| && bad(s[i]) && good(s[j]) {
        assert s[1..][j - 1] == s[j];
        assert i > 0 ==> s[1..][i - 1] == s[i];
      }
      if bad(s[0]) && Has(s[1..], good) {
        var j :| 0 <= j < |s[1..]| && good(s[1..][j]);
        assert s[j + 1] == s[1..][j];
      } else if Overtakes(s[1..], bad, good) {
        var i, j :| 0 <= i < j < |s[1..]| && bad(s[1..][i]) && good(s[1..][j]);
        assert s[i + 1] == s[1..][i] && s[j + 1] == s[1..][j];
      }
    }
  }

  ghost predicate HasBeyond<T(!new)>(s: seq<T>, key: T -> int, k: int, good: T -> bool) {
    exists x :: x in s && good(x) && key(x) > k
  }

  lemma HasHead<T(!new)>(s: seq<T>, key: T -> int, k: int, p: T -> bool)
    requires s != []
    ensures Has(s, p) <==> p(s[0]) || Has(s[1..], p)
    ensures HasBeyond(s, key, k, p) <==> (p(s[0]) && key(s[0]) > k) || HasBeyond(s[1..], key, k, p)
  {
    assert s == [s[0]] + s[1..];
    if x :| x in s && p(x) && key(x) > k { assert x == s[0] || x in s[1..]; }
    if x :| x in s && p(x) { assert x == s[0] || x in s[1..]; }
  }

  lemma {:induction false} HasInClass<T(!new)>(s: seq<T>, key: T -> int, k: int, p: T -> bool)
    requires forall x :: x in s ==> key(x) >= k
    ensures Has(s, p) <==> Has(WithKey(s, key, k), p) || HasBeyond(s, key, k, p)
    decreases |s|
  {
    if s != [] {
      HasInClass(s[1..], key, k, p);
      HasHead(s, key, k, p);
      WithKeyTail(s, key, k);
      if key(s[0]) == k {
        HasHead(WithKey(s, key, k), key, k, p);
      }
    }
  }

  /** When all bad items share one key, a sorted sequence lets one overtake a good item only
      towards a later class or inside their own class. */
  lemma {:induction false} SortedOvertakes<T(!new)>(s: seq<T>, key: T -> int, k: int, bad: T -> bool, good: T -> bool)
    requires SortedBy(s, key)
    requires forall x :: x in s && bad(x) ==> key(x) == k
    ensures Overtakes(s, bad, good) <==>
            (Has(s, bad) && HasBeyond(s, key, k, good)) || Overtakes(WithKey(s, key, k), bad, good)
    decreases |s|
  {
    if s != [] {
      var t := s[1..];
      SortedOvertakes(t, key, k, bad, good);
      WithKeyTail(s, key, k);
      HasHead(s, key, k, bad);
      HasHead(s, key, k, good);
      if key(s[0]) == k {
        HasInClass(t, key, k, good);
      } else if key(s[0]) > k {
        assert !Has(t, bad);
      }
    }
  }
}
