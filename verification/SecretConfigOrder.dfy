/** The numbered `secret-config-<n>` annotations of the Vault provider and the order they are used in. */
module SecretConfigOrder {
  import opened GoText

  const PREFIX := "vault.opstree.secret.manager/secret-config-"

  /** An annotation key that the filter keeps. */
  type Key = k: string | PREFIX <= k witness PREFIX

  /** The two readings of a key's number that the comparator mixes: left operand and right operand. */
  function LeftNumber(k: Key): int
  {
    LeftPiece(k);
    Atoi(Split(k, PREFIX)[1])
  }

  function RightNumber(k: Key): int
  {
    RightPiece(k);
    Atoi(SplitAfter(k, PREFIX)[1])
  }

  /** The comparator given to `sort.Slice`. */
  predicate Less(a: Key, b: Key)
  {
    LeftNumber(a) < RightNumber(b)
  }

  /** What follows the leading prefix, up to a second occurrence of the prefix if there is one. */
  function Tail(k: Key): string
  {
    k[|PREFIX|..]
  }

  predicate Once(k: Key)
  {
    Index(Tail(k), PREFIX) < 0
  }

  function Middle(k: Key): string
  {
    if Once(k) then Tail(k) else Tail(k)[..Index(Tail(k), PREFIX)]
  }

  lemma LeftPiece(k: Key)
    ensures |Split(k, PREFIX)| >= 2 && Split(k, PREFIX)[1] == Middle(k)
  {
    assert Index(k, PREFIX) == 0;
    assert Split(k, PREFIX) == [k[..0]] + Split(Tail(k), PREFIX);
  }

  lemma RightPiece(k: Key)
    ensures |SplitAfter(k, PREFIX)| >= 2
    ensures SplitAfter(k, PREFIX)[1] == if Once(k) then Tail(k) else Middle(k) + PREFIX
  {
    assert Index(k, PREFIX) == 0;
    assert SplitAfter(k, PREFIX) == [k[..|PREFIX|]] + SplitAfter(Tail(k), PREFIX);
    if !Once(k) {
      var m := Index(Tail(k), PREFIX);
      assert OccursAt(Tail(k), PREFIX, m);
      assert Tail(k)[..m + |PREFIX|] == Tail(k)[..m] + PREFIX;
    }
  }

  /** The right reading stumbles over a repeated prefix, unless the number before it already overflowed. */
  lemma Readings(k: Key)
    ensures LeftNumber(k) == Atoi(Middle(k))
    ensures RightNumber(k) == if !Once(k) && ScanNumber(Middle(k)).Number? then 0 else Atoi(Middle(k))
  {
    LeftPiece(k);
    RightPiece(k);
    if !Once(k) {
      NumberSpoiled(Middle(k), PREFIX);
    }
  }

  /**
   * Exactly when the two readings of one key agree: the prefix is not repeated, or the text before
   * the repetition does not read as a nonzero number that fits 64 bits.
   */
  lemma ReadingsAgreeIff(k: Key)
    ensures LeftNumber(k) == RightNumber(k) <==>
            Once(k) || !ScanNumber(Middle(k)).Number? || Atoi(Middle(k)) == 0
  {
    Readings(k);
  }

  /** Exactly when the comparator orders a key before itself. */
  lemma IrreflexiveIff(k: Key)
    ensures Less(k, k) <==> !Once(k) && ScanNumber(Middle(k)).Number? && Atoi(Middle(k)) < 0
  {
    Readings(k);
  }

  lemma {:induction false} IndexPastText(m: string, t: string)
    requires 'v' !in m
    ensures Index(m + PREFIX + t, PREFIX) == |m|
    decreases |m|
  {
    var s := m + PREFIX + t;
    if m == "" {
      assert s == PREFIX + t;
    } else {
      assert s[0] == m[0] != 'v' && PREFIX[0] == 'v';
      assert s[1..] == m[1..] + PREFIX + t;
      IndexPastText(m[1..], t);
    }
  }

  /**
   * A concrete key on which the comparator is no ordering at all. It holds two slashes, which
   * Kubernetes refuses in annotation keys, but only after the webhook has seen the pod.
   */
  lemma RepeatedPrefixBreaksComparator()
    ensures Less(PREFIX + "-5" + PREFIX, PREFIX + "-5" + PREFIX)
  {
    hide Index, LeftNumber, RightNumber;
    var k: Key := PREFIX + "-5" + PREFIX;
    IndexPastText("-5", "");
    assert Tail(k) == "-5" + PREFIX + "";
    assert Middle(k) == "-5";
    assert Digits("-5") == "5";
    assert ScanDigits("5", 0) == ScanDigits("", 5);
    IrreflexiveIff(k);
  }

  /** A qualified name holds one slash, and the prefix uses it up: no key of a stored pod repeats the prefix. */
  lemma SlashFreeTailIsOnce(k: Key)
    ensures '/' !in Tail(k) ==> Once(k)
  {
    var m := Index(Tail(k), PREFIX);
    if m >= 0 {
      assert PREFIX[28] == '/';
      assert Tail(k)[m..m + |PREFIX|][28] == Tail(k)[m + 28];
    }
  }

  // ------------------------------------------------------------- strict weak order

  /** The number of a key whose prefix is not repeated. */
  function NumberOf(k: Key): int {
    Atoi(Tail(k))
  }

  ghost predicate AllOnce(keys: set<string>) {
    forall k :: k in keys && PREFIX <= k ==> Once(k)
  }

  ghost predicate StrictWeakOrder(keys: seq<Key>) {
    && (forall a | a in keys :: !Less(a, a))
    && (forall a, b, c | a in keys && b in keys && c in keys :: Less(a, b) && Less(b, c) ==> Less(a, c))
    && (forall a, b, c | a in keys && b in keys && c in keys ::
          !Less(a, b) && !Less(b, a) && !Less(b, c) && !Less(c, b) ==> !Less(a, c) && !Less(c, a))
  }

  lemma OnceReading(k: Key)
    requires Once(k)
    ensures LeftNumber(k) == RightNumber(k) == NumberOf(k)
  {
    Readings(k);
  }

  lemma ComparatorIsStrictWeakOrder(keys: seq<Key>)
    requires forall k :: k in keys ==> Once(k)
    ensures StrictWeakOrder(keys)
    ensures forall a, b | a in keys && b in keys :: Less(a, b) <==> NumberOf(a) < NumberOf(b)
  {
    forall k | k in keys ensures LeftNumber(k) == RightNumber(k) == NumberOf(k) {
      OnceReading(k);
    }
  }

  /** So the keys a user numbers 0, 1, 2, and so on are ordered as numbers: 10 comes after 9. */
  lemma NumberedKeys(m: nat, n: nat)
    requires m < TWO_TO_63 && n < TWO_TO_63
    ensures NumberOf(PREFIX + Decimal(m)) == m
    ensures Less(PREFIX + Decimal(m), PREFIX + Decimal(n)) <==> m < n
  {
    NumberedKey(m);
    NumberedKey(n);
    OnceReading(PREFIX + Decimal(m));
    OnceReading(PREFIX + Decimal(n));
    hide LeftNumber, RightNumber, NumberOf, Once, Decimal;
  }

  lemma NumberedKey(n: nat)
    requires n < TWO_TO_63
    ensures var k: Key := PREFIX + Decimal(n); Once(k) && NumberOf(k) == n
  {
    var k: Key := PREFIX + Decimal(n);
    assert Tail(k) == Decimal(n);
    AtoiReadsDecimal(n);
    DecimalHasNoSlash(n);
    SlashFreeTailIsOnce(k);
    hide Once, Decimal, Atoi;
  }

  lemma {:induction false} DecimalHasNoSlash(n: nat)
    ensures '/' !in Decimal(n)
    decreases n
  {
    if n >= 10 { DecimalHasNoSlash(n / 10); }
  }

  // ---------------------------------------------------------------- the sorting algorithm

  type Sorter = seq<Key> -> seq<Key>

  /** What `sort.Slice` promises: a permutation, in order whenever the comparator is an ordering at all. */
  ghost predicate IsSortOf(keys: seq<Key>, out: seq<Key>) {
    && multiset(out) == multiset(keys)
    && (StrictWeakOrder(keys) ==> forall i, j :: 0 <= i < j < |out| ==> !Less(out[j], out[i]))
  }

  ghost predicate IsSort(sort: Sorter) {
    forall keys :: IsSortOf(keys, sort(keys))
  }

  /** All comparisons between two positions come out the same. */
  ghost predicate SameComparisons(ks: seq<Key>, ls: seq<Key>) {
    && |ks| == |ls|
    && forall i, j :: 0 <= i < |ks| && 0 <= j < |ks| ==> Less(ks[i], ks[j]) == Less(ls[i], ls[j])
  }

  /** Output position `j` holds what stood at input position `p[j]`. */
  ghost predicate PlacedBy(p: seq<nat>, ks: seq<Key>, out: seq<Key>) {
    |p| == |out| && forall j :: 0 <= j < |p| ==> p[j] < |ks| && out[j] == ks[p[j]]
  }

  /** `sort.Slice` only sees the outcomes of its comparator: they alone decide where everything goes. */
  ghost predicate ComparisonDriven(sort: Sorter) {
    forall ks, ls | SameComparisons(ks, ls) :: exists p :: PlacedBy(p, ks, sort(ks)) && PlacedBy(p, ls, sort(ls))
  }

  // ------------------------------------------------------------- filter and sort

  /** What the runtime contributes: the order of ranging over the annotations, and the sorting algorithm. */
  datatype Runtime = Runtime(order: seq<string>, sort: Sorter)

  ghost predicate Sound(rt: Runtime, keys: set<string>) {
    IsEnumeration(rt.order, keys) && IsSort(rt.sort)
  }

  /** The keys the filter keeps, in the order the map was ranged over. */
  function Matching(order: seq<string>): (keys: seq<Key>)
    ensures forall k: string :: k in keys <==> k in order && PREFIX <= k
  {
    if order == [] then []
    else
      var n := |order| - 1;
      assert order == order[..n] + [order[n]];
      if PREFIX <= order[n] then Matching(order[..n]) + [order[n]] else Matching(order[..n])
  }

  function SortedKeys(rt: Runtime): seq<Key> {
    var keys := Matching(rt.order);
    if |keys| > 0 then rt.sort(keys) else keys
  }

  ghost predicate StrictlySorted(keys: seq<Key>) {
    forall i, j :: 0 <= i < j < |keys| ==> NumberOf(keys[i]) < NumberOf(keys[j])
  }

  ghost predicate SortedByNumber(keys: seq<Key>) {
    forall i, j :: 0 <= i < j < |keys| ==> NumberOf(keys[i]) <= NumberOf(keys[j])
  }

  ghost predicate Distinct(keys: seq<string>) {
    forall i, j :: 0 <= i < j < |keys| ==> keys[i] != keys[j]
  }

  lemma {:induction false} DistinctMeansSingle(keys: seq<Key>)
    ensures Distinct(keys) <==> forall k: Key :: multiset(keys)[k] <= 1
    decreases |keys|
  {
    if keys != [] {
      var n := |keys| - 1;
      var init, last := keys[..n], keys[n];
      assert keys == init + [last];
      DistinctMeansSingle(init);
      if Distinct(keys) {
        assert last !in init;
      }
      if forall k: Key :: multiset(keys)[k] <= 1 {
        var all: multiset<Key>, some: multiset<Key> := multiset(keys), multiset(init);
        assert all == some + multiset{last};
        forall k: Key ensures some[k] <= 1 { assert some[k] <= all[k] <= 1; }
        assert multiset(keys)[last] <= 1;
        assert last !in init;
      }
    }
  }

  lemma SameMembers(a: seq<Key>, b: seq<Key>)
    requires multiset(a) == multiset(b)
    ensures |a| == |b|
    ensures forall k: string :: k in a <==> k in b
  {
    var m: multiset<Key> := multiset(a);
    assert |m| == |a| && |m| == |b|;
    assert forall k: Key :: k in a <==> k in m;
    assert forall k: Key :: k in b <==> k in m;
  }

  lemma {:induction false} MatchingDistinct(order: seq<string>)
    requires Distinct(order)
    ensures Distinct(Matching(order))
    decreases |order|
  {
    if order != [] {
      var n := |order| - 1;
      MatchingDistinct(order[..n]);
      assert order[n] !in order[..n];
    }
  }

  /** What the result always is, whatever the runtime's order of ranging and whatever its sorting algorithm. */
  lemma SortedKeysShape(rt: Runtime, keys: set<string>)
    requires Sound(rt, keys)
    ensures multiset(SortedKeys(rt)) == multiset(Matching(rt.order))
    ensures Distinct(SortedKeys(rt))
    ensures forall k: string :: k in SortedKeys(rt) <==> k in keys && PREFIX <= k
    ensures AllOnce(keys) ==> SortedByNumber(SortedKeys(rt))
  {
    var ks := Matching(rt.order);
    assert IsSortOf(ks, rt.sort(ks));
    MatchingDistinct(rt.order);
    DistinctMeansSingle(ks);
    DistinctMeansSingle(SortedKeys(rt));
    SameMembers(SortedKeys(rt), ks);
    if AllOnce(keys) {
      ComparatorIsStrictWeakOrder(ks);
      var out := SortedKeys(rt);
      hide Once, NumberOf, Matching, Less;
      forall i, j | 0 <= i < j < |out| ensures NumberOf(out[i]) <= NumberOf(out[j]) {
        assert out[i] in ks && out[j] in ks;
        assert !Less(out[j], out[i]);
      }
    }
  }

  // ------------------------------------------------- independence of the runtime

  ghost predicate DistinctNumbers(keys: set<string>) {
    forall a: Key, b: Key | a in keys && b in keys && a != b :: NumberOf(a) != NumberOf(b)
  }

  lemma TailMembers(a: seq<Key>)
    requires StrictlySorted(a) && a != []
    ensures forall k: string :: k in a[1..] <==> k in a && k != a[0]
  {
    assert a == [a[0]] + a[1..];
  }

  /** Two listings of the same keys in strictly increasing number order are the same listing. */
  lemma {:induction false} StrictlySortedUnique(a: seq<Key>, b: seq<Key>)
    requires StrictlySorted(a) && StrictlySorted(b)
    requires forall k: string :: k in a <==> k in b
    ensures a == b
    decreases |a|
  {
    assert b == [] || b[0] in b;
    if a != [] {
      assert a[0] in b && b[0] in a;
      assert a[0] == b[0] by {
        var i :| 0 <= i < |b| && b[i] == a[0];
        var j :| 0 <= j < |a| && a[j] == b[0];
      }
      TailMembers(a);
      TailMembers(b);
      StrictlySortedUnique(a[1..], b[1..]);
      assert a == [a[0]] + a[1..] && b == [b[0]] + b[1..];
    }
  }

  lemma SortedKeysStrict(rt: Runtime, keys: set<string>)
    requires Sound(rt, keys) && AllOnce(keys) && DistinctNumbers(keys)
    ensures StrictlySorted(SortedKeys(rt))
  {
    SortedKeysShape(rt, keys);
    var a := SortedKeys(rt);
    forall i, j | 0 <= i < j < |a| ensures NumberOf(a[i]) < NumberOf(a[j]) {
      assert a[i] in a && a[j] in a;
    }
  }

  /** With distinct numbers neither the order of ranging nor the sorting algorithm shows in the result. */
  lemma RuntimeIndependent(rt1: Runtime, rt2: Runtime, keys: set<string>)
    requires Sound(rt1, keys) && Sound(rt2, keys)
    requires AllOnce(keys) && DistinctNumbers(keys)
    ensures SortedKeys(rt1) == SortedKeys(rt2)
  {
    SortedKeysShape(rt1, keys);
    SortedKeysShape(rt2, keys);
    SortedKeysStrict(rt1, keys);
    SortedKeysStrict(rt2, keys);
    StrictlySortedUnique(SortedKeys(rt1), SortedKeys(rt2));
  }

  // ---- with a tie the map order shows through

  lemma {:induction false} MatchingSplits(p: seq<string>, q: seq<string>)
    ensures Matching(p + q) == Matching(p) + Matching(q)
    decreases |q|
  {
    if q == [] {
      assert p + q == p;
    } else {
      var n := |q| - 1;
      assert (p + q)[..|p + q| - 1] == p + q[..n];
      MatchingSplits(p, q[..n]);
    }
  }

  lemma MatchingOfPair(a: Key, b: Key)
    ensures Matching([a, b]) == [a, b]
  {
    assert [a, b][..1] == [a] && [a][..0] == [];
    assert Matching([a]) == [a];
  }

  /** Keys the comparator cannot tell apart. */
  predicate SameReadings(a: Key, b: Key) {
    LeftNumber(a) == LeftNumber(b) && RightNumber(a) == RightNumber(b)
  }

  lemma SwapKeepsComparisons(a: Key, b: Key, rest: seq<Key>)
    requires SameReadings(a, b)
    ensures SameComparisons([a, b] + rest, [b, a] + rest)
  {
    hide LeftNumber, RightNumber;
    var ks, ls := [a, b] + rest, [b, a] + rest;
    forall i | 0 <= i < |ks|
      ensures LeftNumber(ks[i]) == LeftNumber(ls[i]) && RightNumber(ks[i]) == RightNumber(ls[i])
    {
    }
  }

  lemma OnlyInFront(a: Key, b: Key, rest: seq<Key>)
    requires a != b && a !in rest
    ensures forall i :: 0 <= i < |rest| + 2 && ([a, b] + rest)[i] == a ==> i == 0
  {
    var ks := [a, b] + rest;
    forall i | 0 <= i < |ks| ensures ks[i] == a ==> i == 0 {
      if i >= 2 { assert ks[i] == rest[i - 2] && rest[i - 2] in rest; }
    }
  }

  /** Swapping two such keys in front of the input moves them in the output of any comparison-driven sort. */
  lemma SwapMovesOutput(sort: Sorter, a: Key, b: Key, rest: seq<Key>)
    requires IsSort(sort) && ComparisonDriven(sort) && SameReadings(a, b)
    requires a != b && a !in rest && b !in rest
    ensures sort([a, b] + rest) != sort([b, a] + rest)
  {
    hide SameReadings, PREFIX, SameComparisons;
    var ks, ls := [a, b] + rest, [b, a] + rest;
    SwapKeepsComparisons(a, b, rest);
    var p :| PlacedBy(p, ks, sort(ks)) && PlacedBy(p, ls, sort(ls));
    assert IsSortOf(ks, sort(ks));
    SameMembers(sort(ks), ks);
    assert ks[0] == a && a in sort(ks);
    var j :| 0 <= j < |sort(ks)| && sort(ks)[j] == a;
    OnlyInFront(a, b, rest);
    assert ks[p[j]] == a;
    assert ls[0] == b;
  }

  /** Two keys with equal readings come out in an order that depends on how the map is visited, for any algorithm. */
  lemma TieFollowsMapOrder(sort: Sorter, keys: set<string>, a: Key, b: Key) returns (o1: seq<string>, o2: seq<string>)
    requires IsSort(sort) && ComparisonDriven(sort)
    requires a in keys && b in keys && a != b && SameReadings(a, b)
    ensures IsEnumeration(o1, keys) && IsEnumeration(o2, keys)
    ensures SortedKeys(Runtime(o1, sort)) != SortedKeys(Runtime(o2, sort))
  {
    var rest := EnumerationOf(keys - {a, b});
    o1, o2 := [a, b] + rest, [b, a] + rest;
    TieShows(sort, rest, a, b);
  }

  lemma TieShows(sort: Sorter, rest: seq<string>, a: Key, b: Key)
    requires IsSort(sort) && ComparisonDriven(sort)
    requires a !in rest && b !in rest && a != b && SameReadings(a, b)
    ensures SortedKeys(Runtime([a, b] + rest, sort)) != SortedKeys(Runtime([b, a] + rest, sort))
  {
    hide SameReadings, IsSort, ComparisonDriven, PREFIX;
    MatchingOfPair(a, b);
    MatchingOfPair(b, a);
    MatchingSplits([a, b], rest);
    MatchingSplits([b, a], rest);
    hide Matching;
    SwapMovesOutput(sort, a, b, Matching(rest));
  }

  /**
   * The order of the secret configs is a function of the annotations, and not of the order in which
   * the map happens to be visited, exactly when no two of the numbers are equal.
   */
  lemma DeterministicIffNumbersDistinct(sort: Sorter, keys: set<string>)
    requires AllOnce(keys) && IsSort(sort) && ComparisonDriven(sort)
    ensures (forall o1, o2 | IsEnumeration(o1, keys) && IsEnumeration(o2, keys) ::
               SortedKeys(Runtime(o1, sort)) == SortedKeys(Runtime(o2, sort)))
            <==> DistinctNumbers(keys)
  {
    hide LeftNumber, RightNumber, IsSort, ComparisonDriven, NumberOf, SortedKeys;
    if DistinctNumbers(keys) {
      forall o1, o2 | IsEnumeration(o1, keys) && IsEnumeration(o2, keys)
        ensures SortedKeys(Runtime(o1, sort)) == SortedKeys(Runtime(o2, sort))
      {
        RuntimeIndependent(Runtime(o1, sort), Runtime(o2, sort), keys);
      }
    } else {
      var a: Key, b: Key :| a in keys && b in keys && a != b && NumberOf(a) == NumberOf(b);
      OnceReading(a);
      OnceReading(b);
      var o1, o2 := TieFollowsMapOrder(sort, keys, a, b);
    }
  }

  // ---- insertion sort, which Go runs on up to 12 keys, meets both premises

  /** One round: move `k` left past every element it is less than. */
  function Insert(sorted: seq<Key>, k: Key): seq<Key> {
    if sorted == [] then [k]
    else
      var n := |sorted| - 1;
      if Less(k, sorted[n]) then Insert(sorted[..n], k) + [sorted[n]] else sorted + [k]
  }

  function InsertionSort(keys: seq<Key>): seq<Key> {
    if keys == [] then []
    else
      var n := |keys| - 1;
      Insert(InsertionSort(keys[..n]), keys[n])
  }

  lemma {:induction false} InsertPermutes(sorted: seq<Key>, k: Key)
    ensures multiset(Insert(sorted, k)) == multiset(sorted) + multiset{k}
    ensures forall x: Key :: x in Insert(sorted, k) <==> x in sorted || x == k
    decreases |sorted|
  {
    hide Less, PREFIX;
    if sorted != [] {
      var n := |sorted| - 1;
      assert sorted == sorted[..n] + [sorted[n]];
      InsertPermutes(sorted[..n], k);
    }
  }

  ghost predicate InOrder(keys: seq<Key>) {
    forall i, j :: 0 <= i < j < |keys| ==> !Less(keys[j], keys[i])
  }

  lemma AppendInOrder(s: seq<Key>, x: Key)
    requires InOrder(s) && forall y :: y in s ==> !Less(x, y)
    ensures InOrder(s + [x])
  {
    hide Less, PREFIX;
  }

  lemma LessIsAsymmetric(all: seq<Key>, a: Key, b: Key)
    requires StrictWeakOrder(all) && a in all && b in all && Less(a, b)
    ensures !Less(b, a)
  {
    hide Less, PREFIX;
  }

  lemma NotLessChains(all: seq<Key>, a: Key, b: Key, c: Key)
    requires StrictWeakOrder(all) && a in all && b in all && c in all && !Less(a, b) && !Less(b, c)
    ensures !Less(a, c)
  {
    hide Less, PREFIX;
  }

  lemma {:induction false} InsertSorts(all: seq<Key>, sorted: seq<Key>, k: Key)
    requires StrictWeakOrder(all) && k in all && InOrder(sorted) && forall x :: x in sorted ==> x in all
    ensures InOrder(Insert(sorted, k))
    decreases |sorted|
  {
    hide Less, PREFIX, StrictWeakOrder;
    if sorted != [] {
      var n := |sorted| - 1;
      var init, last := sorted[..n], sorted[n];
      assert last in sorted;
      if Less(k, last) {
        InsertSorts(all, init, k);
        InsertPermutes(init, k);
        LessIsAsymmetric(all, k, last);
        var r := Insert(init, k);
        forall x | x in r ensures !Less(last, x) {
          assert x in init || x == k;
        }
        AppendInOrder(r, last);
      } else {
        forall x | x in sorted ensures !Less(k, x) {
          if x != last { NotLessChains(all, k, last, x); }
        }
        AppendInOrder(sorted, k);
      }
    }
  }

  lemma {:induction false} InsertionSortIsSort(keys: seq<Key>)
    ensures IsSortOf(keys, InsertionSort(keys))
    decreases |keys|
  {
    hide Less, PREFIX;
    if keys != [] {
      var n := |keys| - 1;
      var init := keys[..n];
      assert keys == init + [keys[n]];
      InsertionSortIsSort(init);
      InsertPermutes(InsertionSort(init), keys[n]);
      if StrictWeakOrder(keys) {
        assert forall x :: x in init ==> x in keys;
        SameMembers(InsertionSort(init), init);
        assert InOrder(InsertionSort(init));
        InsertSorts(keys, InsertionSort(init), keys[n]);
      }
    }
  }

  lemma PlacedAppend(p: seq<nat>, ks: seq<Key>, s: seq<Key>, k: nat)
    requires PlacedBy(p, ks, s) && k < |ks|
    ensures PlacedBy(p + [k], ks, s + [ks[k]])
  {
    hide PREFIX;
  }

  lemma PlacedSplit(p: seq<nat>, ks: seq<Key>, s: seq<Key>)
    requires PlacedBy(p, ks, s) && s != []
    ensures var n := |s| - 1;
            |p| == n + 1 && PlacedBy(p[..n], ks, s[..n]) && p[n] < |ks| && s[n] == ks[p[n]]
  {
    hide PREFIX;
  }

  lemma {:induction false} InsertDriven(ks: seq<Key>, ls: seq<Key>, p: seq<nat>, s: seq<Key>, t: seq<Key>, k: nat)
    returns (q: seq<nat>)
    requires SameComparisons(ks, ls) && k < |ks| && PlacedBy(p, ks, s) && PlacedBy(p, ls, t)
    ensures PlacedBy(q, ks, Insert(s, ks[k])) && PlacedBy(q, ls, Insert(t, ls[k]))
    decreases |s|
  {
    hide Less, PREFIX;
    assert |s| == |p| == |t|;
    if s == [] {
      q := [k];
    } else {
      var n := |s| - 1;
      PlacedSplit(p, ks, s);
      PlacedSplit(p, ls, t);
      assert Less(ks[k], s[n]) == Less(ls[k], t[n]);
      hide PlacedBy, SameComparisons;
      if Less(ks[k], s[n]) {
        var r := InsertDriven(ks, ls, p[..n], s[..n], t[..n], k);
        PlacedAppend(r, ks, Insert(s[..n], ks[k]), p[n]);
        PlacedAppend(r, ls, Insert(t[..n], ls[k]), p[n]);
        q := r + [p[n]];
      } else {
        PlacedAppend(p, ks, s, k);
        PlacedAppend(p, ls, t, k);
        q := p + [k];
      }
    }
  }

  lemma {:induction false} InsertionSortDriven(ks: seq<Key>, ls: seq<Key>, n: nat) returns (p: seq<nat>)
    requires SameComparisons(ks, ls) && n <= |ks|
    ensures PlacedBy(p, ks, InsertionSort(ks[..n])) && PlacedBy(p, ls, InsertionSort(ls[..n]))
    decreases n
  {
    hide Less, Insert;
    if n == 0 {
      p := [];
    } else {
      var q := InsertionSortDriven(ks, ls, n - 1);
      assert ks[..n][..n - 1] == ks[..n - 1] && ls[..n][..n - 1] == ls[..n - 1];
      p := InsertDriven(ks, ls, q, InsertionSort(ks[..n - 1]), InsertionSort(ls[..n - 1]), n - 1);
    }
  }

  lemma InsertionSortQualifies()
    ensures IsSort(InsertionSort) && ComparisonDriven(InsertionSort)
  {
    forall keys ensures IsSortOf(keys, InsertionSort(keys)) {
      InsertionSortIsSort(keys);
    }
    forall ks, ls | SameComparisons(ks, ls)
      ensures exists p :: PlacedBy(p, ks, InsertionSort(ks)) && PlacedBy(p, ls, InsertionSort(ls))
    {
      var p := InsertionSortDriven(ks, ls, |ks|);
      assert ks[..|ks|] == ks && ls[..|ls|] == ls;
    }
  }

  // ----------------------------------------------------------------- the Go code

  /** `filterAndSortSecretConfigs` on the given runtime. */
  method FilterAndSort(rt: Runtime) returns (keys: seq<Key>)
    ensures keys == SortedKeys(rt)
  {
    keys := [];
    for i := 0 to |rt.order|
      invariant keys == Matching(rt.order[..i])
    {
      assert rt.order[..i + 1][..i] == rt.order[..i];
      if PREFIX <= rt.order[i] {
        keys := keys + [rt.order[i]];
      }
    }
    assert rt.order[..|rt.order|] == rt.order;
    if |keys| > 0 {
      keys := rt.sort(keys);
    }
  }
}
