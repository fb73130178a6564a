/**
 Construction of a canonical map: keys are normalized, entries sorted by key, collisions refused. The
 order the entries are given in does not matter.
 */
module Maps {
  import opened Wrappers
  import opened Canonical
  import opened Encoder

  /** A key and its value, as given. */
  datatype Pair = Pair(key: string, value: Value)

  // ---------------------------------------------------------------------------------------
  // Byte order
  // ---------------------------------------------------------------------------------------

  /** Lexicographic order. */
  predicate AtMost(a: seq<byte>, b: seq<byte>) {
    a == [] || (b != [] && (a[0] < b[0] || (a[0] == b[0] && AtMost(a[1..], b[1..]))))
  }

  /** Whether the byte strings first differ at `k`, where the first has the smaller byte. */
  predicate SmallerAt(a: seq<byte>, b: seq<byte>, k: nat) {
    k < |a| && k < |b| && a[..k] == b[..k] && a[k] < b[k]
  }

  lemma SameFirstByte(a: seq<byte>, b: seq<byte>, k: nat)
    requires SmallerAt(a, b, k) && k > 0
    ensures a[0] == b[0] && SmallerAt(a[1..], b[1..], k - 1)
  {
    assert a[..k][0] == b[..k][0];
    assert a[1..][..k - 1] == a[..k][1..] && b[1..][..k - 1] == b[..k][1..];
  }

  /** The order of keys is that of their bytes: one is a prefix of the other, or has the smaller byte where
      they first differ. */
  lemma {:induction false} KeysAreOrderedByBytes(a: seq<byte>, b: seq<byte>)
    ensures AtMost(a, b) <==> a <= b || exists k: nat :: SmallerAt(a, b, k)
  {
    forall k: nat | SmallerAt(a, b, k) && k > 0
      ensures a[0] == b[0] && SmallerAt(a[1..], b[1..], k - 1)
    {
      SameFirstByte(a, b, k);
    }
    if a != [] && b != [] {
      assert SmallerAt(a, b, 0) <==> a[0] < b[0];
      if a[0] == b[0] {
        KeysAreOrderedByBytes(a[1..], b[1..]);
        assert a == [a[0]] + a[1..] && b == [b[0]] + b[1..];
        forall k: nat | SmallerAt(a[1..], b[1..], k)
          ensures SmallerAt(a, b, k + 1)
        {
          assert a[..k + 1] == [a[0]] + a[1..][..k] && b[..k + 1] == [b[0]] + b[1..][..k];
        }
      }
    }
  }

  lemma {:induction false} AtMostItself(a: seq<byte>)
    ensures AtMost(a, a)
  {
    if a != [] {
      AtMostItself(a[1..]);
    }
  }

  lemma {:induction false} AtMostIsTotal(a: seq<byte>, b: seq<byte>)
    ensures AtMost(a, b) || AtMost(b, a)
    ensures AtMost(a, b) && AtMost(b, a) ==> a == b
  {
    if a != [] && b != [] {
      AtMostIsTotal(a[1..], b[1..]);
      assert a == [a[0]] + a[1..] && b == [b[0]] + b[1..];
    }
  }

  lemma {:induction false} AtMostIsTransitive(a: seq<byte>, b: seq<byte>, c: seq<byte>)
    requires AtMost(a, b) && AtMost(b, c)
    ensures AtMost(a, c)
  {
    if a != [] && a[0] == b[0] && b[0] == c[0] {
      AtMostIsTransitive(a[1..], b[1..], c[1..]);
    }
  }

  // ---------------------------------------------------------------------------------------
  // Sorting
  // ---------------------------------------------------------------------------------------

  ghost predicate Sorted(entries: seq<Entry>) {
    forall i, j :: 0 <= i < j < |entries| ==> AtMost(entries[i].key, entries[j].key)
  }

  ghost predicate DistinctKeys(entries: seq<Entry>) {
    forall i, j :: 0 <= i < j < |entries| ==> entries[i].key != entries[j].key
  }

  /** Where a new entry goes: after every entry that is at most it. */
  method InsertSorted(entries: seq<Entry>, entry: Entry) returns (r: seq<Entry>)
    requires Sorted(entries)
    ensures Sorted(r) && multiset(r) == multiset(entries) + multiset{entry}
  {
    hide AtMost;
    var n: nat := |entries|;
    while n > 0 && !AtMost(entries[n - 1].key, entry.key)
      invariant n <= |entries|
      invariant forall i :: n <= i < |entries| ==> AtMost(entry.key, entries[i].key)
    {
      AtMostIsTotal(entries[n - 1].key, entry.key);
      n := n - 1;
    }
    forall i | 0 <= i < n
      ensures AtMost(entries[i].key, entry.key)
    {
      if i < n - 1 {
        AtMostIsTransitive(entries[i].key, entries[n - 1].key, entry.key);
      }
    }
    Inserted(entries, n, entry);
    r := entries[..n] + [entry] + entries[n..];
  }

  lemma Inserted(entries: seq<Entry>, n: nat, entry: Entry)
    requires n <= |entries| && Sorted(entries)
    requires forall i :: 0 <= i < n ==> AtMost(entries[i].key, entry.key)
    requires forall i :: n <= i < |entries| ==> AtMost(entry.key, entries[i].key)
    ensures var r := entries[..n] + [entry] + entries[n..];
            Sorted(r) && multiset(r) == multiset(entries) + multiset{entry}
  {
    hide AtMost;
    InsertedHolds(entries, n, entry);
    var r := entries[..n] + [entry] + entries[n..];
    forall i, j | 0 <= i < j < |r|
      ensures AtMost(r[i].key, r[j].key)
    {
      var from, to := if i < n then i else i - 1, if j < n then j else j - 1;
      assert i != n ==> r[i] == entries[from];
      assert j != n ==> r[j] == entries[to];
    }
  }

  lemma InsertedHolds<T>(s: seq<T>, n: nat, x: T)
    requires n <= |s|
    ensures multiset(s[..n] + [x] + s[n..]) == multiset(s) + multiset{x}
  {
    assert s == s[..n] + s[n..];
  }

  lemma RemovedHolds<T>(s: seq<T>, k: nat)
    requires k < |s|
    ensures multiset(s) == multiset(s[..k] + s[k + 1..]) + multiset{s[k]}
  {
    assert s == s[..k] + [s[k]] + s[k + 1..];
  }

  /** A stable sort by key. */
  method Sort(entries: seq<Entry>) returns (r: seq<Entry>)
    ensures Sorted(r) && multiset(r) == multiset(entries)
  {
    r := [];
    for i := 0 to |entries|
      invariant Sorted(r) && multiset(r) == multiset(entries[..i])
    {
      r := InsertSorted(r, entries[i]);
      assert entries[..i + 1] == entries[..i] + [entries[i]];
    }
    assert entries[..|entries|] == entries;
  }

  /** Whether no two neighbours have the same key. */
  method NoNeighboursCollide(entries: seq<Entry>) returns (ok: bool)
    requires Sorted(entries)
    ensures ok <==> DistinctKeys(entries)
  {
    for i := 0 to |entries|
      invariant forall j :: 0 < j < i ==> entries[j - 1].key != entries[j].key
    {
      if i > 0 && entries[i - 1].key == entries[i].key {
        return false;
      }
    }
    NeighboursDecide(entries);
    return true;
  }

  lemma NeighboursDecide(entries: seq<Entry>)
    requires Sorted(entries) && forall j :: 0 < j < |entries| ==> entries[j - 1].key != entries[j].key
    ensures DistinctKeys(entries)
  {
    forall i, j | 0 <= i < j < |entries|
      ensures entries[i].key != entries[j].key
    {
      AtMostIsTotal(entries[j - 1].key, entries[j].key);
      if i < j - 1 {
        AtMostIsTotal(entries[i].key, entries[j - 1].key);
      }
    }
  }

  /** Sorted entries with distinct keys are determined by what they hold. */
  lemma {:induction false} SortedIsUnique(a: seq<Entry>, b: seq<Entry>)
    requires Sorted(a) && Sorted(b) && DistinctKeys(a) && multiset(a) == multiset(b)
    ensures a == b
  {
    assert |multiset(a)| == |multiset(b)|;
    if a == [] {
      assert b == [];
    } else {
      SameFirst(a, b);
      FirstRemoved(a);
      FirstRemoved(b);
      SortedIsUnique(a[1..], b[1..]);
      assert a == [a[0]] + a[1..] && b == [b[0]] + b[1..];
    }
  }

  lemma FirstRemoved(a: seq<Entry>)
    requires a != []
    ensures multiset(a[1..]) == multiset(a) - multiset{a[0]}
  {
    assert a == [a[0]] + a[1..];
  }

  lemma SameFirst(a: seq<Entry>, b: seq<Entry>)
    requires Sorted(a) && Sorted(b) && DistinctKeys(a) && multiset(a) == multiset(b) && a != [] && b != []
    ensures a[0] == b[0]
  {
    assert a[0] in multiset(b) && b[0] in multiset(a);
    var i :| 0 <= i < |b| && b[i] == a[0];
    var j :| 0 <= j < |a| && a[j] == b[0];
    AtMostItself(a[0].key);
    AtMostIsTotal(a[0].key, b[0].key);
  }

  /** Whether keys are distinct does not depend on the order. */
  lemma DistinctInAnyOrder(a: seq<Entry>, b: seq<Entry>)
    requires multiset(a) == multiset(b) && DistinctKeys(a)
    ensures DistinctKeys(b)
  {
    forall i, j | 0 <= i < j < |b|
      ensures b[i].key != b[j].key
    {
      if b[i].key == b[j].key {
        assert b[i] in multiset(a) && b[j] in multiset(a);
        var m :| 0 <= m < |a| && a[m] == b[i];
        var n :| 0 <= n < |a| && a[n] == b[j];
        assert b[i] == b[j];
        TwiceInB(b, i, j);
        OnceInA(a, m);
      }
    }
  }

  lemma TwiceInB(b: seq<Entry>, i: nat, j: nat)
    requires i < j < |b| && b[i] == b[j]
    ensures multiset(b)[b[i]] >= 2
  {
    assert b == b[..i] + [b[i]] + b[i + 1..j] + [b[j]] + b[j + 1..];
  }

  lemma OnceInA(a: seq<Entry>, m: nat)
    requires m < |a| && DistinctKeys(a)
    ensures multiset(a)[a[m]] == 1
  {
    assert a == a[..m] + [a[m]] + a[m + 1..];
    assert a[m] !in a[..m] && a[m] !in a[m + 1..];
  }

  // ---------------------------------------------------------------------------------------
  // Construction
  // ---------------------------------------------------------------------------------------

  ghost function NormalizedEntries(nfc: Normalizer, values: seq<Pair>): (entries: seq<Entry>)
    ensures |entries| == |values|
  {
    seq(|values|, i requires 0 <= i < |values| => Entry(nfc(values[i].key), values[i].value))
  }

  ghost function KeyBytes(nfc: Normalizer, values: seq<Pair>, n: nat): nat
    requires n <= |values|
  {
    if n == 0 then 0 else KeyBytes(nfc, values, n - 1) + |nfc(values[n - 1].key)| + 5
  }

  /** Whether keys and their frames are within the profile bound. */
  ghost predicate KeysFit(nfc: Normalizer, values: seq<Pair>) {
    && |values| <= (MAX_CANONICAL_BYTES - 4) / 10
    && (forall i :: 0 <= i < |values| ==> |values[i].key| <= MAX_CANONICAL_BYTES)
    && KeyBytes(nfc, values, |values|) <= MAX_CANONICAL_BYTES
  }

  lemma {:induction false} KeyBytesGrow(nfc: Normalizer, values: seq<Pair>, m: nat, n: nat)
    requires m <= n <= |values|
    ensures KeyBytes(nfc, values, m) <= KeyBytes(nfc, values, n)
  {
    if m < n {
      KeyBytesGrow(nfc, values, m, n - 1);
    }
  }

  /** Normalizes the keys, within the bound. */
  method NormalizeKeys(nfc: Normalizer, values: seq<Pair>) returns (r: Option<seq<Entry>>)
    requires |values| <= (MAX_CANONICAL_BYTES - 4) / 10
    ensures r == if KeysFit(nfc, values) then Some(NormalizedEntries(nfc, values)) else None
  {
    var keyBytes := 0;
    var entries: seq<Entry> := [];
    for i := 0 to |values|
      invariant keyBytes == KeyBytes(nfc, values, i) <= MAX_CANONICAL_BYTES
      invariant entries == NormalizedEntries(nfc, values)[..i]
      invariant forall j :: 0 <= j < i ==> |values[j].key| <= MAX_CANONICAL_BYTES
    {
      KeyBytesGrow(nfc, values, i + 1, |values|);
      var normalized, error := Normalized(nfc, values[i].key);
      if error.Some? {
        return None;
      }
      keyBytes := keyBytes + |normalized| + 5;
      if keyBytes > MAX_CANONICAL_BYTES {
        return None;
      }
      entries := entries + [Entry(normalized, values[i].value)];
    }
    assert NormalizedEntries(nfc, values)[..|values|] == NormalizedEntries(nfc, values);
    return Some(entries);
  }

  /** What constructing a map comes to. */
  ghost predicate Constructs(nfc: Normalizer, values: seq<Pair>, r: Result<Value, CanonicalError>) {
    var entries := NormalizedEntries(nfc, values);
    if !KeysFit(nfc, values) then r == Result.Failure(CanonicalOverflow)
    else if !DistinctKeys(entries) then r == Result.Failure(InvalidNormalization)
    else
      && r.Success? && r.value.Mapping?
      && Sorted(r.value.entries) && DistinctKeys(r.value.entries) && multiset(r.value.entries) == multiset(entries)
  }

  method MakeMap(nfc: Normalizer, values: seq<Pair>) returns (r: Result<Value, CanonicalError>)
    ensures Constructs(nfc, values, r)
  {
    hide DistinctKeys, Sorted;
    if |values| > (MAX_CANONICAL_BYTES - 4) / 10 {
      return Result.Failure(CanonicalOverflow);
    }
    var normalized := NormalizeKeys(nfc, values);
    if normalized.None? {
      return Result.Failure(CanonicalOverflow);
    }
    var entries := Sort(normalized.value);
    var ok := NoNeighboursCollide(entries);
    if ok {
      DistinctInAnyOrder(entries, normalized.value);
      return Success(Mapping(entries));
    }
    if DistinctKeys(normalized.value) {
      DistinctInAnyOrder(normalized.value, entries);
    }
    return Result.Failure(InvalidNormalization);
  }

  // ---------------------------------------------------------------------------------------
  // Order of the entries
  // ---------------------------------------------------------------------------------------

  lemma RemovedFrom(nfc: Normalizer, values: seq<Pair>, k: nat) returns (rest: seq<Pair>)
    requires k < |values|
    ensures |rest| == |values| - 1 && multiset(values) == multiset(rest) + multiset{values[k]}
    ensures KeyBytes(nfc, values, |values|) == KeyBytes(nfc, rest, |rest|) + |nfc(values[k].key)| + 5
    ensures multiset(NormalizedEntries(nfc, values))
         == multiset(NormalizedEntries(nfc, rest)) + multiset{Entry(nfc(values[k].key), values[k].value)}
  {
    rest := values[..k] + values[k + 1..];
    RemovedHolds(values, k);
    KeyBytesWithout(nfc, values, k, |values|);
    var entries := NormalizedEntries(nfc, values);
    RemovedHolds(entries, k);
    assert NormalizedEntries(nfc, rest) == entries[..k] + entries[k + 1..];
  }

  lemma {:induction false} KeyBytesWithout(nfc: Normalizer, values: seq<Pair>, k: nat, n: nat)
    requires k < n <= |values|
    ensures KeyBytes(nfc, values, n)
         == KeyBytes(nfc, values[..k] + values[k + 1..], n - 1) + |nfc(values[k].key)| + 5
  {
    var rest := values[..k] + values[k + 1..];
    if n == k + 1 {
      SameKeyBytes(nfc, values, rest, k);
    } else {
      KeyBytesWithout(nfc, values, k, n - 1);
      assert rest[n - 2] == values[n - 1];
    }
  }

  lemma {:induction false} SameKeyBytes(nfc: Normalizer, a: seq<Pair>, b: seq<Pair>, n: nat)
    requires n <= |a| && n <= |b| && a[..n] == b[..n]
    ensures KeyBytes(nfc, a, n) == KeyBytes(nfc, b, n)
  {
    if n > 0 {
      assert a[..n][n - 1] == b[..n][n - 1];
      assert a[..n - 1] == a[..n][..n - 1] && b[..n - 1] == b[..n][..n - 1];
      SameKeyBytes(nfc, a, b, n - 1);
    }
  }

  /** Permuted entries have the same key bytes and the same normalized entries. */
  lemma {:induction false} PermutedAlike(nfc: Normalizer, a: seq<Pair>, b: seq<Pair>)
    requires multiset(a) == multiset(b)
    ensures |a| == |b| && KeyBytes(nfc, a, |a|) == KeyBytes(nfc, b, |b|)
    ensures multiset(NormalizedEntries(nfc, a)) == multiset(NormalizedEntries(nfc, b))
    decreases |a|
  {
    hide KeyBytes, NormalizedEntries;
    assert |multiset(a)| == |multiset(b)|;
    if a != [] {
      assert a[0] in multiset(b);
      var k :| 0 <= k < |b| && b[k] == a[0];
      var restOfA := RemovedFrom(nfc, a, 0);
      var restOfB := RemovedFrom(nfc, b, k);
      assert multiset(restOfA) == multiset(a) - multiset{a[0]} == multiset(restOfB);
      PermutedAlike(nfc, restOfA, restOfB);
    } else {
      assert b == [];
    }
  }

  /** Permuting a map's input entries changes nothing: the same map, or the same refusal. */
  lemma OrderDoesNotMatter(
      nfc: Normalizer, a: seq<Pair>, b: seq<Pair>, r: Result<Value, CanonicalError>, s: Result<Value, CanonicalError>)
    requires multiset(a) == multiset(b) && Constructs(nfc, a, r) && Constructs(nfc, b, s)
    ensures r == s
  {
    hide Sorted, DistinctKeys, KeyBytes, NormalizedEntries;
    PermutedAlike(nfc, a, b);
    forall x
      ensures x in a <==> x in b
    {
      assert x in a <==> x in multiset(a);
      assert x in b <==> x in multiset(b);
    }
    SameKeys(a, b);
    if DistinctKeys(NormalizedEntries(nfc, a)) {
      DistinctInAnyOrder(NormalizedEntries(nfc, a), NormalizedEntries(nfc, b));
    }
    if DistinctKeys(NormalizedEntries(nfc, b)) {
      DistinctInAnyOrder(NormalizedEntries(nfc, b), NormalizedEntries(nfc, a));
    }
    if r.Success? && s.Success? {
      SortedIsUnique(r.value.entries, s.value.entries);
    }
  }

  lemma SameKeys(a: seq<Pair>, b: seq<Pair>)
    requires forall x :: x in a <==> x in b
    ensures (forall i :: 0 <= i < |a| ==> |a[i].key| <= MAX_CANONICAL_BYTES)
       <==> (forall i :: 0 <= i < |b| ==> |b[i].key| <= MAX_CANONICAL_BYTES)
  {
    if forall i :: 0 <= i < |a| ==> |a[i].key| <= MAX_CANONICAL_BYTES {
      forall i | 0 <= i < |b| ensures |b[i].key| <= MAX_CANONICAL_BYTES {
        assert b[i] in a;
      }
    }
    if forall i :: 0 <= i < |b| ==> |b[i].key| <= MAX_CANONICAL_BYTES {
      forall i | 0 <= i < |a| ensures |a[i].key| <= MAX_CANONICAL_BYTES {
        assert a[i] in b;
      }
    }
  }

  /** A constructed map's values are constructed, so it has canonical bytes whenever they fit. */
  lemma MapsAreConstructed(nfc: Normalizer, values: seq<Pair>, r: Result<Value, CanonicalError>)
    requires Constructs(nfc, values, r) && r.Success?
    requires forall i :: 0 <= i < |values| ==> Constructed(nfc, values[i].value)
    ensures Constructed(nfc, r.value)
  {
    hide Sorted, DistinctKeys;
    var entries, normalized := r.value.entries, NormalizedEntries(nfc, values);
    assert |multiset(entries)| == |multiset(normalized)|;
    forall i | 0 <= i < |entries|
      ensures Constructed(nfc, entries[i].value)
    {
      assert entries[i] in multiset(normalized);
      var k :| 0 <= k < |normalized| && normalized[k] == entries[i];
    }
  }
}
