/**
 How extracted values reach the scan-variable store. A plain-mode node normalizes each
 extraction (one value is stored as a scalar; several are stored as the full list and
 once more per element under an indexed key); a matcher-gated node stores every
 extraction as its full list.
 */
module Extraction {
  import opened Workflows
  import opened Decimal

  type Store = map<string, Value>

  /** `x` is bound to the same value in both stores, or in neither. */
  ghost predicate SameAt(s: Store, t: Store, x: string) {
    (x in s <==> x in t) && (x in s ==> s[x] == t[x])
  }

  /** The key `fmt.Sprintf("%s%d", k, i)` under which element `i` of extraction `k` is stored. */
  function IndexedKey(k: string, i: nat): string {
    k + FormatInt(i)
  }

  /** Indexed keys of one extraction are pairwise distinct and never the name itself. */
  lemma IndexedKeyDistinct(k: string, i: nat, j: nat)
    ensures IndexedKey(k, i) == IndexedKey(k, j) <==> i == j
    ensures IndexedKey(k, i) != k
  {
    if IndexedKey(k, i) == IndexedKey(k, j) {
      assert FormatInt(i) == IndexedKey(k, i)[|k|..];
      assert FormatInt(j) == IndexedKey(k, j)[|k|..];
      FormatInjective(i, j);
    }
    assert |IndexedKey(k, i)| > |k|;
  }

  /** Every extraction list is non-empty: normalizing an empty one indexes `v[0]` and panics. */
  predicate NonEmptyValues(exts: seq<Extract>) {
    forall j | 0 <= j < |exts| :: |exts[j].values| > 0
  }

  /** The indexed keys of the first `n` elements of extraction `k`. */
  function IndexedKeys(k: string, n: nat): set<string> {
    set i | 0 <= i < n :: IndexedKey(k, i)
  }

  /** The keys one extraction writes when normalized. */
  function EntryKeys(e: Extract): set<string> {
    if |e.values| <= 1 then {e.name} else {e.name} + IndexedKeys(e.name, |e.values|)
  }

  /** The keys a sequence of extractions writes when normalized. */
  function WrittenKeys(exts: seq<Extract>): set<string> {
    if exts == [] then {} else WrittenKeys(exts[..|exts| - 1]) + EntryKeys(exts[|exts| - 1])
  }

  /** No two extractions write a common key (in particular their names differ). */
  ghost predicate NoCollisions(exts: seq<Extract>) {
    forall i, j | 0 <= i < j < |exts| :: EntryKeys(exts[i]) !! EntryKeys(exts[j])
  }

  /** `for vIdx, vVal := range v` restricted to the first `n` elements: writes `k<i> -> v[i]`. */
  function IndexedWrites(store: Store, k: string, values: seq<string>, n: nat): Store
    requires n <= |values|
  {
    if n == 0 then store
    else IndexedWrites(store, k, values, n - 1)[IndexedKey(k, n - 1) := Scalar(values[n - 1])]
  }

  /** Normalization of one extraction (the `switch len(v)`). */
  function NormalizeEntry(store: Store, e: Extract): Store
    requires |e.values| > 0
  {
    if |e.values| <= 1 then store[e.name := Scalar(e.values[0])]
    else IndexedWrites(store, e.name, e.values, |e.values|)[e.name := List(e.values)]
  }

  /** Normalization of all extractions of one event, in the order the map is ranged over. */
  function Normalized(store: Store, exts: seq<Extract>): Store
    requires NonEmptyValues(exts)
  {
    if exts == [] then store
    else NormalizeEntry(Normalized(store, exts[..|exts| - 1]), exts[|exts| - 1])
  }

  /** Matcher-gated storage: every extraction bound to its full list. */
  function Listed(store: Store, exts: seq<Extract>): Store {
    if exts == [] then store
    else Listed(store, exts[..|exts| - 1])[exts[|exts| - 1].name := List(exts[|exts| - 1].values)]
  }

  lemma {:induction false} IndexedWritesSpec(store: Store, k: string, values: seq<string>, n: nat)
    requires n <= |values|
    ensures forall i | 0 <= i < n ::
      (IndexedKey(k, i) in IndexedWrites(store, k, values, n)
       && IndexedWrites(store, k, values, n)[IndexedKey(k, i)] == Scalar(values[i]))
    ensures forall x | x !in IndexedKeys(k, n) :: SameAt(store, IndexedWrites(store, k, values, n), x)
  {
    if n > 0 {
      IndexedWritesSpec(store, k, values, n - 1);
      forall i | 0 <= i < n - 1 ensures IndexedKey(k, i) != IndexedKey(k, n - 1) {
        IndexedKeyDistinct(k, i, n - 1);
      }
      forall x | x !in IndexedKeys(k, n) ensures SameAt(store, IndexedWrites(store, k, values, n), x) {
        assert IndexedKey(k, n - 1) in IndexedKeys(k, n);
        assert IndexedKeys(k, n - 1) <= IndexedKeys(k, n);
      }
    }
  }

  /** What normalizing one extraction writes, and that it writes nothing else. */
  lemma NormalizeEntrySpec(store: Store, e: Extract)
    requires |e.values| > 0
    ensures |e.values| == 1 ==> NormalizeEntry(store, e)[e.name] == Scalar(e.values[0])
    ensures |e.values| >= 2 ==> NormalizeEntry(store, e)[e.name] == List(e.values)
    ensures |e.values| >= 2 ==> forall i | 0 <= i < |e.values| ::
      (IndexedKey(e.name, i) in NormalizeEntry(store, e)
       && NormalizeEntry(store, e)[IndexedKey(e.name, i)] == Scalar(e.values[i]))
    ensures NormalizeEntry(store, e).Keys == store.Keys + EntryKeys(e)
    ensures forall x | x !in EntryKeys(e) :: SameAt(store, NormalizeEntry(store, e), x)
  {
    if |e.values| >= 2 {
      var n := |e.values|;
      IndexedWritesSpec(store, e.name, e.values, n);
      forall i | 0 <= i < n ensures IndexedKey(e.name, i) != e.name {
        IndexedKeyDistinct(e.name, i, i);
      }
      var w := IndexedWrites(store, e.name, e.values, n);
      forall x | x !in EntryKeys(e) ensures SameAt(store, NormalizeEntry(store, e), x) {
        assert SameAt(store, w, x);
      }
      forall x | x in IndexedKeys(e.name, n) ensures x in w {
        var i :| 0 <= i < n && x == IndexedKey(e.name, i);
      }
      var r := NormalizeEntry(store, e);
      forall x | x in r ensures x in store.Keys + EntryKeys(e) {
        if x !in EntryKeys(e) {
          assert SameAt(store, w, x);
        }
      }
    }
  }

  /** The value an extraction writes at one of its own keys, whatever the store before. */
  ghost function EntryValue(e: Extract, x: string): Value
    requires |e.values| > 0 && x in EntryKeys(e)
  {
    NormalizeEntrySpec(map[], e);
    NormalizeEntry(map[], e)[x]
  }

  lemma EntryValueAnyStore(store: Store, e: Extract, x: string)
    requires |e.values| > 0 && x in EntryKeys(e)
    ensures x in NormalizeEntry(store, e) && NormalizeEntry(store, e)[x] == EntryValue(e, x)
  {
    NormalizeEntrySpec(store, e);
    NormalizeEntrySpec(map[], e);
    if x != e.name && |e.values| >= 2 {
      var i :| 0 <= i < |e.values| && x == IndexedKey(e.name, i);
    }
  }

  lemma {:induction false} WrittenKeysMember(exts: seq<Extract>, x: string)
    ensures x in WrittenKeys(exts) <==> exists j | 0 <= j < |exts| :: x in EntryKeys(exts[j])
  {
    if exts != [] {
      var p := exts[..|exts| - 1];
      WrittenKeysMember(p, x);
      if x in WrittenKeys(p) {
        var j :| 0 <= j < |p| && x in EntryKeys(p[j]);
        assert exts[j] == p[j];
      }
      if j :| 0 <= j < |exts| - 1 && x in EntryKeys(exts[j]) {
        assert p[j] == exts[j];
      }
    }
  }

  /** A key no extraction writes keeps its old binding (or stays unbound). */
  lemma {:induction false} NormalizedFrame(store: Store, exts: seq<Extract>, x: string)
    requires NonEmptyValues(exts)
    requires x !in WrittenKeys(exts)
    ensures SameAt(store, Normalized(store, exts), x)
  {
    if exts != [] {
      var p := exts[..|exts| - 1];
      assert NonEmptyValues(p);
      NormalizedFrame(store, p, x);
      NormalizeEntrySpec(Normalized(store, p), exts[|exts| - 1]);
    }
  }

  /** When keys do not collide, a key written by extraction `j` ends up holding what `j` wrote. */
  lemma {:induction false} NormalizedOwned(store: Store, exts: seq<Extract>, j: nat, x: string)
    requires NonEmptyValues(exts) && NoCollisions(exts)
    requires j < |exts| && x in EntryKeys(exts[j])
    ensures x in Normalized(store, exts) && Normalized(store, exts)[x] == EntryValue(exts[j], x)
  {
    var n := |exts|;
    var p := exts[..n - 1];
    assert NonEmptyValues(p);
    if j == n - 1 {
      EntryValueAnyStore(Normalized(store, p), exts[j], x);
    } else {
      assert NoCollisions(p) by {
        forall a, b | 0 <= a < b < |p| ensures EntryKeys(p[a]) !! EntryKeys(p[b]) {
          assert p[a] == exts[a] && p[b] == exts[b];
        }
      }
      assert p[j] == exts[j];
      NormalizedOwned(store, p, j, x);
      assert x !in EntryKeys(exts[n - 1]);
      NormalizeEntrySpec(Normalized(store, p), exts[n - 1]);
    }
  }

  /** An extraction with exactly one value leaves its name bound to that scalar. */
  lemma NormalizedScalar(store: Store, exts: seq<Extract>, j: nat)
    requires NonEmptyValues(exts) && NoCollisions(exts)
    requires j < |exts| && |exts[j].values| == 1
    ensures exts[j].name in Normalized(store, exts)
    ensures Normalized(store, exts)[exts[j].name] == Scalar(exts[j].values[0])
  {
    NormalizedOwned(store, exts, j, exts[j].name);
    NormalizeEntrySpec(map[], exts[j]);
  }

  /**
   An extraction with n >= 2 values leaves its name bound to the whole list and
   name+decimal(i) bound to element i, for every i < n.
   */
  lemma NormalizedList(store: Store, exts: seq<Extract>, j: nat)
    requires NonEmptyValues(exts) && NoCollisions(exts)
    requires j < |exts| && |exts[j].values| >= 2
    ensures exts[j].name in Normalized(store, exts)
    ensures Normalized(store, exts)[exts[j].name] == List(exts[j].values)
    ensures forall i | 0 <= i < |exts[j].values| ::
      (IndexedKey(exts[j].name, i) in Normalized(store, exts)
       && Normalized(store, exts)[IndexedKey(exts[j].name, i)] == Scalar(exts[j].values[i]))
  {
    var e := exts[j];
    NormalizeEntrySpec(map[], e);
    NormalizedOwned(store, exts, j, e.name);
    forall i | 0 <= i < |e.values|
      ensures IndexedKey(e.name, i) in Normalized(store, exts)
      && Normalized(store, exts)[IndexedKey(e.name, i)] == Scalar(e.values[i])
    {
      assert IndexedKey(e.name, i) in EntryKeys(e);
      NormalizedOwned(store, exts, j, IndexedKey(e.name, i));
    }
  }

  /** Every extraction's name differs: the entries came from one Go map. */
  predicate DistinctNames(exts: seq<Extract>) {
    forall i, j | 0 <= i < j < |exts| :: exts[i].name != exts[j].name
  }

  /**
   Matcher-gated storage binds each name to its full list and touches no other key:
   in particular no indexed key is written.
   */
  lemma {:induction false} ListedSpec(store: Store, exts: seq<Extract>)
    ensures forall x | (forall j | 0 <= j < |exts| :: exts[j].name != x) :: SameAt(store, Listed(store, exts), x)
    ensures DistinctNames(exts) ==> forall j | 0 <= j < |exts| ::
      (exts[j].name in Listed(store, exts) && Listed(store, exts)[exts[j].name] == List(exts[j].values))
  {
    if exts != [] {
      var p := exts[..|exts| - 1];
      ListedSpec(store, p);
      forall x | (forall j | 0 <= j < |exts| :: exts[j].name != x) ensures SameAt(store, Listed(store, exts), x) {
        assert forall j | 0 <= j < |p| :: p[j].name != x by {
          forall j | 0 <= j < |p| ensures p[j].name != x { assert p[j] == exts[j]; }
        }
        assert SameAt(store, Listed(store, p), x);
        assert exts[|exts| - 1].name != x;
      }
      if DistinctNames(exts) {
        assert DistinctNames(p) by {
          forall a, b | 0 <= a < b < |p| ensures p[a].name != p[b].name { assert p[a] == exts[a] && p[b] == exts[b]; }
        }
        forall j | 0 <= j < |exts| - 1
          ensures exts[j].name in Listed(store, exts) && Listed(store, exts)[exts[j].name] == List(exts[j].values)
        {
          assert p[j] == exts[j];
        }
      }
    }
  }

  lemma CountTwo<T>(s: seq<T>, i: nat, j: nat)
    requires i < j < |s| && s[i] == s[j]
    ensures multiset(s)[s[i]] >= 2
  {
    assert s == s[..j] + [s[j]] + s[j + 1..];
    assert s[..j][i] == s[i];
    assert multiset(s) == multiset(s[..j]) + multiset{s[j]} + multiset(s[j + 1..]);
  }

  lemma {:induction false} TwoIndices<T>(s: seq<T>, x: T)
    requires multiset(s)[x] >= 2
    ensures exists i, j | 0 <= i < j < |s| :: s[i] == x && s[j] == x
  {
    var p := s[..|s| - 1];
    assert s == p + [s[|s| - 1]];
    assert multiset(s) == multiset(p) + multiset{s[|s| - 1]};
    if s[|s| - 1] == x {
      assert x in multiset(p);
      var i :| 0 <= i < |p| && p[i] == x;
      assert s[i] == x;
    } else {
      TwoIndices(p, x);
      var i, j :| 0 <= i < j < |p| && p[i] == x && p[j] == x;
      assert s[i] == x && s[j] == x;
    }
  }

  /** With no colliding keys, the extractions of a permutation write the same keys, without collisions. */
  lemma PermutationKeepsNoCollisions(a: seq<Extract>, b: seq<Extract>)
    requires NonEmptyValues(a) && NoCollisions(a)
    requires multiset(a) == multiset(b)
    ensures NonEmptyValues(b) && NoCollisions(b)
    ensures forall x :: x in WrittenKeys(a) <==> x in WrittenKeys(b)
  {
    forall i | 0 <= i < |b| ensures exists k | 0 <= k < |a| :: a[k] == b[i] {
      assert b[i] in multiset(b);
      assert b[i] in a;
    }
    forall i, j | 0 <= i < j < |b| ensures EntryKeys(b[i]) !! EntryKeys(b[j]) {
      var ia :| 0 <= ia < |a| && a[ia] == b[i];
      var ja :| 0 <= ja < |a| && a[ja] == b[j];
      if ia == ja {
        CountTwo(b, i, j);
        TwoIndices(a, b[i]);
        assert false;
      } else if ia < ja {
        assert EntryKeys(a[ia]) !! EntryKeys(a[ja]);
      } else {
        assert EntryKeys(a[ja]) !! EntryKeys(a[ia]);
      }
    }
    forall x ensures x in WrittenKeys(a) <==> x in WrittenKeys(b) {
      WrittenKeysMember(a, x);
      WrittenKeysMember(b, x);
      if j :| 0 <= j < |a| && x in EntryKeys(a[j]) {
        assert a[j] in multiset(a);
        assert a[j] in b;
        var k :| 0 <= k < |b| && b[k] == a[j];
      }
    }
  }

  /**
   When no two extractions write a common key, the order in which the map is ranged
   over does not change the resulting store.
   */
  lemma NormalizedOrderIrrelevant(store: Store, a: seq<Extract>, b: seq<Extract>)
    requires NonEmptyValues(a) && NoCollisions(a)
    requires multiset(a) == multiset(b)
    ensures NonEmptyValues(b)
    ensures Normalized(store, a) == Normalized(store, b)
  {
    PermutationKeepsNoCollisions(a, b);
    var na, nb := Normalized(store, a), Normalized(store, b);
    forall x ensures (x in na <==> x in nb) && (x in na ==> na[x] == nb[x]) {
      WrittenKeysMember(a, x);
      if x in WrittenKeys(a) {
        var j :| 0 <= j < |a| && x in EntryKeys(a[j]);
        assert a[j] in multiset(a);
        assert a[j] in b;
        var k :| 0 <= k < |b| && b[k] == a[j];
        NormalizedOwned(store, a, j, x);
        NormalizedOwned(store, b, k, x);
      } else {
        NormalizedFrame(store, a, x);
        NormalizedFrame(store, b, x);
      }
    }
    assert na.Keys == nb.Keys;
    assert na == nb;
  }

  /** The two cases of normalization, on concrete data. */
  lemma NormalizedExamples()
    ensures Normalized(map[], [Extract("ip", ["10.0.0.1"])]) == map["ip" := Scalar("10.0.0.1")]
    ensures Normalized(map[], [Extract("ip", ["10.0.0.1", "10.0.0.2"])])
      == map["ip0" := Scalar("10.0.0.1"), "ip1" := Scalar("10.0.0.2"), "ip" := List(["10.0.0.1", "10.0.0.2"])]
  {
    assert FormatInt(0) == "0" && FormatInt(1) == "1";
    assert IndexedKey("ip", 0) == "ip0" && IndexedKey("ip", 1) == "ip1";
    var one := Extract("ip", ["10.0.0.1"]);
    assert [one][..0] == [];
    var two := Extract("ip", ["10.0.0.1", "10.0.0.2"]);
    assert [two][..0] == [];
    var w := IndexedWrites(map[], "ip", two.values, 2);
    assert w == map["ip0" := Scalar("10.0.0.1"), "ip1" := Scalar("10.0.0.2")];
  }

  /**
   When keys collide ("ip" with two values writes "ip0", and "ip0" is also an extraction
   of its own), the result depends on the order the map is ranged over.
   */
  lemma CollidingKeysDependOnOrder()
    ensures "ip0" in Normalized(map[], [Extract("ip", ["a", "b"]), Extract("ip0", ["c"])])
    ensures "ip0" in Normalized(map[], [Extract("ip0", ["c"]), Extract("ip", ["a", "b"])])
    ensures Normalized(map[], [Extract("ip", ["a", "b"]), Extract("ip0", ["c"])])["ip0"] == Scalar("c")
    ensures Normalized(map[], [Extract("ip0", ["c"]), Extract("ip", ["a", "b"])])["ip0"] == Scalar("a")
  {
    assert FormatInt(0) == "0" && FormatInt(1) == "1";
    assert IndexedKey("ip", 0) == "ip0" && IndexedKey("ip", 1) == "ip1";
    var ip, ip0 := Extract("ip", ["a", "b"]), Extract("ip0", ["c"]);
    assert [ip, ip0][..1] == [ip] && [ip][..0] == [];
    assert [ip0, ip][..1] == [ip0] && [ip0][..0] == [];
    var first := NormalizeEntry(map[], ip0);
    assert first == map["ip0" := Scalar("c")];
    assert IndexedWrites(first, "ip", ip.values, 1) == map["ip0" := Scalar("a")];
  }
}
