/** What `add_product_variants` (website/admin.py:172-256) and
    `find_variant_by_combination` (website/admin.py:15-31) compute, as
    functions of the stored tables: the combinations of a product's option
    values, the map from value sets to the stored variants, the variants a
    save deletes, the effect of each submitted row, and the rows the page
    shows. The class in admin.dfy carries these out step by step. */
module Variants {
  import opened Wrappers
  import opened Schema
  import opened Combinations
  import opened Forms
  import opened Sku

  // ---------------------------------------------------------------------
  // Combinations (website/admin.py:173-182)

  /** For each option of the product, in table order, its values. */
  function ValueLists(db: Db, pid: Id): seq<seq<Row<VariantValue>>>
  {
    var opts := OptionsOf(db, pid);
    seq(|opts|, i requires 0 <= i < |opts| => ValuesOf(db, opts[i].id))
  }

  /** `list(cartesian_product(*value_lists))`. */
  function Combos(db: Db, pid: Id): seq<seq<Row<VariantValue>>>
  {
    Cartesian(ValueLists(db, pid))
  }

  /** `tuple(v.id for v in combo)`: the value ids in option order. */
  function KeyOf(combo: seq<Row<VariantValue>>): seq<Id>
  {
    seq(|combo|, i requires 0 <= i < |combo| => combo[i].id)
  }

  /** The value texts of a combination, in option order (`v.value for v in combo`). */
  function ValueTexts(combo: seq<Row<VariantValue>>): (r: seq<string>)
    ensures |r| == |combo|
  {
    seq(|combo|, i requires 0 <= i < |combo| => combo[i].data.value)
  }

  // ---------------------------------------------------------------------
  // Sorted keys

  predicate StrictlyIncreasing(k: seq<Id>)
  {
    forall i, j :: 0 <= i < j < |k| ==> k[i] < k[j]
  }

  function Elems(k: seq<Id>): set<Id>
  {
    set x | x in k
  }

  lemma ElemsEmpty(s: seq<Id>)
    ensures s == [] <==> Elems(s) == {}
  {
    if s != [] {
      assert s[0] in Elems(s);
    }
  }

  /** A set of ids has at most one strictly increasing listing, so
      `tuple(sorted(S))` is the one sequence `k` with `StrictlyIncreasing(k)`
      and `Elems(k) == S`; the model names sorted keys that way. */
  lemma {:induction false} SortedUnique(a: seq<Id>, b: seq<Id>)
    requires StrictlyIncreasing(a) && StrictlyIncreasing(b) && Elems(a) == Elems(b)
    ensures a == b
  {
    ElemsEmpty(a);
    ElemsEmpty(b);
    if a != [] {
      assert a[0] in Elems(b);
      assert b[0] in Elems(a);
      var i :| 0 <= i < |a| && a[i] == b[0];
      var j :| 0 <= j < |b| && b[j] == a[0];
      assert a[0] == b[0];
      assert Elems(a[1..]) == Elems(a) - {a[0]} by {
        assert a == [a[0]] + a[1..];
        assert a[0] !in a[1..];
      }
      assert Elems(b[1..]) == Elems(b) - {b[0]} by {
        assert b == [b[0]] + b[1..];
        assert b[0] !in b[1..];
      }
      SortedUnique(a[1..], b[1..]);
      assert a == [a[0]] + a[1..] && b == [b[0]] + b[1..];
    }
  }

  // ---------------------------------------------------------------------
  // The existing variants by value set (website/admin.py:185-191)

  /** `{tuple(sorted(ids of variant.combinations)): variant for variant in vs}`,
      keyed by the value set itself: every variant's set is a key, every key
      maps to a variant of `vs` with that set, and a later variant with the
      same set replaces an earlier one. */
  function ComboMap(vs: seq<Row<ProductVariant>>, links: set<Link>): (m: map<set<Id>, Row<ProductVariant>>)
    ensures forall S :: S in m ==> m[S] in vs && LinkSet(links, m[S].id) == S
    ensures forall i :: 0 <= i < |vs| ==> LinkSet(links, vs[i].id) in m
  {
    if vs == [] then map[]
    else
      var last := vs[|vs| - 1];
      var m := ComboMap(vs[..|vs| - 1], links);
      assert forall i :: 0 <= i < |vs| - 1 ==> vs[i] == vs[..|vs| - 1][i];
      m[LinkSet(links, last.id) := last]
  }

  /** No two variants in `vs` have the same value set. */
  predicate UniqueCombos(vs: seq<Row<ProductVariant>>, links: set<Link>)
  {
    forall i, j :: 0 <= i < j < |vs| ==> LinkSet(links, vs[i].id) != LinkSet(links, vs[j].id)
  }

  /** The dictionary keeps the last variant of each value set; when no two
      variants share one, it holds every variant under its own set. */
  lemma {:induction false} ComboMapLast(vs: seq<Row<ProductVariant>>, links: set<Link>, i: nat)
    requires i < |vs|
    requires forall j :: i < j < |vs| ==> LinkSet(links, vs[j].id) != LinkSet(links, vs[i].id)
    ensures ComboMap(vs, links)[LinkSet(links, vs[i].id)] == vs[i]
  {
    if i < |vs| - 1 {
      var init := vs[..|vs| - 1];
      ComboMapLast(init, links, i);
    }
  }

  /** `existing_combos_map` of the product. */
  function MapOf(db: Db, pid: Id): map<set<Id>, Row<ProductVariant>>
  {
    ComboMap(VariantsOf(db, pid), db.links)
  }

  // ---------------------------------------------------------------------
  // Deleting the variants whose combination is gone (website/admin.py:193-204)

  /** `current_combo_keys`: the option-order keys of the combinations. */
  function CurrentKeys(combos: seq<seq<Row<VariantValue>>>): set<seq<Id>>
  {
    set c | c in combos :: KeyOf(c)
  }

  /** `tuple(sorted(S)) in keys`. */
  predicate Listed(S: set<Id>, keys: set<seq<Id>>)
  {
    exists k :: k in keys && StrictlyIncreasing(k) && Elems(k) == S
  }

  /** The ids of the variants the first loop deletes: those the map holds
      under a value set whose sorted key is not a current key. */
  function Doomed(m: map<set<Id>, Row<ProductVariant>>, keys: set<seq<Id>>): set<Id>
  {
    set S | S in m && !Listed(S, keys) :: m[S].id
  }

  /** The tables once the variants `doomed` and their join rows are gone. */
  function WithoutVariants(db: Db, doomed: set<Id>): (r: Db)
    ensures r.products == db.products && r.options == db.options && r.values == db.values
    ensures forall l :: l in r.links <==> l in db.links && l.variantId !in doomed
    ensures forall x :: x in r.variants <==> x in db.variants && x.id !in doomed
    ensures IdsIncreasing(db.variants) ==> IdsIncreasing(r.variants)
  {
    var keep: Row<ProductVariant> -> bool := IdNotIn(doomed);
    FilterIncreasing(db.variants, keep);
    assert forall x :: x in Filter(db.variants, keep) <==> x in db.variants && keep(x) by {
      forall x { FilterMember(db.variants, keep, x); }
    }
    db.(variants := Filter(db.variants, keep), links := LinksWithout(db.links, doomed))
  }

  /** The tables once the first loop of a save has run and committed. */
  function Cleared(db: Db, pid: Id): Db
  {
    WithoutVariants(db, Doomed(MapOf(db, pid), CurrentKeys(Combos(db, pid))))
  }

  // ---------------------------------------------------------------------
  // Looking a combination up (website/admin.py:211-212 and 242-245)

  /** The save looks the map up with the option-order key itself: it finds
      a variant only when that key is already sorted. */
  function PostLookup(m: map<set<Id>, Row<ProductVariant>>, key: seq<Id>): Option<Row<ProductVariant>>
  {
    if StrictlyIncreasing(key) && Elems(key) in m then Some(m[Elems(key)]) else None
  }

  /** The page looks it up with the sorted key: it finds the variant of the
      combination's value set whenever the ids are distinct. */
  function GetLookup(m: map<set<Id>, Row<ProductVariant>>, key: seq<Id>): Option<Row<ProductVariant>>
  {
    if Distinct(key) && Elems(key) in m then Some(m[Elems(key)]) else None
  }

  /** Every variant the save finds the page finds too, and for a key already
      in order the two agree. */
  lemma PostFindsLess(m: map<set<Id>, Row<ProductVariant>>, key: seq<Id>)
    ensures PostLookup(m, key).Some? ==> GetLookup(m, key) == PostLookup(m, key)
    ensures StrictlyIncreasing(key) ==> GetLookup(m, key) == PostLookup(m, key)
  {
  }

  /** The two lookups differ as soon as the options come in an order other
      than their values' ids: with a variant stored for the values 3 and 5
      and the key [5, 3], the page finds it and the save does not. */
  lemma LookupsDisagree(v: Row<ProductVariant>)
    ensures GetLookup(map[{3, 5} := v], [5, 3]) == Some(v)
    ensures PostLookup(map[{3, 5} := v], [5, 3]) == None
  {
    assert Elems([5, 3]) == {3, 5};
  }

  // ---------------------------------------------------------------------
  // The dictionary as the view builds it (website/admin.py:188-191)

  /** `x` is the least id of `S`. */
  predicate IsLeast(x: Id, S: set<Id>) { x in S && forall y :: y in S ==> x <= y }
  /** Every non-empty set of ids has a least element. */
  lemma {:induction false} HasLeast(S: set<Id>)
    requires S != {}
    ensures exists x :: IsLeast(x, S)
    decreases S
  {
    var e :| e in S;
    var T := S - {e};
    if T == {} {
      assert S == {e};
      assert IsLeast(e, S);
    } else {
      HasLeast(T);
      var x :| IsLeast(x, T);
      assert forall y :: y in S ==> y == e || y in T;
      if e < x {
        assert IsLeast(e, S);
      } else {
        assert IsLeast(x, S);
      }
    }
  }

  /** `tuple(sorted(S))` for a set: its least id, then the others sorted. */
  ghost function SortedKey(S: set<Id>): seq<Id>
    decreases S
  {
    if S == {} then []
    else
      HasLeast(S);
      var x :| IsLeast(x, S);
      [x] + SortedKey(S - {x})
  }
  /** A set has one least element. */
  lemma LeastUnique(x: Id, S: set<Id>)
    requires IsLeast(x, S)
    ensures forall a :: IsLeast(a, S) ==> a == x
  {
  }

  /** The list starts with the least id of the set and goes on with the rest. */
  lemma SortedKeyHead(S: set<Id>) returns (x: Id)
    requires S != {}
    ensures IsLeast(x, S) && SortedKey(S) == [x] + SortedKey(S - {x})
  {
    HasLeast(S);
    x :| IsLeast(x, S);
    LeastUnique(x, S);
  }

  /** The sorted listing of a set lists exactly the set. */
  lemma {:induction false} SortedKeyElems(S: set<Id>)
    ensures Elems(SortedKey(S)) == S
    decreases S
  {
    if S != {} {
      var x := SortedKeyHead(S);
      var rest := SortedKey(S - {x});
      var k := [x] + rest;
      SortedKeyElems(S - {x});
      forall y ensures y in Elems(k) <==> y in S {
        if y in S && y != x {
          assert y in Elems(rest);
          var i :| 0 <= i < |rest| && rest[i] == y;
          assert k[i + 1] == y;
        }
        if y in Elems(k) && y != x {
          var i :| 0 <= i < |k| && k[i] == y;
          assert rest[i - 1] == y;
          assert y in Elems(rest);
        }
      }
    }
  }

  /** The sorted listing of a set is increasing. */
  lemma {:induction false} SortedKeyIncreasing(S: set<Id>)
    ensures StrictlyIncreasing(SortedKey(S))
    decreases S
  {
    if S != {} {
      var x := SortedKeyHead(S);
      var rest := SortedKey(S - {x});
      var k := [x] + rest;
      SortedKeyIncreasing(S - {x});
      SortedKeyElems(S - {x});
      forall i, j | 0 <= i < j < |k| ensures k[i] < k[j] {
        assert k[j] == rest[j - 1];
        assert rest[j - 1] in Elems(rest);
        if i > 0 {
          assert k[i] == rest[i - 1];
        }
      }
    }
  }

  predicate NonDecreasing(k: seq<Id>)
  {
    forall i, j :: 0 <= i < j < |k| ==> k[i] <= k[j]
  }

  /** One step of an insertion sort: `x` goes before the first id that is
      not smaller. */
  function Insert(x: Id, k: seq<Id>): (r: seq<Id>)
    ensures multiset(r) == multiset(k) + multiset{x}
  {
    if k == [] || x <= k[0] then [x] + k
    else
      assert k == [k[0]] + k[1..];
      [k[0]] + Insert(x, k[1..])
  }

  /** A bound below `x` and every id of `k` stays below every id after the insertion. */
  lemma InsertLower(x: Id, k: seq<Id>, b: Id)
    requires b <= x && forall e :: e in k ==> b <= e
    ensures forall e :: e in Insert(x, k) ==> b <= e
  {
    forall e | e in Insert(x, k) ensures b <= e {
      assert e in multiset(Insert(x, k));
      assert e in multiset(k) + multiset{x};
      if e != x {
        assert e in multiset(k);
        assert e in k;
      }
    }
  }

  /** A sorted sequence stays sorted with a first element no larger than the rest. */
  lemma ConsSorted(b: Id, t: seq<Id>)
    requires NonDecreasing(t) && forall e :: e in t ==> b <= e
    ensures NonDecreasing([b] + t)
  {
    var r := [b] + t;
    forall i, j | 0 <= i < j < |r| ensures r[i] <= r[j] {
      assert r[j] == t[j - 1] && t[j - 1] in t;
      if i > 0 {
        assert r[i] == t[i - 1];
      }
    }
  }

  /** Inserting into a sorted sequence keeps it sorted. */
  lemma {:induction false} InsertSorted(x: Id, k: seq<Id>)
    requires NonDecreasing(k)
    ensures NonDecreasing(Insert(x, k))
  {
    if k != [] && x > k[0] {
      var t := k[1..];
      assert NonDecreasing(t) by {
        forall i, j | 0 <= i < j < |t| ensures t[i] <= t[j] {
          assert t[i] == k[i + 1] && t[j] == k[j + 1];
        }
      }
      assert forall e :: e in t ==> k[0] <= e by {
        forall e | e in t ensures k[0] <= e {
          var i :| 0 <= i < |t| && t[i] == e;
          assert k[i + 1] == e;
        }
      }
      InsertSorted(x, t);
      InsertLower(x, t, k[0]);
      ConsSorted(k[0], Insert(x, t));
    } else if k != [] {
      assert forall e :: e in k ==> x <= e by {
        forall e | e in k ensures x <= e {
          var i :| 0 <= i < |k| && k[i] == e;
          assert k[0] <= k[i];
        }
      }
      ConsSorted(x, k);
    }
  }

  /** `tuple(sorted(key))` for a sequence: the same ids, repetitions
      included, in non-decreasing order. */
  function SortedTuple(k: seq<Id>): (r: seq<Id>)
    ensures multiset(r) == multiset(k) && NonDecreasing(r)
  {
    if k == [] then []
    else
      assert k == [k[0]] + k[1..];
      InsertSorted(k[0], SortedTuple(k[1..]));
      Insert(k[0], SortedTuple(k[1..]))
  }

  /** A sequence has no repetition exactly when no id occurs twice in its multiset. */
  lemma {:induction false} DistinctMultiset(k: seq<Id>)
    ensures Distinct(k) <==> forall x :: multiset(k)[x] <= 1
  {
    if k != [] {
      var t := k[1..];
      assert k == [k[0]] + t;
      DistinctMultiset(t);
      if Distinct(k) {
        assert Distinct(t) by {
          forall i, j | 0 <= i < j < |t| ensures t[i] != t[j] {
            assert t[i] == k[i + 1] && t[j] == k[j + 1];
          }
        }
        assert k[0] !in t by {
          forall i | 0 <= i < |t| ensures t[i] != k[0] {
            assert t[i] == k[i + 1];
          }
        }
      } else {
        var i, j :| 0 <= i < j < |k| && k[i] == k[j];
        assert multiset(k) == multiset{k[0]} + multiset(t);
        if i == 0 {
          assert k[j] == t[j - 1];
          assert k[0] in multiset(t);
          assert multiset(k)[k[0]] > 1;
        } else {
          assert t[i - 1] == k[i] && t[j - 1] == k[j];
          assert !Distinct(t);
          var x :| multiset(t)[x] > 1;
          assert multiset(k)[x] > 1;
        }
      }
    }
  }

  /** Sorting keeps the ids and their repetitions: the sorted tuple of a key
      with distinct ids is the increasing listing of its set, and that of a
      key with a repeated id repeats it too, so it is not increasing. */
  lemma SortedTupleOf(key: seq<Id>)
    ensures Distinct(key) ==> SortedTuple(key) == SortedKey(Elems(key))
    ensures !Distinct(key) ==> !StrictlyIncreasing(SortedTuple(key))
  {
    var r := SortedTuple(key);
    DistinctMultiset(key);
    DistinctMultiset(r);
    assert Elems(r) == Elems(key) by {
      forall x ensures x in Elems(r) <==> x in Elems(key) {
        assert x in r <==> x in multiset(r);
        assert x in key <==> x in multiset(key);
      }
    }
    if Distinct(key) {
      SortedKeyElems(Elems(key));
      SortedKeyIncreasing(Elems(key));
      SortedUnique(r, SortedKey(Elems(key)));
    }
  }

  /** `existing_combos_map` as the view builds it: the sorted tuple of each
      variant's value ids maps to the variant, a later variant overwriting
      an earlier one with the same tuple. */
  ghost function SourceComboMap(vs: seq<Row<ProductVariant>>, links: set<Link>): map<seq<Id>, Row<ProductVariant>>
  {
    if vs == [] then map[]
    else
      var last := vs[|vs| - 1];
      SourceComboMap(vs[..|vs| - 1], links)[SortedKey(LinkSet(links, last.id)) := last]
  }

  /** `d.get(key)`. */
  function Get(d: map<seq<Id>, Row<ProductVariant>>, key: seq<Id>): Option<Row<ProductVariant>>
  {
    if key in d then Some(d[key]) else None
  }

  /** The dictionary keyed by sorted tuples and `ComboMap`, keyed by the
      value sets, hold the same variants: a tuple is a key exactly when it
      is the increasing listing of a stored set, and then both give the
      same variant. */
  lemma {:induction false} SourceComboMapMatches(vs: seq<Row<ProductVariant>>, links: set<Link>, key: seq<Id>)
    ensures key in SourceComboMap(vs, links) <==> StrictlyIncreasing(key) && Elems(key) in ComboMap(vs, links)
    ensures key in SourceComboMap(vs, links) ==> SourceComboMap(vs, links)[key] == ComboMap(vs, links)[Elems(key)]
  {
    if vs != [] {
      var init := vs[..|vs| - 1];
      var last := vs[|vs| - 1];
      var S := LinkSet(links, last.id);
      var k := SortedKey(S);
      var d := SourceComboMap(init, links);
      var m := ComboMap(init, links);
      assert SourceComboMap(vs, links) == d[k := last];
      assert ComboMap(vs, links) == m[S := last];
      SortedKeyElems(S);
      SortedKeyIncreasing(S);
      if key != k {
        SourceComboMapMatches(init, links, key);
        if StrictlyIncreasing(key) && Elems(key) == S {
          SortedUnique(key, k);
        }
      }
    }
  }

  /** The save's lookup is `existing_combos_map.get(key)` with the
      option-order key itself. */
  lemma PostLookupIsGet(vs: seq<Row<ProductVariant>>, links: set<Link>, key: seq<Id>)
    ensures PostLookup(ComboMap(vs, links), key) == Get(SourceComboMap(vs, links), key)
  {
    SourceComboMapMatches(vs, links, key);
  }

  /** The page's lookup is `existing_combos_map.get(tuple(sorted(key)))`. */
  lemma GetLookupIsGet(vs: seq<Row<ProductVariant>>, links: set<Link>, key: seq<Id>)
    ensures GetLookup(ComboMap(vs, links), key) == Get(SourceComboMap(vs, links), SortedTuple(key))
  {
    var r := SortedTuple(key);
    SourceComboMapMatches(vs, links, r);
    SortedTupleOf(key);
    if Distinct(key) {
      SortedKeyElems(Elems(key));
      SortedKeyIncreasing(Elems(key));
      assert StrictlyIncreasing(r) && Elems(r) == Elems(key);
    }
  }

  // ---------------------------------------------------------------------
  // Combinations and value sets

  /** Rows of a table without repeated ids that share an id are the same row. */
  lemma SameIdSameRow<T>(t: seq<Row<T>>, x: Row<T>, y: Row<T>)
    requires IdsIncreasing(t) && x in t && y in t
    ensures x.id == y.id ==> x == y
  {
    FindUnique(t, x);
    FindUnique(t, y);
  }

  /** Each value of a combination belongs to the option at its position. */
  lemma ComboValues(db: Db, pid: Id, c: seq<Row<VariantValue>>)
    requires c in Combos(db, pid)
    ensures |c| == |OptionsOf(db, pid)|
    ensures forall i :: 0 <= i < |c| ==> c[i] in db.values && c[i].data.optionId == OptionsOf(db, pid)[i].id
  {
    CartesianPicks(ValueLists(db, pid), c);
  }

  /** The values of a combination have distinct ids, so its sorted key
      lists each of them once. */
  lemma {:induction false} ComboKeyDistinct(db: Db, pid: Id, c: seq<Row<VariantValue>>)
    requires IdsIncreasing(db.options) && IdsIncreasing(db.values)
    requires c in Combos(db, pid)
    ensures Distinct(KeyOf(c))
  {
    var opts := OptionsOf(db, pid);
    ComboValues(db, pid, c);
    forall i, j | 0 <= i < j < |c| ensures KeyOf(c)[i] != KeyOf(c)[j] {
      assert opts[i].id < opts[j].id;
      SameIdSameRow(db.values, c[i], c[j]);
    }
  }

  /** Two combinations of a product with the same value set are the same
      combination: each value belongs to exactly one option. */
  lemma {:induction false} CombosDetermined(db: Db, pid: Id, c1: seq<Row<VariantValue>>, c2: seq<Row<VariantValue>>)
    requires IdsIncreasing(db.options) && IdsIncreasing(db.values)
    requires c1 in Combos(db, pid) && c2 in Combos(db, pid)
    ensures Elems(KeyOf(c1)) == Elems(KeyOf(c2)) ==> c1 == c2
  {
    if Elems(KeyOf(c1)) == Elems(KeyOf(c2)) {
      var opts := OptionsOf(db, pid);
      ComboValues(db, pid, c1);
      ComboValues(db, pid, c2);
      forall i | 0 <= i < |c1| ensures c1[i] == c2[i] {
        assert c1[i].id in Elems(KeyOf(c2)) by {
          assert KeyOf(c1)[i] == c1[i].id;
        }
        var j :| 0 <= j < |c2| && KeyOf(c2)[j] == c1[i].id;
        SameIdSameRow(db.values, c1[i], c2[j]);
        assert opts[i].id == opts[j].id;
        assert i == j;
      }
    }
  }

  /** A variant of a combination whose value ids are out of order is
      deleted by every save, and the save's lookup misses it, although the
      page finds and shows it: each save replaces it by a new variant. */
  lemma {:induction false} UnsortedComboChurns(db: Db, pid: Id, c: seq<Row<VariantValue>>)
    requires IdsIncreasing(db.options) && IdsIncreasing(db.values)
    requires c in Combos(db, pid) && !StrictlyIncreasing(KeyOf(c))
    requires Elems(KeyOf(c)) in MapOf(db, pid)
    ensures var m := MapOf(db, pid);
            && m[Elems(KeyOf(c))].id in Doomed(m, CurrentKeys(Combos(db, pid)))
            && PostLookup(m, KeyOf(c)) == None
            && GetLookup(m, KeyOf(c)) == Some(m[Elems(KeyOf(c))])
  {
    var m := MapOf(db, pid);
    var combos := Combos(db, pid);
    var keys := CurrentKeys(combos);
    var S := Elems(KeyOf(c));
    forall k | k in keys && StrictlyIncreasing(k) ensures Elems(k) != S {
      var c' :| c' in combos && KeyOf(c') == k;
      CombosDetermined(db, pid, c, c');
    }
    assert S in m && !Listed(S, keys);
    ComboKeyDistinct(db, pid, c);
  }

  /** The variants the first loop of a save deletes. When no two variants
      of the product share a value set, a variant is deleted exactly when it
      belongs to the product and its value set, sorted, is not a current key. */
  lemma {:induction false} DoomedExactly(db: Db, pid: Id, x: Row<ProductVariant>)
    requires IdsIncreasing(db.variants)
    requires UniqueCombos(VariantsOf(db, pid), db.links)
    requires x in db.variants
    ensures var keys := CurrentKeys(Combos(db, pid));
            x.id in Doomed(MapOf(db, pid), keys)
            <==> x.data.productId == pid && !Listed(LinkSet(db.links, x.id), keys)
  {
    var vs := VariantsOf(db, pid);
    var m := ComboMap(vs, db.links);
    var keys := CurrentKeys(Combos(db, pid));
    forall S | S in m && !Listed(S, keys) ensures m[S].id == x.id ==> m[S] == x {
      SameIdSameRow(db.variants, m[S], x);
    }
    if x.data.productId == pid {
      var i :| 0 <= i < |vs| && vs[i] == x;
      ComboMapLast(vs, db.links, i);
      if !Listed(LinkSet(db.links, x.id), keys) {
        assert x.id in Doomed(m, keys);
      }
    }
  }

  /** When two variants share a value set, the dictionary holds a later one
      under that set. */
  lemma {:induction false} ComboMapLatest(vs: seq<Row<ProductVariant>>, links: set<Link>, i: nat, j: nat) returns (k: nat)
    requires i < j < |vs|
    requires LinkSet(links, vs[i].id) == LinkSet(links, vs[j].id)
    ensures i < k < |vs| && ComboMap(vs, links)[LinkSet(links, vs[i].id)] == vs[k]
  {
    var S := LinkSet(links, vs[i].id);
    var init := vs[..|vs| - 1];
    var last := vs[|vs| - 1];
    assert ComboMap(vs, links) == ComboMap(init, links)[LinkSet(links, last.id) := last];
    if LinkSet(links, last.id) == S {
      k := |vs| - 1;
    } else {
      assert init[i] == vs[i] && init[j] == vs[j];
      k := ComboMapLatest(init, links, i, j);
      assert init[k] == vs[k];
    }
  }

  /** The loop over the dictionary never sees an earlier variant of the
      product whose value set a later one shares: it survives the deletions
      whether or not its set, sorted, is a current key. */
  lemma {:induction false} ShadowedDuplicateSurvives(db: Db, pid: Id, i: nat, j: nat)
    requires IdsIncreasing(db.variants)
    requires i < j < |VariantsOf(db, pid)|
    requires LinkSet(db.links, VariantsOf(db, pid)[i].id) == LinkSet(db.links, VariantsOf(db, pid)[j].id)
    ensures VariantsOf(db, pid)[i] in Cleared(db, pid).variants
  {
    var vs := VariantsOf(db, pid);
    var m := MapOf(db, pid);
    var keys := CurrentKeys(Combos(db, pid));
    var x := vs[i];
    var S := LinkSet(db.links, x.id);
    var k := ComboMapLatest(vs, db.links, i, j);
    assert x in vs && vs[i].id < vs[k].id;
    assert x.id !in Doomed(m, keys);
  }

  /** The first loop of a save. When no two variants of the product share a
      value set, a variant of the product is kept exactly when its value set,
      sorted, is a current key; the variants of other products are kept; a
      kept variant keeps its join rows and a deleted one keeps none. */
  lemma DeletionKeeps(db: Db, pid: Id, x: Row<ProductVariant>)
    requires IdsIncreasing(db.variants)
    requires UniqueCombos(VariantsOf(db, pid), db.links)
    requires x in db.variants
    ensures var keys := CurrentKeys(Combos(db, pid));
            var cleared := Cleared(db, pid);
            && (x in cleared.variants <==> x.data.productId != pid || Listed(LinkSet(db.links, x.id), keys))
            && (x in cleared.variants ==> LinkSet(cleared.links, x.id) == LinkSet(db.links, x.id))
            && (x !in cleared.variants ==> LinkSet(cleared.links, x.id) == {})
  {
    var doomed := Doomed(MapOf(db, pid), CurrentKeys(Combos(db, pid)));
    DoomedExactly(db, pid, x);
    LinkSetWithout(db.links, doomed, x.id);
  }

  // ---------------------------------------------------------------------
  // Saving the rows (website/admin.py:207-236)

  /** The variants after `existing_variant.price = ...` and
      `existing_variant.environmental_impact = ...` on variant `id`: that
      variant gets the new price and impact and keeps its SKU, stock and
      product; every other row is left as it was. */
  function Reprice(vs: seq<Row<ProductVariant>>, id: Id, price: real, impact: real): (r: seq<Row<ProductVariant>>)
    ensures |r| == |vs| && Ids(r) == Ids(vs)
    ensures IdsIncreasing(vs) ==> IdsIncreasing(r)
    ensures forall k :: 0 <= k < |vs| ==> && r[k].id == vs[k].id
                                           && r[k].data.productId == vs[k].data.productId
                                           && r[k].data.sku == vs[k].data.sku
                                           && r[k].data.stock == vs[k].data.stock
    ensures forall k :: 0 <= k < |vs| && vs[k].id == id ==> r[k].data.price == price && r[k].data.impact == impact
    ensures forall k :: 0 <= k < |vs| && vs[k].id != id ==> r[k] == vs[k]
  {
    var r := seq(|vs|, k requires 0 <= k < |vs| =>
                   if vs[k].id == id then Row(id, vs[k].data.(price := price, impact := impact)) else vs[k]);
    assert Ids(r) == Ids(vs) by {
      forall x | x in Ids(r) ensures x in Ids(vs) {
        var k :| 0 <= k < |r| && r[k].id == x;
        assert vs[k] in vs;
      }
      forall x | x in Ids(vs) ensures x in Ids(r) {
        var k :| 0 <= k < |vs| && vs[k].id == x;
        assert r[k] in r;
      }
    }
    r
  }

  /** The join rows of a new variant: one per value of its combination. */
  function LinksFor(vid: Id, combo: seq<Row<VariantValue>>): (r: set<Link>)
    ensures forall l: Link :: l in r <==> l.variantId == vid && l.valueId in Elems(KeyOf(combo))
  {
    var r := set v | v in combo :: Link(vid, v.id);
    assert forall l: Link :: l.variantId == vid && l.valueId in Elems(KeyOf(combo)) ==> l in r by {
      forall l: Link | l.variantId == vid && l.valueId in Elems(KeyOf(combo)) ensures l in r {
        var i :| 0 <= i < |combo| && KeyOf(combo)[i] == l.valueId;
        assert Link(vid, combo[i].id) in r;
      }
    }
    forall l | l in r ensures l.valueId in Elems(KeyOf(combo)) {
      var v :| v in combo && l == Link(vid, v.id);
      var i :| 0 <= i < |combo| && combo[i] == v;
      assert KeyOf(combo)[i] == v.id;
    }
    r
  }

  /** The SKUs in use; the column is unique. */
  function Skus(vs: seq<Row<ProductVariant>>): set<string>
  {
    set x | x in vs :: x.data.sku
  }

  /** The state after a row, or the SKU whose insertion violated the unique
      constraint and aborted the request. */
  datatype Step = Ok(db: Db) | Clash(sku: string)

  /** The row with prefix `i`; a missing row has every field empty. */
  function RowForm(forms: seq<VariantRowForm>, i: nat): VariantRowForm
  {
    if i < |forms| then forms[i] else EmptyRow
  }

  /** `generate_auto_sku(product, combo)`. */
  function NewSku(p: Row<Product>, combo: seq<Row<VariantValue>>): string
  {
    GenerateAutoSku(p.data.category, p.data.name, ValueTexts(combo))
  }

  /** The tables with the price and impact of variant `id` replaced. */
  function SetPrice(db: Db, id: Id, price: real, impact: real): (r: Db)
    ensures r.products == db.products && r.options == db.options && r.values == db.values
    ensures r.links == db.links && Ids(r.variants) == Ids(db.variants)
  {
    db.(variants := Reprice(db.variants, id, price, impact))
  }

  /** The tables with a new variant of product `pid` for `combo`: it takes
      the next id and gets one join row per value of the combination. */
  function AddVariant(db: Db, pid: Id, combo: seq<Row<VariantValue>>, sku: string,
                      price: real, impact: real, stock: int): (r: Db)
    ensures r.products == db.products && r.options == db.options && r.values == db.values
    ensures |r.variants| == |db.variants| + 1 && r.variants[..|db.variants|] == db.variants
    ensures r.variants[|db.variants|] == Row(NextId(db.variants), ProductVariant(pid, sku, price, impact, stock))
    ensures r.links == db.links + LinksFor(NextId(db.variants), combo)
    ensures Ids(db.variants) <= Ids(r.variants)
  {
    var vs := Append(db.variants, ProductVariant(pid, sku, price, impact, stock));
    assert Ids(db.variants) <= Ids(vs) by {
      forall x | x in Ids(db.variants) ensures x in Ids(vs) {
        var y :| y in db.variants && y.id == x;
        assert y in vs[..|db.variants|];
      }
    }
    db.(variants := vs, links := db.links + LinksFor(NextId(db.variants), combo))
  }

  /** One row of the table, for combination `combo` of product `p`. A row
      that fails validation is skipped. A valid row whose key finds a
      variant in the map reprices it. Otherwise a variant is added with the
      generated SKU, the next id and the row's price, impact and stock,
      together with one join row per value; if that SKU is taken the
      request fails. */
  function SaveRow(db: Db, p: Row<Product>, m: map<set<Id>, Row<ProductVariant>>,
                   combo: seq<Row<VariantValue>>, f: VariantRowForm): (r: Step)
  {
    if !VariantRowValid(f) then Ok(db)
    else match PostLookup(m, KeyOf(combo))
      case Some(v) => Ok(SetPrice(db, v.id, f.price.value, f.impact.value))
      case None =>
        var sku := NewSku(p, combo);
        if sku in Skus(db.variants) then Clash(sku)
        else Ok(AddVariant(db, p.id, combo, sku, f.price.value, f.impact.value, f.stock.value))
  }

  /** An invalid row changes nothing; a valid row fails exactly when it is
      not in the map and its generated SKU is taken, and then reports that
      SKU; a valid row found in the map is repriced, and one not found is
      added as a new variant with the generated SKU and the row's figures;
      a saved row touches only the variant and link tables, keeps every
      link and every variant id. */
  lemma SaveRowEffect(db: Db, p: Row<Product>, m: map<set<Id>, Row<ProductVariant>>,
                      combo: seq<Row<VariantValue>>, f: VariantRowForm)
    ensures var r := SaveRow(db, p, m, combo, f);
            && (!VariantRowValid(f) ==> r == Ok(db))
            && (r.Clash? <==> VariantRowValid(f) && PostLookup(m, KeyOf(combo)).None? && NewSku(p, combo) in Skus(db.variants))
            && (r.Clash? ==> r.sku == NewSku(p, combo))
            && (VariantRowValid(f) && PostLookup(m, KeyOf(combo)).Some? ==>
                  r == Ok(SetPrice(db, PostLookup(m, KeyOf(combo)).value.id, f.price.value, f.impact.value)))
            && (VariantRowValid(f) && PostLookup(m, KeyOf(combo)).None? && r.Ok? ==>
                  r.db == AddVariant(db, p.id, combo, NewSku(p, combo), f.price.value, f.impact.value, f.stock.value))
            && (r.Ok? ==> r.db.products == db.products && r.db.options == db.options && r.db.values == db.values)
            && (r.Ok? ==> db.links <= r.db.links && Ids(db.variants) <= Ids(r.db.variants))
  {
  }

  /** The first `n` rows in turn; the first clash ends the loop. */
  function SaveRows(db: Db, p: Row<Product>, m: map<set<Id>, Row<ProductVariant>>,
                    combos: seq<seq<Row<VariantValue>>>, forms: seq<VariantRowForm>, n: nat): (r: Step)
    requires n <= |combos|
  {
    if n == 0 then Ok(db)
    else
      match SaveRows(db, p, m, combos, forms, n - 1)
      case Clash(s) => Clash(s)
      case Ok(d) => SaveRow(d, p, m, combos[n - 1], RowForm(forms, n - 1))
  }

  /** What a view ends with: an unknown product (404), a product without
      options (redirect to the options page), the page shown, the data
      saved (redirect), or a save that failed on a taken SKU (error). */
  datatype Outcome = NotFound | NoOptions | FormShown | Saved | SkuClash(sku: string)

  /** A POST to `add_product_variants`: the tables afterwards and the outcome.
      The deletions are committed before the rows are saved, so a clash
      leaves the tables as the deletions left them. */
  function SaveVariants(db: Db, pid: Id, forms: seq<VariantRowForm>): (r: (Db, Outcome))
    ensures Find(db.products, pid).None? <==> r.1 == NotFound
    ensures r.1 == NotFound ==> r.0 == db
    ensures r.1 in {NotFound, Saved} || r.1.SkuClash?
  {
    match Find(db.products, pid)
    case None => (db, NotFound)
    case Some(p) =>
      var combos := Combos(db, pid);
      match SaveRows(Cleared(db, pid), p, MapOf(db, pid), combos, forms, |combos|)
      case Ok(d) => (d, Saved)
      case Clash(s) => (Cleared(db, pid), SkuClash(s))
  }

  // ---------------------------------------------------------------------
  // What a save keeps

  /** The fields of a variant that saving a row never changes. */
  predicate SameVariant(a: Row<ProductVariant>, b: Row<ProductVariant>)
  {
    a.id == b.id && a.data.productId == b.data.productId && a.data.sku == b.data.sku && a.data.stock == b.data.stock
  }

  /** `d` is `c` with rows saved: the same products, options and values; the
      variants of `c` still first, in order, with their ids, products, SKUs
      and stocks; and each of them with the join rows it had. */
  predicate Extends(c: Db, d: Db)
  {
    && d.products == c.products && d.options == c.options && d.values == c.values
    && |c.variants| <= |d.variants|
    && (forall k :: 0 <= k < |c.variants| ==> SameVariant(c.variants[k], d.variants[k]))
    && (forall id :: id in Ids(c.variants) ==> LinkSet(d.links, id) == LinkSet(c.links, id))
  }

  /** The join rows of a new variant change the value set of that variant only. */
  lemma LinkSetPlus(links: set<Link>, id: Id, combo: seq<Row<VariantValue>>, x: Id)
    ensures LinkSet(links + LinksFor(id, combo), x) ==
            if x == id then LinkSet(links, x) + Elems(KeyOf(combo)) else LinkSet(links, x)
  {
    var after := links + LinksFor(id, combo);
    if x == id {
      forall v | v in Elems(KeyOf(combo)) ensures v in LinkSet(after, x) {
        assert Link(x, v) in after;
      }
    }
  }

  /** Deleting variants together with their join rows keeps the tables consistent. */
  lemma ClearedConsistent(db: Db, pid: Id)
    requires Consistent(db)
    ensures Consistent(Cleared(db, pid))
  {
    var c := Cleared(db, pid);
    forall l | l in c.links ensures l.variantId in Ids(c.variants) {
      var x :| x in db.variants && x.id == l.variantId;
      assert x in c.variants;
    }
  }

  /** Repricing a variant extends the tables. */
  lemma {:induction false} SetPriceExtends(c: Db, d: Db, id: Id, price: real, impact: real)
    requires Extends(c, d)
    ensures Extends(c, SetPrice(d, id, price, impact))
  {
  }

  /** Adding a variant extends the tables: its id is new, so its join rows
      belong to no variant of `c`. */
  lemma {:induction false} AddVariantExtends(c: Db, d: Db, pid: Id, combo: seq<Row<VariantValue>>, sku: string,
                                             price: real, impact: real, stock: int)
    requires Extends(c, d)
    ensures Extends(c, AddVariant(d, pid, combo, sku, price, impact, stock))
  {
    var r := AddVariant(d, pid, combo, sku, price, impact, stock);
    var id := NextId(d.variants);
    NextIdAbove(d.variants);
    forall x | x in Ids(c.variants) ensures LinkSet(r.links, x) == LinkSet(c.links, x) {
      var y :| y in c.variants && y.id == x;
      var k :| 0 <= k < |c.variants| && c.variants[k] == y;
      assert d.variants[k] in d.variants;
      LinkSetPlus(d.links, id, combo, x);
    }
    forall k | 0 <= k < |c.variants| ensures SameVariant(c.variants[k], r.variants[k]) {
      assert r.variants[k] == r.variants[..|d.variants|][k];
    }
  }

  /** Repricing keeps the tables consistent. */
  lemma {:induction false} SetPriceConsistent(d: Db, id: Id, price: real, impact: real)
    requires Consistent(d)
    ensures Consistent(SetPrice(d, id, price, impact))
  {
    var vs := SetPrice(d, id, price, impact).variants;
    forall x | x in vs ensures x.data.productId in Ids(d.products) {
      var k :| 0 <= k < |vs| && vs[k] == x;
      assert d.variants[k] in d.variants;
    }
  }

  /** Adding a variant keeps the tables consistent, given that its product
      and the values of its combination are stored. */
  lemma {:induction false} AddVariantConsistent(d: Db, pid: Id, combo: seq<Row<VariantValue>>, sku: string,
                                                price: real, impact: real, stock: int)
    requires Consistent(d) && pid in Ids(d.products)
    requires forall i :: 0 <= i < |combo| ==> combo[i] in d.values
    ensures Consistent(AddVariant(d, pid, combo, sku, price, impact, stock))
  {
    var r := AddVariant(d, pid, combo, sku, price, impact, stock);
    var vs := r.variants;
    forall x | x in vs ensures x.data.productId in Ids(d.products) {
      var k :| 0 <= k < |vs| && vs[k] == x;
      if k < |d.variants| {
        assert vs[k] == vs[..|d.variants|][k];
      }
    }
    forall l | l in r.links ensures l.variantId in Ids(vs) && l.valueId in Ids(d.values) {
      if l !in d.links {
        assert vs[|d.variants|] in vs;
        var i :| 0 <= i < |combo| && KeyOf(combo)[i] == l.valueId;
      }
    }
  }

  /** Saving a row extends the tables it is applied to. */
  lemma {:induction false} StepExtends(c: Db, d: Db, p: Row<Product>, m: map<set<Id>, Row<ProductVariant>>,
                                       combo: seq<Row<VariantValue>>, f: VariantRowForm)
    requires Extends(c, d)
    ensures SaveRow(d, p, m, combo, f).Ok? ==> Extends(c, SaveRow(d, p, m, combo, f).db)
  {
    if VariantRowValid(f) {
      match PostLookup(m, KeyOf(combo))
      case Some(v) => SetPriceExtends(c, d, v.id, f.price.value, f.impact.value);
      case None => AddVariantExtends(c, d, p.id, combo, NewSku(p, combo), f.price.value, f.impact.value, f.stock.value);
    }
  }

  /** Saving a row keeps the tables consistent, given that its product and
      the values of its combination are stored. */
  lemma {:induction false} StepConsistent(d: Db, p: Row<Product>, m: map<set<Id>, Row<ProductVariant>>,
                                          combo: seq<Row<VariantValue>>, f: VariantRowForm)
    requires Consistent(d) && p in d.products
    requires forall i :: 0 <= i < |combo| ==> combo[i] in d.values
    ensures SaveRow(d, p, m, combo, f).Ok? ==> Consistent(SaveRow(d, p, m, combo, f).db)
  {
    if VariantRowValid(f) {
      match PostLookup(m, KeyOf(combo))
      case Some(v) => SetPriceConsistent(d, v.id, f.price.value, f.impact.value);
      case None => AddVariantConsistent(d, p.id, combo, NewSku(p, combo), f.price.value, f.impact.value, f.stock.value);
    }
  }

  // ---------------------------------------------------------------------
  // What a save achieves

  /** Some variant of product `pid` has exactly the values `S` and the
      given price and impact. */
  predicate Covered(d: Db, pid: Id, S: set<Id>, price: real, impact: real)
  {
    exists x :: && x in d.variants && x.data.productId == pid && LinkSet(d.links, x.id) == S
                && x.data.price == price && x.data.impact == impact
  }

  /** The variant the save's lookup finds for a combination is one the
      first loop kept, a variant of the product, with exactly the values of
      the combination. */
  lemma {:induction false} HitSurvives(db: Db, pid: Id, c: seq<Row<VariantValue>>)
    requires Consistent(db)
    requires c in Combos(db, pid) && PostLookup(MapOf(db, pid), KeyOf(c)).Some?
    ensures var v := PostLookup(MapOf(db, pid), KeyOf(c)).value;
            && v in Cleared(db, pid).variants && v.data.productId == pid
            && LinkSet(Cleared(db, pid).links, v.id) == Elems(KeyOf(c))
  {
    var m := MapOf(db, pid);
    var keys := CurrentKeys(Combos(db, pid));
    var S := Elems(KeyOf(c));
    var v := m[S];
    assert Listed(S, keys);
    forall S' | S' in m && !Listed(S', keys) ensures m[S'].id != v.id {
      SameIdSameRow(db.variants, m[S'], v);
    }
    var doomed := Doomed(m, keys);
    assert v.id !in doomed;
    LinkSetWithout(db.links, doomed, v.id);
  }

  /** No two combinations of a product are equal. */
  lemma CombosDistinct(db: Db, pid: Id)
    requires IdsIncreasing(db.values)
    ensures Distinct(Combos(db, pid))
  {
    var ls := ValueLists(db, pid);
    forall k | 0 <= k < |ls| ensures Distinct(ls[k]) {
      var vs: seq<Row<VariantValue>> := ls[k];
      forall i, j | 0 <= i < j < |vs| ensures vs[i] != vs[j] {
        assert vs[i].id < vs[j].id;
      }
    }
    CartesianDistinct(ls);
  }

  /** Variant ids from `NextId` have no join rows in consistent tables. */
  lemma FreshIdUnlinked(d: Db)
    requires Consistent(d)
    ensures LinkSet(d.links, NextId(d.variants)) == {}
  {
    forall l | l in d.links ensures l.variantId != NextId(d.variants) {
      var y :| y in d.variants && y.id == l.variantId;
    }
  }

  /** Repricing a kept variant of the product gives it the new price and impact. */
  lemma {:induction false} SetPriceCovers(c: Db, d: Db, pid: Id, v: Row<ProductVariant>, price: real, impact: real)
    requires Extends(c, d) && v in c.variants && v.data.productId == pid
    ensures Covered(SetPrice(d, v.id, price, impact), pid, LinkSet(c.links, v.id), price, impact)
  {
    var j :| 0 <= j < |c.variants| && c.variants[j] == v;
    assert v.id in Ids(c.variants);
    var r := SetPrice(d, v.id, price, impact);
    assert r.variants[j].id == v.id;
    assert r.variants[j] in r.variants;
  }

  /** A variant added for a combination has exactly its values. */
  lemma {:induction false} AddVariantCovers(d: Db, pid: Id, combo: seq<Row<VariantValue>>, sku: string,
                                            price: real, impact: real, stock: int)
    requires Consistent(d)
    ensures Covered(AddVariant(d, pid, combo, sku, price, impact, stock), pid, Elems(KeyOf(combo)), price, impact)
  {
    var r := AddVariant(d, pid, combo, sku, price, impact, stock);
    var id := NextId(d.variants);
    FreshIdUnlinked(d);
    LinkSetPlus(d.links, id, combo, id);
    assert r.variants[|d.variants|] in r.variants;
  }

  /** Repricing a variant with other values leaves a covered value set covered. */
  lemma {:induction false} SetPriceKeeps(d: Db, vid: Id, price: real, impact: real,
                                         pid: Id, S: set<Id>, pr: real, im: real)
    requires Covered(d, pid, S, pr, im) && LinkSet(d.links, vid) != S
    ensures Covered(SetPrice(d, vid, price, impact), pid, S, pr, im)
  {
    var x :| && x in d.variants && x.data.productId == pid && LinkSet(d.links, x.id) == S
             && x.data.price == pr && x.data.impact == im;
    var k :| 0 <= k < |d.variants| && d.variants[k] == x;
    var r := SetPrice(d, vid, price, impact);
    assert r.variants[k] == x;
    assert r.variants[k] in r.variants;
  }

  /** Variant `v` survived the deletions, belongs to product `pid` and has
      exactly the values `S`. */
  predicate Kept(c: Db, pid: Id, v: Row<ProductVariant>, S: set<Id>)
  {
    v in c.variants && v.data.productId == pid && LinkSet(c.links, v.id) == S
  }

  /** What the loop over the rows may rely on, about the tables `c` the
      deletions left, the product `p`, the map `m` and the combinations:
      consistent tables holding the product and every value of every
      combination; no two combinations with the same value set; and every
      variant a lookup finds kept, with the values of its combination. */
  predicate Setting(c: Db, p: Row<Product>, m: map<set<Id>, Row<ProductVariant>>, combos: seq<seq<Row<VariantValue>>>)
  {
    && Consistent(c) && p in c.products
    && (forall i, k :: 0 <= i < |combos| && 0 <= k < |combos[i]| ==> combos[i][k] in c.values)
    && (forall i, j :: 0 <= i < j < |combos| ==> Elems(KeyOf(combos[i])) != Elems(KeyOf(combos[j])))
    && (forall i :: 0 <= i < |combos| && PostLookup(m, KeyOf(combos[i])).Some? ==>
                      Kept(c, p.id, PostLookup(m, KeyOf(combos[i])).value, Elems(KeyOf(combos[i]))))
  }

  /** A save of a stored product in consistent tables runs its loop in that setting. */
  lemma {:induction false} SaveSetting(db: Db, pid: Id)
    requires Consistent(db) && Find(db.products, pid).Some?
    ensures Setting(Cleared(db, pid), Find(db.products, pid).value, MapOf(db, pid), Combos(db, pid))
  {
    var combos := Combos(db, pid);
    ClearedConsistent(db, pid);
    forall i, k | 0 <= i < |combos| && 0 <= k < |combos[i]| ensures combos[i][k] in db.values {
      ComboValues(db, pid, combos[i]);
    }
    CombosDistinct(db, pid);
    forall i, j | 0 <= i < j < |combos| ensures Elems(KeyOf(combos[i])) != Elems(KeyOf(combos[j])) {
      CombosDetermined(db, pid, combos[i], combos[j]);
    }
    forall i | 0 <= i < |combos| && PostLookup(MapOf(db, pid), KeyOf(combos[i])).Some?
      ensures Kept(Cleared(db, pid), pid, PostLookup(MapOf(db, pid), KeyOf(combos[i])).value, Elems(KeyOf(combos[i])))
    {
      HitSurvives(db, pid, combos[i]);
    }
  }

  /** After a valid row is saved, some variant of the product has exactly
      the values of its combination and the row's price and impact: the one
      the lookup found, repriced, or the one just added. */
  lemma {:induction false} StepCovers(c: Db, d: Db, p: Row<Product>, m: map<set<Id>, Row<ProductVariant>>,
                                      combo: seq<Row<VariantValue>>, f: VariantRowForm)
    requires Extends(c, d) && Consistent(d) && VariantRowValid(f)
    requires PostLookup(m, KeyOf(combo)).Some? ==> Kept(c, p.id, PostLookup(m, KeyOf(combo)).value, Elems(KeyOf(combo)))
    ensures var r := SaveRow(d, p, m, combo, f);
            r.Ok? ==> Covered(r.db, p.id, Elems(KeyOf(combo)), f.price.value, f.impact.value)
  {
    match PostLookup(m, KeyOf(combo))
    case Some(v) =>
      assert SaveRow(d, p, m, combo, f) == Ok(SetPrice(d, v.id, f.price.value, f.impact.value));
      SetPriceCovers(c, d, p.id, v, f.price.value, f.impact.value);
    case None =>
      var sku := NewSku(p, combo);
      if sku !in Skus(d.variants) {
        assert SaveRow(d, p, m, combo, f) == Ok(AddVariant(d, p.id, combo, sku, f.price.value, f.impact.value, f.stock.value));
        AddVariantCovers(d, p.id, combo, sku, f.price.value, f.impact.value, f.stock.value);
      }
  }

  /** Saving a row leaves a variant with other values in place, with its
      price and impact. */
  lemma {:induction false} StepKeepsCovered(c: Db, d: Db, p: Row<Product>, m: map<set<Id>, Row<ProductVariant>>,
                                            combo: seq<Row<VariantValue>>, f: VariantRowForm,
                                            S: set<Id>, pr: real, im: real)
    requires Extends(c, d)
    requires PostLookup(m, KeyOf(combo)).Some? ==> Kept(c, p.id, PostLookup(m, KeyOf(combo)).value, Elems(KeyOf(combo)))
    requires S != Elems(KeyOf(combo)) && Covered(d, p.id, S, pr, im)
    ensures var r := SaveRow(d, p, m, combo, f);
            r.Ok? ==> Covered(r.db, p.id, S, pr, im)
  {
    NextIdAbove(d.variants);
    if VariantRowValid(f) && PostLookup(m, KeyOf(combo)).Some? {
      var v := PostLookup(m, KeyOf(combo)).value;
      assert v.id in Ids(c.variants);
      SetPriceKeeps(d, v.id, f.price.value, f.impact.value, p.id, S, pr, im);
    }
  }

  /** Whether valid row `i` has its variant in `d`. */
  predicate RowCovered(d: Db, pid: Id, combos: seq<seq<Row<VariantValue>>>, forms: seq<VariantRowForm>, i: nat)
    requires i < |combos|
  {
    var f := RowForm(forms, i);
    VariantRowValid(f) ==> Covered(d, pid, Elems(KeyOf(combos[i])), f.price.value, f.impact.value)
  }

  /** The loop over the rows, after `n` rows: the tables extend those the
      deletions left, stay consistent, and every valid row among the first
      `n` has its variant. */
  lemma {:induction false} SaveRowsCover(c: Db, p: Row<Product>, m: map<set<Id>, Row<ProductVariant>>,
                                         combos: seq<seq<Row<VariantValue>>>, forms: seq<VariantRowForm>, n: nat)
    requires Setting(c, p, m, combos) && n <= |combos|
    ensures var r := SaveRows(c, p, m, combos, forms, n);
            r.Ok? ==> && Extends(c, r.db) && Consistent(r.db)
                      && forall i :: 0 <= i < n ==> RowCovered(r.db, p.id, combos, forms, i)
  {
    if n > 0 {
      SaveRowsCover(c, p, m, combos, forms, n - 1);
      var prev := SaveRows(c, p, m, combos, forms, n - 1);
      if prev.Ok? {
        CoverStep(c, p, m, combos, forms, n, prev.db);
      }
    }
  }

  /** One turn of the loop over the rows keeps the three facts of `SaveRowsCover`. */
  lemma CoverStep(c: Db, p: Row<Product>, m: map<set<Id>, Row<ProductVariant>>,
                  combos: seq<seq<Row<VariantValue>>>, forms: seq<VariantRowForm>, n: nat, d: Db)
    requires Setting(c, p, m, combos) && 0 < n <= |combos|
    requires Extends(c, d) && Consistent(d)
    requires forall i :: 0 <= i < n - 1 ==> RowCovered(d, p.id, combos, forms, i)
    ensures var r := SaveRow(d, p, m, combos[n - 1], RowForm(forms, n - 1));
            r.Ok? ==> && Extends(c, r.db) && Consistent(r.db)
                      && forall i :: 0 <= i < n ==> RowCovered(r.db, p.id, combos, forms, i)
  {
    var combo := combos[n - 1];
    var f := RowForm(forms, n - 1);
    var r := SaveRow(d, p, m, combo, f);
    assert p in d.products;
    forall i | 0 <= i < |combo| ensures combo[i] in d.values {
      assert combos[n - 1][i] in c.values;
    }
    StepExtends(c, d, p, m, combo, f);
    StepConsistent(d, p, m, combo, f);
    if VariantRowValid(f) {
      assert PostLookup(m, KeyOf(combo)).Some? ==> Kept(c, p.id, PostLookup(m, KeyOf(combo)).value, Elems(KeyOf(combo)));
      StepCovers(c, d, p, m, combo, f);
    }
    StepKeepsRows(c, d, p, m, combos, forms, n);
    if r.Ok? {
      forall i | 0 <= i < n ensures RowCovered(r.db, p.id, combos, forms, i) {
        if i == n - 1 {
          assert RowForm(forms, i) == f && combos[i] == combo;
        }
      }
    }
  }

  /** Saving row `n - 1` keeps the variants of the rows before it. */
  lemma {:induction false} StepKeepsRows(c: Db, d: Db, p: Row<Product>, m: map<set<Id>, Row<ProductVariant>>,
                                         combos: seq<seq<Row<VariantValue>>>, forms: seq<VariantRowForm>, n: nat)
    requires Setting(c, p, m, combos) && 0 < n <= |combos| && Extends(c, d)
    requires forall i :: 0 <= i < n - 1 ==> RowCovered(d, p.id, combos, forms, i)
    ensures var r := SaveRow(d, p, m, combos[n - 1], RowForm(forms, n - 1));
            r.Ok? ==> forall i :: 0 <= i < n - 1 ==> RowCovered(r.db, p.id, combos, forms, i)
  {
    var combo := combos[n - 1];
    var f := RowForm(forms, n - 1);
    var r := SaveRow(d, p, m, combo, f);
    forall i | 0 <= i < n - 1 ensures r.Ok? ==> RowCovered(r.db, p.id, combos, forms, i) {
      var g := RowForm(forms, i);
      if VariantRowValid(g) {
        assert RowCovered(d, p.id, combos, forms, i);
        assert Elems(KeyOf(combos[i])) != Elems(KeyOf(combo));
        StepKeepsCovered(c, d, p, m, combo, f, Elems(KeyOf(combos[i])), g.price.value, g.impact.value);
      }
    }
  }

  /** A POST to `add_product_variants` for a stored product on consistent
      tables leaves them consistent. When it saves, every valid row's
      combination has a variant of the product with exactly its values and
      the row's price and impact, and every variant the deletions kept is
      still there, first and in order, with its SKU, stock and values. When
      an SKU is taken, the tables are those the deletions left. */
  lemma SaveVariantsEffect(db: Db, pid: Id, forms: seq<VariantRowForm>)
    requires Consistent(db) && Find(db.products, pid).Some?
    ensures var (d, o) := SaveVariants(db, pid, forms);
            && Consistent(d)
            && (o == Saved ==> && Extends(Cleared(db, pid), d)
                               && forall i :: 0 <= i < |Combos(db, pid)| ==> RowCovered(d, pid, Combos(db, pid), forms, i))
            && (o.SkuClash? ==> d == Cleared(db, pid))
  {
    var p := Find(db.products, pid).value;
    SaveSetting(db, pid);
    SaveRowsCover(Cleared(db, pid), p, MapOf(db, pid), Combos(db, pid), forms, |Combos(db, pid)|);
    ClearedConsistent(db, pid);
  }

  // ---------------------------------------------------------------------
  // The page (website/admin.py:238-256)

  /** The row the page shows for a combination: the SKU, price, impact and
      stock of the variant the sorted lookup finds, or else the generated
      SKU with the other fields empty. */
  function PrefillRow(p: Row<Product>, m: map<set<Id>, Row<ProductVariant>>, combo: seq<Row<VariantValue>>): (f: VariantRowForm)
    ensures f.sku.Some?
    ensures f.price.Some? <==> GetLookup(m, KeyOf(combo)).Some?
    ensures f.price.None? ==> f == VariantRowForm(Some(NewSku(p, combo)), None, None, None)
  {
    match GetLookup(m, KeyOf(combo))
    case Some(v) => VariantRowForm(Some(v.data.sku), Some(v.data.price), Some(v.data.impact), Some(v.data.stock))
    case None => VariantRowForm(Some(NewSku(p, combo)), None, None, None)
  }

  /** A GET of `add_product_variants`: `None` for an unknown product,
      otherwise one prefilled row per combination, in combination order. */
  function ShowVariants(db: Db, pid: Id): (r: Option<seq<VariantRowForm>>)
    ensures r.None? <==> Find(db.products, pid).None?
    ensures r.Some? ==> |r.value| == |Combos(db, pid)|
  {
    match Find(db.products, pid)
    case None => None
    case Some(p) =>
      Some(PrefillRows(p, MapOf(db, pid), Combos(db, pid)))
  }

  /** The rows of the page, one per combination. */
  function PrefillRows(p: Row<Product>, m: map<set<Id>, Row<ProductVariant>>,
                       combos: seq<seq<Row<VariantValue>>>): (r: seq<VariantRowForm>)
    ensures |r| == |combos|
  {
    seq(|combos|, k requires 0 <= k < |combos| => PrefillRow(p, m, combos[k]))
  }

  /** Row `k` of the page is the prefill of combination `k`. */
  lemma PrefillRowsAt(p: Row<Product>, m: map<set<Id>, Row<ProductVariant>>,
                      combos: seq<seq<Row<VariantValue>>>, k: nat)
    requires k < |combos|
    ensures PrefillRows(p, m, combos)[k] == PrefillRow(p, m, combos[k])
  {
  }

  /** The rows of the first `i + 1` combinations are those of the first `i`
      and the prefill of combination `i`. */
  lemma PrefillRowsSnoc(p: Row<Product>, m: map<set<Id>, Row<ProductVariant>>,
                        combos: seq<seq<Row<VariantValue>>>, i: nat)
    requires i < |combos|
    ensures PrefillRows(p, m, combos[..i + 1]) == PrefillRows(p, m, combos[..i]) + [PrefillRow(p, m, combos[i])]
  {
    var after := PrefillRows(p, m, combos[..i + 1]);
    var rows := PrefillRows(p, m, combos[..i]) + [PrefillRow(p, m, combos[i])];
    forall j | 0 <= j <= i ensures after[j] == rows[j] {
      if j < i {
        assert combos[..i + 1][j] == combos[..i][j];
      } else {
        assert combos[..i + 1][j] == combos[i];
      }
    }
    assert after == rows;
  }

  /** Variants with the same value set: which of them the page shows. When
      no two variants of the product share a value set, the row of a
      combination shows the variant with exactly its values whenever there
      is one, and the generated SKU with empty fields when there is none. */
  lemma {:induction false} ShowVariantsRow(db: Db, pid: Id, i: nat)
    requires Consistent(db) && Find(db.products, pid).Some?
    requires UniqueCombos(VariantsOf(db, pid), db.links)
    requires i < |Combos(db, pid)|
    ensures var c := Combos(db, pid)[i];
            var f := ShowVariants(db, pid).value[i];
            && (forall x :: x in VariantsOf(db, pid) && LinkSet(db.links, x.id) == Elems(KeyOf(c)) ==>
                             f == VariantRowForm(Some(x.data.sku), Some(x.data.price), Some(x.data.impact), Some(x.data.stock)))
            && ((forall x :: x in VariantsOf(db, pid) ==> LinkSet(db.links, x.id) != Elems(KeyOf(c))) ==>
                  f == VariantRowForm(Some(NewSku(Find(db.products, pid).value, c)), None, None, None))
  {
    var c := Combos(db, pid)[i];
    var vs := VariantsOf(db, pid);
    var m := MapOf(db, pid);
    PrefillRowsAt(Find(db.products, pid).value, m, Combos(db, pid), i);
    ComboKeyDistinct(db, pid, c);
    forall x | x in vs && LinkSet(db.links, x.id) == Elems(KeyOf(c))
      ensures m[Elems(KeyOf(c))] == x
    {
      var j :| 0 <= j < |vs| && vs[j] == x;
      ComboMapLast(vs, db.links, j);
    }
  }

  /** Sending the page back unchanged reprices a found variant with its own
      price and impact, so the save changes nothing for it, provided its
      key is in order; with the key out of order the save adds a new
      variant instead (see `UnsortedComboChurns`). */
  lemma ResubmitFoundRow(d: Db, p: Row<Product>, m: map<set<Id>, Row<ProductVariant>>, combo: seq<Row<VariantValue>>)
    requires IdsIncreasing(d.variants) && StrictlyIncreasing(KeyOf(combo))
    requires GetLookup(m, KeyOf(combo)).Some? && GetLookup(m, KeyOf(combo)).value in d.variants
    requires VariantRowValid(PrefillRow(p, m, combo))
    ensures SaveRow(d, p, m, combo, PrefillRow(p, m, combo)) == Ok(d)
  {
    var v := GetLookup(m, KeyOf(combo)).value;
    var r := Reprice(d.variants, v.id, v.data.price, v.data.impact);
    forall k | 0 <= k < |d.variants| ensures r[k] == d.variants[k] {
      if d.variants[k].id == v.id {
        SameIdSameRow(d.variants, d.variants[k], v);
      }
    }
    assert r == d.variants;
  }

  // ---------------------------------------------------------------------
  // find_variant_by_combination (website/admin.py:15-31)

  /** How many of the ids `ids` variant `vid` has join rows for: the count
      per variant of the grouped query. */
  function Matches(links: set<Link>, vid: Id, ids: set<Id>): nat
  {
    |LinkSet(links, vid) * ids|
  }

  /** `find_variant_by_combination(product_id, combo)`: the first variant of
      the product, in id order, with as many join rows among the
      combination's values as the combination has entries; `None` for an
      empty combination, whose query has no group at all. */
  function FindVariantByCombination(db: Db, pid: Id, combo: seq<Row<VariantValue>>): (r: Option<Row<ProductVariant>>)
    ensures r.Some? ==> && combo != [] && r.value in VariantsOf(db, pid)
                        && Matches(db.links, r.value.id, Elems(KeyOf(combo))) == |combo|
    ensures r.None? <==> combo == [] || forall x :: x in VariantsOf(db, pid) ==> Matches(db.links, x.id, Elems(KeyOf(combo))) != |combo|
    ensures r.Some? && IdsIncreasing(db.variants) ==>
              forall x :: x in VariantsOf(db, pid) && x.id < r.value.id ==> Matches(db.links, x.id, Elems(KeyOf(combo))) != |combo|
  {
    var S := Elems(KeyOf(combo));
    var keep := (x: Row<ProductVariant>) => Matches(db.links, x.id, S) == |combo|;
    if combo == [] then None
    else
      var r := FirstWhere(VariantsOf(db, pid), keep);
      if r.Some? && IdsIncreasing(db.variants) then
        FirstInIdOrder(VariantsOf(db, pid), keep, r.value);
        r
      else r
  }

  /** In a table in id order, the first row that passes a test is the one
      with the least id among those that pass. */
  lemma FirstInIdOrder(vs: seq<Row<ProductVariant>>, keep: Row<ProductVariant> -> bool, v: Row<ProductVariant>)
    requires IdsIncreasing(vs)
    requires exists i :: 0 <= i < |vs| && vs[i] == v && forall j :: 0 <= j < i ==> !keep(vs[j])
    ensures forall x :: x in vs && x.id < v.id ==> !keep(x)
  {
    var i :| 0 <= i < |vs| && vs[i] == v && forall j :: 0 <= j < i ==> !keep(vs[j]);
    forall x | x in vs && x.id < v.id ensures !keep(x) {
      var j :| 0 <= j < |vs| && vs[j] == x;
    }
  }

  /** A subset is no larger, and one as large is the whole set. */
  lemma {:induction false} SubsetCard(x: set<Id>, y: set<Id>)
    requires x <= y
    ensures |x| <= |y|
    ensures |x| == |y| ==> x == y
    decreases |y|
  {
    if y != {} {
      var e :| e in y;
      SubsetCard(x - {e}, y - {e});
      assert |y - {e}| == |y| - 1;
      if e in x {
        assert |x - {e}| == |x| - 1;
        assert x == (x - {e}) + {e} && y == (y - {e}) + {e};
      } else {
        assert x - {e} == x;
      }
    }
  }

  /** A sequence without repetitions has as many elements as entries. */
  lemma {:induction false} DistinctCard(k: seq<Id>)
    requires Distinct(k)
    ensures |Elems(k)| == |k|
  {
    if k != [] {
      var t := k[1..];
      assert Distinct(t) by {
        forall i, j | 0 <= i < j < |t| ensures t[i] != t[j] {
          assert t[i] == k[i + 1] && t[j] == k[j + 1];
        }
      }
      DistinctCard(t);
      assert Elems(k) == {k[0]} + Elems(t) by {
        assert k == [k[0]] + t;
      }
      assert k[0] !in Elems(t) by {
        forall i | 0 <= i < |t| ensures t[i] != k[0] {
          assert t[i] == k[i + 1];
        }
      }
    }
  }

  /** What the query finds, for a combination of the product: the first
      variant, in id order, that has every value of the combination; it may
      have other values besides. */
  lemma FindVariantCovers(db: Db, pid: Id, c: seq<Row<VariantValue>>, x: Row<ProductVariant>)
    requires IdsIncreasing(db.options) && IdsIncreasing(db.values) && c in Combos(db, pid)
    ensures Matches(db.links, x.id, Elems(KeyOf(c))) == |c| <==> Elems(KeyOf(c)) <= LinkSet(db.links, x.id)
  {
    var S := Elems(KeyOf(c));
    var hit := LinkSet(db.links, x.id) * S;
    ComboKeyDistinct(db, pid, c);
    DistinctCard(KeyOf(c));
    SubsetCard(hit, S);
    if S <= LinkSet(db.links, x.id) {
      assert hit == S;
    }
  }

  /** The variant the comment of `find_variant_by_combination` describes:
      the first variant of the product, in id order, whose values are
      exactly those of the combination. */
  function FindExactVariant(db: Db, pid: Id, combo: seq<Row<VariantValue>>): (r: Option<Row<ProductVariant>>)
    ensures r.Some? ==> && combo != [] && r.value in VariantsOf(db, pid)
                        && LinkSet(db.links, r.value.id) == Elems(KeyOf(combo))
    ensures r.None? <==> combo == [] || forall x :: x in VariantsOf(db, pid) ==> LinkSet(db.links, x.id) != Elems(KeyOf(combo))
    ensures r.Some? && IdsIncreasing(db.variants) ==>
              forall x :: x in VariantsOf(db, pid) && x.id < r.value.id ==> LinkSet(db.links, x.id) != Elems(KeyOf(combo))
  {
    var S := Elems(KeyOf(combo));
    var keep := (x: Row<ProductVariant>) => LinkSet(db.links, x.id) == S;
    if combo == [] then None
    else
      var r := FirstWhere(VariantsOf(db, pid), keep);
      if r.Some? && IdsIncreasing(db.variants) then
        FirstInIdOrder(VariantsOf(db, pid), keep, r.value);
        r
      else r
  }

  /** What the exact lookup finds the query finds too, for the combinations
      of a product; in an id-ordered table both return the same first
      variant when the query's hit has no other values. */
  lemma FindExactIsMatch(db: Db, pid: Id, c: seq<Row<VariantValue>>)
    requires IdsIncreasing(db.options) && IdsIncreasing(db.values) && c in Combos(db, pid)
    ensures FindExactVariant(db, pid, c).Some? ==> FindVariantByCombination(db, pid, c).Some?
    ensures var q := FindVariantByCombination(db, pid, c);
            IdsIncreasing(db.variants) && q.Some? && LinkSet(db.links, q.value.id) == Elems(KeyOf(c)) ==>
              FindExactVariant(db, pid, c) == q
  {
    var e := FindExactVariant(db, pid, c);
    var q := FindVariantByCombination(db, pid, c);
    if e.Some? {
      FindVariantCovers(db, pid, c, e.value);
    }
    if IdsIncreasing(db.variants) && q.Some? && LinkSet(db.links, q.value.id) == Elems(KeyOf(c)) {
      assert e.Some?;
      assert q.value.id <= e.value.id;
      assert e.value.id <= q.value.id;
      SameIdSameRow(db.variants, e.value, q.value);
    }
  }

  /** The query accepts a variant with more values than the combination:
      for a glove stored as size Small and left hand, the lookup of the
      combination (Small) finds it, while no variant has exactly that value. */
  lemma FindVariantAcceptsExtraValues()
    ensures var v := Row(1, ProductVariant(1, "GLV-G-S-L", 30.0, 1.0, 4));
            var db := Db([Row(1, Product("Glove", "Gloves", true))],
                         [Row(1, VariantOption(1, "Size")), Row(2, VariantOption(1, "Hand"))],
                         [Row(3, VariantValue(1, "Small")), Row(5, VariantValue(2, "Left"))],
                         [v], {Link(1, 3), Link(1, 5)});
            var combo := [Row(3, VariantValue(1, "Small"))];
            && FindVariantByCombination(db, 1, combo) == Some(v)
            && LinkSet(db.links, v.id) != Elems(KeyOf(combo))
            && FindExactVariant(db, 1, combo) == None
  {
    var v := Row(1, ProductVariant(1, "GLV-G-S-L", 30.0, 1.0, 4));
    var db := Db([Row(1, Product("Glove", "Gloves", true))],
                 [Row(1, VariantOption(1, "Size")), Row(2, VariantOption(1, "Hand"))],
                 [Row(3, VariantValue(1, "Small")), Row(5, VariantValue(2, "Left"))],
                 [v], {Link(1, 3), Link(1, 5)});
    var combo := [Row(3, VariantValue(1, "Small"))];
    assert LinkSet(db.links, 1) == {3, 5} by {
      assert Link(1, 3) in db.links && Link(1, 5) in db.links;
    }
    assert Elems(KeyOf(combo)) == {3} by {
      assert KeyOf(combo)[0] == 3;
    }
    assert {3, 5} * {3} == {3};
    assert VariantsOf(db, 1) == [v] by {
      assert Filter(db.variants, (x: Row<ProductVariant>) => x.data.productId == 1) == [v];
    }
  }
}
