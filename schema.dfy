/** The tables behind the variant machinery (website/models.py:38-99) as
    values: each table is a sequence of rows in row-id order, and the
    `variant_combinations` join table, whose composite primary key makes it
    a set, is a set of (variant id, value id) pairs. A new row takes the
    next id after the largest one, as SQLite assigns row ids. */
module Schema {
  import opened Wrappers

  type Id = nat

  datatype Row<T> = Row(id: Id, data: T)

  /** A product; `category` is the name of its category (`product.category.name`). */
  datatype Product = Product(name: string, category: string, isVariantParent: bool)

  datatype VariantOption = VariantOption(productId: Id, name: string)

  datatype VariantValue = VariantValue(optionId: Id, value: string)

  datatype ProductVariant = ProductVariant(productId: Id, sku: string, price: real, impact: real, stock: int)

  /** A `variant_combinations` row: the variant has this value. */
  datatype Link = Link(variantId: Id, valueId: Id)

  datatype Db = Db(products: seq<Row<Product>>,
                   options: seq<Row<VariantOption>>,
                   values: seq<Row<VariantValue>>,
                   variants: seq<Row<ProductVariant>>,
                   links: set<Link>)

  // ---------------------------------------------------------------------
  // Tables

  /** Rows are kept in id order and no id occurs twice. */
  predicate IdsIncreasing<T>(t: seq<Row<T>>)
  {
    forall i, j :: 0 <= i < j < |t| ==> t[i].id < t[j].id
  }

  function Ids<T(==)>(t: seq<Row<T>>): set<Id>
  {
    set r | r in t :: r.id
  }

  /** The ids of a table are those of all but its last row and the last one's. */
  lemma IdsSnoc<T>(t: seq<Row<T>>)
    requires t != []
    ensures Ids(t) == Ids(t[..|t| - 1]) + {t[|t| - 1].id}
  {
    var init := t[..|t| - 1];
    forall x | x in t ensures x in init || x == t[|t| - 1] {
      var i :| 0 <= i < |t| && t[i] == x;
      if i < |init| { assert init[i] == x; }
    }
  }

  /** The largest id in use, 0 for an empty table. */
  function MaxId<T>(t: seq<Row<T>>): Id
  {
    if t == [] then 0
    else
      var m := MaxId(t[..|t| - 1]);
      if t[|t| - 1].id > m then t[|t| - 1].id else m
  }

  /** The largest id bounds every id in use and, in a table with rows, is one of them. */
  lemma {:induction false} MaxIdBounds<T>(t: seq<Row<T>>)
    ensures forall r :: r in t ==> r.id <= MaxId(t)
    ensures t != [] ==> exists r :: r in t && r.id == MaxId(t)
  {
    if t != [] {
      var init := t[..|t| - 1];
      MaxIdBounds(init);
      assert forall r :: r in t ==> r in init || r == t[|t| - 1];
      if init != [] {
        var r :| r in init && r.id == MaxId(init);
        assert r in t;
      }
    }
  }

  /** The id SQLite gives the next row: one more than the largest id in use,
      so 1 for an empty table. */
  function NextId<T>(t: seq<Row<T>>): (n: Id)
    ensures n >= 1
  {
    MaxId(t) + 1
  }

  /** The next id is above every id in use. */
  lemma NextIdAbove<T>(t: seq<Row<T>>)
    ensures forall r :: r in t ==> r.id < NextId(t)
  {
    MaxIdBounds(t);
  }

  /** In a table kept in id order the largest id is the last one. */
  lemma {:induction false} NextIdOfIncreasing<T>(t: seq<Row<T>>)
    requires IdsIncreasing(t) && t != []
    ensures NextId(t) == t[|t| - 1].id + 1
  {
    var init := t[..|t| - 1];
    MaxIdBounds(init);
    if init != [] {
      var r :| r in init && r.id == MaxId(init);
      var i :| 0 <= i < |init| && init[i] == r;
      assert t[i].id < t[|t| - 1].id;
    }
    assert MaxId(t) == t[|t| - 1].id;
  }

  /** `db.session.add(...)` of one row, flushed: it gets the next id. */
  function Append<T>(t: seq<Row<T>>, d: T): (r: seq<Row<T>>)
    ensures IdsIncreasing(t) ==> IdsIncreasing(r)
    ensures |r| == |t| + 1 && r[..|t|] == t && r[|t|] == Row(NextId(t), d)
    ensures NextId(r) == NextId(t) + 1
  {
    var r := t + [Row(NextId(t), d)];
    assert r[..|t|] == t;
    NextIdAbove(t);
    r
  }

  /** The rows of `s` that `keep` selects, in order: a query's `filter_by`. */
  function Filter<T(==)>(s: seq<T>, keep: T -> bool): (r: seq<T>)
    ensures |r| <= |s|
    ensures forall i :: 0 <= i < |r| ==> r[i] in s && keep(r[i])
    ensures forall i :: 0 <= i < |s| && keep(s[i]) ==> s[i] in r
  {
    if s == [] then [] else (if keep(s[0]) then [s[0]] else []) + Filter(s[1..], keep)
  }

  /** A query keeps the table's id order. */
  lemma {:induction false} FilterIncreasing<T>(t: seq<Row<T>>, keep: Row<T> -> bool)
    ensures IdsIncreasing(t) ==> IdsIncreasing(Filter(t, keep))
  {
    if t != [] && IdsIncreasing(t) {
      FilterIncreasing(t[1..], keep);
      var rest := Filter(t[1..], keep);
      forall x | x in rest ensures t[0].id < x.id {
        var j :| 0 <= j < |t[1..]| && t[1..][j] == x;
        assert t[j + 1] == x;
      }
    }
  }

  /** A query returns exactly the rows of the table that meet its filter. */
  lemma FilterMember<T>(s: seq<T>, keep: T -> bool, x: T)
    ensures x in Filter(s, keep) <==> x in s && keep(x)
  {
    var r := Filter(s, keep);
    if x in r {
      var i :| 0 <= i < |r| && r[i] == x;
    }
    if x in s && keep(x) {
      var i :| 0 <= i < |s| && s[i] == x;
    }
  }

  /** The first element of `s` that `keep` selects, if any. */
  function FirstWhere<T>(s: seq<T>, keep: T -> bool): (r: Option<T>)
    ensures r.Some? ==> exists i :: 0 <= i < |s| && s[i] == r.value && keep(s[i])
                                   && forall j :: 0 <= j < i ==> !keep(s[j])
    ensures r.None? <==> forall i :: 0 <= i < |s| ==> !keep(s[i])
  {
    if s == [] then None
    else if keep(s[0]) then Some(s[0])
    else
      var r := FirstWhere(s[1..], keep);
      assert forall j :: 1 <= j < |s| ==> s[j] == s[1..][j - 1];
      r
  }

  /** Filtering with a test that keeps every row changes nothing. */
  lemma {:induction false} FilterAll<T>(s: seq<T>, keep: T -> bool)
    requires forall x :: x in s ==> keep(x)
    ensures Filter(s, keep) == s
  {
    if s != [] {
      FilterAll(s[1..], keep);
    }
  }

  /** A query over two stretches of a table is the two queries, one after the other. */
  lemma {:induction false} FilterAppend<T>(a: seq<T>, b: seq<T>, keep: T -> bool)
    ensures Filter(a + b, keep) == Filter(a, keep) + Filter(b, keep)
  {
    if a == [] {
      assert a + b == b;
    } else {
      assert (a + b)[1..] == a[1..] + b;
      FilterAppend(a[1..], b, keep);
    }
  }

  /** Two deletions one after the other are one deletion with both filters. */
  lemma {:induction false} FilterFilter<T>(s: seq<T>, k1: T -> bool, k2: T -> bool, k3: T -> bool)
    requires forall x :: k3(x) == (k1(x) && k2(x))
    ensures Filter(Filter(s, k1), k2) == Filter(s, k3)
  {
    if s != [] {
      var head := if k1(s[0]) then [s[0]] else [];
      FilterAppend(head, Filter(s[1..], k1), k2);
      FilterFilter(s[1..], k1, k2, k3);
    }
  }

  /** `ds` added one row at a time: each takes the next id in turn. */
  function AppendAll<T>(t: seq<Row<T>>, ds: seq<T>): (r: seq<Row<T>>)
    ensures |r| == |t| + |ds|
  {
    t + seq(|ds|, k requires 0 <= k < |ds| => Row(NextId(t) + k, ds[k]))
  }

  /** Row `k` of a batch is the `k`-th new row, under the `k`-th id after the table's. */
  lemma AppendAllAt<T>(t: seq<Row<T>>, ds: seq<T>, k: nat)
    requires k < |ds|
    ensures AppendAll(t, ds)[|t| + k] == Row(NextId(t) + k, ds[k])
  {
  }

  /** A batch of new rows leaves the table in front of them. */
  lemma AppendAllSplit<T>(t: seq<Row<T>>, ds: seq<T>)
    ensures AppendAll(t, ds)[..|t|] == t
    ensures AppendAll(t, ds) == t + AppendAll(t, ds)[|t|..]
  {
  }

  /** When every id of `s` is below `n` and `n - 1` is in use, the next id is `n`. */
  lemma NextIdIs<T>(s: seq<Row<T>>, n: Id)
    requires forall r :: r in s ==> r.id < n
    requires s != [] && s[|s| - 1].id + 1 == n
    ensures NextId(s) == n
  {
    MaxIdBounds(s);
    assert s[|s| - 1] in s;
  }

  /** After a batch the next id has moved on by the size of the batch. */
  lemma AppendAllNextId<T>(t: seq<Row<T>>, ds: seq<T>)
    ensures NextId(AppendAll(t, ds)) == NextId(t) + |ds|
  {
    var r := AppendAll(t, ds);
    if ds != [] {
      NextIdAbove(t);
      forall x | x in r ensures x.id < NextId(t) + |ds| {
        var i :| 0 <= i < |r| && r[i] == x;
        if i >= |t| {
          AppendAllAt(t, ds, i - |t|);
        } else {
          assert x in t;
        }
      }
      AppendAllAt(t, ds, |ds| - 1);
      NextIdIs(r, NextId(t) + |ds|);
    } else {
      assert r == t;
    }
  }

  /** A batch of new rows keeps the table in id order. */
  lemma AppendAllIncreasing<T>(t: seq<Row<T>>, ds: seq<T>)
    requires IdsIncreasing(t)
    ensures IdsIncreasing(AppendAll(t, ds))
  {
    var r := AppendAll(t, ds);
    forall i, j | 0 <= i < j < |r| ensures r[i].id < r[j].id {
      if j >= |t| {
        AppendAllAt(t, ds, j - |t|);
        if i >= |t| {
          AppendAllAt(t, ds, i - |t|);
        } else {
          assert r[i] in t;
        }
      }
    }
  }

  /** Adding one more row after a batch extends the batch. */
  lemma AppendAllSnoc<T>(t: seq<Row<T>>, ds: seq<T>, d: T)
    ensures AppendAll(t, ds + [d]) == Append(AppendAll(t, ds), d)
  {
    AppendAllNextId(t, ds);
    var a := AppendAll(t, ds + [d]);
    var b := Append(AppendAll(t, ds), d);
    forall i | 0 <= i < |a| ensures a[i] == b[i] {
      if i >= |t| {
        AppendAllAt(t, ds + [d], i - |t|);
        if i < |t| + |ds| {
          AppendAllAt(t, ds, i - |t|);
        }
      }
    }
  }

  /** The row with the given id: `Model.query.get(id)`. */
  function Find<T(==)>(t: seq<Row<T>>, id: Id): (r: Option<Row<T>>)
    ensures r.Some? ==> r.value in t && r.value.id == id
    ensures r.None? <==> id !in Ids(t)
  {
    if t == [] then None
    else if t[0].id == id then Some(t[0])
    else
      var r := Find(t[1..], id);
      assert Ids(t) == {t[0].id} + Ids(t[1..]);
      r
  }

  /** In a table without repeated ids, the row an id finds is the only one. */
  lemma {:induction false} FindUnique<T>(t: seq<Row<T>>, x: Row<T>)
    requires IdsIncreasing(t) && x in t
    ensures Find(t, x.id) == Some(x)
  {
    if t[0] != x {
      assert x in t[1..];
      assert t[0].id < x.id by {
        var j :| 0 <= j < |t| && t[j] == x;
      }
      FindUnique(t[1..], x);
    }
  }

  // ---------------------------------------------------------------------
  // Queries of the admin views

  /** The filters of the admin queries, as named tests so that two queries
      with the same filter are seen to be the same query. */
  function OptionFor(pid: Id): Row<VariantOption> -> bool { (x: Row<VariantOption>) => x.data.productId == pid }
  function ValueFor(oid: Id): Row<VariantValue> -> bool { (x: Row<VariantValue>) => x.data.optionId == oid }
  function VariantFor(pid: Id): Row<ProductVariant> -> bool { (x: Row<ProductVariant>) => x.data.productId == pid }
  function OptionNotFor(pid: Id): Row<VariantOption> -> bool { (x: Row<VariantOption>) => x.data.productId != pid }
  function ValueNotUnder(oids: set<Id>): Row<VariantValue> -> bool { (x: Row<VariantValue>) => x.data.optionId !in oids }
  function VariantNotFor(pid: Id): Row<ProductVariant> -> bool { (x: Row<ProductVariant>) => x.data.productId != pid }
  function IdNotIn<T>(ids: set<Id>): Row<T> -> bool { (x: Row<T>) => x.id !in ids }

  /** `VariantOption.query.filter_by(product_id=pid).all()`. */
  function OptionsOf(db: Db, pid: Id): (r: seq<Row<VariantOption>>)
    ensures forall x :: x in r <==> x in db.options && x.data.productId == pid
    ensures IdsIncreasing(db.options) ==> IdsIncreasing(r)
  {
    var keep := OptionFor(pid);
    FilterIncreasing(db.options, keep);
    assert forall x :: x in Filter(db.options, keep) <==> x in db.options && keep(x) by {
      forall x { FilterMember(db.options, keep, x); }
    }
    Filter(db.options, keep)
  }

  /** `VariantValue.query.filter_by(option_id=oid).all()`. */
  function ValuesOf(db: Db, oid: Id): (r: seq<Row<VariantValue>>)
    ensures forall x :: x in r <==> x in db.values && x.data.optionId == oid
    ensures IdsIncreasing(db.values) ==> IdsIncreasing(r)
  {
    var keep := ValueFor(oid);
    FilterIncreasing(db.values, keep);
    assert forall x :: x in Filter(db.values, keep) <==> x in db.values && keep(x) by {
      forall x { FilterMember(db.values, keep, x); }
    }
    Filter(db.values, keep)
  }

  /** `ProductVariant.query.filter_by(product_id=pid).all()`. */
  function VariantsOf(db: Db, pid: Id): (r: seq<Row<ProductVariant>>)
    ensures forall x :: x in r <==> x in db.variants && x.data.productId == pid
    ensures IdsIncreasing(db.variants) ==> IdsIncreasing(r)
  {
    var keep := VariantFor(pid);
    FilterIncreasing(db.variants, keep);
    assert forall x :: x in Filter(db.variants, keep) <==> x in db.variants && keep(x) by {
      forall x { FilterMember(db.variants, keep, x); }
    }
    Filter(db.variants, keep)
  }

  /** The value ids of a variant's join rows (`variant.combinations`). */
  function LinkSet(links: set<Link>, vid: Id): set<Id>
  {
    set l | l in links && l.variantId == vid :: l.valueId
  }

  /** The join rows that do not belong to any of the variants `vids`. */
  function LinksWithout(links: set<Link>, vids: set<Id>): set<Link>
  {
    set l | l in links && l.variantId !in vids
  }

  /** Dropping the join rows of `vids` empties their value sets and leaves
      every other variant's as it was. */
  lemma LinkSetWithout(links: set<Link>, vids: set<Id>, vid: Id)
    ensures LinkSet(LinksWithout(links, vids), vid) == if vid in vids then {} else LinkSet(links, vid)
  {
  }

  // ---------------------------------------------------------------------
  // Consistency of the stored data

  /** Every table is in id order. */
  predicate Ordered(db: Db)
  {
    IdsIncreasing(db.products) && IdsIncreasing(db.options) && IdsIncreasing(db.values)
    && IdsIncreasing(db.variants)
  }

  /** Every reference names an existing row: options and variants their
      product, values their option, join rows their variant and their value. */
  predicate References(db: Db)
  {
    && (forall r :: r in db.options ==> r.data.productId in Ids(db.products))
    && (forall r :: r in db.values ==> r.data.optionId in Ids(db.options))
    && (forall r :: r in db.variants ==> r.data.productId in Ids(db.products))
    && (forall l :: l in db.links ==> l.variantId in Ids(db.variants) && l.valueId in Ids(db.values))
  }

  /** Tables in id order whose references all resolve. */
  predicate Consistent(db: Db)
  {
    Ordered(db) && References(db)
  }
}
