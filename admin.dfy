/** The admin views that change the variant tables (website/admin.py:121-279):
    adding options, adding values, saving the variant table, showing it, and
    deleting a product with everything under it. The functions say what each
    view leaves in the tables; `Store` holds the tables and carries the views
    out statement by statement, and each of its methods is proved to end in
    the state its function describes. */
module Admin {
  import opened Wrappers
  import opened Text
  import opened Schema
  import opened Forms
  import opened Parsing
  import opened Variants

  // ---------------------------------------------------------------------
  // add_variant_options (website/admin.py:121-141)

  /** The options a list of names makes, all of product `pid`. */
  function OptionRows(pid: Id, names: seq<string>): seq<VariantOption>
  {
    seq(|names|, k requires 0 <= k < |names| => VariantOption(pid, names[k]))
  }

  /** `add_variant_options`: an unknown product is a 404; a request whose
      form does not validate (every GET among them) shows the form; a valid
      one adds one option per non-blank entry, stripped, in form order. */
  function AddOptions(db: Db, pid: Id, validated: bool, entries: seq<string>): (r: (Db, Outcome))
    ensures r.1 == NotFound <==> Find(db.products, pid).None?
    ensures r.1 == Saved <==> Find(db.products, pid).Some? && validated
    ensures r.1 in {NotFound, FormShown, Saved}
    ensures r.1 != Saved ==> r.0 == db
    ensures r.0.products == db.products && r.0.values == db.values
            && r.0.variants == db.variants && r.0.links == db.links
    ensures r.1 == Saved ==> |r.0.options| == |db.options| + |OptionNames(entries)|
  {
    if Find(db.products, pid).None? then (db, NotFound)
    else if !validated then (db, FormShown)
    else (db.(options := AppendAll(db.options, OptionRows(pid, OptionNames(entries)))), Saved)
  }

  /** A filter that no row of `s` passes selects nothing. */
  lemma FilterNone<T>(s: seq<T>, keep: T -> bool)
    requires forall x :: x in s ==> !keep(x)
    ensures Filter(s, keep) == []
  {
  }

  /** Every option added for `pid` belongs to `pid`. */
  lemma AddedOptionsOwned(t: seq<Row<VariantOption>>, pid: Id, names: seq<string>)
    ensures forall x :: x in AppendAll(t, OptionRows(pid, names))[|t|..] ==> x.data.productId == pid
  {
    var r := AppendAll(t, OptionRows(pid, names));
    forall x | x in r[|t|..] ensures x.data.productId == pid {
      var k :| 0 <= k < |r| - |t| && r[|t|..][k] == x;
      assert x == r[|t| + k];
      AppendAllAt(t, OptionRows(pid, names), k);
    }
  }

  /** After a valid submission the product's options are the ones it had,
      then the new names in form order, each under a fresh id; no other
      product's options change. */
  lemma AddOptionsStored(db: Db, pid: Id, entries: seq<string>)
    requires Find(db.products, pid).Some?
    ensures var d := AddOptions(db, pid, true, entries).0;
            OptionsOf(d, pid) == OptionsOf(db, pid) + d.options[|db.options|..]
    ensures var d := AddOptions(db, pid, true, entries).0;
            forall k :: 0 <= k < |OptionNames(entries)| ==>
              d.options[|db.options| + k] == Row(NextId(db.options) + k, VariantOption(pid, OptionNames(entries)[k]))
    ensures var d := AddOptions(db, pid, true, entries).0;
            forall q :: q != pid ==> OptionsOf(d, q) == OptionsOf(db, q)
  {
    var names := OptionNames(entries);
    var d := db.(options := AppendAll(db.options, OptionRows(pid, names)));
    assert AddOptions(db, pid, true, entries).0 == d;
    forall k | 0 <= k < |names|
      ensures d.options[|db.options| + k] == Row(NextId(db.options) + k, VariantOption(pid, names[k]))
    {
      AppendAllAt(db.options, OptionRows(pid, names), k);
    }
    var tail := d.options[|db.options|..];
    AppendAllSplit(db.options, OptionRows(pid, names));
    AddedOptionsOwned(db.options, pid, names);
    FilterAppend(db.options, tail, OptionFor(pid));
    FilterAll(tail, OptionFor(pid));
    forall q | q != pid ensures OptionsOf(d, q) == OptionsOf(db, q) {
      FilterAppend(db.options, tail, OptionFor(q));
      FilterNone(tail, OptionFor(q));
    }
  }

  /** Adding options keeps the tables consistent: the new options belong to
      an existing product and every old reference still resolves. */
  lemma AddOptionsConsistent(db: Db, pid: Id, validated: bool, entries: seq<string>)
    requires Consistent(db)
    ensures Consistent(AddOptions(db, pid, validated, entries).0)
  {
    var r := AddOptions(db, pid, validated, entries);
    if r.1 == Saved {
      var d := r.0;
      var rows := OptionRows(pid, OptionNames(entries));
      AppendAllIncreasing(db.options, rows);
      AppendAllSplit(db.options, rows);
      AddedOptionsOwned(db.options, pid, OptionNames(entries));
      assert Ids(db.options) <= Ids(d.options) by {
        forall x | x in Ids(db.options) ensures x in Ids(d.options) {
          var y :| y in db.options && y.id == x;
          assert y in d.options;
        }
      }
    }
  }

  // ---------------------------------------------------------------------
  // add_variant_values (website/admin.py:144-163)

  /** `request.form.get(f"option-{oid}-values", "")`: the submitted text
      of the option, keyed here by the option's id. */
  function Field(submitted: map<Id, string>, oid: Id): string
  {
    if oid in submitted then submitted[oid] else ""
  }

  /** The values one option's field makes. */
  function OptionValueRows(o: Row<VariantOption>, submitted: map<Id, string>): seq<VariantValue>
  {
    var vs := ParseValues(Field(submitted, o.id));
    seq(|vs|, k requires 0 <= k < |vs| => VariantValue(o.id, vs[k]))
  }

  /** The values of all the options, option by option. */
  function NewValueRows(opts: seq<Row<VariantOption>>, submitted: map<Id, string>): seq<VariantValue>
  {
    if opts == [] then []
    else NewValueRows(opts[..|opts| - 1], submitted) + OptionValueRows(opts[|opts| - 1], submitted)
  }

  /** The new values are exactly the pieces parsed from each option's field,
      each under its own option. */
  lemma {:induction false} NewValueRowsHas(opts: seq<Row<VariantOption>>, submitted: map<Id, string>,
                                           oid: Id, v: string)
    ensures VariantValue(oid, v) in NewValueRows(opts, submitted)
            <==> oid in Ids(opts) && v in ParseValues(Field(submitted, oid))
  {
    if opts != [] {
      var init := opts[..|opts| - 1];
      var last := opts[|opts| - 1];
      var here := OptionValueRows(last, submitted);
      assert NewValueRows(opts, submitted) == NewValueRows(init, submitted) + here;
      NewValueRowsHas(init, submitted, oid, v);
      IdsSnoc(opts);
      OptionValueRowsHas(last, submitted, oid, v);
    }
  }

  /** One option's values are the pieces of its own field. */
  lemma OptionValueRowsHas(o: Row<VariantOption>, submitted: map<Id, string>, oid: Id, v: string)
    ensures VariantValue(oid, v) in OptionValueRows(o, submitted)
            <==> oid == o.id && v in ParseValues(Field(submitted, oid))
  {
    var here := OptionValueRows(o, submitted);
    var vs := ParseValues(Field(submitted, o.id));
    if VariantValue(oid, v) in here {
      var k :| 0 <= k < |here| && here[k] == VariantValue(oid, v);
      assert vs[k] == v;
    }
    if oid == o.id && v in vs {
      var k :| 0 <= k < |vs| && vs[k] == v;
      assert here[k] == VariantValue(oid, v);
    }
  }

  /** `add_variant_values`: a 404 for an unknown product, a redirect when it
      has no options yet, the form on GET, and on POST one value per
      non-blank comma-separated piece of each option's field. */
  function AddValues(db: Db, pid: Id, isPost: bool, submitted: map<Id, string>): (r: (Db, Outcome))
    ensures r.1 == NotFound <==> Find(db.products, pid).None?
    ensures r.1 == NoOptions <==> Find(db.products, pid).Some? && OptionsOf(db, pid) == []
    ensures r.1 == Saved <==> Find(db.products, pid).Some? && OptionsOf(db, pid) != [] && isPost
    ensures r.1 in {NotFound, NoOptions, FormShown, Saved}
    ensures r.1 != Saved ==> r.0 == db
    ensures r.0.products == db.products && r.0.options == db.options
            && r.0.variants == db.variants && r.0.links == db.links
  {
    if Find(db.products, pid).None? then (db, NotFound)
    else
      var opts := OptionsOf(db, pid);
      if opts == [] then (db, NoOptions)
      else if !isPost then (db, FormShown)
      else (db.(values := AppendAll(db.values, NewValueRows(opts, submitted))), Saved)
  }

  /** A row of a batch is an old row or a new row made of one of the data. */
  lemma AppendAllHas<T>(t: seq<Row<T>>, ds: seq<T>, x: Row<T>)
    requires x in AppendAll(t, ds)
    ensures x in t || x.data in ds
  {
    var r := AppendAll(t, ds);
    var i :| 0 <= i < |r| && r[i] == x;
    if i >= |t| {
      AppendAllAt(t, ds, i - |t|);
    } else {
      AppendAllSplit(t, ds);
      assert r[..|t|][i] == x;
    }
  }

  /** Every datum of a batch is stored in a new row. */
  lemma AppendAllStores<T>(t: seq<Row<T>>, ds: seq<T>, d: T)
    requires d in ds
    ensures exists x :: x in AppendAll(t, ds) && x.data == d
  {
    var k :| 0 <= k < |ds| && ds[k] == d;
    AppendAllAt(t, ds, k);
    assert AppendAll(t, ds)[|t| + k] in AppendAll(t, ds);
  }

  /** After a POST, an option of the product has a value with text `v`
      exactly when it had one before or `v` is one of the pieces of its
      field. */
  lemma AddValuesStored(db: Db, pid: Id, submitted: map<Id, string>, o: Row<VariantOption>, v: string)
    requires AddValues(db, pid, true, submitted).1 == Saved
    requires o in OptionsOf(db, pid)
    ensures var d := AddValues(db, pid, true, submitted).0;
            (exists x :: x in ValuesOf(d, o.id) && x.data.value == v)
            <==> (exists x :: x in ValuesOf(db, o.id) && x.data.value == v)
                 || v in ParseValues(Field(submitted, o.id))
  {
    var opts := OptionsOf(db, pid);
    var ds := NewValueRows(opts, submitted);
    var d := db.(values := AppendAll(db.values, ds));
    assert AddValues(db, pid, true, submitted).0 == d;
    NewValueRowsHas(opts, submitted, o.id, v);
    assert o.id in Ids(opts);
    AppendAllSplit(db.values, ds);
    if exists x :: x in ValuesOf(d, o.id) && x.data.value == v {
      var x :| x in ValuesOf(d, o.id) && x.data.value == v;
      AppendAllHas(db.values, ds, x);
      if x !in db.values {
        assert x.data == VariantValue(o.id, v);
      }
    }
    if v in ParseValues(Field(submitted, o.id)) {
      AppendAllStores(db.values, ds, VariantValue(o.id, v));
      var x :| x in d.values && x.data == VariantValue(o.id, v);
      assert x in ValuesOf(d, o.id);
    }
    if exists x :: x in ValuesOf(db, o.id) && x.data.value == v {
      var x :| x in ValuesOf(db, o.id) && x.data.value == v;
      assert x in d.values;
      assert x in ValuesOf(d, o.id);
    }
  }

  /** Adding values keeps the tables consistent: every new value belongs to
      an option of the product. */
  lemma AddValuesConsistent(db: Db, pid: Id, isPost: bool, submitted: map<Id, string>)
    requires Consistent(db)
    ensures Consistent(AddValues(db, pid, isPost, submitted).0)
  {
    var r := AddValues(db, pid, isPost, submitted);
    if r.1 == Saved {
      var opts := OptionsOf(db, pid);
      var ds := NewValueRows(opts, submitted);
      var d := db.(values := AppendAll(db.values, ds));
      assert r.0 == d;
      AppendAllIncreasing(db.values, ds);
      AppendAllSplit(db.values, ds);
      forall x | x in d.values ensures x.data.optionId in Ids(d.options) {
        AppendAllHas(db.values, ds, x);
        if x !in db.values {
          NewValueRowsHas(opts, submitted, x.data.optionId, x.data.value);
          var y :| y in opts && y.id == x.data.optionId;
        }
      }
      assert Ids(db.values) <= Ids(d.values) by {
        forall x | x in Ids(db.values) ensures x in Ids(d.values) {
          var y :| y in db.values && y.id == x;
          assert y in d.values;
        }
      }
    }
  }

  // ---------------------------------------------------------------------
  // delete_product (website/admin.py:259-279)

  /** `delete_product`: a 404 for an unknown product; otherwise the join rows
      of its variants, its variants, the values of its options, its options
      and the product itself are deleted, in one commit. */
  function RemoveProduct(db: Db, pid: Id): (r: (Db, Outcome))
    ensures r.1 == NotFound <==> Find(db.products, pid).None?
    ensures r.1 in {NotFound, Saved}
    ensures r.1 == NotFound ==> r.0 == db
  {
    if Find(db.products, pid).None? then (db, NotFound)
    else
      var vids := Ids(VariantsOf(db, pid));
      var oids := Ids(OptionsOf(db, pid));
      (Db(Filter(db.products, IdNotIn({pid})), Filter(db.options, OptionNotFor(pid)),
          Filter(db.values, ValueNotUnder(oids)), Filter(db.variants, VariantNotFor(pid)),
          LinksWithout(db.links, vids)), Saved)
  }

  /** After a deletion nothing of the product is left (no row with its id,
      no option, no variant, no value of its options, no join row of its
      variants) and every other row is still there. */
  lemma RemoveProductClears(db: Db, pid: Id)
    requires Find(db.products, pid).Some?
    ensures var d := RemoveProduct(db, pid).0;
            && pid !in Ids(d.products)
            && OptionsOf(d, pid) == [] && VariantsOf(d, pid) == []
            && (forall o :: o in OptionsOf(db, pid) ==> ValuesOf(d, o.id) == [])
            && (forall v :: v in VariantsOf(db, pid) ==> LinkSet(d.links, v.id) == {})
    ensures var d := RemoveProduct(db, pid).0;
            && (forall x :: x in d.products <==> x in db.products && x.id != pid)
            && (forall x :: x in d.options <==> x in db.options && x.data.productId != pid)
            && (forall x :: x in d.variants <==> x in db.variants && x.data.productId != pid)
            && (forall x :: x in d.values <==> x in db.values && x.data.optionId !in Ids(OptionsOf(db, pid)))
            && (forall l :: l in d.links <==> l in db.links && l.variantId !in Ids(VariantsOf(db, pid)))
  {
    var d := RemoveProduct(db, pid).0;
    var oids := Ids(OptionsOf(db, pid));
    forall x ensures x in d.products <==> x in db.products && x.id != pid {
      FilterMember(db.products, IdNotIn({pid}), x);
    }
    forall x ensures x in d.options <==> x in db.options && x.data.productId != pid {
      FilterMember(db.options, OptionNotFor(pid), x);
    }
    forall x ensures x in d.variants <==> x in db.variants && x.data.productId != pid {
      FilterMember(db.variants, VariantNotFor(pid), x);
    }
    forall x ensures x in d.values <==> x in db.values && x.data.optionId !in oids {
      FilterMember(db.values, ValueNotUnder(oids), x);
    }
    FilterNone(d.options, OptionFor(pid));
    FilterNone(d.variants, VariantFor(pid));
    forall o | o in OptionsOf(db, pid) ensures ValuesOf(d, o.id) == [] {
      assert o.id in oids;
      FilterNone(d.values, ValueFor(o.id));
    }
    forall v | v in VariantsOf(db, pid) ensures LinkSet(d.links, v.id) == {} {
      LinkSetWithout(db.links, Ids(VariantsOf(db, pid)), v.id);
    }
  }

  /** No join row ties a variant of another product to a value of this
      product's options. */
  predicate NoForeignLinks(db: Db, pid: Id)
  {
    forall l, x ::
      (l in db.links && x in db.values && x.id == l.valueId && x.data.optionId in Ids(OptionsOf(db, pid)))
      ==> l.variantId in Ids(VariantsOf(db, pid))
  }

  /** A deletion keeps consistent tables consistent, as long as no other
      product's variant points at one of the values it deletes. */
  lemma RemoveProductConsistent(db: Db, pid: Id)
    requires Consistent(db) && Find(db.products, pid).Some?
    requires NoForeignLinks(db, pid)
    ensures Consistent(RemoveProduct(db, pid).0)
  {
    RemoveProductReferences(db, pid);
    FilterIncreasing(db.products, IdNotIn({pid}));
    FilterIncreasing(db.options, OptionNotFor(pid));
    FilterIncreasing(db.values, ValueNotUnder(Ids(OptionsOf(db, pid))));
    FilterIncreasing(db.variants, VariantNotFor(pid));
  }

  /** After a deletion every remaining reference still resolves: the rows
      that pointed at the product's rows are gone with them. */
  lemma RemoveProductReferences(db: Db, pid: Id)
    requires References(db) && Find(db.products, pid).Some?
    requires NoForeignLinks(db, pid)
    ensures References(RemoveProduct(db, pid).0)
  {
    RemovedOwnersResolve(db, pid);
    RemovedValuesResolve(db, pid);
    RemovedLinksResolve(db, pid);
  }

  /** The options and variants left belong to products that are left. */
  lemma RemovedOwnersResolve(db: Db, pid: Id)
    requires Find(db.products, pid).Some?
    requires forall r :: r in db.options ==> r.data.productId in Ids(db.products)
    requires forall r :: r in db.variants ==> r.data.productId in Ids(db.products)
    ensures var d := RemoveProduct(db, pid).0;
            && (forall r :: r in d.options ==> r.data.productId in Ids(d.products))
            && (forall r :: r in d.variants ==> r.data.productId in Ids(d.products))
  {
    var d := RemoveProduct(db, pid).0;
    forall r | r in d.options ensures r.data.productId in Ids(d.products) {
      FilterMember(db.options, OptionNotFor(pid), r);
      var y :| y in db.products && y.id == r.data.productId;
      FilterMember(db.products, IdNotIn({pid}), y);
    }
    forall r | r in d.variants ensures r.data.productId in Ids(d.products) {
      FilterMember(db.variants, VariantNotFor(pid), r);
      var y :| y in db.products && y.id == r.data.productId;
      FilterMember(db.products, IdNotIn({pid}), y);
    }
  }

  /** The values left belong to options that are left. */
  lemma RemovedValuesResolve(db: Db, pid: Id)
    requires Find(db.products, pid).Some?
    requires forall r :: r in db.values ==> r.data.optionId in Ids(db.options)
    ensures var d := RemoveProduct(db, pid).0;
            forall r :: r in d.values ==> r.data.optionId in Ids(d.options)
  {
    var d := RemoveProduct(db, pid).0;
    var oids := Ids(OptionsOf(db, pid));
    forall r | r in d.values ensures r.data.optionId in Ids(d.options) {
      FilterMember(db.values, ValueNotUnder(oids), r);
      var y :| y in db.options && y.id == r.data.optionId;
      if y.data.productId == pid {
        assert y in OptionsOf(db, pid);
      }
      FilterMember(db.options, OptionNotFor(pid), y);
    }
  }

  /** The join rows left name a variant and a value that are left. */
  lemma RemovedLinksResolve(db: Db, pid: Id)
    requires Find(db.products, pid).Some?
    requires forall l :: l in db.links ==> l.variantId in Ids(db.variants) && l.valueId in Ids(db.values)
    requires NoForeignLinks(db, pid)
    ensures var d := RemoveProduct(db, pid).0;
            forall l :: l in d.links ==> l.variantId in Ids(d.variants) && l.valueId in Ids(d.values)
  {
    var d := RemoveProduct(db, pid).0;
    var vids := Ids(VariantsOf(db, pid));
    var oids := Ids(OptionsOf(db, pid));
    forall l | l in d.links ensures l.variantId in Ids(d.variants) && l.valueId in Ids(d.values) {
      var y :| y in db.variants && y.id == l.variantId;
      FilterMember(db.variants, VariantNotFor(pid), y);
      var x :| x in db.values && x.id == l.valueId;
      FilterMember(db.values, ValueNotUnder(oids), x);
    }
  }

  // ---------------------------------------------------------------------
  // The views, step by step

  /** Once a row fails, the rows after it are not saved: the loop's result
      stays that clash. */
  lemma {:induction false} SaveRowsClashStays(c: Db, p: Row<Product>, m: map<set<Id>, Row<ProductVariant>>,
                           combos: seq<seq<Row<VariantValue>>>, forms: seq<VariantRowForm>, i: nat, n: nat)
    requires i <= n <= |combos|
    requires SaveRows(c, p, m, combos, forms, i).Clash?
    ensures SaveRows(c, p, m, combos, forms, n) == SaveRows(c, p, m, combos, forms, i)
    decreases n
  {
    if n > i {
      SaveRowsClashStays(c, p, m, combos, forms, i, n - 1);
    }
  }

  /** The loop of a save takes one more row. */
  lemma SaveRowsNext(c: Db, p: Row<Product>, m: map<set<Id>, Row<ProductVariant>>,
                     combos: seq<seq<Row<VariantValue>>>, forms: seq<VariantRowForm>, i: nat, d: Db, step: Step)
    requires i < |combos|
    requires SaveRows(c, p, m, combos, forms, i) == Ok(d)
    requires step == SaveRow(d, p, m, combos[i], RowForm(forms, i))
    ensures SaveRows(c, p, m, combos, forms, i + 1) == step
  {
  }

  /** One more entry of the options form: its stripped name is added when
      it is not blank. */
  lemma OptionsStep(t: seq<Row<VariantOption>>, pid: Id, entries: seq<string>, i: nat)
    requires i < |entries|
    ensures var before := AppendAll(t, OptionRows(pid, OptionNames(entries[..i])));
            var name := Strip(entries[i]);
            AppendAll(t, OptionRows(pid, OptionNames(entries[..i + 1])))
            == if name != [] then Append(before, VariantOption(pid, name)) else before
  {
    var names := OptionNames(entries[..i]);
    var name := Strip(entries[i]);
    assert entries[..i + 1] == entries[..i] + [entries[i]];
    KeepStrippedSnoc(entries[..i], entries[i]);
    if name != [] {
      AppendAllSnoc(t, OptionRows(pid, names), VariantOption(pid, name));
      assert OptionRows(pid, names) + [VariantOption(pid, name)] == OptionRows(pid, names + [name]);
    } else {
      assert names + [] == names;
    }
  }

  /** Deleting no variant changes nothing. */
  lemma WithoutNothing(db: Db)
    ensures WithoutVariants(db, {}) == db
  {
    FilterAll(db.variants, IdNotIn({}));
  }

  /** Deleting one more variant after a batch is deleting the larger batch. */
  lemma WithoutOneMore(db: Db, gone: set<Id>, id: Id)
    ensures var w := WithoutVariants(db, gone);
            w.(variants := Filter(w.variants, IdNotIn({id})), links := LinksWithout(w.links, {id}))
            == WithoutVariants(db, gone + {id})
  {
    FilterFilter(db.variants, IdNotIn(gone), IdNotIn({id}), IdNotIn(gone + {id}));
  }

  // ---------------------------------------------------------------------
  // The loops of the views, over the rows they work on

  /** The loop of `add_variant_options` (website/admin.py:127-132): the
      table with an option added for every non-blank entry. */
  method CollectOptions(t: seq<Row<VariantOption>>, pid: Id, entries: seq<string>)
    returns (added: seq<Row<VariantOption>>)
    ensures added == AppendAll(t, OptionRows(pid, OptionNames(entries)))
  {
    added := t;
    var i := 0;
    while i < |entries|
      invariant 0 <= i <= |entries|
      invariant added == AppendAll(t, OptionRows(pid, OptionNames(entries[..i])))
    {
      var name := Strip(entries[i]);
      OptionsStep(t, pid, entries, i);
      if name != [] {
        added := Append(added, VariantOption(pid, name));
      }
      i := i + 1;
    }
    assert entries[..|entries|] == entries;
  }

  /** The loops of `add_variant_values` (website/admin.py:153-157): for each
      option in turn, a value for each piece of its field. */
  method CollectValues(t: seq<Row<VariantValue>>, opts: seq<Row<VariantOption>>, submitted: map<Id, string>)
    returns (added: seq<Row<VariantValue>>)
    ensures added == AppendAll(t, NewValueRows(opts, submitted))
  {
    added := t;
    var i := 0;
    while i < |opts|
      invariant 0 <= i <= |opts|
      invariant added == AppendAll(t, NewValueRows(opts[..i], submitted))
    {
      var opt := opts[i];
      var text := if opt.id in submitted then submitted[opt.id] else "";
      var vs := ParseValues(text);
      ghost var done := NewValueRows(opts[..i], submitted);
      var here := seq(|vs|, k requires 0 <= k < |vs| => VariantValue(opt.id, vs[k]));
      assert here == OptionValueRows(opt, submitted);
      added := AddEach(added, t, done, here);
      assert opts[..i + 1][..i] == opts[..i];
      i := i + 1;
    }
    assert opts[..|opts|] == opts;
  }

  /** `db.session.add` of each of `ds` in turn, after the batch `done`. */
  method AddEach<T>(cur: seq<Row<T>>, ghost t: seq<Row<T>>, ghost done: seq<T>, ds: seq<T>)
    returns (r: seq<Row<T>>)
    requires cur == AppendAll(t, done)
    ensures r == AppendAll(t, done + ds)
  {
    r := cur;
    var j := 0;
    while j < |ds|
      invariant 0 <= j <= |ds|
      invariant r == AppendAll(t, done + ds[..j])
    {
      AppendAllSnoc(t, done + ds[..j], ds[j]);
      assert done + ds[..j] + [ds[j]] == done + ds[..j + 1];
      r := Append(r, ds[j]);
      j := j + 1;
    }
    assert ds[..|ds|] == ds;
  }

  /** The ids the deletion loop has removed once the value sets still in
      `todo` are all that is left to visit. */
  function Gone(m: map<set<Id>, Row<ProductVariant>>, keys: set<seq<Id>>, todo: set<set<Id>>): set<Id>
  {
    set S | S in m && S !in todo && !Listed(S, keys) :: m[S].id
  }

  /** Visiting one more value set removes its variant exactly when the set
      is not listed. */
  lemma GoneStep(m: map<set<Id>, Row<ProductVariant>>, keys: set<seq<Id>>, todo: set<set<Id>>, S: set<Id>)
    requires S in todo && todo <= m.Keys
    ensures Gone(m, keys, todo - {S}) == Gone(m, keys, todo) + (if Listed(S, keys) then {} else {m[S].id})
  {
    var after := Gone(m, keys, todo - {S});
    var before := Gone(m, keys, todo);
    forall x | x in after ensures x in before || (!Listed(S, keys) && x == m[S].id) {
      var S' :| S' in m && S' !in todo - {S} && !Listed(S', keys) && m[S'].id == x;
      if S' != S {
        assert x in before;
      }
    }
    if !Listed(S, keys) {
      assert m[S].id in after;
    }
  }

  /** The first loop of a save (website/admin.py:197-202): every variant of
      `m` whose sorted value set is not among `keys` goes, with its join rows. */
  method RemoveStale(db: Db, m: map<set<Id>, Row<ProductVariant>>, keys: set<seq<Id>>) returns (d: Db)
    ensures d == WithoutVariants(db, Doomed(m, keys))
  {
    WithoutNothing(db);
    d := db;
    var todo := m.Keys;
    ghost var gone: set<Id> := {};
    assert Gone(m, keys, todo) == {};
    while todo != {}
      invariant todo <= m.Keys
      invariant gone == Gone(m, keys, todo)
      invariant d == WithoutVariants(db, gone)
      decreases |todo|
    {
      var S :| S in todo;
      GoneStep(m, keys, todo, S);
      if !Listed(S, keys) {
        var id := m[S].id;
        WithoutOneMore(db, gone, id);
        d := d.(variants := Filter(d.variants, IdNotIn({id})), links := LinksWithout(d.links, {id}));
        gone := gone + {id};
      }
      todo := todo - {S};
    }
    assert gone == Doomed(m, keys);
  }

  /** The join rows of a new variant, one per value of its combination
      (website/admin.py:230-234). */
  method LinkValues(links: set<Link>, id: Id, combo: seq<Row<VariantValue>>) returns (r: set<Link>)
    ensures r == links + LinksFor(id, combo)
  {
    r := links;
    var k := 0;
    while k < |combo|
      invariant 0 <= k <= |combo|
      invariant r == links + LinksFor(id, combo[..k])
    {
      LinksForSnoc(id, combo, k);
      r := r + {Link(id, combo[k].id)};
      k := k + 1;
    }
    assert combo[..|combo|] == combo;
  }

  /** One row of the second loop of a save (website/admin.py:208-236): the
      tables afterwards, or the SKU whose insertion the unique constraint
      refused, which aborts the request. */
  method SaveRowAt(d: Db, p: Row<Product>, m: map<set<Id>, Row<ProductVariant>>,
                   combo: seq<Row<VariantValue>>, f: VariantRowForm) returns (r: Step)
    ensures r == SaveRow(d, p, m, combo, f)
  {
    if !VariantRowValid(f) {
      return Ok(d);
    }
    var hit := PostLookup(m, KeyOf(combo));
    if hit.Some? {
      return Ok(d.(variants := Reprice(d.variants, hit.value.id, f.price.value, f.impact.value)));
    }
    var sku := NewSku(p, combo);
    if sku in Skus(d.variants) {
      return Clash(sku);
    }
    var id := NextId(d.variants);
    var vs := Append(d.variants, ProductVariant(p.id, sku, f.price.value, f.impact.value, f.stock.value));
    var ls := LinkValues(d.links, id, combo);
    return Ok(d.(variants := vs, links := ls));
  }

  /** The second loop of a save (website/admin.py:207-236), from the
      committed tables: every row in turn, up to the first taken SKU. */
  method SaveAll(c: Db, p: Row<Product>, m: map<set<Id>, Row<ProductVariant>>,
                 combos: seq<seq<Row<VariantValue>>>, forms: seq<VariantRowForm>) returns (r: Step)
    ensures r == SaveRows(c, p, m, combos, forms, |combos|)
  {
    var d := c;
    var i := 0;
    while i < |combos|
      invariant 0 <= i <= |combos|
      invariant SaveRows(c, p, m, combos, forms, i) == Ok(d)
    {
      var step := SaveRowAt(d, p, m, combos[i], RowForm(forms, i));
      SaveRowsNext(c, p, m, combos, forms, i, d, step);
      if step.Clash? {
        SaveRowsClashStays(c, p, m, combos, forms, i + 1, |combos|);
        return step;
      }
      d := step.db;
      i := i + 1;
    }
    return Ok(d);
  }

  /** The first loop of `delete_product` (website/admin.py:264-266): the join
      rows of each variant deleted in turn. */
  method UnlinkVariants(links: set<Link>, vs: seq<Row<ProductVariant>>) returns (r: set<Link>)
    ensures r == LinksWithout(links, Ids(vs))
  {
    r := links;
    var i := 0;
    while i < |vs|
      invariant 0 <= i <= |vs|
      invariant r == LinksWithout(links, Ids(vs[..i]))
    {
      IdsSnoc(vs[..i + 1]);
      assert vs[..i + 1][..i] == vs[..i];
      r := LinksWithout(r, {vs[i].id});
      i := i + 1;
    }
    assert vs[..|vs|] == vs;
  }

  /** The second loop of `delete_product` (website/admin.py:270-272): the
      values of each option deleted in turn. */
  method DropValues(values: seq<Row<VariantValue>>, os: seq<Row<VariantOption>>) returns (r: seq<Row<VariantValue>>)
    ensures r == Filter(values, ValueNotUnder(Ids(os)))
  {
    assert Ids(os[..0]) == {};
    FilterAll(values, ValueNotUnder(Ids(os[..0])));
    r := values;
    var i := 0;
    while i < |os|
      invariant 0 <= i <= |os|
      invariant r == Filter(values, ValueNotUnder(Ids(os[..i])))
    {
      IdsSnoc(os[..i + 1]);
      assert os[..i + 1][..i] == os[..i];
      FilterFilter(values, ValueNotUnder(Ids(os[..i])), ValueNotUnder({os[i].id}),
                   ValueNotUnder(Ids(os[..i + 1])));
      r := Filter(r, ValueNotUnder({os[i].id}));
      i := i + 1;
    }
    assert os[..|os|] == os;
  }

  // ---------------------------------------------------------------------
  // The tables and the views that change them

  class Store {
    var products: seq<Row<Product>>
    var options: seq<Row<VariantOption>>
    var values: seq<Row<VariantValue>>
    var variants: seq<Row<ProductVariant>>
    var links: set<Link>

    /** The tables as they stand. */
    function State(): Db
      reads this
    {
      Db(products, options, values, variants, links)
    }

    constructor (db: Db)
      ensures State() == db
    {
      products, options, values, variants, links := db.products, db.options, db.values, db.variants, db.links;
    }

    /** The tables set to `db`: a commit, or a rollback to the last commit. */
    method Load(db: Db)
      modifies this
      ensures State() == db
    {
      products, options, values, variants, links := db.products, db.options, db.values, db.variants, db.links;
    }

    /** `add_variant_options`; `validated` is whether the form validated on
        submission, `entries` the submitted names. */
    method AddVariantOptions(pid: Id, validated: bool, entries: seq<string>) returns (o: Outcome)
      modifies this
      ensures (State(), o) == AddOptions(old(State()), pid, validated, entries)
    {
      if Find(products, pid).None? {
        return NotFound;
      }
      if !validated {
        return FormShown;
      }
      var added := CollectOptions(options, pid, entries);
      options := added;
      return Saved;
    }

    /** `add_variant_values`; `submitted` maps an option's id to the text of
        its field. */
    method AddVariantValues(pid: Id, isPost: bool, submitted: map<Id, string>) returns (o: Outcome)
      modifies this
      ensures (State(), o) == AddValues(old(State()), pid, isPost, submitted)
    {
      if Find(products, pid).None? {
        return NotFound;
      }
      var opts := OptionsOf(State(), pid);
      if opts == [] {
        return NoOptions;
      }
      if !isPost {
        return FormShown;
      }
      var added := CollectValues(values, opts, submitted);
      values := added;
      return Saved;
    }

    /** `add_product_variants`. A POST deletes the variants whose combination
        is gone, commits, then saves every row; a taken SKU fails the
        request and rolls back to that commit. A GET changes nothing and
        returns the rows of the page, one per combination. */
    method AddProductVariants(pid: Id, isPost: bool, forms: seq<VariantRowForm>)
      returns (o: Outcome, shown: seq<VariantRowForm>)
      modifies this
      ensures isPost ==> (State(), o) == SaveVariants(old(State()), pid, forms) && shown == []
      ensures !isPost ==> State() == old(State()) && o in {NotFound, FormShown}
      ensures !isPost ==> ShowVariants(old(State()), pid) == if o == NotFound then None else Some(shown)
    {
      var found := Find(products, pid);
      if found.None? {
        return NotFound, [];
      }
      var p := found.value;
      var db0 := State();
      var combos := Combos(db0, pid);
      var m := MapOf(db0, pid);
      if !isPost {
        shown := Prefill(p, m, combos);
        return FormShown, shown;
      }
      var c := RemoveStale(db0, m, CurrentKeys(combos));
      var r := SaveAll(c, p, m, combos, forms);
      match r
      case Ok(d) =>
        Load(d);
        return Saved, [];
      case Clash(sku) =>
        Load(c);
        return SkuClash(sku), [];
    }

    /** `delete_product`. */
    method DeleteProduct(pid: Id) returns (o: Outcome)
      modifies this
      ensures (State(), o) == RemoveProduct(old(State()), pid)
    {
      if Find(products, pid).None? {
        return NotFound;
      }
      var vs := VariantsOf(State(), pid);
      var os := OptionsOf(State(), pid);
      var kept := UnlinkVariants(links, vs);
      links := kept;
      variants := Filter(variants, VariantNotFor(pid));
      var left := DropValues(values, os);
      values := left;
      options := Filter(options, OptionNotFor(pid));
      products := Filter(products, IdNotIn({pid}));
      return Saved;
    }
  }

  /** The GET loop of `add_product_variants` (website/admin.py:241-254): one
      prefilled row per combination, in order. */
  method Prefill(p: Row<Product>, m: map<set<Id>, Row<ProductVariant>>, combos: seq<seq<Row<VariantValue>>>)
    returns (shown: seq<VariantRowForm>)
    ensures shown == PrefillRows(p, m, combos)
  {
    shown := [];
    var i := 0;
    while i < |combos|
      invariant 0 <= i <= |combos|
      invariant shown == PrefillRows(p, m, combos[..i])
    {
      var row := PrefillRow(p, m, combos[i]);
      PrefillRowsSnoc(p, m, combos, i);
      shown := shown + [row];
      i := i + 1;
    }
    assert combos[..i] == combos;
  }

  /** The join rows for one more value of the combination. */
  lemma LinksForSnoc(id: Id, combo: seq<Row<VariantValue>>, k: nat)
    requires k < |combo|
    ensures LinksFor(id, combo[..k + 1]) == LinksFor(id, combo[..k]) + {Link(id, combo[k].id)}
  {
    var a := combo[..k];
    var b := combo[..k + 1];
    assert b == a + [combo[k]];
    assert Elems(KeyOf(b)) == Elems(KeyOf(a)) + {combo[k].id} by {
      assert KeyOf(b) == KeyOf(a) + [combo[k].id];
    }
  }
}
