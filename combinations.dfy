/** `list(itertools.product(*value_lists))` (website/admin.py:182): every way
    of picking one element from each list, in lexicographic order of the
    positions picked, the last list varying fastest. With no lists at all
    there is exactly one combination, the empty one. */
module Combinations {

  /** The product of the lengths of the lists: the number of combinations. */
  function ProductOfLengths<T>(ls: seq<seq<T>>): nat
  {
    if ls == [] then 1 else |ls[0]| * ProductOfLengths(ls[1..])
  }

  /** `h` put in front of every tail. */
  function Prefixed<T>(h: T, tails: seq<seq<T>>): (r: seq<seq<T>>)
    ensures |r| == |tails|
    ensures forall j :: 0 <= j < |tails| ==> r[j] == [h] + tails[j]
  {
    seq(|tails|, j requires 0 <= j < |tails| => [h] + tails[j])
  }

  /** Each head in turn, in front of every tail. */
  function Expand<T>(heads: seq<T>, tails: seq<seq<T>>): (r: seq<seq<T>>)
    ensures |r| == |heads| * |tails|
  {
    if heads == [] then [] else Prefixed(heads[0], tails) + Expand(heads[1..], tails)
  }

  /** `itertools.product(*ls)`. */
  function Cartesian<T>(ls: seq<seq<T>>): (r: seq<seq<T>>)
    ensures |r| == ProductOfLengths(ls)
  {
    if ls == [] then [[]] else Expand(ls[0], Cartesian(ls[1..]))
  }

  /** Position `i * |tails| + j` of an expansion holds head `i` in front of
      tail `j`: heads vary slowest. */
  lemma {:induction false} ExpandAt<T>(heads: seq<T>, tails: seq<seq<T>>, i: nat, j: nat)
    requires i < |heads| && j < |tails|
    ensures i * |tails| + j < |Expand(heads, tails)|
    ensures Expand(heads, tails)[i * |tails| + j] == [heads[i]] + tails[j]
  {
    var p := Prefixed(heads[0], tails);
    if i > 0 {
      ExpandAt(heads[1..], tails, i - 1, j);
      assert i * |tails| + j == |p| + ((i - 1) * |tails| + j);
    }
  }

  /** Every element of an expansion is some head in front of some tail. */
  lemma {:induction false} ExpandIn<T>(heads: seq<T>, tails: seq<seq<T>>, c: seq<T>)
    requires c in Expand(heads, tails)
    ensures exists i, j :: 0 <= i < |heads| && 0 <= j < |tails| && c == [heads[i]] + tails[j]
  {
    var p := Prefixed(heads[0], tails);
    if c in p {
      var j :| 0 <= j < |tails| && p[j] == c;
      assert c == [heads[0]] + tails[j];
    } else {
      ExpandIn(heads[1..], tails, c);
      var i, j :| 0 <= i < |heads[1..]| && 0 <= j < |tails| && c == [heads[1..][i]] + tails[j];
      assert c == [heads[i + 1]] + tails[j];
    }
  }

  /** Order of the product: the combination at `i * P + j`, where `P` is the
      number of combinations of the remaining lists, starts with element `i`
      of the first list and goes on with combination `j` of the rest. */
  lemma CartesianAt<T>(ls: seq<seq<T>>, i: nat, j: nat)
    requires ls != [] && i < |ls[0]| && j < ProductOfLengths(ls[1..])
    ensures i * ProductOfLengths(ls[1..]) + j < |Cartesian(ls)|
    ensures Cartesian(ls)[i * ProductOfLengths(ls[1..]) + j] == [ls[0][i]] + Cartesian(ls[1..])[j]
  {
    ExpandAt(ls[0], Cartesian(ls[1..]), i, j);
  }

  /** A combination picks exactly one element from each list, in list order. */
  predicate Picks<T(==)>(ls: seq<seq<T>>, c: seq<T>)
  {
    |c| == |ls| && forall i :: 0 <= i < |c| ==> c[i] in ls[i]
  }

  /** Every combination picks one element from each list. */
  lemma {:induction false} CartesianPicks<T>(ls: seq<seq<T>>, c: seq<T>)
    requires c in Cartesian(ls)
    ensures Picks(ls, c)
  {
    if ls != [] {
      ExpandIn(ls[0], Cartesian(ls[1..]), c);
      var i, j :| 0 <= i < |ls[0]| && 0 <= j < |Cartesian(ls[1..])| && c == [ls[0][i]] + Cartesian(ls[1..])[j];
      CartesianPicks(ls[1..], Cartesian(ls[1..])[j]);
      forall k | 0 <= k < |c| ensures c[k] in ls[k] {
        if k > 0 {
          assert c[k] == Cartesian(ls[1..])[j][k - 1];
        }
      }
    }
  }

  /** Every way of picking one element from each list is a combination. */
  lemma {:induction false} PicksInCartesian<T>(ls: seq<seq<T>>, c: seq<T>)
    requires Picks(ls, c)
    ensures c in Cartesian(ls)
  {
    if ls == [] {
      assert c == [];
    } else {
      var rest := ls[1..];
      assert Picks(rest, c[1..]) by {
        forall k | 0 <= k < |c[1..]| ensures c[1..][k] in rest[k] {
          assert c[k + 1] in ls[k + 1];
        }
      }
      PicksInCartesian(rest, c[1..]);
      var j :| 0 <= j < |Cartesian(rest)| && Cartesian(rest)[j] == c[1..];
      var i :| 0 <= i < |ls[0]| && ls[0][i] == c[0];
      ExpandAt(ls[0], Cartesian(rest), i, j);
      assert c == [ls[0][i]] + Cartesian(rest)[j];
    }
  }

  /** The product is empty exactly when one of the lists is empty. */
  lemma {:induction false} CartesianEmpty<T>(ls: seq<seq<T>>)
    ensures Cartesian(ls) == [] <==> exists i :: 0 <= i < |ls| && ls[i] == []
  {
    if ls != [] {
      CartesianEmpty(ls[1..]);
      if ProductOfLengths(ls[1..]) == 0 {
        var i :| 0 <= i < |ls[1..]| && ls[1..][i] == [];
        assert ls[i + 1] == [];
      }
      if exists i :: 0 <= i < |ls| && ls[i] == [] {
        var i :| 0 <= i < |ls| && ls[i] == [];
        if i > 0 {
          assert ls[1..][i - 1] == [];
        }
      }
    }
  }

  /** No element appears twice. */
  predicate Distinct<T(==)>(s: seq<T>)
  {
    forall i, j :: 0 <= i < j < |s| ==> s[i] != s[j]
  }

  /** When no list repeats an element, no combination occurs twice. */
  lemma {:induction false} CartesianDistinct<T>(ls: seq<seq<T>>)
    requires forall k :: 0 <= k < |ls| ==> Distinct(ls[k])
    ensures Distinct(Cartesian(ls))
  {
    if ls != [] {
      var tails := Cartesian(ls[1..]);
      CartesianDistinct(ls[1..]);
      ExpandDistinct(ls[0], tails);
    }
  }

  lemma {:induction false} ExpandDistinct<T>(heads: seq<T>, tails: seq<seq<T>>)
    requires Distinct(heads) && Distinct(tails)
    ensures Distinct(Expand(heads, tails))
  {
    if heads != [] {
      var p := Prefixed(heads[0], tails);
      var rest := Expand(heads[1..], tails);
      ExpandDistinct(heads[1..], tails);
      assert Distinct(p) by {
        forall i, j | 0 <= i < j < |p| ensures p[i] != p[j] {
          assert p[i][1..] == tails[i] && p[j][1..] == tails[j];
        }
      }
      forall x, y | x in p && y in rest ensures x != y {
        var j :| 0 <= j < |p| && p[j] == x;
        ExpandIn(heads[1..], tails, y);
        var i', j' :| 0 <= i' < |heads[1..]| && 0 <= j' < |tails| && y == [heads[1..][i']] + tails[j'];
        assert x[0] == heads[0] && y[0] == heads[i' + 1];
      }
      var r := p + rest;
      forall i, j | 0 <= i < j < |r| ensures r[i] != r[j] {
        if j < |p| {
        } else if i >= |p| {
          assert r[i] == rest[i - |p|] && r[j] == rest[j - |p|];
        } else {
          assert r[i] in p && r[j] in rest;
        }
      }
    }
  }
}
