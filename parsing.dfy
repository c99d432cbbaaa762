/** The two small list transforms that feed the variant tables: the option
    names typed into the options form (website/admin.py:127-132) and the
    comma-separated value list of each option (website/admin.py:154-157).
    Both strip every entry and drop the entries left empty. */
module Parsing {
  import opened Text

  /** `[p.strip() for p in pieces if p.strip()]`. */
  function KeepStripped(pieces: seq<string>): (r: seq<string>)
    ensures |r| <= |pieces|
    ensures forall k :: 0 <= k < |r| ==> r[k] != [] && IsTrimmed(r[k])
  {
    if pieces == [] then []
    else
      var t := Strip(pieces[0]);
      (if t != [] then [t] else []) + KeepStripped(pieces[1..])
  }

  /** Stripping takes no character that was not there: a character absent
      from every piece is absent from every result. */
  lemma {:induction false} KeepStrippedAvoids(pieces: seq<string>, c: char)
    requires forall k :: 0 <= k < |pieces| ==> c !in pieces[k]
    ensures forall k :: 0 <= k < |KeepStripped(pieces)| ==> c !in KeepStripped(pieces)[k]
  {
    if pieces != [] {
      KeepStrippedAvoids(pieces[1..], c);
      var t := Strip(pieces[0]);
      StripIsSlice(pieces[0]);
      assert c !in t;
    }
  }

  /** Pieces that are already stripped and not empty are all kept, unchanged. */
  lemma {:induction false} KeepStrippedKeepsClean(pieces: seq<string>)
    requires forall k :: 0 <= k < |pieces| ==> pieces[k] != [] && IsTrimmed(pieces[k])
    ensures KeepStripped(pieces) == pieces
  {
    if pieces != [] {
      StripTrimmed(pieces[0]);
      KeepStrippedKeepsClean(pieces[1..]);
    }
  }

  /** Stripping one more entry keeps the names so far and adds its own when
      it is not blank. */
  lemma {:induction false} KeepStrippedSnoc(pieces: seq<string>, e: string)
    ensures KeepStripped(pieces + [e]) == KeepStripped(pieces) + (if Strip(e) != [] then [Strip(e)] else [])
  {
    if pieces == [] {
      assert pieces + [e] == [e];
    } else {
      assert (pieces + [e])[1..] == pieces[1..] + [e];
      KeepStrippedSnoc(pieces[1..], e);
    }
  }

  /** The option names stored by `add_variant_options`, in form order. */
  function OptionNames(entries: seq<string>): (r: seq<string>)
    ensures |r| <= |entries|
    ensures forall k :: 0 <= k < |r| ==> r[k] != [] && IsTrimmed(r[k])
  {
    KeepStripped(entries)
  }

  /** The values stored for one option by `add_variant_values`: the pieces
      between commas, stripped, without the empty ones. */
  function ParseValues(s: string): (r: seq<string>)
    ensures forall k :: 0 <= k < |r| ==> r[k] != [] && IsTrimmed(r[k]) && ',' !in r[k]
  {
    var pieces := Split(s, ',');
    KeepStrippedAvoids(pieces, ',');
    KeepStripped(pieces)
  }

  /** A list of clean values written out with commas parses back to itself;
      so does the list with no values, written as the empty string. */
  lemma ParseJoin(ws: seq<string>)
    requires forall k :: 0 <= k < |ws| ==> ws[k] != [] && IsTrimmed(ws[k]) && ',' !in ws[k]
    ensures ParseValues(Join(ws, ",")) == ws
  {
    if ws == [] {
      assert Split([], ',') == [[]];
      StripEmpty([]);
    } else {
      SplitJoin(ws, ',');
      KeepStrippedKeepsClean(ws);
    }
  }

  /** Parsing is a normal form: re-joining the parsed values and parsing
      again gives the same values. */
  lemma ParseIdempotent(s: string)
    ensures ParseValues(Join(ParseValues(s), ",")) == ParseValues(s)
  {
    ParseJoin(ParseValues(s));
  }

  /** A blank field, or one made only of commas and spaces, yields no value. */
  lemma {:induction false} ParseBlank(s: string)
    requires forall i :: 0 <= i < |s| ==> s[i] == ',' || IsSpace(s[i])
    ensures ParseValues(s) == []
  {
    var pieces := Split(s, ',');
    JoinSplit(s, ',');
    forall k | 0 <= k < |pieces| ensures Strip(pieces[k]) == [] {
      PieceOfBlank(s, k);
      StripEmpty(pieces[k]);
    }
    KeepStrippedDropsBlank(pieces);
  }

  /** Every piece of a split of a string of commas and spaces is blank. */
  lemma {:induction false} PieceOfBlank(s: string, k: nat)
    requires forall i :: 0 <= i < |s| ==> s[i] == ',' || IsSpace(s[i])
    requires k < |Split(s, ',')|
    ensures forall i :: 0 <= i < |Split(s, ',')[k]| ==> IsSpace(Split(s, ',')[k][i])
    decreases |s|
  {
    var w := Split(s, ',')[k];
    if ',' in s {
      var j := IndexOf(s, ',');
      if k == 0 {
        forall i | 0 <= i < |w| ensures IsSpace(w[i]) {
          assert w[i] == s[i];
        }
      } else {
        assert Split(s, ',')[k] == Split(s[j + 1..], ',')[k - 1];
        PieceOfBlank(s[j + 1..], k - 1);
      }
    } else {
      forall i | 0 <= i < |w| ensures IsSpace(w[i]) {
        assert w[i] == s[i];
      }
    }
  }

  lemma {:induction false} KeepStrippedDropsBlank(pieces: seq<string>)
    requires forall k :: 0 <= k < |pieces| ==> Strip(pieces[k]) == []
    ensures KeepStripped(pieces) == []
  {
    if pieces != [] {
      KeepStrippedDropsBlank(pieces[1..]);
    }
  }
}
