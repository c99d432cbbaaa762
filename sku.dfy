/** Automatic SKU codes for product variants (website/admin.py:33-89):
    `CATEGORY-SLUG-V1-V2-...`, built from a category table, the product name
    and an abbreviation per variant value. No random suffix is appended, so
    the code is a function of its inputs and two inputs can share a code. */
module Sku {
  import opened Text
  import opened Wrappers

  /** The abbreviation table of `shorten_value`, keyed by title-cased words. */
  function Abbreviation(key: string): Option<string>
  {
    match key
    case "Left" => Some("L")
    case "Right" => Some("R")
    case "Medium" => Some("M")
    case "Small" => Some("S")
    case "Large" => Some("L")
    case "Extra Large" => Some("XL")
    case "Extra Small" => Some("XS")
    case _ => None
  }

  /** Every abbreviation has one or two characters, none of them a dash. */
  lemma AbbreviationShape(key: string)
    ensures var r := Abbreviation(key);
            r.Some? ==> 1 <= |r.value| <= 2 && '-' !in r.value
  {
  }

  /** `shorten_value`: the table entry for the trimmed, title-cased value, or
      else the first three characters of the value as given (not trimmed),
      upper-cased. */
  function ShortenValue(value: string): string
  {
    Abbreviation(Title(Strip(value))).GetOr(Upper(Take(value, 3)))
  }

  /** An abbreviation has at most three characters and brings no dash of its own. */
  lemma ShortenValueShape(value: string)
    ensures |ShortenValue(value)| <= 3
    ensures '-' !in value ==> '-' !in ShortenValue(value)
  {
    var key := Title(Strip(value));
    AbbreviationShape(key);
    if Abbreviation(key).None? {
      var t := Take(value, 3);
      UpperChars(t);
      if '-' in t {
        var i :| 0 <= i < |t| && t[i] == '-';
        assert value[i] == '-';
      }
    }
  }

  /** The words of a product name as `name.strip().upper().split()` sees them. */
  function NameWords(name: string): seq<string>
  {
    Words(Upper(Strip(name)))
  }

  /** The first character of every word. */
  function Initials(words: seq<string>): (r: string)
    requires forall k :: 0 <= k < |words| ==> words[k] != []
    ensures |r| == |words|
  {
    if words == [] then [] else [words[0][0]] + Initials(words[1..])
  }

  lemma {:induction false} InitialsAt(words: seq<string>, k: nat)
    requires forall k :: 0 <= k < |words| ==> words[k] != []
    requires k < |words|
    ensures Initials(words)[k] == words[k][0]
  {
    if k > 0 {
      InitialsAt(words[1..], k - 1);
    }
  }

  /** `slugify_name`. */
  function SlugifyName(name: string): string
  {
    var words := NameWords(name);
    WordsNonEmpty(Upper(Strip(name)));
    if |words| == 1 then Take(words[0], 3) else Initials(words)
  }

  /** `slugify_name`: a one-word name gives its first three letters (fewer
      when the word is shorter); any other name gives exactly one letter per
      word, the word's first (so "" for a blank name). */
  lemma SlugifyNameShape(name: string)
    ensures var words := NameWords(name);
            var r := SlugifyName(name);
            && (forall k :: 0 <= k < |words| ==> words[k] != [])
            && (|words| == 1 ==> 1 <= |r| <= 3 && |r| <= |words[0]| && r == words[0][..|r|] && (|r| < 3 ==> r == words[0]))
            && (|words| != 1 ==> |r| == |words| && forall k :: 0 <= k < |words| ==> r[k] == words[k][0])
  {
    var words := NameWords(name);
    WordsNonEmpty(Upper(Strip(name)));
    if |words| != 1 {
      forall k | 0 <= k < |words| ensures SlugifyName(name)[k] == words[k][0] {
        InitialsAt(words, k);
      }
    }
  }

  /** A blank name gives an empty slug, and only a blank name does. */
  lemma SlugifyBlank(name: string)
    ensures SlugifyName(name) == [] <==> forall i :: 0 <= i < |name| ==> IsSpace(name[i])
  {
    var t := Strip(name);
    var u := Upper(t);
    WordsEmpty(u);
    StripEmpty(name);
    SlugifyNameShape(name);
  }

  /** Every character of `strip(name).upper()` is a character of `name.upper()`. */
  lemma UpperStripChars(name: string)
    ensures forall c :: c in Upper(Strip(name)) ==> c in Upper(name)
  {
    var t := Strip(name);
    var u := Upper(t);
    StripIsSlice(name);
    var a := LeadingSpace(name);
    forall c | c in u ensures c in Upper(name) {
      var i :| 0 <= i < |u| && u[i] == c;
      assert t[i] == name[a + i];
      assert Upper(name)[a + i] == c;
    }
  }

  /** `upper()` leaves no ASCII lower-case letter and creates no '-'. */
  lemma UpperChars(s: string)
    ensures forall c :: c in Upper(s) ==> !IsAsciiLower(c) && (c == '-' ==> '-' in s)
  {
    forall c | c in Upper(s) ensures !IsAsciiLower(c) && (c == '-' ==> '-' in s) {
      var i :| 0 <= i < |s| && Upper(s)[i] == c;
      assert c == UpperChar(s[i]);
    }
  }

  /** Every character of the slug is an upper-cased character of the name,
      never whitespace; hence no ASCII lower-case letter, and no '-' unless
      the name has one. */
  lemma SlugifyChars(name: string)
    ensures forall c :: c in SlugifyName(name) ==> c in Upper(name) && !IsSpace(c) && !IsAsciiLower(c)
    ensures '-' !in name ==> '-' !in SlugifyName(name)
  {
    var u := Upper(Strip(name));
    var words := NameWords(name);
    var r := SlugifyName(name);
    SlugifyNameShape(name);
    UpperStripChars(name);
    UpperChars(name);
    forall c | c in r ensures c in u && !IsSpace(c) {
      var k: nat;
      if |words| == 1 {
        k := 0;
        assert c in words[0];
      } else {
        var j :| 0 <= j < |r| && r[j] == c;
        k := j;
        assert c == words[k][0];
      }
      WordChars(u, k, c);
      WordClean(u, k);
    }
  }

  /** The category-name to code table of `category_prefixes`. */
  function CategoryPrefix(category: string): Option<string>
  {
    match category
    case "Foils" => Some("FOI")
    case "Épées" => Some("EPE")
    case "Sabres" => Some("SBR")
    case "Practice Weapons" => Some("PRC")
    case "Weapon Parts" => Some("WPT")
    case "Masks & Accessories" => Some("MSK")
    case "Gloves" => Some("GLV")
    case "Chest Protectors" => Some("CHG")
    case "Plastrons" => Some("PLS")
    case "Jackets" => Some("JKT")
    case "Breeches" => Some("BRH")
    case "Lames" => Some("LAM")
    case "Socks" => Some("SOC")
    case "Shoes" => Some("SHO")
    case "Body Cords" => Some("BDC")
    case "Electric Blades" => Some("ELB")
    case "Electric Weapons" => Some("ELW")
    case "Scoring Equipment" => Some("SCR")
    case "Weapon Bags" => Some("WBG")
    case "Roll Bags" => Some("RBG")
    case "Backpacks" => Some("BKP")
    case "Tools & Maintenance" => Some("TLS")
    case "Tape" => Some("TAP")
    case "Testers" => Some("TST")
    case "Miscellaneous" => Some("MSC")
    case _ => None
  }

  /** `category_prefixes.get(name, "GEN")`: always three upper-case letters. */
  function CategoryCode(category: string): (r: string)
    ensures |r| == 3
    ensures CategoryPrefix(category).None? ==> r == "GEN"
  {
    CategoryPrefixShape(category);
    CategoryPrefix(category).GetOr("GEN")
  }

  /** Every code of the table has three upper-case letters. */
  lemma CategoryPrefixShape(category: string)
    ensures var r := CategoryPrefix(category);
            r.Some? ==> |r.value| == 3 && forall i :: 0 <= i < 3 ==> IsAsciiUpper(r.value[i])
  {
  }

  /** The category code is three upper-case letters. */
  lemma CategoryCodeUpper(category: string)
    ensures forall i :: 0 <= i < 3 ==> IsAsciiUpper(CategoryCode(category)[i])
  {
    CategoryPrefixShape(category);
  }

  /** The abbreviations of a combination's values, in combination order. */
  function Shortened(values: seq<string>): (r: seq<string>)
    ensures |r| == |values|
  {
    seq(|values|, k requires 0 <= k < |values| => ShortenValue(values[k]))
  }

  /** `generate_auto_sku(product, combo)`, given the name of the product's
      category, the product name and the values of the combination. */
  function GenerateAutoSku(category: string, name: string, values: seq<string>): string
  {
    CategoryCode(category) + "-" + SlugifyName(name) + "-" + Join(Shortened(values), "-")
  }

  /** Every SKU starts with the three-letter category code and a dash; with
      no values it ends in the dash that would precede them. */
  lemma GenerateAutoSkuShape(category: string, name: string, values: seq<string>)
    ensures var r := GenerateAutoSku(category, name, values);
            |r| >= 5 && r[..4] == CategoryCode(category) + "-"
            && (values == [] ==> r[|r| - 1] == '-')
  {
  }

  /** The keys of the abbreviation table, one by one. */
  predicate IsAbbreviationKey(key: string)
  {
    || key == "Left" || key == "Right" || key == "Medium" || key == "Small" || key == "Large"
    || key == "Extra Large" || key == "Extra Small"
  }

  lemma AbbreviationKeys(key: string)
    requires Abbreviation(key).Some?
    ensures IsAbbreviationKey(key)
  {
  }

  /** Each key is a capitalised word, or two of them around a space. */
  lemma AbbreviationKeyTitleCased(key: string)
    requires IsAbbreviationKey(key)
    ensures IsTitleCased(key)
  {
    if key == "Extra Large" || key == "Extra Small" {
      var second := if key == "Extra Large" then "Large" else "Small";
      assert key == "Extra" + " " + second;
      CapitalisedTitleCased("Extra");
      CapitalisedTitleCased(second);
      SpacedTitleCased("Extra", second);
    } else {
      CapitalisedTitleCased(key);
    }
  }

  /** The keys of the abbreviation table are already title-cased, so the
      title-cased lookup can reach every one of them. */
  lemma AbbreviationKeysTitled(key: string)
    requires Abbreviation(key).Some?
    ensures Title(key) == key
  {
    AbbreviationKeys(key);
    AbbreviationKeyTitleCased(key);
    TitleOfTitleCased(key);
  }

  /** `shorten_value` is case-insensitive on the table: a value whose trimmed
      form equals a table key up to ASCII case gets that key's entry, so for
      instance " extra large " becomes "XL". */
  lemma ShortenValueHit(value: string, key: string)
    requires Abbreviation(key).Some?
    requires Lower(Strip(value)) == Lower(key)
    ensures ShortenValue(value) == Abbreviation(key).value
  {
    TitleIgnoresCase(Strip(value), key);
    AbbreviationKeysTitled(key);
  }

  /** When the trimmed value matches no table key, whatever its case, the
      result is the first three characters of the value as given, upper-cased. */
  lemma ShortenValueMiss(value: string)
    requires forall key :: Abbreviation(key).Some? ==> Lower(Strip(value)) != Lower(key)
    ensures ShortenValue(value) == Upper(Take(value, 3))
  {
    var key := Title(Strip(value));
    if Abbreviation(key).Some? {
      LowerOfTitle(Strip(value));
      assert false;
    }
  }

  /** The trimmed, case-insensitive lookup: " extra large " is "XL". */
  lemma ShortenValueTrimmedExample()
    ensures ShortenValue(" extra large ") == "XL"
  {
    var s := " extra large ";
    assert LeadingSpace(s[1..]) == 0;
    assert LeadingSpace(s) == 1;
    var t := s[1..];
    assert TrailingSpace(t[..11]) == 0;
    assert TrailingSpace(t) == 1;
    assert Strip(s) == "extra large";
    assert Abbreviation("Extra Large") == Some("XL");
    ShortenValueHit(s, "Extra Large");
  }

  /** The fallback keeps the leading whitespace of the untrimmed value. */
  lemma ShortenValueFallbackExample()
    ensures ShortenValue("  blue") == "  B"
  {
    var b := "  blue";
    assert LeadingSpace(b[2..]) == 0;
    assert LeadingSpace(b[1..]) == 1;
    assert LeadingSpace(b) == 2;
    assert TrailingSpace(b[2..]) == 0;
    assert Strip(b) == "blue";
    var u := "blue";
    assert u[1..][1..] == u[2..];
    assert u[2..][1..] == u[3..];
    assert TitleFrom(u[3..], true) == "e";
    assert TitleFrom(u[2..], true) == "ue";
    assert TitleFrom(u[1..], true) == "lue";
    assert Title(u) == "Blue";
    assert Take(b, 3) == "  b";
  }

  /** Two table keys share the entry "L", so the abbreviation is not
      injective and two combinations can receive the same SKU. */
  lemma ShortenValueNotInjective()
    ensures ShortenValue("Large") == ShortenValue("Left") == "L"
  {
    assert Abbreviation("Large") == Some("L");
    assert Abbreviation("Left") == Some("L");
    StripTrimmed("Large");
    ShortenValueHit("Large", "Large");
    StripTrimmed("Left");
    ShortenValueHit("Left", "Left");
  }

  /** `j.join(ws)` with at least two pieces puts the first piece, a separator
      and the join of the rest. */
  lemma JoinCons(w: string, ws: seq<string>, sep: string)
    requires ws != []
    ensures Join([w] + ws, sep) == w + sep + Join(ws, sep)
  {
    assert ([w] + ws)[1..] == ws;
  }

  /** Splitting a SKU at '-' gives back its parts: the category code, the
      slug, and one abbreviation per value (a single empty part when there
      are no values), provided neither the name nor any value contains '-'. */
  lemma SkuTokens(category: string, name: string, values: seq<string>)
    requires '-' !in name
    requires forall k :: 0 <= k < |values| ==> '-' !in values[k]
    ensures Split(GenerateAutoSku(category, name, values), '-') ==
            [CategoryCode(category), SlugifyName(name)] + (if values == [] then [""] else Shortened(values))
  {
    var code, slug := CategoryCode(category), SlugifyName(name);
    var pieces := if values == [] then [""] else Shortened(values);
    assert Join(pieces, "-") == Join(Shortened(values), "-");
    JoinCons(slug, pieces, "-");
    JoinCons(code, [slug] + pieces, "-");
    var ws := [code, slug] + pieces;
    assert [code] + ([slug] + pieces) == ws;
    assert Join(ws, "-") == GenerateAutoSku(category, name, values);
    SlugifyChars(name);
    forall k | 0 <= k < |ws| ensures '-' !in ws[k] {
      if k == 0 {
        CategoryCodeUpper(category);
        assert forall i :: 0 <= i < 3 ==> code[i] != '-';
      } else if k >= 2 && values != [] {
        assert ws[k] == ShortenValue(values[k - 2]);
        ShortenValueShape(values[k - 2]);
      }
    }
    SplitJoin(ws, '-');
  }
}
