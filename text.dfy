/** The handful of Python string operations the admin module relies on
    (`strip`, `upper`, `title`, `split()`, `split(',')`, `join`, slicing),
    restricted to ASCII case mapping. Characters outside ASCII are left
    unchanged by the case functions and count as uncased. */
module Text {

  /** Python's `str.isspace` on the ASCII range: space, the five controls
      from tab to carriage return, and the four separators U+001C..U+001F. */
  predicate IsSpace(c: char)
  {
    c == ' ' || ('\t' <= c <= '\r') || ('\U{1C}' <= c <= '\U{1F}')
  }

  predicate IsAsciiUpper(c: char) { 'A' <= c <= 'Z' }

  predicate IsAsciiLower(c: char) { 'a' <= c <= 'z' }

  /** The cased characters of the ASCII range. */
  predicate IsAsciiLetter(c: char) { IsAsciiUpper(c) || IsAsciiLower(c) }

  function UpperChar(c: char): (r: char)
    ensures IsAsciiLower(c) ==> IsAsciiUpper(r) && r as int == c as int - 32
    ensures !IsAsciiLower(c) ==> r == c
  {
    if IsAsciiLower(c) then (c as int - 32) as char else c
  }

  function LowerChar(c: char): (r: char)
    ensures IsAsciiUpper(c) ==> IsAsciiLower(r) && r as int == c as int + 32
    ensures !IsAsciiUpper(c) ==> r == c
  {
    if IsAsciiUpper(c) then (c as int + 32) as char else c
  }

  /** `s.upper()`. */
  function Upper(s: string): (r: string)
    ensures |r| == |s|
  {
    seq(|s|, i requires 0 <= i < |s| => UpperChar(s[i]))
  }

  /** `s.title()`: a character that follows a cased character is lower-cased,
      every other character is upper-cased. `prevCased` says whether the
      character before `s` was cased. */
  function TitleFrom(s: string, prevCased: bool): (r: string)
    ensures |r| == |s|
  {
    if s == [] then []
    else [if prevCased then LowerChar(s[0]) else UpperChar(s[0])] + TitleFrom(s[1..], IsAsciiLetter(s[0]))
  }

  /** Each character of `s.title()` depends only on itself and on whether the
      character before it is cased: lower-cased after a cased character,
      upper-cased otherwise (at the start of the string, or after a digit,
      space or punctuation mark). */
  lemma {:induction false} TitleFromAt(s: string, prevCased: bool, i: nat)
    requires i < |s|
    ensures TitleFrom(s, prevCased)[i] ==
            if (if i == 0 then prevCased else IsAsciiLetter(s[i - 1])) then LowerChar(s[i]) else UpperChar(s[i])
  {
    if i > 0 {
      TitleFromAt(s[1..], IsAsciiLetter(s[0]), i - 1);
    }
  }

  function Title(s: string): (r: string)
    ensures |r| == |s|
  {
    TitleFrom(s, false)
  }

  /** `s.lower()`. */
  function Lower(s: string): (r: string)
    ensures |r| == |s|
  {
    seq(|s|, i requires 0 <= i < |s| => LowerChar(s[i]))
  }

  /** Already in the form `title()` produces. */
  predicate IsTitleCased(s: string)
  {
    forall i {:trigger s[i]} :: 0 <= i < |s| ==>
      s[i] == if i > 0 && IsAsciiLetter(s[i - 1]) then LowerChar(s[i]) else UpperChar(s[i])
  }

  /** `title()` leaves a title-cased string as it is. */
  lemma TitleOfTitleCased(s: string)
    requires IsTitleCased(s)
    ensures Title(s) == s
  {
    var r := TitleFrom(s, false);
    forall i | 0 <= i < |s| ensures r[i] == s[i] {
      TitleFromAt(s, false, i);
      assert s[i] == if i > 0 && IsAsciiLetter(s[i - 1]) then LowerChar(s[i]) else UpperChar(s[i]);
    }
    assert r == s;
  }

  /** A capitalised word: an upper-case letter followed by lower-case ones. */
  predicate Capitalised(w: string)
  {
    |w| > 0 && IsAsciiUpper(w[0]) && forall i :: 0 < i < |w| ==> IsAsciiLower(w[i])
  }

  lemma CapitalisedTitleCased(w: string)
    requires Capitalised(w)
    ensures IsTitleCased(w)
  {
  }

  /** Two title-cased strings joined by a space make a title-cased string:
      the space is uncased, so the second starts afresh. */
  lemma SpacedTitleCased(a: string, b: string)
    requires IsTitleCased(a) && IsTitleCased(b)
    ensures IsTitleCased(a + " " + b)
  {
    var s := a + " " + b;
    forall i | 0 <= i < |s|
      ensures s[i] == if i > 0 && IsAsciiLetter(s[i - 1]) then LowerChar(s[i]) else UpperChar(s[i])
    {
      if i > |a| + 1 {
        assert s[i] == b[i - |a| - 1] && s[i - 1] == b[i - |a| - 2];
      } else if i == |a| + 1 {
        assert s[i] == b[0] && s[i - 1] == ' ';
      } else if i < |a| {
        assert s[i] == a[i];
        if i > 0 { assert s[i - 1] == a[i - 1]; }
      } else {
        assert s[i] == ' ';
      }
    }
  }

  /** Lower-casing undoes whatever `title()` did to the case. */
  lemma LowerOfTitle(s: string)
    ensures Lower(Title(s)) == Lower(s)
  {
    forall i | 0 <= i < |s| ensures Lower(Title(s))[i] == Lower(s)[i] {
      TitleFromAt(s, false, i);
    }
  }

  /** Two characters equal up to ASCII case have the same upper-case form and
      are either both letters or both not. */
  lemma CaseFold(c: char, d: char)
    requires LowerChar(c) == LowerChar(d)
    ensures UpperChar(c) == UpperChar(d)
    ensures IsAsciiLetter(c) == IsAsciiLetter(d)
  {
    if IsAsciiUpper(c) && IsAsciiLower(d) {
      assert LowerChar(c) as int == c as int + 32;
    } else if IsAsciiLower(c) && IsAsciiUpper(d) {
      assert LowerChar(d) as int == d as int + 32;
    }
  }

  /** `title()` ignores the case of its input: two strings that agree once
      lower-cased have the same title form. */
  lemma TitleIgnoresCase(s: string, t: string)
    requires Lower(s) == Lower(t)
    ensures Title(s) == Title(t)
  {
    assert |s| == |t| by { assert |Lower(s)| == |Lower(t)|; }
    forall i | 0 <= i < |s| ensures Title(s)[i] == Title(t)[i] {
      TitleFromAt(s, false, i);
      TitleFromAt(t, false, i);
      assert LowerChar(s[i]) == LowerChar(t[i]) by { assert Lower(s)[i] == Lower(t)[i]; }
      CaseFold(s[i], t[i]);
      if i > 0 {
        assert LowerChar(s[i - 1]) == LowerChar(t[i - 1]) by { assert Lower(s)[i - 1] == Lower(t)[i - 1]; }
        CaseFold(s[i - 1], t[i - 1]);
      }
    }
  }

  /** `s[:n]`. */
  function Take(s: string, n: nat): (r: string)
    ensures |r| == if |s| <= n then |s| else n
    ensures r == s[..|r|]
  {
    if |s| <= n then s else s[..n]
  }

  /** The number of whitespace characters at the start of `s`. */
  function LeadingSpace(s: string): (n: nat)
    ensures n <= |s|
    ensures n < |s| ==> !IsSpace(s[n])
  {
    if s != [] && IsSpace(s[0]) then 1 + LeadingSpace(s[1..]) else 0
  }

  /** All of the leading run is whitespace. */
  lemma {:induction false} LeadingSpaceAll(s: string)
    ensures forall i :: 0 <= i < LeadingSpace(s) ==> IsSpace(s[i])
  {
    if s != [] && IsSpace(s[0]) {
      LeadingSpaceAll(s[1..]);
      forall i | 1 <= i < LeadingSpace(s) ensures IsSpace(s[i]) {
        assert s[i] == s[1..][i - 1];
      }
    }
  }

  /** The number of whitespace characters at the end of `s`. */
  function TrailingSpace(s: string): (n: nat)
    ensures n <= |s|
    ensures n < |s| ==> !IsSpace(s[|s| - 1 - n])
  {
    if s != [] && IsSpace(s[|s| - 1]) then 1 + TrailingSpace(s[..|s| - 1]) else 0
  }

  /** All of the trailing run is whitespace. */
  lemma {:induction false} TrailingSpaceAll(s: string)
    ensures forall i :: |s| - TrailingSpace(s) <= i < |s| ==> IsSpace(s[i])
  {
    if s != [] && IsSpace(s[|s| - 1]) {
      TrailingSpaceAll(s[..|s| - 1]);
      forall i | |s| - TrailingSpace(s) <= i < |s| - 1 ensures IsSpace(s[i]) {
        assert s[i] == s[..|s| - 1][i];
      }
    }
  }

  /** `s.lstrip()`: drops the leading whitespace. */
  function TrimStart(s: string): (r: string)
    ensures r != [] ==> !IsSpace(r[0])
  {
    s[LeadingSpace(s)..]
  }

  /** `s.rstrip()`: drops the trailing whitespace. */
  function TrimEnd(s: string): (r: string)
    ensures r != [] ==> !IsSpace(r[|r| - 1])
  {
    s[..|s| - TrailingSpace(s)]
  }

  /** No whitespace at either end. */
  predicate IsTrimmed(s: string)
  {
    s == [] || (!IsSpace(s[0]) && !IsSpace(s[|s| - 1]))
  }

  /** `s.strip()`. */
  function Strip(s: string): (r: string)
    ensures IsTrimmed(r)
  {
    var t := TrimStart(s);
    assert t != [] && TrimEnd(t) != [] ==> TrimEnd(t)[0] == t[0];
    TrimEnd(t)
  }

  /** `Strip(s)` is the slice of `s` that remains once the whitespace at both
      ends is cut away. */
  lemma StripIsSlice(s: string)
    ensures var a := LeadingSpace(s);
            a + |Strip(s)| <= |s| && Strip(s) == s[a..a + |Strip(s)|] &&
            (forall i :: 0 <= i < a ==> IsSpace(s[i])) &&
            (forall i :: a + |Strip(s)| <= i < |s| ==> IsSpace(s[i]))
  {
    var a := LeadingSpace(s);
    var t := s[a..];
    var m := TrailingSpace(t);
    LeadingSpaceAll(s);
    TrailingSpaceAll(t);
    assert Strip(s) == s[a..|s| - m] by {
      assert Strip(s) == t[..|t| - m];
    }
    forall i | |s| - m <= i < |s| ensures IsSpace(s[i]) {
      assert s[i] == t[i - a];
    }
  }

  /** `strip` returns the empty string exactly when `s` is all whitespace. */
  lemma StripEmpty(s: string)
    ensures Strip(s) == [] <==> forall i :: 0 <= i < |s| ==> IsSpace(s[i])
  {
    StripIsSlice(s);
    var a := LeadingSpace(s);
    if Strip(s) != [] {
      assert !IsSpace(s[a]) by { assert s[a] == Strip(s)[0]; }
    }
  }

  /** Stripping a trimmed string changes nothing, so `strip` is idempotent. */
  lemma StripTrimmed(s: string)
    requires IsTrimmed(s)
    ensures Strip(s) == s
  {
    assert LeadingSpace(s) == 0;
    assert TrimStart(s) == s;
    assert TrailingSpace(s) == 0;
  }

  /** The length of the run of non-whitespace characters that starts `s`. */
  function WordLength(s: string): (n: nat)
    ensures n <= |s|
    ensures n < |s| ==> IsSpace(s[n])
  {
    if s == [] || IsSpace(s[0]) then 0 else 1 + WordLength(s[1..])
  }

  /** The run has no whitespace. */
  lemma {:induction false} WordLengthAll(s: string)
    ensures forall i :: 0 <= i < WordLength(s) ==> !IsSpace(s[i])
  {
    if s != [] && !IsSpace(s[0]) {
      WordLengthAll(s[1..]);
      forall i | 1 <= i < WordLength(s) ensures !IsSpace(s[i]) {
        assert s[i] == s[1..][i - 1];
      }
    }
  }

  /** Contains no whitespace character. */
  predicate NoSpace(w: string)
  {
    forall i :: 0 <= i < |w| ==> !IsSpace(w[i])
  }

  /** The characters of `s` that are not whitespace, in order. */
  function NonSpace(s: string): string
  {
    if s == [] then []
    else (if IsSpace(s[0]) then [] else [s[0]]) + NonSpace(s[1..])
  }

  /** The concatenation of a list of strings. */
  function Concat(ws: seq<string>): string
  {
    if ws == [] then [] else ws[0] + Concat(ws[1..])
  }

  /** `s.split()`: the maximal runs of non-whitespace characters, in order;
      runs of whitespace, leading and trailing whitespace yield nothing. */
  function Words(s: string): (ws: seq<string>)
    decreases |s|
  {
    if s == [] then []
    else if IsSpace(s[0]) then Words(s[1..])
    else
      var n := WordLength(s);
      [s[..n]] + Words(s[n..])
  }

  /** Every word is a non-empty run without whitespace. */
  lemma {:induction false} WordClean(s: string, k: nat)
    requires k < |Words(s)|
    ensures Words(s)[k] != [] && NoSpace(Words(s)[k])
    decreases |s|
  {
    if IsSpace(s[0]) {
      WordClean(s[1..], k);
    } else {
      var n := WordLength(s);
      if k == 0 {
        WordLengthAll(s);
        assert Words(s)[0] == s[..n];
      } else {
        assert Words(s)[k] == Words(s[n..])[k - 1];
        WordClean(s[n..], k - 1);
      }
    }
  }

  /** No word is empty. */
  lemma WordsNonEmpty(s: string)
    ensures forall k :: 0 <= k < |Words(s)| ==> Words(s)[k] != []
  {
    forall k | 0 <= k < |Words(s)| ensures Words(s)[k] != [] {
      WordClean(s, k);
    }
  }

  /** Every character of a word is a character of the string. */
  lemma {:induction false} WordChars(s: string, k: nat, c: char)
    requires k < |Words(s)| && c in Words(s)[k]
    ensures c in s
    decreases |s|
  {
    if IsSpace(s[0]) {
      WordChars(s[1..], k, c);
      InSlice(s, 1, |s|, c);
    } else {
      var n := WordLength(s);
      if k == 0 {
        WordLengthAll(s);
        assert Words(s)[0] == s[..n];
        InSlice(s, 0, n, c);
      } else {
        assert Words(s)[k] == Words(s[n..])[k - 1];
        WordChars(s[n..], k - 1, c);
        InSlice(s, n, |s|, c);
      }
    }
  }

  lemma InSlice(s: string, i: nat, j: nat, c: char)
    requires i <= j <= |s| && c in s[i..j]
    ensures c in s
  {
    var k :| 0 <= k < j - i && s[i..j][k] == c;
    assert s[i + k] == c;
  }

  /** A leading run without whitespace is kept whole by `NonSpace`. */
  lemma {:induction false} NonSpaceWord(t: string, n: nat)
    requires n <= |t| && forall i :: 0 <= i < n ==> !IsSpace(t[i])
    ensures NonSpace(t) == t[..n] + NonSpace(t[n..])
  {
    if n > 0 {
      assert t[1..][n - 1..] == t[n..];
      NonSpaceWord(t[1..], n - 1);
      assert t[..n] == [t[0]] + t[1..][..n - 1];
    }
  }

  /** `split()` keeps every non-whitespace character, in order, and nothing
      else: the words put back together are the string without its spaces. */
  lemma {:induction false} WordsKeepText(s: string)
    ensures Concat(Words(s)) == NonSpace(s)
    decreases |s|
  {
    if s != [] {
      if IsSpace(s[0]) {
        WordsKeepText(s[1..]);
        assert NonSpace(s) == NonSpace(s[1..]);
      } else {
        var n := WordLength(s);
        var ws := Words(s);
        calc {
          Concat(ws);
          { assert ws[1..] == Words(s[n..]); }
          s[..n] + Concat(Words(s[n..]));
          { WordsKeepText(s[n..]); }
          s[..n] + NonSpace(s[n..]);
          { WordLengthAll(s); NonSpaceWord(s, n); }
          NonSpace(s);
        }
      }
    }
  }

  /** `split()` returns no word exactly when the string is blank. */
  lemma {:induction false} WordsEmpty(s: string)
    ensures Words(s) == [] <==> forall i :: 0 <= i < |s| ==> IsSpace(s[i])
    decreases |s|
  {
    if s != [] && IsSpace(s[0]) {
      WordsEmpty(s[1..]);
      forall i | 1 <= i < |s| ensures s[i] == s[1..][i - 1] { }
    }
  }

  /** `s.split(sep)`: the pieces between the separators, empty pieces
      included; there is always at least one piece. */
  function Split(s: string, sep: char): (ws: seq<string>)
    ensures |ws| >= 1
    ensures forall k :: 0 <= k < |ws| ==> sep !in ws[k]
  {
    if sep !in s then [s]
    else
      var i := IndexOf(s, sep);
      [s[..i]] + Split(s[i + 1..], sep)
  }

  /** The position of the first `c` in `s`. */
  function IndexOf(s: string, c: char): (i: nat)
    requires c in s
    ensures i < |s| && s[i] == c && c !in s[..i]
  {
    if s[0] == c then 0 else 1 + IndexOf(s[1..], c)
  }

  /** The first `c` in `s` is the one at `j` when no `c` comes before it. */
  lemma {:induction false} IndexOfAt(s: string, c: char, j: nat)
    requires j < |s| && s[j] == c && c !in s[..j]
    ensures IndexOf(s, c) == j
  {
    if j > 0 {
      assert s[0] != c by { assert s[..j][0] == s[0]; }
      assert s[1..][..j - 1] == s[..j][1..];
      IndexOfAt(s[1..], c, j - 1);
    }
  }

  /** `sep.join(ws)`. */
  function Join(ws: seq<string>, sep: string): string
  {
    if ws == [] then []
    else if |ws| == 1 then ws[0]
    else ws[0] + sep + Join(ws[1..], sep)
  }

  /** Joining the pieces of a split with the separator gives back the string. */
  lemma {:induction false} JoinSplit(s: string, sep: char)
    ensures Join(Split(s, sep), [sep]) == s
    decreases |s|
  {
    if sep in s {
      var i := IndexOf(s, sep);
      var ws := Split(s, sep);
      assert ws[1..] == Split(s[i + 1..], sep);
      calc {
        Join(ws, [sep]);
        s[..i] + [sep] + Join(Split(s[i + 1..], sep), [sep]);
        { JoinSplit(s[i + 1..], sep); }
        s[..i] + [sep] + s[i + 1..];
        { assert s == s[..i] + [sep] + s[i + 1..]; }
        s;
      }
    }
  }

  /** Splitting a join of separator-free pieces gives back the pieces. */
  lemma {:induction false} SplitJoin(ws: seq<string>, sep: char)
    requires |ws| >= 1
    requires forall k :: 0 <= k < |ws| ==> sep !in ws[k]
    ensures Split(Join(ws, [sep]), sep) == ws
  {
    if |ws| > 1 {
      var s := Join(ws, [sep]);
      assert s == ws[0] + [sep] + Join(ws[1..], [sep]);
      assert s[|ws[0]|] == sep;
      assert s[..|ws[0]|] == ws[0];
      IndexOfAt(s, sep, |ws[0]|);
      var i := IndexOf(s, sep);
      assert s[i + 1..] == Join(ws[1..], [sep]);
      SplitJoin(ws[1..], sep);
    }
  }
}
