/**
  The pieces of Python's `str` that the backend relies on: whitespace classification,
  `strip()`, `split()` with and without a separator, `sep.join(...)`, the `in`
  substring test and `str(int)`. Strings are sequences of Unicode code points,
  as Python's are.
 */
module Text {

  /** Python's `str.isspace()` for one code point; `split()` and `strip()` use the same set. */
  predicate IsSpace(c: char) {
    || c == ' '
    || ('\t' <= c <= '\r')                // \t \n \v \f \r
    || ('\U{1C}' <= c <= '\U{1F}')        // information separators
    || c == '\U{85}' || c == '\U{A0}' || c == '\U{1680}'
    || ('\U{2000}' <= c <= '\U{200A}')
    || c == '\U{2028}' || c == '\U{2029}' || c == '\U{202F}' || c == '\U{205F}' || c == '\U{3000}'
  }

  predicate AllSpace(s: string) {
    forall i :: 0 <= i < |s| ==> IsSpace(s[i])
  }

  predicate NoSpace(s: string) {
    forall i :: 0 <= i < |s| ==> !IsSpace(s[i])
  }

  /** The number of whitespace characters at the start of `s`. */
  function LeadingSpace(s: string): (n: nat)
    ensures n <= |s|
    ensures AllSpace(s[..n])
    ensures n < |s| ==> !IsSpace(s[n])
  {
    if s == [] || !IsSpace(s[0]) then 0
    else
      var m := LeadingSpace(s[1..]);
      assert s[..m + 1] == [s[0]] + s[1..][..m];
      m + 1
  }

  /** The number of whitespace characters at the end of `s`. */
  function TrailingSpace(s: string): (n: nat)
    ensures n <= |s|
    ensures AllSpace(s[|s| - n..])
    ensures forall k :: |s| - n <= k < |s| ==> IsSpace(s[k])
    ensures n < |s| ==> !IsSpace(s[|s| - 1 - n])
  {
    if s == [] || !IsSpace(s[|s| - 1]) then 0
    else
      var init := s[..|s| - 1];
      var m := TrailingSpace(init);
      assert forall k :: |s| - (m + 1) <= k < |s| - 1 ==> s[k] == init[k];
      m + 1
  }

  /**
    Python's `s.strip()`: the slice of `s` left after removing whitespace at both ends.
    The result is empty exactly when `s` is all whitespace; otherwise it starts and ends
    with a non-space character and everything cut off is whitespace.
   */
  function Strip(s: string): (r: string)
    ensures r == "" <==> AllSpace(s)
    ensures r != "" ==> !IsSpace(r[0]) && !IsSpace(r[|r| - 1])
    ensures exists i :: 0 <= i <= |s| - |r| && r == s[i..i + |r|] && AllSpace(s[..i]) && AllSpace(s[i + |r|..])
  {
    var i := LeadingSpace(s);
    if i == |s| then
      assert s[..i] == s;
      assert s[..0] == "" && s[0..0] == "";
      ""
    else
      var t := TrailingSpace(s);
      assert !IsSpace(s[i]);
      assert s[i..|s| - t][0] == s[i];
      s[i..|s| - t]
  }

  /** A string with no whitespace at either end is its own strip. */
  lemma StripOfTrimmed(s: string)
    requires s == "" || (!IsSpace(s[0]) && !IsSpace(s[|s| - 1]))
    ensures Strip(s) == s
  {
    if s != "" {
      assert LeadingSpace(s) == 0;
      assert TrailingSpace(s) == 0;
      assert s[0..|s|] == s;
    }
  }

  /** `strip()` is idempotent. */
  lemma StripIdempotent(s: string)
    ensures Strip(Strip(s)) == Strip(s)
  {
    StripOfTrimmed(Strip(s));
  }

  /** The length of the run of non-space characters at the start of `s`. */
  function WordEnd(s: string): (n: nat)
    ensures n <= |s|
    ensures NoSpace(s[..n])
    ensures n < |s| ==> IsSpace(s[n])
    ensures s != [] && !IsSpace(s[0]) ==> n >= 1
  {
    if s == [] || IsSpace(s[0]) then 0
    else
      var m := WordEnd(s[1..]);
      assert s[..m + 1] == [s[0]] + s[1..][..m];
      m + 1
  }

  /**
    Python's `s.split()` with no argument: the maximal runs of non-whitespace characters,
    in order. No word is empty and no word contains whitespace.
   */
  function Words(s: string): (ws: seq<string>)
    ensures forall k :: 0 <= k < |ws| ==> ws[k] != "" && NoSpace(ws[k])
    decreases |s|
  {
    if s == [] then []
    else if IsSpace(s[0]) then Words(s[1..])
    else
      var n := WordEnd(s);
      [s[..n]] + Words(s[n..])
  }

  /** Python's `sep.join(ws)`. */
  function Join(ws: seq<string>, sep: string): string
  {
    if |ws| == 0 then ""
    else if |ws| == 1 then ws[0]
    else ws[0] + sep + Join(ws[1..], sep)
  }

  /** The last piece of a join of two or more pieces comes after the last separator. */
  lemma {:induction false} JoinLast(ws: seq<string>, sep: string)
    requires |ws| >= 2
    ensures Join(ws, sep) == Join(ws[..|ws| - 1], sep) + sep + ws[|ws| - 1]
  {
    if |ws| == 2 {
      assert ws[1..] == [ws[1]];
      assert ws[..1] == [ws[0]];
    } else {
      JoinLast(ws[1..], sep);
      assert ws[1..][..|ws| - 2] == ws[..|ws| - 1][1..];
      assert ws[..|ws| - 1][0] == ws[0];
    }
  }

  lemma AllSpaceAppend(a: string, b: string)
    ensures AllSpace(a + b) <==> AllSpace(a) && AllSpace(b)
  {
    if AllSpace(a) && AllSpace(b) {
      forall i | 0 <= i < |a + b| ensures IsSpace((a + b)[i]) {
        if i >= |a| {
          assert (a + b)[i] == b[i - |a|];
        }
      }
    }
    if AllSpace(a + b) {
      forall i | 0 <= i < |a| ensures IsSpace(a[i]) {
        assert (a + b)[i] == a[i];
      }
      forall i | 0 <= i < |b| ensures IsSpace(b[i]) {
        assert (a + b)[i + |a|] == b[i];
      }
    }
  }

  lemma {:induction false} WordsSkipsSpace(p: string, t: string)
    requires AllSpace(p)
    ensures Words(p + t) == Words(t)
    decreases |p|
  {
    if p != [] {
      assert (p + t)[1..] == p[1..] + t;
      WordsSkipsSpace(p[1..], t);
    } else {
      assert p + t == t;
    }
  }

  lemma {:induction false} WordEndOfWord(w: string, t: string)
    requires NoSpace(w)
    requires t == [] || IsSpace(t[0])
    ensures WordEnd(w + t) == |w|
    decreases |w|
  {
    if w == [] {
      assert w + t == t;
    } else {
      assert (w + t)[1..] == w[1..] + t;
      WordEndOfWord(w[1..], t);
    }
  }

  /** A word followed by a whitespace-led rest splits off as the first word. */
  lemma WordsOfWordThen(w: string, t: string)
    requires w != "" && NoSpace(w)
    requires t == [] || IsSpace(t[0])
    ensures Words(w + t) == [w] + Words(t)
  {
    WordEndOfWord(w, t);
    assert (w + t)[..|w|] == w;
    assert (w + t)[|w|..] == t;
  }

  /**
    Splitting undoes joining: words without whitespace, joined by a whitespace-only
    separator, split back into the same words.
   */
  lemma {:induction false} WordsOfJoin(ws: seq<string>, sep: string)
    requires forall k :: 0 <= k < |ws| ==> ws[k] != "" && NoSpace(ws[k])
    requires sep != "" && AllSpace(sep)
    ensures Words(Join(ws, sep)) == ws
  {
    if |ws| == 0 {
    } else if |ws| == 1 {
      WordsOfWordThen(ws[0], "");
      assert ws[0] + "" == ws[0];
    } else {
      var rest := Join(ws[1..], sep);
      assert Join(ws, sep) == ws[0] + (sep + rest);
      WordsOfWordThen(ws[0], sep + rest);
      WordsSkipsSpace(sep, rest);
      WordsOfJoin(ws[1..], sep);
      assert ws == [ws[0]] + ws[1..];
    }
  }

  /** `[w.strip() for w in ws if w.strip()]`: the stripped pieces that are not empty, in order. */
  function StripNonEmpty(ws: seq<string>): (out: seq<string>)
    ensures |out| <= |ws|
    ensures forall k :: 0 <= k < |out| ==> out[k] != "" && !IsSpace(out[k][0]) && !IsSpace(out[k][|out[k]| - 1])
  {
    if ws == [] then []
    else if Strip(ws[0]) == "" then StripNonEmpty(ws[1..])
    else [Strip(ws[0])] + StripNonEmpty(ws[1..])
  }

  /** Every kept piece is the strip of some input piece. */
  lemma {:induction false} StripNonEmptyPieces(ws: seq<string>)
    ensures forall p :: p in StripNonEmpty(ws) ==> exists w :: w in ws && p == Strip(w)
  {
    if ws != [] {
      StripNonEmptyPieces(ws[1..]);
      var rest := StripNonEmpty(ws[1..]);
      forall p | p in StripNonEmpty(ws)
        ensures exists w :: w in ws && p == Strip(w)
      {
        if p in rest {
          var w :| w in ws[1..] && p == Strip(w);
          assert w in ws;
        } else {
          assert ws[0] in ws;
        }
      }
    }
  }

  /** A character that is not in `s` is not in its strip. */
  lemma StripKeepsOut(s: string, c: char)
    requires c !in s
    ensures c !in Strip(s)
  {
    var r := Strip(s);
    var i :| 0 <= i <= |s| - |r| && r == s[i..i + |r|] && AllSpace(s[..i]) && AllSpace(s[i + |r|..]);
    assert forall k :: 0 <= k < |r| ==> r[k] == s[i + k];
  }

  /** A character in none of the input pieces is in none of the kept ones. */
  lemma StripNonEmptyKeepsOut(ws: seq<string>, c: char)
    requires forall k :: 0 <= k < |ws| ==> c !in ws[k]
    ensures forall p :: p in StripNonEmpty(ws) ==> c !in p
  {
    StripNonEmptyPieces(ws);
    forall p | p in StripNonEmpty(ws)
      ensures c !in p
    {
      var w :| w in ws && p == Strip(w);
      StripKeepsOut(w, c);
    }
  }

  /** Python's slicing of a concatenation at the seam gives back its two halves. */
  lemma SliceOfConcat<T>(a: seq<T>, b: seq<T>)
    ensures (a + b)[..|a|] == a && (a + b)[|a|..] == b
  {
  }

  /** On the output of `split()` the strip-and-filter comprehension changes nothing. */
  lemma {:induction false} StripNonEmptyOfWords(ws: seq<string>)
    requires forall k :: 0 <= k < |ws| ==> ws[k] != "" && NoSpace(ws[k])
    ensures StripNonEmpty(ws) == ws
  {
    if ws != [] {
      StripOfTrimmed(ws[0]);
      StripNonEmptyOfWords(ws[1..]);
      assert ws == [ws[0]] + ws[1..];
    }
  }

  lemma AppendNothing<T>(s: seq<T>)
    ensures s + [] == s
  {
  }

  lemma AppendAssoc<T>(a: seq<T>, b: seq<T>, c: seq<T>)
    ensures a + b + c == a + (b + c)
  {
  }

  /** `s.startswith(p)`. */
  predicate StartsWith(s: string, p: string) {
    |p| <= |s| && s[..|p|] == p
  }

  /** `pat` occurs in `s` starting at index `i`. */
  predicate OccursAt(s: string, pat: string, i: int) {
    0 <= i <= |s| - |pat| && s[i..i + |pat|] == pat
  }

  /** Python's `pat in s`, written as a scan from the left. */
  predicate Contains(s: string, pat: string)
    decreases |s|
  {
    StartsWith(s, pat) || (s != [] && Contains(s[1..], pat))
  }

  /** `Contains` holds exactly when `pat` occurs at some index of `s`. */
  lemma {:induction false} ContainsAt(s: string, pat: string)
    ensures Contains(s, pat) <==> exists i :: OccursAt(s, pat, i)
    decreases |s|
  {
    if s != [] {
      ContainsAt(s[1..], pat);
      if exists i :: OccursAt(s, pat, i) {
        var i :| OccursAt(s, pat, i);
        if i > 0 {
          assert s[1..][i - 1..i - 1 + |pat|] == s[i..i + |pat|];
          assert OccursAt(s[1..], pat, i - 1);
        } else {
          assert StartsWith(s, pat);
        }
      }
      if Contains(s[1..], pat) && !StartsWith(s, pat) {
        var j :| OccursAt(s[1..], pat, j);
        assert forall k :: j + 1 <= k < j + 1 + |pat| ==> s[1..][k - 1] == s[k];
        assert s[1..][j..j + |pat|] == s[j + 1..j + 1 + |pat|];
        assert OccursAt(s, pat, j + 1);
      }
      if StartsWith(s, pat) {
        assert OccursAt(s, pat, 0);
      }
    } else {
      if |pat| == 0 {
        assert OccursAt(s, pat, 0);
      }
    }
  }

  /** The number of occurrences of `c` in `s`. */
  function Count(s: string, c: char): nat
  {
    if s == [] then 0 else (if s[0] == c then 1 else 0) + Count(s[1..], c)
  }

  /** Occurrences add up over a concatenation. */
  lemma {:induction false} CountAppend(a: string, b: string, c: char)
    ensures Count(a + b, c) == Count(a, c) + Count(b, c)
  {
    if a != [] {
      CountAppend(a[1..], b, c);
      assert (a + b)[1..] == a[1..] + b;
    } else {
      assert a + b == b;
    }
  }

  /** A character absent from `s` occurs zero times. */
  lemma {:induction false} CountAbsent(s: string, c: char)
    requires c !in s
    ensures Count(s, c) == 0
  {
    if s != [] {
      assert forall k :: 0 <= k < |s[1..]| ==> s[1..][k] == s[k + 1];
      CountAbsent(s[1..], c);
    }
  }

  /**
    Python's `s.split(c)` for a one-character separator: the pieces between the
    occurrences of `c`, empty pieces included. Joining the pieces with `c` gives back
    `s`, no piece contains `c`, and there is one piece more than there are separators.
   */
  function SplitOn(s: string, c: char): (parts: seq<string>)
    ensures |parts| == Count(s, c) + 1
    ensures forall k :: 0 <= k < |parts| ==> c !in parts[k]
    ensures Join(parts, [c]) == s
    decreases |s|
  {
    if s == [] then [""]
    else
      var rest := SplitOn(s[1..], c);
      if s[0] == c then
        assert s == [c] + s[1..];
        [""] + rest
      else
        var parts := [[s[0]] + rest[0]] + rest[1..];
        assert parts[1..] == rest[1..];
        assert s == [s[0]] + s[1..];
        parts
  }

  function Digit(d: nat): char
    requires d < 10
  {
    "0123456789"[d]
  }

  /** Python's `str(n)` for a natural number. */
  function NatToString(n: nat): (r: string)
    ensures r != ""
    ensures forall k :: 0 <= k < |r| ==> '0' <= r[k] <= '9'
  {
    if n < 10 then [Digit(n)] else NatToString(n / 10) + [Digit(n % 10)]
  }

  /** Python's `str(i)` for an integer. */
  function IntToString(i: int): string
  {
    if i < 0 then "-" + NatToString(-i) else NatToString(i)
  }

  /** The value of a string of decimal digits. */
  function DigitsValue(s: string): nat
    requires forall k :: 0 <= k < |s| ==> '0' <= s[k] <= '9'
  {
    if s == [] then 0 else 10 * DigitsValue(s[..|s| - 1]) + (s[|s| - 1] as int - '0' as int)
  }

  /** `str(n)` loses nothing: reading its digits back gives `n`. */
  lemma {:induction false} NatToStringValue(n: nat)
    ensures DigitsValue(NatToString(n)) == n
  {
    if n >= 10 {
      var r := NatToString(n);
      assert r[..|r| - 1] == NatToString(n / 10);
      NatToStringValue(n / 10);
    }
  }

  /** `s` with every character in `cs` removed, the rest kept in order. */
  function Drop(s: string, cs: set<char>): (r: string)
    ensures |r| <= |s|
  {
    if s == [] then [] else (if s[0] in cs then [] else [s[0]]) + Drop(s[1..], cs)
  }

  lemma {:induction false} DropAppend(s: string, t: string, cs: set<char>)
    ensures Drop(s + t, cs) == Drop(s, cs) + Drop(t, cs)
    decreases |s|
  {
    if s == [] {
      assert s + t == t;
    } else {
      assert (s + t)[1..] == s[1..] + t;
      DropAppend(s[1..], t, cs);
    }
  }
}
