/**
  `preprocess_query_for_tsquery` (identical in the three retriever modules): replace
  the punctuation class `[!@#$%^&*()+=\[\]{};:"\\|,.<>/?]` by spaces, split on
  whitespace, and join the words with PostgreSQL's AND operator `" & "`.
 */
module TsQuery {
  import opened Text

  const Separator: string := " & "

  /** A character of the regular-expression class the source replaces. */
  predicate IsPunct(c: char) {
    c in "!@#$%^&*()+=[]{};:\"\\|,.<>/?"
  }

  predicate NoPunct(s: string) {
    forall i :: 0 <= i < |s| ==> !IsPunct(s[i])
  }

  /** `re.sub(<class>, ' ', query)`: each punctuation character becomes one space. */
  function ReplacePunct(s: string): (r: string)
    ensures |r| == |s|
    ensures NoPunct(r)
    ensures forall i :: 0 <= i < |s| ==> r[i] == (if IsPunct(s[i]) then ' ' else s[i])
  {
    seq(|s|, i requires 0 <= i < |s| => if IsPunct(s[i]) then ' ' else s[i])
  }

  /** The words the source joins. */
  function QueryWords(query: string): seq<string>
  {
    StripNonEmpty(Words(ReplacePunct(query)))
  }

  /** `preprocess_query_for_tsquery(query)`. */
  function FormatTsQuery(query: string): string
  {
    var words := QueryWords(query);
    if words == [] then "" else Join(words, Separator)
  }

  /** Words of the query are non-empty, whitespace-free and punctuation-free, in order. */
  lemma QueryWordsShape(query: string)
    ensures QueryWords(query) == Words(ReplacePunct(query))
    ensures forall k :: 0 <= k < |QueryWords(query)| ==>
      QueryWords(query)[k] != "" && NoSpace(QueryWords(query)[k]) && NoPunct(QueryWords(query)[k])
  {
    var clean := ReplacePunct(query);
    StripNonEmptyOfWords(Words(clean));
    forall k | 0 <= k < |Words(clean)| ensures NoPunct(Words(clean)[k]) {
      WordsNoPunct(clean, k);
    }
  }

  lemma {:induction false} WordsNoPunct(s: string, k: nat)
    requires NoPunct(s)
    requires k < |Words(s)|
    ensures NoPunct(Words(s)[k])
    decreases |s|
  {
    if IsSpace(s[0]) {
      WordsNoPunct(s[1..], k);
    } else {
      var n := WordEnd(s);
      if k > 0 {
        WordsNoPunct(s[n..], k - 1);
      }
    }
  }

  lemma {:induction false} JoinNoPunctExceptAmp(ws: seq<string>)
    requires forall k :: 0 <= k < |ws| ==> NoPunct(ws[k])
    ensures forall i :: 0 <= i < |Join(ws, Separator)| && IsPunct(Join(ws, Separator)[i]) ==> Join(ws, Separator)[i] == '&'
  {
    if |ws| > 1 {
      JoinNoPunctExceptAmp(ws[1..]);
      var rest := Join(ws[1..], Separator);
      var r := Join(ws, Separator);
      assert r == ws[0] + Separator + rest;
      forall i | 0 <= i < |r| ensures IsPunct(r[i]) ==> r[i] == '&' {
        if i < |ws[0]| {
          assert r[i] == ws[0][i];
        } else if i < |ws[0]| + 3 {
          assert r[i] == Separator[i - |ws[0]|];
        } else {
          assert r[i] == rest[i - |ws[0]| - 3];
        }
      }
    }
  }

  /**
    The shape of a tsquery: the empty string when no word survives the punctuation
    replacement, otherwise the surviving words joined by exactly `" & "`; the only
    punctuation character left in it is the `&` of the separators.
   */
  lemma FormatTsQueryShape(query: string)
    ensures FormatTsQuery(query) == "" <==> Words(ReplacePunct(query)) == []
    ensures FormatTsQuery(query) == Join(Words(ReplacePunct(query)), Separator)
    ensures forall i :: 0 <= i < |FormatTsQuery(query)| && IsPunct(FormatTsQuery(query)[i]) ==> FormatTsQuery(query)[i] == '&'
  {
    QueryWordsShape(query);
    var ws := QueryWords(query);
    JoinNoPunctExceptAmp(ws);
    if ws != [] {
      JoinNonEmpty(ws, Separator);
    }
  }

  lemma JoinNonEmpty(ws: seq<string>, sep: string)
    requires ws != [] && ws[0] != ""
    ensures Join(ws, sep) != ""
  {
  }

  lemma {:induction false} ReplacePunctJoin(ws: seq<string>)
    requires forall k :: 0 <= k < |ws| ==> NoPunct(ws[k])
    ensures ReplacePunct(Join(ws, Separator)) == Join(ws, "   ")
  {
    if |ws| == 1 {
      assert ReplacePunct(ws[0]) == ws[0];
    } else if |ws| > 1 {
      ReplacePunctJoin(ws[1..]);
      var rest := Join(ws[1..], Separator);
      ReplacePunctAppend(ws[0], Separator + rest);
      ReplacePunctAppend(Separator, rest);
      assert ReplacePunct(ws[0]) == ws[0];
      assert ReplacePunct(Separator) == "   ";
      assert Join(ws, Separator) == ws[0] + (Separator + rest);
      assert Join(ws, "   ") == ws[0] + ("   " + Join(ws[1..], "   "));
    }
  }

  lemma ReplacePunctAppend(s: string, t: string)
    ensures ReplacePunct(s + t) == ReplacePunct(s) + ReplacePunct(t)
  {
  }

  /** Formatting a formatted query changes nothing: `&` and spaces both separate words. */
  lemma FormatTsQueryIdempotent(query: string)
    ensures FormatTsQuery(FormatTsQuery(query)) == FormatTsQuery(query)
  {
    QueryWordsShape(query);
    var ws := QueryWords(query);
    var r := FormatTsQuery(query);
    if ws == [] {
      assert r == "";
      assert Words(ReplacePunct("")) == [];
      QueryWordsShape("");
    } else {
      ReplacePunctJoin(ws);
      forall i | 0 <= i < 3 ensures IsSpace("   "[i]) { }
      WordsOfJoin(ws, "   ");
      QueryWordsShape(r);
    }
  }
}
