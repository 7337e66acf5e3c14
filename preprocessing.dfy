/**
  Page-text cleanup (`preprocessing` in app/documents_processing/preprocessing.py):
  Unicode NFC, then removal of NUL characters, then `\r\n` -> `\n`, then `\r` -> `\n`.
  NFC (Unicode Standard Annex #15) is supplied by the caller as a function.
 */
module Preprocessing {
  import opened Text

  const NUL: char := '\0'
  const CR: char := '\r'
  const LF: char := '\n'

  /** `s.replace('\u0000', '')`. */
  function RemoveNul(s: string): (r: string)
    ensures NUL !in r
    ensures |r| == |s| - Count(s, NUL)
    ensures NUL !in s ==> r == s
    ensures forall c :: c in r <==> c in s && c != NUL
  {
    if s == [] then []
    else if s[0] == NUL then RemoveNul(s[1..])
    else
      assert s == [s[0]] + s[1..];
      [s[0]] + RemoveNul(s[1..])
  }

  /** `s.replace('\r\n', '\n')`: Python's left-to-right, non-overlapping replacement. */
  function ReplaceCrLf(s: string): (r: string)
    ensures CR !in s ==> r == s
    ensures NUL !in s ==> NUL !in r
  {
    if s == [] then []
    else if |s| >= 2 && s[0] == CR && s[1] == LF then [LF] + ReplaceCrLf(s[2..])
    else
      assert s == [s[0]] + s[1..];
      [s[0]] + ReplaceCrLf(s[1..])
  }

  /** `s.replace('\r', '\n')`. */
  function ReplaceCr(s: string): (r: string)
    ensures |r| == |s|
    ensures CR !in r
    ensures CR !in s ==> r == s
    ensures NUL !in s ==> NUL !in r
  {
    if s == [] then []
    else
      assert s == [s[0]] + s[1..];
      [if s[0] == CR then LF else s[0]] + ReplaceCr(s[1..])
  }

  /** The two cleanup stages that follow NFC, in the order the source applies them. */
  function Cleanup(s: string): string
  {
    ReplaceCr(ReplaceCrLf(RemoveNul(s)))
  }

  /** `preprocessing(text)`: NFC, then the cleanup stages. */
  function Preprocess(nfc: string -> string, text: string): (r: string)
    ensures NUL !in r
    ensures CR !in r
  {
    var normalized := nfc(text);
    var r := Cleanup(normalized);
    CleanupOutput(normalized);
    r
  }

  /**
    The reference definition of line-ending normalisation, in one pass: a `\r\n`
    pair becomes one `\n`, a lone `\r` becomes `\n`, everything else is kept.
   */
  function NormalizeLineEndings(s: string): string
  {
    if s == [] then []
    else if s[0] == CR then [LF] + (if |s| >= 2 && s[1] == LF then NormalizeLineEndings(s[2..]) else NormalizeLineEndings(s[1..]))
    else [s[0]] + NormalizeLineEndings(s[1..])
  }

  /** The number of `\r\n` pairs met scanning left to right. */
  function CountCrLf(s: string): nat
  {
    if |s| < 2 then 0
    else if s[0] == CR && s[1] == LF then 1 + CountCrLf(s[2..])
    else CountCrLf(s[1..])
  }

  lemma {:induction false} ReplaceCrAppend(s: string, t: string)
    ensures ReplaceCr(s + t) == ReplaceCr(s) + ReplaceCr(t)
    decreases |s|
  {
    if s == [] {
      assert s + t == t;
    } else {
      assert (s + t)[1..] == s[1..] + t;
      ReplaceCrAppend(s[1..], t);
    }
  }

  /** The two `replace` calls together do exactly the one-pass normalisation. */
  lemma {:induction false} TwoReplacesNormalize(s: string)
    ensures ReplaceCr(ReplaceCrLf(s)) == NormalizeLineEndings(s)
    decreases |s|
  {
    if s == [] {
    } else if |s| >= 2 && s[0] == CR && s[1] == LF {
      ReplaceCrAppend([LF], ReplaceCrLf(s[2..]));
      TwoReplacesNormalize(s[2..]);
    } else {
      ReplaceCrAppend([s[0]], ReplaceCrLf(s[1..]));
      TwoReplacesNormalize(s[1..]);
    }
  }

  /** Each `\r\n` pair shrinks the text by one; nothing else changes the length. */
  lemma {:induction false} NormalizeLength(s: string)
    ensures |NormalizeLineEndings(s)| == |s| - CountCrLf(s)
    ensures CountCrLf(s) <= |s| / 2
    decreases |s|
  {
    if s == [] {
    } else if s[0] == CR && |s| >= 2 && s[1] == LF {
      NormalizeLength(s[2..]);
    } else {
      NormalizeLength(s[1..]);
      if |s| >= 2 {
        assert CountCrLf(s) == CountCrLf(s[1..]);
      }
    }
  }

  /**
    Line-ending normalisation keeps every character other than `\r` and `\n` in order:
    dropping the newlines from the output gives the input without its `\r` and `\n`.
   */
  lemma {:induction false} NormalizeKeepsOthers(s: string)
    ensures Drop(NormalizeLineEndings(s), {LF}) == Drop(s, {CR, LF})
    decreases |s|
  {
    if s == [] {
    } else {
      var out := NormalizeLineEndings(s);
      if s[0] == CR {
        if |s| >= 2 && s[1] == LF {
          NormalizeKeepsOthers(s[2..]);
          assert s[1..][1..] == s[2..];
          DropAppend([LF], NormalizeLineEndings(s[2..]), {LF});
        } else {
          NormalizeKeepsOthers(s[1..]);
          DropAppend([LF], NormalizeLineEndings(s[1..]), {LF});
        }
      } else {
        NormalizeKeepsOthers(s[1..]);
        DropAppend([s[0]], NormalizeLineEndings(s[1..]), {LF});
      }
    }
  }

  lemma {:induction false} RemoveNulKeepsOthers(s: string, cs: set<char>)
    ensures Drop(RemoveNul(s), cs) == Drop(s, cs + {NUL})
    decreases |s|
  {
    if s != [] {
      RemoveNulKeepsOthers(s[1..], cs);
      if s[0] != NUL {
        DropAppend([s[0]], RemoveNul(s[1..]), cs);
      }
    }
  }

  /**
    The output of the cleanup stages: no NUL, no `\r`, the one-pass line-ending
    normalisation of the NUL-free text, of length |s| minus the NULs minus the `\r\n`
    pairs left once the NULs are gone, and every other character kept in order.
   */
  lemma CleanupOutput(s: string)
    ensures NUL !in Cleanup(s) && CR !in Cleanup(s)
    ensures Cleanup(s) == NormalizeLineEndings(RemoveNul(s))
    ensures |Cleanup(s)| == |s| - Count(s, NUL) - CountCrLf(RemoveNul(s))
    ensures Drop(Cleanup(s), {LF}) == Drop(s, {NUL, CR, LF})
  {
    var t := RemoveNul(s);
    TwoReplacesNormalize(t);
    NormalizeLength(t);
    NormalizeKeepsOthers(t);
    RemoveNulKeepsOthers(s, {CR, LF});
    assert {CR, LF} + {NUL} == {NUL, CR, LF};
  }

  /** Running the cleanup stages on their own output changes nothing. */
  lemma CleanupIdempotent(s: string)
    ensures Cleanup(Cleanup(s)) == Cleanup(s)
  {
    CleanupOutput(s);
  }

  /** NULs go before line endings are fixed, so `\r\0\n` is one line break, not two. */
  lemma NulBetweenCrAndLf()
    ensures Cleanup("\r\0\n") == "\n"
    ensures RemoveNul(ReplaceCr(ReplaceCrLf("\r\0\n"))) == "\n\n"
  {
    assert RemoveNul("\r\0\n") == "\r\n" by {
      assert "\r\0\n"[1..] == "\0\n";
      assert "\0\n"[1..] == "\n";
    }
    assert ReplaceCrLf("\r\n") == "\n" by {
      assert "\r\n"[2..] == [];
    }
    assert ReplaceCrLf("\r\0\n") == "\r\0\n" by {
      assert "\r\0\n"[1..] == "\0\n";
      assert "\0\n"[1..] == "\n";
    }
    assert ReplaceCr("\r\0\n") == "\n\0\n" by {
      assert "\r\0\n"[1..] == "\0\n";
      assert "\0\n"[1..] == "\n";
    }
    assert RemoveNul("\n\0\n") == "\n\n" by {
      assert "\n\0\n"[1..] == "\0\n";
      assert "\0\n"[1..] == "\n";
    }
  }
}
