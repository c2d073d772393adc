/**
 * The display normalisation a board post goes through before it is shown:
 * every carriage-return/line-feed pair of its contents becomes the HTML
 * line-break marker "<br/>", with the semantics of Java's
 * `String.replace(CharSequence, CharSequence)`: the text is scanned from left
 * to right, each occurrence found is replaced, and scanning resumes after it,
 * so occurrences never overlap and a lone '\r' or '\n' is kept as it is.
 */
module Crlf {

  /** The HTML marker that stands for one line break on a rendered page. */
  const LineBreak: string := "<br/>"

  /** A carriage-return/line-feed pair starts at index `i` of `s`. */
  predicate CrlfAt(s: string, i: int) {
    0 <= i && i + 1 < |s| && s[i] == '\r' && s[i + 1] == '\n'
  }

  /** `s` contains "\r\n" somewhere. */
  predicate HasCrlf(s: string) {
    exists i | 0 <= i < |s| :: CrlfAt(s, i)
  }

  /** `s.replace("\r\n", "<br/>")`: the text is never shortened, and empty text stays empty. */
  function ReplaceCrlf(s: string): (r: string)
    ensures |s| <= |r|
    ensures r == [] <==> s == []
    decreases |s|
  {
    if CrlfAt(s, 0) then LineBreak + ReplaceCrlf(s[2..])
    else if s == [] then []
    else [s[0]] + ReplaceCrlf(s[1..])
  }

  /** Reference count of the positions where "\r\n" occurs, every position looked at. */
  function Occurrences(s: string): nat
    decreases |s|
  {
    if s == [] then 0
    else (if CrlfAt(s, 0) then 1 else 0) + Occurrences(s[1..])
  }

  /** The reverse rewrite, "<br/>" back to "\r\n", scanning the same way. */
  function RestoreCrlf(s: string): string
    decreases |s|
  {
    if |s| >= 5 && s[..5] == LineBreak then "\r\n" + RestoreCrlf(s[5..])
    else if s == [] then []
    else [s[0]] + RestoreCrlf(s[1..])
  }

  /** Occurrences of "\r\n" in `s` at index 1 and later are those of `s[1..]`, shifted by one. */
  lemma CrlfAtTail(s: string, i: int)
    requires s != [] && 0 <= i
    ensures CrlfAt(s, i + 1) <==> CrlfAt(s[1..], i)
  {
  }

  /** The normalised text is empty exactly when the input is, and starts with '\n' exactly when the input does. */
  lemma {:induction false} ReplaceFront(s: string)
    ensures ReplaceCrlf(s) == [] <==> s == []
    ensures s != [] ==> (ReplaceCrlf(s)[0] == '\n' <==> s[0] == '\n')
  {
  }

  /** After normalisation no "\r\n" is left. */
  lemma {:induction false} NoCrlfAfterReplace(s: string)
    ensures !HasCrlf(ReplaceCrlf(s))
    decreases |s|
  {
    var r := ReplaceCrlf(s);
    if CrlfAt(s, 0) {
      var t := ReplaceCrlf(s[2..]);
      NoCrlfAfterReplace(s[2..]);
      assert r == LineBreak + t;
      forall i ensures !CrlfAt(r, i) {
        if 5 <= i {
          assert CrlfAt(r, i) ==> CrlfAt(t, i - 5);
        }
      }
    } else if s != [] {
      var t := ReplaceCrlf(s[1..]);
      NoCrlfAfterReplace(s[1..]);
      ReplaceFront(s[1..]);
      assert r == [s[0]] + t;
      forall i ensures !CrlfAt(r, i) {
        if 1 <= i {
          assert CrlfAt(r, i) ==> CrlfAt(t, i - 1);
        } else if i == 0 && CrlfAt(r, 0) {
          assert CrlfAt(s, 0);
        }
      }
    }
  }

  /** Text without "\r\n", the empty string included, comes back unchanged. */
  lemma {:induction false} ReplaceWithoutCrlf(s: string)
    requires !HasCrlf(s)
    ensures ReplaceCrlf(s) == s
    decreases |s|
  {
    if s != [] {
      assert !CrlfAt(s, 0);
      forall i | 0 <= i < |s[1..]| ensures !CrlfAt(s[1..], i) {
        CrlfAtTail(s, i);
      }
      ReplaceWithoutCrlf(s[1..]);
      assert s == [s[0]] + s[1..];
    }
  }

  /** The reference count is zero exactly when there is no "\r\n". */
  lemma {:induction false} OccurrencesZero(s: string)
    ensures Occurrences(s) == 0 <==> !HasCrlf(s)
    decreases |s|
  {
    if s != [] {
      OccurrencesZero(s[1..]);
      if HasCrlf(s[1..]) {
        var i :| 0 <= i < |s[1..]| && CrlfAt(s[1..], i);
        CrlfAtTail(s, i);
      }
      if HasCrlf(s) && !CrlfAt(s, 0) {
        var i :| 0 <= i < |s| && CrlfAt(s, i);
        CrlfAtTail(s, i - 1);
      }
    }
  }

  /** Each replaced pair adds three characters: "\r\n" has length 2, "<br/>" length 5. */
  lemma {:induction false} ReplaceLength(s: string)
    ensures |ReplaceCrlf(s)| == |s| + 3 * Occurrences(s)
    decreases |s|
  {
    if CrlfAt(s, 0) {
      ReplaceLength(s[2..]);
      assert !CrlfAt(s[1..], 0);
      assert s[1..][1..] == s[2..];
    } else if s != [] {
      ReplaceLength(s[1..]);
    }
  }

  /** The normalised text equals the input exactly when the input holds no "\r\n". */
  lemma ReplaceFixedPoint(s: string)
    ensures ReplaceCrlf(s) == s <==> !HasCrlf(s)
  {
    if HasCrlf(s) {
      OccurrencesZero(s);
      ReplaceLength(s);
    } else {
      ReplaceWithoutCrlf(s);
    }
  }

  /** Normalising twice is the same as normalising once. */
  lemma ReplaceIdempotent(s: string)
    ensures ReplaceCrlf(ReplaceCrlf(s)) == ReplaceCrlf(s)
  {
    NoCrlfAfterReplace(s);
    ReplaceWithoutCrlf(ReplaceCrlf(s));
  }

  /**
   * Left-to-right matching: the first occurrence, at `i`, is replaced, the
   * text before it is copied as it is, and matching resumes right after it.
   */
  lemma {:induction false} ReplaceFirstMatch(s: string, i: nat)
    requires CrlfAt(s, i)
    requires forall j :: 0 <= j < i ==> !CrlfAt(s, j)
    ensures ReplaceCrlf(s) == s[..i] + LineBreak + ReplaceCrlf(s[i + 2..])
    decreases i
  {
    if i > 0 {
      assert !CrlfAt(s, 0);
      CrlfAtTail(s, i - 1);
      forall j | 0 <= j < i - 1 ensures !CrlfAt(s[1..], j) {
        CrlfAtTail(s, j);
      }
      ReplaceFirstMatch(s[1..], i - 1);
      assert s[1..][i + 1..] == s[i + 2..];
      assert [s[0]] + s[1..][..i - 1] == s[..i];
    }
  }

  /** Restoring the line breaks gives back the stored text, for text that has no '<' of its own. */
  lemma {:induction false} RestoreAfterReplace(s: string)
    requires '<' !in s
    ensures RestoreCrlf(ReplaceCrlf(s)) == s
    decreases |s|
  {
    if CrlfAt(s, 0) {
      var t := ReplaceCrlf(s[2..]);
      assert '<' !in s[2..] by {
        forall k | 0 <= k < |s[2..]| ensures s[2..][k] != '<' {
          assert s[2..][k] == s[k + 2];
        }
      }
      RestoreAfterReplace(s[2..]);
      assert (LineBreak + t)[..5] == LineBreak;
      assert (LineBreak + t)[5..] == t;
      assert s == "\r\n" + s[2..];
    } else if s != [] {
      var t := ReplaceCrlf(s[1..]);
      assert '<' !in s[1..] by {
        forall k | 0 <= k < |s[1..]| ensures s[1..][k] != '<' {
          assert s[1..][k] == s[k + 1];
        }
      }
      RestoreAfterReplace(s[1..]);
      assert ([s[0]] + t)[0] == s[0] != '<';
      assert ([s[0]] + t)[1..] == t;
      assert s == [s[0]] + s[1..];
    }
  }

  /** A carriage return followed by a CRLF pair: only the pair is replaced. */
  lemma ExampleCrCrLf()
    ensures ReplaceCrlf("\r\r\n") == "\r<br/>"
  {
  }

  /** A lone line feed is kept. */
  lemma ExampleLoneLf()
    ensures ReplaceCrlf("a\nb") == "a\nb"
  {
  }

  /** The stored text "a\r\nb" is shown as "a<br/>b". */
  lemma ExampleOnePair()
    ensures ReplaceCrlf("a\r\nb") == "a<br/>b"
  {
  }
}
