/** Text utilities shared by the model: JavaScript's
    `Array.prototype.join` and `String.prototype.split` restricted to a
    one-character separator, and decimal rendering of natural numbers as
    JavaScript's template literals and `String(n)` produce it. */
module Text {
  import opened Basics

  /** True when `c` does not occur anywhere in `s`. */
  predicate Free(s: string, c: char) {
    forall i | 0 <= i < |s| :: s[i] != c
  }

  /** True when no element of `xs` contains `c`. */
  predicate AllFree(xs: seq<string>, c: char) {
    forall i | 0 <= i < |xs| :: Free(xs[i], c)
  }

  /** `xs.join(sep)`: the elements separated by `sep`; the empty array joins to "". */
  function Join(xs: seq<string>, sep: char): (s: string)
    ensures |xs| == 1 ==> s == xs[0]
  {
    if |xs| == 0 then ""
    else if |xs| == 1 then xs[0]
    else xs[0] + [sep] + Join(xs[1..], sep)
  }

  /** Joining pieces that all avoid c, with a separator other than c,
      gives text that avoids c. */
  lemma {:induction false} JoinFree(xs: seq<string>, sep: char, c: char)
    requires sep != c && AllFree(xs, c)
    ensures Free(Join(xs, sep), c)
  {
    if |xs| > 1 {
      assert AllFree(xs[1..], c) by {
        forall i | 0 <= i < |xs[1..]| ensures Free(xs[1..][i], c) {
          assert xs[1..][i] == xs[i + 1];
        }
      }
      JoinFree(xs[1..], sep, c);
      assert Free(xs[0], c);
      var s := Join(xs, sep);
      assert s == xs[0] + [sep] + Join(xs[1..], sep);
      forall i | 0 <= i < |s| ensures s[i] != c {
        if i < |xs[0]| {
          assert s[i] == xs[0][i];
        } else if i > |xs[0]| {
          assert s[i] == Join(xs[1..], sep)[i - |xs[0]| - 1];
        }
      }
    } else if |xs| == 1 {
      assert Free(xs[0], c);
    }
  }

  /** `s.split(sep)`: the maximal pieces between occurrences of `sep`.
      Like JavaScript, the empty string splits into one empty piece. */
  function Split(s: string, sep: char): (parts: seq<string>)
    ensures |parts| >= 1
  {
    if |s| == 0 then [""]
    else
      var rest := Split(s[1..], sep);
      if s[0] == sep then [""] + rest
      else [[s[0]] + rest[0]] + rest[1..]
  }

  /** Splitting a piece free of the separator leaves it whole. */
  lemma {:induction false} SplitFree(s: string, sep: char)
    requires Free(s, sep)
    ensures Split(s, sep) == [s]
  {
    if |s| > 0 {
      assert Free(s[1..], sep) by {
        forall i | 0 <= i < |s[1..]| ensures s[1..][i] != sep {
          assert s[1..][i] == s[i + 1];
        }
      }
      SplitFree(s[1..], sep);
      assert [s[0]] + s[1..] == s;
    }
  }

  /** Splitting at the first separator: the free prefix becomes the first piece. */
  lemma {:induction false} SplitAfterFree(x: string, sep: char, t: string)
    requires Free(x, sep)
    ensures Split(x + [sep] + t, sep) == [x] + Split(t, sep)
  {
    if |x| == 0 {
      assert x + [sep] + t == [sep] + t;
      assert ([sep] + t)[1..] == t;
    } else {
      var s := x + [sep] + t;
      assert s[0] == x[0];
      assert s[1..] == x[1..] + [sep] + t;
      assert Free(x[1..], sep) by {
        forall i | 0 <= i < |x[1..]| ensures x[1..][i] != sep {
          assert x[1..][i] == x[i + 1];
        }
      }
      SplitAfterFree(x[1..], sep, t);
      assert [x[0]] + x[1..] == x;
    }
  }

  /** Split undoes Join whenever no element contains the separator and
      there is at least one element. */
  lemma {:induction false} SplitJoin(xs: seq<string>, sep: char)
    requires |xs| >= 1
    requires AllFree(xs, sep)
    ensures Split(Join(xs, sep), sep) == xs
  {
    assert Free(xs[0], sep);
    if |xs| == 1 {
      SplitFree(xs[0], sep);
    } else {
      assert AllFree(xs[1..], sep) by {
        forall i | 0 <= i < |xs[1..]| ensures Free(xs[1..][i], sep) {
          assert xs[1..][i] == xs[i + 1];
        }
      }
      SplitJoin(xs[1..], sep);
      SplitAfterFree(xs[0], sep, Join(xs[1..], sep));
      assert [xs[0]] + xs[1..] == xs;
    }
  }

  /** Two counterexamples to the inverse: one element that contains the
      separator comes back as two pieces, and no elements at all come back
      as one empty piece. */
  lemma SplitJoinNeedsFreedom()
    ensures Split(Join(["a,b"], ','), ',') == ["a", "b"]
    ensures Split(Join([], ','), ',') == [""]
  {
    assert Join(["a,b"], ',') == "a,b";
    assert Split("b", ',') == ["b"] by { SplitFree("b", ','); }
    assert "a,b" == "a" + [','] + "b";
    SplitAfterFree("a", ',', "b");
  }

  // ---------------------------------------------------------------------
  // Decimal digits

  predicate IsDigit(c: char) {
    '0' <= c <= '9'
  }

  function DigitChar(d: nat): (c: char)
    requires d < 10
    ensures IsDigit(c)
    ensures c as int - '0' as int == d
  {
    "0123456789"[d]
  }

  function DigitValue(c: char): nat
    requires IsDigit(c)
  {
    c as int - '0' as int
  }

  predicate AllDigits(s: string) {
    forall i | 0 <= i < |s| :: IsDigit(s[i])
  }

  /** `String(n)` for a natural number: its shortest decimal form. */
  function NatToString(n: nat): (s: string)
    ensures |s| >= 1 && AllDigits(s)
    ensures |s| > 1 ==> s[0] != '0'
    decreases n
  {
    if n < 10 then [DigitChar(n)]
    else NatToString(n / 10) + [DigitChar(n % 10)]
  }

  /** The value of a non-empty string of decimal digits (leading zeros
      allowed), or None when the string is empty or holds a non-digit. */
  function ParseNat(s: string): (r: Option<nat>)
    ensures r.Some? <==> |s| >= 1 && AllDigits(s)
  {
    if |s| == 0 || !IsDigit(s[|s| - 1]) then None
    else if |s| == 1 then Some(DigitValue(s[0]))
    else
      match ParseNat(s[..|s| - 1])
      case None => None
      case Some(v) => Some(v * 10 + DigitValue(s[|s| - 1]))
  }

  /** Parsing recovers every rendered number. */
  lemma {:induction false} ParseNatToString(n: nat)
    ensures ParseNat(NatToString(n)) == Some(n)
    decreases n
  {
    if n >= 10 {
      var s := NatToString(n);
      ParseNatToString(n / 10);
      assert s[..|s| - 1] == NatToString(n / 10);
    }
  }

  /** Rendering is injective: distinct numbers give distinct strings. */
  lemma NatToStringInjective(m: nat, n: nat)
    requires NatToString(m) == NatToString(n)
    ensures m == n
  {
    ParseNatToString(m);
    ParseNatToString(n);
  }
}
