/**
 * The string operations of Python that the modelled code relies on:
 * `%d` rendering of naturals, `str.split(sep)`, `str.split()`, `sep.join(...)`,
 * `startswith` and `endswith`.
 */
module Strings {

  // ---------------------------------------------------------------- digits

  function Digit(n: nat): char
    requires n < 10
  {
    (48 + n) as char
  }

  predicate IsDigit(c: char) {
    '0' <= c <= '9'
  }

  predicate AllDigits(s: string) {
    forall i :: 0 <= i < |s| ==> IsDigit(s[i])
  }

  /** Decimal rendering of a natural number, as Python's `'%d' % n` writes it. */
  function NatToString(n: nat): (s: string)
    ensures |s| > 0 && AllDigits(s)
  {
    if n < 10 then [Digit(n)] else NatToString(n / 10) + [Digit(n % 10)]
  }

  /** The number a string of decimal digits denotes; the inverse of NatToString. */
  function DecimalValue(s: string): nat
    requires AllDigits(s)
  {
    if |s| == 0 then 0 else DecimalValue(s[..|s| - 1]) * 10 + (s[|s| - 1] as int - 48)
  }

  lemma {:induction false} DecimalRoundTrip(n: nat)
    ensures DecimalValue(NatToString(n)) == n
  {
    if n >= 10 {
      var s := NatToString(n);
      assert s[..|s| - 1] == NatToString(n / 10);
      DecimalRoundTrip(n / 10);
    }
  }

  /** Distinct numbers render as distinct strings. */
  lemma NatToStringInjective(m: nat, n: nat)
    ensures NatToString(m) == NatToString(n) <==> m == n
  {
    DecimalRoundTrip(m);
    DecimalRoundTrip(n);
  }

  // ------------------------------------------------------ prefixes, suffixes

  predicate StartsWith(s: string, prefix: string) {
    |prefix| <= |s| && s[..|prefix|] == prefix
  }

  predicate EndsWith(s: string, suffix: string) {
    |suffix| <= |s| && s[|s| - |suffix|..] == suffix
  }

  // ------------------------------------------------------- split and join

  /**
   * The ASCII characters Python's argument-less `str.split()` treats as white space: space,
   * tab, line feed, carriage return, vertical tab, form feed, and the separators 28 to 31.
   */
  const Whitespace: set<char> := {' ', '\t', '\n', '\r', 11 as char, 12 as char, 28 as char, 29 as char, 30 as char, 31 as char}

  predicate Free(s: string, seps: set<char>) {
    forall i :: 0 <= i < |s| ==> s[i] !in seps
  }

  /**
   * The pieces of `s` between separator characters, empty pieces kept, as Python's
   * `s.split(sep)` returns them for `seps == {sep}`.
   */
  function SplitOn(s: string, seps: set<char>): (parts: seq<string>)
    ensures |parts| > 0
    ensures forall i :: 0 <= i < |parts| ==> Free(parts[i], seps)
  {
    if |s| == 0 then [""]
    else
      var rest := SplitOn(s[1..], seps);
      if s[0] in seps then [""] + rest
      else [[s[0]] + rest[0]] + rest[1..]
  }

  /** Python's `sep.join(parts)`. */
  function Join(parts: seq<string>, sep: string): string {
    if |parts| == 0 then ""
    else if |parts| == 1 then parts[0]
    else parts[0] + sep + Join(parts[1..], sep)
  }

  /** Splitting at one separator splits both sides independently. */
  lemma {:induction false} SplitOnConcat(a: string, c: char, b: string, seps: set<char>)
    requires c in seps
    ensures SplitOn(a + [c] + b, seps) == SplitOn(a, seps) + SplitOn(b, seps)
  {
    if |a| == 0 {
      assert a + [c] + b == [c] + b;
      assert ([c] + b)[1..] == b;
    } else {
      assert (a + [c] + b)[0] == a[0];
      assert (a + [c] + b)[1..] == a[1..] + [c] + b;
      SplitOnConcat(a[1..], c, b, seps);
    }
  }

  /** A string without separators is a single piece. */
  lemma {:induction false} SplitOnFree(w: string, seps: set<char>)
    requires Free(w, seps)
    ensures SplitOn(w, seps) == [w]
  {
    if |w| > 0 {
      SplitOnFree(w[1..], seps);
      assert [w[0]] + w[1..] == w;
    }
  }

  /**
   * A string ending in `_` and a run of digits determines both parts: the digits are
   * what follows the last `_`, and the rest is what precedes it.
   */
  lemma DigitSuffix(a: string, d: string, b: string, e: string)
    requires AllDigits(d) && AllDigits(e)
    ensures a + "_" + d == b + "_" + e <==> a == b && d == e
  {
    if a + "_" + d == b + "_" + e {
      SplitOnConcat(a, '_', d, {'_'});
      SplitOnConcat(b, '_', e, {'_'});
      SplitOnFree(d, {'_'});
      SplitOnFree(e, {'_'});
      var ps := SplitOn(a + "_" + d, {'_'});
      assert ps[|ps| - 1] == d && ps[|ps| - 1] == e;
      assert a == (a + "_" + d)[..|a|];
    }
  }

  /** Joining at a separator and splitting again gives the pieces back. */
  lemma {:induction false} SplitOnJoin(ws: seq<string>, c: char, seps: set<char>)
    requires c in seps && |ws| > 0
    requires forall i :: 0 <= i < |ws| ==> Free(ws[i], seps)
    ensures SplitOn(Join(ws, [c]), seps) == ws
  {
    SplitOnFree(ws[0], seps);
    if |ws| > 1 {
      SplitOnJoin(ws[1..], c, seps);
      SplitOnConcat(ws[0], c, Join(ws[1..], [c]), seps);
      assert [ws[0]] + ws[1..] == ws;
    }
  }

  /** Splitting and joining again at the same separator gives the string back. */
  lemma {:induction false} JoinSplitOn(s: string, c: char)
    ensures Join(SplitOn(s, {c}), [c]) == s
  {
    if |s| > 0 {
      JoinSplitOn(s[1..], c);
      var rest := SplitOn(s[1..], {c});
      if s[0] != c {
        if |rest| > 1 {
          assert Join(rest, [c]) == rest[0] + [c] + Join(rest[1..], [c]);
        }
      }
    }
  }

  /** The non-empty elements of `parts`, in order. */
  function NonEmpty(parts: seq<string>): (ws: seq<string>)
    ensures forall i :: 0 <= i < |ws| ==> |ws[i]| > 0
    ensures forall w :: w in ws <==> w in parts && |w| > 0
  {
    if |parts| == 0 then []
    else if |parts[0]| == 0 then NonEmpty(parts[1..])
    else [parts[0]] + NonEmpty(parts[1..])
  }

  /** Python's argument-less `s.split()`: the white-space separated words of `s`. */
  function Words(s: string): seq<string> {
    NonEmpty(SplitOn(s, Whitespace))
  }

  /** Joining non-empty words with single spaces and splitting again gives the words back. */
  lemma WordsJoin(ws: seq<string>)
    requires forall i :: 0 <= i < |ws| ==> |ws[i]| > 0 && Free(ws[i], Whitespace)
    ensures Words(Join(ws, " ")) == ws
  {
    if |ws| == 0 {
      assert SplitOn(Join(ws, " "), Whitespace) == [""];
      assert NonEmpty([""]) == NonEmpty([""][1..]);
    } else {
      SplitOnJoin(ws, ' ', Whitespace);
      NonEmptyOfNonEmpty(ws);
    }
  }

  lemma {:induction false} NonEmptyOfNonEmpty(ws: seq<string>)
    requires forall i :: 0 <= i < |ws| ==> |ws[i]| > 0
    ensures NonEmpty(ws) == ws
  {
    if |ws| > 0 {
      NonEmptyOfNonEmpty(ws[1..]);
      assert [ws[0]] + ws[1..] == ws;
    }
  }

  lemma {:induction false} NonEmptyConcat(a: seq<string>, b: seq<string>)
    ensures NonEmpty(a + b) == NonEmpty(a) + NonEmpty(b)
  {
    if |a| == 0 {
      assert a + b == b;
    } else {
      var ab := a + b;
      assert ab[0] == a[0] && ab[1..] == a[1..] + b;
      NonEmptyConcat(a[1..], b);
      if |a[0]| == 0 {
        calc {
          NonEmpty(ab);
          NonEmpty(a[1..] + b);
          NonEmpty(a[1..]) + NonEmpty(b);
        }
      } else {
        calc {
          NonEmpty(ab);
          [a[0]] + NonEmpty(a[1..] + b);
          [a[0]] + (NonEmpty(a[1..]) + NonEmpty(b));
          ([a[0]] + NonEmpty(a[1..])) + NonEmpty(b);
        }
      }
    }
  }

  /** The words of two strings joined by a space are the words of the first, then those of the second. */
  lemma WordsConcat(x: string, y: string)
    ensures Words(x + " " + y) == Words(x) + Words(y)
  {
    SplitOnConcat(x, ' ', y, Whitespace);
    NonEmptyConcat(SplitOn(x, Whitespace), SplitOn(y, Whitespace));
  }

  /** The elements of `ws` other than `w`, in order (a Python list comprehension with `if j != w`). */
  function Without(ws: seq<string>, w: string): (r: seq<string>)
    ensures forall x :: x in r <==> x in ws && x != w
  {
    if |ws| == 0 then []
    else if ws[0] == w then Without(ws[1..], w)
    else [ws[0]] + Without(ws[1..], w)
  }
}
