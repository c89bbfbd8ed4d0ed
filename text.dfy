/**
 * The string rules the downloader relies on: Python's `str()` of an integer,
 * prefix and suffix tests, ASCII case folding, the `"%20"` to `" "`
 * replacement and `posixpath.basename`.
 */
module Text {

  predicate IsDigit(c: char) { '0' <= c <= '9' }

  predicate IsAsciiAlpha(c: char) { 'a' <= c <= 'z' || 'A' <= c <= 'Z' }

  /** ASCII lower-casing; every other character is left as it is. */
  function LowerAscii(c: char): char
  {
    if 'A' <= c <= 'Z' then (c as int + 32) as char else c
  }

  function LowerString(s: string): (r: string)
    ensures |r| == |s|
    ensures forall i :: 0 <= i < |s| ==> r[i] == LowerAscii(s[i])
  {
    if s == [] then [] else [LowerAscii(s[0])] + LowerString(s[1..])
  }

  predicate StartsWith(s: string, p: string) { |p| <= |s| && s[..|p|] == p }

  lemma DropPrefix(p: string, x: string, y: string)
    requires p + x == p + y
    ensures x == y
  {
    assert x == (p + x)[|p|..];
    assert y == (p + y)[|p|..];
  }

  lemma DropSuffix(x: string, y: string, q: string)
    requires x + q == y + q
    ensures x == y
  {
    assert x == (x + q)[..|x|];
    assert y == (y + q)[..|y|];
  }

  predicate EndsWith(s: string, p: string) { |p| <= |s| && s[|s| - |p|..] == p }

  lemma EndsWithChar(s: string, c: char)
    ensures EndsWith(s, [c]) <==> |s| > 0 && s[|s| - 1] == c
  {
    if |s| > 0 && s[|s| - 1] == c {
      assert s[|s| - 1..] == [c];
    }
  }

  lemma AppendAssoc<T>(a: seq<T>, b: seq<T>, c: seq<T>)
    ensures a + (b + c) == (a + b) + c
  {
  }

  lemma Reassociate<T>(a: seq<T>, b: seq<T>, c: seq<T>, d: seq<T>)
    ensures a + b + c + d == a + (b + (c + d))
  {
  }

  lemma LastOfAppend(x: string, y: string)
    requires |y| > 0
    ensures (x + y)[|x + y| - 1] == y[|y| - 1]
  {
  }

  // ---------------------------------------------------------------------------
  // str() of an integer and its inverse

  function DigitValue(c: char): nat
    requires IsDigit(c)
  {
    c as int - '0' as int
  }

  function DigitChar(d: nat): (c: char)
    requires d < 10
    ensures IsDigit(c) && DigitValue(c) == d
  {
    ('0' as int + d) as char
  }

  predicate AllDigits(s: string) { forall i :: 0 <= i < |s| ==> IsDigit(s[i]) }

  /** Decimal digits of `n`, most significant first, without leading zeros. */
  function NatToString(n: nat): (s: string)
    ensures |s| >= 1 && AllDigits(s)
    ensures s[0] == '0' ==> n == 0
  {
    if n < 10 then [DigitChar(n)] else NatToString(n / 10) + [DigitChar(n % 10)]
  }

  /** The value of a string of decimal digits (the empty string is 0). */
  function ParseNat(s: string): nat
    requires AllDigits(s)
  {
    if s == [] then 0 else ParseNat(s[..|s| - 1]) * 10 + DigitValue(s[|s| - 1])
  }

  /** `str(i)` for a Python int: a minus sign, then the digits of the magnitude. */
  function IntToString(i: int): (s: string)
    ensures |s| >= 1
    ensures forall k :: 0 <= k < |s| ==> IsDigit(s[k]) || (k == 0 && s[k] == '-')
  {
    if i < 0 then "-" + NatToString(-i) else NatToString(i)
  }

  function ParseInt(s: string): int
    requires forall k :: 0 <= k < |s| ==> IsDigit(s[k]) || (k == 0 && s[k] == '-')
  {
    if |s| > 0 && s[0] == '-' then -(ParseNat(s[1..]) as int) else ParseNat(s)
  }

  lemma {:induction false} ParseNatOfNatToString(n: nat)
    ensures ParseNat(NatToString(n)) == n
  {
    if n >= 10 {
      var s := NatToString(n);
      var front := NatToString(n / 10);
      assert s == front + [DigitChar(n % 10)];
      assert s[..|s| - 1] == front;
      ParseNatOfNatToString(n / 10);
    }
  }

  /** `str` on integers can be read back, so distinct integers print differently. */
  lemma ParseIntOfIntToString(i: int)
    ensures ParseInt(IntToString(i)) == i
  {
    if i < 0 {
      assert IntToString(i)[1..] == NatToString(-i);
      ParseNatOfNatToString(-i);
    } else {
      ParseNatOfNatToString(i);
    }
  }

  lemma IntToStringInjective(a: int, b: int)
    requires IntToString(a) == IntToString(b)
    ensures a == b
  {
    ParseIntOfIntToString(a);
    ParseIntOfIntToString(b);
  }

  lemma NoSlashInIntToString(i: int)
    ensures '/' !in IntToString(i)
  {
  }

  // ---------------------------------------------------------------------------
  // s.replace('%20', ' ')

  /** `s` holds the space escape `%20` starting at index `i`. */
  predicate EscapeAt(s: string, i: nat)
  {
    i + 3 <= |s| && s[i] == '%' && s[i + 1] == '2' && s[i + 2] == '0'
  }

  predicate HasEscape(s: string) { exists i: nat | i < |s| :: EscapeAt(s, i) }

  /**
   * Python's `s.replace('%20', ' ')`: scanning from the left, every
   * non-overlapping occurrence of `%20` becomes one space.
   */
  function DecodeSpaces(s: string): string
  {
    if EscapeAt(s, 0) then " " + DecodeSpaces(s[3..])
    else if s == [] then []
    else [s[0]] + DecodeSpaces(s[1..])
  }

  lemma DecodeSpacesHead(s: string)
    requires |s| > 0
    ensures |DecodeSpaces(s)| > 0
    ensures DecodeSpaces(s)[0] == if EscapeAt(s, 0) then ' ' else s[0]
  {
  }

  /** After the replacement no `%20` is left, not even one formed across a replaced escape. */
  lemma {:induction false} DecodeSpacesLeavesNoEscape(s: string)
    ensures !HasEscape(DecodeSpaces(s))
  {
    var r := DecodeSpaces(s);
    if EscapeAt(s, 0) {
      var t := DecodeSpaces(s[3..]);
      DecodeSpacesLeavesNoEscape(s[3..]);
      assert r == " " + t;
      forall i: nat ensures !EscapeAt(r, i) {
        if i > 0 {
          assert !EscapeAt(t, i - 1);
        }
      }
    } else if s != [] {
      var t := DecodeSpaces(s[1..]);
      DecodeSpacesLeavesNoEscape(s[1..]);
      assert r == [s[0]] + t;
      forall i: nat ensures !EscapeAt(r, i) {
        if i > 0 {
          assert !EscapeAt(t, i - 1);
        } else if EscapeAt(r, 0) {
          // r starts "%20": the '2' and the '0' were copied from s, so s started with an escape
          DecodeSpacesHead(s[1..]);
          assert s[1] == '2' && !EscapeAt(s[1..], 0);
          assert s[1..][1..] == s[2..];
          assert t == [s[1]] + DecodeSpaces(s[2..]);
          assert |s| >= 3;
          DecodeSpacesHead(s[2..]);
          assert false;
        }
      }
    }
  }

  lemma {:induction false} DecodeSpacesKeepsSlashes(s: string)
    ensures ('/' in DecodeSpaces(s)) <==> ('/' in s)
  {
    if EscapeAt(s, 0) {
      DecodeSpacesKeepsSlashes(s[3..]);
      assert s == s[..3] + s[3..];
    } else if s != [] {
      DecodeSpacesKeepsSlashes(s[1..]);
      assert s == [s[0]] + s[1..];
    }
  }

  lemma {:induction false} DecodeSpacesWithoutPercent(s: string)
    requires '%' !in s
    ensures DecodeSpaces(s) == s
  {
    if s != [] {
      DecodeSpacesWithoutPercent(s[1..]);
    }
  }

  /** `a` does not end in the first one or two characters of an escape. */
  predicate NoSplitEscape(a: string)
  {
    && (|a| >= 1 ==> a[|a| - 1] != '%')
    && (|a| >= 2 ==> !(a[|a| - 2] == '%' && a[|a| - 1] == '2'))
  }

  /** Appending to a non-empty `a` that ends in no partial escape does not change whether it starts with one. */
  lemma EscapeAtAppend(a: string, b: string)
    requires a != [] && NoSplitEscape(a)
    ensures EscapeAt(a + b, 0) == EscapeAt(a, 0)
  {
    var ab := a + b;
    if |a| >= 3 {
      assert ab[..3] == a[..3];
    } else if |a| == 2 {
      assert ab[0] == a[0] && ab[1] == a[1];
    } else {
      assert ab[0] == a[0];
    }
  }

  /** No escape straddles the boundary after `a`, so the replacement works piecewise. */
  lemma {:induction false} DecodeSpacesAppend(a: string, b: string)
    requires NoSplitEscape(a)
    ensures DecodeSpaces(a + b) == DecodeSpaces(a) + DecodeSpaces(b)
  {
    var ab := a + b;
    if a == [] {
      assert ab == b;
    } else {
      EscapeAtAppend(a, b);
      var k := if EscapeAt(a, 0) then 3 else 1;
      var head := if EscapeAt(a, 0) then " " else [a[0]];
      assert ab[0] == a[0];
      assert ab[k..] == a[k..] + b;
      assert NoSplitEscape(a[k..]);
      var x, y := DecodeSpaces(a[k..]), DecodeSpaces(b);
      calc {
        DecodeSpaces(ab);
        head + DecodeSpaces(a[k..] + b);
        { DecodeSpacesAppend(a[k..], b); }
        head + (x + y);
        { AppendAssoc(head, x, y); }
        (head + x) + y;
        DecodeSpaces(a) + y;
      }
    }
  }

  /** A name with exactly one escape, and no other `%`, gets exactly one space. */
  lemma DecodeSpacesOneEscape(a: string, b: string)
    requires '%' !in a && '%' !in b
    ensures DecodeSpaces(a + "%20" + b) == a + " " + b
  {
    var e := "%20" + b;
    calc {
      DecodeSpaces(a + "%20" + b);
      { assert a + "%20" + b == a + e; }
      DecodeSpaces(a + e);
      { DecodeSpacesAppend(a, e); }
      DecodeSpaces(a) + DecodeSpaces(e);
      { DecodeSpacesWithoutPercent(a);
        assert EscapeAt(e, 0) && e[3..] == b;
        DecodeSpacesWithoutPercent(b); }
      a + (" " + b);
    }
    assert a + (" " + b) == a + " " + b;
  }

  lemma {:induction false} DecodeSpacesEndsWithSlash(a: string)
    requires |a| > 0 && a[|a| - 1] == '/'
    ensures |DecodeSpaces(a)| > 0 && DecodeSpaces(a)[|DecodeSpaces(a)| - 1] == '/'
  {
    if EscapeAt(a, 0) {
      DecodeSpacesEndsWithSlash(a[3..]);
    } else if |a| > 1 {
      DecodeSpacesEndsWithSlash(a[1..]);
    }
  }

  lemma SuffixHasNoEscape(s: string, k: nat)
    requires k <= |s| && !HasEscape(s)
    ensures !HasEscape(s[k..])
  {
    forall i: nat ensures !EscapeAt(s[k..], i) {
      if EscapeAt(s[k..], i) {
        assert EscapeAt(s, k + i);
      }
    }
  }

  // ---------------------------------------------------------------------------
  // posixpath.basename

  /** `posixpath.basename(p)`: everything after the last `/`, all of `p` when it has none. */
  function Basename(p: string): string
  {
    if p == [] || p[|p| - 1] == '/' then []
    else Basename(p[..|p| - 1]) + [p[|p| - 1]]
  }

  /** The basename is the longest suffix of `p` without a slash. */
  lemma {:induction false} BasenameShape(p: string)
    ensures var r := Basename(p);
            && '/' !in r
            && |r| <= |p| && p[|p| - |r|..] == r
            && (|r| < |p| ==> p[|p| - |r| - 1] == '/')
  {
    if p != [] && p[|p| - 1] != '/' {
      var front := p[..|p| - 1];
      BasenameShape(front);
      var r := Basename(p);
      assert r == Basename(front) + [p[|p| - 1]];
      assert p == front + [p[|p| - 1]];
    }
  }

  /** The facts above pin the basename down: a slash-free tail after a slash is it. */
  lemma BasenameOfSuffix(a: string, b: string)
    requires a == [] || a[|a| - 1] == '/'
    requires '/' !in b
    ensures Basename(a + b) == b
  {
    var p := a + b;
    BasenameShape(p);
    assert p[|p| - |b|..] == b;
  }
}
