/**
 * The two JavaScript string built-ins the blood-pressure parser relies on:
 * `String.prototype.split('/')` and the one-argument `parseInt`.
 */
module JsText {
  import opened Wrappers

  // ---------------------------------------------------------------------------
  // split('/')
  // ---------------------------------------------------------------------------

  const Slash: char := '/'

  /** The parts of `s` between slashes, as `s.split('/')` returns them; never empty. */
  function Split(s: string): (parts: seq<string>)
    ensures |parts| >= 1
  {
    if s == [] then [[]] else Prepend(s[0], Split(s[1..]))
  }

  /** The parts of `[c] + t`, given the parts of `t`: a '/' opens a new first part. */
  function Prepend(c: char, parts: seq<string>): (r: seq<string>)
    requires |parts| >= 1
    ensures |r| >= 1
  {
    if c == Slash then [[]] + parts else [[c] + parts[0]] + parts[1..]
  }

  /** Prepending a character only touches the first part. */
  lemma PrependConcat(c: char, p: seq<string>, q: seq<string>)
    requires |p| >= 1
    ensures Prepend(c, p + q) == Prepend(c, p) + q
  {
    if c != Slash {
      assert (p + q)[0] == p[0];
      assert (p + q)[1..] == p[1..] + q;
    }
  }

  /** `parts.join('/')`, the inverse of `Split`. */
  function Join(parts: seq<string>): string
    requires |parts| >= 1
  {
    if |parts| == 1 then parts[0] else parts[0] + [Slash] + Join(parts[1..])
  }

  /** `s.split('/')[i]`: `None` when there is no part `i` (JavaScript's `undefined`). */
  function SplitPart(s: string, i: nat): (r: Option<string>)
    ensures r.Some? <==> i < |Split(s)|
    ensures r.Some? ==> Slash !in r.value
  {
    SplitNoSlashInParts(s);
    if i < |Split(s)| then Some(Split(s)[i]) else None
  }

  /** Joining the parts back with '/' gives the original string. */
  lemma {:induction false} JoinSplit(s: string)
    ensures Join(Split(s)) == s
  {
    if s != [] {
      var rest := Split(s[1..]);
      JoinSplit(s[1..]);
      if s[0] == Slash {
        assert Split(s) == [[]] + rest;
        assert Split(s)[1..] == rest;
      } else {
        var parts := Split(s);
        assert parts[0] == [s[0]] + rest[0];
        assert parts[1..] == rest[1..];
        if |rest| == 1 {
          assert Join(parts) == [s[0]] + rest[0];
        } else {
          assert Join(rest) == rest[0] + [Slash] + Join(rest[1..]);
          assert Join(parts) == [s[0]] + rest[0] + [Slash] + Join(rest[1..]);
        }
        assert s == [s[0]] + s[1..];
      }
    }
  }

  /** No part contains the separator. */
  lemma {:induction false} SplitNoSlashInParts(s: string)
    ensures forall i :: 0 <= i < |Split(s)| ==> Slash !in Split(s)[i]
  {
    if s != [] {
      SplitNoSlashInParts(s[1..]);
      var rest := Split(s[1..]);
      if s[0] != Slash {
        var parts := Split(s);
        forall i | 0 <= i < |parts| ensures Slash !in parts[i] {
          if i == 0 {
            assert parts[0] == [s[0]] + rest[0];
          } else {
            assert parts[i] == rest[i];
          }
        }
      }
    }
  }

  /** A string without '/' is a single part. */
  lemma {:induction false} SplitWithoutSlash(s: string)
    requires Slash !in s
    ensures Split(s) == [s]
  {
    if s != [] {
      assert Slash !in s[1..] by {
        forall k | 0 <= k < |s[1..]| ensures s[1..][k] != Slash { assert s[1..][k] == s[k + 1]; }
      }
      SplitWithoutSlash(s[1..]);
      assert s == [s[0]] + s[1..];
    }
  }

  /** Splitting at a '/' splits the parts list at the same place. */
  lemma {:induction false} SplitAtSlash(a: string, b: string)
    ensures Split(a + [Slash] + b) == Split(a) + Split(b)
  {
    var s := a + [Slash] + b;
    if a == [] {
      assert s == [Slash] + b;
      assert s[1..] == b;
    } else {
      var tail := a[1..] + [Slash] + b;
      assert s[0] == a[0] && s[1..] == tail;
      SplitAtSlash(a[1..], b);
      PrependConcat(a[0], Split(a[1..]), Split(b));
    }
  }

  /** A string holding a '/' has at least two parts. */
  lemma {:induction false} SplitSlashTwoParts(s: string)
    requires Slash in s
    ensures |Split(s)| >= 2
  {
    if s[0] != Slash {
      assert Slash in s[1..] by {
        var k :| 0 <= k < |s| && s[k] == Slash;
        assert s[1..][k - 1] == Slash;
      }
      SplitSlashTwoParts(s[1..]);
    }
  }

  /** The first part of `d + rest`, when `d` holds no '/', starts with all of `d`. */
  lemma {:induction false} SplitHeadOfConcat(d: string, rest: string)
    requires Slash !in d
    ensures Split(d + rest)[0] == d + Split(rest)[0]
  {
    if d != [] {
      assert (d + rest)[1..] == d[1..] + rest;
      assert Slash !in d[1..] by {
        forall k | 0 <= k < |d[1..]| ensures d[1..][k] != Slash { assert d[1..][k] == d[k + 1]; }
      }
      SplitHeadOfConcat(d[1..], rest);
      assert (d + rest)[0] == d[0] != Slash;
      assert Split(d + rest)[0] == [d[0]] + Split(d[1..] + rest)[0];
      assert d == [d[0]] + d[1..];
    } else {
      assert d + rest == rest;
    }
  }

  /** The first part is a prefix of the string. */
  lemma {:induction false} SplitHeadIsPrefix(s: string)
    ensures Split(s)[0] <= s
  {
    if s != [] && s[0] != Slash {
      SplitHeadIsPrefix(s[1..]);
      assert s == [s[0]] + s[1..];
    }
  }

  // ---------------------------------------------------------------------------
  // parseInt
  // ---------------------------------------------------------------------------

  /** The ASCII white space `parseInt` skips. */
  predicate IsWhitespace(c: char) {
    c == ' ' || c == '\t' || c == '\n' || c == '\r' || c == '\U{000B}' || c == '\U{000C}'
  }

  predicate IsDigit(c: char) { '0' <= c <= '9' }

  function DigitOf(c: char): nat
    requires IsDigit(c)
  {
    (c - '0') as nat
  }

  function DigitChar(n: nat): (c: char)
    requires n < 10
    ensures IsDigit(c) && DigitOf(c) == n
  {
    ('0' as int + n) as char
  }

  predicate AllDigits(d: string) {
    forall k :: 0 <= k < |d| ==> IsDigit(d[k])
  }

  predicate AllWhitespace(w: string) {
    forall k :: 0 <= k < |w| ==> IsWhitespace(w[k])
  }

  /** `s` with its leading white space removed. */
  function SkipWhitespace(s: string): (t: string)
    ensures t == [] || !IsWhitespace(t[0])
  {
    if s != [] && IsWhitespace(s[0]) then SkipWhitespace(s[1..]) else s
  }

  /** `t` with one leading '+' or '-' removed. */
  function DropSign(t: string): string {
    if t != [] && (t[0] == '+' || t[0] == '-') then t[1..] else t
  }

  /** The longest prefix of `s` made of decimal digits. */
  function DigitPrefix(s: string): (d: string)
    ensures AllDigits(d)
  {
    if s != [] && IsDigit(s[0]) then [s[0]] + DigitPrefix(s[1..]) else []
  }

  /** The number written by a string of decimal digits (leading zeros allowed). */
  function DigitsValue(d: string): nat
    requires AllDigits(d)
  {
    if d == [] then 0 else DigitsValue(d[..|d| - 1]) * 10 + DigitOf(d[|d| - 1])
  }

  /**
   * `parseInt(s)` with radix 10: skip leading white space, accept one optional
   * sign, read the longest run of decimal digits; `None` (NaN) when there is none.
   */
  function ParseInt(s: string): (r: Option<int>)
    ensures r.None? <==> (var u := DropSign(SkipWhitespace(s)); u == [] || !IsDigit(u[0]))
    ensures r.Some? && r.value < 0 ==> SkipWhitespace(s)[0] == '-'
  {
    var t := SkipWhitespace(s);
    var d := DigitPrefix(DropSign(t));
    if d == [] then None
    else if t[0] == '-' then Some(-(DigitsValue(d) as int))
    else Some(DigitsValue(d) as int)
  }

  /** Decimal rendering of a natural number, without leading zeros. */
  function RenderNat(n: nat): (d: string)
    ensures d != [] && AllDigits(d)
  {
    if n < 10 then [DigitChar(n)] else RenderNat(n / 10) + [DigitChar(n % 10)]
  }

  /** Decimal rendering of an integer, as `String(n)` writes it. */
  function Render(n: int): (s: string)
    ensures Slash !in s
  {
    if n < 0 then ['-'] + RenderNat(-n) else RenderNat(n)
  }

  /** Reading back a rendered number gives the number. */
  lemma {:induction false} DigitsValueRenderNat(n: nat)
    ensures DigitsValue(RenderNat(n)) == n
  {
    if n >= 10 {
      var d := RenderNat(n);
      assert d[..|d| - 1] == RenderNat(n / 10);
      DigitsValueRenderNat(n / 10);
    }
  }

  /** The digit run stops at the first non-digit. */
  lemma {:induction false} DigitPrefixOfDigits(d: string, rest: string)
    requires AllDigits(d)
    requires rest == [] || !IsDigit(rest[0])
    ensures DigitPrefix(d + rest) == d
  {
    if d != [] {
      assert (d + rest)[1..] == d[1..] + rest;
      DigitPrefixOfDigits(d[1..], rest);
      assert d == [d[0]] + d[1..];
    }
  }

  /** Leading white space is skipped and nothing else is. */
  lemma {:induction false} SkipWhitespaceOf(w: string, x: string)
    requires AllWhitespace(w)
    requires x == [] || !IsWhitespace(x[0])
    ensures SkipWhitespace(w + x) == x
  {
    if w != [] {
      assert (w + x)[1..] == w[1..] + x;
      SkipWhitespaceOf(w[1..], x);
    }
  }

  /** Leading white space does not change what `parseInt` reads. */
  lemma ParseIntSkipsWhitespace(w: string, x: string)
    requires AllWhitespace(w)
    requires x == [] || !IsWhitespace(x[0])
    ensures ParseInt(w + x) == ParseInt(x)
  {
    SkipWhitespaceOf(w, x);
    assert SkipWhitespace(x) == x;
  }

  /** An unsigned run of digits reads as its value; what follows is ignored. */
  lemma ParseIntDigits(d: string, rest: string)
    requires d != [] && AllDigits(d)
    requires rest == [] || !IsDigit(rest[0])
    ensures ParseInt(d + rest) == Some(DigitsValue(d) as int)
  {
    var x := d + rest;
    assert x[0] == d[0];
    assert SkipWhitespace(x) == x;
    assert DropSign(x) == x;
    DigitPrefixOfDigits(d, rest);
  }

  /** A digit run after one sign character reads as the signed value. */
  lemma ParseIntSignedDigits(sign: char, d: string, rest: string)
    requires sign == '+' || sign == '-'
    requires d != [] && AllDigits(d)
    requires rest == [] || !IsDigit(rest[0])
    ensures ParseInt([sign] + d + rest) == Some(if sign == '-' then -(DigitsValue(d) as int) else DigitsValue(d) as int)
  {
    var u := d + rest;
    var x := [sign] + u;
    assert [sign] + d + rest == x;
    assert x[0] == sign && x[1..] == u;
    assert SkipWhitespace(x) == x;
    assert DropSign(x) == u;
    DigitPrefixOfDigits(d, rest);
    assert DigitPrefix(DropSign(SkipWhitespace(x))) == d;
  }

  /** `parseInt(String(n) + rest)` is `n` when `rest` does not continue the digits. */
  lemma ParseIntRender(n: int, rest: string)
    requires rest == [] || !IsDigit(rest[0])
    ensures ParseInt(Render(n) + rest) == Some(n)
  {
    var m: nat := if n < 0 then -n else n;
    DigitsValueRenderNat(m);
    if n < 0 {
      ParseIntSignedDigits('-', RenderNat(m), rest);
    } else {
      ParseIntDigits(RenderNat(m), rest);
    }
  }

  /** The empty string is NaN. */
  lemma ParseIntEmpty()
    ensures ParseInt("") == None
  {
  }
}
