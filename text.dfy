/** The JavaScript string operations the repair desk's client logic relies on:
    String(n) for a non-negative integer, padStart, startsWith, trim, and the
    input filter that keeps only the digits of a typed code. */
module Text {

  predicate IsDigit(c: char) { '0' <= c <= '9' }

  predicate AllDigits(s: string) { forall i :: 0 <= i < |s| ==> IsDigit(s[i]) }

  function DigitValue(c: char): (d: nat)
    requires IsDigit(c)
    ensures d < 10
  {
    c as int - '0' as int
  }

  function DigitChar(d: nat): (c: char)
    requires d < 10
    ensures IsDigit(c) && DigitValue(c) == d
  {
    ('0' as int + d) as char
  }

  function Pow10(k: nat): (p: nat)
    ensures p >= 1
  {
    if k == 0 then 1 else 10 * Pow10(k - 1)
  }

  /** String(n) for a non-negative integer n: its decimal digits without a leading zero. */
  function NatToString(n: nat): (s: string)
    ensures |s| >= 1 && AllDigits(s)
    ensures s[0] == '0' ==> n == 0
  {
    if n < 10 then [DigitChar(n)] else NatToString(n / 10) + [DigitChar(n % 10)]
  }

  /** The value of a string of decimal digits (leading zeros allowed): the inverse of NatToString. */
  function ParseDigits(s: string): (n: nat)
    requires AllDigits(s)
  {
    if s == [] then 0 else 10 * ParseDigits(s[..|s| - 1]) + DigitValue(s[|s| - 1])
  }

  lemma {:induction false} ParseNatToString(n: nat)
    ensures ParseDigits(NatToString(n)) == n
  {
    if n >= 10 {
      var s := NatToString(n / 10) + [DigitChar(n % 10)];
      assert s[..|s| - 1] == NatToString(n / 10);
      ParseNatToString(n / 10);
    }
  }

  /** NatToString(n) fits in w characters exactly when n < 10^w. */
  lemma {:induction false} NatToStringLength(n: nat, w: nat)
    requires w >= 1
    ensures |NatToString(n)| <= w <==> n < Pow10(w)
  {
    if w == 1 {
      assert Pow10(1) == 10;
      if n >= 10 {
        assert |NatToString(n)| == |NatToString(n / 10)| + 1;
      }
    } else if n < 10 {
      Pow10AtLeastTen(w);
    } else {
      NatToStringLength(n / 10, w - 1);
      assert |NatToString(n)| == |NatToString(n / 10)| + 1;
      assert Pow10(w) == 10 * Pow10(w - 1);
      assert n / 10 < Pow10(w - 1) <==> n < 10 * Pow10(w - 1);
    }
  }

  /** A number from 1000 to 9999 is written with exactly four digits. */
  lemma FourDigits(n: nat)
    requires 1000 <= n <= 9999
    ensures |NatToString(n)| == 4
  {
    assert Pow10(3) == 1000 && Pow10(4) == 10000;
    NatToStringLength(n, 3);
    NatToStringLength(n, 4);
  }

  lemma {:induction false} Pow10AtLeastTen(w: nat)
    requires w >= 1
    ensures Pow10(w) >= 10
  {
    if w > 1 {
      Pow10AtLeastTen(w - 1);
    }
  }

  function Repeat(c: char, k: nat): (r: string)
    ensures |r| == k && forall i :: 0 <= i < k ==> r[i] == c
  {
    seq(k, _ => c)
  }

  /** s.padStart(width, fill) with a one-character fill: pads on the left up to
      width and never truncates a longer s. */
  function PadStart(s: string, width: nat, fill: char): (r: string)
    ensures |r| == if |s| < width then width else |s|
    ensures r[|r| - |s|..] == s
    ensures forall i :: 0 <= i < |r| - |s| ==> r[i] == fill
  {
    if |s| < width then Repeat(fill, width - |s|) + s else s
  }

  /** String(n).padStart(w, '0'): exactly w characters when String(n) is
      shorter, otherwise String(n) itself, which always ends the result. */
  function ZeroPad(n: nat, w: nat): (r: string)
    ensures AllDigits(r)
    ensures |r| == if |NatToString(n)| < w then w else |NatToString(n)|
    ensures r[|r| - |NatToString(n)|..] == NatToString(n)
  {
    PadStart(NatToString(n), w, '0')
  }

  lemma {:induction false} ParseZeros(k: nat)
    ensures AllDigits(Repeat('0', k)) && ParseDigits(Repeat('0', k)) == 0
  {
    if k > 0 {
      assert Repeat('0', k)[..k - 1] == Repeat('0', k - 1);
      ParseZeros(k - 1);
    }
  }

  /** Leading zeros do not change the value of a digit string. */
  lemma {:induction false} ParseLeadingZeros(k: nat, s: string)
    requires AllDigits(s)
    ensures AllDigits(Repeat('0', k) + s)
    ensures ParseDigits(Repeat('0', k) + s) == ParseDigits(s)
  {
    var t := Repeat('0', k) + s;
    if s == [] {
      assert t == Repeat('0', k);
      ParseZeros(k);
    } else {
      assert t[..|t| - 1] == Repeat('0', k) + s[..|s| - 1];
      ParseLeadingZeros(k, s[..|s| - 1]);
    }
  }

  /** Zero padding is undone by reading the digits back. */
  lemma ZeroPadRoundTrip(n: nat, w: nat)
    ensures ParseDigits(ZeroPad(n, w)) == n
  {
    hide ParseDigits;
    hide NatToString;
    var s := NatToString(n);
    ParseNatToString(n);
    if |s| < w {
      ParseLeadingZeros(w - |s|, s);
      assert ZeroPad(n, w) == Repeat('0', w - |s|) + s;
    } else {
      assert ZeroPad(n, w) == s;
    }
  }

  /** The padded width is exactly w when n has at most w digits. */
  lemma ZeroPadWidth(n: nat, w: nat)
    requires w >= 1 && n < Pow10(w)
    ensures |ZeroPad(n, w)| == w
  {
    NatToStringLength(n, w);
  }

  lemma ZeroPadInjective(a: nat, b: nat, w: nat)
    requires ZeroPad(a, w) == ZeroPad(b, w)
    ensures a == b
  {
    ZeroPadRoundTrip(a, w);
    ZeroPadRoundTrip(b, w);
  }

  /** Joining two digit strings gives a digit string. */
  lemma AllDigitsConcat(a: string, b: string)
    requires AllDigits(a) && AllDigits(b)
    ensures AllDigits(a + b)
  {
    forall i | 0 <= i < |a + b| ensures IsDigit((a + b)[i]) {
      if i < |a| {
        assert (a + b)[i] == a[i];
      } else {
        assert (a + b)[i] == b[i - |a|];
      }
    }
  }

  /** s.startsWith(p). */
  predicate StartsWith(s: string, p: string) {
    |p| <= |s| && s[..|p|] == p
  }

  /** value.replace(/[^0-9]/g, ''): the digits of s, in order. */
  function KeepDigits(s: string): (r: string)
    ensures AllDigits(r) && |r| <= |s|
    ensures AllDigits(s) ==> r == s
  {
    if s == [] then []
    else (if IsDigit(s[0]) then [s[0]] else []) + KeepDigits(s[1..])
  }

  /** The filter works character by character: a digit is kept, anything else dropped. */
  lemma KeepDigitsOne(c: char)
    ensures KeepDigits([c]) == if IsDigit(c) then [c] else []
  {
    assert [c][1..] == [];
  }

  /** Filtering a concatenation filters each part and keeps their order. */
  lemma {:induction false} KeepDigitsConcat(a: string, b: string)
    ensures KeepDigits(a + b) == KeepDigits(a) + KeepDigits(b)
  {
    if a == [] {
      assert a + b == b;
    } else {
      assert (a + b)[0] == a[0];
      assert (a + b)[1..] == a[1..] + b;
      KeepDigitsConcat(a[1..], b);
    }
  }

  lemma KeepDigitsIdempotent(s: string)
    ensures KeepDigits(KeepDigits(s)) == KeepDigits(s)
  {
  }

  /** The characters String.prototype.trim removes: the ECMAScript WhiteSpace
      (tab, vertical tab, form feed, space, no-break space, byte order mark and the
      space separators) and LineTerminator (LF, CR, line and paragraph separator) sets. */
  predicate IsWhitespace(c: char) {
    var k := c as int;
    k == 0x09 || k == 0x0A || k == 0x0B || k == 0x0C || k == 0x0D || k == 0x20
    || k == 0xA0 || k == 0x1680 || (0x2000 <= k <= 0x200A) || k == 0x2028 || k == 0x2029
    || k == 0x202F || k == 0x205F || k == 0x3000 || k == 0xFEFF
  }

  /** s with its leading whitespace removed. */
  function TrimStart(s: string): (r: string)
    ensures |r| <= |s| && r == s[|s| - |r|..]
    ensures forall i :: 0 <= i < |s| - |r| ==> IsWhitespace(s[i])
    ensures r != [] ==> !IsWhitespace(r[0])
  {
    hide IsWhitespace;
    if s != [] && IsWhitespace(s[0]) then TrimStart(s[1..]) else s
  }

  /** s with its trailing whitespace removed. */
  function TrimEnd(s: string): (r: string)
    ensures |r| <= |s| && r == s[..|r|]
    ensures forall i :: |r| <= i < |s| ==> IsWhitespace(s[i])
    ensures r != [] ==> !IsWhitespace(r[|r| - 1])
  {
    hide IsWhitespace;
    if s != [] && IsWhitespace(s[|s| - 1]) then TrimEnd(s[..|s| - 1]) else s
  }

  /** s.trim(): empty exactly when s is all whitespace, otherwise a string that
      neither starts nor ends with whitespace (TrimSurrounded says which one). */
  function Trim(s: string): (r: string)
    ensures |r| <= |s|
    ensures r == [] <==> forall i :: 0 <= i < |s| ==> IsWhitespace(s[i])
    ensures r != [] ==> !IsWhitespace(r[0]) && !IsWhitespace(r[|r| - 1])
  {
    TrimEnd(TrimStart(s))
  }

  lemma {:induction false} TrimStartSkips(pre: string, y: string)
    requires forall i :: 0 <= i < |pre| ==> IsWhitespace(pre[i])
    requires y == [] || !IsWhitespace(y[0])
    ensures TrimStart(pre + y) == y
  {
    if pre != [] {
      assert (pre + y)[1..] == pre[1..] + y;
      TrimStartSkips(pre[1..], y);
    }
  }

  lemma {:induction false} TrimEndSkips(y: string, post: string)
    requires forall i :: 0 <= i < |post| ==> IsWhitespace(post[i])
    requires y == [] || !IsWhitespace(y[|y| - 1])
    ensures TrimEnd(y + post) == y
  {
    if post != [] {
      var t := y + post;
      assert t[..|t| - 1] == y + post[..|post| - 1];
      TrimEndSkips(y, post[..|post| - 1]);
    } else {
      assert y + post == y;
    }
  }

  /** Whitespace typed around a word is dropped by trim, and nothing else is. */
  lemma TrimSurrounded(pre: string, x: string, post: string)
    requires forall i :: 0 <= i < |pre| ==> IsWhitespace(pre[i])
    requires forall i :: 0 <= i < |post| ==> IsWhitespace(post[i])
    requires x != [] && !IsWhitespace(x[0]) && !IsWhitespace(x[|x| - 1])
    ensures Trim(pre + x + post) == x
  {
    assert pre + x + post == pre + (x + post);
    TrimStartSkips(pre, x + post);
    TrimEndSkips(x, post);
  }
}
