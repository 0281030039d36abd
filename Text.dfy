/** Decimal numerals, fixed-width digit fields, and the path-splitting facts the rest of the model needs. */
module Text {

  predicate IsDigit(c: char) {
    '0' <= c <= '9'
  }

  predicate AllDigits(s: string) {
    forall i :: 0 <= i < |s| ==> IsDigit(s[i])
  }

  function DigitChar(d: int): (c: char)
    requires 0 <= d < 10
    ensures IsDigit(c) && c as int - '0' as int == d
  {
    ('0' as int + d) as char
  }

  /** The value of a string of decimal digits; the empty string reads as 0. */
  function ParseDigits(s: string): nat
    requires AllDigits(s)
  {
    if s == [] then 0 else 10 * ParseDigits(s[..|s| - 1]) + (s[|s| - 1] as int - '0' as int)
  }

  function Pow10(w: nat): (p: nat)
    ensures p >= 1
  {
    if w == 0 then 1 else 10 * Pow10(w - 1)
  }

  /** `n` written in exactly `width` digits, zero-padded on the left (strftime's %m, %d, %H, ...). */
  function Digits(n: nat, width: nat): (s: string)
    requires n < Pow10(width)
    ensures |s| == width && AllDigits(s)
    ensures ParseDigits(s) == n
  {
    if width == 0 then []
    else
      var s := Digits(n / 10, width - 1) + [DigitChar(n % 10)];
      assert s[..|s| - 1] == Digits(n / 10, width - 1);
      s
  }

  /** Python's `str(n)` for a non-negative integer: no leading zeros. */
  function NatToString(n: nat): (s: string)
    ensures |s| >= 1 && AllDigits(s)
    ensures ParseDigits(s) == n
    ensures |s| > 1 ==> s[0] != '0'
  {
    if n < 10 then [DigitChar(n)]
    else
      var s := NatToString(n / 10) + [DigitChar(n % 10)];
      assert s[..|s| - 1] == NatToString(n / 10);
      s
  }

  /** Python's `str(n)` for any integer. */
  function IntToString(n: int): (s: string)
    ensures |s| >= 1
    ensures forall i :: 0 <= i < |s| ==> IsDigit(s[i]) || (i == 0 && s[i] == '-')
  {
    if n < 0 then "-" + NatToString(-n) else NatToString(n)
  }

  /** Reads back what IntToString writes. */
  function ParseInt(s: string): int {
    if |s| >= 1 && s[0] == '-' && AllDigits(s[1..]) then -(ParseDigits(s[1..]) as int)
    else if AllDigits(s) then ParseDigits(s)
    else 0
  }

  lemma IntToStringRoundTrip(n: int)
    ensures ParseInt(IntToString(n)) == n
  {
    if n < 0 {
      var s := IntToString(n);
      assert s[1..] == NatToString(-n);
    }
  }

  /** Different integers have different decimal forms. */
  lemma IntToStringInjective(a: int, b: int)
    ensures IntToString(a) == IntToString(b) ==> a == b
  {
    IntToStringRoundTrip(a);
    IntToStringRoundTrip(b);
  }

  lemma NumeralHasNo(n: int, c: char)
    requires !IsDigit(c) && c != '-'
    ensures c !in IntToString(n)
  {
  }

  /** The position of the first `c` in `s`, or |s| when there is none. */
  function FirstIndex(s: string, c: char): (k: nat)
    ensures k <= |s|
  {
    if s == [] then 0 else if s[0] == c then 0 else 1 + FirstIndex(s[1..], c)
  }

  lemma {:induction false} FirstIndexAfter(a: string, c: char, x: string)
    requires c !in a
    ensures FirstIndex(a + [c] + x, c) == |a|
  {
    if a != [] {
      assert (a + [c] + x)[1..] == a[1..] + [c] + x;
      FirstIndexAfter(a[1..], c, x);
    }
  }

  /**
   * When two strings agree and each is a head, a separator and a tail, with no separator in
   * either head, the heads agree and so do the tails: the first separator is at the same place.
   */
  lemma SplitAtSeparator(a: string, x: string, b: string, y: string, sep: char)
    requires sep !in a && sep !in b
    requires a + [sep] + x == b + [sep] + y
    ensures a == b && x == y
  {
    FirstIndexAfter(a, sep, x);
    FirstIndexAfter(b, sep, y);
    var l := a + [sep] + x;
    assert a == l[..|a|] && x == l[|a| + 1..];
  }

  /** When two strings share a prefix, what follows it agrees. */
  lemma CancelPrefix(p: string, a: string, b: string)
    requires p + a == p + b
    ensures a == b
  {
    assert a == (p + a)[|p|..];
    assert b == (p + b)[|p|..];
  }

  /** When two strings share a suffix, what comes before it agrees. */
  lemma CancelSuffix(a: string, b: string, t: string)
    requires a + t == b + t
    ensures a == b
  {
    assert a == (a + t)[..|a|];
    assert b == (b + t)[..|b|];
  }

  /** Python's `s.split("/")[-1]`: the longest suffix of `s` without a '/'. */
  function LastSegment(s: string): (r: string)
    ensures '/' !in r
    ensures |r| <= |s| && r == s[|s| - |r|..]
    ensures |r| < |s| ==> s[|s| - |r| - 1] == '/'
  {
    if s == [] then []
    else if s[|s| - 1] == '/' then []
    else
      var init := s[..|s| - 1];
      var r := LastSegment(init) + [s[|s| - 1]];
      assert s == init + [s[|s| - 1]];
      r
  }

  lemma {:induction false} LastSegmentAfterSlash(dir: string, name: string)
    requires '/' !in name
    ensures LastSegment(dir + "/" + name) == name
  {
    if name != [] {
      var s := dir + "/" + name;
      var init := name[..|name| - 1];
      assert s[..|s| - 1] == dir + "/" + init;
      LastSegmentAfterSlash(dir, init);
      assert name == init + [name[|name| - 1]];
    }
  }

  // ---- Percent-encoding, as `urllib.parse.quote` with `safe="/"` does it ----

  /** The characters left as they are: ASCII letters and digits, `_.-~`, and '/'. */
  predicate UriSafe(c: char) {
    || ('A' <= c <= 'Z') || ('a' <= c <= 'z') || ('0' <= c <= '9')
    || c == '_' || c == '.' || c == '-' || c == '~' || c == '/'
  }

  predicate AllUriSafe(s: string) {
    forall i :: 0 <= i < |s| ==> UriSafe(s[i])
  }

  lemma AllUriSafeConcat(a: string, b: string)
    requires AllUriSafe(a) && AllUriSafe(b)
    ensures AllUriSafe(a + b)
  {
    forall i | 0 <= i < |a + b| ensures UriSafe((a + b)[i]) {
      if i >= |a| {
        assert (a + b)[i] == b[i - |a|];
      }
    }
  }

  /** A decimal numeral needs no escapes. */
  lemma NumeralUriSafe(n: int)
    ensures AllUriSafe(IntToString(n))
  {
  }

  /** The UTF-8 bytes of one character, as `os.fsencode` gives them on a UTF-8 file system. */
  function Utf8(c: char): (b: seq<int>)
    ensures 1 <= |b| <= 4 && forall i :: 0 <= i < |b| ==> 0 <= b[i] < 256
    ensures |b| == 1 <==> c as int < 0x80
    ensures |b| == 2 <==> 0x80 <= c as int < 0x800
    ensures |b| == 3 <==> 0x800 <= c as int < 0x1_0000
    ensures |b| == 1 ==> b[0] == c as int
    ensures |b| == 2 ==> 0xC0 <= b[0] < 0xE0
    ensures |b| == 3 ==> 0xE0 <= b[0] < 0xF0
    ensures |b| == 4 ==> 0xF0 <= b[0] < 0xF8
    ensures forall i :: 1 <= i < |b| ==> 0x80 <= b[i] < 0xC0
  {
    var n := c as int;
    if n < 0x80 then [n]
    else if n < 0x800 then [0xC0 + n / 0x40, 0x80 + n % 0x40]
    else if n < 0x1_0000 then [0xE0 + n / 0x1000, 0x80 + n / 0x40 % 0x40, 0x80 + n % 0x40]
    else [0xF0 + n / 0x4_0000 % 8, 0x80 + n / 0x1000 % 0x40, 0x80 + n / 0x40 % 0x40, 0x80 + n % 0x40]
  }

  /** The code point a well-formed UTF-8 sequence of one to four bytes stands for. */
  function Utf8Value(b: seq<int>): int
    requires 1 <= |b| <= 4
  {
    if |b| == 1 then b[0]
    else if |b| == 2 then (b[0] - 0xC0) * 0x40 + (b[1] - 0x80)
    else if |b| == 3 then (b[0] - 0xE0) * 0x1000 + (b[1] - 0x80) * 0x40 + (b[2] - 0x80)
    else (b[0] - 0xF0) * 0x4_0000 + (b[1] - 0x80) * 0x1000 + (b[2] - 0x80) * 0x40 + (b[3] - 0x80)
  }

  /** A code point splits into a high part and six low bits. */
  lemma SixBits(n: nat)
    ensures n / 0x40 * 0x40 + n % 0x40 == n
  {
  }

  /** Decoding the bytes gives back the character's code point. */
  lemma Utf8RoundTrip(c: char)
    ensures Utf8Value(Utf8(c)) == c as int
  {
    var n := c as int;
    SixBits(n);
    if n >= 0x800 {
      SixBits(n / 0x40);
      assert n / 0x40 / 0x40 == n / 0x1000;
      if n >= 0x1_0000 {
        SixBits(n / 0x1000);
        assert n / 0x1000 / 0x40 == n / 0x4_0000;
        assert n / 0x4_0000 < 8;
      }
    }
  }

  /** The upper-case hexadecimal digit of `d`. */
  function HexDigit(d: int): (c: char)
    requires 0 <= d < 16
    ensures c == "0123456789ABCDEF"[d]
    ensures UriSafe(c) && c != '/'
  {
    if d < 10 then (d + '0' as int) as char else (d - 10 + 'A' as int) as char
  }

  /** The escape `%XX` of one byte: '%', then its high and its low hexadecimal digit. */
  function Escape(b: int): string
    requires 0 <= b < 256
  {
    ['%', HexDigit(b / 16), HexDigit(b % 16)]
  }

  /** `%XX` for every byte. */
  function PercentBytes(bytes: seq<int>): (s: string)
    requires forall i :: 0 <= i < |bytes| ==> 0 <= bytes[i] < 256
    ensures |s| == 3 * |bytes|
  {
    if bytes == [] then [] else Escape(bytes[0]) + PercentBytes(bytes[1..])
  }

  /** The three characters at position 3i of the escapes are the escape of byte i. */
  lemma {:induction false} PercentBytesAt(bytes: seq<int>, i: nat)
    requires forall j :: 0 <= j < |bytes| ==> 0 <= bytes[j] < 256
    requires i < |bytes|
    ensures PercentBytes(bytes)[3 * i..3 * i + 3] == Escape(bytes[i])
  {
    if i > 0 {
      PercentBytesAt(bytes[1..], i - 1);
      SliceAfterPrefix(Escape(bytes[0]), PercentBytes(bytes[1..]), 3 * (i - 1));
    }
  }

  /** Three characters behind a prefix are three characters of what follows it. */
  lemma SliceAfterPrefix(a: string, b: string, k: nat)
    requires k + 3 <= |b|
    ensures (a + b)[|a| + k..|a| + k + 3] == b[k..k + 3]
  {
  }

  /** One character: itself when safe, else the `%XX` escapes of its UTF-8 bytes. */
  function QuoteChar(c: char): (q: string)
    ensures UriSafe(c) ==> q == [c]
    ensures !UriSafe(c) ==> |q| == 3 * |Utf8(c)|
  {
    if UriSafe(c) then [c] else PercentBytes(Utf8(c))
  }

  /** An unsafe character becomes one escape per UTF-8 byte, in byte order. */
  lemma QuoteCharEscapes(c: char, i: nat)
    requires !UriSafe(c) && i < |Utf8(c)|
    ensures QuoteChar(c)[3 * i..3 * i + 3] == Escape(Utf8(c)[i])
  {
    PercentBytesAt(Utf8(c), i);
  }

  function Quote(s: string): (q: string)
    ensures |q| >= |s|
  {
    if s == [] then [] else QuoteChar(s[0]) + Quote(s[1..])
  }

  lemma {:induction false} QuoteConcat(a: string, b: string)
    ensures Quote(a + b) == Quote(a) + Quote(b)
  {
    if a == [] {
      assert a + b == b;
    } else {
      assert (a + b)[0] == a[0] && (a + b)[1..] == a[1..] + b;
      QuoteConcat(a[1..], b);
    }
  }

  /** Quoting leaves a string unchanged exactly when every character of it is safe. */
  lemma {:induction false} QuoteIdentityIff(s: string)
    ensures Quote(s) == s <==> AllUriSafe(s)
  {
    if s != [] {
      QuoteIdentityIff(s[1..]);
      if AllUriSafe(s) {
        assert AllUriSafe(s[1..]) by {
          forall i | 0 <= i < |s[1..]| ensures UriSafe(s[1..][i]) {
            assert s[1..][i] == s[i + 1];
          }
        }
        assert s == [s[0]] + s[1..];
      } else if UriSafe(s[0]) {
        assert !AllUriSafe(s[1..]) by {
          var i :| 0 <= i < |s| && !UriSafe(s[i]);
          assert s[1..][i - 1] == s[i];
        }
      } else {
        assert |Quote(s)| > |s|;
      }
    }
  }

  /** Quoting a string followed by a safe tail quotes the string and keeps the tail. */
  lemma QuoteUnderSafe(a: string, t: string)
    requires AllUriSafe(t)
    ensures Quote(a + t) == Quote(a) + t
  {
    QuoteConcat(a, t);
    QuoteIdentityIff(t);
  }

  /** Dropping the first character of a string with a safe tail, then quoting, keeps the tail. */
  lemma QuoteAfterFirst(a: string, t: string)
    requires |a| >= 1 && AllUriSafe(t)
    ensures Quote((a + t)[1..]) == Quote(a[1..]) + t
  {
    assert (a + t)[1..] == a[1..] + t;
    QuoteUnderSafe(a[1..], t);
  }

  /** A leading '/' is kept as it is. */
  lemma QuoteLeadingSlash(p: string)
    requires |p| >= 1 && p[0] == '/'
    ensures Quote(p) == "/" + Quote(p[1..])
  {
  }

  /** Behind a safe first character, a string is safe exactly when its tail is. */
  lemma AllUriSafeTail(p: string)
    requires |p| >= 1 && UriSafe(p[0])
    ensures AllUriSafe(p) <==> AllUriSafe(p[1..])
  {
    if AllUriSafe(p[1..]) {
      forall i | 0 <= i < |p| ensures UriSafe(p[i]) {
        if i > 0 {
          assert p[i] == p[1..][i - 1];
        }
      }
    }
  }

  /** Followed by a safe tail, a string is safe exactly when it was safe before. */
  lemma AllUriSafeBeforeSafe(a: string, t: string)
    requires AllUriSafe(t)
    ensures AllUriSafe(a + t) <==> AllUriSafe(a)
  {
    if AllUriSafe(a) {
      AllUriSafeConcat(a, t);
    } else {
      var i :| 0 <= i < |a| && !UriSafe(a[i]);
      assert (a + t)[i] == a[i];
    }
  }

  lemma LastSegmentUnder(prefix: string, dir: string, name: string)
    requires '/' !in name
    ensures LastSegment(prefix + (dir + "/" + name)) == name
  {
    assert prefix + (dir + "/" + name) == (prefix + dir) + "/" + name;
    LastSegmentAfterSlash(prefix + dir, name);
  }

  /** Python's `<` on strings: lexicographic by code point. */
  predicate StrLt(a: string, b: string) {
    if a == [] then b != []
    else if b == [] then false
    else if a[0] != b[0] then a[0] < b[0]
    else StrLt(a[1..], b[1..])
  }

  lemma {:induction false} StrLtIrreflexive(a: string)
    ensures !StrLt(a, a)
  {
    if a != [] {
      StrLtIrreflexive(a[1..]);
    }
  }

  lemma {:induction false} StrLtTransitive(a: string, b: string, c: string)
    requires StrLt(a, b) && StrLt(b, c)
    ensures StrLt(a, c)
  {
    if a != [] && a[0] == b[0] && b[0] == c[0] {
      StrLtTransitive(a[1..], b[1..], c[1..]);
    }
  }

  lemma {:induction false} StrLtTotal(a: string, b: string)
    ensures a == b || StrLt(a, b) || StrLt(b, a)
  {
    if a != [] && b != [] && a[0] == b[0] {
      StrLtTotal(a[1..], b[1..]);
      if a[1..] == b[1..] {
        assert a == [a[0]] + a[1..] && b == [b[0]] + b[1..];
      }
    }
  }
}
