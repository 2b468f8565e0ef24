/** The small part of java.lang.String and java.lang.Integer that the importer
    relies on: trim, split with a positive limit, and decimal rendering of an
    int. Dafny chars are Unicode scalar values where Java's are UTF-16 code
    units; this does not matter here, since trim, `\d` and the `-`
    separator only look at chars up to U+0020, ASCII digits and `-`. */
module JavaStrings {

  datatype Option<T> = None | Some(value: T)

  /** String.trim removes every leading and trailing char whose code is at
      most U+0020 (space and all control characters). */
  predicate IsTrimmable(c: char) {
    c <= ' '
  }

  predicate IsAsciiDigit(c: char) {
    '0' <= c <= '9'
  }

  predicate AllTrimmable(s: string) {
    forall k :: 0 <= k < |s| ==> IsTrimmable(s[k])
  }

  /** String.trim: drops trimmable chars from both ends until neither end
      is trimmable; empty when every char is trimmable. */
  function Trim(s: string): (r: string)
    ensures |r| <= |s|
    ensures r == [] <==> AllTrimmable(s)
    ensures r != [] ==> !IsTrimmable(r[0]) && !IsTrimmable(r[|r| - 1])
  {
    if s != [] && IsTrimmable(s[0]) then
      assert AllTrimmable(s) <==> AllTrimmable(s[1..]) by {
        assert forall k :: 1 <= k < |s| ==> s[k] == s[1..][k - 1];
      }
      Trim(s[1..])
    else if s != [] && IsTrimmable(s[|s| - 1]) then
      assert AllTrimmable(s) <==> AllTrimmable(s[..|s| - 1]) by {
        assert forall k :: 0 <= k < |s| - 1 ==> s[k] == s[..|s| - 1][k];
      }
      Trim(s[..|s| - 1])
    else
      s
  }

  /** A string whose ends are not trimmable is its own trim. */
  lemma TrimOfTrimmed(s: string)
    requires s != [] ==> !IsTrimmable(s[0]) && !IsTrimmable(s[|s| - 1])
    ensures Trim(s) == s
  {
  }

  /** What trim keeps: a middle slice of the input, with only trimmable
      chars cut off before it and after it. */
  lemma {:induction false} TrimIsMiddle(s: string)
    ensures exists i, j :: 0 <= i <= j <= |s| && Trim(s) == s[i..j] && AllTrimmable(s[..i]) && AllTrimmable(s[j..])
    decreases |s|
  {
    if s != [] && IsTrimmable(s[0]) {
      var t := s[1..];
      TrimIsMiddle(t);
      var i, j :| 0 <= i <= j <= |t| && Trim(t) == t[i..j] && AllTrimmable(t[..i]) && AllTrimmable(t[j..]);
      DropFirstMiddle(s, i, j);
    } else if s != [] && IsTrimmable(s[|s| - 1]) {
      var t := s[..|s| - 1];
      TrimIsMiddle(t);
      var i, j :| 0 <= i <= j <= |t| && Trim(t) == t[i..j] && AllTrimmable(t[..i]) && AllTrimmable(t[j..]);
      DropLastMiddle(s, i, j);
    } else {
      assert Trim(s) == s[0..|s|];
      assert AllTrimmable(s[..0]) && AllTrimmable(s[|s|..]);
    }
  }

  lemma DropFirstMiddle(s: string, i: nat, j: nat)
    requires s != [] && IsTrimmable(s[0]) && i <= j <= |s| - 1
    requires AllTrimmable(s[1..][..i]) && AllTrimmable(s[1..][j..])
    ensures s[1..][i..j] == s[i + 1..j + 1]
    ensures AllTrimmable(s[..i + 1]) && AllTrimmable(s[j + 1..])
  {
    var t := s[1..];
    assert t[j..] == s[j + 1..];
    var pre := s[..i + 1];
    forall k | 0 <= k < |pre|
      ensures IsTrimmable(pre[k])
    {
      if k > 0 {
        assert pre[k] == t[..i][k - 1];
      }
    }
  }

  lemma DropLastMiddle(s: string, i: nat, j: nat)
    requires s != [] && IsTrimmable(s[|s| - 1]) && i <= j <= |s| - 1
    requires AllTrimmable(s[..|s| - 1][..i]) && AllTrimmable(s[..|s| - 1][j..])
    ensures s[..|s| - 1][i..j] == s[i..j]
    ensures AllTrimmable(s[..i]) && AllTrimmable(s[j..])
  {
    var t := s[..|s| - 1];
    assert t[..i] == s[..i];
    var post := s[j..];
    forall k | 0 <= k < |post|
      ensures IsTrimmable(post[k])
    {
      if j + k < |s| - 1 {
        assert post[k] == t[j..][k];
      }
    }
  }

  lemma TrimIdempotent(s: string)
    ensures Trim(Trim(s)) == Trim(s)
  {
    var t := Trim(s);
    TrimOfTrimmed(t);
  }

  /** Trimmable chars in front of a string do not change its trim. */
  lemma {:induction false} TrimDropPrefix(p: string, s: string)
    requires AllTrimmable(p)
    ensures Trim(p + s) == Trim(s)
    decreases |p|
  {
    if p == [] {
      assert p + s == s;
    } else {
      var rest := p[1..];
      assert (p + s)[1..] == rest + s;
      assert AllTrimmable(rest) by {
        forall k | 0 <= k < |rest| ensures IsTrimmable(rest[k]) {
          assert rest[k] == p[k + 1];
        }
      }
      TrimDropPrefix(rest, s);
    }
  }

  /** Trimmable chars after a string do not change its trim. */
  lemma {:induction false} TrimDropSuffix(s: string, q: string)
    requires AllTrimmable(q)
    ensures Trim(s + q) == Trim(s)
    decreases |s| + |q|
  {
    var t := s + q;
    if q == [] {
      assert t == s;
    } else if s == [] {
      assert t == q;
    } else if IsTrimmable(s[0]) {
      assert t[0] == s[0];
      assert t[1..] == s[1..] + q;
      TrimDropSuffix(s[1..], q);
    } else {
      var init := q[..|q| - 1];
      assert t[0] == s[0];
      assert t[|t| - 1] == q[|q| - 1];
      assert t[..|t| - 1] == s + init;
      assert AllTrimmable(init) by {
        forall k | 0 <= k < |init| ensures IsTrimmable(init[k]) {
          assert init[k] == q[k];
        }
      }
      TrimDropSuffix(s, init);
    }
  }

  lemma TrimmableBefore(s: string, i: nat)
    requires i <= |s| && AllTrimmable(s[..i])
    ensures forall p :: 0 <= p < i ==> IsTrimmable(s[p])
  {
    forall p | 0 <= p < i ensures IsTrimmable(s[p]) {
      assert s[..i][p] == s[p];
    }
  }

  lemma TrimmableFrom(s: string, j: nat)
    requires j <= |s| && AllTrimmable(s[j..])
    ensures forall p :: j <= p < |s| ==> IsTrimmable(s[p])
  {
    forall p | j <= p < |s| ensures IsTrimmable(s[p]) {
      assert s[j..][p - j] == s[p];
    }
  }

  lemma SlicesOfThree(x: string, m: string, y: string, i: nat, k: nat)
    requires i <= |x| && k <= |y|
    ensures (x + m + y)[..i] == x[..i]
    ensures (x + m + y)[|x| + |m| + k..] == y[k..]
    ensures (x + m + y)[i..|x| + |m| + k] == x[i..] + m + y[..k]
  {
  }

  /** Trimming a string whose middle part m begins and ends with a kept
      char cuts only into the parts before and after m. */
  lemma TrimAroundTight(x: string, m: string, y: string) returns (i: nat, k: nat)
    requires m != [] && !IsTrimmable(m[0]) && !IsTrimmable(m[|m| - 1])
    ensures i <= |x| && k <= |y| && AllTrimmable(x[..i]) && AllTrimmable(y[k..])
    ensures Trim(x + m + y) == x[i..] + m + y[..k]
  {
    var s := x + m + y;
    TrimIsMiddle(s);
    var i', j :| 0 <= i' <= j <= |s| && Trim(s) == s[i'..j] && AllTrimmable(s[..i']) && AllTrimmable(s[j..]);
    i := i';
    assert s[|x|] == m[0] && s[|x| + |m| - 1] == m[|m| - 1];
    TrimmableBefore(s, i);
    TrimmableFrom(s, j);
    k := j - |x| - |m|;
    SlicesOfThree(x, m, y, i, k);
  }

  function CountChar(s: string, c: char): (n: nat)
    ensures n <= |s|
    ensures n == 0 <==> c !in s
  {
    if s == [] then 0 else (if s[0] == c then 1 else 0) + CountChar(s[1..], c)
  }

  lemma {:induction false} CountCharAppend(a: string, b: string, c: char)
    ensures CountChar(a + b, c) == CountChar(a, c) + CountChar(b, c)
  {
    if a == [] {
      assert a + b == b;
    } else {
      assert (a + b)[1..] == a[1..] + b;
      CountCharAppend(a[1..], b, c);
    }
  }

  /** String.indexOf(c), with |s| standing for Java's -1. */
  function IndexOf(s: string, c: char): (i: nat)
    ensures i <= |s|
    ensures i < |s| ==> s[i] == c
    ensures c !in s[..i]
  {
    if s == [] || s[0] == c then 0 else 1 + IndexOf(s[1..], c)
  }

  function Min(a: nat, b: nat): nat {
    if a <= b then a else b
  }

  /** The inverse of splitting: the parts glued back with the separator. */
  function Join(parts: seq<string>, sep: char): string
    requires parts != []
  {
    if |parts| == 1 then parts[0] else parts[0] + [sep] + Join(parts[1..], sep)
  }

  /** String.split(String.valueOf(sep), limit) for limit >= 1: the separator
      is matched at most limit - 1 times, from the left; empty leading and
      trailing parts are kept, and the last part holds all the rest. */
  function SplitLimit(s: string, sep: char, limit: nat): (parts: seq<string>)
    requires limit >= 1
    ensures |parts| == Min(CountChar(s, sep) + 1, limit)
    ensures Join(parts, sep) == s
    ensures forall k :: 0 <= k < |parts| - 1 ==> sep !in parts[k]
  {
    var i := IndexOf(s, sep);
    if limit == 1 || i == |s| then
      assert i == |s| ==> s[..i] == s;
      [s]
    else
      var rest := SplitLimit(s[i + 1..], sep, limit - 1);
      assert s == s[..i] + [sep] + s[i + 1..];
      CountCharAppend(s[..i] + [sep], s[i + 1..], sep);
      CountCharAppend(s[..i], [sep], sep);
      assert ([s[..i]] + rest)[1..] == rest;
      [s[..i]] + rest
  }

  function DigitChar(d: nat): (c: char)
    requires d < 10
    ensures IsAsciiDigit(c)
  {
    ('0' as int + d) as char
  }

  function DigitValue(c: char): nat
    requires IsAsciiDigit(c)
  {
    c as int - '0' as int
  }

  /** Integer.toString for a non-negative value: decimal digits, no sign,
      no leading zero. */
  function Decimal(n: nat): (r: string)
    ensures r != []
    ensures forall k :: 0 <= k < |r| ==> IsAsciiDigit(r[k])
    ensures |r| > 1 ==> r[0] != '0'
  {
    if n < 10 then [DigitChar(n)] else Decimal(n / 10) + [DigitChar(n % 10)]
  }

  /** Reads a run of decimal digits back as a number. */
  function DecimalValue(s: string): nat
    requires forall k :: 0 <= k < |s| ==> IsAsciiDigit(s[k])
  {
    if s == [] then 0 else DecimalValue(s[..|s| - 1]) * 10 + DigitValue(s[|s| - 1])
  }

  lemma {:induction false} DecimalRoundTrip(n: nat)
    ensures DecimalValue(Decimal(n)) == n
  {
    if n >= 10 {
      var r := Decimal(n);
      assert r[..|r| - 1] == Decimal(n / 10);
      DecimalRoundTrip(n / 10);
    }
  }

  /** The longest prefix of s made of ASCII digits. */
  function LeadingDigits(s: string): (d: string)
    ensures |d| <= |s| && d == s[..|d|]
    ensures forall k :: 0 <= k < |d| ==> IsAsciiDigit(d[k])
    ensures |d| < |s| ==> !IsAsciiDigit(s[|d|])
  {
    if s != [] && IsAsciiDigit(s[0]) then [s[0]] + LeadingDigits(s[1..]) else []
  }

  lemma {:induction false} LeadingDigitsOfDigitsThen(d: string, rest: string)
    requires forall k :: 0 <= k < |d| ==> IsAsciiDigit(d[k])
    requires rest != [] && !IsAsciiDigit(rest[0])
    ensures LeadingDigits(d + rest) == d
  {
    if d != [] {
      assert (d + rest)[1..] == d[1..] + rest;
      LeadingDigitsOfDigitsThen(d[1..], rest);
    } else {
      assert d + rest == rest;
    }
  }
}
