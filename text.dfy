/** Character and string helpers shared by the encoder and the form:
    decimal digits, Python's `str(int)`, zero padding, ASCII case mapping
    and `sep.join(parts)`. */
module Text {

  predicate IsDigit(c: char) { '0' <= c <= '9' }

  predicate AllDigits(s: string) { forall i :: 0 <= i < |s| ==> IsDigit(s[i]) }

  function DigitChar(d: nat): (c: char)
    requires d < 10
    ensures IsDigit(c) && c as int - '0' as int == d
  {
    ('0' as int + d) as char
  }

  function DigitValue(c: char): (d: nat)
    requires IsDigit(c)
    ensures d < 10 && DigitChar(d) == c
  {
    c as int - '0' as int
  }

  function Pow10(k: nat): (p: nat)
    ensures p >= 1
  {
    if k == 0 then 1 else 10 * Pow10(k - 1)
  }

  /** The decimal numeral of `n`, most significant digit first, without
      leading zeros: what Python's `str` gives for a non-negative int. */
  function NatToDigits(n: nat): (s: string)
    ensures |s| > 0 && AllDigits(s)
    ensures s[0] == '0' ==> n == 0
  {
    if n < 10 then [DigitChar(n)] else NatToDigits(n / 10) + [DigitChar(n % 10)]
  }

  /** The number a string of decimal digits denotes (leading zeros allowed). */
  function DigitsValue(s: string): nat
    requires AllDigits(s)
  {
    if s == [] then 0 else 10 * DigitsValue(s[..|s| - 1]) + DigitValue(s[|s| - 1])
  }

  lemma {:induction false} DigitsRoundTrip(n: nat)
    ensures DigitsValue(NatToDigits(n)) == n
  {
    var s := NatToDigits(n);
    if n >= 10 {
      assert s[..|s| - 1] == NatToDigits(n / 10);
      DigitsRoundTrip(n / 10);
    }
  }

  /** Python's `str(n)` for an int: a minus sign, then the digits. */
  function IntToString(n: int): (s: string)
    ensures |s| > 0
    ensures n >= 0 ==> AllDigits(s) && DigitsValue(s) == n
    ensures n < 0 ==> s[0] == '-' && AllDigits(s[1..]) && DigitsValue(s[1..]) == -n
  {
    DigitsRoundTrip(if n >= 0 then n else -n);
    if n >= 0 then NatToDigits(n) else "-" + NatToDigits(-n)
  }

  function Zeros(k: nat): (s: string)
    ensures |s| == k && AllDigits(s)
  {
    seq(k, _ => '0')
  }

  function Max(a: int, b: int): int { if a >= b then a else b }

  /** `s` preceded by as many '0' characters as make it `w` long; `s`
      itself when it is already that long (the `0` flag of a format spec). */
  function LeftZeros(s: string, w: int): (r: string)
    ensures |r| == Max(w, |s|)
  {
    Zeros(Max(w, |s|) - |s|) + s
  }

  lemma AllDigitsConcat(a: string, b: string)
    requires AllDigits(a) && AllDigits(b)
    ensures AllDigits(a + b)
  {
    forall i | 0 <= i < |a + b|
      ensures IsDigit((a + b)[i])
    {
      if i >= |a| {
        assert (a + b)[i] == b[i - |a|];
      }
    }
  }

  /** Zero-filling a numeral keeps it a numeral of the same value. */
  lemma LeftZerosValue(s: string, w: int)
    requires AllDigits(s)
    ensures AllDigits(LeftZeros(s, w)) && DigitsValue(LeftZeros(s, w)) == DigitsValue(s)
  {
    var k := Max(w, |s|) - |s|;
    AllDigitsConcat(Zeros(k), s);
    LeadingZerosValue(k, s);
  }

  lemma {:induction false} LeadingZerosValue(k: nat, s: string)
    requires AllDigits(s)
    ensures DigitsValue(Zeros(k) + s) == DigitsValue(s)
    decreases |s|
  {
    var t := Zeros(k) + s;
    if s == [] {
      assert t == Zeros(k);
      ZerosValue(k);
    } else {
      assert t[..|t| - 1] == Zeros(k) + s[..|s| - 1];
      LeadingZerosValue(k, s[..|s| - 1]);
    }
  }

  lemma {:induction false} ZerosValue(k: nat)
    ensures DigitsValue(Zeros(k)) == 0
  {
    if k > 0 {
      assert Zeros(k)[..k - 1] == Zeros(k - 1);
      ZerosValue(k - 1);
    }
  }

  /** Appending a digit shifts the value by one decimal place. */
  lemma AppendDigitValue(s: string, c: char)
    requires AllDigits(s) && IsDigit(c)
    ensures AllDigits(s + [c]) && DigitsValue(s + [c]) == 10 * DigitsValue(s) + DigitValue(c)
  {
    assert (s + [c])[..|s|] == s;
  }

  lemma {:induction false} TrailingZerosValue(s: string, d: nat)
    requires AllDigits(s)
    ensures DigitsValue(s + Zeros(d)) == DigitsValue(s) * Pow10(d)
  {
    if d == 0 {
      assert s + Zeros(d) == s;
    } else {
      var u := s + Zeros(d - 1);
      assert s + Zeros(d) == u + "0";
      AppendDigitValue(u, '0');
      TrailingZerosValue(s, d - 1);
      MulLeft(10, DigitsValue(s), Pow10(d - 1));
    }
  }

  lemma MulLeft(a: int, b: int, c: int)
    ensures a * (b * c) == b * (a * c)
  {
  }

  /** `s` with every occurrence of `c` removed (Python's `s.replace(c, "")`). */
  function Remove(s: string, c: char): (r: string)
  {
    if s == [] then [] else (if s[0] == c then [] else [s[0]]) + Remove(s[1..], c)
  }

  lemma {:induction false} RemoveAppend(a: string, b: string, c: char)
    ensures Remove(a + b, c) == Remove(a, c) + Remove(b, c)
  {
    if a != [] {
      assert (a + b)[1..] == a[1..] + b;
      RemoveAppend(a[1..], b, c);
    } else {
      assert a + b == b;
    }
  }

  lemma RemoveLeading(c: char, s: string)
    ensures Remove([c] + s, c) == Remove(s, c)
  {
    assert ([c] + s)[1..] == s;
  }

  /** A run of digits has no point to delete. */
  lemma {:induction false} RemovePointFromDigits(s: string)
    requires AllDigits(s)
    ensures Remove(s, '.') == s
  {
    if s != [] {
      assert IsDigit(s[0]);
      RemovePointFromDigits(s[1..]);
      assert [s[0]] + s[1..] == s;
    }
  }

  /** ASCII upper-casing of one character; every other character is kept. */
  function UpperChar(c: char): (u: char)
  {
    if 'a' <= c <= 'z' then (c as int - 32) as char else c
  }

  function Upper(s: string): (r: string)
    ensures |r| == |s| && forall i :: 0 <= i < |s| ==> r[i] == UpperChar(s[i])
  {
    seq(|s|, i requires 0 <= i < |s| => UpperChar(s[i]))
  }

  function LowerChar(c: char): (l: char)
  {
    if 'A' <= c <= 'Z' then (c as int + 32) as char else c
  }

  function Lower(s: string): (r: string)
    ensures |r| == |s| && forall i :: 0 <= i < |s| ==> r[i] == LowerChar(s[i])
  {
    seq(|s|, i requires 0 <= i < |s| => LowerChar(s[i]))
  }

  /** Python's `sep.join(parts)`. */
  function Join(sep: string, parts: seq<string>): (r: string)
  {
    if parts == [] then ""
    else if |parts| == 1 then parts[0]
    else parts[0] + sep + Join(sep, parts[1..])
  }

  /** Joining a list of at least two parts: the first part, the
      separator, then the rest joined. */
  lemma JoinCons(sep: string, x: string, rest: seq<string>)
    requires rest != []
    ensures Join(sep, [x] + rest) == x + sep + Join(sep, rest)
  {
    assert ([x] + rest)[1..] == rest;
  }

  lemma {:induction false} JoinAppend(sep: string, a: seq<string>, b: seq<string>)
    requires a != [] && b != []
    ensures Join(sep, a + b) == Join(sep, a) + sep + Join(sep, b)
  {
    if |a| == 1 {
      assert (a + b)[1..] == b;
    } else {
      assert (a + b)[1..] == a[1..] + b;
      JoinAppend(sep, a[1..], b);
    }
  }

  /** Python's `s.split(c)` for a one-character separator. */
  function Split(s: string, c: char): (parts: seq<string>)
    ensures |parts| >= 1
  {
    if s == [] then [""]
    else if s[0] == c then [""] + Split(s[1..], c)
    else
      var rest := Split(s[1..], c);
      [[s[0]] + rest[0]] + rest[1..]
  }

  /** Joining the parts with the separator gives the string back. */
  lemma {:induction false} SplitJoin(s: string, c: char)
    ensures Join([c], Split(s, c)) == s
  {
    if s != [] {
      var rest := Split(s[1..], c);
      SplitJoin(s[1..], c);
      if s[0] == c {
        JoinCons([c], "", rest);
      } else {
        JoinExtendFirst([c], s[0], rest);
      }
      assert s == [s[0]] + s[1..];
    }
  }

  /** Prefixing the first part with `x` prefixes the joined string. */
  lemma JoinExtendFirst(sep: string, x: char, parts: seq<string>)
    requires parts != []
    ensures Join(sep, [[x] + parts[0]] + parts[1..]) == [x] + Join(sep, parts)
  {
    var ext := [[x] + parts[0]] + parts[1..];
    if |parts| == 1 {
      assert ext == [[x] + parts[0]];
    } else {
      assert ext[1..] == parts[1..];
      assert [x] + parts[0] + sep + Join(sep, parts[1..]) == [x] + (parts[0] + sep + Join(sep, parts[1..]));
    }
  }

  /** A string without the separator is its own single part. */
  lemma {:induction false} SplitAbsent(s: string, c: char)
    requires forall i :: 0 <= i < |s| ==> s[i] != c
    ensures Split(s, c) == [s]
  {
    if s != [] {
      SplitAbsent(s[1..], c);
      assert [s[0]] + s[1..] == s;
    }
  }

  lemma {:induction false} SplitFirst(a: string, c: char, b: string)
    requires forall i :: 0 <= i < |a| ==> a[i] != c
    ensures Split(a + [c] + b, c) == [a] + Split(b, c)
  {
    if a == [] {
      assert (a + [c] + b)[1..] == b;
    } else {
      assert (a + [c] + b)[1..] == a[1..] + [c] + b;
      SplitFirst(a[1..], c, b);
      assert [a[0]] + a[1..] == a;
    }
  }
}
