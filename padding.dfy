/** `pad_number(n, pad)` of app.py: how a number field's value is written
    into the long code, directed by the field's Pad cell. */
module Padding {
  import opened Wrappers
  import opened Text
  import opened Schema

  /** The exceptions `pad_number` can raise. */
  datatype PadError =
    | NotANumber           // float()/int() of a value that is not a number
    | NegativeWidth        // a negative width makes the format spec invalid
    | MalformedFixedPoint  // a "w.d" spec that is not two integers around one point

  /** A width or decimal count read from text: a non-empty run of ASCII
      digits, read in base ten. */
  function ParseCount(s: string): (r: Option<nat>)
    ensures r.Some? <==> s != [] && AllDigits(s)
    ensures r.Some? ==> r.value == DigitsValue(s)
  {
    if s != [] && AllDigits(s) then Some(DigitsValue(s)) else None
  }

  /** The sign, then the digits zero-filled so that sign and digits
      together are at least `w` characters wide. */
  function ZeroPadInt(n: int, w: nat): string
  {
    if n >= 0 then LeftZeros(NatToDigits(n), w)
    else "-" + LeftZeros(NatToDigits(-n), w - 1)
  }

  /** An integral `n` printed with `d` zero decimals after a point (no
      point when `d` is 0), zero-filled to width `w`. */
  function FixedPoint(n: int, w: nat, d: nat): string
  {
    var digits := NatToDigits(if n >= 0 then n else -n);
    var body := if d > 0 then digits + ("." + Zeros(d)) else digits;
    if n >= 0 then LeftZeros(body, w) else "-" + LeftZeros(body, w - 1)
  }

  /** The number Python's float and int conversions read from a stored
      value: a number is itself, text is read when it is a run of ASCII
      digits, and anything else cannot be converted. */
  function NumericValue(v: Value): (r: Option<int>)
    ensures v.Number? ==> r == Some(v.n)
    ensures v.Text? ==> (r.Some? <==> v.s != [] && AllDigits(v.s))
    ensures v.Text? && r.Some? ==> r.value == DigitsValue(v.s)
    ensures v.NoValue? || v.Choices? ==> r == None
  {
    match v
    case Number(n) => Some(n)
    case Text(s) => if s != [] && AllDigits(s) then Some(DigitsValue(s)) else None
    case _ => None
  }

  /** Without a pad: the value as a whole number. */
  function Unpadded(v: Value): Result<string, PadError>
  {
    match NumericValue(v)
    case Some(n) => Ok(IntToString(n))
    case None => Err(NotANumber)
  }

  /** With a width: the value as a whole number, zero-filled to the width. */
  function WidthPadded(v: Value, w: int): Result<string, PadError>
  {
    match NumericValue(v)
    case None => Err(NotANumber)
    case Some(n) => if w < 0 then Err(NegativeWidth) else Ok(ZeroPadInt(n, w))
  }

  /** With a "w.d" spec: the spec is split at the point, the value printed
      with d decimals in width w, then the point deleted. */
  function FixedPointPadded(v: Value, spec: string): Result<string, PadError>
  {
    var parts := Split(spec, '.');
    if |parts| != 2 then Err(MalformedFixedPoint)
    else match NumericValue(v)
      case None => Err(NotANumber)
      case Some(n) =>
        match (ParseCount(parts[0]), ParseCount(parts[1]))
        case (Some(w), Some(d)) => Ok(Remove(FixedPoint(n, w, d), '.'))
        case _ => Err(MalformedFixedPoint)
  }

  function PadNumber(v: Value, pad: PadSpec): Result<string, PadError>
  {
    match pad
    case PadMissing => Unpadded(v)
    case PadNum(w) => WidthPadded(v, w)
    case PadText(s) =>
      if s == "" then Unpadded(v)
      else if AllDigits(s) then WidthPadded(v, DigitsValue(s))
      else if '.' in s then FixedPointPadded(v, s)
      else Ok(ToText(v))
  }

  /** A text Pad that is neither blank, nor digits, nor contains a point:
      the value is written as Python prints it, whatever it is. */
  predicate PlainTextPad(pad: PadSpec)
  {
    pad.PadText? && pad.s != "" && !AllDigits(pad.s) && '.' !in pad.s
  }

  /** A Pad cell `pad_number` accepts for a number: blank, a non-negative
      number, or text that is digits, has no point, or is two digit runs
      around one point. */
  predicate WellFormedPad(pad: PadSpec)
  {
    match pad
    case PadMissing => true
    case PadNum(w) => w >= 0
    case PadText(s) =>
      AllDigits(s) || '.' !in s || exists i | 0 <= i < |s| :: PointAt(s, i)
  }

  /** `s` is two non-empty digit runs around a point at position `i`. */
  predicate PointAt(s: string, i: int)
  {
    0 < i < |s| - 1 && s[i] == '.' && AllDigits(s[..i]) && AllDigits(s[i + 1..])
  }

  /** Two digit runs around one point split into exactly those runs. */
  lemma SplitPointed(a: string, b: string)
    requires AllDigits(a) && AllDigits(b)
    ensures Split(a + "." + b, '.') == [a, b]
  {
    SplitFirst(a, '.', b);
    SplitAbsent(b, '.');
  }

  /** A text spec is two digit runs around one point exactly when the
      Python split at "." yields two parts that both parse as integers. */
  lemma FixedPointSpecShape(s: string)
    ensures (var parts := Split(s, '.');
             |parts| == 2 && ParseCount(parts[0]).Some? && ParseCount(parts[1]).Some?)
        <==> exists i :: PointAt(s, i)
  {
    var parts := Split(s, '.');
    if |parts| == 2 && ParseCount(parts[0]).Some? && ParseCount(parts[1]).Some? {
      SplitJoin(s, '.');
      var i := |parts[0]|;
      assert s == parts[0] + "." + parts[1];
      assert s[..i] == parts[0] && s[i + 1..] == parts[1];
      assert PointAt(s, i);
    }
    if exists i :: PointAt(s, i) {
      var i :| PointAt(s, i);
      assert s == s[..i] + "." + s[i + 1..];
      SplitPointed(s[..i], s[i + 1..]);
    }
  }

  /** Padding fails exactly when the Pad is not plain text and either the
      value cannot be read as a number or the Pad is malformed. */
  lemma PadNumberTotal(v: Value, pad: PadSpec)
    ensures PadNumber(v, pad).Ok? <==> PlainTextPad(pad) || (NumericValue(v).Some? && WellFormedPad(pad))
  {
    if pad.PadText? {
      FixedPointSpecShape(pad.s);
    }
  }

  /** A digit-run text value pads exactly like the number it reads as,
      under every Pad except plain text. */
  lemma TextValuePadding(s: string, pad: PadSpec)
    requires s != [] && AllDigits(s) && !PlainTextPad(pad)
    ensures PadNumber(Text(s), pad) == PadNumber(Number(DigitsValue(s)), pad)
  {
  }

  /** Text "12" is written "12" without a pad and "012" three wide; "007"
      without a pad loses its zeros. */
  lemma TextValueExamples()
    ensures PadNumber(Text("12"), PadMissing) == Ok("12")
    ensures PadNumber(Text("12"), PadNum(3)) == Ok("012")
    ensures PadNumber(Text("007"), PadMissing) == Ok("7")
  {
    assert AllDigits("12") && AllDigits("007");
    assert DigitsValue("12") == 12;
    assert DigitsValue("007") == 7;
    assert NatToDigits(12) == "12" && NatToDigits(7) == "7";
    assert LeftZeros("12", 3) == "012";
  }

  /** An integer width `w` (a number cell or a digit string) zero-fills a
      non-negative value to at least `w` digits that read back to it. */
  lemma WidthPadding(n: int, pad: PadSpec, w: nat)
    requires n >= 0
    requires pad == PadNum(w) || (pad.PadText? && pad.s != "" && AllDigits(pad.s) && DigitsValue(pad.s) == w)
    ensures PadNumber(Number(n), pad).Ok?
    ensures var r := PadNumber(Number(n), pad).value;
      |r| == Max(w, |NatToDigits(n)|) && AllDigits(r) && DigitsValue(r) == n
  {
    var digits := NatToDigits(n);
    assert PadNumber(Number(n), pad) == Ok(LeftZeros(digits, w));
    LeftZerosValue(digits, w);
    DigitsRoundTrip(n);
  }

  /** For a negative value the minus sign takes one of the `w` places. */
  lemma NegativeWidthPadding(n: int, w: nat)
    requires n < 0
    ensures var r := PadNumber(Number(n), PadNum(w)).value;
      PadNumber(Number(n), PadNum(w)).Ok? &&
      |r| == Max(w, 1 + |NatToDigits(-n)|) && r[0] == '-' &&
      AllDigits(r[1..]) && DigitsValue(r[1..]) == -n
  {
    assert PadNumber(Number(n), PadNum(w)) == Ok(ZeroPadInt(n, w));
    NegativeZeroPad(n, w);
  }

  lemma NegativeZeroPad(n: int, w: nat)
    requires n < 0
    ensures var r := ZeroPadInt(n, w);
      |r| == Max(w, 1 + |NatToDigits(-n)|) && r[0] == '-' &&
      AllDigits(r[1..]) && DigitsValue(r[1..]) == -n
  {
    var body := LeftZeros(NatToDigits(-n), w - 1);
    assert ZeroPadInt(n, w) == "-" + body;
    assert ("-" + body)[1..] == body;
    LeftZerosValue(NatToDigits(-n), w - 1);
    DigitsRoundTrip(-n);
  }

  /** Deleting the point of a zero-filled fixed-point numeral. */
  lemma RemovePoint(k: nat, digits: string, d: nat)
    requires AllDigits(digits)
    ensures Remove(Zeros(k) + (digits + ("." + Zeros(d))), '.') == Zeros(k) + (digits + Zeros(d))
  {
    RemoveAppend(Zeros(k), digits + ("." + Zeros(d)), '.');
    RemoveAppend(digits, "." + Zeros(d), '.');
    RemoveLeading('.', Zeros(d));
    RemovePointFromDigits(Zeros(k));
    RemovePointFromDigits(digits);
    RemovePointFromDigits(Zeros(d));
  }

  /** A "w.d" text spec formats with width `w` and `d` decimals and deletes
      the point; `FixedPointDigits` says what that gives. */
  lemma FixedPointBranch(n: int, ws: string, ds: string)
    requires ws != [] && AllDigits(ws) && ds != [] && AllDigits(ds)
    ensures PadNumber(Number(n), PadText(ws + "." + ds))
         == Ok(Remove(FixedPoint(n, DigitsValue(ws), DigitsValue(ds)), '.'))
  {
    var s := ws + "." + ds;
    assert s[|ws|] == '.';
    assert s != "" && !AllDigits(s) && '.' in s;
    assert PadNumber(Number(n), PadText(s)) == FixedPointPadded(Number(n), s);
    SplitPointed(ws, ds);
    assert ParseCount(ws) == Some(DigitsValue(ws)) && ParseCount(ds) == Some(DigitsValue(ds));
  }

  /** `FixedPoint` with `d` > 0 is the zero fill, the digits, a point, and
      `d` zeros. */
  lemma FixedPointShape(n: nat, w: nat, d: nat)
    requires d > 0
    ensures var body := NatToDigits(n) + ("." + Zeros(d));
      FixedPoint(n, w, d) == Zeros(Max(w, |body|) - |body|) + body
  {
  }

  /** With `d` > 0 and a non-negative integer, the code is the digits of
      `n` followed by `d` zeros, zero-filled on the left to the formatted
      width less the deleted point; read back, it is the value scaled by
      10^d. */
  lemma FixedPointDigits(n: nat, w: nat, d: nat)
    requires d > 0
    ensures var k := Max(w, |NatToDigits(n)| + d + 1) - (|NatToDigits(n)| + d + 1);
      var r := Remove(FixedPoint(n, w, d), '.');
      r == Zeros(k) + (NatToDigits(n) + Zeros(d)) &&
      |r| == Max(w, |NatToDigits(n)| + d + 1) - 1 &&
      AllDigits(r) && DigitsValue(r) == n * Pow10(d)
  {
    var digits := NatToDigits(n);
    var body := digits + ("." + Zeros(d));
    var k := Max(w, |body|) - |body|;
    FixedPointShape(n, w, d);
    RemovePoint(k, digits, d);
    LeadingZerosValue(k, digits + Zeros(d));
    TrailingZerosValue(digits, d);
    DigitsRoundTrip(n);
  }

  /** "w.0" writes no point at all: plain zero-filling to width `w`. */
  lemma FixedPointNoDecimals(n: int, ws: string, ds: string)
    requires n >= 0
    requires ws != [] && AllDigits(ws) && ds != [] && AllDigits(ds) && DigitsValue(ds) == 0
    ensures PadNumber(Number(n), PadText(ws + "." + ds)) == Ok(LeftZeros(NatToDigits(n), DigitsValue(ws)))
  {
    FixedPointBranch(n, ws, ds);
    RemovePointFromDigits(LeftZeros(NatToDigits(n), DigitsValue(ws)));
  }

  /** A text spec that is neither digits nor contains a point leaves the
      value as Python prints it: a number gets its ".0". */
  lemma OtherPadIsPlainText(v: Value, s: string)
    requires s != "" && !AllDigits(s) && '.' !in s
    ensures PadNumber(v, PadText(s)) == Ok(ToText(v))
    ensures v.Number? ==> PadNumber(v, PadText(s)) == Ok(IntToString(v.n) + ".0")
  {
  }

  /** Without a pad an integral value prints as a plain integer. */
  lemma MissingPadIsInteger(n: int, pad: PadSpec)
    requires pad == PadMissing || pad == PadText("")
    ensures var r := PadNumber(Number(n), pad).value;
      PadNumber(Number(n), pad).Ok? &&
      (n >= 0 ==> AllDigits(r) && DigitsValue(r) == n && (r[0] == '0' ==> n == 0)) &&
      (n < 0 ==> r[0] == '-' && AllDigits(r[1..]) && DigitsValue(r[1..]) == -n)
  {
  }

  /** Seven unpadded and three wide, with a number and with a text width;
      minus seven four wide, the sign taking one of the four places. */
  lemma PaddingExamples()
    ensures PadNumber(Number(7), PadMissing) == Ok("7")
    ensures PadNumber(Number(7), PadNum(3)) == Ok("007")
    ensures PadNumber(Number(7), PadText("3")) == Ok("007")
    ensures PadNumber(Number(-7), PadNum(4)) == Ok("-007")
  {
    assert NatToDigits(7) == "7";
    assert Zeros(2) == "00";
    assert LeftZeros("7", 3) == "007";
    assert ZeroPadInt(-7, 4) == "-007";
  }

  lemma FixedPointExample()
    ensures PadNumber(Number(7), PadText("5.2")) == Ok("0700")
  {
    assert NatToDigits(5) == "5" && NatToDigits(2) == "2";
    DigitsRoundTrip(5);
    DigitsRoundTrip(2);
    assert "5.2" == "5" + "." + "2";
    assert DigitsValue("5") == 5 && DigitsValue("2") == 2;
    FixedPointBranch(7, "5", "2");
    SevenAtFivePointTwo();
  }

  /** Seven written five wide with two decimals, point removed. */
  lemma SevenAtFivePointTwo()
    ensures Remove(FixedPoint(7, 5, 2), '.') == "0700"
  {
    FixedPointDigits(7, 5, 2);
    assert NatToDigits(7) == "7";
    assert Max(5, 4) - 4 == 1;
    assert Zeros(1) == "0" && Zeros(2) == "00";
    assert "0" + ("7" + "00") == "0700";
  }

  lemma PlainTextPadExample()
    ensures PadNumber(Number(7), PadText("abc")) == Ok("7.0")
  {
    assert !IsDigit("abc"[0]);
    assert '.' !in "abc";
    OtherPadIsPlainText(Number(7), "abc");
    assert NatToDigits(7) == "7";
    assert IntToString(7) + ".0" == "7.0";
  }
}
