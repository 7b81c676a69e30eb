/** `sanitize` and `encode_long_code` of app.py: the long code is five
    header tokens and one token per filled-in field, joined with "-". */
module LongCode {
  import opened Wrappers
  import opened Text
  import opened Schema
  import opened Padding

  /** The characters a sanitized segment may contain: A-Z 0-9 . _ - */
  predicate Allowed(c: char)
  {
    ('A' <= c <= 'Z') || ('0' <= c <= '9') || c == '.' || c == '_' || c == '-'
  }

  predicate AllAllowed(s: string)
  {
    forall i :: 0 <= i < |s| ==> Allowed(s[i])
  }

  /** The allowed characters of `s`, in order. */
  function Keep(s: string): (r: string)
    ensures AllAllowed(r) && |r| <= |s|
  {
    if s == [] then []
    else (if Allowed(s[0]) then [s[0]] else []) + Keep(s[1..])
  }

  /** `sanitize`: upper-case, then delete every character that is not allowed. */
  function Sanitize(s: string): (r: string)
    ensures AllAllowed(r) && |r| <= |s|
  {
    Keep(Upper(s))
  }

  /** `sanitize` decides character by character: a character survives,
      upper-cased, exactly when its upper-case form is allowed. */
  lemma SanitizeChar(c: char, s: string)
    ensures Sanitize([c] + s) == (if Allowed(UpperChar(c)) then [UpperChar(c)] else []) + Sanitize(s)
    ensures Sanitize([c]) == if Allowed(UpperChar(c)) then [UpperChar(c)] else []
  {
    var u := Upper([c] + s);
    assert u[0] == UpperChar(c) && u[1..] == Upper(s);
    var v := Upper([c]);
    assert v[0] == UpperChar(c) && v[1..] == [];
  }

  lemma {:induction false} KeepAllowed(s: string)
    requires AllAllowed(s)
    ensures Keep(s) == s
  {
    if s != [] {
      KeepAllowed(s[1..]);
      assert [s[0]] + s[1..] == s;
    }
  }

  lemma {:induction false} KeepAppend(a: string, b: string)
    ensures Keep(a + b) == Keep(a) + Keep(b)
  {
    if a == [] {
      assert a + b == b;
    } else {
      var pre := if Allowed(a[0]) then [a[0]] else [];
      assert (a + b)[0] == a[0] && (a + b)[1..] == a[1..] + b;
      assert Keep(a + b) == pre + Keep(a[1..] + b);
      KeepAppend(a[1..], b);
      assert Keep(a) == pre + Keep(a[1..]);
      assert pre + (Keep(a[1..]) + Keep(b)) == (pre + Keep(a[1..])) + Keep(b);
    }
  }

  lemma UpperAllowed(s: string)
    requires AllAllowed(s)
    ensures Upper(s) == s
  {
  }

  /** Sanitizing twice is sanitizing once. */
  lemma SanitizeIdempotent(s: string)
    ensures Sanitize(Sanitize(s)) == Sanitize(s)
  {
    var r := Sanitize(s);
    UpperAllowed(r);
    KeepAllowed(r);
  }

  /** Sanitize leaves a string alone exactly when it is already made of
      allowed characters. */
  lemma SanitizeFixedPoints(s: string)
    ensures Sanitize(s) == s <==> AllAllowed(s)
  {
    if AllAllowed(s) {
      UpperAllowed(s);
      KeepAllowed(s);
    }
  }

  /** Sanitize works character by character. */
  lemma SanitizeAppend(a: string, b: string)
    ensures Sanitize(a + b) == Sanitize(a) + Sanitize(b)
  {
    assert Upper(a + b) == Upper(a) + Upper(b);
    KeepAppend(Upper(a), Upper(b));
  }

  /** A letter outside ASCII and the space are dropped. */
  lemma SanitizeDropsExample()
    ensures Sanitize("Ağ 1") == "A1"
  {
    assert Upper("Ağ 1") == "Ağ 1";
  }

  /** Lower-case ASCII letters are upper-cased. */
  lemma SanitizeUpperExample()
    ensures Sanitize("kirmizi") == "KIRMIZI"
  {
    assert Upper("kirmizi") == "KIRMIZI";
    KeepAllowed("KIRMIZI");
  }

  /** Concatenation of a list of strings. */
  function Concat(ss: seq<string>): string
  {
    if ss == [] then "" else ss[0] + Concat(ss[1..])
  }

  function SanitizeAll(items: seq<string>): (r: seq<string>)
    ensures |r| == |items| && forall i :: 0 <= i < |items| ==> r[i] == Sanitize(items[i])
  {
    seq(|items|, i requires 0 <= i < |items| => Sanitize(items[i]))
  }

  /** A list that reaches the plain `sanitize` branch loses its brackets,
      quotes, commas and spaces: its items are run together. */
  lemma SanitizeListText(items: seq<string>)
    ensures Sanitize(ToText(Choices(items))) == Concat(SanitizeAll(items))
  {
    SanitizeAppend("[" + Join(", ", Quoted(items)), "]");
    SanitizeAppend("[", Join(", ", Quoted(items)));
    assert Sanitize("[") == "" by { assert Upper("[") == "["; }
    assert Sanitize("]") == "" by { assert Upper("]") == "]"; }
    SanitizeQuotedJoin(items);
  }

  lemma {:induction false} SanitizeQuotedJoin(items: seq<string>)
    ensures Sanitize(Join(", ", Quoted(items))) == Concat(SanitizeAll(items))
  {
    if items != [] {
      var q := Quoted(items);
      assert Sanitize("'") == "" by { assert Upper("'") == "'"; }
      SanitizeAppend("'" + items[0], "'");
      SanitizeAppend("'", items[0]);
      assert Sanitize(q[0]) == Sanitize(items[0]);
      if |items| > 1 {
        assert Sanitize(", ") == "" by { assert Upper(", ") == ", "; }
        assert Quoted(items)[1..] == Quoted(items[1..]);
        SanitizeAppend(q[0] + ", ", Join(", ", q[1..]));
        SanitizeAppend(q[0], ", ");
        SanitizeQuotedJoin(items[1..]);
        assert SanitizeAll(items)[1..] == SanitizeAll(items[1..]);
      } else {
        assert Concat(SanitizeAll(items)) == Sanitize(items[0]) + Concat([]);
      }
    }
  }

  /** The code of a top-level category; XX for one the table lacks. */
  function CategoryCode(s1: Option<string>): string
  {
    if s1.Some? && s1.value in S1_CODE then S1_CODE[s1.value] else "XX"
  }

  /** The code of a sub-category; YY for one the table lacks. */
  function SubCategoryCode(s2: Option<string>): string
  {
    if s2.Some? && s2.value in S2_CODE then S2_CODE[s2.value] else "YY"
  }

  /** The five tokens every long code starts with. */
  function Header(s1: Option<string>, s2: Option<string>, productCode: string): seq<string>
  {
    ["UKP", "V1", "S1" + CategoryCode(s1), "S2" + SubCategoryCode(s2), "PRD" + Sanitize(productCode)]
  }

  /** The stored value of a field key: None for a key never written. */
  function Lookup(values: map<string, Value>, key: string): Value
  {
    if key in values then values[key] else NoValue
  }

  /** The values that produce no token: None, empty text, an empty list
      and the number zero. */
  predicate IsBlank(v: Value)
  {
    v == NoValue || v == Text("") || v == Choices([]) || v == Number(0)
  }

  /** The token prefix: the EncodeKey cell, or the FieldKey when that cell
      is blank or empty. */
  function EncodingKey(f: Field): string
  {
    if f.encodeKey.Some? && f.encodeKey.value != "" then f.encodeKey.value else f.key
  }

  /** The value part of a field's token, by the field's Type as written. */
  function FieldCode(f: Field, v: Value): Result<string, PadError>
  {
    if f.typ == "multiselect" && v.Choices? then Ok(Join(".", SanitizeAll(v.items)))
    else if f.typ == "number" then PadNumber(v, f.pad)
    else Ok(Sanitize(ToText(v)))
  }

  /** A way of writing one field's value. The encoder uses `FieldCode`;
      the laws about token lists below hold whatever the coder is. */
  type Coder = (Field, Value) -> Result<string, PadError>

  /** Which field's value `pad_number` could not write, and why. */
  datatype EncodeError = EncodeError(fieldKey: string, cause: PadError)

  /** The tokens one fields row contributes: none for a blank value,
      otherwise its encoding key followed by its code. */
  function TokenOf(code: Coder, f: Field, values: map<string, Value>): Result<seq<string>, EncodeError>
  {
    var v := Lookup(values, f.key);
    if IsBlank(v) then Ok([])
    else match code(f, v)
      case Err(e) => Err(EncodeError(f.key, e))
      case Ok(c) => Ok([EncodingKey(f) + c])
  }

  /** Sequencing two encodings: the first error wins, else the tokens of
      both in order. */
  function Then(a: Result<seq<string>, EncodeError>, b: Result<seq<string>, EncodeError>): Result<seq<string>, EncodeError>
  {
    match a
    case Err(e) => Err(e)
    case Ok(ts) =>
      match b
      case Err(e) => Err(e)
      case Ok(us) => Ok(ts + us)
  }

  lemma ThenAssociative(a: Result<seq<string>, EncodeError>, b: Result<seq<string>, EncodeError>,
                        c: Result<seq<string>, EncodeError>)
    ensures Then(Then(a, b), c) == Then(a, Then(b, c))
  {
    if a.Ok? && b.Ok? && c.Ok? {
      assert (a.value + b.value) + c.value == a.value + (b.value + c.value);
    }
  }

  lemma ThenEmpty(r: Result<seq<string>, EncodeError>)
    ensures Then(Ok([]), r) == r && Then(r, Ok([])) == r
  {
    if r.Ok? {
      assert [] + r.value == r.value && r.value + [] == r.value;
    }
  }

  /** The field tokens, in fields-table order; the first field whose value
      cannot be written stops the encoding. */
  function FieldTokens(code: Coder, fields: seq<Field>, values: map<string, Value>): Result<seq<string>, EncodeError>
  {
    if fields == [] then Ok([]) else Then(TokenOf(code, fields[0], values), FieldTokens(code, fields[1..], values))
  }

  /** The long code of a product and its stored form values. */
  function LongCode(s1: Option<string>, s2: Option<string>, productCode: string,
                    values: map<string, Value>, fields: seq<Field>): Result<string, EncodeError>
  {
    match FieldTokens(FieldCode, fields, values)
    case Ok(ts) => Ok(Join("-", Header(s1, s2, productCode) + ts))
    case Err(e) => Err(e)
  }

  /** The encoder as app.py runs it: a list of parts, one append per
      non-blank field, then one join. */
  method EncodeLongCode(s1: Option<string>, s2: Option<string>, productCode: string,
                        values: map<string, Value>, fields: seq<Field>)
    returns (r: Result<string, EncodeError>)
    ensures r == LongCode(s1, s2, productCode, values, fields)
  {
    var header := Header(s1, s2, productCode);
    var parts := header;
    ghost var done: seq<string> := [];
    var i := 0;
    Resume(FieldCode, fields, values);
    while i < |fields|
      invariant 0 <= i <= |fields|
      invariant parts == header + done
      invariant FieldTokens(FieldCode, fields, values) == Then(Ok(done), FieldTokens(FieldCode, fields[i..], values))
    {
      var f := fields[i];
      Advance(FieldCode, fields, i, values, done);
      var val := Lookup(values, f.key);
      if !IsBlank(val) {
        var code := FieldCode(f, val);
        if code.Err? {
          return Err(EncodeError(f.key, code.error));
        }
        parts := parts + [EncodingKey(f) + code.value];
        done := done + [EncodingKey(f) + code.value];
      } else {
        assert done + [] == done;
      }
      i := i + 1;
    }
    Finish(FieldCode, fields, values, done);
    r := Ok(Join("-", parts));
  }

  lemma Resume(code: Coder, fields: seq<Field>, values: map<string, Value>)
    ensures FieldTokens(code, fields, values) == Then(Ok([]), FieldTokens(code, fields[0..], values))
  {
    assert fields[0..] == fields;
    ThenEmpty(FieldTokens(code, fields, values));
  }

  /** One loop step: the tokens still to come are this field's token,
      then those of the fields after it. */
  lemma Advance(code: Coder, fields: seq<Field>, i: nat, values: map<string, Value>, done: seq<string>)
    requires i < |fields|
    ensures var t := TokenOf(code, fields[i], values);
      var later := FieldTokens(code, fields[i + 1..], values);
      Then(Ok(done), FieldTokens(code, fields[i..], values)) ==
        if t.Err? then Err(t.error) else Then(Ok(done + t.value), later)
  {
    assert fields[i..][0] == fields[i] && fields[i..][1..] == fields[i + 1..];
    ThenAssociative(Ok(done), TokenOf(code, fields[i], values), FieldTokens(code, fields[i + 1..], values));
  }

  lemma Finish(code: Coder, fields: seq<Field>, values: map<string, Value>, done: seq<string>)
    ensures Then(Ok(done), FieldTokens(code, fields[|fields|..], values)) == Ok(done)
  {
    assert fields[|fields|..] == [];
    assert done + [] == done;
  }

  /** The fields whose stored value is not blank, in table order. */
  function Present(fields: seq<Field>, values: map<string, Value>): (ps: seq<Field>)
    ensures |ps| <= |fields|
  {
    if fields == [] then []
    else (if IsBlank(Lookup(values, fields[0].key)) then [] else [fields[0]]) + Present(fields[1..], values)
  }

  /** Exactly the non-blank fields of the table are present. */
  lemma {:induction false} PresentMembers(fields: seq<Field>, values: map<string, Value>)
    ensures forall f :: f in Present(fields, values) <==> f in fields && !IsBlank(Lookup(values, f.key))
  {
    if fields != [] {
      PresentMembers(fields[1..], values);
      assert fields == [fields[0]] + fields[1..];
    }
  }

  /** Writing one field with `code` succeeds. */
  predicate Written(code: Coder, f: Field, values: map<string, Value>)
  {
    code(f, Lookup(values, f.key)).Ok?
  }

  /** Every field of `ps` can be written with `code`. */
  predicate AllWritten(code: Coder, ps: seq<Field>, values: map<string, Value>)
  {
    forall i :: 0 <= i < |ps| ==> Written(code, ps[i], values)
  }

  lemma AllWrittenCons(code: Coder, f: Field, qs: seq<Field>, values: map<string, Value>)
    ensures AllWritten(code, [f] + qs, values) <==> Written(code, f, values) && AllWritten(code, qs, values)
  {
    var ps := [f] + qs;
    if Written(code, f, values) && AllWritten(code, qs, values) {
      forall i | 0 <= i < |ps|
        ensures Written(code, ps[i], values)
      {
        if i > 0 {
          assert ps[i] == qs[i - 1];
        }
      }
    }
    if AllWritten(code, ps, values) {
      assert ps[0] == f;
      forall j | 0 <= j < |qs|
        ensures Written(code, qs[j], values)
      {
        assert ps[j + 1] == qs[j];
      }
    }
  }

  /** The encoding fails exactly when some non-blank field's code cannot
      be written. */
  lemma {:induction false} FieldTokensOk(code: Coder, fields: seq<Field>, values: map<string, Value>)
    ensures FieldTokens(code, fields, values).Ok? <==> AllWritten(code, Present(fields, values), values)
  {
    if fields != [] {
      var f, rest := fields[0], fields[1..];
      FieldTokensOk(code, rest, values);
      var ps, qs := Present(fields, values), Present(rest, values);
      var later := FieldTokens(code, rest, values);
      assert FieldTokens(code, fields, values) == Then(TokenOf(code, f, values), later);
      if IsBlank(Lookup(values, f.key)) {
        assert ps == qs;
        ThenEmpty(later);
      } else {
        assert ps == [f] + qs;
        AllWrittenCons(code, f, qs, values);
        assert TokenOf(code, f, values).Ok? <==> Written(code, f, values);
      }
    }
  }

  /** A successful encoding has one token per non-blank field, in table
      order, each the field's encoding key followed by its code. */
  lemma {:induction false} FieldTokensValue(code: Coder, fields: seq<Field>, values: map<string, Value>)
    ensures var ps := Present(fields, values);
      var r := FieldTokens(code, fields, values);
      r.Ok? ==> (|r.value| == |ps| &&
        forall i :: 0 <= i < |ps| ==>
          Written(code, ps[i], values) && r.value[i] == EncodingKey(ps[i]) + code(ps[i], Lookup(values, ps[i].key)).value)
  {
    if fields != [] {
      var f, rest := fields[0], fields[1..];
      FieldTokensValue(code, rest, values);
      var ps, qs := Present(fields, values), Present(rest, values);
      var r, later := FieldTokens(code, fields, values), FieldTokens(code, rest, values);
      if IsBlank(Lookup(values, f.key)) {
        assert ps == qs;
        ThenEmpty(later);
      } else if r.Ok? {
        assert ps == [f] + qs;
        var c := code(f, Lookup(values, f.key));
        assert r.value == [EncodingKey(f) + c.value] + later.value;
        forall i | 0 <= i < |ps|
          ensures Written(code, ps[i], values) && r.value[i] == EncodingKey(ps[i]) + code(ps[i], Lookup(values, ps[i].key)).value
        {
          if i > 0 {
            assert ps[i] == qs[i - 1] && r.value[i] == later.value[i - 1];
          }
        }
      }
    }
  }

  lemma {:induction false} FieldTokensAppend(code: Coder, a: seq<Field>, b: seq<Field>, values: map<string, Value>)
    ensures FieldTokens(code, a + b, values) == Then(FieldTokens(code, a, values), FieldTokens(code, b, values))
  {
    if a == [] {
      assert a + b == b;
      ThenEmpty(FieldTokens(code, b, values));
    } else {
      assert (a + b)[0] == a[0] && (a + b)[1..] == a[1..] + b;
      FieldTokensAppend(code, a[1..], b, values);
      ThenAssociative(TokenOf(code, a[0], values), FieldTokens(code, a[1..], values), FieldTokens(code, b, values));
    }
  }

  /** Omission law: a field whose value is None, "", [] or 0 can be taken
      out of the table without changing the code. */
  lemma OmissionLaw(code: Coder, fields: seq<Field>, i: nat, values: map<string, Value>)
    requires i < |fields| && IsBlank(Lookup(values, fields[i].key))
    ensures FieldTokens(code, fields[..i] + fields[i + 1..], values) == FieldTokens(code, fields, values)
  {
    assert fields == fields[..i] + ([fields[i]] + fields[i + 1..]);
    FieldTokensAppend(code, fields[..i], [fields[i]] + fields[i + 1..], values);
    FieldTokensAppend(code, fields[..i], fields[i + 1..], values);
    assert ([fields[i]] + fields[i + 1..])[1..] == fields[i + 1..];
    ThenEmpty(FieldTokens(code, fields[i + 1..], values));
  }

  /** Only the values stored under the table's field keys matter: the
      code does not depend on other keys, nor on the map's order. */
  lemma {:induction false} OnlyTableKeysMatter(code: Coder, fields: seq<Field>, v1: map<string, Value>, v2: map<string, Value>)
    requires forall f :: f in fields ==> Lookup(v1, f.key) == Lookup(v2, f.key)
    ensures FieldTokens(code, fields, v1) == FieldTokens(code, fields, v2)
  {
    if fields != [] {
      assert fields[0] in fields;
      OnlyTableKeysMatter(code, fields[1..], v1, v2);
    }
  }

  /** A stored value `pad_number` can write: only number fields can fail. */
  predicate Writable(f: Field, v: Value)
  {
    f.typ == "number" ==> NumericValue(v).Some? && WellFormedPad(f.pad)
  }

  /** Only a number field can fail to be written: one holding a number, or
      digit text, under a well-formed Pad never does. */
  lemma CodeWritable(f: Field, v: Value)
    requires Writable(f, v)
    ensures FieldCode(f, v).Ok?
  {
    if f.typ == "number" {
      PadNumberTotal(v, f.pad);
    }
  }

  /** Encoding never raises when every filled-in number field holds a
      number and has a well-formed Pad. */
  lemma EncodeSucceeds(fields: seq<Field>, values: map<string, Value>)
    requires forall f :: f in fields && !IsBlank(Lookup(values, f.key)) ==> Writable(f, Lookup(values, f.key))
    ensures FieldTokens(FieldCode, fields, values).Ok?
  {
    var ps := Present(fields, values);
    PresentMembers(fields, values);
    forall i | 0 <= i < |ps|
      ensures Written(FieldCode, ps[i], values)
    {
      assert ps[i] in ps;
      CodeWritable(ps[i], Lookup(values, ps[i].key));
    }
    FieldTokensOk(FieldCode, fields, values);
  }

  lemma {:induction false} JoinAllowed(sep: string, parts: seq<string>)
    requires AllAllowed(sep) && forall i :: 0 <= i < |parts| ==> AllAllowed(parts[i])
    ensures AllAllowed(Join(sep, parts))
  {
    if |parts| > 1 {
      JoinAllowed(sep, parts[1..]);
    }
  }

  /** Every text, select and multiselect code is made of allowed
      characters only. */
  lemma CodeAlphabet(f: Field, v: Value)
    requires f.typ != "number"
    ensures FieldCode(f, v).Ok? && AllAllowed(FieldCode(f, v).value)
  {
    if f.typ == "multiselect" && v.Choices? {
      JoinAllowed(".", SanitizeAll(v.items));
    }
  }

  /** Every filled-in row of the fields table is encoded, whichever
      section or machine it belongs to: a value stored while another
      product was chosen still reaches the long code. */
  lemma FilledFieldEncoded(s1: Option<string>, s2: Option<string>, productCode: string,
                           values: map<string, Value>, fields: seq<Field>, f: Field)
    requires f in fields && !IsBlank(Lookup(values, f.key))
    requires LongCode(s1, s2, productCode, values, fields).Ok?
    ensures FieldCode(f, Lookup(values, f.key)).Ok?
    ensures EncodingKey(f) + FieldCode(f, Lookup(values, f.key)).value in FieldTokens(FieldCode, fields, values).value
  {
    var ps := Present(fields, values);
    PresentMembers(fields, values);
    FieldTokensValue(FieldCode, fields, values);
    var i :| 0 <= i < |ps| && ps[i] == f;
    assert FieldTokens(FieldCode, fields, values).value[i] == EncodingKey(f) + FieldCode(f, Lookup(values, f.key)).value;
  }

  /** The long code is the five header tokens joined with "-", then, when
      some field is filled in, "-" and the field tokens joined with "-". */
  lemma LongCodeShape(s1: Option<string>, s2: Option<string>, productCode: string,
                      values: map<string, Value>, fields: seq<Field>)
    ensures LongCode(s1, s2, productCode, values, fields).Ok? <==> FieldTokens(FieldCode, fields, values).Ok?
    ensures var head := Join("-", Header(s1, s2, productCode));
      var r := LongCode(s1, s2, productCode, values, fields);
      r.Ok? ==>
        var ts := FieldTokens(FieldCode, fields, values).value;
        r.value == if ts == [] then head else head + "-" + Join("-", ts)
  {
    var h := Header(s1, s2, productCode);
    var r := FieldTokens(FieldCode, fields, values);
    if r.Ok? {
      var ts := r.value;
      if ts == [] {
        assert h + ts == h;
      } else {
        JoinAppend("-", h, ts);
      }
    }
  }

  /** The sentinels mark exactly the categories outside the fixed tables. */
  lemma SentinelCodes(s1: Option<string>, s2: Option<string>)
    ensures CategoryCode(s1) == "XX" <==> !(s1.Some? && s1.value in S1_CODE)
    ensures SubCategoryCode(s2) == "YY" <==> !(s2.Some? && s2.value in S2_CODE)
  {
  }

  /** A coil-feed product from the light group with a colour and a
      three-wide length. */
  const ColorField := Field("GEN", "COLOR", "Renk", "text", false, Blank, Some("CLR"), "", Blank, Blank, Blank, PadMissing)
  const LengthField := Field("GEN", "LEN", "Boy", "number", false, Blank, Some("LEN"), "", Blank, Blank, Blank, PadNum(3))
  const ExampleValues := map["COLOR" := Text("kirmizi"), "LEN" := Number(7)]

  lemma ExampleColorToken()
    ensures TokenOf(FieldCode, ColorField, ExampleValues) == Ok(["CLRKIRMIZI"])
  {
    assert Lookup(ExampleValues, "COLOR") == Text("kirmizi");
    SanitizeUpperExample();
    assert FieldCode(ColorField, Text("kirmizi")) == Ok("KIRMIZI");
    assert EncodingKey(ColorField) + "KIRMIZI" == "CLRKIRMIZI";
  }

  lemma ExampleLengthToken()
    ensures TokenOf(FieldCode, LengthField, ExampleValues) == Ok(["LEN007"])
  {
    assert Lookup(ExampleValues, "LEN") == Number(7);
    PaddingExamples();
    assert FieldCode(LengthField, Number(7)) == Ok("007");
    assert EncodingKey(LengthField) + "007" == "LEN007";
  }

  lemma ExampleCodes()
    ensures CategoryCode(Some("Rulo Besleme")) == "RB"
    ensures SubCategoryCode(Some("Hafif Grup")) == "HG"
    ensures Sanitize("RB01") == "RB01"
  {
    assert Upper("RB01") == "RB01";
    KeepAllowed("RB01");
  }

  lemma ExampleHeaderTokens()
    ensures Header(Some("Rulo Besleme"), Some("Hafif Grup"), "RB01") == ["UKP", "V1", "S1RB", "S2HG", "PRDRB01"]
  {
    ExampleCodes();
    assert "S1" + "RB" == "S1RB" && "S2" + "HG" == "S2HG" && "PRD" + "RB01" == "PRDRB01";
  }

  /** The example's field tokens are CLRKIRMIZI and LEN007. */
  lemma ExampleFieldTokens()
    ensures FieldTokens(FieldCode, [ColorField, LengthField], ExampleValues) == Ok(["CLRKIRMIZI", "LEN007"])
  {
    TwoFieldTokens(FieldCode, ColorField, LengthField, ExampleValues);
    ExampleColorToken();
    ExampleLengthToken();
    assert ["CLRKIRMIZI"] + (["LEN007"] + []) == ["CLRKIRMIZI", "LEN007"];
  }

  /** The whole example: header tokens, then the two field tokens. */
  lemma ExampleLongCode()
    ensures LongCode(Some("Rulo Besleme"), Some("Hafif Grup"), "RB01", ExampleValues, [ColorField, LengthField])
      == Ok("UKP-V1-S1RB-S2HG-PRDRB01-CLRKIRMIZI-LEN007")
  {
    ExampleHeaderTokens();
    ExampleFieldTokens();
    var h := Header(Some("Rulo Besleme"), Some("Hafif Grup"), "RB01");
    assert h + ["CLRKIRMIZI", "LEN007"] == ["UKP", "V1", "S1RB", "S2HG", "PRDRB01", "CLRKIRMIZI", "LEN007"];
    JoinSeven("-", "UKP", "V1", "S1RB", "S2HG", "PRDRB01", "CLRKIRMIZI", "LEN007");
    ExampleSpelledOut();
  }

  lemma ExampleSpelledOut()
    ensures "UKP" + "-" + "V1" + "-" + "S1RB" + "-" + "S2HG" + "-" + "PRDRB01" + "-" + "CLRKIRMIZI" + "-" + "LEN007"
      == "UKP-V1-S1RB-S2HG-PRDRB01-CLRKIRMIZI-LEN007"
  {
    assert "UKP" + "-" + "V1" == "UKP-V1";
    assert "UKP-V1" + "-" + "S1RB" == "UKP-V1-S1RB";
    assert "UKP-V1-S1RB" + "-" + "S2HG" == "UKP-V1-S1RB-S2HG";
    assert "UKP-V1-S1RB-S2HG" + "-" + "PRDRB01" == "UKP-V1-S1RB-S2HG-PRDRB01";
    assert "UKP-V1-S1RB-S2HG-PRDRB01" + "-" + "CLRKIRMIZI" == "UKP-V1-S1RB-S2HG-PRDRB01-CLRKIRMIZI";
  }

  /** Joining seven parts puts the separator between each neighbouring two. */
  lemma JoinSeven(sep: string, a: string, b: string, c: string, d: string, e: string, f: string, g: string)
    ensures Join(sep, [a, b, c, d, e, f, g]) == a + sep + b + sep + c + sep + d + sep + e + sep + f + sep + g
  {
    var parts := [a, b, c, d, e, f, g];
    JoinCons(sep, f, parts[6..]);
    JoinCons(sep, e, parts[5..]);
    JoinCons(sep, d, parts[4..]);
    JoinCons(sep, c, parts[3..]);
    JoinCons(sep, b, parts[2..]);
    JoinCons(sep, a, parts[1..]);
  }

  lemma TwoFieldTokens(code: Coder, a: Field, b: Field, values: map<string, Value>)
    ensures FieldTokens(code, [a, b], values) == Then(TokenOf(code, a, values), Then(TokenOf(code, b, values), Ok([])))
  {
    assert [a, b][1..] == [b] && [b][1..] == [];
    assert FieldTokens(code, [b], values) == Then(TokenOf(code, b, values), FieldTokens(code, [], values));
    assert FieldTokens(code, [a, b], values) == Then(TokenOf(code, a, values), FieldTokens(code, [b], values));
  }
}
