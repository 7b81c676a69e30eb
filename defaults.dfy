/** The value each form widget starts with, by the field's Type (app.py
    lines 155-184): the preselected option of a select, the preselected
    list of a multiselect, the bounds, step and value of a number input,
    and the text of a text input. */
module Defaults {
  import opened Wrappers
  import opened Text
  import opened Schema
  import opened Sorting

  function OptionOrder(o: OptionRow): int { o.order }

  /** The option rows of one OptionsKey, by Order. */
  function OptionsFor(options: seq<OptionRow>, optionsKey: string): seq<OptionRow>
  {
    SortBy(RowsWithKey(options, optionsKey), OptionOrder)
  }

  /** The options rows whose OptionsKey is `key`, in table order. */
  function RowsWithKey(options: seq<OptionRow>, optionsKey: string): (r: seq<OptionRow>)
    ensures forall o :: o in r <==> o in options && o.optionsKey == optionsKey
  {
    if options == [] then []
    else (if options[0].optionsKey == optionsKey then [options[0]] else []) + RowsWithKey(options[1..], optionsKey)
  }

  /** The ValueCode column of an option group, each cell as text. */
  function Codes(rows: seq<OptionRow>): (r: seq<string>)
    ensures |r| == |rows| && forall i :: 0 <= i < |rows| ==> r[i] == rows[i].code
  {
    seq(|rows|, i requires 0 <= i < |rows| => rows[i].code)
  }

  /** The options offered for a field come from its own OptionsKey only,
      all of them, in non-decreasing Order. */
  lemma OptionsForSpec(options: seq<OptionRow>, optionsKey: string)
    ensures SortedBy(OptionsFor(options, optionsKey), OptionOrder)
    ensures forall o :: o in OptionsFor(options, optionsKey) <==> o in options && o.optionsKey == optionsKey
    ensures multiset(OptionsFor(options, optionsKey)) == multiset(RowsWithKey(options, optionsKey))
  {
    SortBySorted(RowsWithKey(options, optionsKey), OptionOrder);
    forall o
      ensures o in OptionsFor(options, optionsKey) <==> o in RowsWithKey(options, optionsKey)
    {
      SortByMembers(RowsWithKey(options, optionsKey), OptionOrder, o);
    }
  }

  /** The index of the first occurrence of `x` in `xs`. */
  function IndexOf(xs: seq<string>, x: string): (i: nat)
    requires x in xs
    ensures i < |xs| && xs[i] == x && x !in xs[..i]
  {
    if xs[0] == x then 0
    else
      var j := IndexOf(xs[1..], x);
      assert xs[..j + 1] == [xs[0]] + xs[1..][..j];
      j + 1
  }

  /** The select's preselected index: that of Default among the codes when
      Default is text equal to one of them, else 0. A number Default never
      matches, since the codes are text. */
  function SelectIndex(codes: seq<string>, default: Cell): (i: nat)
    ensures codes != [] ==> i < |codes|
    ensures default.Txt? && default.s in codes ==> codes[i] == default.s && default.s !in codes[..i]
    ensures !(default.Txt? && default.s in codes) ==> i == 0
  {
    if default.Txt? && default.s in codes then IndexOf(codes, default.s) else 0
  }

  /** What the select holds on first render: the preselected code, or None
      when the option list is empty. */
  function SelectDefault(codes: seq<string>, default: Cell): (v: Value)
    ensures codes == [] <==> v == NoValue
    ensures v != NoValue ==> v.Text? && v.s in codes
    ensures default.Txt? && default.s in codes ==> v == Text(default.s)
    ensures codes != [] && !(default.Txt? && default.s in codes) ==> v == Text(codes[0])
  {
    if codes == [] then NoValue else Text(codes[SelectIndex(codes, default)])
  }

  /** A multiselect starts with the Default alone when it is text naming one
      of the codes, and with nothing otherwise. */
  function MultiselectDefault(codes: seq<string>, default: Cell): (r: seq<string>)
    ensures |r| <= 1 && forall c :: c in r ==> c in codes
    ensures r != [] <==> default.Txt? && default.s in codes
    ensures r != [] ==> r == [default.s]
  {
    if default.Txt? && default.s in codes then [default.s] else []
  }

  /** The arguments the number input is built with. */
  datatype NumberSettings = NumberSettings(min: int, max: int, step: int, value: int)

  /** Python's float conversion of a number field's cell failed. */
  datatype DefaultError = NotANumber(fieldKey: string)

  const DEFAULT_MAX: int := 1_000_000_000

  /** A cell the float conversion accepts on the model's terms: blank
      (never converted), a number, or text that is a run of ASCII digits. */
  predicate Readable(c: Cell)
  {
    c.Blank? || c.Num? || (c.s != [] && AllDigits(c.s))
  }

  /** The float conversion of a non-blank cell: a number is itself, digit
      text reads in base ten, any other text cannot be converted. */
  function CellNumber(c: Cell): (r: Option<int>)
    requires c != Blank
    ensures r.Some? <==> Readable(c)
    ensures c.Num? ==> r == Some(c.n)
    ensures c.Txt? && r.Some? ==> r.value == DigitsValue(c.s) && r.value >= 0
  {
    match c
    case Num(n) => Some(n)
    case Txt(s) => if s != [] && AllDigits(s) then Some(DigitsValue(s)) else None
  }

  /** A readable cell's number, or `otherwise` when the cell is blank. */
  function CellOr(c: Cell, otherwise: int): (r: int)
    requires Readable(c)
    ensures c.Blank? ==> r == otherwise
    ensures c.Num? ==> r == c.n
    ensures c.Txt? ==> r == DigitsValue(c.s)
  {
    if c.Blank? then otherwise else CellNumber(c).value
  }

  /** Min, Max and Step when present, else 0, 1e9 and 1; the value is the
      Default when present, else the minimum. Any of the four cells that the
      float conversion rejects makes rendering fail. */
  function NumberDefault(f: Field): (r: Result<NumberSettings, DefaultError>)
    ensures r.Err? <==> !(Readable(f.min) && Readable(f.max) && Readable(f.step) && Readable(f.default))
    ensures r.Ok? ==>
      r.value.min == CellOr(f.min, 0) &&
      r.value.max == CellOr(f.max, DEFAULT_MAX) &&
      r.value.step == CellOr(f.step, 1)
    ensures r.Ok? && f.default.Blank? ==> r.value.value == r.value.min
    ensures r.Ok? && f.default.Num? ==> r.value.value == f.default.n
    ensures r.Ok? && f.default.Txt? ==> r.value.value == DigitsValue(f.default.s)
  {
    if !(Readable(f.min) && Readable(f.max) && Readable(f.step) && Readable(f.default)) then
      Err(NotANumber(f.key))
    else
      var minv := CellOr(f.min, 0);
      Ok(NumberSettings(minv, CellOr(f.max, DEFAULT_MAX), CellOr(f.step, 1), CellOr(f.default, minv)))
  }

  /** A text field starts with the Default cell printed as text, or empty
      when the cell is blank. */
  function TextDefault(default: Cell): (s: string)
    ensures default == Blank ==> s == ""
    ensures default.Txt? ==> s == default.s
    ensures default.Num? && default.n >= 0 ==> AllDigits(s) && DigitsValue(s) == default.n
  {
    match default
    case Blank => ""
    case Num(n) => IntToString(n)
    case Txt(s) => s
  }

  /** The value the field's widget holds on first render, by the Type
      lower-cased: select, multiselect, number, anything else a text input. */
  function InitialValue(f: Field, options: seq<OptionRow>): (r: Result<Value, DefaultError>)
  {
    var typ := Lower(f.typ);
    var codes := Codes(OptionsFor(options, f.optionsKey));
    if typ == "select" then Ok(SelectDefault(codes, f.default))
    else if typ == "multiselect" then Ok(Choices(MultiselectDefault(codes, f.default)))
    else if typ == "number" then
      match NumberDefault(f)
      case Ok(settings) => Ok(Number(settings.value))
      case Err(e) => Err(e)
    else Ok(Text(TextDefault(f.default)))
  }

  /** A select or multiselect starts on codes of its own option group; only
      a number input whose Default is unreadable fails. */
  lemma InitialValueSpec(f: Field, options: seq<OptionRow>)
    ensures var r := InitialValue(f, options);
      var typ := Lower(f.typ);
      (r.Err? <==> typ == "number" && !(Readable(f.min) && Readable(f.max) && Readable(f.step) && Readable(f.default))) &&
      (r.Ok? && typ == "select" && r.value != NoValue ==>
        exists o :: o in options && o.optionsKey == f.optionsKey && r.value == Text(o.code)) &&
      (r.Ok? && typ == "multiselect" ==>
        forall c :: c in r.value.items ==> exists o :: o in options && o.optionsKey == f.optionsKey && c == o.code)
  {
    var rows := OptionsFor(options, f.optionsKey);
    var codes := Codes(rows);
    OptionsForSpec(options, f.optionsKey);
    forall c | c in codes
      ensures exists o :: o in options && o.optionsKey == f.optionsKey && c == o.code
    {
      var i :| 0 <= i < |codes| && codes[i] == c;
      assert rows[i] in rows;
    }
  }
}
