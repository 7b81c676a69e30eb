/** The four schema tables (products, sections, fields, options) as rows of
    records, the values the form collects, and the fixed category tables of
    app.py. Spreadsheet cells that may be blank are `Option`s; a column that
    mixes numbers and text (Default) is a `Cell`. */
module Schema {
  import opened Wrappers
  import opened Text

  /** A products row: Kategori1, Kategori2, UrunAdi, UrunKodu, MakineTipi. */
  datatype Product = Product(
    category1: Option<string>,
    category2: Option<string>,
    name: string,
    code: string,
    machine: string)

  /** A sections row: the machine it belongs to, its key, label and Order. */
  datatype Section = Section(
    category1: Option<string>,
    category2: Option<string>,
    machine: string,
    key: string,
    caption: string,
    order: int)

  /** A spreadsheet cell: blank (NaN), a number, or text. */
  datatype Cell = Blank | Num(n: int) | Txt(s: string)

  /** The Pad cell of a field: blank, None or "" (`PadMissing`), a number
      (`PadNum`, after Python's `int()` truncation), or non-empty text. */
  datatype PadSpec = PadMissing | PadNum(w: int) | PadText(s: string)

  /** A fields row. `typ` is the Type cell as written: the form lower-cases
      it, the encoder compares it case-sensitively. */
  datatype Field = Field(
    sectionKey: string,
    key: string,
    caption: string,
    typ: string,
    required: bool,
    default: Cell,
    encodeKey: Option<string>,
    optionsKey: string,
    min: Cell,
    max: Cell,
    step: Cell,
    pad: PadSpec)

  /** An options row: OptionsKey, ValueCode (as text), ValueLabel, Order. */
  datatype OptionRow = OptionRow(optionsKey: string, code: string, caption: string, order: int)

  datatype Tables = Tables(
    products: seq<Product>,
    sections: seq<Section>,
    fields: seq<Field>,
    options: seq<OptionRow>)

  /** A value stored in the form: `NoValue` is Python's None (an empty
      select box, or a key never written). A number input returns a float;
      the model keeps integral ones only. */
  datatype Value = NoValue | Text(s: string) | Number(n: int) | Choices(items: seq<string>)

  /** Python's `str()` of a stored value: a float prints with ".0", a list
      as its bracketed, quoted repr (quotes chosen and escapes applied by
      Python's repr are not modelled: every item is quoted with '). */
  function ToText(v: Value): string
  {
    match v
    case NoValue => "None"
    case Text(s) => s
    case Number(n) => IntToString(n) + ".0"
    case Choices(items) => "[" + Join(", ", Quoted(items)) + "]"
  }

  function Quoted(items: seq<string>): (r: seq<string>)
    ensures |r| == |items| && forall i :: 0 <= i < |items| ==> r[i] == "'" + items[i] + "'"
  {
    seq(|items|, i requires 0 <= i < |items| => "'" + items[i] + "'")
  }

  /** The top-level categories in the order they are offered. */
  const S1_ORDER: seq<string> := ["Rulo Besleme", "Plaka Besleme", "Tamamlayıcı Ürünler"]

  const S1_CODE: map<string, string> :=
    map["Rulo Besleme" := "RB", "Plaka Besleme" := "PB", "Tamamlayıcı Ürünler" := "TM"]

  const S2_CODE: map<string, string> :=
    map["Hafif Grup" := "HG", "Ağır Grup" := "AG", "Destacker" := "DST", "Transfer" := "TRF",
        "İstif" := "IST", "Robot" := "RBT", "Konveyör" := "KNV", "Feeder" := "FDR",
        "Giyotin" := "GIY", "Yağlayıcı" := "YAG", "Güvenlik" := "GUV"]
}
