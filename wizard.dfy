/** The three-step wizard of app.py (lines 39-43 and 96-190): the session
    record `step`, `s1`, `s2`, `product_row`, `form_values` (and
    `long_code` once generated), the choices offered at each step, and the
    transitions the buttons, select boxes and form widgets make. */
module Wizard {
  import opened Wrappers
  import opened Text
  import opened Schema
  import opened Sorting
  import opened LongCode
  import opened Defaults
  import opened Padding

  /** Some products row has Kategori1 `c`. */
  predicate HasCategory(products: seq<Product>, c: string)
  {
    exists p :: p in products && p.category1 == Some(c)
  }

  /** The entries of `order` that are top-level categories of some row, in
      the order of `order`. */
  function PresentCategories(order: seq<string>, products: seq<Product>): (r: seq<string>)
  {
    if order == [] then []
    else (if HasCategory(products, order[0]) then [order[0]] else []) + PresentCategories(order[1..], products)
  }

  /** Step 1's buttons: `S1_ORDER` filtered to the Kategori1 values present. */
  function S1Candidates(products: seq<Product>): seq<string>
  {
    PresentCategories(S1_ORDER, products)
  }

  predicate NoDuplicates(xs: seq<string>)
  {
    forall i, j :: 0 <= i < j < |xs| ==> xs[i] != xs[j]
  }

  /** `x` occurs in `order` before `y` does. */
  predicate Before(order: seq<string>, x: string, y: string)
  {
    exists a, b :: 0 <= a < b < |order| && order[a] == x && order[b] == y
  }

  /** The entries of `r` occur in `order` in the same relative order. */
  predicate InOrderOf(r: seq<string>, order: seq<string>)
  {
    forall i, j :: 0 <= i < j < |r| ==> Before(order, r[i], r[j])
  }

  /** An order that holds in the tail of a list holds in the list. */
  lemma BeforeTail(order: seq<string>, x: string, y: string)
    requires order != [] && Before(order[1..], x, y)
    ensures Before(order, x, y)
  {
    var a, b :| 0 <= a < b < |order[1..]| && order[1..][a] == x && order[1..][b] == y;
    assert order[a + 1] == x && order[b + 1] == y;
  }

  /** The head of a list comes before every element of its tail. */
  lemma BeforeHead(order: seq<string>, y: string)
    requires order != [] && y in order[1..]
    ensures Before(order, order[0], y)
  {
    var b :| 0 <= b < |order[1..]| && order[1..][b] == y;
    assert order[b + 1] == y;
  }

  /** Filtering a list without duplicates keeps exactly the present
      entries, each once, in the order of the list. */
  lemma {:induction false} PresentCategoriesSpec(order: seq<string>, products: seq<Product>)
    requires NoDuplicates(order)
    ensures forall c :: c in PresentCategories(order, products) <==> c in order && HasCategory(products, c)
    ensures NoDuplicates(PresentCategories(order, products))
    ensures InOrderOf(PresentCategories(order, products), order)
  {
    if order != [] {
      var rest := order[1..];
      assert NoDuplicates(rest) by {
        forall i, j | 0 <= i < j < |rest|
          ensures rest[i] != rest[j]
        {
          assert rest[i] == order[i + 1] && rest[j] == order[j + 1];
        }
      }
      PresentCategoriesSpec(rest, products);
      assert order[0] !in rest by {
        forall i | 0 <= i < |rest|
          ensures rest[i] != order[0]
        {
          assert rest[i] == order[i + 1];
        }
      }
      var r := PresentCategories(order, products);
      var q := PresentCategories(rest, products);
      assert order == [order[0]] + rest;
      if HasCategory(products, order[0]) {
        assert r == [order[0]] + q;
        forall i, j | 0 <= i < j < |r|
          ensures r[i] != r[j] && Before(order, r[i], r[j])
        {
          assert r[j] == q[j - 1];
          if i > 0 {
            assert r[i] == q[i - 1];
            assert Before(rest, q[i - 1], q[j - 1]);
            BeforeTail(order, r[i], r[j]);
          } else {
            assert q[j - 1] in q;
            BeforeHead(order, r[j]);
          }
        }
      } else {
        assert r == q;
        forall i, j | 0 <= i < j < |r|
          ensures Before(order, r[i], r[j])
        {
          assert Before(rest, q[i], q[j]);
          BeforeTail(order, r[i], r[j]);
        }
      }
    }
  }

  /** The step-1 buttons are exactly the categories of `S1_ORDER` that occur
      in the products table, each once. */
  lemma S1CandidatesSpec(products: seq<Product>)
    ensures forall c :: c in S1Candidates(products) <==> c in S1_ORDER && HasCategory(products, c)
    ensures NoDuplicates(S1Candidates(products))
    ensures InOrderOf(S1Candidates(products), S1_ORDER)
  {
    assert NoDuplicates(S1_ORDER);
    PresentCategoriesSpec(S1_ORDER, products);
    assert S1Candidates(products) == PresentCategories(S1_ORDER, products);
  }

  /** The non-blank Kategori2 cells of the rows under `s1`, in row order. */
  function SubCategoriesOf(products: seq<Product>, s1: string): (r: seq<string>)
    ensures forall c :: c in r <==> exists p :: p in products && p.category1 == Some(s1) && p.category2 == Some(c)
  {
    if products == [] then []
    else
      var p := products[0];
      assert products == [p] + products[1..];
      (if p.category1 == Some(s1) && p.category2.Some? then [p.category2.value] else [])
        + SubCategoriesOf(products[1..], s1)
  }

  /** First occurrences, in order of appearance. */
  function Unique(xs: seq<string>): (r: seq<string>)
    ensures forall c :: c in r <==> c in xs
    ensures NoDuplicates(r)
  {
    if xs == [] then []
    else
      var u := Unique(xs[..|xs| - 1]);
      var x := xs[|xs| - 1];
      assert xs == xs[..|xs| - 1] + [x];
      if x in u then u else u + [x]
  }

  /** Step 2's buttons. */
  function S2Candidates(products: seq<Product>, s1: string): (r: seq<string>)
  {
    Unique(SubCategoriesOf(products, s1))
  }

  /** The products rows under `s1` and `s2`, in row order. */
  function ProductChoices(products: seq<Product>, s1: string, s2: string): (r: seq<Product>)
    ensures forall p :: p in r <==> p in products && p.category1 == Some(s1) && p.category2 == Some(s2)
  {
    if products == [] then []
    else
      assert products == [products[0]] + products[1..];
      (if products[0].category1 == Some(s1) && products[0].category2 == Some(s2) then [products[0]] else [])
        + ProductChoices(products[1..], s1, s2)
  }

  /** The step-2 buttons are the distinct sub-categories of `s1`, and each
      of them leads to at least one product in step 3. */
  lemma S2CandidatesSpec(products: seq<Product>, s1: string, c: string)
    ensures c in S2Candidates(products, s1) <==>
      exists p :: p in products && p.category1 == Some(s1) && p.category2 == Some(c)
    ensures NoDuplicates(S2Candidates(products, s1))
    ensures c in S2Candidates(products, s1) ==> ProductChoices(products, s1, c) != []
  {
    if c in S2Candidates(products, s1) {
      var p :| p in products && p.category1 == Some(s1) && p.category2 == Some(c);
      assert p in ProductChoices(products, s1, c);
    }
  }

  /** A select-box entry: the product name, its code in parentheses, a
      dash, and the machine type. */
  function Display(p: Product): string
  {
    p.name + " (" + p.code + ") — " + p.machine
  }

  function Displays(ps: seq<Product>): (r: seq<string>)
    ensures |r| == |ps| && forall i :: 0 <= i < |ps| ==> r[i] == Display(ps[i])
  {
    seq(|ps|, i requires 0 <= i < |ps| => Display(ps[i]))
  }

  /** The first row whose select-box entry is `choice`. */
  function ChosenProduct(ps: seq<Product>, choice: string): (p: Product)
    requires choice in Displays(ps)
    ensures p in ps && Display(p) == choice
    ensures exists i :: 0 <= i < |ps| && ps[i] == p && forall j :: 0 <= j < i ==> Display(ps[j]) != choice
  {
    var i := IndexOf(Displays(ps), choice);
    assert forall j :: 0 <= j < i ==> Displays(ps)[..i][j] == Display(ps[j]);
    ps[i]
  }

  function SectionOrder(s: Section): int { s.order }

  /** The tabs of the chosen machine: sections of `s1`, `s2` and its
      MakineTipi, by Order. */
  function SectionsFor(sections: seq<Section>, s1: string, s2: string, machine: string): seq<Section>
  {
    SortBy(MachineSections(sections, s1, s2, machine), SectionOrder)
  }

  function MachineSections(sections: seq<Section>, s1: string, s2: string, machine: string): (r: seq<Section>)
    ensures forall s :: s in r <==>
      s in sections && s.category1 == Some(s1) && s.category2 == Some(s2) && s.machine == machine
  {
    if sections == [] then []
    else
      var s := sections[0];
      assert sections == [s] + sections[1..];
      (if s.category1 == Some(s1) && s.category2 == Some(s2) && s.machine == machine then [s] else [])
        + MachineSections(sections[1..], s1, s2, machine)
  }

  /** The fields rows of one section, in table order. */
  function SectionFields(fields: seq<Field>, sectionKey: string): (r: seq<Field>)
    ensures forall f :: f in r <==> f in fields && f.sectionKey == sectionKey
  {
    if fields == [] then []
    else
      assert fields == [fields[0]] + fields[1..];
      (if fields[0].sectionKey == sectionKey then [fields[0]] else []) + SectionFields(fields[1..], sectionKey)
  }

  /** The tabs are the chosen machine's sections, all of them, by Order. */
  lemma SectionsForSpec(sections: seq<Section>, s1: string, s2: string, machine: string)
    ensures SortedBy(SectionsFor(sections, s1, s2, machine), SectionOrder)
    ensures forall s :: s in SectionsFor(sections, s1, s2, machine) <==>
      s in sections && s.category1 == Some(s1) && s.category2 == Some(s2) && s.machine == machine
  {
    var rows := MachineSections(sections, s1, s2, machine);
    SortBySorted(rows, SectionOrder);
    forall s
      ensures s in SectionsFor(sections, s1, s2, machine) <==> s in rows
    {
      SortByMembers(rows, SectionOrder, s);
    }
  }

  /** What a field's widget hands back in this run: the value the user
      left in it, if any, else its initial value. The initial value is
      worked out (and can fail) either way. */
  function WidgetValue(f: Field, options: seq<OptionRow>, entered: map<string, Value>): (r: Result<Value, DefaultError>)
    ensures r.Err? <==> InitialValue(f, options).Err?
    ensures r.Ok? && f.key in entered ==> r.value == entered[f.key]
    ensures r.Ok? && f.key !in entered ==> r == InitialValue(f, options)
  {
    match InitialValue(f, options)
    case Err(e) => Err(e)
    case Ok(v) => Ok(if f.key in entered then entered[f.key] else v)
  }

  /** What each field's widget hands back; the rendering laws below hold
      whatever it is, and the form uses `Widgets`. */
  type Widget = Field -> Result<Value, DefaultError>

  function Widgets(options: seq<OptionRow>, entered: map<string, Value>): Widget
  {
    f => WidgetValue(f, options, entered)
  }

  /** Rendering fields in order, each writing its widget's value into the
      form values; the first failure stops the run with the earlier writes
      kept. */
  function WriteFields(values: map<string, Value>, fs: seq<Field>, widget: Widget): (map<string, Value>, Option<DefaultError>)
    decreases fs
  {
    if fs == [] then (values, None)
    else match widget(fs[0])
      case Err(e) => (values, Some(e))
      case Ok(v) => WriteFields(values[fs[0].key := v], fs[1..], widget)
  }

  lemma {:induction false} WriteFieldsAppend(values: map<string, Value>, a: seq<Field>, b: seq<Field>,
                                             widget: Widget)
    decreases a
    ensures var first := WriteFields(values, a, widget);
      WriteFields(values, a + b, widget)
        == if first.1.Some? then first else WriteFields(first.0, b, widget)
  {
    if a != [] {
      assert (a + b)[0] == a[0] && (a + b)[1..] == a[1..] + b;
      match widget(a[0])
      case Err(_) =>
      case Ok(v) => WriteFieldsAppend(values[a[0].key := v], a[1..], b, widget);
    } else {
      assert a + b == b;
    }
  }

  /** Writing fields only adds or overwrites their keys: the keys after
      are the keys before plus some field keys, and a key no field has
      keeps its value. */
  lemma {:induction false} WriteFieldsFrame(values: map<string, Value>, fs: seq<Field>, widget: Widget, k: string)
    decreases fs
    ensures var m := WriteFields(values, fs, widget).0;
      values.Keys <= m.Keys &&
      (k in m ==> k in values || exists f :: f in fs && f.key == k) &&
      ((forall f :: f in fs ==> f.key != k) ==> (k in values ==> m[k] == values[k]))
  {
    if fs != [] {
      match widget(fs[0])
      case Err(_) =>
      case Ok(v) =>
        WriteFieldsFrame(values[fs[0].key := v], fs[1..], widget, k);
        assert forall f :: f in fs[1..] ==> f in fs;
    }
  }

  /** When no widget fails and the field keys are distinct, every field's
      key ends up holding that field's widget value. */
  lemma {:induction false} WriteFieldsValues(values: map<string, Value>, fs: seq<Field>, widget: Widget, i: nat)
    decreases fs
    requires i < |fs|
    requires forall a, b :: 0 <= a < b < |fs| ==> fs[a].key != fs[b].key
    requires WriteFields(values, fs, widget).1.None?
    ensures var m := WriteFields(values, fs, widget).0;
      widget(fs[i]).Ok? && fs[i].key in m && m[fs[i].key] == widget(fs[i]).value
  {
    var v := widget(fs[0]).value;
    var rest := fs[1..];
    assert forall a, b :: 0 <= a < b < |rest| ==> rest[a].key != rest[b].key by {
      forall a, b | 0 <= a < b < |rest|
        ensures rest[a].key != rest[b].key
      {
        assert rest[a] == fs[a + 1] && rest[b] == fs[b + 1];
      }
    }
    if i == 0 {
      WriteFieldsFrame(values[fs[0].key := v], rest, widget, fs[0].key);
      forall f | f in rest
        ensures f.key != fs[0].key
      {
        var j :| 0 <= j < |rest| && rest[j] == f;
        assert fs[j + 1] == f;
      }
    } else {
      assert rest[i - 1] == fs[i];
      WriteFieldsValues(values[fs[0].key := v], rest, widget, i - 1);
    }
  }

  /** The fields of the given tabs, tab by tab. */
  function TabFields(tabs: seq<Section>, fields: seq<Field>): seq<Field>
  {
    if tabs == [] then [] else SectionFields(fields, tabs[0].key) + TabFields(tabs[1..], fields)
  }

  /** `st.session_state` as far as the wizard uses it. */
  class Session {
    const tables: Tables
    var step: int
    var s1: Option<string>
    var s2: Option<string>
    var productRow: Option<Product>
    var formValues: map<string, Value>
    var longCode: Option<string>

    /** What every reachable session satisfies. A sub-category, a product
        and form values exist only in step 3, which no transition leaves;
        a category left over from a Back is still one of the step-1
        choices. */
    predicate Valid()
      reads this
    {
      step in {1, 2, 3} &&
      (s1.Some? ==> s1.value in S1Candidates(tables.products)) &&
      (step >= 2 ==> s1.Some?) &&
      (s2.Some? <==> step == 3) &&
      (step == 3 ==> s1.Some? && s2.Some? && s2.value in S2Candidates(tables.products, s1.value)) &&
      (productRow.Some? ==>
         step == 3 && s1.Some? && s2.Some? &&
         productRow.value in ProductChoices(tables.products, s1.value, s2.value)) &&
      (step < 3 ==> formValues == map[] && longCode == None)
    }

    /** The first run: step 1, nothing chosen, no values. */
    constructor(tables: Tables)
      ensures Valid()
      ensures this.tables == tables && step == 1 && s1 == None && s2 == None
      ensures productRow == None && formValues == map[] && longCode == None
    {
      this.tables := tables;
      step := 1;
      s1 := None;
      s2 := None;
      productRow := None;
      formValues := map[];
      longCode := None;
    }

    /** A step-1 button: sets `s1` and moves to step 2; `s2` is not
        touched. */
    method ChooseCategory(c: string)
      requires Valid() && step == 1 && c in S1Candidates(tables.products)
      modifies this
      ensures Valid()
      ensures s1 == Some(c) && step == 2
      ensures s2 == old(s2) && productRow == old(productRow)
      ensures formValues == old(formValues) && longCode == old(longCode)
    {
      s1 := Some(c);
      step := 2;
    }

    /** The Back button of step 2: only the step changes; `s1` stays. */
    method Back()
      requires Valid() && step == 2
      modifies this
      ensures Valid()
      ensures step == 1 && s1 == old(s1) && s2 == old(s2) && productRow == old(productRow)
      ensures formValues == old(formValues) && longCode == old(longCode)
    {
      step := 1;
    }

    /** A step-2 button: sets `s2` and moves to step 3, unless the
        button's label is the empty string, which is falsy and so does
        nothing. */
    method ChooseSubCategory(c: string)
      requires Valid() && step == 2 && c in S2Candidates(tables.products, s1.value)
      modifies this
      ensures Valid()
      ensures c != "" ==> s2 == Some(c) && step == 3
      ensures c == "" ==> s2 == old(s2) && step == old(step)
      ensures s1 == old(s1) && productRow == old(productRow)
      ensures formValues == old(formValues) && longCode == old(longCode)
      ensures step == 3 ==> ProductChoices(tables.products, s1.value, s2.value) != []
    {
      if c != "" {
        S2CandidatesSpec(tables.products, s1.value, c);
        s2 := Some(c);
        step := 3;
      }
    }

    /** The product select box of step 3: the first row showing as the
        chosen entry becomes `product_row`; the form values are kept. */
    method ChooseProduct(choice: string)
      requires Valid() && step == 3
      requires choice in Displays(ProductChoices(tables.products, s1.value, s2.value))
      modifies this
      ensures step == old(step) && s1 == old(s1) && s2 == old(s2)
      ensures formValues == old(formValues) && longCode == old(longCode)
      ensures Valid()
      ensures productRow == Some(ChosenProduct(ProductChoices(tables.products, s1.value, s2.value), choice))
      ensures Display(productRow.value) == choice
    {
      productRow := Some(ChosenProduct(ProductChoices(tables.products, s1.value, s2.value), choice));
    }

    /** One widget storing its value under its field key. */
    method SetFieldValue(k: string, v: Value)
      requires Valid() && productRow.Some?
      modifies this
      ensures Valid()
      ensures formValues == old(formValues)[k := v]
      ensures step == old(step) && s1 == old(s1) && s2 == old(s2) && productRow == old(productRow)
      ensures longCode == old(longCode)
    {
      formValues := formValues[k := v];
    }

    /** The tabs of step 3: the chosen machine's sections by Order, each
        rendering its fields into the form values; a Default a number
        input cannot read stops the run, and the values written before it
        stay. */
    method RenderForm(entered: map<string, Value>) returns (failure: Option<DefaultError>)
      requires Valid() && productRow.Some?
      modifies this
      ensures step == old(step) && s1 == old(s1) && s2 == old(s2) && productRow == old(productRow)
      ensures longCode == old(longCode)
      ensures Valid()
      ensures (formValues, failure) == WriteFields(old(formValues),
        TabFields(SectionsFor(tables.sections, s1.value, s2.value, productRow.value.machine), tables.fields),
        Widgets(tables.options, entered))
    {
      var tabs := SectionsFor(tables.sections, s1.value, s2.value, productRow.value.machine);
      formValues, failure := RenderTabs(formValues, tabs, tables.fields, Widgets(tables.options, entered));
    }

    /** The "generate" button, drawn only below a non-empty set of tabs:
        the long code of the chosen product over the whole fields table and
        the current form values. When a value cannot be written the run
        stops with that error and the previous long code stays. */
    method GenerateCode() returns (error: Option<EncodeError>)
      requires Valid() && productRow.Some?
      requires SectionsFor(tables.sections, s1.value, s2.value, productRow.value.machine) != []
      modifies this
      ensures step == old(step) && s1 == old(s1) && s2 == old(s2) && productRow == old(productRow)
      ensures formValues == old(formValues)
      ensures Valid()
      ensures var r := LongCode.LongCode(s1, s2, productRow.value.code, formValues, tables.fields);
        (r.Ok? ==> longCode == Some(r.value) && error == None) &&
        (r.Err? ==> longCode == old(longCode) && error == Some(r.error))
    {
      var code := EncodeLongCode(s1, s2, productRow.value.code, formValues, tables.fields);
      match code
      case Ok(c) =>
        longCode := Some(c);
        error := None;
      case Err(e) =>
        error := Some(e);
    }

    /** The part of a step-3 run after the product select box: with no
        sections for the machine nothing is drawn; otherwise the tabs are
        rendered and, when that did not stop the run and the button was
        clicked, the long code is generated. */
    method RenderAndGenerate(entered: map<string, Value>, clicked: bool)
      returns (failure: Option<DefaultError>, error: Option<EncodeError>)
      requires Valid() && productRow.Some?
      modifies this
      ensures step == old(step) && s1 == old(s1) && s2 == old(s2) && productRow == old(productRow)
      ensures Valid()
      ensures var tabs := SectionsFor(tables.sections, s1.value, s2.value, productRow.value.machine);
        tabs == [] ==> formValues == old(formValues) && longCode == old(longCode) && failure == None && error == None
      ensures var tabs := SectionsFor(tables.sections, s1.value, s2.value, productRow.value.machine);
        tabs != [] ==>
          (formValues, failure) == WriteFields(old(formValues), TabFields(tabs, tables.fields), Widgets(tables.options, entered))
      ensures failure.Some? || !clicked ==> longCode == old(longCode) && error == None
      ensures var r := LongCode.LongCode(s1, s2, productRow.value.code, formValues, tables.fields);
        failure == None && clicked && SectionsFor(tables.sections, s1.value, s2.value, productRow.value.machine) != [] ==>
          (r.Ok? ==> longCode == Some(r.value) && error == None) &&
          (r.Err? ==> longCode == old(longCode) && error == Some(r.error))
    {
      error := None;
      failure := None;
      if SectionsFor(tables.sections, s1.value, s2.value, productRow.value.machine) != [] {
        failure := RenderForm(entered);
        if failure == None && clicked {
          error := GenerateCode();
        }
      }
    }
  }

  /** The widgets of one tab, in field order, each writing its value into
      the form values; a Default a number input cannot read stops the run. */
  method RenderFields(values: map<string, Value>, fs: seq<Field>, widget: Widget)
    returns (written: map<string, Value>, failure: Option<DefaultError>)
    ensures (written, failure) == WriteFields(values, fs, widget)
  {
    written := values;
    var i := 0;
    assert fs[0..] == fs;
    while i < |fs|
      invariant 0 <= i <= |fs|
      invariant WriteFields(values, fs, widget) == WriteFields(written, fs[i..], widget)
    {
      assert fs[i..][0] == fs[i] && fs[i..][1..] == fs[i + 1..];
      var w := widget(fs[i]);
      if w.Err? {
        failure := Some(w.error);
        return;
      }
      written := written[fs[i].key := w.value];
      i := i + 1;
    }
    assert fs[i..] == [];
    failure := None;
  }

  /** The tabs in order, each rendering the fields of its section; the
      first failure stops the run. */
  method RenderTabs(values: map<string, Value>, tabs: seq<Section>, fields: seq<Field>,
                    widget: Widget)
    returns (written: map<string, Value>, failure: Option<DefaultError>)
    ensures (written, failure) == WriteFields(values, TabFields(tabs, fields), widget)
  {
    written := values;
    failure := None;
    var t := 0;
    assert tabs[0..] == tabs;
    while t < |tabs|
      invariant 0 <= t <= |tabs|
      invariant failure == None
      invariant WriteFields(values, TabFields(tabs, fields), widget)
        == WriteFields(written, TabFields(tabs[t..], fields), widget)
    {
      var fs := SectionFields(fields, tabs[t].key);
      ghost var later := TabFields(tabs[t + 1..], fields);
      NextTab(tabs, t, fields);
      WriteFieldsAppend(written, fs, later, widget);
      written, failure := RenderFields(written, fs, widget);
      if failure.Some? {
        return;
      }
      t := t + 1;
    }
    assert tabs[t..] == [];
  }

  /** The fields still to render: those of the next tab, then the rest. */
  lemma NextTab(tabs: seq<Section>, t: nat, fields: seq<Field>)
    requires t < |tabs|
    ensures TabFields(tabs[t..], fields) == SectionFields(fields, tabs[t].key) + TabFields(tabs[t + 1..], fields)
  {
    assert tabs[t..][0] == tabs[t] && tabs[t..][1..] == tabs[t + 1..];
  }

  /** A fields row typed "Number" rather than "number". */
  const CapitalisedLength := Field("GEN", "LEN", "Boy", "Number", false, Blank, Some("LEN"), "", Blank, Blank, Blank, PadNum(3))

  /** The form lower-cases Type and the encoder does not: a row typed
      "Number" gets a number input, but its value is then written as
      text, so 7 becomes "7.0" instead of the padded "007". */
  lemma TypeCaseDiffers()
    ensures InitialValue(CapitalisedLength, []) == Ok(Number(0))
    ensures FieldCode(CapitalisedLength, Number(7)) == Ok("7.0")
    ensures FieldCode(LengthField, Number(7)) == Ok("007")
  {
    assert Lower("Number") == "number";
    assert IntToString(7) == "7";
    assert Upper("7.0") == "7.0";
    KeepAllowed("7.0");
    PaddingExamples();
  }
}
