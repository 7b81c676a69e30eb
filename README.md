# Long-code wizard — a Dafny model

`app.py` is a three-step Streamlit wizard. It builds a machine's "long code" from four spreadsheet tables: products, sections, fields and options.

- **Step 1** offers the top-level categories.
- **Step 2** offers the sub-categories of the chosen category.
- **Step 3** offers a select box of the matching products, then one tab per section of the chosen machine. Each tab holds the widgets of that section's fields.
- The generate button encodes the collected values into one string. The header tokens come first: `UKP`, `V1`, `S1<category code>`, `S2<sub-category code>` and `PRD<product code>`. Then comes one `<key><value>` token per non-blank field, and everything is joined with `-`.

This project models three parts of `app.py` and proves properties about them:

- **The encoder** (modules `LongCode` and `Padding`): `sanitize`, `pad_number` and `encode_long_code`.
- **The session record and its transitions** (module `Wizard`): a class `Session` whose methods are the wizard's buttons and widgets.
- **The initial value of each form widget** (module `Defaults`).

Supporting modules:

- `Schema`: the table rows and the category tables.
- `Text`: decimal digits, ASCII case mapping, `join` and `split`.
- `Sorting`: `sort_values("Order")`.
- `Wrappers`: `Option` and `Result`.

## How the model follows the code

- **Values.** Numbers are integers. A number input returns a Python float, which may have a fractional part when the user types one; the model keeps only integral values and lists the rest under "Left out". `str()` of a stored number prints `7.0`.
- **Text read as a number.** `float()` and `int()` also read text. A number field whose stored value is a digit string such as `"12"` is padded like the number 12 (`Padding.TextValuePadding`).
- **Padding errors.** `pad_number` raises on a pad it cannot parse. Examples: a negative width, `"a.b"`, `"1.2.3"`, or a list value under a width pad. The model returns `Err` instead, and the encoder passes the first such error on. The source's rerun would stop with an exception.
- **Fixed-point pads follow the code.** 7 with pad `"5.2"` formats as `07.00` and then drops the point, giving `"0700"`. The width counts the point, so when the width is large enough to need zero fill (at least the digits plus the decimals plus one) the result is one character shorter than the width (`Padding.FixedPointExample`, `Padding.FixedPointDigits`).
- **Type matching.**
  - The encoder compares Type case-sensitively (`"number"`, `"multiselect"`).
  - The form lower-cases Type first.
  - So a row typed `Number` gets a number input, but its value is then sanitised as text: 7 becomes `7.0` rather than a padded number (`Wizard.TypeCaseDiffers`).
- **Nothing is cleared on a transition.** This follows the code:
  - choosing a category leaves `s2` alone;
  - Back leaves `s1` alone;
  - choosing a product leaves `form_values` alone;
  - no transition leaves step 3.

  The class invariant `Session.Valid` shows what this means. `s2`, a product and the form values can exist only in step 3, and step 3 is never left, so a stale `s2` is never seen. A category left over from Back is always one of the step-1 choices. Stale form values are observable: values entered for a previously chosen product stay in `form_values`, and the encoder writes every filled-in row of the whole fields table, so they reach the long code (`LongCode.FilledFieldEncoded`).
- **Empty button labels.** A step-2 button whose label is the empty string does nothing. The source tests `if clicked:`, and `""` is falsy.
- **Rendering.** Step 3 renders the fields tab by tab. Each widget writes its value into `form_values`:
  - the value the user left in the widget, when there is one;
  - otherwise the field's initial value.

  A number field whose Min, Max, Step or Default cell `float()` cannot read stops the run. The values written before it stay.
- **Generating.** The generate button is drawn only when the chosen machine has sections and the tabs rendered without an exception. A click stores the new long code; when a value cannot be written the encoder raises, the run stops, and the previous long code stays (`Wizard.Session.GenerateCode`, `Wizard.Session.RenderAndGenerate`).

## Model

| member | source | states |
|---|---|---|
| LongCode.Sanitize | app.py:58-59 | the result uses only `A-Z 0-9 . _ -` and is no longer than the input |
| LongCode.SanitizeChar | app.py:58-59 | a character is kept, upper-cased, exactly when its upper-case form is allowed; with `SanitizeAppend` this determines `sanitize` on every string |
| LongCode.SanitizeIdempotent | app.py:58-59 | sanitising twice is sanitising once |
| LongCode.SanitizeFixedPoints | app.py:58-59 | a string is left unchanged by `sanitize` exactly when every character is allowed |
| LongCode.SanitizeAppend | app.py:58-59 | `sanitize` works character by character: it distributes over concatenation |
| LongCode.KeepAllowed | app.py:59 | the character filter keeps a string of allowed characters whole |
| LongCode.SanitizeDropsExample | app.py:58-59 | `"Ağ 1"` sanitises to `"A1"`: the space and the non-ASCII letter are removed |
| LongCode.SanitizeUpperExample | app.py:58-59 | `"kirmizi"` sanitises to `"KIRMIZI"` |
| LongCode.SanitizeListText | app.py:58-59 | sanitising `str()` of a list keeps only its sanitised items, run together without separators |
| LongCode.SanitizeQuotedJoin | app.py:58-59 | the brackets, quotes, commas and spaces of a list's repr all disappear under `sanitize` |
| Padding.ParseCount | app.py:64-67 | a width or decimal count parses exactly when it is a non-empty run of digits, and then has the value of those digits |
| Padding.NumericValue | app.py:62-68 | `float()`/`int()` of a stored value: a number is itself, text is read exactly when it is a digit run, None and lists cannot be read |
| Padding.PadNumberTotal | app.py:61-70 | `pad_number` succeeds exactly when the pad is plain text, or the value reads as a number and the pad is well formed (no negative width, no malformed `"w.d"`) |
| Padding.TextValuePadding | app.py:62-69 | a digit-string value is padded exactly like the number it reads as, under every pad but plain text |
| Padding.TextValueExamples | app.py:62-65 | text `"12"` gives `"12"` unpadded and `"012"` with width 3; `"007"` unpadded gives `"7"` |
| Padding.MissingPadIsInteger | app.py:62-63 | with a missing pad, a number is written as its plain integer: digits reading back to it, with no leading zero, and `-` first when negative |
| Padding.WidthPadding | app.py:64-65 | an integer width (number or digit text) gives `max(w, digits)` characters, all digits, reading back to n |
| Padding.NegativeWidthPadding | app.py:64-65 | for negative n the sign takes one of the w characters: `-` followed by digits reading back to -n |
| Padding.NegativeZeroPad | app.py:65 | zero padding of a negative number keeps the sign first and pads after it |
| Padding.SplitPointed | app.py:67 | `"w.d"` with digit runs splits into exactly `[w, d]` |
| Padding.FixedPointSpecShape | app.py:66-67 | a pad splits into two digit runs exactly when it is digits, one point, digits |
| Padding.FixedPointBranch | app.py:66-69 | a `"w.d"` pad formats n with d decimals in width w, then removes the point |
| Padding.FixedPointDigits | app.py:66-69 | after the point is removed: length `max(w, digits+d+1) - 1`, all digits, value `n * 10^d` |
| Padding.FixedPointNoDecimals | app.py:66-69 | `"w.0"` is the same as the integer width w |
| Padding.OtherPadIsPlainText | app.py:70 | any other non-empty pad without digits-only or a point gives `str(val)` unchanged, `7.0` for 7 |
| Padding.PaddingExamples | app.py:61-70 | 7 gives `"7"`, `"007"` (pad 3 or `"3"`); -7 with pad 4 gives `"-007"` |
| Padding.FixedPointExample | app.py:66-69 | 7 with `"5.2"` gives `"0700"` |
| Padding.PlainTextPadExample | app.py:70 | 7 with pad `"abc"` gives `"7.0"` |
| Text.SplitJoin | app.py:67 | joining the parts of `split(c)` with `c` gives the string back |
| Text.JoinAppend | app.py:86 | joining a concatenation is joining each half with the separator between |
| LongCode.SentinelCodes | app.py:73 | the header code is `XX` (`YY`) exactly when the category (sub-category) is absent or not in the table |
| LongCode.ExampleCodes | app.py:46-47 | Rulo Besleme maps to `RB`, Hafif Grup to `HG`; a product code `RB01` is kept |
| LongCode.ExampleHeaderTokens | app.py:73 | the header for Rulo Besleme / Hafif Grup / RB01 is `UKP, V1, S1RB, S2HG, PRDRB01` |
| LongCode.EncodeLongCode | app.py:72-86 | the loop that appends one part per non-blank field and joins with `-` computes `LongCode`: the same string, or the first padding error |
| LongCode.LongCodeShape | app.py:72-86 | the long code exists exactly when every field token can be written; it is the joined header, then `-` and the joined field tokens when there are any |
| LongCode.PresentMembers | app.py:74-77 | a field contributes a token exactly when it is in the fields table and its stored value is not None, "", [] or 0 |
| LongCode.FieldTokensOk | app.py:74-85 | encoding fails exactly when some non-blank field's value cannot be written |
| LongCode.FieldTokensValue | app.py:74-85 | on success there is one token per non-blank field, in table order, each the encoding key followed by that field's code; with the header that is 5 + that many tokens |
| LongCode.FieldTokensAppend | app.py:74-85 | the tokens of two runs of fields are the tokens of the first then the second, and the first error wins |
| LongCode.OmissionLaw | app.py:76-77 | deleting a row whose value is blank does not change the encoding |
| LongCode.OnlyTableKeysMatter | app.py:74-75 | values stored under keys no fields row has do not affect the encoding |
| LongCode.FilledFieldEncoded | app.py:74-85 | every filled-in row of the fields table contributes its token, whatever section or machine it belongs to |
| LongCode.CodeWritable | app.py:79-84 | text, selects, multiselects, and numbers or digit strings under a well-formed pad can always be written |
| LongCode.EncodeSucceeds | app.py:74-85 | if every non-blank field's value is writable, the encoding succeeds |
| LongCode.CodeAlphabet | app.py:79-84 | a field not typed `number` always encodes, using only allowed characters |
| LongCode.ExampleColorToken | app.py:76-85 | a text field `kirmizi` with EncodeKey CLR gives the token `CLRKIRMIZI` |
| LongCode.ExampleLengthToken | app.py:76-85 | a number field 7 with pad 3 and EncodeKey LEN gives the token `LEN007` |
| LongCode.ExampleFieldTokens | app.py:74-85 | the two fields give `[CLRKIRMIZI, LEN007]` in table order |
| LongCode.ExampleLongCode | app.py:72-86 | the whole example encodes to `UKP-V1-S1RB-S2HG-PRDRB01-CLRKIRMIZI-LEN007` |
| Sorting.SortBySorted | app.py:141 | rows sorted by Order are in non-decreasing Order |
| Sorting.SortByMembers | app.py:161 | sorting keeps exactly the rows it was given (the multiset is kept too) |
| Defaults.OptionsForSpec | app.py:161 | a field's options are all the rows of its OptionsKey and no others, in non-decreasing Order |
| Defaults.IndexOf | app.py:167 | `list.index`: the first position holding the value |
| Defaults.SelectIndex | app.py:165-167 | the preselected index is that of Default among the codes when Default is text equal to one of them, else 0 |
| Defaults.SelectDefault | app.py:165-169 | the select starts on the Default code when offered, on the first code otherwise, and on None when there are no options |
| Defaults.MultiselectDefault | app.py:171-172 | the multiselect starts on `[Default]` exactly when Default is text among the codes, else on `[]` |
| Defaults.CellNumber | app.py:175-178 | `float()` of a cell succeeds on a number, and on text exactly when it is a digit run, giving the value of those digits |
| Defaults.CellOr | app.py:175-178 | a readable cell's number, or the fallback when the cell is blank |
| Defaults.NumberDefault | app.py:174-179 | Min, Max and Step default to 0, 1e9 and 1; the value is Default (a number, or the value of its digits), or the minimum when Default is blank; an unreadable Min, Max, Step or Default is an error |
| Defaults.TextDefault | app.py:183 | a text input starts on `str(Default)`, or `""` when Default is blank |
| Defaults.InitialValueSpec | app.py:160-184 | by Type lower-cased: select and multiselect start on codes of the field's own option group; only a number field with an unreadable Min, Max, Step or Default fails |
| Wizard.S1CandidatesSpec | app.py:98 | the step-1 buttons are exactly the categories of `S1_ORDER` present in the products table, each once, in the order of `S1_ORDER` |
| Wizard.PresentCategoriesSpec | app.py:98 | filtering a list without duplicates keeps exactly the present entries, without duplicates, in the list's order |
| Wizard.SubCategoriesOf | app.py:109 | the sub-categories listed are those of rows whose Kategori1 is s1, missing ones dropped |
| Wizard.Unique | app.py:109 | `unique()` keeps every value and no duplicate |
| Wizard.S2CandidatesSpec | app.py:109 | the step-2 buttons are the distinct sub-categories of s1, and each leads to at least one product |
| Wizard.ProductChoices | app.py:126 | the products offered are exactly the rows of the chosen category and sub-category |
| Wizard.Displays | app.py:130 | one entry per product, `name (code) — machine` |
| Wizard.ChosenProduct | app.py:131-135 | the chosen entry selects the first product showing as that entry |
| Wizard.MachineSections | app.py:141 | the sections of the chosen category, sub-category and machine, all of them |
| Wizard.SectionsForSpec | app.py:141 | the tabs are exactly those sections, in non-decreasing Order |
| Wizard.SectionFields | app.py:150 | a tab's fields are exactly the fields rows with its SectionKey |
| Wizard.WidgetValue | app.py:164-184 | a widget hands back the value the user left in it, else its initial value, and fails exactly when the initial value fails |
| Wizard.WriteFieldsAppend | app.py:148-184 | rendering two runs of fields is rendering the first, then (unless it failed) the second |
| Wizard.WriteFieldsFrame | app.py:169-184 | rendering only adds or overwrites the rendered fields' keys; other keys keep their values |
| Wizard.WriteFieldsValues | app.py:169-184 | after a run without failure and with distinct keys, each field's key holds its widget's value |
| Wizard.RenderFields | app.py:155-184 | the per-field loop of one tab computes `WriteFields` |
| Wizard.RenderTabs | app.py:148-184 | the per-tab loop computes `WriteFields` over the fields of all tabs in order |
| Wizard.Session.constructor | app.py:39-43 | the first run: step 1, nothing chosen, no form values |
| Wizard.Session.ChooseCategory | app.py:98-103 | a step-1 button sets s1 and step 2, touches nothing else and keeps the session invariant |
| Wizard.Session.Back | app.py:113-115 | Back sets step 1 only; s1 stays |
| Wizard.Session.ChooseSubCategory | app.py:109-119 | a step-2 button sets s2 and step 3, and there is a product to choose; an empty label does nothing |
| Wizard.Session.ChooseProduct | app.py:126-135 | the chosen product row is the first one showing as the chosen entry; form values are kept |
| Wizard.Session.SetFieldValue | app.py:169-184 | one widget storing its value under its field key changes that key only |
| Wizard.Session.RenderForm | app.py:137-184 | the form values after step 3's tabs are those `WriteFields` gives for the chosen machine's sections by Order; the failure, if any, is the first |
| Wizard.Session.GenerateCode | app.py:188-191 | when the encoding succeeds `long_code` becomes it; when it fails the error is returned and the previous `long_code` stays |
| Wizard.Session.RenderAndGenerate | app.py:141-191 | without sections nothing changes; otherwise the tabs are rendered, and only a click after a render without failure generates the long code |
| Wizard.TypeCaseDiffers | app.py:79-84 | a row typed `Number` gets a number input but is encoded as text: 7 becomes `7.0`, while `number` gives `007` |

## Left out

- Streamlit widgets, layout, `st.rerun`, the sidebar and the download buttons. The model keeps only the values the widgets hand back and the session keys they write.
- Reading the schema from Excel with pandas, the `STATIC_SCHEMA` switch and the uploader. The tables are parameters, given as sequences of records.
- QR image generation and the PNG buffer: these are foreign library calls.
- Non-integral floats and floating-point formatting: numbers are integers. Python's exponent form for very large floats is not modelled either.
- Unicode upper- and lower-casing (`ß`, `ı` and the like). Case mapping is ASCII only, and the non-ASCII characters that `sanitize` later removes are left as they are.
- Padding.PadNumber: `int()` and `float()` also accept surrounding whitespace, a sign, underscores and non-ASCII digits in text pads, and text values such as `"1.5"`, `" 12"` or `"-3"`. The model reads only plain ASCII digit runs and treats the rest as an error or as plain text, as the branch order decides.
- Defaults.CellNumber: for the same reason, Min, Max, Step or Default text such as `" 5"`, `"-2"` or `"1.5"`, which `float()` accepts, is treated as unreadable.
- LongCode.EncodingKey: a blank EncodeKey cell arrives from pandas as NaN, which is truthy, so the source would use the key `nan`. The model treats a blank cell like a missing one and falls back to FieldKey.
- Schema.ToText: Python's repr of a list chooses double quotes for items containing `'` and escapes control characters and backslashes. The model always quotes with `'` and never escapes. The quotes disappear under `sanitize` either way, but escapes do not: an item `a` newline `b` is written `'a\nb'` by Python, which sanitises to `ANB`, while the model gives `AB`.
- Sorting.SortBy: how `sort_values("Order")` arranges rows with equal Order is not promised by pandas. Only the Order sequence and the multiset of rows are stated.
- Widget labels (a required field's label gets ` *`) and the option labels shown beside each code are display only and are not modelled.
- Wizard.WidgetValue: a widget keeps its state across reruns by its key, so its default applies only on first render. This is modelled by the `entered` map of values the user left in widgets. Streamlit's rejection of a number value outside `[min, max]`, and of duplicate widget keys, is not modelled.
- Defaults.TextDefault: a numeric Default is printed as an integer. pandas would print `5.0` for a Default column read as floats.
- The step-1 buttons do not model an empty-string category, because `S1_ORDER` has none.
