# Air-conditioner specification extraction, in Dafny

`script5.py` is a small Streamlit page that simulates the electricity use of an air
conditioner. Given a model name, it searches the web for the unit's technical data sheet. It
pulls the power consumption, the cooling capacity, the inverter flag and the energy class out
of the text it finds. It then merges these with values typed by hand. This project models the
logic of that page, not its widgets:

- `text.dfy` (`Text`): the character model. It gives Python's `str.lower()`, `\d` and `\s` on
  Latin-1, case-insensitive word matching, substring search and greedy runs. It also defines
  `Leftmost`, the "first start position where the scan succeeds" reading of `re.search`.
- `power_value.dfy` (`PowerValue`): `parse_power_value`. It finds the leftmost "digits,
  blanks, unit" token and reads the comma as a decimal point. It converts W, kW and BTU with
  the factors 1, 1000 and 0.29307107, and `None` stands for both "no token" and "`float`
  refused the number".
- `field_extractor.dfy` (`FieldExtractor`): the labelled patterns for consumption, cooling
  capacity and energy class (`find_energy_class`). Each has a declarative match predicate and
  lemmas that the scanner returns the group of the leftmost match and of no other.
- `spec_engine.dfy` (`SpecEngine`): `extract_specs_from_text`. It lowers the text once and
  builds the four-field record.
- `fallback.dfy` (`SourceFallback`): `fetch_product_specs`. The network, HTML and PDF layers
  are inputs: the links of a result page, the text of a downloaded PDF, the text of the
  results block. The result also records the requests made, in order.
- `merge.dfy` (`SpecMerger`): the choice, at script5.py:134-158, between the automatic
  record and the manual inputs.
- `wrappers.dfy` (`Wrappers`): the `Option` type.

Regular expressions are modelled as scanners. Every pattern here is deterministic from a given
start position. The number characters `[\d.,]`, the separators `[:\s]` and the first letters
of the units never overlap, so backtracking cannot find a second way to match. The lemmas
`*Leftmost`, `*Complete` and `*Sound` prove this against declarative predicates such as
`QuantityMatch` and `PowerFieldMatch`.

Four behaviours of the code that a reader of the page might not expect, each kept in the model:

- The merge is whole-record. Automatic values that are only partly present are dropped as a
  whole and never mixed with manual ones.
- The inverter flag is `'Inverter'` whenever "inverter" occurs, so a text that says
  "Non-Inverter" is reported as `'Inverter'`.
- The energy class is returned as matched in the lowered text (`"a++"`, not `"A++"`), with
  any number of `+`.
- The manual inverter choice is never used.

## Model

| member | source | states |
|---|---|---|
| Text.Lower | script5.py:37 | `lower()` on one character leaves digits, blanks and `.,:+` unchanged, and maps no other character into those classes |
| Text.IsDigit | script5.py:20 | `\d` is exactly the ASCII digits 0-9 (a definition, used by the pattern predicates) |
| Text.IsSpace | script5.py:20 | `\s` is exactly the Latin-1 characters CPython counts as whitespace (a definition) |
| Text.WordAt | script5.py:20 | a pattern literal matches at a position under `re.IGNORECASE` when every character of the text there lowers to the literal's (a definition; `ContainsLower` ties it to `in` on the lowered text) |
| Text.LowerText | script5.py:37 | the lowered text has the same length, lowers every character and is all lower case |
| Text.ContainsLower | script5.py:64 | `in` on the lowered text holds exactly when the word occurs in the original text in any mix of cases |
| Text.Contains | script5.py:64 | the substring test holds exactly when the needle occurs at some position |
| Text.RunEnd | script5.py:20 | a greedy run stops at the first character outside its class, or at the end |
| Text.Leftmost | script5.py:20 | `re.search` returns the first start position where the pattern matches, and `None` only when no position matches |
| PowerValue.Factor | script5.py:15-19 | the table gives 1 for `w`, 1000 for `kw` and 0.29307107 for `btu`; every factor is positive, and only BTU scales down |
| PowerValue.UnitAt | script5.py:20 | a unit reported at a position is spelled there, ignoring case; `UnitAtUnique` gives the converse |
| PowerValue.UnitAtUnique | script5.py:20 | at most one of the units `w`, `kw`, `btu` matches at a position, ignoring case |
| PowerValue.QuantityAt | script5.py:20 | a capture's number starts with a digit and holds only digits, dots and commas; `QuantityAtComplete` and `QuantityAtSound` tie it to the pattern |
| PowerValue.QuantityAtComplete | script5.py:20 | a match of "digits, number characters, blanks, unit" at a position is the one the scanner finds there, so no other split of the groups exists |
| PowerValue.QuantityAtSound | script5.py:20 | whatever the scanner finds at a position is a match of the pattern |
| PowerValue.Normalize | script5.py:26 | `replace(',', '.')` changes commas to dots and nothing else |
| PowerValue.ParseDecimal | script5.py:26 | `float` on the normalised number gives a non-negative value or fails |
| PowerValue.ParseDecimalDefined | script5.py:25-28 | `float` succeeds exactly when the text has at most one dot and at least one digit |
| PowerValue.ParseDecimalOfParts | script5.py:26 | reading back digits, a dot and digits gives their decimal value |
| PowerValue.Convert | script5.py:26 | a converted value is never negative; `ConvertDefined` says when it exists and `ConvertValue` what it is |
| PowerValue.ConvertDefined | script5.py:25-28 | a number converts exactly when it holds at most one separator, comma and dot together |
| PowerValue.ConvertValue | script5.py:15-19 | a number converts to its decimal value times 1, 1000 or 0.29307107 for W, kW or BTU, with the comma read as the decimal point |
| PowerValue.ConvertMalformedExample | script5.py:25-28 | "1.2.3" has two separators, so `float` refuses it and there is no value |
| PowerValue.ConvertMixedExample | script5.py:26-28 | "1,2.3" becomes "1.2.3" once the comma is replaced, so it has no value either |
| PowerValue.ParsePowerValue | script5.py:13-28 | the value is never negative |
| PowerValue.ParsePowerValueLeftmost | script5.py:20-28 | the result is the conversion of the leftmost match's number and unit, and no other match is tried |
| PowerValue.ParsePowerValueNoMatch | script5.py:20-22 | with no number followed by a unit, the result is `None` |
| PowerValue.ParseCommaExample | script5.py:20-26 | "1,5 kw" gives 1500 |
| PowerValue.ParseBtuExample | script5.py:18-20 | "12000 BTU/h" gives 3516.85284, with the unit matched ignoring case |
| PowerValue.ParseMalformedExample | script5.py:25-28 | "1.2.3 w" gives `None` |
| PowerValue.ParseUnknownUnitExample | script5.py:20-22 | "5 lbs" gives `None` |
| FieldExtractor.IsGrade | script5.py:32 | `[A-G]` under `re.IGNORECASE` is the letters a-g in either case (a definition) |
| FieldExtractor.TablesUnambiguous | script5.py:32-56 | in each of the three label alternations (lines 32, 47 and 56) no label is a prefix of another, so the alternation never backtracks into a second label |
| FieldExtractor.LabelledAt | script5.py:46-47 | a group found at a position comes from a label of the alternation spelled there, ignoring case, and the tail matched right after that label (the same shape serves lines 32 and 55-56) |
| FieldExtractor.FindField | script5.py:46-47 | `re.search` of "label, tail": the group of the first position where `LabelledAt` succeeds (a definition; `FindFieldLeftmost` and `FindFieldAbsent` state its meaning) |
| FieldExtractor.PowerTail | script5.py:47 | the tail `[:\s]*([\d.,]+\s*(w|kw|btu))` scanned greedily after a label (a definition; `PowerTailComplete` and `PowerTailSound` tie it to the pattern; line 56 has the same tail) |
| FieldExtractor.LabelledAtUnique | script5.py:46-47 | with unambiguous labels, the label found at a position is the only one present there |
| FieldExtractor.FindFieldLeftmost | script5.py:46-52 | the field comes from the first position where a label and its tail match |
| FieldExtractor.FindFieldAbsent | script5.py:51 | with no label-and-tail match anywhere, the field is not found |
| FieldExtractor.PowerTailComplete | script5.py:47 | a match of "separators, number characters, blanks, unit" after a label is the one the scanner finds |
| FieldExtractor.PowerTailSound | script5.py:47 | whatever the scanner finds after a label is a match of that tail |
| FieldExtractor.PowerTailNone | script5.py:46-52 | a label present with no matching tail after it gives the scanner nothing at that position |
| FieldExtractor.ClassTail | script5.py:32 | the captured grade is one letter a-g followed only by `+`, and lower case when the text is |
| FieldExtractor.ClassTailComplete | script5.py:32 | a match of `[:\s]*([A-G][\+]*)` after a label, with all the `+` taken, is the one the scanner finds |
| FieldExtractor.ClassTailSound | script5.py:32 | whatever the scanner finds is a match of that tail |
| FieldExtractor.ClassTailNone | script5.py:32-33 | an energy-class label with no grade after it gives the scanner nothing at that position |
| FieldExtractor.PowerField | script5.py:51-52 | a found consumption or cooling power is never negative |
| FieldExtractor.FindEnergyClass | script5.py:30-33 | the class is a letter a-g followed by any number of `+`, returned unchanged |
| FieldExtractor.PowerFieldLeftmost | script5.py:46-61 | the field is `parse_power_value` of the group of the leftmost labelled match, even when that value is `None` |
| FieldExtractor.PowerGroupLeftmost | script5.py:46-52 | the group passed to `parse_power_value` is the one captured by the leftmost labelled match |
| FieldExtractor.PowerFieldAbsent | script5.py:51-52 | with no labelled match, the field stays `None` |
| FieldExtractor.EnergyClassLeftmost | script5.py:32-33 | the class is the grade of the leftmost labelled match, all its `+` signs kept |
| FieldExtractor.EnergyClassAbsent | script5.py:33 | with no labelled match, the class is `None` |
| FieldExtractor.MalformedFirstExample | script5.py:55-61 | in "capacity: 1.2.3 w; capacity: 5 w" the cooling power is `None`; the second figure is never tried |
| FieldExtractor.EnergyClassPlusExample | script5.py:32-33 | "energy class: a+++" gives "a+++", with no limit on the `+` signs |
| SpecEngine.ExtractSpecs | script5.py:35-69 | the powers are never negative, and a found class is a lower-case letter a-g followed by `+` signs |
| SpecEngine.ExtractSpecsIgnoresCase | script5.py:37 | a text and its lowered form give the same record |
| SpecEngine.ExtractSpecsInverter | script5.py:64 | the flag is `Inverter` exactly when "inverter" occurs in any case, and `NonInverter` otherwise, never absent |
| SpecEngine.ExtractSpecsConsumption | script5.py:45-52 | `consumption_w` is the power value of the leftmost consumption match in the lowered text |
| SpecEngine.ExtractSpecsCooling | script5.py:54-61 | `cooling_w` is the power value of the leftmost cooling match in the lowered text |
| SpecEngine.ExtractSpecsEnergyClass | script5.py:66-67 | `energy_class` is the grade of the leftmost energy-class match in the lowered text |
| SpecEngine.NonInverterExample | script5.py:64 | "Non-Inverter" is flagged `Inverter` |
| SpecEngine.EnergyClassExample | script5.py:35-69 | "Energy class: A+++" gives "a+++" |
| SpecEngine.EmptyTextExample | script5.py:38-43 | an empty text gives no powers, no class and `NonInverter` |
| SourceFallback.PdfQuery | script5.py:73 | the PDF query starts with the model name |
| SourceFallback.PdfLinks | script5.py:80-83 | the candidates are exactly the links with "pdf" in any case and without "google.com" |
| SourceFallback.PdfLinksHead | script5.py:86-87 | the link used is the first link of the page that passes the filter |
| SourceFallback.PdfLinksEmpty | script5.py:86 | there is no candidate exactly when no link passes the filter |
| SourceFallback.PdfLinksAppend | script5.py:80-83 | the filter keeps the page order |
| SourceFallback.PdfLinksFirst | script5.py:86-87 | when there is a candidate, a first one exists in the page |
| SourceFallback.IsPdfLink | script5.py:82 | a link is a candidate when it contains "pdf" once lowered and does not contain "google.com" as written (a definition) |
| SourceFallback.IsPdfLinkIgnoresCase | script5.py:82 | "pdf" is looked for in any case, "google.com" only as written |
| SourceFallback.PdfStage | script5.py:76-97 | the PDF stage makes the PDF search first and at most one more request, a download, which it always makes before a record comes back |
| SourceFallback.PdfStageTrace | script5.py:76-97 | a failed search or a page without a candidate leaves the search as the only request and no record; otherwise the first candidate is downloaded and its text, when read, is extracted |
| SourceFallback.HtmlStage | script5.py:102-106 | the HTML stage makes exactly one search, for the model name |
| SourceFallback.FetchProductSpecs | script5.py:71-109 | one to three requests; the PDF search is made first and never again, the model search never before the last request, and it is last whenever no record comes back |
| SourceFallback.FetchFromPdf | script5.py:86-97 | when the first candidate's PDF is read, its extraction is the result, whatever it holds, and no HTML search is made |
| SourceFallback.FetchFromHtml | script5.py:99-109 | when the PDF stage gives nothing, the HTML search runs once, last, and its failure gives `None` |
| SourceFallback.PdfStageFails | script5.py:76-100 | the PDF stage gives nothing exactly when the search fails, no link passes the filter or the first candidate cannot be read |
| SourceFallback.UpperCasePdfExample | script5.py:82 | "Guide.PDF" is a candidate |
| SourceFallback.GoogleLinkExample | script5.py:82 | "google.com/a.pdf" is not a candidate |
| SourceFallback.EmptyPdfExample | script5.py:86-97 | a PDF with no usable field still ends the search, with an empty record |
| SpecMerger.KeepAuto | script5.py:140-144 | the automatic record is kept when it exists and has a consumption and a cooling power, neither zero (a definition) |
| SpecMerger.MergeSpecs | script5.py:140-158 | values are shown exactly when the automatic record is kept or a manual power is nonzero, and then one of the two powers is nonzero |
| SpecMerger.MergeKeepsAuto | script5.py:140-158 | a kept record supplies consumption, cooling and class, the class even when absent, whatever was typed |
| SpecMerger.MergeDropsAuto | script5.py:144-158 | a dropped record contributes nothing and every value is the manual one |
| SpecMerger.MergeWholeRecord | script5.py:150-158 | the values never mix the two sources |
| SpecMerger.MergeIgnoresInverter | script5.py:127-158 | the manual inverter choice has no effect |
| SpecMerger.MergeNonNegative | script5.py:126-151 | from an extraction, or from widgets that refuse negatives, the values are not negative |
| SpecMerger.KeptWithoutClassExample | script5.py:140-158 | found 850 W and 2500 W with no class beat typed 900 W, 2600 W, A++, and the class shown is absent |
| SpecMerger.PartialDroppedExample | script5.py:140-158 | found 850 W without a cooling power gives way entirely to the typed 900 W, 2600 W, A++ |

## Left out

- The Streamlit page itself (titles, widgets, messages, charts) is presentation. Only the
  merge rule is modelled. The search result enters as `None` when the button is not pressed or
  the model name is empty.
- The usage and cost arithmetic (daily and monthly kWh, the 0.18 €/kWh price, the hourly
  profile) is display arithmetic and is not modelled.
- HTTP requests, BeautifulSoup and PyPDF2 are foreign code. Their outcomes are the inputs
  `searchLinks`, `pdfText` and `searchText`, with `None` for any exception they raise. Timeouts
  and headers are not modelled.
- URL quoting of the queries is not modelled. A request records the query text before
  quoting.
- At script5.py:87 the call `parse_qs(` is never closed, so the file as written does not parse and
  none of it runs. The model reads that line as "download the first filtered link", the link
  as it stands, without unwrapping a redirect.
- Floating point is not modelled. Values are exact reals, and 0.29307107 is an exact decimal.
- Characters outside Latin-1 are not modelled. Python's `lower()`, `\s`, `\d` and
  case-insensitive matching are exact on U+0000-U+00FF. Beyond it they differ, for example in
  other digits, other blanks and the Kelvin sign matching `k`.
- The configuration constants and `SCRAPING_ENABLED` only set headers and a banner.
