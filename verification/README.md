# ISO-8583 log line to JMeter sampler converter, modelled in Dafny

The converter reads one line of an ISO-8583 gateway log, such as
`RX <Msg=1100> <F2=4895251000000009> <F3=000000>`, and extracts the message type and the
numbered fields from it. It renders those fields as a JMeter `ISO8583Sampler` XML element whose
`testname` carries a timestamp. It then writes a copy of a JMeter test-plan template with that
element inserted right after the first closing sampler tag that is followed by a line break,
exactly twelve spaces and `<hashTree/>`. A second routine rewrites the fields
of a 1100 authorisation as the fields of a 1420 advice message.

The model follows the program's structure, one module per routine:

- `Wrappers`: `Option` and `Result`.
- `Text`: character helpers. Digit runs model `\d+`. Runs up to a stop character model `[^>]+`.
  `IndexOf` models JavaScript's `indexOf`.
- `Fields`: the `{ name, content }` record, and `Find`, the first entry with a given name
  (`Array.prototype.find`).
- `Extract`: `parseISO8583Fields`. Both regular expressions are explicit scanners. Each is
  proved sound and complete against a declarative description of the text a match covers.
- `Fragment`: `createJMeterXMLString`, with its newlines and indentation written out exactly.
  It also holds a reader, `Fragment.Read`, that exists only in the model. It recovers the
  timestamp and the fields from a rendered element and is the renderer's partner: rendering
  then reading gives back what was rendered.
- `Splice`: the text handling of `processTemplateFile`. It finds the first closing sampler tag
  followed by a line break, exactly twelve spaces and `<hashTree/>`, and inserts a line break and
  the new element right after it. A sampler closed at any other indentation is not matched.
  When no such text occurs it returns the program's Italian error message.
- `Advice`: `process1420TemplateMessage`. It keeps the 19 listed fields in list order and
  forces field 24 to `400`. It derives field 117 from field 12 and field 56 from fields 11, 12
  and 32.
- `Converter`: the data flow of `main`, from log line to test plan, with the timestamp and the
  template's text as inputs.

Behaviour of the code that a reader might not expect:

- Only the leftmost `<Msg=…>` marker is used. A marker `<F0=…>` also yields a field named `0`.
  Repeated field numbers are all kept, in text order.
- Field 24 appears in the advice only when the input carries it. It is then `400`, whatever its
  value was. Field 11 is never copied, yet it feeds field 56. An input that already carries
  field 117, and whose first field 12 has at least ten characters, gets two fields 117: the copy,
  then the derived one.
- Field 117 is `DD MM hh mm ss`, taken from a field 12 laid out as `YY MM DD hh mm ss`.
  - When field 12 has exactly ten characters, the seconds default to `30`.
  - When field 12 has eleven characters, the seconds are the single eleventh character, so
    field 117 then has nine characters.
  - The comment at `src/template1420.js:41` pairs `250820032630` with `0820152330`. The code
    produces `2008032630`, and the model follows the code.
- `src/template1420.js` has no reversal transform and no placeholder for field 37.
- Inserting twice into the same template text puts the newer element first, whatever the two
  elements are. Both insertions go right after the template's original first anchor, because an
  insertion leaves the text up to and including that anchor unchanged. `main` itself always
  splices into the text of `./template/template.jmx`, so it never splices twice into the same
  text.

## Model

| member | source | states |
|---|---|---|
| Text.IndexOf | src/iso_to_jmx_converter.js:87 | the index of the first occurrence at or after the start; `None` exactly when there is no occurrence there |
| Text.DigitRunSpec | src/iso_to_jmx_converter.js:34 | a greedy `\d+` run is all digits and stops at the end or at a non-digit |
| Text.RunBeforeSpec | src/iso_to_jmx_converter.js:34 | a greedy `[^>]+` run holds no `>` and stops at the end or at a `>` |
| Fields.Find | src/template1420.js:20 | `find` by name: `None` exactly when no entry has the name, otherwise an entry with that name |
| Fields.FindFirst | src/template1420.js:20 | the entry `find` returns is the one at the first index carrying the name |
| Extract.MsgAt | src/iso_to_jmx_converter.js:25 | a match of `<Msg=(\d+)>` at a position captures a nonempty digit string that fits in the text |
| Extract.MsgAtSound | src/iso_to_jmx_converter.js:25 | whatever the matcher captures is read from a literal `<Msg=DIGITS>` marker at that position |
| Extract.MsgAtComplete | src/iso_to_jmx_converter.js:25 | every `<Msg=DIGITS>` marker in the text is matched, with exactly its digits |
| Extract.MsgAtIff | src/iso_to_jmx_converter.js:25 | the matcher succeeds at a position if and only if a message-type marker starts there |
| Extract.FieldAt | src/iso_to_jmx_converter.js:34-39 | a match of `<F(\d+)=([^>]+)>` captures a nonempty digit name and a nonempty value without `>`, and ends after its start |
| Extract.FieldAtSound | src/iso_to_jmx_converter.js:34-39 | whatever the matcher captures is read from a literal `<F NAME = VALUE>` marker spanning the match |
| Extract.FieldAtComplete | src/iso_to_jmx_converter.js:34-39 | every field marker is matched with its own name and value, and the match ends just past its `>` |
| Extract.FieldAtIff | src/iso_to_jmx_converter.js:34-39 | the matcher succeeds at a position if and only if a field marker starts there |
| Extract.FirstMsg | src/iso_to_jmx_converter.js:25 | `match` without the `g` flag: the leftmost position where the message regex matches, no match before it, or none at all |
| Extract.AllFields | src/iso_to_jmx_converter.js:37-45 | the `exec` loop of the global regex yields only well-formed field records |
| Extract.AllFieldsFindsMarker | src/iso_to_jmx_converter.js:37-45 | if any field marker lies at or after the scan's start, the loop yields at least one field |
| Extract.AllFieldsHasMarker | src/iso_to_jmx_converter.js:37-45 | the loop yields a field only if some position holds a field marker |
| Extract.AllFieldsSkip | src/iso_to_jmx_converter.js:37 | positions where no marker starts contribute nothing to the scan |
| Extract.AllFieldsScanned | src/iso_to_jmx_converter.js:37-45 | on any text, the loop's output is the list of successive leftmost field markers, each search resuming after the previous marker, with no marker after the last |
| Extract.ScannedIsAllFields | src/iso_to_jmx_converter.js:37-45 | a list that is the successive leftmost field markers in that sense is exactly the loop's output |
| Extract.AllFieldsIff | src/iso_to_jmx_converter.js:37-45 | on any text, the loop's output equals a list if and only if that list is the successive leftmost markers, in text order and with duplicates |
| Extract.AllFieldsSerialize | src/iso_to_jmx_converter.js:37-45 | blank-separated field markers are extracted back as the same list, in order and with duplicates |
| Extract.Parse | src/iso_to_jmx_converter.js:21-48 | the result is all extracted fields, preceded by at most one entry: field `0` carrying the message-type digits |
| Extract.ParseLeftmostMsg | src/iso_to_jmx_converter.js:25-31 | when a message-type marker exists, field `0` holds the digits of the leftmost one and the fields follow |
| Extract.ParseWithoutMsg | src/iso_to_jmx_converter.js:24-31 | without a message-type marker the result is just the field markers |
| Extract.ParseEmptyIff | src/iso_to_jmx_converter.js:21-48 | nothing is extracted if and only if the text holds no marker of either kind |
| Extract.FieldsAfterLead | src/iso_to_jmx_converter.js:37-45 | in free text without `<` followed by a message-type marker and blank-separated field markers, the scan finds exactly those fields |
| Extract.MsgAfterLead | src/iso_to_jmx_converter.js:25-31 | in free text without `<` followed by a message-type marker, field `0` carries that marker's digits |
| Extract.ParseRoundTrip | src/iso_to_jmx_converter.js:21-48 | free text without `<`, then a message-type marker, then field markers, extracts to field `0` and then exactly those fields |
| Extract.ParseExample | src/iso_to_jmx_converter.js:21-48 | `<Msg=1100> <F2=A> <F2=B>` extracts to `0=1100`, `2=A`, `2=B` |
| Fragment.BlocksAppend | src/iso_to_jmx_converter.js:62-67 | the field blocks of a concatenated list are the blocks of each part in turn: one block per field, in list order |
| Fragment.RenderWith | src/iso_to_jmx_converter.js:51-77 | the rendered element starts with the header carrying the timestamp and ends with the fixed footer |
| Fragment.Render | src/iso_to_jmx_converter.js:51-77 | the sampler element starts with the header carrying the timestamp and ends with the closing sampler tag and empty `hashTree` |
| Fragment.SamplerDelimited | src/iso_to_jmx_converter.js:52-66 | in the literal template a `"` follows the timestamp, a non-digit follows each name and a `<` follows each value |
| Fragment.ReadBlockComplete | src/iso_to_jmx_converter.js:63-66 | the block of a field with a digit name and a value without `<` reads back as that field, leaving the following text untouched |
| Fragment.ReadBlocksComplete | src/iso_to_jmx_converter.js:62-67 | the blocks of a list of fields with digit names and values without `<` read back as the same list |
| Fragment.ReadBodyComplete | src/iso_to_jmx_converter.js:62-74 | for fields with digit names and values without `<`, the blocks followed by the footer read back as the field list |
| Fragment.ReadStampedComplete | src/iso_to_jmx_converter.js:52-59 | the timestamp written into `testname` is recovered up to the closing `"` |
| Fragment.ReadRenderWith | src/iso_to_jmx_converter.js:51-77 | for any template with the delimiters above, a timestamp without `"` and fields with digit names and values without `<`, reading a rendered element gives back its timestamp and fields |
| Fragment.ReadRender | src/iso_to_jmx_converter.js:51-77 | for fields with digit names and values without `<` and a timestamp without `"`, reading the converter's sampler element gives back its timestamp and its fields in order |
| Splice.Splice | src/iso_to_jmx_converter.js:86-99 | fails, with the not-found message, exactly when the template lacks the anchor; otherwise the output is one line break and the element longer than the template |
| Splice.FirstAnchorUnique | src/iso_to_jmx_converter.js:87 | the first occurrence of the anchor is a single position |
| Splice.SpliceAt | src/iso_to_jmx_converter.js:86-99 | the output is the template up to the end of its first anchor, a line break, the element, then the rest of the template |
| Splice.SplicePieces | src/iso_to_jmx_converter.js:94-99 | the template's prefix and suffix reappear unchanged around the line break and the element |
| Splice.FirstAnchorKept | src/iso_to_jmx_converter.js:87 | text that agrees with the template up to the end of its first anchor has its first anchor in the same place |
| Splice.SpliceTwice | src/iso_to_jmx_converter.js:86-99 | two insertions into one template both land after its first anchor, the newer element first |
| Advice.PresentMembers | src/template1420.js:19-21 | a listed name is copied if and only if the input carries a field with that name |
| Advice.CopyIncluded | src/template1420.js:19-35 | no more copies than listed names |
| Advice.CopyIncludedSpec | src/template1420.js:19-35 | one field per listed name the input carries, in list order, with the content of the first input field of that name, and `400` for field 24 |
| Advice.Derive117 | src/template1420.js:43-51 | a value exists exactly when field 12 has at least ten characters; it has ten characters, or nine when field 12 has eleven |
| Advice.Derive117Restores | src/template1420.js:44-51 | for a full twelve-character field 12, the year and field 117 rebuild field 12 |
| Advice.Derive117DefaultSeconds | src/template1420.js:49-51 | a ten-character field 12 gives day, month, hour and minute followed by the default `30` |
| Advice.Derive117Example | src/template1420.js:41-51 | `250820032630` gives `2008032630` |
| Advice.Derive117Parts | src/template1420.js:44-51 | for every accepted length, day, month, hour and minute land in that order, followed by what field 12 has from index 10 up to 12, or `30` when it has nothing there |
| Advice.Field117 | src/template1420.js:38-55 | field 117 is produced exactly when the first field 12 has at least ten characters, and its value is derived from that first field 12 |
| Advice.Field56 | src/template1420.js:62-70 | field 56 is produced exactly when fields 11, 12 and 32 are all present |
| Advice.Field56Pieces | src/template1420.js:66 | field 56 is `1100`, then field 11, field 12, `05` and field 32, each at its own offset |
| Advice.Process1420 | src/template1420.js:6-76 | the advice always starts with message type `0` = `1420` |
| Advice.Process1420Count | src/template1420.js:6-76 | the advice has one entry for the type, one per present listed field, and one for each derived field produced |
| Advice.Process1420Layout | src/template1420.js:6-76 | the copies follow the type in list order, field 117 comes right after them, and field 56 comes last |
| Advice.Process1420Entry | src/template1420.js:6-76 | every position holds either the type, the copy of a listed field, or a derived field 117 or 56 |
| Advice.Process1420Names | src/template1420.js:8-73 | every field of the advice is the type or one of the 19 listed names |
| Advice.Process1420DropsField11 | src/template1420.js:8-35 | field 11 never appears in the advice |
| Advice.Field24Copied | src/template1420.js:22-27 | every field 24 of the advice reads `400` and comes from a field 24 of the request |
| Advice.Field24Kept | src/template1420.js:19-27 | a request with field 24 gives an advice with field 24 |
| Advice.Process1420Field24 | src/template1420.js:22-27 | the advice carries field 24 if and only if the input does, and always with content `400` |
| Advice.Process1420KeepsBoth117 | src/template1420.js:8-55 | an input carrying field 117 and a usable field 12 yields two fields named 117 |
| Converter.Convert | src/iso_to_jmx_converter.js:124-151 | conversion fails exactly when the template lacks the anchor |
| Converter.AnchorIsSamplerEnd | src/iso_to_jmx_converter.js:86 | the anchor is the last two lines of every rendered element |
| Converter.RenderEndsWithAnchor | src/iso_to_jmx_converter.js:70-74 | every rendered element ends with the anchor |
| Converter.ParsedNamesAreDigits | src/iso_to_jmx_converter.js:21-48 | every extracted field name is a digit string |
| Converter.ConvertKeepsFields | src/iso_to_jmx_converter.js:124-151 | the output holds, right after the template's first anchor, an element that reads back as the timestamp and the extracted fields and itself ends with the anchor |

## Left out

- `generateTimestamp` (src/iso_to_jmx_converter.js:15-18) reads the clock, so the timestamp is a parameter of `Converter.Convert`.
- File reading and writing in `processTemplateFile` and `main` are not modelled. The template's text is a parameter and the output text is the result. This covers the template path, the existence check, the output file name and `process.exit`.
- The error raised in `processTemplateFile` becomes an `Err` carrying the same message. The caught exception, the console message and the exit code are not modelled.
- `main`'s command-line argument check is not modelled.
- Logging (`util/log.js`, and `printInfo` in `src/template1420.js`) is left out because it only prints.
- `process1420TemplateMessage` is not called from `main`, so `Advice` is not connected to `Converter`.
- JavaScript strings are UTF-16 code unit sequences. The model uses Dafny characters, which agree for text without surrogate pairs.
- Fragment.ReadRender: proved only for fields with digit names, values without `<` and timestamps without `"`. The renderer does no XML escaping, so other values and timestamps render ambiguously and cannot always be read back. The reader accepts only digit names, which is all the parser produces; `createJMeterXMLString` itself accepts any name.
- Converter.ConvertKeepsFields: proved only for values without `<` and timestamps without `"`, for the same reason; parsed names are always digits.
- `Fragment.Read` and its stages are not part of the program. They serve as the renderer's inverse.
