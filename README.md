# translation-xml-parser: the record readers, modelled in Dafny

translation-xml-parser reads the translation formats XLIFF 1.2, TMX, TBX and
a spreadsheet layout into in-memory records (files, translation units,
variants, term entries). Each XML reader is a single pass over the events of
a pull tokenizer. It keeps one "current" record per nesting level, fills it
in from start tags and from the segment parser, and on the closing tag
appends it to its parent only when it passes an emptiness check. The
spreadsheet reader reads a header row and then one translation unit per data
row.

This project models those four readers and proves what they keep:

- `events.dfy`, module `Events`: the tokenizer's event stream, the fatal
  errors, and the ASCII lower-casing of language tags.
- `segments.dfy`, module `Segments`: segment trees, and the segment parser
  and inline parser as parameters (oracles).
- `xliff.dfy`, module `Xliff`: `XliffFile::parse`, which builds file →
  trans-unit → source/target.
- `tmx.dfy`, module `Tmx`: `TmxFile::parse`, which builds tu → tuv → seg.
- `tbx.dfy`, module `Tbx`: `TbxFile::parse`, which builds termEntry →
  langSet → term.
- `xlsx.dfy`, module `Xlsx`: `TranslationXlsx::parse` and `get_meta`.

Every XML reader has the same two layers:

- **A specification, as functions.**
  - `OnStart`/`OnEnd` say what one tag does.
  - `Step` is one turn of the event loop: it continues at a later position,
    stops at `Eof`, or fails.
  - `Run` runs the loop to the end of input, and `Assemble` is the run from
    the first event.
  - Lemmas about `Run` and `Assemble` state what the reader promises:
    - completeness (no kept record is empty);
    - provenance (every stored value comes from a tag of the input, or is
      the documented default);
    - order (records are only ever appended);
    - what each tag does to the current records.
- **The reader itself, as a class.**
  - The class holds the fields the Rust struct updates.
  - Its `Parse` method is a `while` loop over the events. It pushes kept
    records onto the field.
  - `Parse` is proved to end with the field equal to its old value plus
    `Assemble` of the document, or with the fatal error `Assemble` names.
  - The loop body is the module-level method `Turn`, whose contract ties
    each turn to `Step`.

In the model, a `panic!` on a tokenizer error and an `unwrap()` on a missing
mandatory attribute are a `Fatal` outcome.

The tokenizer is a `seq<Event>`. Running off the end of the sequence acts
like `Eof`.

The segment parser (`SegNode::parse_segment`) is a function parameter. It
receives the events after the opening tag and returns the nodes it built and
how many events it consumed; the loop then resumes after those events.
`SegNode::parse_inline` is also a parameter, from a cell's text to nodes.

What the code does, and the model with it:

- **Lower-casing.** Only the TBX and spreadsheet readers lower-case
  language tags. XLIFF and TMX store `source-language`, `target-language`
  and `xml:lang` exactly as written (src/xliff.rs:81-88, src/tmx.rs:57-62;
  `Xliff.AssembleProvenance`, `Tmx.AssembleProvenance`).
- **No XLIFF sequence numbers or `alt-trans`.** The XLIFF reader assigns no
  sequence numbers: the unit declared in src/xliff.rs:23-29 has none. Its
  loop has no `alt-trans` case either. The spreadsheet reader builds units
  with `sn`, so `Xlsx.TransUnit` is its own type that carries it.
- **Missing language attribute.** A missing `source-language`,
  `target-language` or `xml:lang` is fatal, through `unwrap()`.

## Model

| member | source | states |
|---|---|---|
| Events.Lower | src/tbx.rs:58-64 | lower-casing keeps the length, leaves no upper-case letter, keeps every other character and moves each upper-case letter up by 32 code points ('A' becomes 'a') (ASCII case mapping) |
| Events.LowerFixesLowerCase | src/tbx.rs:58-64 | a tag that has no upper-case letter is unchanged by lower-casing |
| Segments.Segment | src/xliff.rs:100-111 | the segment parser's nodes are passed through; the number of events it consumes is never more than remain, and is the parser's own count whenever that count fits |
| Xliff.OnStart | src/xliff.rs:79-113 | a start tag lets the segment parser consume at most the events that follow it |
| Xliff.Step | src/xliff.rs:76-131 | a turn that continues moves strictly forward and stays within the input |
| Xliff.StepOutcome | src/xliff.rs:78-129 | the loop ends exactly at `Eof`; it aborts exactly on a tokenizer error or a `file`/`trans-unit` start tag missing a mandatory attribute |
| Xliff.RunContinues | src/xliff.rs:76-133 | a turn that continues leaves the rest of the run unchanged |
| Xliff.StepKeepsComplete | src/xliff.rs:114-128 | a turn preserves the completeness invariant: kept files are non-empty and hold only units with a non-empty source and target |
| Xliff.RunKeepsComplete | src/xliff.rs:114-128 | from a complete state, every file the run keeps has a unit, and all its units are complete |
| Xliff.AssembleKeepsComplete | src/xliff.rs:115-125 | every kept file holds at least one trans-unit, and every kept unit has a non-empty source and a non-empty target |
| Xliff.StepKeepsProvenance | src/xliff.rs:81-111 | a turn keeps every stored language, id, `translate` flag and segment traceable to a start tag or a segment-parser result in the input |
| Xliff.RunKeepsProvenance | src/xliff.rs:81-111 | the same provenance holds for every file the run keeps |
| Xliff.AssembleProvenance | src/xliff.rs:81-111 | kept languages and ids are attribute values stored verbatim, with no case change; `translate` is the attribute, or "yes" when it is absent; a source or target is what the segment parser returned for some `source`/`target` element; a value that no such start tag supplied keeps the empty default (`""` for languages and id, and `translate` `""`, not "yes", for a unit without a `<trans-unit>` start tag; no nodes for a source or target) |
| Xliff.StepExtendsKept | src/xliff.rs:117 | a turn only appends to the kept files |
| Xliff.RunExtendsKept | src/xliff.rs:117 | the files kept before a run are a prefix of its result, so files appear in the order of their closing tags |
| Xliff.FileStart | src/xliff.rs:80-89 | `<file>` stores both languages verbatim and touches nothing else; a missing `source-language`, or else `target-language`, is fatal |
| Xliff.TransUnitStart | src/xliff.rs:90-99 | `<trans-unit>` stores the id verbatim and `translate` with default "yes", keeping source and target; a missing id is fatal |
| Xliff.ContentStart | src/xliff.rs:100-111 | an empty parsed source or target leaves the unit unchanged; a non-empty one replaces only that side; the loop resumes after the consumed events |
| Xliff.TransUnitEnd | src/xliff.rs:121-126 | `</trans-unit>` appends the unit to the current file exactly when its source and target are both non-empty, keeps the file's languages and the kept files, always resets the unit to the default, and resumes at the next event |
| Xliff.FileEnd | src/xliff.rs:115-120 | `</file>` appends the file to the kept files exactly when it holds a unit, and always resets the current file to the default |
| Xliff.StartTag | src/xliff.rs:79-113 | the start-tag arm computes exactly what `OnStart` specifies, including which attribute error aborts |
| Xliff.EndTag | src/xliff.rs:114-128 | the end-tag arm computes exactly what `OnEnd` specifies |
| Xliff.Turn | src/xliff.rs:77-132 | one turn of the loop yields the new file and unit, the files it hands over, and where to resume; or it stops or aborts exactly as `Step` does |
| Xliff.XliffFile.constructor | src/xliff.rs:32-40 | a new reader holds the path and the document, with no files (it does not parse) |
| Xliff.XliffFile.Parse | src/xliff.rs:66-134 | `xfiles` grows by exactly the files `Assemble` keeps from the document; otherwise the outcome is the fatal error `Assemble` reports |
| Tmx.OnStart | src/tmx.rs:50-71 | a start tag lets the segment parser consume at most the events that follow it |
| Tmx.Step | src/tmx.rs:47-92 | a turn that continues moves strictly forward and stays within the input |
| Tmx.StepOutcome | src/tmx.rs:49-89 | the loop ends exactly at `Eof`; it aborts exactly on a tokenizer error or a `tuv` without `xml:lang` |
| Tmx.RunContinues | src/tmx.rs:47-93 | a turn that continues leaves the rest of the run unchanged |
| Tmx.StepKeepsComplete | src/tmx.rs:72-88 | a turn preserves the completeness invariant: kept units are non-empty and hold only variants with a non-empty segment |
| Tmx.RunKeepsComplete | src/tmx.rs:72-88 | from a complete state, every unit the run keeps has a variant, and all its variants have a segment |
| Tmx.AssembleKeepsComplete | src/tmx.rs:73-86 | every kept `tu` has at least one `tuv`, and every kept `tuv` has a non-empty `seg` |
| Tmx.StepKeepsProvenance | src/tmx.rs:51-69 | a turn keeps every stored tuid, language and segment traceable to the input |
| Tmx.RunKeepsProvenance | src/tmx.rs:51-69 | the same provenance holds for every unit the run keeps |
| Tmx.AssembleProvenance | src/tmx.rs:51-69 | a kept `tuid` is the attribute of some `<tu>`, or "" when it is absent; a kept language is some `xml:lang` exactly as written; a kept segment is what the segment parser returned for some `<seg>`; a value that no such start tag supplied keeps the empty default (`""` or no nodes) |
| Tmx.StepExtendsKept | src/tmx.rs:82 | a turn only appends to the kept units |
| Tmx.RunExtendsKept | src/tmx.rs:82 | the units kept before a run are a prefix of its result, so units appear in the order of their closing tags |
| Tmx.TuStart | src/tmx.rs:51-56 | `<tu>` stores `tuid`, defaulting to "", and keeps the variants collected so far |
| Tmx.TuvStart | src/tmx.rs:57-62 | `<tuv>` stores `xml:lang` exactly as written; a missing one is fatal |
| Tmx.SegStart | src/tmx.rs:64-69 | an empty parsed segment leaves the variant unchanged; a non-empty one replaces the segment; the loop resumes after the consumed events |
| Tmx.TuvEnd | src/tmx.rs:73-79 | `</tuv>` appends the variant exactly when its segment is non-empty, and always resets the variant |
| Tmx.TuEnd | src/tmx.rs:80-86 | `</tu>` appends the unit exactly when it holds a variant, and always resets the unit |
| Tmx.EmptyVariantDropped | src/tmx.rs:57-79 | a `<tuv><seg>…</seg></tuv>` whose segment parses to nothing leaves no trace: the run continues from the state before it, with only the variant reset |
| Tmx.Turn | src/tmx.rs:48-92 | one turn of the loop yields the new unit and variant, the units it hands over, and where to resume; or it stops or aborts exactly as `Step` does |
| Tmx.TmxFile.constructor | src/tmx.rs:26-36 | `new` parses at once: on success, `tus` is exactly what `Assemble` keeps from the document |
| Tmx.TmxFile.Parse | src/tmx.rs:38-94 | `tus` grows by exactly the units `Assemble` keeps; otherwise the outcome is the fatal error `Assemble` reports |
| Tbx.OnStart | src/tbx.rs:57-71 | a start tag lets the segment parser consume at most the events that follow it |
| Tbx.Step | src/tbx.rs:54-98 | a turn that continues moves strictly forward and stays within the input |
| Tbx.StepOutcome | src/tbx.rs:56-95 | the loop ends exactly at `Eof`; it aborts exactly on a tokenizer error or a `langSet` without `xml:lang` |
| Tbx.RunContinues | src/tbx.rs:54-99 | a turn that continues leaves the rest of the run unchanged |
| Tbx.StepKeepsComplete | src/tbx.rs:72-94 | a turn preserves the completeness invariant: kept entries are non-empty and hold only lang sets with a non-empty term |
| Tbx.RunKeepsComplete | src/tbx.rs:72-94 | from a complete state, every entry the run keeps has a lang set, and all its lang sets have a term |
| Tbx.AssembleKeepsComplete | src/tbx.rs:73-92 | every kept `termEntry` has at least one `langSet`, and every kept `langSet` carries a non-empty term |
| Tbx.StepKeepsProvenance | src/tbx.rs:58-69 | a turn keeps every stored language and term traceable to the input |
| Tbx.RunKeepsProvenance | src/tbx.rs:58-69 | the same provenance holds for every entry the run keeps |
| Tbx.AssembleProvenance | src/tbx.rs:58-69 | a kept language is the lower-cased `xml:lang` of some `<langSet>`, or the empty default `""` when no `<langSet>` start tag set it; a kept term is what the segment parser returned for some `<term>` |
| Tbx.AssembleLanguagesLowerCase | src/tbx.rs:58-64 | no kept language contains an upper-case letter |
| Tbx.StepExtendsKept | src/tbx.rs:75 | a turn only appends to the kept entries |
| Tbx.RunExtendsKept | src/tbx.rs:75 | the entries kept before a run are a prefix of its result, so entries appear in the order of their closing tags |
| Tbx.LangSetStart | src/tbx.rs:58-64 | `<langSet>` stores `xml:lang` lower-cased and keeps its term group; a missing one is fatal |
| Tbx.TermStart | src/tbx.rs:65-69 | `<term>` replaces the current term group with whatever the segment parser returns, even an empty one |
| Tbx.TermEnd | src/tbx.rs:79-84 | a `</term>` that the loop sees copies a non-empty term group into the lang set, and always clears the current group |
| Tbx.LangSetEnd | src/tbx.rs:85-92 | `</langSet>` appends the lang set, carrying exactly the current term group, when that group is non-empty; it always resets the group and the lang set |
| Tbx.TermEntryEnd | src/tbx.rs:73-78 | `</termEntry>` appends the entry exactly when it holds a lang set, and always resets it |
| Tbx.SwallowedTermKeepsLangSet | src/tbx.rs:65-92 | when the segment parser consumes `</term>` and `</langSet>` follows, the lang set is kept with that term, and both current records are reset |
| Tbx.SeenTermEndDropsLangSet | src/tbx.rs:65-92 | when the loop itself sees `</term>` followed by `</langSet>`, the lang set is dropped and the entry is unchanged |
| Tbx.Turn | src/tbx.rs:55-98 | one turn of the loop yields the new entry, lang set and term group, the entries it hands over, and where to resume; or it stops or aborts exactly as `Step` does |
| Tbx.TbxFile.constructor | src/tbx.rs:33-43 | `new` parses at once: on success, `termEntries` is exactly what `Assemble` keeps from the document |
| Tbx.TbxFile.Parse | src/tbx.rs:45-100 | `termEntries` grows by exactly the entries `Assemble` keeps; otherwise the outcome is the fatal error `Assemble` reports |
| Xlsx.Digits | src/xlsx.rs:67-70 | the decimal notation of a natural number is a non-empty string of digits whose decimal value is the number, "0" for zero and with no leading zero otherwise |
| Xlsx.IntToString | src/xlsx.rs:67-70 | an integer cell displays as the decimal notation of its value: digits denoting it when it is not negative; otherwise '-' followed by digits denoting its magnitude, with no leading zero |
| Xlsx.DisplayEmptyIff | src/xlsx.rs:67-78 | a cell displays as "" exactly when it is empty, or is text or formatted with empty contents; numbers and booleans never do |
| Xlsx.KeptUnitsSound | src/xlsx.rs:85-96 | every kept unit has a non-empty id and `translate` "yes"; its `sn` lies between 1 and the number of data rows, and it is the unit built from data row `sn` |
| Xlsx.KeptUnitsComplete | src/xlsx.rs:94-96 | every data row whose id cell displays non-empty yields a kept unit numbered by its 1-based row index |
| Xlsx.ShortRowReadsEmpty | src/xlsx.rs:71-84 | a row without cell 1 (or cell 2) hands "" to the inline parser for its source (or target) |
| Xlsx.BlankIdRowsDropped | src/xlsx.rs:67-96 | a kept unit's row has a first cell, and that cell is neither empty nor an empty text or formatted value; a row without cells is never kept |
| Xlsx.KeptUnitsIncreasing | src/xlsx.rs:44-95 | kept units appear in row order: their `sn` values strictly increase, because dropped rows are numbered too |
| Xlsx.ReadRows | src/xlsx.rs:66-97 | the row loop, with its `sn` counter, yields exactly the kept units of the data rows |
| Xlsx.TranslationXlsx.constructor | src/xlsx.rs:20-38 | with no worksheet, no units and both languages ""; with a header of at least 3 cells, the source and target languages are header cells 1 and 2 read as text and lower-cased, and the units are exactly the kept units of the first sheet |
| Xlsx.TranslationXlsx.Parse | src/xlsx.rs:40-101 | with no worksheet, nothing changes. A header shorter than 3 cells is fatal (so is a sheet with no rows, whose header has no cells), and the source language is already set when only cell 2 is missing. Otherwise both languages are header cells 1 and 2 read as text and lower-cased, and the kept units are appended. |
| Xlsx.TranslationXlsx.GetMeta | src/xlsx.rs:118-127 | the map's keys are exactly the two languages, each mapped to the number of units; there is just one key exactly when the two languages are equal |

## Left out

- The segment parser and the inline parser (`SegNode::parse_segment`, `SegNode::parse_inline`): their code is not part of this model. They are parameters. The only fact used about the segment parser is that it cannot consume more events than remain (`Segments.Segment` caps the count). The segment parser cannot fail in the model. A tokenizer error, or an `Eof`, inside the events it consumes is therefore not an abort or an end of the loop; the `StepOutcome` lemmas speak only of the events the loop reads itself.
- `search_in_file`, `search_in_transunits`, matching and text extraction: they only delegate to code that is not part of this model.
- `get_attribute` and `get_attributes` (src/lib.rs:7-16): the attributes of a start tag arrive as a `map<string, string>`, already decoded.
- File and archive I/O: reading the document (`read_xml`), `new_xlz` and its zip extraction, opening the workbook with `exit(1)` on failure, and the console messages. The constructors take the tokenized document, or the worksheets, as arguments.
- The tokenizer: a document is given as its event sequence. Malformed input is one `Malformed` event, reported with its index in the sequence rather than a byte position.
- Serde derives, the `Box` around term nodes, and the clearing of the read buffer: representation details only.
- Xliff.XliffFile.Parse: on a fatal outcome, the files already pushed are left unspecified. In Rust the `panic!`/`unwrap()` ends the program, so that partial state is never observed. The same holds for `Tmx.TmxFile.Parse` and `Tbx.TbxFile.Parse`.
- Tmx.TmxFile.constructor: says nothing about `tus` when parsing fails, because the Rust `new` panics there. The same holds for `Tbx.TbxFile.constructor`.
- Xlsx.TranslationXlsx.constructor: says nothing about the state after a fatal short header, because the Rust `new` panics there.
- Events.Lower: ASCII letters only. Rust's `to_lowercase` also maps non-ASCII letters, and that Unicode case mapping is not modelled.
- Xlsx.Display: integers are unbounded rather than `i64`. Floating-point numbers, dates and error cells are a `Formatted` cell that carries its display string, because their formatting belongs to the spreadsheet library.
- Xlsx.ReadRows: the units of the loop are collected, then appended to `transUnits` in one step, instead of being pushed row by row. Nothing reads `transUnits` while the loop runs, so the final state is the same.
- The while loops of the XML readers resume after the events the segment parser consumed, because that parser reads from the same tokenizer. Each loop body is written as a separate `Turn` method.
- The tests in the Rust files only assert `1 != 2`, so they supply no properties.
