# unicode-hpp header generator, modelled in Dafny

`unicode_cpp_generator` reads a Unicode Character Database XML export and
collects one record per child of its `<blocks>` element: the display name
and the first and last code points, read with base-16 `strtol`. From these
records it writes a C++ header. The header holds a banner, an include
guard, the Unicode version string, an `enum class Block` with one
enumerator per block, and two `constexpr` accessors,
`getFirstCodePoint` and `getLastCodePoint`. Each accessor is a `switch`
with one `case` per block. With the block-size flag, a third accessor,
`getBlockSize`, returns `end - start + 1` in `uint32_t`. Block names
become identifiers by replacing spaces and hyphens with underscores.

The model has six modules:

- `Numerals`: the digits an output stream prints in `std::hex |
  std::uppercase` and `std::dec` mode, and the value of a digit string.
  It proves that printing and reading back are inverse bijections between
  numbers and canonical numerals.
- `Blocks`: the block record, `strtol` in base 16 with its `LONG_MAX`
  clamp, the `long` to `uint32_t` conversion, the collected record
  sequence, name sanitisation, the block size in 32-bit arithmetic, and the
  output directory and path.
- `Render`: the exact text of the header as a function of the version
  string, the records and the flag. The fixed surrounding text (banner,
  guard, signatures, brackets) is a `Frame` value, so that every property
  holds for any such text. `SourceFrame` is the text the generator writes.
  The per-line fragments of enumerators and cases are constants.
- `Readback`: parsers for the enumeration body and for a switch body, the
  value of a C++ integer literal, and the case a `switch` selects. Together
  they prove that the enumeration lists every block in order and that
  each accessor returns, for each block, that block's number.
- `Generator`: the imperative program. The output stream is a class with
  its text and its hex/dec mode. Names are sanitised in place over a
  character array. The collection loop is a `while (true)` with a `break`.
  Each emitter appends to the stream, and each is proved to append exactly
  its part of `Render.HeaderText`. `Run` covers the run from the `<ucd>`
  lookup to the written header, including the early exits.
- `Wrappers`: `Option`.

## Model

| member | source | states |
|---|---|---|
| Numerals.DigitChar | src/unicode_cpp_generator.cpp:212 | the digit printed with `std::uppercase` is a hex digit of the right value and never a lower-case letter |
| Numerals.Numeral | src/unicode_cpp_generator.cpp:212-217 | what the stream prints for an unsigned number is canonical: non-empty, digits of the base, upper case, no leading zero unless the number is 0 |
| Numerals.ValueOfNumeral | src/unicode_cpp_generator.cpp:151-152 | reading a printed numeral back in its base gives the printed number |
| Numerals.NumeralOfValue | src/unicode_cpp_generator.cpp:212-239 | every canonical numeral is what the stream prints for its value, so printing is a bijection onto canonical numerals |
| Blocks.ToU32 | src/unicode_cpp_generator.cpp:151-152 | assigning a `long` to `uint32_t` keeps values in range and otherwise gives the value congruent to it modulo 2^32 |
| Blocks.ParseCodePoint | src/unicode_cpp_generator.cpp:151-152 | a hex attribute whose value fits in 32 bits is stored exactly; a larger one up to `LONG_MAX` is stored modulo 2^32; one above `LONG_MAX` saturates in `strtol` and is stored as 0xFFFFFFFF |
| Blocks.CodePointRoundTrip | src/unicode_cpp_generator.cpp:151-152 | a code point printed in upper-case hex is a valid `strtol` input, and reading it back in base 16 gives the same code point |
| Blocks.Extract | src/unicode_cpp_generator.cpp:145-161 | the collected sequence has exactly one record per child, in document order, and record i is built from child i |
| Blocks.Replace | src/unicode_cpp_generator.cpp:199 | `std::replace` keeps the length and maps each character: `from` becomes `to`, all others are unchanged |
| Blocks.Sanitize | src/unicode_cpp_generator.cpp:199-200 | sanitising keeps the length, turns each space and hyphen into `_`, keeps every other character, and leaves no space or hyphen |
| Blocks.SanitizeIdempotent | src/unicode_cpp_generator.cpp:199-200 | sanitising a sanitised name changes nothing |
| Blocks.RangeSize | src/unicode_cpp_generator.cpp:239 | `end - start + 1` in `uint32_t`: the inclusive size (at least 1) for `start <= end` without overflow, 0 for the full 32-bit range and for `start == end + 1`, and the wrapped value otherwise |
| Blocks.NormalizeDir | src/unicode_cpp_generator.cpp:168-170 | a non-empty directory ends in `/` or `\` afterwards; it is unchanged if it already did, and gets `/` appended otherwise |
| Blocks.NormalizeDirIdempotent | src/unicode_cpp_generator.cpp:168-170 | normalising twice is normalising once |
| Blocks.OutputPath | src/unicode_cpp_generator.cpp:172 | the output path is the directory followed by `unicode_blocks.h` when the directory ends in `/` or `\`, and the directory, `/` and `unicode_blocks.h` otherwise; the character before the file name is always a separator |
| Render.EnumStep | src/unicode_cpp_generator.cpp:197-207 | writing one more enumerator line extends the enumeration body by the line for that record |
| Render.SwitchStep | src/unicode_cpp_generator.cpp:215-218 | writing one more case extends the switch body by the case for that record |
| Render.HeaderOpening | src/unicode_cpp_generator.cpp:179-193 | the header starts with the banner, guard, include, namespace and `version_str` opening, then holds the version text verbatim, then the closing quote |
| Render.HeaderClosing | src/unicode_cpp_generator.cpp:245-249 | the header ends with the namespace close and the `#endif` line |
| Render.BodyWithBlockSize | src/unicode_cpp_generator.cpp:232-243 | with the flag, the body is the body without it followed by the `getBlockSize` switch |
| Render.BlockSizeSwitchInserted | src/unicode_cpp_generator.cpp:232-243 | the header with the flag equals the header without it, with the `getBlockSize` switch inserted just before the closing namespace and guard |
| Readback.EnumReadback | src/unicode_cpp_generator.cpp:196-209 | the enumeration body reads back as the enumerator names in order; the first line must close with ` = 0x0,` and every later line with `,` |
| Readback.EnumerationReadback | src/unicode_cpp_generator.cpp:196-209 | the generated enumeration has exactly one enumerator per block, in block order, each the block's sanitised name |
| Readback.CasesReadback | src/unicode_cpp_generator.cpp:215-218 | a switch body reads back as its (label, literal) cases in order |
| Readback.LookupDistinct | src/unicode_cpp_generator.cpp:215-218 | with distinct labels, the case a `switch` selects for label i is case i |
| Readback.LiteralDenotes | src/unicode_cpp_generator.cpp:217 | the literal returned for a record, `0x` plus hex or plain decimal, denotes exactly the accessor's number for that record |
| Readback.AccessorReadback | src/unicode_cpp_generator.cpp:211-243 | each accessor's switch has one case per block, in block order, labelled with the block's identifier; for block i it returns a literal whose value is block i's start, end or 32-bit size |
| Readback.BasicLatinNames | src/unicode_cpp_generator.cpp:199-200 | "Basic Latin" becomes `Basic_Latin` and "Latin-1 Supplement" becomes `Latin_1_Supplement` |
| Readback.BasicLatinLiterals | src/unicode_cpp_generator.cpp:217 | Basic Latin (0 to 0x7F) is rendered as `0x0`, `0x7F` and `128` |
| Generator.OutStream.constructor | src/unicode_cpp_generator.cpp:172 | a fresh stream is empty and in decimal mode |
| Generator.OutStream.Write | src/unicode_cpp_generator.cpp:179 | writing text appends it and keeps the mode |
| Generator.OutStream.WriteNumber | src/unicode_cpp_generator.cpp:217 | writing a `uint32_t` appends its numeral in the current base |
| Generator.OutStream.SetHex | src/unicode_cpp_generator.cpp:212 | `std::hex << std::uppercase` switches to hex without writing |
| Generator.OutStream.SetDec | src/unicode_cpp_generator.cpp:234 | `std::dec` switches to decimal without writing |
| Generator.ReplaceInPlace | src/unicode_cpp_generator.cpp:199 | replacing in place leaves the array holding `Replace` of its old contents |
| Generator.SanitizeName | src/unicode_cpp_generator.cpp:199-200 | the two in-place replacements compute `Sanitize` of the name |
| Generator.CollectBlocks | src/unicode_cpp_generator.cpp:145-161 | the `while (true)` loop returns one record per child, in document order, record i built from child i |
| Generator.WriteEntry | src/unicode_cpp_generator.cpp:203-207 | one enumerator line: indent, name, then ` = 0x0,` for the first and `,` for the others |
| Generator.WriteEnum | src/unicode_cpp_generator.cpp:196-209 | the enum loop returns the records with each name replaced in place by its sanitised name and every other field unchanged, and appends exactly the enumeration text for those names |
| Generator.WriteCase | src/unicode_cpp_generator.cpp:216-217 | one case: label, `return`, the literal in the stream's current base, `;` |
| Generator.WriteCases | src/unicode_cpp_generator.cpp:215-218 | the case loop appends the cases of all records in order |
| Generator.WriteSwitch | src/unicode_cpp_generator.cpp:211-220 | one accessor: signature, `switch`, all cases, closing braces |
| Generator.WritePreamble | src/unicode_cpp_generator.cpp:179-193 | banner, guard, include, namespace and version constant, in that order |
| Generator.WriteHeader | src/unicode_cpp_generator.cpp:179-249 | the emitters together append exactly `HeaderText` for the version, records and flag, and return the sanitised records |
| Generator.Run | src/unicode_cpp_generator.cpp:123-176 | no `<ucd>` and no `<blocks>` end the run early; an unopenable output file ends it with the output path; otherwise the header written is `HeaderText` for the description, the collected records and the flag, at the normalised path |

## Left out

- File input: reading the XML file into a buffer, with its size and seek (lines 96-116). The document is given as a value.
- RapidXML: parsing and node navigation are foreign calls. The `<ucd>` element is `Option<Ucd>`, `<blocks>` is an optional sequence of attribute triples, and `<description>` is a string.
- File output: opening the stream, writing it and closing it. Whether the output file opens is a parameter of `Run`, and the file contents are the stream's text.
- Command-line parsing (lines 69-88), the help text and the default output directory: only the output directory and the block-size flag reach the model.
- Console messages and exit codes: every path of the source returns 0, so `Outcome` records which path was taken.
- Memory management: the `new[]`/`delete` pair of the file buffer.
- Generator.Run: the source dereferences the `<description>` node and the three attributes without null checks, and dereferences the first child of `<blocks>` when there is none. The model requires all of these to be present and requires at least one block child. It does not model the empty enumeration that a zero-block document would call for.
- Generator.Run: indexing the last character of an empty output directory is undefined, so the model requires a non-empty directory.
- Blocks.Strtol16: attributes are required to be strings of hex digits. Leading white space, signs, a `0x` prefix and trailing garbage accepted by `strtol` are not modelled, and neither is `errno`.
- Blocks.Strtol16: `long` is taken to have 64 bits (LP64). On a target with a 32-bit `long` the clamp happens at 2^31 - 1.
- A `getBlockSize` that computes `last - first` when the flag is off: this generator emits no size function at all without the flag, and the model follows it.
- A version-qualified output file name: this generator always writes `unicode_blocks.h`.
- Render.BlockSizeSwitchInserted: relates the header with the flag to the header without it; it does not separately prove that the header without the flag contains no `getBlockSize` text.
- Readback.EnumerationReadback: stated for names without a comma, and Readback.AccessorReadback for names whose sanitised forms are distinct. Names violating these would not compile as C++ either.
