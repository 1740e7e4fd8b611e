/** The text of the generated header as a function of the Unicode version
    string, the collected block records and the block-size flag. Each
    constant is a fragment the generator writes verbatim. */
module Render {
  import opened Numerals
  import opened Blocks

  /** The fixed text around the per-record lines: the banner, the include
      guard, the include, the namespace, the version constant, the
      enumeration and switch brackets and the three accessor signatures. It
      is a value the renderer is given, so that every property below holds
      for any such text; SourceFrame is the text the generator writes. */
  datatype Frame = Frame(
    banner: string,
    guardOpen: string,
    includes: string,
    namespaceOpen: string,
    versionOpen: string,
    versionClose: string,
    enumOpen: string,
    enumClose: string,
    firstSignature: string,
    lastSignature: string,
    sizeSignature: string,
    switchOpen: string,
    switchClose: string,
    namespaceClose: string,
    guardClose: string)

  const SourceFrame: Frame := Frame(
    banner :=
      "/*  This header was auto-generated by the UnicodeCHG (Unicode C++ Header Generator)\n"
      + " *  that is located at github.com/StableCoder/unicode-hpp.\n"
      + " *\n"
      + " *  Check for an updated version anytime, or state concerns/bugs.\n"
      + " */\n",
    // the `#define` line ends with `std::endl`
    guardOpen := "\n\n#ifndef UNICODE_BLOCKS_CHG_HPP\n" + "#define UNICODE_BLOCKS_CHG_HPP" + "\n",
    includes := "\n// C++\n#include <cstdint>",
    namespaceOpen := "\n\nnamespace unicode {",
    versionOpen := "\n\n// The Unicode Version this is based on.\n const char* version_str = \"",
    versionClose := "\"",
    enumOpen := "\n\nenum class Block : uint32_t {",
    enumClose := "\n};",
    firstSignature := "\n\nconstexpr uint32_t getFirstCodePoint(Block unicode_block) {",
    lastSignature := "\n\nconstexpr uint32_t getLastCodePoint(Block unicode_block) {",
    sizeSignature := "\n\nconstexpr uint32_t getBlockSize(Block unicode_block) {",
    switchOpen := "\n\tswitch(unicode_block) {",
    switchClose := "\n\t}" + "\n}",
    namespaceClose := "\n\n};",
    guardClose := "\n\n\n#endif // UNICODE_BLOCKS_CHG_HPP")

  // The fragments of one enumerator line and of one `case`; the readback
  // parsers rely on their exact characters.
  const EntryIndent: string := "\n\t"
  /** The first enumerator is pinned to zero; the others follow implicitly. */
  const FirstEntryClose: string := " = 0x0,"
  const EntryClose: string := ","
  const CaseLabelOpen: string := "\n\tcase Block::"
  const CaseLabelClose: string := " :"
  const ReturnKeyword: string := "\n\t\treturn "
  const HexPrefix: string := "0x"
  const CaseClose: string := ";"

  /** The concatenation of a sequence of text fragments. */
  function Concat(parts: seq<string>): string
    decreases |parts|
  {
    if parts == [] then "" else parts[0] + Concat(parts[1..])
  }

  /** Appending one more fragment appends its text: what a stream write does. */
  lemma {:induction false} ConcatSnoc(parts: seq<string>, last: string)
    ensures Concat(parts + [last]) == Concat(parts) + last
    decreases |parts|
  {
    if parts != [] {
      assert (parts + [last])[1..] == parts[1..] + [last];
      ConcatSnoc(parts[1..], last);
    } else {
      assert [last][1..] == [];
    }
  }

  /** Regrouping a concatenation, stated for arbitrary strings so that its
      uses do not look inside the literal fragments. */
  lemma Assoc(x: string, a: string, b: string)
    ensures x + a + b == x + (a + b)
  {
  }

  lemma Regroup(x: string, a: string, b: string, c: string, d: string)
    ensures x + a + b + c + d == x + (a + b + c + d)
  {
    Assoc(x, a, b);
    Assoc(x, a + b, c);
    Assoc(x, a + b + c, d);
  }

  lemma AppendEmpty(x: string)
    ensures x + "" == x && "" + x == x
  {
  }

  // ----- The enumeration -----

  /** One enumerator line. */
  function EnumEntry(name: string, first: bool): string {
    EntryIndent + name + (if first then FirstEntryClose else EntryClose)
  }

  /** The enumerator lines for `names`; `first` says whether `names[0]` is
      the first enumerator of the whole enumeration. */
  function EnumLines(names: seq<string>, first: bool): seq<string> {
    seq(|names|, i requires 0 <= i < |names| => EnumEntry(names[i], first && i == 0))
  }

  function Names(blocks: seq<BlockRecord>): seq<string> {
    seq(|blocks|, i requires 0 <= i < |blocks| => blocks[i].name)
  }

  function EnumText(f: Frame, names: seq<string>): string {
    f.enumOpen + Concat(EnumLines(names, true)) + f.enumClose
  }

  /** One more name adds one more enumerator line. */
  lemma EnumLinesSnoc(names: seq<string>, name: string, first: bool)
    ensures EnumLines(names + [name], first) == EnumLines(names, first) + [EnumEntry(name, first && |names| == 0)]
  {
  }

  lemma NamesSnoc(blocks: seq<BlockRecord>, b: BlockRecord)
    ensures Names(blocks + [b]) == Names(blocks) + [b.name]
  {
  }

  /** Writing one more enumerator line extends the enumeration body by it. */
  lemma EnumStep(head: string, done: seq<BlockRecord>, b: BlockRecord)
    ensures head + Concat(EnumLines(Names(done), true)) + EnumEntry(b.name, |done| == 0)
         == head + Concat(EnumLines(Names(done + [b]), true))
  {
    NamesSnoc(done, b);
    EnumLinesSnoc(Names(done), b.name, true);
    ConcatSnoc(EnumLines(Names(done), true), EnumEntry(b.name, |done| == 0));
    Assoc(head, Concat(EnumLines(Names(done), true)), EnumEntry(b.name, |done| == 0));
  }

  // ----- The accessor functions -----

  /** The three generated accessors. */
  datatype Accessor = GetFirstCodePoint | GetLastCodePoint | GetBlockSize

  function Signature(f: Frame, acc: Accessor): string {
    match acc
    case GetFirstCodePoint => f.firstSignature
    case GetLastCodePoint => f.lastSignature
    case GetBlockSize => f.sizeSignature
  }

  /** The number an accessor returns for a record. */
  function Field(acc: Accessor, b: BlockRecord): u32 {
    match acc
    case GetFirstCodePoint => b.start
    case GetLastCodePoint => b.end
    case GetBlockSize => RangeSize(b)
  }

  /** The literal after `return`: code points in upper-case hex behind a
      literal `0x`, sizes in decimal. */
  function Literal(acc: Accessor, b: BlockRecord): string {
    if acc.GetBlockSize? then Numeral(Field(acc, b) as nat, 10)
    else HexPrefix + Numeral(Field(acc, b) as nat, 16)
  }

  /** One `case` of a switch: its label and the literal it returns. */
  datatype Case = Case(name: string, literal: string)

  function CaseText(c: Case): string {
    CaseLabelOpen + c.name + CaseLabelClose + ReturnKeyword + c.literal + CaseClose
  }

  function CaseLines(cases: seq<Case>): seq<string> {
    seq(|cases|, i requires 0 <= i < |cases| => CaseText(cases[i]))
  }

  function Cases(acc: Accessor, blocks: seq<BlockRecord>): seq<Case> {
    seq(|blocks|, i requires 0 <= i < |blocks| => Case(blocks[i].name, Literal(acc, blocks[i])))
  }

  /** One more record adds one more case line. */
  lemma CaseLinesSnoc(acc: Accessor, blocks: seq<BlockRecord>, b: BlockRecord)
    ensures CaseLines(Cases(acc, blocks + [b])) == CaseLines(Cases(acc, blocks)) + [CaseText(Case(b.name, Literal(acc, b)))]
  {
    assert Cases(acc, blocks + [b]) == Cases(acc, blocks) + [Case(b.name, Literal(acc, b))];
  }

  /** Writing one more case extends the switch body by that case. */
  lemma SwitchStep(head: string, acc: Accessor, done: seq<BlockRecord>, b: BlockRecord)
    ensures head + Concat(CaseLines(Cases(acc, done))) + CaseText(Case(b.name, Literal(acc, b)))
         == head + Concat(CaseLines(Cases(acc, done + [b])))
  {
    var line := CaseText(Case(b.name, Literal(acc, b)));
    CaseLinesSnoc(acc, done, b);
    ConcatSnoc(CaseLines(Cases(acc, done)), line);
    Assoc(head, Concat(CaseLines(Cases(acc, done))), line);
  }

  function SwitchText(f: Frame, acc: Accessor, blocks: seq<BlockRecord>): string {
    Signature(f, acc) + f.switchOpen + Concat(CaseLines(Cases(acc, blocks))) + f.switchClose
  }

  // ----- The whole header -----

  /** Everything before the version text. */
  function VersionHead(f: Frame): string {
    f.banner + f.guardOpen + f.includes + f.namespaceOpen + f.versionOpen
  }

  /** Everything up to and including the version constant. */
  function Preamble(f: Frame, version: string): string {
    VersionHead(f) + version + f.versionClose
  }

  function Postamble(f: Frame): string {
    f.namespaceClose + f.guardClose
  }

  /** The enumeration and the accessor switches. */
  function Body(f: Frame, named: seq<BlockRecord>, includeBlockSize: bool): string {
    EnumText(f, Names(named))
    + SwitchText(f, GetFirstCodePoint, named)
    + SwitchText(f, GetLastCodePoint, named)
    + (if includeBlockSize then SwitchText(f, GetBlockSize, named) else "")
  }

  /** The header for the records as collected: names are sanitised before the
      enumeration is written and the switches use the sanitised names. */
  function HeaderText(f: Frame, version: string, blocks: seq<BlockRecord>, includeBlockSize: bool): string {
    Preamble(f, version) + Body(f, SanitizeAll(blocks), includeBlockSize) + Postamble(f)
  }

  /** The three parts of a three-way concatenation. */
  lemma Slices(a: string, b: string, c: string)
    ensures (a + b + c)[..|a|] == a
    ensures (a + b + c)[|a|..|a| + |b|] == b
    ensures (a + b + c)[|a| + |b|..] == c
  {
  }

  /** The three leading parts of a text that starts with them. */
  lemma PrefixParts(a: string, b: string, c: string, rest: string)
    ensures var h := a + b + c + rest;
            && |h| >= |a| + |b| + |c|
            && h[..|a|] == a
            && h[|a|..|a| + |b|] == b
            && h[|a| + |b|..|a| + |b| + |c|] == c
  {
    var h := a + b + c + rest;
    assert h[..|a| + |b| + |c|] == a + b + c;
  }

  /** The header opens with the banner and the include guard and then holds
      the version text verbatim inside the `version_str` literal. */
  lemma HeaderOpening(f: Frame, version: string, blocks: seq<BlockRecord>, includeBlockSize: bool)
    ensures var h := HeaderText(f, version, blocks, includeBlockSize);
            var at := |VersionHead(f)|;
            && |h| >= at + |version| + |f.versionClose|
            && h[..at] == VersionHead(f)
            && h[at..at + |version|] == version
            && h[at + |version|..at + |version| + |f.versionClose|] == f.versionClose
  {
    Assoc(Preamble(f, version), Body(f, SanitizeAll(blocks), includeBlockSize), Postamble(f));
    PrefixParts(VersionHead(f), version, f.versionClose, Body(f, SanitizeAll(blocks), includeBlockSize) + Postamble(f));
  }

  /** The header closes with the namespace and the guard's `#endif`. */
  lemma HeaderClosing(f: Frame, version: string, blocks: seq<BlockRecord>, includeBlockSize: bool)
    ensures var h := HeaderText(f, version, blocks, includeBlockSize);
            |h| >= |Postamble(f)| && h[|h| - |Postamble(f)|..] == Postamble(f)
  {
    Slices(Preamble(f, version), Body(f, SanitizeAll(blocks), includeBlockSize), Postamble(f));
  }

  /** The flag inserts the size switch just before the closing namespace
      and guard: the header with the flag is the header without it, cut
      there, with the size switch in between. */
  lemma BlockSizeSwitchInserted(f: Frame, version: string, blocks: seq<BlockRecord>)
    ensures var without := HeaderText(f, version, blocks, false);
            var k := |without| - |Postamble(f)|;
            && k >= 0
            && without[k..] == Postamble(f)
            && HeaderText(f, version, blocks, true)
               == without[..k] + SwitchText(f, GetBlockSize, SanitizeAll(blocks)) + Postamble(f)
  {
    var named := SanitizeAll(blocks);
    BodyWithBlockSize(f, named);
    InsertBeforeTail(Preamble(f, version), Body(f, named, false), SwitchText(f, GetBlockSize, named), Postamble(f));
  }

  /** The flag appends the size switch after the two code-point switches. */
  lemma BodyWithBlockSize(f: Frame, named: seq<BlockRecord>)
    ensures Body(f, named, true) == Body(f, named, false) + SwitchText(f, GetBlockSize, named)
  {
  }

  /** Inserting a part between a text and its tail. */
  lemma InsertBeforeTail(head: string, middle: string, part: string, tail: string)
    ensures var without := head + middle + tail;
            var k := |without| - |tail|;
            && k == |head + middle|
            && without[k..] == tail
            && head + (middle + part) + tail == without[..k] + part + tail
  {
    var without := head + middle + tail;
    assert without[..|head + middle|] == head + middle;
  }
}
