/** The block record the generator collects from each child of `<blocks>`,
    and the per-record computations: reading the two code points with
    `strtol`, turning the display name into an identifier, the block size in
    `uint32_t` arithmetic, and the output-directory fix-up. */
module Blocks {
  import opened Numerals

  const U32_MODULUS: int := 0x1_0000_0000

  /** `uint32_t`. */
  newtype u32 = x: int | 0 <= x < 0x1_0000_0000

  /** `LONG_MAX` on an LP64 target, where `long` has 64 bits. */
  const LONG_MAX: nat := 0x7FFF_FFFF_FFFF_FFFF

  /** The three attributes of one child element of `<blocks>`, as text. */
  datatype BlockElement = BlockElement(name: string, firstCp: string, lastCp: string)

  /** `Unicode_block_data`: a display name and the first and last code point. */
  datatype BlockRecord = BlockRecord(name: string, start: u32, end: u32)

  /** The attribute strings are digit strings `strtol` reads completely in base 16. */
  predicate WellFormed(e: BlockElement) {
    AllDigits(e.firstCp, 16) && AllDigits(e.lastCp, 16)
  }

  /** Conversion of a `long` to `uint32_t`: reduction modulo 2^32. */
  function ToU32(x: int): (r: u32)
    ensures 0 <= x < U32_MODULUS ==> r as int == x
    ensures U32_MODULUS <= x < 2 * U32_MODULUS ==> r as int == x - U32_MODULUS
    ensures -U32_MODULUS <= x < 0 ==> r as int == x + U32_MODULUS
    ensures (x - r as int) % U32_MODULUS == 0
  {
    (x % U32_MODULUS) as u32
  }

  /** `strtol(s, NULL, 16)` for a string of hex digits: a value above
      `LONG_MAX` saturates to `LONG_MAX`. */
  function Strtol16(s: string): nat
    requires AllDigits(s, 16)
  {
    var v := ValueOf(s, 16);
    if v > LONG_MAX then LONG_MAX else v
  }

  /** The code point stored in a `uint32_t` field from a `first-cp` or
      `last-cp` attribute. */
  function ParseCodePoint(s: string): (r: u32)
    requires AllDigits(s, 16)
    ensures ValueOf(s, 16) < U32_MODULUS ==> r as int == ValueOf(s, 16)
    ensures U32_MODULUS <= ValueOf(s, 16) <= LONG_MAX ==> r as int == ValueOf(s, 16) % U32_MODULUS
    ensures ValueOf(s, 16) > LONG_MAX ==> r as int == 0xFFFF_FFFF
  {
    ToU32(Strtol16(s))
  }

  /** A code point printed in upper-case hex and read back with `strtol`
      in base 16 is the same code point. */
  lemma CodePointRoundTrip(n: u32)
    ensures AllDigits(Numeral(n as nat, 16), 16)
    ensures ParseCodePoint(Numeral(n as nat, 16)) == n
  {
    ValueOfNumeral(n as nat, 16);
  }

  /** The record one loop iteration builds from one element. */
  function ToRecord(e: BlockElement): BlockRecord
    requires WellFormed(e)
  {
    BlockRecord(e.name, ParseCodePoint(e.firstCp), ParseCodePoint(e.lastCp))
  }

  /** The collected block vector: one record per element, in document order. */
  function Extract(children: seq<BlockElement>): (r: seq<BlockRecord>)
    requires forall i :: 0 <= i < |children| ==> WellFormed(children[i])
    ensures |r| == |children|
    ensures forall i :: 0 <= i < |children| ==> r[i] == ToRecord(children[i])
    decreases |children|
  {
    if children == [] then []
    else Extract(children[..|children| - 1]) + [ToRecord(children[|children| - 1])]
  }

  /** `std::replace(s.begin(), s.end(), from, to)` as a value. */
  function Replace(s: string, from: char, to: char): (r: string)
    ensures |r| == |s|
    ensures forall i :: 0 <= i < |s| ==> r[i] == (if s[i] == from then to else s[i])
    decreases |s|
  {
    if s == [] then [] else Replace(s[..|s| - 1], from, to) + [if s[|s| - 1] == from then to else s[|s| - 1]]
  }

  /** The enumerator name: spaces first, then hyphens, replaced by '_'. */
  function Sanitize(name: string): (r: string)
    ensures |r| == |name|
    ensures forall i :: 0 <= i < |name| ==>
              r[i] == (if name[i] == ' ' || name[i] == '-' then '_' else name[i])
    ensures forall i :: 0 <= i < |r| ==> r[i] != ' ' && r[i] != '-'
  {
    Replace(Replace(name, ' ', '_'), '-', '_')
  }

  /** Sanitising is idempotent. */
  lemma SanitizeIdempotent(name: string)
    ensures Sanitize(Sanitize(name)) == Sanitize(name)
  {
    var once := Sanitize(name);
    var twice := Sanitize(once);
    assert forall i :: 0 <= i < |once| ==> twice[i] == once[i];
  }

  /** Every record with its name sanitised, the rest of it unchanged. */
  function SanitizeAll(blocks: seq<BlockRecord>): seq<BlockRecord> {
    seq(|blocks|, i requires 0 <= i < |blocks| => blocks[i].(name := Sanitize(blocks[i].name)))
  }

  /** `end - start + 1` evaluated in `uint32_t`. */
  function RangeSize(b: BlockRecord): (r: u32)
    ensures b.start <= b.end && b.end as int - b.start as int + 1 < U32_MODULUS ==>
              r as int == b.end as int - b.start as int + 1 && r >= 1
    ensures b.start == 0 && b.end as int == U32_MODULUS - 1 ==> r == 0
    ensures b.start as int == b.end as int + 1 ==> r == 0
    ensures b.start as int > b.end as int + 1 ==> r as int == U32_MODULUS - (b.start as int - b.end as int - 1)
  {
    ToU32(b.end as int - b.start as int + 1)
  }

  /** The output directory with a '/' appended unless it already ends in a
      path separator. */
  function NormalizeDir(dir: string): (r: string)
    requires |dir| > 0
    ensures |r| > 0 && (r[|r| - 1] == '/' || r[|r| - 1] == '\\')
    ensures dir[|dir| - 1] == '/' || dir[|dir| - 1] == '\\' ==> r == dir
    ensures dir[|dir| - 1] != '/' && dir[|dir| - 1] != '\\' ==> r == dir + "/"
  {
    if dir[|dir| - 1] != '/' && dir[|dir| - 1] != '\\' then dir + "/" else dir
  }

  lemma NormalizeDirIdempotent(dir: string)
    requires |dir| > 0
    ensures NormalizeDir(NormalizeDir(dir)) == NormalizeDir(dir)
  {
  }

  /** The name of the file the header is written to. */
  const HeaderFileName := "unicode_blocks.h"

  function OutputPath(dir: string): (r: string)
    requires |dir| > 0
    ensures dir[|dir| - 1] == '/' || dir[|dir| - 1] == '\\' ==> r == dir + HeaderFileName
    ensures dir[|dir| - 1] != '/' && dir[|dir| - 1] != '\\' ==> r == dir + "/" + HeaderFileName
    ensures |r| > |HeaderFileName| && r[|r| - |HeaderFileName|..] == HeaderFileName
    ensures r[|r| - |HeaderFileName| - 1] == '/' || r[|r| - |HeaderFileName| - 1] == '\\'
  {
    NormalizeDir(dir) + HeaderFileName
  }
}
