/** Reading the generated text back. A reader for the enumeration body and
    one for the body of an accessor switch invert the renderer; the value of
    a C++ integer literal and the case a switch selects give the meaning of
    an accessor. Together they state that each accessor returns, for each
    block, the number recorded for that block. */
module Readback {
  import opened Wrappers
  import opened Numerals
  import opened Blocks
  import opened Render

  predicate StartsWith(s: string, prefix: string) {
    |prefix| <= |s| && s[..|prefix|] == prefix
  }

  /** `s` cut at its first character in `stops`. */
  function Split(s: string, stops: set<char>): (r: (string, string))
    ensures r.0 + r.1 == s
    ensures forall i :: 0 <= i < |r.0| ==> r.0[i] !in stops
    ensures r.1 == [] || r.1[0] in stops
    decreases |s|
  {
    if s == [] || s[0] in stops then ([], s)
    else
      var rest := Split(s[1..], stops);
      assert [s[0]] + s[1..] == s;
      ([s[0]] + rest.0, rest.1)
  }

  /** A text made of a stop-free part followed by a stop is split there. */
  lemma {:induction false} SplitAt(a: string, b: string, stops: set<char>)
    requires forall i :: 0 <= i < |a| ==> a[i] !in stops
    requires b == [] || b[0] in stops
    ensures Split(a + b, stops) == (a, b)
    decreases |a|
  {
    if a != [] {
      assert (a + b)[0] == a[0];
      assert (a + b)[1..] == a[1..] + b;
      SplitAt(a[1..], b, stops);
      assert [a[0]] + a[1..] == a;
    } else {
      assert a + b == b;
    }
  }

  // ----- The enumeration -----

  /** The enumerator names of an enumeration body. */
  function ParseEnum(s: string, first: bool): Option<seq<string>>
    decreases |s|
  {
    if s == [] then Some([])
    else if !StartsWith(s, EntryIndent) then None
    else
      var cut := Split(s[|EntryIndent|..], {' ', ','});
      var close := if first then FirstEntryClose else EntryClose;
      if !StartsWith(cut.1, close) then None
      else
        match ParseEnum(cut.1[|close|..], false)
        case None => None
        case Some(names) => Some([cut.0] + names)
  }

  /** Names that survive as enumerator names: no space, no comma. */
  predicate PlainNames(names: seq<string>) {
    forall i :: 0 <= i < |names| ==> ' ' !in names[i] && ',' !in names[i]
  }

  lemma EnumLinesTail(names: seq<string>, first: bool)
    requires |names| > 0
    ensures EnumLines(names, first) == [EnumEntry(names[0], first)] + EnumLines(names[1..], false)
  {
    assert EnumLines(names, first)[1..] == EnumLines(names[1..], false);
  }

  /** The enumeration body lists one enumerator per name, in order: reading
      it back gives the names. */
  lemma {:induction false} EnumReadback(names: seq<string>, first: bool)
    requires PlainNames(names)
    ensures ParseEnum(Concat(EnumLines(names, first)), first) == Some(names)
    decreases |names|
  {
    var lines := EnumLines(names, first);
    if names != [] {
      var name := names[0];
      var close := if first then FirstEntryClose else EntryClose;
      var tail := Concat(EnumLines(names[1..], false));
      EnumLinesTail(names, first);
      assert lines[1..] == EnumLines(names[1..], false);
      var s := Concat(lines);
      assert s == EntryIndent + name + close + tail;
      assert s == EntryIndent + (name + (close + tail));
      assert s[..|EntryIndent|] == EntryIndent;
      assert s[|EntryIndent|..] == name + (close + tail);
      SplitAt(name, close + tail, {' ', ','});
      assert (close + tail)[..|close|] == close;
      assert (close + tail)[|close|..] == tail;
      EnumReadback(names[1..], false);
      assert [name] + names[1..] == names;
    }
  }

  // ----- The switches -----

  /** The cases of a switch body, as (enumerator, literal) pairs. */
  function ParseCases(s: string): Option<seq<Case>>
    decreases |s|
  {
    if s == [] then Some([])
    else if !StartsWith(s, CaseLabelOpen) then None
    else
      var head := Split(s[|CaseLabelOpen|..], {' '});
      var sep := CaseLabelClose + ReturnKeyword;
      if !StartsWith(head.1, sep) then None
      else
        var lit := Split(head.1[|sep|..], {';'});
        if !StartsWith(lit.1, CaseClose) then None
        else
          match ParseCases(lit.1[|CaseClose|..])
          case None => None
          case Some(cases) => Some([Case(head.0, lit.0)] + cases)
  }

  /** Cases whose label has no space and whose literal has no ';'. */
  predicate PlainCases(cases: seq<Case>) {
    forall i :: 0 <= i < |cases| ==> ' ' !in cases[i].name && ';' !in cases[i].literal
  }

  lemma CaseTextSplit(c: Case, tail: string)
    ensures CaseText(c) + tail
         == CaseLabelOpen + (c.name + (CaseLabelClose + ReturnKeyword + (c.literal + (CaseClose + tail))))
  {
  }

  /** Reading a switch body back gives its cases, in order. */
  lemma {:induction false} CasesReadback(cases: seq<Case>)
    requires PlainCases(cases)
    ensures ParseCases(Concat(CaseLines(cases))) == Some(cases)
    decreases |cases|
  {
    if cases != [] {
      var c := cases[0];
      var lines := CaseLines(cases);
      assert lines[1..] == CaseLines(cases[1..]);
      var tail := Concat(CaseLines(cases[1..]));
      var s := Concat(lines);
      var sep := CaseLabelClose + ReturnKeyword;
      CaseTextSplit(c, tail);
      assert s == CaseLabelOpen + (c.name + (sep + (c.literal + (CaseClose + tail))));
      assert s[..|CaseLabelOpen|] == CaseLabelOpen;
      assert s[|CaseLabelOpen|..] == c.name + (sep + (c.literal + (CaseClose + tail)));
      SplitAt(c.name, sep + (c.literal + (CaseClose + tail)), {' '});
      var afterName := sep + (c.literal + (CaseClose + tail));
      assert afterName[..|sep|] == sep;
      assert afterName[|sep|..] == c.literal + (CaseClose + tail);
      SplitAt(c.literal, CaseClose + tail, {';'});
      assert (CaseClose + tail)[..|CaseClose|] == CaseClose;
      assert (CaseClose + tail)[|CaseClose|..] == tail;
      CasesReadback(cases[1..]);
      assert [c] + cases[1..] == cases;
    }
  }

  /** The literal a switch returns for an enumerator: the first case with
      that label. */
  function Lookup(cases: seq<Case>, name: string): Option<string>
    decreases |cases|
  {
    if cases == [] then None
    else if cases[0].name == name then Some(cases[0].literal)
    else Lookup(cases[1..], name)
  }

  /** With pairwise distinct labels, as a C++ switch requires, the case
      for label i is case i. */
  lemma {:induction false} LookupDistinct(cases: seq<Case>, i: nat)
    requires i < |cases|
    requires forall j, k :: 0 <= j < k < |cases| ==> cases[j].name != cases[k].name
    ensures Lookup(cases, cases[i].name) == Some(cases[i].literal)
    decreases i
  {
    if i > 0 {
      assert cases[0].name != cases[i].name;
      assert cases[1..][i - 1] == cases[i];
      LookupDistinct(cases[1..], i - 1);
    }
  }

  /** The value of a C++ integer literal as the generator writes them: `0x`
      and hex digits, or decimal digits without a leading zero. */
  function LiteralValue(lit: string): Option<nat> {
    if |lit| > |HexPrefix| && lit[..|HexPrefix|] == HexPrefix && AllDigits(lit[|HexPrefix|..], 16) then
      Some(ValueOf(lit[|HexPrefix|..], 16))
    else if |lit| > 0 && AllDigits(lit, 10) && (lit[0] == '0' ==> |lit| == 1) then
      Some(ValueOf(lit, 10))
    else None
  }

  /** The literal written for a record denotes the number the accessor
      reports for it. */
  lemma LiteralDenotes(acc: Accessor, b: BlockRecord)
    ensures LiteralValue(Literal(acc, b)) == Some(Field(acc, b) as nat)
    ensures ';' !in Literal(acc, b)
  {
    var n := Field(acc, b) as nat;
    var lit := Literal(acc, b);
    if acc.GetBlockSize? {
      ValueOfNumeral(n, 10);
      assert IsDigit(lit[0], 10);
      if |lit| > |HexPrefix| {
        assert IsDigit(lit[1], 10);
        assert lit[..|HexPrefix|] != HexPrefix by {
          assert lit[..|HexPrefix|][1] == lit[1];
        }
      }
    } else {
      var digits := Numeral(n, 16);
      assert lit == HexPrefix + digits;
      assert lit[|HexPrefix|..] == digits;
      ValueOfNumeral(n, 16);
      assert forall k :: 0 <= k < |lit| ==> lit[k] != ';' by {
        forall k | 0 <= k < |lit| ensures lit[k] != ';' {
          if k >= |HexPrefix| {
            assert lit[k] == digits[k - |HexPrefix|];
          }
        }
      }
    }
  }

  /** Distinct enumerator names after sanitising, as C++ requires of the
      generated enumeration. */
  predicate DistinctIdentifiers(blocks: seq<BlockRecord>) {
    forall j, k :: 0 <= j < k < |blocks| ==> Sanitize(blocks[j].name) != Sanitize(blocks[k].name)
  }

  /** The cases of a switch over sanitised records: one per block, labelled
      with the sanitised name, and readable by ParseCases. */
  lemma SanitizedCases(acc: Accessor, blocks: seq<BlockRecord>)
    ensures var cases := Cases(acc, SanitizeAll(blocks));
            && |cases| == |blocks|
            && (forall j :: 0 <= j < |blocks| ==> cases[j].name == Sanitize(blocks[j].name))
            && PlainCases(cases)
  {
    var named := SanitizeAll(blocks);
    var cases := Cases(acc, named);
    forall j | 0 <= j < |cases| ensures ' ' !in cases[j].name && ';' !in cases[j].literal {
      LiteralDenotes(acc, named[j]);
    }
  }

  /** What each generated accessor returns: its switch has one case per
      block, in block order, labelled with the block's enumerator; and the
      case selected for block i returns a literal whose value is block i's
      start (`getFirstCodePoint`), end (`getLastCodePoint`) or uint32 size
      (`getBlockSize`). */
  lemma AccessorReadback(acc: Accessor, blocks: seq<BlockRecord>, i: nat)
    requires i < |blocks|
    requires DistinctIdentifiers(blocks)
    ensures var named := SanitizeAll(blocks);
            var parsed := ParseCases(Concat(CaseLines(Cases(acc, named))));
            && parsed.Some?
            && |parsed.value| == |blocks|
            && (forall j :: 0 <= j < |blocks| ==> parsed.value[j].name == Sanitize(blocks[j].name))
            && Lookup(parsed.value, Sanitize(blocks[i].name)).Some?
            && LiteralValue(Lookup(parsed.value, Sanitize(blocks[i].name)).value)
               == Some(Field(acc, blocks[i]) as nat)
  {
    var named := SanitizeAll(blocks);
    var cases := Cases(acc, named);
    SanitizedCases(acc, blocks);
    CasesReadback(cases);
    LookupDistinct(cases, i);
    LiteralDenotes(acc, named[i]);
    assert Field(acc, named[i]) == Field(acc, blocks[i]);
  }

  /** The enumeration lists every block's identifier, in block order, and
      only those. */
  lemma EnumerationReadback(blocks: seq<BlockRecord>)
    requires forall i :: 0 <= i < |blocks| ==> ',' !in blocks[i].name
    ensures var named := SanitizeAll(blocks);
            var parsed := ParseEnum(Concat(EnumLines(Names(named), true)), true);
            && parsed.Some?
            && |parsed.value| == |blocks|
            && forall j :: 0 <= j < |blocks| ==> parsed.value[j] == Sanitize(blocks[j].name)
  {
    var names := Names(SanitizeAll(blocks));
    forall j | 0 <= j < |names| ensures ' ' !in names[j] && ',' !in names[j] {
      var n := blocks[j].name;
      assert names[j] == Sanitize(n);
    }
    EnumReadback(names, true);
  }

  /** The Basic Latin block (first-cp 0000, last-cp 007F) and the name of
      the Latin-1 Supplement block, as the generator renders them. */
  lemma BasicLatinNames()
    ensures Sanitize("Basic Latin") == "Basic_Latin"
    ensures Sanitize("Latin-1 Supplement") == "Latin_1_Supplement"
  {
  }

  /** The three literals the accessors return for Basic Latin. */
  lemma BasicLatinLiterals()
    ensures var b := BlockRecord("Basic_Latin", 0, 0x7F);
            && Literal(GetFirstCodePoint, b) == "0x0"
            && Literal(GetLastCodePoint, b) == "0x7F"
            && Literal(GetBlockSize, b) == "128"
  {
    assert Numeral(0x7F, 16) == Numeral(7, 16) + "F";
    assert Numeral(128, 10) == Numeral(12, 10) + "8";
    assert Numeral(12, 10) == Numeral(1, 10) + "2";
  }
}
