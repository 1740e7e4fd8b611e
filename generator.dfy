/** The generator's `main` after argument parsing: collect the block records
    from the `<blocks>` element, fix up the output directory, and write the
    header to the output stream piece by piece. */
module Generator {
  import opened Wrappers
  import opened Numerals
  import opened Blocks
  import opened Render

  /** The header file being written: what `std::ofstream` holds so far and
      which integer format it is in. */
  class OutStream {
    var text: string
    /** `std::hex` and `std::uppercase` are in effect; otherwise `std::dec`,
        the state a fresh stream starts in. */
    var hexMode: bool

    constructor ()
      ensures text == [] && !hexMode
    {
      text := [];
      hexMode := false;
    }

    /** `out << s` for text. */
    method Write(s: string)
      modifies this
      ensures text == old(text) + s && hexMode == old(hexMode)
    {
      text := text + s;
    }

    /** `out << n` for a `uint32_t`, in the current base. */
    method WriteNumber(n: u32)
      modifies this
      ensures text == old(text) + Numeral(n as nat, if hexMode then 16 else 10)
      ensures hexMode == old(hexMode)
    {
      text := text + Numeral(n as nat, if hexMode then 16 else 10);
    }

    /** `out << std::hex << std::uppercase`. */
    method SetHex()
      modifies this
      ensures hexMode && text == old(text)
    {
      hexMode := true;
    }

    /** `out << std::dec`. */
    method SetDec()
      modifies this
      ensures !hexMode && text == old(text)
    {
      hexMode := false;
    }
  }

  /** `std::replace` over the characters of a string, in place. */
  method ReplaceInPlace(a: array<char>, from: char, to: char)
    modifies a
    ensures a[..] == Replace(old(a[..]), from, to)
  {
    var i := 0;
    while i < a.Length
      invariant 0 <= i <= a.Length
      invariant forall k :: 0 <= k < i ==> a[k] == (if old(a[k]) == from then to else old(a[k]))
      invariant forall k :: i <= k < a.Length ==> a[k] == old(a[k])
    {
      if a[i] == from {
        a[i] := to;
      }
      i := i + 1;
    }
  }

  /** The two `std::replace` calls on one block name. */
  method SanitizeName(name: string) returns (r: string)
    ensures r == Sanitize(name)
  {
    var buffer := new char[|name|](i requires 0 <= i < |name| => name[i]);
    assert buffer[..] == name;
    ReplaceInPlace(buffer, ' ', '_');
    ReplaceInPlace(buffer, '-', '_');
    r := buffer[..];
  }

  /** The collection loop: visit the children of `<blocks>` from the first
      to the last, appending one record per child. */
  method CollectBlocks(children: seq<BlockElement>) returns (blocks: seq<BlockRecord>)
    requires |children| > 0
    requires forall i :: 0 <= i < |children| ==> WellFormed(children[i])
    ensures |blocks| == |children|
    ensures forall i :: 0 <= i < |children| ==> blocks[i] == ToRecord(children[i])
    ensures blocks == Extract(children)
  {
    blocks := [];
    var node := 0;
    while true
      invariant 0 <= node < |children|
      invariant |blocks| == node
      invariant forall i :: 0 <= i < node ==> blocks[i] == ToRecord(children[i])
      decreases |children| - node
    {
      var data := BlockRecord(children[node].name,
                              ParseCodePoint(children[node].firstCp),
                              ParseCodePoint(children[node].lastCp));
      blocks := blocks + [data];
      if node != |children| - 1 {
        node := node + 1;
      } else {
        break;
      }
    }
  }

  /** The enumeration: each name is sanitised in place, then written; the
      first enumerator is pinned to zero. */
  method WriteEnum(out: OutStream, f: Frame, blocks: seq<BlockRecord>) returns (named: seq<BlockRecord>)
    modifies out
    ensures named == SanitizeAll(blocks)
    ensures out.text == old(out.text) + EnumText(f, Names(named))
    ensures out.hexMode == old(out.hexMode)
  {
    out.Write(f.enumOpen);
    ghost var head := out.text;
    named := blocks;
    var i := 0;
    while i < |named|
      invariant 0 <= i <= |named| == |blocks|
      invariant forall k :: 0 <= k < i ==> named[k] == blocks[k].(name := Sanitize(blocks[k].name))
      invariant forall k :: i <= k < |named| ==> named[k] == blocks[k]
      invariant out.text == head + Concat(EnumLines(Names(named[..i]), true))
      invariant out.hexMode == old(out.hexMode)
    {
      ghost var done := named[..i];
      var name := SanitizeName(named[i].name);
      named := named[i := named[i].(name := name)];
      assert named[..i] == done;
      WriteEntry(out, name, i == 0);
      assert named[..i + 1] == done + [named[i]];
      EnumStep(head, done, named[i]);
      i := i + 1;
    }
    assert named[..i] == named;
    assert |SanitizeAll(blocks)| == |named|;
    assert forall k :: 0 <= k < |named| ==> SanitizeAll(blocks)[k] == named[k];
    ghost var lines := Concat(EnumLines(Names(named), true));
    out.Write(f.enumClose);
    Regroup(old(out.text), f.enumOpen, lines, f.enumClose, "");
    AppendEmpty(f.enumClose);
    AppendEmpty(old(out.text) + f.enumOpen + lines + f.enumClose);
  }

  /** One enumerator line. */
  method WriteEntry(out: OutStream, name: string, first: bool)
    modifies out
    ensures out.text == old(out.text) + EnumEntry(name, first)
    ensures out.hexMode == old(out.hexMode)
  {
    ghost var before := out.text;
    out.Write(EntryIndent);
    out.Write(name);
    Assoc(before, EntryIndent, name);
    if first {
      out.Write(FirstEntryClose);
      Assoc(before, EntryIndent + name, FirstEntryClose);
    } else {
      out.Write(EntryClose);
      Assoc(before, EntryIndent + name, EntryClose);
    }
  }

  /** One `case` of an accessor switch. */
  method WriteCase(out: OutStream, acc: Accessor, b: BlockRecord)
    requires out.hexMode == !acc.GetBlockSize?
    modifies out
    ensures out.text == old(out.text) + CaseText(Case(b.name, Literal(acc, b)))
    ensures out.hexMode == old(out.hexMode)
  {
    ghost var before := out.text;
    ghost var c := Case(b.name, Literal(acc, b));
    ghost var caseHead := CaseLabelOpen + b.name + CaseLabelClose + ReturnKeyword;
    out.Write(CaseLabelOpen);
    out.Write(b.name);
    Assoc(before, CaseLabelOpen, b.name);
    out.Write(CaseLabelClose);
    Assoc(before, CaseLabelOpen + b.name, CaseLabelClose);
    out.Write(ReturnKeyword);
    Assoc(before, CaseLabelOpen + b.name + CaseLabelClose, ReturnKeyword);
    assert out.text == before + caseHead;
    if acc.GetBlockSize? {
      out.WriteNumber(Field(acc, b));
      Assoc(before, caseHead, c.literal);
    } else {
      out.Write(HexPrefix);
      Assoc(before, caseHead, HexPrefix);
      out.WriteNumber(Field(acc, b));
      Assoc(before, caseHead + HexPrefix, Numeral(Field(acc, b) as nat, 16));
      Assoc(caseHead, HexPrefix, Numeral(Field(acc, b) as nat, 16));
    }
    assert out.text == before + (caseHead + c.literal);
    out.Write(CaseClose);
    Assoc(before, caseHead + c.literal, CaseClose);
  }

  /** The cases of one accessor's switch, one per block in order. */
  method WriteCases(out: OutStream, acc: Accessor, named: seq<BlockRecord>)
    requires out.hexMode == !acc.GetBlockSize?
    modifies out
    ensures out.text == old(out.text) + Concat(CaseLines(Cases(acc, named)))
    ensures out.hexMode == old(out.hexMode)
  {
    var i := 0;
    while i < |named|
      invariant 0 <= i <= |named|
      invariant out.text == old(out.text) + Concat(CaseLines(Cases(acc, named[..i])))
      invariant out.hexMode == old(out.hexMode)
    {
      var b := named[i];
      WriteCase(out, acc, b);
      assert named[..i + 1] == named[..i] + [b];
      SwitchStep(old(out.text), acc, named[..i], b);
      i := i + 1;
    }
    assert named[..i] == named;
  }

  /** One accessor: a `switch` with one case per block returning the
      accessor's number for that block, in hex for the code points and in
      decimal for the size. */
  method WriteSwitch(out: OutStream, f: Frame, acc: Accessor, named: seq<BlockRecord>)
    requires out.hexMode == !acc.GetBlockSize?
    modifies out
    ensures out.text == old(out.text) + SwitchText(f, acc, named)
    ensures out.hexMode == old(out.hexMode)
  {
    out.Write(Signature(f, acc));
    out.Write(f.switchOpen);
    WriteCases(out, acc, named);
    out.Write(f.switchClose);
    Regroup(old(out.text), Signature(f, acc), f.switchOpen, Concat(CaseLines(Cases(acc, named))), f.switchClose);
  }

  /** The banner, the include guard, the include, the namespace and the
      version constant. */
  method WritePreamble(out: OutStream, f: Frame, version: string)
    modifies out
    ensures out.text == old(out.text) + Preamble(f, version)
    ensures out.hexMode == old(out.hexMode)
  {
    ghost var start := old(out.text);
    out.Write(f.banner);
    out.Write(f.guardOpen);
    out.Write(f.includes);
    out.Write(f.namespaceOpen);
    out.Write(f.versionOpen);
    Regroup(start, f.banner, f.guardOpen, f.includes, f.namespaceOpen);
    Assoc(start, f.banner + f.guardOpen + f.includes + f.namespaceOpen, f.versionOpen);
    out.Write(version);
    out.Write(f.versionClose);
    Regroup(start, VersionHead(f), version, f.versionClose, "");
    AppendEmpty(VersionHead(f) + version + f.versionClose);
    AppendEmpty(start + VersionHead(f) + version + f.versionClose);
  }

  /** The whole header, in the order the generator writes it. */
  method WriteHeader(out: OutStream, f: Frame, version: string, blocks: seq<BlockRecord>, includeBlockSize: bool)
    returns (named: seq<BlockRecord>)
    modifies out
    ensures named == SanitizeAll(blocks)
    ensures out.text == old(out.text) + HeaderText(f, version, blocks, includeBlockSize)
    ensures out.hexMode == !includeBlockSize
  {
    ghost var start := old(out.text);
    WritePreamble(out, f, version);
    ghost var p := start + Preamble(f, version);
    named := WriteEnum(out, f, blocks);
    out.SetHex();
    ghost var e := EnumText(f, Names(named));
    WriteSwitch(out, f, GetFirstCodePoint, named);
    ghost var first := SwitchText(f, GetFirstCodePoint, named);
    Assoc(p, e, first);
    WriteSwitch(out, f, GetLastCodePoint, named);
    ghost var last := SwitchText(f, GetLastCodePoint, named);
    Assoc(p, e + first, last);
    assert out.text == p + (e + first + last);
    if includeBlockSize {
      out.SetDec();
      WriteSwitch(out, f, GetBlockSize, named);
      Assoc(p, e + first + last, SwitchText(f, GetBlockSize, named));
    } else {
      AppendEmpty(e + first + last);
    }
    assert out.text == p + Body(f, named, includeBlockSize);
    ghost var body := Body(f, named, includeBlockSize);
    out.Write(f.namespaceClose);
    out.Write(f.guardClose);
    Assoc(p + body, f.namespaceClose, f.guardClose);
    Assoc(start, Preamble(f, version), body);
    Assoc(start, Preamble(f, version) + body, Postamble(f));
  }

  /** The parts of the UCD document the generator reads: the text of
      `<description>` and, if present, the children of `<blocks>`. */
  datatype Ucd = Ucd(description: string, blocks: Option<seq<BlockElement>>)

  /** The command-line settings that reach the core. */
  datatype Options = Options(outputDir: string, includeBlockSize: bool)

  /** How a run ends: one of the early exits, or the header file written. */
  datatype Outcome =
    | NoUcdElement
    | NoBlocksElement
    | OpenFailed(path: string)
    | Written(path: string, header: string)

  /** One run on a parsed document; `root` is the `<ucd>` element if there
      is one, and `writable` says whether the header file can be opened. */
  method Run(root: Option<Ucd>, opts: Options, writable: bool) returns (outcome: Outcome)
    requires root.Some? && root.value.blocks.Some? ==>
               && |opts.outputDir| > 0
               && |root.value.blocks.value| > 0
               && forall i :: 0 <= i < |root.value.blocks.value| ==> WellFormed(root.value.blocks.value[i])
    ensures root.None? ==> outcome == NoUcdElement
    ensures root.Some? && root.value.blocks.None? ==> outcome == NoBlocksElement
    ensures root.Some? && root.value.blocks.Some? && !writable ==>
              outcome == OpenFailed(OutputPath(opts.outputDir))
    ensures root.Some? && root.value.blocks.Some? && writable ==>
              outcome == Written(OutputPath(opts.outputDir),
                                 HeaderText(SourceFrame, root.value.description,
                                            Extract(root.value.blocks.value),
                                            opts.includeBlockSize))
  {
    if root.None? {
      return NoUcdElement;
    }
    var version := root.value.description;
    if root.value.blocks.None? {
      return NoBlocksElement;
    }
    var blocks := CollectBlocks(root.value.blocks.value);

    var dir := opts.outputDir;
    if dir[|dir| - 1] != '/' && dir[|dir| - 1] != '\\' {
      dir := dir + "/";
    }
    var path := dir + HeaderFileName;
    if !writable {
      return OpenFailed(path);
    }
    var out := new OutStream();
    var _ := WriteHeader(out, SourceFrame, version, blocks, opts.includeBlockSize);
    AppendEmpty(HeaderText(SourceFrame, version, blocks, opts.includeBlockSize));
    outcome := Written(path, out.text);
  }
}
