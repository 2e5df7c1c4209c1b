/** Where lines lie, the file that write_asm makes of them, and the memory that load makes of the file. */
module Image {
  import opened Words
  import opened Isa
  import opened Source
  import opened Encoder
  import opened Assembler
  import opened Agreement
  import opened Correct

  // ----- layout -----

  /** No .org moves the address between the two lines. */
  predicate SameSegment(p: Program, i: nat, j: nat)
    requires i <= j < |p|
  {
    forall k :: i < k <= j ==> !SetsAddress(p[k])
  }

  function SumOfSizes(p: Program, i: nat, j: nat): nat
    requires i <= j <= |p|
  {
    if i == j then 0 else SumOfSizes(p, i, j - 1) + Size(p[j - 1])
  }

  /** Within a segment, addresses are prefix sums of the sizes. */
  lemma {:induction false} PrefixSum(p: Program, i: nat, j: nat)
    requires i <= j < |p| && SameSegment(p, i, j)
    ensures Address(p, j) == Address(p, i) + SumOfSizes(p, i, j)
    decreases j
  {
    if i < j { PrefixSum(p, i, j - 1); }
  }

  /** The bytes of the two lines do not overlap. */
  predicate Clear(p: Program, i: nat, j: nat)
    requires i < |p| && j < |p|
  {
    Size(p[i]) == 0 || Size(p[j]) == 0
    || Address(p, i) + Size(p[i]) <= Address(p, j) || Address(p, j) + Size(p[j]) <= Address(p, i)
  }

  predicate AllClear(p: Program) { forall i, j :: 0 <= i < j < |p| ==> Clear(p, i, j) }

  /** Lines of different segments do not overlap. */
  predicate SegmentsDisjoint(p: Program) {
    forall i, j :: 0 <= i < j < |p| && !SameSegment(p, i, j) ==> Clear(p, i, j)
  }

  lemma {:induction false} SizeWithin(p: Program, i: nat, j: nat)
    requires i < j <= |p|
    ensures SumOfSizes(p, i, j) >= Size(p[i])
    decreases j
  {
    if i < j - 1 { SizeWithin(p, i, j - 1); }
  }

  /** No line further down overlaps the line. */
  predicate LastThere(p: Program, i: nat)
    requires i < |p|
  {
    forall j :: i < j < |p| ==> Clear(p, i, j)
  }

  /** Lines of one segment never overlap, so that only those of other segments matter. */
  lemma LineDisjoint(p: Program, i: nat)
    requires i < |p| && forall j :: i < j < |p| && !SameSegment(p, i, j) ==> Clear(p, i, j)
    ensures LastThere(p, i)
  {
    forall j | i < j < |p| ensures Clear(p, i, j) {
      if SameSegment(p, i, j) {
        PrefixSum(p, i, j);
        SizeWithin(p, i, j);
      }
    }
  }

  /** Disjoint segments make all lines disjoint. */
  lemma LinesDisjoint(p: Program)
    requires SegmentsDisjoint(p)
    ensures AllClear(p)
  {
    hide Clear, SameSegment;
    forall i, j | 0 <= i < j < |p| ensures Clear(p, i, j) {
      LineDisjoint(p, i);
    }
  }

  predicate IsInstr(p: Program, i: nat) { i < |p| && p[i].Text? && p[i].body.Ins8? }

  predicate LineHas(p: Program, k: nat, m: Mnemonic, arg: Arg) { IsInstr(p, k) && p[k].body == Ins8(m, arg) }

  /** No line of another segment further down overlaps an instruction. Data may overlap data. */
  predicate CodeApart(p: Program) {
    forall i, j :: 0 <= i < j < |p| && IsInstr(p, i) && !SameSegment(p, i, j) ==> Clear(p, i, j)
  }

  /** No line further down overlaps an instruction. */
  predicate CodeLast(p: Program) { forall i :: 0 <= i < |p| && IsInstr(p, i) ==> LastThere(p, i) }

  lemma CodeApartIsLast(p: Program)
    requires CodeApart(p)
    ensures CodeLast(p)
  {
    hide Clear, SameSegment, LastThere;
    forall i | 0 <= i < |p| && IsInstr(p, i) ensures LastThere(p, i) { LineDisjoint(p, i); }
  }

  // ----- the bytes of a line -----

  function LowByte(op: bv16): byte { (op & 0x00ff) as int }

  function HighByte(op: bv16): byte { (op >> 8) as int }

  /** The word that write puts into the file, on a little-endian machine. */
  function Bytes(op: bv16): seq<byte> { [LowByte(op), HighByte(op)] }

  function LineBytes(p: Program, i: nat): seq<byte>
    requires Assembles(p) && i < |p|
  {
    hide Encode, TypeOf;
    if !p[i].Text? then []
    else
      match p[i].body
      case Blank => []
      case Data(bytes) => bytes
      case Ins8(m, _) =>
        assert LineFits(p, i);
        var c := CodeAt(p, i).value;
        Bytes(c.opcode) + (if IsWide(TypeOf(m)) then [Trunc8(c.extra), High(c.extra)] else [])
  }

  /** A line takes as many bytes in the file as the first pass gave it. */
  lemma LineLength(p: Program, i: nat)
    requires Assembles(p) && i < |p|
    ensures |LineBytes(p, i)| == Size(p[i])
  {
    hide Encode, TypeOf;
  }

  // ----- write_asm -----

  const HEADER: seq<byte> := [0x62, 0x61, 0x73, 0x6d, 0, 0, 0, 0]

  /** One byte written at a position; a gap before it reads as zeros. */
  function PutByte(file: seq<byte>, pos: nat, b: byte): seq<byte> {
    if pos < |file| then file[pos := b] else file + seq(pos - |file|, _ => 0) + [b]
  }

  function PutBytes(file: seq<byte>, pos: nat, bytes: seq<byte>): seq<byte>
    decreases |bytes|
  {
    if bytes == [] then file else PutBytes(PutByte(file, pos, bytes[0]), pos + 1, bytes[1..])
  }

  /** The file after the first lines. */
  function FileOf(p: Program, j: nat): seq<byte>
    requires Assembles(p) && j <= |p|
  {
    hide LineBytes;
    if j == 0 then HEADER else PutBytes(FileOf(p, j - 1), Address(p, j - 1) + 8, LineBytes(p, j - 1))
  }

  lemma {:induction false} PutBytesAt(file: seq<byte>, pos: nat, bytes: seq<byte>)
    ensures var f := PutBytes(file, pos, bytes);
            && |f| >= |file| && (bytes != [] ==> |f| >= pos + |bytes|)
            && (forall k :: 0 <= k < |bytes| ==> f[pos + k] == bytes[k])
            && (forall k :: 0 <= k < |file| && !(pos <= k < pos + |bytes|) ==> f[k] == file[k])
    decreases |bytes|
  {
    if bytes != [] {
      var f1 := PutByte(file, pos, bytes[0]);
      PutBytesAt(f1, pos + 1, bytes[1..]);
      var f := PutBytes(f1, pos + 1, bytes[1..]);
      assert f[pos] == f1[pos];
      forall k | 0 <= k < |bytes| ensures f[pos + k] == bytes[k] {
        if k > 0 { assert f[pos + 1 + (k - 1)] == bytes[1..][k - 1]; }
      }
    }
  }

  /** The bytes of a line stand in the file. */
  predicate InFile(p: Program, i: nat, file: seq<byte>)
    requires Assembles(p) && i < |p|
  {
    hide LineBytes;
    var bytes, pos := LineBytes(p, i), Address(p, i) + 8;
    && (bytes != [] ==> pos + |bytes| <= |file|)
    && forall k :: 0 <= k < |bytes| ==> pos + k < |file| && file[pos + k] == bytes[k]
  }

  /** Later lines do not disturb a line that they do not overlap. */
  lemma {:induction false} LineSurvives(p: Program, i: nat, j: nat)
    requires Assembles(p) && i < j <= |p| && LastThere(p, i)
    ensures InFile(p, i, FileOf(p, j))
    decreases j
  {
    hide LineBytes, Address;
    PutBytesAt(FileOf(p, j - 1), Address(p, j - 1) + 8, LineBytes(p, j - 1));
    if i < j - 1 {
      LineSurvives(p, i, j - 1);
      assert Clear(p, i, j - 1);
      LineLength(p, i);
      LineLength(p, j - 1);
    }
  }

  lemma {:induction false} HeaderSurvives(p: Program, j: nat)
    requires Assembles(p) && j <= |p|
    ensures |FileOf(p, j)| >= 8 && FileOf(p, j)[..8] == HEADER
  {
    hide LineBytes;
    if j > 0 {
      HeaderSurvives(p, j - 1);
      PutBytesAt(FileOf(p, j - 1), Address(p, j - 1) + 8, LineBytes(p, j - 1));
    }
  }

  /** What write_asm puts into the file for a record. */
  function RecBytes(r: Rec, dp: seq<Block>): seq<byte>
    requires r.dataidx <= |dp|
  {
    (if r.dataidx > 0 then dp[r.dataidx - 1] else [])
    + (if r.opcode != NOCODE then Bytes(r.opcode) else [])
    + (if IsWide(r.ty) then [Trunc8(r.extra), High(r.extra)] else [])
  }

  lemma {:induction false} BlocksGrow(p: Program, i: nat, j: nat)
    requires i <= j <= |p|
    ensures Blocks(p, i) <= Blocks(p, j)
    decreases j
  {
    if i < j { BlocksGrow(p, i, j - 1); }
  }

  /** No instruction has the opcode that marks an empty line, so none is left out of the file. */
  lemma NothingDropped(p: Program, i: nat)
    requires Assembles(p) && i < |p|
    ensures Final(p, i).Some? && Final(p, i).value.dataidx <= |Blocks(p, |p|)|
    ensures RecBytes(Final(p, i).value, Blocks(p, |p|)) == LineBytes(p, i)
    ensures Final(p, i).value.dataidx > 0 ==> |Blocks(p, |p|)[Final(p, i).value.dataidx - 1]| == Final(p, i).value.size
    ensures Final(p, i).value.address == Address(p, i)
  {
    hide Final, Encode, TypeOf, Address, LineBytes, Blocks, Bytes, CodeAt, Size, LineFits, RecBytes;
    assert LineFits(p, i);
    FinalIsCodeAt(p, i);
    BlocksGrow(p, i, |p|);
    if p[i].Text? && p[i].body.Ins8? {
      CodeIsNotEmpty(p, i);
      InstructionBytes(p, i, Final(p, i).value);
    } else {
      OtherBytes(p, i, Final(p, i).value);
    }
  }

  lemma InstructionBytes(p: Program, i: nat, r: Rec)
    requires Assembles(p) && i < |p| && p[i].Text? && p[i].body.Ins8? && CodeAt(p, i).Some?
    requires r.opcode == CodeAt(p, i).value.opcode && r.extra == CodeAt(p, i).value.extra && r.ty == TypeOf(p[i].body.m)
    requires r.opcode != NOCODE && r.dataidx == 0
    ensures RecBytes(r, Blocks(p, |p|)) == LineBytes(p, i)
  {
    hide Encode, TypeOf, Address, Blocks, Bytes, CodeAt, LineFits;
  }

  lemma OtherBytes(p: Program, i: nat, r: Rec)
    requires Assembles(p) && i < |p| && !(p[i].Text? && p[i].body.Ins8?) && Blocks(p, i) <= Blocks(p, |p|)
    requires r.opcode == NOCODE && r.ty.DirWord? && r.size == Size(p[i])
    requires r.dataidx == if p[i].Text? && p[i].body.Data? then |Blocks(p, i)| + 1 else 0
    ensures r.dataidx <= |Blocks(p, |p|)| && RecBytes(r, Blocks(p, |p|)) == LineBytes(p, i)
    ensures r.dataidx > 0 ==> |Blocks(p, |p|)[r.dataidx - 1]| == r.size
  {
    hide TypeOf, Address, Bytes, Assembles;
    if r.dataidx > 0 { BlocksGrow(p, i + 1, |p|); }
  }

  lemma CodeIsNotEmpty(p: Program, i: nat)
    requires Assembles(p) && i < |p| && p[i].Text? && p[i].body.Ins8?
    ensures CodeAt(p, i).Some? && CodeAt(p, i).value.opcode != NOCODE
  {
    hide Encode, Means, Select, Fields, Is32, Realizes;
    assert LineFits(p, i);
    EncodeAgrees(p[i].body.m, p[i].body.arg, Equates(p, i), Table(p), Address(p, i));
  }

  lemma {:induction false} PutBytesAppend(file: seq<byte>, pos: nat, a: seq<byte>, b: seq<byte>)
    ensures PutBytes(file, pos, a + b) == PutBytes(PutBytes(file, pos, a), pos + |a|, b)
    decreases |a|
  {
    if a == [] {
      assert a + b == b;
    } else {
      assert (a + b)[1..] == a[1..] + b;
      PutBytesAppend(PutByte(file, pos, a[0]), pos + 1, a[1..], b);
    }
  }

  /** The nested loops of write_asm: seek to the line, then data bytes, opcode and second word. */
  method WriteAsm(lines: array<Rec>, dp: seq<Block>, ghost p: Program) returns (file: seq<byte>)
    requires Assembles(p) && lines.Length == |p| && dp == Blocks(p, |p|)
    requires forall i :: 0 <= i < |p| ==> Final(p, i) == Some(lines[i])
    ensures file == FileOf(p, |p|)
  {
    hide Final, LineBytes, Assembles, Address, Blocks;
    file := HEADER;
    var j := 0;
    while j < lines.Length
      invariant j <= |p| && file == FileOf(p, j)
    {
      NothingDropped(p, j);
      file := WriteLine(file, lines[j], dp);
      j := j + 1;
    }
  }

  /** The data bytes of a line, one by one. */
  method WriteBlock(before: seq<byte>, pos: nat, block: Block, size: word) returns (file: seq<byte>)
    requires size == |block|
    ensures file == PutBytes(before, pos, block)
  {
    file := before;
    var k := 0;
    while k < size
      invariant k <= |block| && file == PutBytes(before, pos, block[..k])
    {
      file := PutByte(file, pos + k, block[k]);
      PutBytesAppend(before, pos, block[..k], [block[k]]);
      assert block[..k + 1] == block[..k] + [block[k]];
      k := k + 1;
    }
    assert block[..k] == block;
  }

  method WriteLine(before: seq<byte>, r: Rec, dp: seq<Block>) returns (file: seq<byte>)
    requires r.dataidx <= |dp| && (r.dataidx > 0 ==> |dp[r.dataidx - 1]| == r.size)
    ensures file == PutBytes(before, r.address + 8, RecBytes(r, dp))
  {
    hide Bytes, Trunc8, High, PutBytes, IsWide;
    var start := r.address + 8;
    var data := if r.dataidx > 0 then dp[r.dataidx - 1] else [];
    var code := if r.opcode != NOCODE then Bytes(r.opcode) else [];
    var second := if IsWide(r.ty) then [Trunc8(r.extra), High(r.extra)] else [];
    file := before;
    Nothing(before, start);
    if r.dataidx > 0 { file := WriteBlock(file, start, data, r.size); }
    Nothing(file, start + |data|);
    if r.opcode != NOCODE { file := PutBytes(file, start + |data|, code); }
    PutBytesAppend(before, start, data, code);
    Nothing(file, start + |data + code|);
    if IsWide(r.ty) { file := PutBytes(file, start + |data + code|, second); }
    PutBytesAppend(before, start, data + code, second);
  }

  lemma Nothing(file: seq<byte>, pos: nat)
    ensures PutBytes(file, pos, []) == file
  {
  }

  // ----- load -----

  const SCREEN: word := 0xc000
  const SCREEN_END: word := 0xd800

  predicate HasHeader(file: seq<byte>) { |file| >= 8 && file[..5] == HEADER[..5] }

  function Zeroed(m: Mem): Mem { m[..SCREEN] + seq(SCREEN_END - SCREEN, _ => 0) + m[SCREEN_END..] }

  /**
   The memory after load, over what malloc left in it. The bytes after the header are copied; the
   screen is cleared afterwards, unless the header is wrong or the file has more than 65535 bytes.
   */
  function Loaded(file: seq<byte>, junk: Mem): Mem {
    if !HasHeader(file) then junk
    else
      var body := file[8..];
      if |body| > 0xffff then body[..0x1_0000]
      else Zeroed(body + junk[|body|..])
  }

  /** false if the file is refused; memory is used all the same. */
  method Load(file: seq<byte>, prog: array<byte>) returns (ok: bool)
    requires prog.Length == 0x1_0000
    modifies prog
    ensures prog[..] == Loaded(file, old(prog[..]))
    ensures ok <==> HasHeader(file) && |file| - 8 <= 0xffff
  {
    if |file| < 8 || file[0] != 0x62 || file[1] != 0x61 || file[2] != 0x73 || file[3] != 0x6d || file[4] != 0 {
      return false;
    }
    assert file[..5] == HEADER[..5];
    ok := CopyBody(file[8..], prog);
    if !ok { return; }
    ClearScreen(prog);
  }

  /** The read loop: it gives up after the byte at 0xffff. */
  method CopyBody(body: seq<byte>, prog: array<byte>) returns (ok: bool)
    requires prog.Length == 0x1_0000
    modifies prog
    ensures ok <==> |body| <= 0xffff
    ensures prog[..] == if ok then body + old(prog[..])[|body|..] else body[..0x1_0000]
  {
    var i := 0;
    while i < |body|
      invariant i <= |body| && i <= 0xffff
      invariant forall k :: 0 <= k < 0x1_0000 ==> prog[k] == if k < i then body[k] else old(prog[k])
    {
      prog[i] := body[i];
      i := i + 1;
      if i > 0xffff { return false; }
    }
    ok := true;
  }

  method ClearScreen(prog: array<byte>)
    requires prog.Length == 0x1_0000
    modifies prog
    ensures prog[..] == Zeroed(old(prog[..]))
  {
    var i := SCREEN;
    while i < SCREEN_END
      invariant SCREEN <= i <= SCREEN_END
      invariant forall k :: 0 <= k < 0x1_0000 ==> prog[k] == if SCREEN <= k < i then 0 else old(prog[k])
    {
      prog[i] := 0;
      i := i + 1;
    }
  }

  // ----- reading back -----

  predicate Contains(m: Mem, a: nat, bytes: seq<byte>) {
    a + |bytes| <= 0x1_0000 && m[a..a + |bytes|] == bytes
  }

  /** The bytes of a line stand in memory. */
  predicate InMemory(p: Program, i: nat, m: Mem)
    requires Assembles(p) && i < |p|
  {
    Contains(m, Address(p, i), LineBytes(p, i))
  }

  /** The line lies within the memory and outside the screen. */
  predicate OffScreen(p: Program, i: nat)
    requires i < |p|
  {
    Address(p, i) + Size(p[i]) <= SCREEN || (SCREEN_END <= Address(p, i) && Address(p, i) + Size(p[i]) <= 0x1_0000)
  }

  /** Every line outside the screen reads back its opcode, second word or data from the loaded image. */
  lemma ReadBack(p: Program, i: nat, junk: Mem)
    requires Assembles(p) && i < |p| && LastThere(p, i) && OffScreen(p, i)
    ensures InMemory(p, i, Loaded(FileOf(p, |p|), junk))
  {
    hide LineBytes, FileOf, Assembles;
    var file := FileOf(p, |p|);
    LineSurvives(p, i, |p|);
    HeaderSurvives(p, |p|);
    LineLength(p, i);
    assert file[..5] == file[..8][..5];
    var m, a, bytes := Loaded(file, junk), Address(p, i), LineBytes(p, i);
    forall k | 0 <= k < |bytes| ensures m[a + k] == bytes[k] {
      assert file[a + 8 + k] == bytes[k];
    }
    assert m[a..a + |bytes|] == bytes;
  }

  /** The bytes of a line that load puts into the screen are zero already. */
  predicate BlankOnScreen(p: Program, i: nat)
    requires Assembles(p) && i < |p|
  {
    forall k :: 0 <= k < |LineBytes(p, i)| && SCREEN <= Address(p, i) + k < SCREEN_END ==> LineBytes(p, i)[k] == 0
  }

  /**
   load clears the screen after reading the file. A line reads back exactly if it has only zeros there,
   or if the file is too large, because then load gives up before it clears.
   */
  lemma ReadBackExactly(p: Program, i: nat, junk: Mem)
    requires Assembles(p) && i < |p| && LastThere(p, i) && Address(p, i) + Size(p[i]) <= 0x1_0000
    ensures InMemory(p, i, Loaded(FileOf(p, |p|), junk))
            <==> |FileOf(p, |p|)| - 8 > 0xffff || BlankOnScreen(p, i)
  {
    hide LineBytes, FileOf, Assembles, Address, Size;
    var file := FileOf(p, |p|);
    LineSurvives(p, i, |p|);
    HeaderSurvives(p, |p|);
    LineLength(p, i);
    LoadedCells(file, junk, LineBytes(p, i), Address(p, i));
  }

  lemma LoadedCells(file: seq<byte>, junk: Mem, bytes: seq<byte>, a: nat)
    requires a + |bytes| <= 0x1_0000 && |file| >= 8 && file[..8] == HEADER
    requires bytes != [] ==> a + 8 + |bytes| <= |file|
    requires forall k :: 0 <= k < |bytes| ==> file[a + 8 + k] == bytes[k]
    ensures Contains(Loaded(file, junk), a, bytes)
            <==> |file| - 8 > 0xffff || forall k :: 0 <= k < |bytes| && SCREEN <= a + k < SCREEN_END ==> bytes[k] == 0
  {
    assert file[..5] == file[..8][..5];
    var m := Loaded(file, junk);
    var here := m[a..a + |bytes|];
    forall k | 0 <= k < |bytes|
      ensures here[k] == if |file| - 8 <= 0xffff && SCREEN <= a + k < SCREEN_END then 0 else bytes[k]
    {
      assert here[k] == m[a + k] && file[a + 8 + k] == bytes[k] && file[8..][a + k] == file[a + 8 + k];
      LoadedCell(file, junk, a + k);
    }
    if |file| - 8 > 0xffff || forall k :: 0 <= k < |bytes| && SCREEN <= a + k < SCREEN_END ==> bytes[k] == 0 {
      assert here == bytes;
    }
  }

  lemma LoadedCell(file: seq<byte>, junk: Mem, x: word)
    requires HasHeader(file) && x < |file| - 8
    ensures Loaded(file, junk)[x] == if |file| - 8 <= 0xffff && SCREEN <= x < SCREEN_END then 0 else file[8..][x]
  {
  }

  /** A line in the screen that is lost: one byte of data behind .org 0xc000. */
  lemma ScreenLosesData(p: Program, junk: Mem)
    requires p == [Org(SCREEN), Text(None, Data([1]))]
    ensures Assembles(p) && LastThere(p, 1) && !InMemory(p, 1, Loaded(FileOf(p, 2), junk))
  {
    assert Address(p, 0) == SCREEN && Address(p, 1) == SCREEN;
    assert Assembles(p) && LastThere(p, 1);
    assert LineBytes(p, 0) == [] && LineBytes(p, 1) == [1];
    assert FileOf(p, 1) == HEADER;
    SmallFile(HEADER, SCREEN + 8, [1]);
    hide LineBytes, FileOf, Address, Size, Assembles;
    ReadBackExactly(p, 1, junk);
    assert LineBytes(p, 1)[0] == 1;
  }

  lemma SmallFile(file: seq<byte>, pos: nat, bytes: seq<byte>)
    requires |file| <= pos && |bytes| == 1
    ensures |PutBytes(file, pos, bytes)| == pos + 1
  {
    assert PutBytes(PutByte(file, pos, bytes[0]), pos + 1, bytes[1..]) == PutByte(file, pos, bytes[0]);
  }

  /** A .org sets the address of its line except for 0, which is taken for no .org at all. */
  lemma OrgHonoured(p: Program, i: nat)
    requires i < |p| && p[i].Org?
    ensures Address(p, i) == p[i].a <==> p[i].a != 0 || i == 0 || (Address(p, i - 1) == 0 && Size(p[i - 1]) == 0)
  {
  }

  lemma OrgZeroIgnored(p: Program)
    requires p == [Text(None, Data([1])), Org(0)]
    ensures Address(p, 1) == 1
  {
    assert Address(p, 0) == 0 && Size(p[0]) == 1;
  }
}
