/** The two passes of the assembler over the lines of a source. */
module Assembler {
  import opened Words
  import opened Isa
  import opened Symbols
  import opened Parser
  import opened Source
  import opened Encoder
  import opened Operand

  type Program = seq<Line>

  // ----- the specification, line by line -----

  predicate IsWide(ty: OpType) { ty.Dir32? || ty.LdDir? || ty.StrDir? }

  /** The bytes that a line takes. */
  function Size(l: Line): word {
    hide TypeOf;
    if !l.Text? then 0
    else
      match l.body
      case Blank => 0
      case Data(bytes) => |bytes|
      case Ins8(m, _) => if IsWide(TypeOf(m)) then 4 else 2
  }

  /** A .org 0 has no effect: the address 0 marks a line without .org. */
  predicate SetsAddress(l: Line) { l.Org? && l.a != 0 }

  function Address(p: Program, i: nat): nat
    requires i < |p|
  {
    if SetsAddress(p[i]) then p[i].a
    else if i == 0 then 0
    else Address(p, i - 1) + Size(p[i - 1])
  }

  /** The .equ entries of the lines before i: the table in which the first pass evaluates bits. */
  function Equates(p: Program, i: nat): seq<Equate>
    requires i <= |p|
  {
    if i == 0 then [] else Equates(p, i - 1) + (if p[i - 1].Equ? then [Equate(p[i - 1].key, p[i - 1].value)] else [])
  }

  function Labels(p: Program, i: nat): seq<Equate>
    requires i <= |p|
    requires forall j :: 0 <= j < i ==> Address(p, j) <= 0xffff
  {
    if i == 0 then []
    else Labels(p, i - 1)
         + (if p[i - 1].Text? && p[i - 1].name.Some? then [Equate(p[i - 1].name.value, Address(p, i - 1))] else [])
  }

  predicate AddressesFit(p: Program) { forall j :: 0 <= j < |p| ==> Address(p, j) <= 0xffff }

  /** The complete table: all .equ entries and then all labels, in the order of the lines. */
  function Table(p: Program): seq<Equate>
    requires AddressesFit(p)
  {
    Equates(p, |p|) + Labels(p, |p|)
  }

  /** The words of the instruction on line i. */
  function CodeAt(p: Program, i: nat): Option<Coded>
    requires AddressesFit(p) && i < |p| && p[i].Text? && p[i].body.Ins8?
  {
    Encode(p[i].body.m, p[i].body.arg, Equates(p, i), Table(p), Address(p, i))
  }

  predicate LineFits(p: Program, i: nat)
    requires AddressesFit(p) && i < |p|
  {
    p[i].Text? && p[i].body.Ins8? ==> CodeAt(p, i).Some?
  }

  /** The assembler accepts the source. */
  predicate Assembles(p: Program) { AddressesFit(p) && forall i :: 0 <= i < |p| ==> LineFits(p, i) }

  // ----- the line records -----

  /** What the passes keep of a line; dataidx counts the data blocks from 1. */
  datatype Rec = Rec(name: Option<string>, size: word, ty: OpType, opcode: bv16, extra: word,
                     address: word, dataidx: nat, patch: Patch, e: seq<Token>)

  const EMPTY: Rec := Rec(None, 0, DirWord, NOCODE, 0, 0, 0, NoPatch, [])

  /** parse: the record of a line after the first pass, with the address of a .org or 0. */
  function Recorded(l: Line, equates: seq<Equate>, blocks: nat): Option<Rec> {
    hide TypeOf, GetOperand;
    match l
    case Org(a) => Some(EMPTY.(address := a))
    case Equ(_, _) => Some(EMPTY)
    case Text(name, Blank) => Some(EMPTY.(name := name))
    case Text(name, Data(bytes)) => Some(EMPTY.(name := name, size := |bytes|, dataidx := blocks + 1))
    case Text(name, Ins8(m, arg)) =>
      match GetOperand(m, arg, equates)
      case None => None
      case Some(c) => Some(Rec(name, c.size, TypeOf(m), c.opcode, c.extra, 0, 0, c.patch, c.e))
  }

  /** The data blocks of the lines before i. */
  function Blocks(p: Program, i: nat): seq<Block>
    requires i <= |p|
  {
    if i == 0 then []
    else Blocks(p, i - 1) + (if p[i - 1].Text? && p[i - 1].body.Data? then [p[i - 1].body.bytes] else [])
  }

  /** The record after the first pass, with its address. */
  function Placed(p: Program, i: nat): Option<Rec>
    requires i < |p|
  {
    hide Recorded;
    match Recorded(p[i], Equates(p, i), |Blocks(p, i)|)
    case None => None
    case Some(r) => if Address(p, i) <= 0xffff then Some(r.(address := Address(p, i))) else None
  }

  /** The second pass on one record. */
  function Patched(r: Rec, table: seq<Equate>): Option<Rec> {
    hide Meaning, ApplyPatch;
    if r.patch.NoPatch? then Some(r)
    else
      match Meaning(r.e, table)
      case Known(w) =>
        (match ApplyPatch(Coded(r.opcode, r.size, r.extra, r.patch, r.e), w, r.address)
         case None => None
         case Some(c) => Some(r.(opcode := c.opcode, extra := c.extra)))
      case _ => None
  }

  function Final(p: Program, i: nat): Option<Rec>
    requires AddressesFit(p) && i < |p|
  {
    hide Patched;
    match Placed(p, i)
    case None => None
    case Some(r) => Patched(r, Table(p))
  }

  // ----- the passes as they run -----

  /** What a failed pass leaves is not used. */
  class Compiler {
    var equates: seq<Equate>
    var dp: seq<Block>
    const lines: array<Rec>

    constructor (count: nat)
      ensures equates == [] && dp == [] && fresh(lines) && lines.Length == count
    {
      equates, dp := [], [];
      lines := new Rec[count](_ => EMPTY);
    }

    /** put_equate */
    method PutEquate(key: string, value: word)
      modifies this`equates
      ensures equates == old(equates) + [Equate(key, value)]
    {
      equates := equates + [Equate(key, value)];
    }

    /** parse, with what it does to the tables. */
    method ParseLine(p: Program, i: nat) returns (ok: bool)
      requires i < |p| && lines.Length == |p| && equates == Equates(p, i) && dp == Blocks(p, i)
      modifies this, lines
      ensures ok == Recorded(p[i], Equates(p, i), |Blocks(p, i)|).Some?
      ensures ok ==> lines[i] == Recorded(p[i], Equates(p, i), |Blocks(p, i)|).value
      ensures ok ==> equates == Equates(p, i + 1) && dp == Blocks(p, i + 1)
      ensures forall j :: 0 <= j < |p| && j != i ==> lines[j] == old(lines[j])
    {
      hide TypeOf, CodeOf, GetOperand;
      match p[i] {
        case Org(a) => lines[i] := EMPTY.(address := a);
        case Equ(key, value) =>
          lines[i] := EMPTY;
          PutEquate(key, value);
        case Text(name, Blank) => lines[i] := EMPTY.(name := name);
        case Text(name, Data(bytes)) =>
          lines[i] := EMPTY.(name := name, size := |bytes|, dataidx := |dp| + 1);
          dp := dp + [bytes];
        case Text(name, Ins8(m, arg)) =>
          var l := new LineRecord(m);
          ok := l.GetOperand(m, arg, equates);
          if !ok { return; }
          lines[i] := Rec(name, l.size, l.ty, l.opcode, l.extra, 0, 0, l.patch, l.e);
      }
      ok := true;
    }

    method Pass1(p: Program) returns (ok: bool)
      requires lines.Length == |p| && equates == [] && dp == []
      modifies this, lines
      ensures ok == forall i :: 0 <= i < |p| ==> Placed(p, i).Some?
      ensures ok ==> equates == Equates(p, |p|) && dp == Blocks(p, |p|)
      ensures ok ==> forall i :: 0 <= i < |p| ==> Placed(p, i) == Some(lines[i])
    {
      hide Recorded;
      var i := 0;
      while i < |p|
        invariant i <= |p| && equates == Equates(p, i) && dp == Blocks(p, i)
        invariant forall j :: 0 <= j < i ==> Placed(p, j) == Some(lines[j])
      {
        RecordedHeader(p, i);
        ok := ParseLine(p, i);
        if !ok {
          assert Placed(p, i) == None;
          return;
        }
        if i > 0 && lines[i].address == 0 {
          RecordedHeader(p, i - 1);
          var check: int := lines[i - 1].address as int + lines[i - 1].size as int;
          if check > 0xffff {
            assert Placed(p, i) == None;
            return false;
          }
          lines[i] := lines[i].(address := check);
        }
        i := i + 1;
      }
      ok := true;
    }

    /** Label addresses go behind the entries of the first pass. */
    method CollectLabels(p: Program)
      requires lines.Length == |p| && equates == Equates(p, |p|) && AddressesFit(p)
      requires forall i :: 0 <= i < |p| ==> Placed(p, i) == Some(lines[i])
      modifies this`equates
      ensures equates == Table(p)
    {
      var k := 0;
      while k < |p|
        invariant k <= |p| && equates == Equates(p, |p|) + Labels(p, k)
      {
        PlacedName(p, k);
        if lines[k].name.Some? { PutEquate(lines[k].name.value, lines[k].address); }
        k := k + 1;
      }
    }

    method Pass2(p: Program) returns (ok: bool)
      requires lines.Length == |p| && equates == Equates(p, |p|) && AddressesFit(p)
      requires forall i :: 0 <= i < |p| ==> Placed(p, i) == Some(lines[i])
      modifies this`equates, lines
      ensures ok == forall i :: 0 <= i < |p| ==> Final(p, i).Some?
      ensures ok ==> forall i :: 0 <= i < |p| ==> Final(p, i) == Some(lines[i])
    {
      hide Placed, Patched;
      CollectLabels(p);
      var j := 0;
      while j < |p|
        invariant j <= |p| && equates == Table(p)
        invariant forall i :: 0 <= i < j ==> Final(p, i) == Some(lines[i])
        invariant forall i :: j <= i < |p| ==> Placed(p, i) == Some(lines[i])
      {
        var r := PatchLine(lines[j], equates);
        assert Final(p, j) == r;
        if r == None { return false; }
        lines[j] := r.value;
        j := j + 1;
      }
      ok := true;
    }

    /** get_expr on the expression of the line, and the branch for the kind of its patch. */
    method PatchLine(r: Rec, table: seq<Equate>) returns (done: Option<Rec>)
      ensures done == Patched(r, table)
    {
      hide Meaning, ApplyPatch;
      if r.patch.NoPatch? { return Some(r); }
      var v := GetExpr(r.e, table);
      if !v.Known? { return None; }
      var c := ApplyPatch(Coded(r.opcode, r.size, r.extra, r.patch, r.e), v.w, r.address);
      if c == None { return None; }
      done := Some(r.(opcode := c.value.opcode, extra := c.value.extra));
    }

    /** compile, up to the writing of its result. */
    method Compile(p: Program) returns (ok: bool)
      requires lines.Length == |p| && equates == [] && dp == []
      modifies this, lines
      ensures ok == Assembles(p)
      ensures ok ==> dp == Blocks(p, |p|) && forall i :: 0 <= i < |p| ==> Final(p, i) == Some(lines[i])
    {
      hide Placed, Final, LineFits, Address;
      ok := Pass1(p);
      PlacedMeansFits(p);
      if !ok { return; }
      FinalIsCode(p);
      ok := Pass2(p);
    }
  }

  // ----- the records and the specification -----

  /** The size and the address that parse puts into a record. */
  lemma RecordedHeader(p: Program, i: nat)
    requires i < |p|
    ensures var r := Recorded(p[i], Equates(p, i), |Blocks(p, i)|);
            r.Some? ==> r.value.size == Size(p[i]) && r.value.address == (if SetsAddress(p[i]) then p[i].a else 0)
    ensures Placed(p, i).Some? ==> Placed(p, i).value.size == Size(p[i]) && Address(p, i) <= 0xffff
  {
    hide GetOperand, TypeOf;
    if p[i].Text? && p[i].body.Ins8? { CodedSize(p[i].body.m, p[i].body.arg, Equates(p, i)); }
  }

  lemma PlacedName(p: Program, i: nat)
    requires i < |p| && Placed(p, i).Some?
    ensures Placed(p, i).value.name == (if p[i].Text? then p[i].name else None)
    ensures Placed(p, i).value.address == Address(p, i)
  {
    hide GetOperand, TypeOf;
  }

  lemma CodedSize(m: Mnemonic, arg: Arg, table: seq<Equate>)
    ensures GetOperand(m, arg, table).Some? ==>
              GetOperand(m, arg, table).value.size == if IsWide(TypeOf(m)) then 4 else 2
  {
    hide TypeOf, CodeOf, Merge, Field4, BitValue, ModeField, Nibble;
  }

  /** Every line of an accepted source parses, and the addresses of a source that parses fit. */
  lemma PlacedMeansFits(p: Program)
    ensures (forall i :: 0 <= i < |p| ==> Placed(p, i).Some?) ==> AddressesFit(p)
    ensures Assembles(p) ==> forall i :: 0 <= i < |p| ==> Placed(p, i).Some?
  {
    if forall i :: 0 <= i < |p| ==> Placed(p, i).Some? {
      forall j | 0 <= j < |p| ensures Address(p, j) <= 0xffff {
        assert Placed(p, j).Some?;
        RecordedHeader(p, j);
      }
    }
    if Assembles(p) {
      forall i | 0 <= i < |p| ensures Placed(p, i).Some? {
        assert LineFits(p, i);
        FinalIsCodeAt(p, i);
      }
    }
  }

  /** The record of a line after both passes: the words of its instruction, or its data. */
  lemma FinalIsCodeAt(p: Program, i: nat)
    requires AddressesFit(p) && i < |p|
    ensures Final(p, i).Some? == LineFits(p, i)
    ensures Final(p, i).Some? ==>
              var r := Final(p, i).value;
              && Placed(p, i).Some? && r.address == Address(p, i) && r.size == Size(p[i])
              && (if p[i].Text? && p[i].body.Ins8? then
                    var c := CodeAt(p, i).value;
                    r.opcode == c.opcode && r.extra == c.extra && r.ty == TypeOf(p[i].body.m) && r.dataidx == 0
                  else
                    r.opcode == NOCODE && r.ty.DirWord?
                    && r.dataidx == if p[i].Text? && p[i].body.Data? then |Blocks(p, i)| + 1 else 0)
  {
    hide GetOperand, TypeOf, Meaning, ApplyPatch, Address, Table, Equates, Blocks;
    RecordedHeader(p, i);
  }

  lemma FinalIsCode(p: Program)
    requires AddressesFit(p)
    ensures (forall i :: 0 <= i < |p| ==> Final(p, i).Some?) == Assembles(p)
  {
    hide Final, LineFits;
    forall i | 0 <= i < |p| ensures Final(p, i).Some? == LineFits(p, i) { FinalIsCodeAt(p, i); }
  }
}
