/** The code generator: register access modes become the statements of C handlers. The generated file
    is a syntax tree whose case labels are register offsets; text layout is left out. */
module Renderer {
  import opened Common
  import opened RegIr
  import opened FieldMasks
  import opened Sorting

  // ----- The generated file

  datatype FieldMacro = FieldMacro(name: string, shift: int, mask: nat)

  datatype Macro = Macro(name: string, offset: nat, width: int, access: Access, fields: seq<FieldMacro>)

  datatype Member = Member(name: string, width: int)

  datatype ReadBody = ReturnZero | ReturnMember(name: string)

  /** `Store(f, w)` is s->f = (uintw_t)value and `ClearOnes(f, w)` is s->f &= ~(uintw_t)value. */
  datatype WriteBody = Ignore | Store(name: string, width: int) | ClearOnes(name: string, width: int)

  datatype ReadCase = ReadCase(address: nat, body: ReadBody)

  datatype WriteCase = WriteCase(address: nat, body: WriteBody, todo: bool)

  datatype ResetLine = ResetLine(name: string, value: nat, documented: bool)

  datatype Source = Source(
    device: string, bus: Bus, mmioSize: nat,
    macros: seq<Macro>, members: seq<Member>, irqs: seq<string>,
    readCases: seq<ReadCase>, writeCases: seq<WriteCase>, widest: int,
    resets: seq<ResetLine>, nothingDocumented: bool, migrated: seq<Member>, notes: seq<string>)

  // ----- Naming

  const C_KEYWORDS: set<string> := {
    "auto", "break", "case", "char", "const", "continue", "default", "do", "double", "else", "enum", "extern",
    "float", "for", "goto", "if", "inline", "int", "long", "register", "restrict", "return", "short", "signed",
    "sizeof", "static", "struct", "switch", "typedef", "union", "unsigned", "void", "volatile", "while" }

  predicate IsKeyword(s: string) {
    s in C_KEYWORDS
  }

  const ESCAPE := "reg_"

  /** The struct member of a register: its lower-case name, escaped when that is a C keyword. */
  function MemberName(name: string): string {
    if IsKeyword(ToLower(name)) then ESCAPE + ToLower(name) else ToLower(name)
  }

  function MemberOf(r: Register): string {
    MemberName(r.name)
  }

  function IrqMemberOf(q: Irq): string {
    ToLower(q.name)
  }

  predicate MembersDiffer(registers: seq<Register>) {
    forall i, j | 0 <= i < j < |registers| :: MemberOf(registers[i]) != MemberOf(registers[j])
  }

  // ----- One register at a time

  function FieldMacroOf(f: Field): FieldMacro
    requires f.width >= 0 && f.bit >= 0
  {
    FieldMacro(ToUpper(f.name), f.bit, FieldMask(f))
  }

  function MacroOf(r: Register): Macro
    requires forall f | f in r.fields :: f.width >= 0 && f.bit >= 0
  {
    Macro(ToUpper(r.name), r.offset, r.width, r.access,
          seq(|r.fields|, i requires 0 <= i < |r.fields| => FieldMacroOf(r.fields[i])))
  }

  function StructMemberOf(r: Register): Member {
    Member(MemberOf(r), r.width)
  }

  function ReadCaseOf(r: Register): ReadCase {
    ReadCase(r.offset, if r.access.WO? || r.access.Rsvd? then ReturnZero else ReturnMember(MemberOf(r)))
  }

  function WriteCaseOf(r: Register): WriteCase {
    if r.access.RO? || r.access.Rsvd? then WriteCase(r.offset, Ignore, false)
    else
      WriteCase(r.offset,
                if r.access.W1C? then ClearOnes(MemberOf(r), r.width) else Store(MemberOf(r), r.width),
                TrimSpace(r.effect) != "")
  }

  function ResetLineOf(r: Register): ResetLine {
    match r.reset
    case Some(v) => ResetLine(MemberOf(r), v, true)
    case None => ResetLine(MemberOf(r), 0, false)
  }

  /** The size of the widest access: at least one byte. */
  predicate IsWidest(registers: seq<Register>, widest: int) {
    && widest >= 1
    && (forall r | r in registers :: SizeOf(r) <= widest)
    && (widest == 1 || exists r :: r in registers && SizeOf(r) == widest)
  }

  // ----- The whole file

  predicate NoHigher(a: Register, b: Register) {
    a.offset <= b.offset
  }

  /** Some rearrangement in address order; the sort is not stable. */
  ghost predicate IsAddressOrder(sorted: seq<Register>, registers: seq<Register>) {
    IsSorting(sorted, registers, NoHigher)
  }

  predicate FieldsNonNegative(registers: seq<Register>) {
    forall r | r in registers :: forall f | f in r.fields :: f.width >= 0 && f.bit >= 0
  }

  /** The file is the one generated from the registers in that order. */
  predicate IsSourceOf(src: Source, ir: Ir, sorted: seq<Register>)
    requires FieldsNonNegative(sorted)
  {
    && src.device == ToLower(ir.device) && src.bus == ir.bus && src.mmioSize == ir.mmioSize
    && |src.macros| == |sorted| && (forall i | 0 <= i < |sorted| :: src.macros[i] == MacroAt(sorted, i))
    && src.members == Map(StructMemberOf, sorted)
    && src.irqs == Map(IrqMemberOf, ir.interrupts)
    && src.readCases == Map(ReadCaseOf, sorted)
    && src.writeCases == Map(WriteCaseOf, sorted)
    && IsWidest(ir.registers, src.widest)
    && src.resets == Map(ResetLineOf, sorted)
    && src.nothingDocumented == (forall r | r in sorted :: r.reset.None?)
    && src.migrated == Map(StructMemberOf, sorted)
    && src.notes == ir.notes
  }

  function MacroAt(registers: seq<Register>, i: nat): Macro
    requires i < |registers| && FieldsNonNegative(registers)
  {
    assert registers[i] in registers;
    MacroOf(registers[i])
  }

  lemma LegalFieldsNonNegative(registers: seq<Register>, mmioSize: int)
    requires forall r | r in registers :: LegalRegister(r, mmioSize)
    ensures FieldsNonNegative(registers)
  {
  }

  // ----- The generator

  method WriteRegisterMacros(registers: seq<Register>) returns (out: seq<Macro>)
    requires FieldsNonNegative(registers)
    ensures |out| == |registers| && forall i | 0 <= i < |registers| :: out[i] == MacroAt(registers, i)
  {
    out := [];
    for i := 0 to |registers|
      invariant |out| == i && forall k | 0 <= k < i :: out[k] == MacroAt(registers, k)
    {
      var r := registers[i];
      assert r in registers;
      var fields: seq<FieldMacro> := [];
      for j := 0 to |r.fields|
        invariant |fields| == j && forall k | 0 <= k < j :: fields[k] == FieldMacroOf(r.fields[k])
      {
        fields := fields + [FieldMacroOf(r.fields[j])];
      }
      out := out + [Macro(ToUpper(r.name), r.offset, r.width, r.access, fields)];
    }
  }

  method WriteAccessors(registers: seq<Register>) returns (readCases: seq<ReadCase>, writeCases: seq<WriteCase>)
    ensures readCases == Map(ReadCaseOf, registers) && writeCases == Map(WriteCaseOf, registers)
  {
    hide MemberOf;
    readCases, writeCases := [], [];
    for i := 0 to |registers|
      invariant readCases == Map(ReadCaseOf, registers[..i])
    {
      MapNext(ReadCaseOf, registers, i);
      var r := registers[i];
      match r.access {
        case WO => readCases := readCases + [ReadCase(r.offset, ReturnZero)];
        case Rsvd => readCases := readCases + [ReadCase(r.offset, ReturnZero)];
        case _ => readCases := readCases + [ReadCase(r.offset, ReturnMember(MemberOf(r)))];
      }
    }
    for i := 0 to |registers|
      invariant writeCases == Map(WriteCaseOf, registers[..i])
    {
      MapNext(WriteCaseOf, registers, i);
      var body, todo := WriteRegisterWrite(registers[i]);
      writeCases := writeCases + [WriteCase(registers[i].offset, body, todo)];
    }
    assert registers[..|registers|] == registers;
  }

  method WriteRegisterWrite(r: Register) returns (body: WriteBody, todo: bool)
    ensures WriteCase(r.offset, body, todo) == WriteCaseOf(r)
  {
    var member := MemberOf(r);
    match r.access {
      case RO => return Ignore, false;
      case Rsvd => return Ignore, false;
      case W1C => body := ClearOnes(member, r.width);
      case _ => body := Store(member, r.width);
    }
    todo := TrimSpace(r.effect) != "";
  }

  method WriteMemoryOps(registers: seq<Register>) returns (widest: int)
    ensures IsWidest(registers, widest)
  {
    widest := 1;
    for i := 0 to |registers|
      invariant IsWidest(registers[..i], widest)
    {
      assert registers[..i + 1] == registers[..i] + [registers[i]];
      assert registers[i] in registers[..i + 1];
      if SizeOf(registers[i]) > widest {
        widest := SizeOf(registers[i]);
      }
    }
    assert registers[..|registers|] == registers;
  }

  method WriteReset(registers: seq<Register>) returns (out: seq<ResetLine>, nothingDocumented: bool)
    ensures out == Map(ResetLineOf, registers)
    ensures nothingDocumented == forall r | r in registers :: r.reset.None?
  {
    hide MemberOf;
    out := [];
    var documented := 0;
    for i := 0 to |registers|
      invariant out == Map(ResetLineOf, registers[..i])
      invariant 0 <= documented
      invariant documented == 0 <==> forall r | r in registers[..i] :: r.reset.None?
    {
      MapNext(ResetLineOf, registers, i);
      assert registers[..i + 1] == registers[..i] + [registers[i]];
      var r := registers[i];
      if r.reset.Some? {
        assert r in registers[..i + 1];
        out := out + [ResetLine(MemberOf(r), r.reset.value, true)];
        documented := documented + 1;
      } else {
        out := out + [ResetLine(MemberOf(r), 0, false)];
      }
    }
    assert registers[..|registers|] == registers;
    nothingDocumented := documented == 0;
  }

  method WriteMembers(registers: seq<Register>) returns (out: seq<Member>)
    ensures out == Map(StructMemberOf, registers)
  {
    hide MemberOf;
    out := [];
    for i := 0 to |registers|
      invariant out == Map(StructMemberOf, registers[..i])
    {
      MapNext(StructMemberOf, registers, i);
      out := out + [Member(MemberOf(registers[i]), registers[i].width)];
    }
    assert registers[..|registers|] == registers;
  }

  /** The file is generated from the registers in address order. */
  ghost predicate IsRendered(src: Source, ir: Ir) {
    exists sorted ::
      IsAddressOrder(sorted, ir.registers) && FieldsNonNegative(sorted) && IsSourceOf(src, ir, sorted)
  }

  /** Rendering a validated representation. */
  method Render(ir: Ir) returns (src: Source)
    requires Legal(ir)
    ensures IsRendered(src, ir)
  {
    hide Map, IsDevice, IsPow2, LegalRegister;
    var registers := Sort(ir.registers, NoHigher);
    SortingElements(registers, ir.registers, NoHigher);
    LegalFieldsNonNegative(registers, ir.mmioSize);
    var macros := WriteRegisterMacros(registers);
    var members := WriteMembers(registers);
    var readCases, writeCases := WriteAccessors(registers);
    var widest := WriteMemoryOps(ir.registers);
    var resets, nothingDocumented := WriteReset(registers);
    var migrated := WriteMembers(registers);
    src := Source(ToLower(ir.device), ir.bus, ir.mmioSize, macros, members,
                  Map(IrqMemberOf, ir.interrupts), readCases, writeCases, widest, resets,
                  nothingDocumented, migrated, ir.notes);
    assert IsAddressOrder(registers, ir.registers) && IsSourceOf(src, ir, registers);
  }

  // ----- Independence of the order in which the model listed the registers

  lemma LegalOffsetsDiffer(registers: seq<Register>, mmioSize: int)
    requires LegalMap(registers, mmioSize)
    ensures forall x, y | x in registers && y in registers && x.offset == y.offset :: x == y
  {
    hide LegalFields, ToUpper;
    forall i, j | 0 <= i < j < |registers| ensures registers[i].offset != registers[j].offset {
      assert registers[i] in registers && registers[j] in registers;
      assert LegalHead(registers[i], mmioSize) && LegalHead(registers[j], mmioSize);
      assert RegistersApart(registers[i], registers[j]);
    }
    forall x, y | x in registers && y in registers && x.offset == y.offset ensures x == y {
      var i :| 0 <= i < |registers| && registers[i] == x;
      var j :| 0 <= j < |registers| && registers[j] == y;
      assert i == j;
    }
  }

  lemma SameAddressOrder(ir: Ir, other: seq<Register>, sorted: seq<Register>, sorted': seq<Register>)
    requires Legal(ir) && multiset(other) == multiset(ir.registers)
    requires IsAddressOrder(sorted, ir.registers) && IsAddressOrder(sorted', other)
    ensures sorted == sorted' && forall r :: r in other <==> r in ir.registers
  {
    hide IsDevice, IsPow2, LegalRegister, ToLower;
    LegalOffsetsDiffer(ir.registers, ir.mmioSize);
    SortingElements(sorted, ir.registers, NoHigher);
    forall r ensures r in other <==> r in ir.registers {
      assert r in multiset(other) <==> r in multiset(ir.registers);
    }
    SortingUnique(sorted, sorted', NoHigher);
  }

  lemma SameWidest(registers: seq<Register>, other: seq<Register>, a: int, b: int)
    requires (forall r :: r in other <==> r in registers) && IsWidest(registers, a) && IsWidest(other, b)
    ensures a == b
  {
  }

  lemma SourceIsDetermined(ir: Ir, src: Source, src': Source, other: seq<Register>, sorted: seq<Register>)
    requires forall r :: r in other <==> r in ir.registers
    requires FieldsNonNegative(sorted) && IsSourceOf(src, ir, sorted)
    requires IsSourceOf(src', ir.(registers := other), sorted)
    ensures src == src'
  {
    hide ToLower, IsWidest, Map;
    SameWidest(ir.registers, other, src.widest, src'.widest);
    assert src.macros == src'.macros;
  }

  /** Two files rendered from the same registers, listed in any order, are identical. */
  lemma RenderingIgnoresOrder(ir: Ir, other: seq<Register>, src: Source, src': Source)
    requires Legal(ir) && multiset(other) == multiset(ir.registers)
    requires IsRendered(src, ir) && IsRendered(src', ir.(registers := other))
    ensures src == src'
  {
    hide Legal, IsAddressOrder, IsSourceOf;
    var sorted :| IsAddressOrder(sorted, ir.registers) && FieldsNonNegative(sorted) && IsSourceOf(src, ir, sorted);
    var sorted' :| IsAddressOrder(sorted', other) && FieldsNonNegative(sorted')
                   && IsSourceOf(src', ir.(registers := other), sorted');
    SameAddressOrder(ir, other, sorted, sorted');
    SourceIsDetermined(ir, src, src', other, sorted);
  }

  // ----- Member names

  /** The one way in which two registers of a legal map get the same member: one is named like a C
      keyword, the other like the escaped keyword. */
  predicate EscapeCollides(a: Register, b: Register) {
    IsKeyword(ToLower(a.name)) && !IsKeyword(ToLower(b.name)) && ToLower(b.name) == ESCAPE + ToLower(a.name)
  }

  lemma MembersDifferExactly(registers: seq<Register>, mmioSize: int)
    requires LegalMap(registers, mmioSize)
    ensures MembersDiffer(registers) <==>
            forall i, j | 0 <= i < |registers| && 0 <= j < |registers| && i != j ::
              !EscapeCollides(registers[i], registers[j])
  {
    hide IsKeyword, ToLower, ToUpper, LegalRegister;
    forall i, j | 0 <= i < j < |registers|
      ensures MemberOf(registers[i]) == MemberOf(registers[j]) <==>
              EscapeCollides(registers[i], registers[j]) || EscapeCollides(registers[j], registers[i])
    {
      MemberCollision(registers[i], registers[j]);
    }
  }

  lemma MemberCollision(a: Register, b: Register)
    requires ToUpper(a.name) != ToUpper(b.name)
    ensures MemberOf(a) == MemberOf(b) <==> EscapeCollides(a, b) || EscapeCollides(b, a)
  {
    hide IsKeyword, ToLower, ToUpper;
    FoldingAgrees(a.name, b.name);
    var x, y := ToLower(a.name), ToLower(b.name);
    assert (ESCAPE + x)[4..] == x && (ESCAPE + y)[4..] == y;
  }

  /** A plain 32-bit register. */
  function Plain(name: string, offset: U64): Register {
    Register(name, offset, 32, RW, None, [], "")
  }

  /** A device of two plain registers. */
  function TwoRegisters(a: string, b: string, irqs: seq<Irq>): Ir {
    Ir("uart", Sysbus, 8, [Plain(a, 0), Plain(b, 4)], irqs, [])
  }

  lemma TwoRegistersLegal(a: string, b: string, irqs: seq<Irq>)
    requires IsSymbol(a) && IsSymbol(b) && |a| != |b| && LegalIrqs(irqs)
    ensures Legal(TwoRegisters(a, b, irqs))
  {
    hide IsSymbol, LegalIrqs;
    assert IsPow2(8) && IsPow2(4);
    assert |ToUpper(a)| != |ToUpper(b)|;
  }

  /** A legal representation with two registers of one member: `int` and `reg_int`. */
  lemma KeywordEscapeCollides()
    ensures var ir := TwoRegisters("int", "reg_int", []);
            Legal(ir) && !MembersDiffer(ir.registers)
  {
    TwoRegistersLegal("int", "reg_int", []) by {
      assert IsSymbol("int") && IsSymbol("reg_int") && |"int"| != |"reg_int"|;
    }
    var a, b := Plain("int", 0), Plain("reg_int", 4);
    assert ToLower("int") == "int" && ToLower("reg_int") == "reg_int";
    assert IsKeyword("int");
    assert !IsKeyword("reg_int") by {
      UnderscoreIsNoKeyword("reg_int");
    }
    assert MemberOf(a) == ESCAPE + "int" == MemberOf(b);
    var registers := TwoRegisters("int", "reg_int", []).registers;
    assert registers == [a, b] && MemberOf(registers[0]) == MemberOf(registers[1]);
  }

  /** No keyword has an underscore. */
  lemma UnderscoreIsNoKeyword(s: string)
    requires '_' in s
    ensures !IsKeyword(s)
  {
  }

  // ----- All names of the state struct

  const PARENT := "parent_obj"
  const REGION := "iomem"

  function NameOfMember(m: Member): string {
    m.name
  }

  /** The names the state struct declares: the parent object, the memory region, a line for each interrupt
      and a member for each register. */
  function StructNames(src: Source): seq<string> {
    [PARENT, REGION] + (src.irqs + Map(NameOfMember, src.members))
  }

  predicate Reserved(name: string) {
    ToLower(name) == PARENT || ToLower(name) == REGION
  }

  /** The register's member is the interrupt's. */
  predicate IrqCollides(r: Register, q: Irq) {
    ToLower(q.name) == if IsKeyword(ToLower(r.name)) then ESCAPE + ToLower(r.name) else ToLower(r.name)
  }

  /** The names a device may have, case ignored: no interrupt twice, nothing called like the parent or the
      region, no interrupt called like a register's member, and no register called like another's escape. */
  ghost predicate NamesCompatible(ir: Ir) {
    && (forall i, j | 0 <= i < j < |ir.interrupts| ::
          ToLower(ir.interrupts[i].name) != ToLower(ir.interrupts[j].name))
    && (forall q | q in ir.interrupts :: !Reserved(q.name))
    && (forall r | r in ir.registers :: !Reserved(r.name))
    && (forall r, q | r in ir.registers && q in ir.interrupts :: !IrqCollides(r, q))
    && (forall i, j | 0 <= i < |ir.registers| && 0 <= j < |ir.registers| && i != j ::
          !EscapeCollides(ir.registers[i], ir.registers[j]))
  }

  lemma ReservedMember(r: Register)
    ensures Reserved(r.name) <==> MemberOf(r) == PARENT || MemberOf(r) == REGION
  {
    UnderscoreIsNoKeyword(PARENT);
    RegionIsNoKeyword();
    hide IsKeyword, ToLower;
    assert (ESCAPE + ToLower(r.name))[0] == 'r' && PARENT[0] == 'p' && REGION[0] == 'i';
  }

  lemma RegionIsNoKeyword()
    ensures !IsKeyword(REGION)
  {
    assert forall s | s in C_KEYWORDS && |s| == 5 :: s[1] != 'o' || s[0] != 'i';
  }

  lemma MembersInAnyOrder(registers: seq<Register>, sorted: seq<Register>, mmioSize: int)
    requires LegalMap(registers, mmioSize) && IsAddressOrder(sorted, registers)
    ensures MembersDiffer(registers) <==> Distinct(Map(MemberOf, sorted))
    ensures forall r :: r in sorted <==> r in registers
  {
    hide MemberOf, LegalRegister, ToUpper;
    assert Distinct(registers);
    SortingElements(sorted, registers, NoHigher);
    SortingDistinct(sorted, registers, NoHigher);
    assert forall i | 0 <= i < |registers| :: registers[i] in registers;
    assert forall i | 0 <= i < |sorted| :: sorted[i] in sorted;
    DistinctImages(registers);
    DistinctImages(sorted);
  }

  lemma DistinctImages(s: seq<Register>)
    requires Distinct(s)
    ensures Distinct(Map(MemberOf, s)) <==> MembersDiffer(s)
    ensures MembersDiffer(s) <==> forall x, y | x in s && y in s && MemberOf(x) == MemberOf(y) :: x == y
  {
    hide MemberOf;
    if MembersDiffer(s) {
      forall x, y | x in s && y in s && MemberOf(x) == MemberOf(y) ensures x == y {
        var i :| 0 <= i < |s| && s[i] == x;
        var j :| 0 <= j < |s| && s[j] == y;
      }
    }
    if forall x, y | x in s && y in s && MemberOf(x) == MemberOf(y) :: x == y {
      forall i, j | 0 <= i < j < |s| ensures MemberOf(s[i]) != MemberOf(s[j]) {
        assert s[i] in s && s[j] in s && s[i] != s[j];
      }
    }
    assert Distinct(Map(MemberOf, s)) ==> forall i, j | 0 <= i < j < |s| :: Map(MemberOf, s)[i] != Map(MemberOf, s)[j];
  }

  lemma NamesOfSource(src: Source, ir: Ir) returns (sorted: seq<Register>)
    requires IsRendered(src, ir)
    ensures IsAddressOrder(sorted, ir.registers)
    ensures src.irqs == Map(IrqMemberOf, ir.interrupts) && Map(NameOfMember, src.members) == Map(MemberOf, sorted)
  {
    hide MemberOf, IsAddressOrder, IsWidest, MacroAt, ReadCaseOf, WriteCaseOf, ResetLineOf;
    sorted :| IsAddressOrder(sorted, ir.registers) && FieldsNonNegative(sorted) && IsSourceOf(src, ir, sorted);
  }

  /** The struct declares every name once if and only if the names of the device are compatible; the
      validator checks the names of the registers against each other only. */
  lemma StructNamesDifferExactly(ir: Ir, src: Source)
    requires Legal(ir) && IsRendered(src, ir)
    ensures Distinct(StructNames(src)) <==> NamesCompatible(ir)
  {
    hide ToLower, IsAddressOrder, LegalMap, MembersDiffer, IsRendered, Map, Distinct, Reserved, IrqCollides,
      EscapeCollides;
    var sorted := NamesOfSource(src, ir);
    MembersInAnyOrder(ir.registers, sorted, ir.mmioSize);
    MembersDifferExactly(ir.registers, ir.mmioSize);
    NamesApart(ir, sorted);
    StructPieces(src.irqs, Map(MemberOf, sorted));
  }

  lemma StructPieces(irqs: seq<string>, members: seq<string>)
    ensures Distinct([PARENT, REGION] + (irqs + members)) <==>
            && Distinct(irqs) && Distinct(members)
            && (forall x | x in [PARENT, REGION] :: x !in irqs + members) && (forall x | x in irqs :: x !in members)
  {
    DistinctConcat([PARENT, REGION], irqs + members);
    DistinctConcat(irqs, members);
    assert Distinct([PARENT, REGION]) by { assert |PARENT| != |REGION|; }
    hide Distinct;
  }

  lemma NamesApart(ir: Ir, sorted: seq<Register>)
    requires forall r :: r in sorted <==> r in ir.registers
    ensures var irqs, members := Map(IrqMemberOf, ir.interrupts), Map(MemberOf, sorted);
            && (Distinct(irqs) <==> forall i, j | 0 <= i < j < |ir.interrupts| ::
                  ToLower(ir.interrupts[i].name) != ToLower(ir.interrupts[j].name))
            && ((forall x | x in [PARENT, REGION] :: x !in irqs + members) <==>
                  (forall q | q in ir.interrupts :: !Reserved(q.name))
                  && (forall r | r in ir.registers :: !Reserved(r.name)))
            && ((forall x | x in irqs :: x !in members) <==>
                  forall r, q | r in ir.registers && q in ir.interrupts :: !IrqCollides(r, q))
  {
    hide ToLower, MemberOf, IsKeyword;
    ReservedApart(ir.interrupts, sorted);
    IrqsApart(ir.interrupts, sorted);
    var irqs := Map(IrqMemberOf, ir.interrupts);
    assert Distinct(irqs) ==> forall i, j | 0 <= i < j < |ir.interrupts| :: irqs[i] != irqs[j];
  }

  lemma ReservedApart(interrupts: seq<Irq>, registers: seq<Register>)
    ensures (forall x | x in [PARENT, REGION] :: x !in Map(IrqMemberOf, interrupts) + Map(MemberOf, registers)) <==>
              (forall q | q in interrupts :: !Reserved(q.name)) && (forall r | r in registers :: !Reserved(r.name))
  {
    hide ToLower, MemberOf, IsKeyword;
    var irqs, members := Map(IrqMemberOf, interrupts), Map(MemberOf, registers);
    forall r: Register ensures Reserved(r.name) <==> MemberOf(r) == PARENT || MemberOf(r) == REGION {
      ReservedMember(r);
    }
    forall q | q in interrupts ensures IrqMemberOf(q) in irqs + members {
      var i :| 0 <= i < |interrupts| && interrupts[i] == q;
      assert irqs[i] in irqs;
    }
    forall r | r in registers ensures MemberOf(r) in irqs + members {
      var i :| 0 <= i < |registers| && registers[i] == r;
      assert members[i] in members;
    }
    assert PARENT in [PARENT, REGION] && REGION in [PARENT, REGION];
  }

  lemma IrqsApart(interrupts: seq<Irq>, registers: seq<Register>)
    ensures (forall x | x in Map(IrqMemberOf, interrupts) :: x !in Map(MemberOf, registers)) <==>
            forall r, q | r in registers && q in interrupts :: !IrqCollides(r, q)
  {
    hide ToLower, IsKeyword;
    var irqs, members := Map(IrqMemberOf, interrupts), Map(MemberOf, registers);
    forall q | q in interrupts ensures IrqMemberOf(q) in irqs {
      var i :| 0 <= i < |interrupts| && interrupts[i] == q;
      assert irqs[i] in irqs;
    }
    forall r | r in registers ensures MemberOf(r) in members {
      var i :| 0 <= i < |registers| && registers[i] == r;
      assert members[i] in members;
    }
    assert forall r: Register, q: Irq :: IrqCollides(r, q) <==> IrqMemberOf(q) == MemberOf(r);
    if x :| x in irqs && x in members {
      var i :| 0 <= i < |irqs| && irqs[i] == x;
      var j :| 0 <= j < |members| && members[j] == x;
      assert interrupts[i] in interrupts && registers[j] in registers && IrqCollides(registers[j], interrupts[i]);
    }
  }

  /** Legal representations whose struct declares a name twice: a register called like the region, an
      interrupt called like a register, and two interrupts of one name. */
  lemma LegalNamesMayClash()
    ensures var ir := TwoRegisters("IOMEM", "CTRL", []); Legal(ir) && !NamesCompatible(ir)
    ensures var ir := TwoRegisters("DATA", "RX_IRQ", [Irq("rx_irq", 0, "")]); Legal(ir) && !NamesCompatible(ir)
    ensures var ir := TwoRegisters("DATA", "CTL", [Irq("RX", 0, ""), Irq("rx", 1, "")]); Legal(ir) && !NamesCompatible(ir)
  {
    RegionClash();
    IrqClash();
    IrqTwice();
  }

  lemma RegionClash()
    ensures var ir := TwoRegisters("IOMEM", "CTRL", []); Legal(ir) && !NamesCompatible(ir)
  {
    assert IsSymbol("IOMEM") && IsSymbol("CTRL") && |"IOMEM"| != |"CTRL"|;
    TwoRegistersLegal("IOMEM", "CTRL", []);
    assert ToLower("IOMEM") == REGION;
    assert Plain("IOMEM", 0) in TwoRegisters("IOMEM", "CTRL", []).registers;
  }

  lemma IrqClash()
    ensures var ir := TwoRegisters("DATA", "RX_IRQ", [Irq("rx_irq", 0, "")]); Legal(ir) && !NamesCompatible(ir)
  {
    var irqs := [Irq("rx_irq", 0, "")];
    TwoRegistersLegal("DATA", "RX_IRQ", irqs) by {
      assert IsSymbol("DATA") && IsSymbol("RX_IRQ") && IsSymbol("rx_irq") && |"DATA"| != |"RX_IRQ"|;
    }
    assert ToLower("RX_IRQ") == "rx_irq" && ToLower("rx_irq") == "rx_irq";
    UnderscoreIsNoKeyword("rx_irq");
    NamedAlike("DATA", "RX_IRQ", irqs, irqs[0]);
  }

  lemma NamedAlike(a: string, b: string, irqs: seq<Irq>, q: Irq)
    requires q in irqs && ToLower(q.name) == ToLower(b) && !IsKeyword(ToLower(b))
    ensures !NamesCompatible(TwoRegisters(a, b, irqs))
  {
    hide ToLower, IsKeyword;
    var r := Plain(b, 4);
    assert r in TwoRegisters(a, b, irqs).registers && IrqCollides(r, q);
  }

  lemma IrqTwice()
    ensures var ir := TwoRegisters("DATA", "CTL", [Irq("RX", 0, ""), Irq("rx", 1, "")]); Legal(ir) && !NamesCompatible(ir)
  {
    var irqs := [Irq("RX", 0, ""), Irq("rx", 1, "")];
    assert IsSymbol("DATA") && IsSymbol("CTL") && IsSymbol("RX") && IsSymbol("rx") && |"DATA"| != |"CTL"|;
    TwoRegistersLegal("DATA", "CTL", irqs);
    assert ToLower(irqs[0].name) == "rx" == ToLower(irqs[1].name);
  }
}
