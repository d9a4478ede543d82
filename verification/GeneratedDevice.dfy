/** What the generated handlers do when they run, next to what the access modes mean for a device, and
    the proof that both agree on every sequence of accesses. */
module GeneratedDevice {
  import opened Common
  import opened RegIr
  import opened Bits
  import opened Sorting
  import opened Renderer

  datatype Access = Reset | Read(address: nat) | Write(address: nat, value: U64)

  // ----- The meaning of the access modes

  /** Register contents, by register name. */
  type Contents = map<string, nat>

  /** The bits of `value` that are not set in `ones`. */
  function Without(value: nat, ones: nat): nat {
    if value == 0 then 0 else (if ones % 2 == 1 then 0 else value % 2) + 2 * Without(value / 2, ones / 2)
  }

  function AtAddress(registers: seq<Register>, address: nat): Option<Register> {
    if registers == [] then None
    else if registers[0].offset == address then Some(registers[0])
    else AtAddress(registers[1..], address)
  }

  function ReadOf(r: Register, value: nat): nat {
    if r.access.WO? || r.access.Rsvd? then 0 else value
  }

  function WriteOf(r: Register, value: nat, written: U64): nat
    requires LegalWidth(r.width)
  {
    match r.access
    case RO => value
    case Rsvd => value
    case W1C => Without(value, written)
    case _ => Low(written, r.width)
  }

  function ResetOf(r: Register): nat {
    if r.reset.Some? then r.reset.value else 0
  }

  /** Unknown registers hold nothing, which reads as zero. */
  function Get(m: map<string, nat>, name: string): nat {
    if name in m then m[name] else 0
  }

  function ResetAll(registers: seq<Register>, c: Contents): Contents {
    if registers == [] then c
    else ResetAll(registers[..|registers| - 1], c)[registers[|registers| - 1].name := ResetOf(registers[|registers| - 1])]
  }

  predicate Widths(registers: seq<Register>) {
    forall r | r in registers :: LegalWidth(r.width)
  }

  function Meaning(registers: seq<Register>, c: Contents, a: Access): (Contents, nat)
    requires Widths(registers)
  {
    match a
    case Reset => (ResetAll(registers, c), 0)
    case Read(address) =>
      (match AtAddress(registers, address)
       case None => (c, 0)
       case Some(r) => (c, ReadOf(r, Get(c, r.name))))
    case Write(address, value) =>
      AtAddressIn(registers, address);
      (match AtAddress(registers, address)
       case None => (c, 0)
       case Some(r) => (c[r.name := WriteOf(r, Get(c, r.name), value)], 0))
  }

  lemma {:induction false} AtAddressIn(registers: seq<Register>, address: nat)
    ensures AtAddress(registers, address).Some? ==>
              AtAddress(registers, address).value in registers && AtAddress(registers, address).value.offset == address
    ensures AtAddress(registers, address).None? ==> forall r | r in registers :: r.offset != address
  {
    if registers != [] {
      AtAddressIn(registers[1..], address);
    }
  }

  // ----- The generated C, executed

  /** The struct members. */
  type State = map<string, nat>

  /** The declared width of a member; what is not declared holds nothing. */
  function WidthOf(members: seq<Member>, name: string): nat {
    if members == [] then 0
    else if members[0].name == name then (if members[0].width < 0 then 0 else members[0].width)
    else WidthOf(members[1..], name)
  }

  /** s->name = value: the value is cut to the declared type, uintw_t. */
  function Assign(members: seq<Member>, s: State, name: string, value: nat): State {
    s[name := Low(value, WidthOf(members, name))]
  }

  /** ~(uintw_t)value: operands narrower than an int are promoted to 32 bits first. */
  function Complement(value: U64, width: int): nat
    requires LegalWidth(width)
  {
    var promoted := if width < 32 then 32 else width;
    Pow2Grows(width, promoted);
    Pow2(promoted) - 1 - Low(value, width)
  }

  function RunRead(cases: seq<ReadCase>, s: State, address: nat): nat {
    if cases == [] then 0
    else if cases[0].address == address then
      (match cases[0].body
       case ReturnZero => 0
       case ReturnMember(name) => Get(s, name))
    else RunRead(cases[1..], s, address)
  }

  predicate BodyWidths(cases: seq<WriteCase>) {
    forall c | c in cases :: c.body.Ignore? || LegalWidth(c.body.width)
  }

  /** s->name = (uintw_t)value, or s->name &= ~(uintw_t)value. */
  function RunBody(members: seq<Member>, body: WriteBody, s: State, value: U64): State
    requires body.Ignore? || LegalWidth(body.width)
  {
    match body
    case Ignore => s
    case Store(name, width) => Assign(members, s, name, Low(value, width))
    case ClearOnes(name, width) => Assign(members, s, name, BitAnd(Get(s, name), Complement(value, width)))
  }

  function RunWrite(members: seq<Member>, cases: seq<WriteCase>, s: State, address: nat, value: U64): State
    requires BodyWidths(cases)
  {
    if cases == [] then s
    else if cases[0].address == address then RunBody(members, cases[0].body, s, value)
    else RunWrite(members, cases[1..], s, address, value)
  }

  function RunReset(members: seq<Member>, lines: seq<ResetLine>, s: State): State {
    if lines == [] then s
    else Assign(members, RunReset(members, lines[..|lines| - 1], s), lines[|lines| - 1].name, lines[|lines| - 1].value)
  }

  function Execute(src: Source, s: State, a: Access): (State, nat)
    requires BodyWidths(src.writeCases)
  {
    match a
    case Reset => (RunReset(src.members, src.resets, s), 0)
    case Read(address) => (s, RunRead(src.readCases, s, address))
    case Write(address, value) => (RunWrite(src.members, src.writeCases, s, address, value), 0)
  }

  // ----- Finding a case

  lemma {:induction false} RunReadIs(registers: seq<Register>, s: State, address: nat)
    ensures RunRead(Map(ReadCaseOf, registers), s, address) ==
            match AtAddress(registers, address)
            case None => 0
            case Some(r) => ReadOf(r, Get(s, MemberOf(r)))
  {
    if registers != [] {
      RunReadIs(registers[1..], s, address);
      assert Map(ReadCaseOf, registers)[1..] == Map(ReadCaseOf, registers[1..]);
    }
  }

  lemma {:induction false} RunWriteIs(members: seq<Member>, registers: seq<Register>, s: State, address: nat, value: U64)
    requires Widths(registers)
    ensures BodyWidths(Map(WriteCaseOf, registers))
    ensures RunWrite(members, Map(WriteCaseOf, registers), s, address, value) ==
            match AtAddress(registers, address)
            case None => s
            case Some(r) => (AtAddressIn(registers, address); RunBody(members, WriteCaseOf(r).body, s, value))
  {
    hide MemberOf, Complement, RunBody;
    if registers != [] {
      RunWriteIs(members, registers[1..], s, address, value);
      assert Map(WriteCaseOf, registers)[1..] == Map(WriteCaseOf, registers[1..]);
    }
  }

  /** The switch of the generated handler finds the same register in address order as the device finds
      in any order. */
  lemma SameRegister(registers: seq<Register>, sorted: seq<Register>, address: nat)
    requires forall r :: r in sorted <==> r in registers
    requires forall x, y | x in registers && y in registers && x.offset == y.offset :: x == y
    ensures AtAddress(sorted, address) == AtAddress(registers, address)
  {
    AtAddressIn(registers, address);
    AtAddressIn(sorted, address);
  }

  // ----- Clearing bits

  lemma {:induction false} WithoutBits(value: nat, ones: nat, k: nat)
    ensures BitOf(Without(value, ones), k) <==> BitOf(value, k) && !BitOf(ones, k)
    ensures Without(value, ones) <= value
  {
    if value == 0 {
      ZeroBits(k);
    } else {
      var rest := Without(value / 2, ones / 2);
      assert Without(value, ones) / 2 == rest;
      WithoutBits(value / 2, ones / 2, if k > 0 then k - 1 else 0);
    }
  }

  /** The promoted and truncated C expression clears exactly the bits written as one. */
  lemma ClearIsWithout(value: nat, written: U64, width: int)
    requires LegalWidth(width) && value < Pow2(width)
    ensures Low(BitAnd(value, Complement(written, width)), width) == Without(value, written)
  {
    hide Pow2, Without, Low, BitAnd, BitOf;
    var a := Low(BitAnd(value, Complement(written, width)), width);
    var b := Without(value, written);
    forall k: nat ensures BitOf(a, k) <==> BitOf(b, k) {
      LowBits(BitAnd(value, Complement(written, width)), width, k);
      AndBits(value, Complement(written, width), k);
      WithoutBits(value, written, k);
      LowBits(written, width, k);
      var promoted := if width < 32 then 32 else width;
      Pow2Grows(width, promoted);
      assert Low(written, width) < Pow2(width);
      NotBits(Low(written, width), promoted, k);
      SmallBits(value, width, k);
    }
    SameBits(a, b);
  }

  lemma SmallBits(x: nat, w: nat, k: nat)
    requires x < Pow2(w)
    ensures BitOf(x, k) ==> k < w
  {
    hide Pow2, BitOf;
    assert Low(x, w) == x;
    LowBits(x, w, k);
  }

  // ----- The simulation

  /** The conditions the validator and distinct member names establish. */
  predicate Renderable(registers: seq<Register>, mmioSize: int) {
    LegalMap(registers, mmioSize) && MembersDiffer(registers)
  }

  predicate Known(m: map<string, nat>, name: string, width: int) {
    name in m && width >= 0 && m[name] < Pow2(width)
  }

  /** Every register's contents are those of its struct member, and fit its width. */
  predicate Agree(registers: seq<Register>, s: State, c: Contents) {
    forall r | r in registers ::
      Known(c, r.name, r.width) && MemberOf(r) in s && s[MemberOf(r)] == c[r.name]
  }

  lemma NamesTellApart(registers: seq<Register>, mmioSize: int)
    requires Renderable(registers, mmioSize)
    ensures forall x, y | x in registers && y in registers && x.name == y.name :: x == y
    ensures forall x, y | x in registers && y in registers && MemberOf(x) == MemberOf(y) :: x == y
    ensures forall x, y | x in registers && y in registers && x.offset == y.offset :: x == y
    ensures Widths(registers)
  {
    hide MemberOf, ToUpper, LegalFields;
    LegalOffsetsDiffer(registers, mmioSize);
    forall x, y | x in registers && y in registers && x.name == y.name ensures x == y {
      var i :| 0 <= i < |registers| && registers[i] == x;
      var j :| 0 <= j < |registers| && registers[j] == y;
    }
    forall x, y | x in registers && y in registers && MemberOf(x) == MemberOf(y) ensures x == y {
      var i :| 0 <= i < |registers| && registers[i] == x;
      var j :| 0 <= j < |registers| && registers[j] == y;
    }
  }

  lemma WriteFits(r: Register, value: nat, written: U64)
    requires LegalWidth(r.width) && value < Pow2(r.width)
    ensures WriteOf(r, value, written) < Pow2(r.width)
  {
    hide Pow2;
    WithoutBits(value, written, 0);
  }

  /** Every register's member is declared with the register's width. */
  predicate Declared(members: seq<Member>, registers: seq<Register>) {
    forall r | r in registers :: r.width >= 0 && WidthOf(members, MemberOf(r)) == r.width
  }

  lemma {:induction false} DeclaredAsRendered(registers: seq<Register>)
    requires Widths(registers)
    requires forall x, y | x in registers && y in registers && MemberOf(x) == MemberOf(y) :: x == y
    ensures Declared(Map(StructMemberOf, registers), registers)
  {
    hide MemberOf;
    if registers != [] {
      DeclaredAsRendered(registers[1..]);
      assert Map(StructMemberOf, registers)[1..] == Map(StructMemberOf, registers[1..]);
      forall r | r in registers ensures r.width >= 0 && WidthOf(Map(StructMemberOf, registers), MemberOf(r)) == r.width {
        assert r == registers[0] || r in registers[1..];
      }
    }
  }

  lemma LowOfSmall(x: nat, width: nat)
    requires x < Pow2(width)
    ensures Low(x, width) == x
  {
    hide Pow2;
  }

  /** The body of a register's case stores what the access mode means. */
  lemma BodyMeans(members: seq<Member>, r: Register, s: State, written: U64)
    requires LegalWidth(r.width) && Get(s, MemberOf(r)) < Pow2(r.width) && !r.access.OtherAccess?
    requires WidthOf(members, MemberOf(r)) == r.width
    ensures var t := RunBody(members, WriteCaseOf(r).body, s, written);
            if WriteCaseOf(r).body.Ignore? then t == s && WriteOf(r, Get(s, MemberOf(r)), written) == Get(s, MemberOf(r))
            else t == s[MemberOf(r) := WriteOf(r, Get(s, MemberOf(r)), written)]
  {
    hide MemberOf, Pow2, Low, Without, Complement;
    LowOfSmall(Low(written, r.width), r.width);
    if r.access.W1C? {
      ClearIsWithout(Get(s, MemberOf(r)), written, r.width);
    }
  }

  lemma AgreeUpdate(registers: seq<Register>, mmioSize: int, s: State, c: Contents, r: Register, v: nat)
    requires Renderable(registers, mmioSize) && Agree(registers, s, c) && r in registers
    requires r.width >= 0 && v < Pow2(r.width)
    ensures Agree(registers, s[MemberOf(r) := v], c[r.name := v])
  {
    hide MemberOf, Pow2, LegalMap, MembersDiffer;
    NamesTellApart(registers, mmioSize);
  }

  /** The parts of the file that run, as they are generated from the sorted registers. */
  predicate GeneratedFrom(src: Source, sorted: seq<Register>) {
    && src.members == Map(StructMemberOf, sorted) && src.migrated == Map(StructMemberOf, sorted)
    && src.readCases == Map(ReadCaseOf, sorted) && src.writeCases == Map(WriteCaseOf, sorted)
    && src.resets == Map(ResetLineOf, sorted)
  }

  lemma CasesOf(src: Source, sorted: seq<Register>)
    requires GeneratedFrom(src, sorted)
    ensures src.readCases == Map(ReadCaseOf, sorted) && src.writeCases == Map(WriteCaseOf, sorted)
  {
    hide MemberOf;
  }

  lemma MemberDeclared(members: seq<Member>, registers: seq<Register>, r: Register)
    requires Declared(members, registers) && r in registers
    ensures WidthOf(members, MemberOf(r)) == r.width
  {
  }

  lemma MembersDeclared(ir: Ir, src: Source, sorted: seq<Register>)
    requires Renderable(ir.registers, ir.mmioSize) && IsAddressOrder(sorted, ir.registers) && GeneratedFrom(src, sorted)
    ensures Declared(src.members, ir.registers) && Declared(src.migrated, ir.registers)
  {
    hide MemberOf, Pow2, LegalMap, MembersDiffer, Map, ReadCaseOf, WriteCaseOf, ResetLineOf, WidthOf;
    NamesTellApart(ir.registers, ir.mmioSize);
    SortingElements(sorted, ir.registers, NoHigher);
    DeclaredAsRendered(sorted);
  }

  /** One access of the generated device and one of the meant device stay in step. */
  lemma AccessInStep(ir: Ir, src: Source, sorted: seq<Register>, s: State, c: Contents, address: nat, written: U64)
    requires Renderable(ir.registers, ir.mmioSize) && Agree(ir.registers, s, c)
    requires IsAddressOrder(sorted, ir.registers) && GeneratedFrom(src, sorted)
    ensures Widths(ir.registers) && BodyWidths(src.writeCases)
    ensures Execute(src, s, Read(address)).1 == Meaning(ir.registers, c, Read(address)).1
    ensures Agree(ir.registers, Execute(src, s, Write(address, written)).0, Meaning(ir.registers, c, Write(address, written)).0)
  {
    hide MemberOf, Pow2, LegalMap, MembersDiffer, ReadCaseOf, WriteCaseOf, ResetLineOf, StructMemberOf, RunBody, WriteOf,
      Map, WidthOf, GeneratedFrom, Low, Declared;
    CasesOf(src, sorted);
    NamesTellApart(ir.registers, ir.mmioSize);
    SortingElements(sorted, ir.registers, NoHigher);
    SameRegister(ir.registers, sorted, address);
    AtAddressIn(ir.registers, address);
    RunReadIs(sorted, s, address);
    RunWriteIs(src.members, sorted, s, address, written);
    MembersDeclared(ir, src, sorted);
    if AtAddress(ir.registers, address).Some? {
      var r := AtAddress(ir.registers, address).value;
      RegisterIsKnown(ir.registers, ir.mmioSize, r);
      MemberDeclared(src.members, ir.registers, r);
      BodyMeans(src.members, r, s, written);
      WriteFits(r, c[r.name], written);
      AgreeUpdate(ir.registers, ir.mmioSize, s, c, r, WriteOf(r, c[r.name], written));
      assert s[MemberOf(r) := s[MemberOf(r)]] == s;
    }
  }

  lemma RegisterIsKnown(registers: seq<Register>, mmioSize: int, r: Register)
    requires LegalMap(registers, mmioSize) && r in registers
    ensures LegalHead(r, mmioSize)
  {
    hide ToUpper;
    assert LegalRegister(r, mmioSize);
  }

  // ----- Reset

  lemma {:induction false} ResetAllSets(registers: seq<Register>, c: Contents)
    requires forall x, y | x in registers && y in registers && x.name == y.name :: x == y
    ensures forall r | r in registers :: r.name in ResetAll(registers, c) && ResetAll(registers, c)[r.name] == ResetOf(r)
  {
    if registers != [] {
      var front, last := registers[..|registers| - 1], registers[|registers| - 1];
      ResetAllSets(front, c);
      assert forall r | r in registers :: r in front || r == last;
    }
  }

  lemma {:induction false} RunResetSets(members: seq<Member>, registers: seq<Register>, s: State)
    requires forall x, y | x in registers && y in registers && MemberOf(x) == MemberOf(y) :: x == y
    requires Declared(members, registers) && forall r | r in registers :: ResetOf(r) < Pow2(r.width)
    ensures var t := RunReset(members, Map(ResetLineOf, registers), s);
            forall r | r in registers :: MemberOf(r) in t && t[MemberOf(r)] == ResetOf(r)
  {
    hide MemberOf, Pow2, WidthOf, Low;
    if registers != [] {
      var front, last := registers[..|registers| - 1], registers[|registers| - 1];
      RunResetSets(members, front, s);
      assert Map(ResetLineOf, registers)[..|registers| - 1] == Map(ResetLineOf, front);
      assert last in registers;
      LowOfSmall(ResetOf(last), last.width);
      assert forall r | r in registers :: r in front || r == last;
    }
  }

  /** The generated reset handler puts every register at its documented value, or at zero, whatever the
      state before. */
  lemma ResetAgrees(ir: Ir, src: Source, sorted: seq<Register>, s: State, c: Contents)
    requires Renderable(ir.registers, ir.mmioSize) && IsAddressOrder(sorted, ir.registers) && GeneratedFrom(src, sorted)
    ensures Agree(ir.registers, RunReset(src.members, src.resets, s), ResetAll(ir.registers, c))
  {
    hide MemberOf, Pow2, LegalMap, MembersDiffer, Map, ResetLineOf, ReadCaseOf, WriteCaseOf, StructMemberOf, WidthOf;
    NamesTellApart(ir.registers, ir.mmioSize);
    SortingElements(sorted, ir.registers, NoHigher);
    ResetAllSets(ir.registers, c);
    MembersDeclared(ir, src, sorted);
    forall r | r in ir.registers
      ensures ResetOf(r) < Pow2(r.width)
    {
      RegisterIsKnown(ir.registers, ir.mmioSize, r);
    }
    RunResetSets(src.members, sorted, s);
  }

  // ----- Whole runs

  function MeaningRun(registers: seq<Register>, c: Contents, accesses: seq<Access>): (Contents, seq<nat>)
    requires Widths(registers)
  {
    if accesses == [] then (c, [])
    else
      var (before, outputs) := MeaningRun(registers, c, accesses[..|accesses| - 1]);
      var (after, output) := Meaning(registers, before, accesses[|accesses| - 1]);
      (after, outputs + [output])
  }

  function DeviceRun(src: Source, s: State, accesses: seq<Access>): (State, seq<nat>)
    requires BodyWidths(src.writeCases)
  {
    if accesses == [] then (s, [])
    else
      var (before, outputs) := DeviceRun(src, s, accesses[..|accesses| - 1]);
      var (after, output) := Execute(src, before, accesses[|accesses| - 1]);
      (after, outputs + [output])
  }

  lemma SourceRuns(ir: Ir, src: Source, sorted: seq<Register>)
    requires Renderable(ir.registers, ir.mmioSize) && IsAddressOrder(sorted, ir.registers) && GeneratedFrom(src, sorted)
    ensures Widths(ir.registers) && BodyWidths(src.writeCases)
  {
    hide LegalMap, MembersDiffer, MemberOf, Map, WriteCaseOf, ReadCaseOf, ResetLineOf, StructMemberOf;
    NamesTellApart(ir.registers, ir.mmioSize);
    SortingElements(sorted, ir.registers, NoHigher);
    RunWriteIs([], sorted, map[], 0, 0);
  }

  lemma RenderedFrom(src: Source, ir: Ir) returns (sorted: seq<Register>)
    requires IsRendered(src, ir)
    ensures IsAddressOrder(sorted, ir.registers)
    ensures GeneratedFrom(src, sorted)
  {
    sorted :| IsAddressOrder(sorted, ir.registers) && FieldsNonNegative(sorted) && IsSourceOf(src, ir, sorted);
  }

  /** The rendered handlers give, on every sequence of reads, writes and resets, the values the access
      modes mean, and every member always holds the meant contents, which fit the register. */
  lemma {:induction false} GeneratedDeviceIsTheDevice(ir: Ir, src: Source, s: State, c: Contents, accesses: seq<Access>)
    requires Renderable(ir.registers, ir.mmioSize) && IsRendered(src, ir) && Agree(ir.registers, s, c)
    ensures Widths(ir.registers) && BodyWidths(src.writeCases)
    ensures DeviceRun(src, s, accesses).1 == MeaningRun(ir.registers, c, accesses).1
    ensures Agree(ir.registers, DeviceRun(src, s, accesses).0, MeaningRun(ir.registers, c, accesses).0)
  {
    hide GeneratedFrom, MemberOf, Pow2, LegalMap, MembersDiffer, Map, Agree, IsAddressOrder, Execute, Meaning, IsRendered;
    var sorted := RenderedFrom(src, ir);
    SourceRuns(ir, src, sorted);
    if accesses != [] {
      var front, last := accesses[..|accesses| - 1], accesses[|accesses| - 1];
      GeneratedDeviceIsTheDevice(ir, src, s, c, front);
      StepAgrees(ir, src, sorted, DeviceRun(src, s, front).0, MeaningRun(ir.registers, c, front).0, last);
    }
  }

  /** From a reset on this needs nothing about what the members and the registers held before. */
  lemma {:induction false} AgreesFromReset(ir: Ir, src: Source, s: State, c: Contents, accesses: seq<Access>)
    requires Renderable(ir.registers, ir.mmioSize) && IsRendered(src, ir)
    ensures Widths(ir.registers) && BodyWidths(src.writeCases)
    ensures DeviceRun(src, s, [Reset] + accesses).1 == MeaningRun(ir.registers, c, [Reset] + accesses).1
    ensures Agree(ir.registers, DeviceRun(src, s, [Reset] + accesses).0,
                  MeaningRun(ir.registers, c, [Reset] + accesses).0)
  {
    hide GeneratedFrom, MemberOf, Pow2, LegalMap, MembersDiffer, Map, Agree, IsAddressOrder, Execute, Meaning, IsRendered;
    var sorted := RenderedFrom(src, ir);
    SourceRuns(ir, src, sorted);
    var n := |accesses|;
    if n == 0 {
      assert [Reset] + accesses == [Reset] && [Reset][..0] == [];
      FirstReset(ir, src, sorted, s, c);
    } else {
      var front, last := [Reset] + accesses[..n - 1], accesses[n - 1];
      assert ([Reset] + accesses)[..n] == front && ([Reset] + accesses)[n] == last;
      AgreesFromReset(ir, src, s, c, accesses[..n - 1]);
      StepAgrees(ir, src, sorted, DeviceRun(src, s, front).0, MeaningRun(ir.registers, c, front).0, last);
    }
  }

  lemma FirstReset(ir: Ir, src: Source, sorted: seq<Register>, s: State, c: Contents)
    requires Renderable(ir.registers, ir.mmioSize) && IsAddressOrder(sorted, ir.registers) && GeneratedFrom(src, sorted)
    ensures Widths(ir.registers) && BodyWidths(src.writeCases)
    ensures Execute(src, s, Reset).1 == Meaning(ir.registers, c, Reset).1
    ensures Agree(ir.registers, Execute(src, s, Reset).0, Meaning(ir.registers, c, Reset).0)
  {
    hide GeneratedFrom, MemberOf, Pow2, LegalMap, MembersDiffer, Map, Agree, IsAddressOrder;
    SourceRuns(ir, src, sorted);
    ResetAgrees(ir, src, sorted, s, c);
  }

  lemma StepAgrees(ir: Ir, src: Source, sorted: seq<Register>, s: State, c: Contents, a: Access)
    requires Renderable(ir.registers, ir.mmioSize) && Agree(ir.registers, s, c)
    requires IsAddressOrder(sorted, ir.registers) && GeneratedFrom(src, sorted)
    ensures Widths(ir.registers) && BodyWidths(src.writeCases)
    ensures Execute(src, s, a).1 == Meaning(ir.registers, c, a).1
    ensures Agree(ir.registers, Execute(src, s, a).0, Meaning(ir.registers, c, a).0)
  {
    hide GeneratedFrom, MemberOf, Pow2, LegalMap, MembersDiffer, Map, Agree, IsAddressOrder, AtAddress, ReadOf, WriteOf;
    SourceRuns(ir, src, sorted);
    match a
    case Reset => ResetAgrees(ir, src, sorted, s, c);
    case Read(address) => AccessInStep(ir, src, sorted, s, c, address, 0);
    case Write(address, value) => AccessInStep(ir, src, sorted, s, c, address, value);
  }

  /** A write changes at most the member of the register at its address. */
  lemma WriteTouchesOneRegister(ir: Ir, src: Source, s: State, address: nat, value: U64, other: Register)
    requires Renderable(ir.registers, ir.mmioSize) && IsRendered(src, ir)
    requires other in ir.registers && other.offset != address
    ensures BodyWidths(src.writeCases)
    ensures Get(Execute(src, s, Write(address, value)).0, MemberOf(other)) == Get(s, MemberOf(other))
  {
    hide MemberOf, Pow2, LegalMap, MembersDiffer, Map, Complement, Low, BitAnd, IsRendered;
    var sorted := RenderedFrom(src, ir);
    NamesTellApart(ir.registers, ir.mmioSize);
    SortingElements(sorted, ir.registers, NoHigher);
    RunWriteIs(src.members, sorted, s, address, value);
    AtAddressIn(sorted, address);
  }
}
