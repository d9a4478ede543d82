/** Saving the generated device through its migration description and loading it on another host. */
module Migration {
  import opened Common
  import opened RegIr
  import opened Bits
  import opened Sorting
  import opened Renderer
  import opened GeneratedDevice

  /** VMSTATE_UINTw: w bits of each described member, in order. */
  function SaveMembers(fields: seq<Member>, s: State): seq<nat> {
    if fields == [] then []
    else SaveMembers(fields[..|fields| - 1], s) + [Low(Get(s, Last(fields).name), StoredBits(Last(fields)))]
  }

  function Last(fields: seq<Member>): Member
    requires fields != []
  {
    fields[|fields| - 1]
  }

  function StoredBits(m: Member): nat {
    if m.width < 0 then 0 else m.width
  }

  /** Each value goes to its member, in whatever state the other host's device was. */
  function LoadMembers(declared: seq<Member>, fields: seq<Member>, stream: seq<nat>, s: State): State
    requires |stream| == |fields|
  {
    if fields == [] then s
    else
      var n := |fields| - 1;
      Assign(declared, LoadMembers(declared, fields[..n], stream[..n], s), fields[n].name, stream[n])
  }

  lemma {:induction false} SavedLength(fields: seq<Member>, s: State)
    ensures |SaveMembers(fields, s)| == |fields|
  {
    if fields != [] {
      SavedLength(fields[..|fields| - 1], s);
    }
  }

  function Migrate(src: Source, s: State, other: State): State {
    SavedLength(src.migrated, s);
    LoadMembers(src.members, src.migrated, SaveMembers(src.migrated, s), other)
  }

  /** Loading the last member as well. */
  lemma LoadsLast(declared: seq<Member>, registers: seq<Register>, s: State, c: Contents)
    requires registers != [] && Declared(declared, registers)
    requires forall x, y | x in registers && y in registers && MemberOf(x) == MemberOf(y) :: x == y
    requires var last := registers[|registers| - 1];
             && Agree(registers[..|registers| - 1], s, c) && GeneratedDevice.Known(c, last.name, last.width)
    ensures var last := registers[|registers| - 1]; Agree(registers, Assign(declared, s, MemberOf(last), c[last.name]), c)
  {
    hide MemberOf, Pow2, WidthOf, Low;
    var front, last := registers[..|registers| - 1], registers[|registers| - 1];
    assert last in registers;
    LowOfSmall(c[last.name], last.width);
    assert forall r | r in registers :: r in front || r == last;
  }

  lemma {:induction false} Reloads(declared: seq<Member>, registers: seq<Register>, s: State, c: Contents, other: State)
    requires forall x, y | x in registers && y in registers && MemberOf(x) == MemberOf(y) :: x == y
    requires Declared(declared, registers) && Agree(registers, s, c)
    ensures var fields := Map(StructMemberOf, registers);
            |SaveMembers(fields, s)| == |fields|
            && Agree(registers, LoadMembers(declared, fields, SaveMembers(fields, s), other), c)
  {
    hide MemberOf, Pow2, WidthOf, Low, Assign;
    var fields := Map(StructMemberOf, registers);
    SavedLength(fields, s);
    if registers != [] {
      var n := |registers| - 1;
      var front, last := registers[..n], registers[n];
      assert fields[..n] == Map(StructMemberOf, front) && last in registers;
      assert Agree(front, s, c) && Declared(declared, front);
      Reloads(declared, front, s, c, other);
      LowOfSmall(c[last.name], last.width);
      hide Agree, Declared;
      SavedLength(fields[..n], s);
      assert SaveMembers(fields, s)[..n] == SaveMembers(fields[..n], s);
      LoadsLast(declared, registers, LoadMembers(declared, fields[..n], SaveMembers(fields[..n], s), other), c);
    }
  }

  /** The device that was loaded holds what the saved one held, whatever the other host's device held before. */
  lemma MigrationKeeps(ir: Ir, src: Source, s: State, c: Contents, other: State)
    requires Renderable(ir.registers, ir.mmioSize) && IsRendered(src, ir) && Agree(ir.registers, s, c)
    ensures Agree(ir.registers, Migrate(src, s, other), c)
  {
    hide MemberOf, Pow2, LegalMap, MembersDiffer, Map, IsAddressOrder, IsRendered, Declared;
    var sorted := RenderedFrom(src, ir);
    NamesTellApart(ir.registers, ir.mmioSize);
    SortingElements(sorted, ir.registers, NoHigher);
    MembersDeclared(ir, src, sorted);
    SameDeclared(src.members, ir.registers, sorted);
    Reloads(src.members, sorted, s, c, other);
  }

  lemma SameDeclared(members: seq<Member>, registers: seq<Register>, sorted: seq<Register>)
    requires Declared(members, registers) && forall r :: r in sorted <==> r in registers
    ensures Declared(members, sorted)
  {
  }

  /** So a device that is reset, used, migrated and used again answers as if it had never moved. */
  lemma MigratedDeviceIsTheDevice(ir: Ir, src: Source, s: State, c: Contents, other: State,
                                  before: seq<GeneratedDevice.Access>, after: seq<GeneratedDevice.Access>)
    requires Renderable(ir.registers, ir.mmioSize) && IsRendered(src, ir)
    ensures Widths(ir.registers) && BodyWidths(src.writeCases)
    ensures var moved := Migrate(src, DeviceRun(src, s, [Reset] + before).0, other);
            DeviceRun(src, moved, after).1
            == MeaningRun(ir.registers, MeaningRun(ir.registers, c, [Reset] + before).0, after).1
  {
    hide Renderable, IsRendered, Agree, DeviceRun, MeaningRun, Migrate;
    AgreesFromReset(ir, src, s, c, before);
    var used, meant := DeviceRun(src, s, [Reset] + before).0, MeaningRun(ir.registers, c, [Reset] + before).0;
    MigrationKeeps(ir, src, used, meant, other);
    GeneratedDeviceIsTheDevice(ir, src, Migrate(src, used, other), meant, after);
  }
}
