/** The merge of an inferred proposal into an extracted register map: only holes are filled. */
module Merge {
  import opened Common
  import opened RegIr
  import opened Prose

  const MAX_EFFECT_BYTES := 2048
  const MAX_NOTE_BYTES := 2048

  /** What the merge reports instead of doing; the wording is left open. */
  datatype Remark =
    | OtherDevice(name: string)
    | OtherBusKind(bus: Bus)
    | OtherSize(size: nat)
    | UnseenRegister(name: string)
    | MovedRegister(name: string)
    | OtherAccessMode(name: string, access: Access)
    | WideReset(name: string)
    | OtherReset(name: string)
    | ExtraInterrupt(index: int)
    | Doubt(text: string)

  const RemarkText: Remark -> string
  const EffectCut: string -> string
  const NotesDropped: nat -> string

  // ----- One register

  function FitsWidth(reset: U64, width: I64): bool {
    width < 0 || width >= 64 || reset / Pow2(width) == 0
  }

  function NamesOf(fields: seq<Field>): (r: seq<string>)
    ensures |r| == |fields| && forall i | 0 <= i < |r| :: r[i] == ToLower(fields[i].name)
  {
    seq(|fields|, i requires 0 <= i < |fields| => ToLower(fields[i].name))
  }

  function TextsOf(fields: seq<Field>): (r: seq<string>)
    ensures |r| == |fields| && forall i | 0 <= i < |r| :: r[i] == fields[i].description
  {
    seq(|fields|, i requires 0 <= i < |fields| => fields[i].description)
  }

  function Offers(fields: seq<Field>): seq<(string, string)> {
    Zip(NamesOf(fields), TextsOf(fields))
  }

  function Described(fields: seq<Field>, texts: seq<string>): (r: seq<Field>)
    requires |fields| == |texts|
    ensures |r| == |fields| && forall i | 0 <= i < |r| :: r[i] == fields[i].(description := texts[i])
  {
    seq(|fields|, i requires 0 <= i < |fields| => fields[i].(description := texts[i]))
  }

  function MergedFields(fields: seq<Field>, proposed: seq<Field>): seq<Field> {
    if |fields| == 0 && |proposed| > 0 then proposed
    else Described(fields, Fill(NamesOf(fields), TextsOf(fields), Offers(proposed)))
  }

  function MergedReset(t: Register, c: Register): Option<U64> {
    if t.reset.None? && c.reset.Some? && FitsWidth(c.reset.value, t.width) then c.reset else t.reset
  }

  function MergedEffect(t: Register, c: Register): string {
    if TrimSpace(t.effect) == "" && TrimSpace(c.effect) != "" then c.effect else t.effect
  }

  function MergedRegister(t: Register, c: Register): Register {
    t.(reset := MergedReset(t, c), effect := MergedEffect(t, c), fields := MergedFields(t.fields, c.fields))
  }

  function RegisterRemarks(t: Register, c: Register): seq<Remark> {
    (if c.access != OtherAccess("") && c.access != t.access then [OtherAccessMode(t.name, c.access)] else [])
    + (if t.reset.None? && c.reset.Some? && !FitsWidth(c.reset.value, t.width) then [WideReset(t.name)]
       else if t.reset.Some? && c.reset.Some? && c.reset.value != t.reset.value then [OtherReset(t.name)]
       else [])
  }

  // ----- All registers

  function RegisterKeys(registers: seq<Register>): (r: seq<string>)
    ensures |r| == |registers| && forall i | 0 <= i < |r| :: r[i] == ToLower(registers[i].name)
  {
    seq(|registers|, i requires 0 <= i < |registers| => ToLower(registers[i].name))
  }

  /** The proposal's register is the base's: same place, same width. */
  predicate SamePlace(t: Register, c: Register) {
    c.offset == t.offset && c.width == t.width
  }

  function Absorb(registers: seq<Register>, c: Register): (r: seq<Register>)
    ensures |r| == |registers|
  {
    match LastAt(RegisterKeys(registers), ToLower(c.name))
    case None => registers
    case Some(p) =>
      if SamePlace(registers[p], c) then registers[p := MergedRegister(registers[p], c)] else registers
  }

  function AbsorbRemarks(registers: seq<Register>, c: Register): seq<Remark> {
    match LastAt(RegisterKeys(registers), ToLower(c.name))
    case None => [UnseenRegister(c.name)]
    case Some(p) =>
      if SamePlace(registers[p], c) then RegisterRemarks(registers[p], c) else [MovedRegister(registers[p].name)]
  }

  function AbsorbAll(registers: seq<Register>, proposed: seq<Register>): (r: seq<Register>)
    ensures |r| == |registers|
  {
    if proposed == [] then registers
    else Absorb(AbsorbAll(registers, proposed[..|proposed| - 1]), proposed[|proposed| - 1])
  }

  function AbsorbAllRemarks(registers: seq<Register>, proposed: seq<Register>): seq<Remark> {
    if proposed == [] then []
    else
      AbsorbAllRemarks(registers, proposed[..|proposed| - 1])
      + AbsorbRemarks(AbsorbAll(registers, proposed[..|proposed| - 1]), proposed[|proposed| - 1])
  }

  // ----- Interrupts

  function IndicesOf(irqs: seq<Irq>): (r: seq<I64>)
    ensures |r| == |irqs| && forall i | 0 <= i < |r| :: r[i] == irqs[i].index
  {
    seq(|irqs|, i requires 0 <= i < |irqs| => irqs[i].index)
  }

  function IrqTexts(irqs: seq<Irq>): (r: seq<string>)
    ensures |r| == |irqs| && forall i | 0 <= i < |r| :: r[i] == irqs[i].description
  {
    seq(|irqs|, i requires 0 <= i < |irqs| => irqs[i].description)
  }

  function DescribedIrqs(irqs: seq<Irq>, texts: seq<string>): (r: seq<Irq>)
    requires |irqs| == |texts|
    ensures |r| == |irqs| && forall i | 0 <= i < |r| :: r[i] == irqs[i].(description := texts[i])
  {
    seq(|irqs|, i requires 0 <= i < |irqs| => irqs[i].(description := texts[i]))
  }

  function MergedIrqs(irqs: seq<Irq>, proposed: seq<Irq>): seq<Irq> {
    if |irqs| == 0 then proposed
    else DescribedIrqs(irqs, Fill(IndicesOf(irqs), IrqTexts(irqs), Zip(IndicesOf(proposed), IrqTexts(proposed))))
  }

  function IrqRemarks(irqs: seq<Irq>, proposed: seq<Irq>): seq<Remark> {
    if irqs == [] || proposed == [] then []
    else
      IrqRemarks(irqs, proposed[..|proposed| - 1])
      + (if LastAt(IndicesOf(irqs), proposed[|proposed| - 1].index).None?
         then [ExtraInterrupt(proposed[|proposed| - 1].index)] else [])
  }

  // ----- The whole merge

  function Merged(base: Ir, proposal: Ir): Ir {
    base.(registers := AbsorbAll(base.registers, proposal.registers),
          interrupts := MergedIrqs(base.interrupts, proposal.interrupts))
  }

  function IdentityRemarks(base: Ir, proposal: Ir): seq<Remark> {
    (if proposal.device != "" && proposal.device != base.device then [OtherDevice(proposal.device)] else [])
    + (if proposal.bus != OtherBus("") && proposal.bus != base.bus then [OtherBusKind(proposal.bus)] else [])
    + (if proposal.mmioSize != 0 && proposal.mmioSize != base.mmioSize then [OtherSize(proposal.mmioSize)] else [])
  }

  function Doubts(notes: seq<string>): seq<Remark> {
    if notes == [] then []
    else
      var last := TrimSpace(notes[|notes| - 1]);
      Doubts(notes[..|notes| - 1]) + (if last != "" then [Doubt(last)] else [])
  }

  function Remarks(base: Ir, proposal: Ir): seq<Remark> {
    IdentityRemarks(base, proposal) + AbsorbAllRemarks(base.registers, proposal.registers)
    + IrqRemarks(base.interrupts, proposal.interrupts) + Doubts(proposal.notes)
  }

  // ----- The merge as it is performed

  /** mergeRegister writes through a pointer into the copied register slice. */
  method MergeRegister(registers: array<Register>, position: nat, c: Register) returns (remarks: seq<Remark>)
    requires position < registers.Length
    modifies registers
    ensures registers[..] == old(registers[..])[position := MergedRegister(old(registers[position]), c)]
    ensures remarks == RegisterRemarks(old(registers[position]), c)
  {
    hide ToLower, TrimSpace, FitsWidth;
    var t := registers[position];
    remarks := [];
    if c.access != OtherAccess("") && c.access != t.access {
      remarks := remarks + [OtherAccessMode(t.name, c.access)];
    }
    if t.reset.None? && c.reset.Some? {
      if FitsWidth(c.reset.value, t.width) {
        registers[position] := registers[position].(reset := c.reset);
      } else {
        remarks := remarks + [WideReset(t.name)];
      }
    } else if t.reset.Some? && c.reset.Some? && c.reset.value != t.reset.value {
      remarks := remarks + [OtherReset(t.name)];
    }
    if TrimSpace(t.effect) == "" && TrimSpace(c.effect) != "" {
      registers[position] := registers[position].(effect := c.effect);
    }
    if |t.fields| == 0 && |c.fields| > 0 {
      registers[position] := registers[position].(fields := c.fields);
      return;
    }
    var fields := FillDescriptions(t.fields, c.fields);
    registers[position] := registers[position].(fields := fields);
  }

  method FillDescriptions(fields: seq<Field>, proposed: seq<Field>) returns (out: seq<Field>)
    ensures out == Described(fields, Fill(NamesOf(fields), TextsOf(fields), Offers(proposed)))
  {
    hide ToLower, TrimSpace;
    ghost var texts := TextsOf(fields);
    out := fields;
    assert Offers(proposed)[..0] == [];
    for i := 0 to |proposed|
      invariant texts == Fill(NamesOf(fields), TextsOf(fields), Offers(proposed)[..i])
      invariant out == Described(fields, texts)
    {
      assert Offers(proposed)[..i + 1][..i] == Offers(proposed)[..i];
      var position := LastAt(NamesOf(out), ToLower(proposed[i].name));
      assert NamesOf(out) == NamesOf(fields);
      texts := FillOne(NamesOf(fields), texts, ToLower(proposed[i].name), proposed[i].description);
      if position.Some? && TrimSpace(out[position.value].description) == "" {
        out := out[position.value := out[position.value].(description := proposed[i].description)];
      }
    }
    assert Offers(proposed)[..|proposed|] == Offers(proposed);
  }

  method MergeInterrupts(irqs: seq<Irq>, proposed: seq<Irq>) returns (out: seq<Irq>, remarks: seq<Remark>)
    ensures out == MergedIrqs(irqs, proposed) && remarks == IrqRemarks(irqs, proposed)
  {
    hide TrimSpace, ToLower, LastAt;
    if |proposed| == 0 {
      assert |irqs| > 0 ==> MergedIrqs(irqs, proposed) == irqs;
      return irqs, [];
    }
    if |irqs| == 0 {
      return proposed, [];
    }
    ghost var offers := Zip(IndicesOf(proposed), IrqTexts(proposed));
    ghost var texts := IrqTexts(irqs);
    out, remarks := irqs, [];
    assert offers[..0] == [];
    for i := 0 to |proposed|
      invariant texts == Fill(IndicesOf(irqs), IrqTexts(irqs), offers[..i])
      invariant out == DescribedIrqs(irqs, texts)
      invariant remarks == IrqRemarks(irqs, proposed[..i])
    {
      assert offers[..i + 1][..i] == offers[..i] && proposed[..i + 1][..i] == proposed[..i];
      assert IndicesOf(out) == IndicesOf(irqs);
      var position := LastAt(IndicesOf(out), proposed[i].index);
      texts := FillOne(IndicesOf(irqs), texts, proposed[i].index, proposed[i].description);
      if position.None? {
        remarks := remarks + [ExtraInterrupt(proposed[i].index)];
      } else if TrimSpace(out[position.value].description) == "" {
        out := out[position.value := out[position.value].(description := proposed[i].description)];
      }
    }
    assert offers[..|proposed|] == offers && proposed[..|proposed|] == proposed;
  }

  lemma MergeKeepsKeys(registers: seq<Register>, p: nat, c: Register)
    requires p < |registers|
    ensures RegisterKeys(registers[p := MergedRegister(registers[p], c)]) == RegisterKeys(registers)
  {
    hide ToLower, MergedFields, MergedReset, MergedEffect;
  }

  /** The pass over the proposed registers, on the copied slice. */
  method MergeRegisters(registers: array<Register>, proposed: seq<Register>) returns (remarks: seq<Remark>)
    modifies registers
    ensures registers[..] == AbsorbAll(old(registers[..]), proposed)
    ensures remarks == AbsorbAllRemarks(old(registers[..]), proposed)
  {
    hide ToLower, MergedRegister, RegisterRemarks, SamePlace;
    ghost var base := registers[..];
    var index := RegisterKeys(registers[..]);
    remarks := [];
    for i := 0 to |proposed|
      invariant registers[..] == AbsorbAll(base, proposed[..i])
      invariant RegisterKeys(registers[..]) == index
      invariant remarks == AbsorbAllRemarks(base, proposed[..i])
    {
      assert proposed[..i + 1][..i] == proposed[..i];
      var c := proposed[i];
      var position := LastAt(index, ToLower(c.name));
      if position.None? {
        remarks := remarks + [UnseenRegister(c.name)];
      } else if !SamePlace(registers[position.value], c) {
        remarks := remarks + [MovedRegister(registers[position.value].name)];
      } else {
        MergeKeepsKeys(registers[..], position.value, c);
        var more := MergeRegister(registers, position.value, c);
        remarks := remarks + more;
      }
    }
    assert proposed[..|proposed|] == proposed;
  }

  method CollectDoubts(notes: seq<string>) returns (remarks: seq<Remark>)
    ensures remarks == Doubts(notes)
  {
    hide TrimSpace;
    remarks := [];
    for i := 0 to |notes|
      invariant remarks == Doubts(notes[..i])
    {
      assert notes[..i + 1][..i] == notes[..i];
      var trimmed := TrimSpace(notes[i]);
      if trimmed != "" {
        remarks := remarks + [Doubt(trimmed)];
      }
    }
    assert notes[..|notes|] == notes;
  }

  /** mergeInferred: total, and exactly the fill-the-holes function. */
  method MergeInferred(base: Ir, proposal: Ir) returns (merged: Ir, remarks: seq<Remark>)
    ensures merged == Merged(base, proposal)
    ensures remarks == Remarks(base, proposal)
  {
    hide AbsorbAll, AbsorbAllRemarks, MergedIrqs, IrqRemarks, Doubts, IdentityRemarks;
    var registers := new Register[|base.registers|](i requires 0 <= i < |base.registers| => base.registers[i]);
    assert registers[..] == base.registers;
    remarks := IdentityRemarks(base, proposal);
    var more := MergeRegisters(registers, proposal.registers);
    var interrupts, extra := MergeInterrupts(base.interrupts, proposal.interrupts);
    var doubts := CollectDoubts(proposal.notes);
    remarks := remarks + more + extra + doubts;
    merged := base.(registers := registers[..], interrupts := interrupts);
  }
}
