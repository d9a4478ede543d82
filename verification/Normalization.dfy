/** Normalize, the one operation that changes a decoded representation: it touches prose, and trims and
    folds names. Together with the merge it makes up the infer stage. */
module Normalization {
  import opened Common
  import opened RegIr
  import opened Prose
  import opened Merge
  import opened MergeLaws

  function CanonicalAccess(text: string): Access {
    if text == "ro" then RO
    else if text == "wo" then WO
    else if text == "rw" then RW
    else if text == "w1c" then W1C
    else if text == "rsvd" then Rsvd
    else OtherAccess(text)
  }

  function NormalAccess(a: Access): Access {
    match a
    case OtherAccess(text) => CanonicalAccess(ToLower(TrimSpace(text)))
    case _ => a
  }

  function NormalBus(b: Bus): Bus {
    match b
    case OtherBus(text) =>
      var folded := ToLower(TrimSpace(text));
      if folded == "sysbus" then Sysbus else if folded == "pci" then Pci else OtherBus(folded)
    case _ => b
  }

  function NormalField(f: Field): Field {
    f.(name := TrimSpace(f.name), description := Clamp(f.description, MAX_NOTE_BYTES).0)
  }

  function NormalFields(fields: seq<Field>): (r: seq<Field>)
    ensures |r| == |fields| && forall i | 0 <= i < |r| :: r[i] == NormalField(fields[i])
  {
    seq(|fields|, i requires 0 <= i < |fields| => NormalField(fields[i]))
  }

  function NormalRegister(r: Register): Register {
    r.(name := TrimSpace(r.name), access := NormalAccess(r.access),
       effect := Clamp(r.effect, MAX_EFFECT_BYTES).0, fields := NormalFields(r.fields))
  }

  function NormalRegisters(registers: seq<Register>): (r: seq<Register>)
    ensures |r| == |registers| && forall i | 0 <= i < |r| :: r[i] == NormalRegister(registers[i])
  {
    seq(|registers|, i requires 0 <= i < |registers| => NormalRegister(registers[i]))
  }

  function NormalIrq(q: Irq): Irq {
    q.(name := TrimSpace(q.name), description := Clamp(q.description, MAX_NOTE_BYTES).0)
  }

  function NormalIrqs(irqs: seq<Irq>): (r: seq<Irq>)
    ensures |r| == |irqs| && forall i | 0 <= i < |r| :: r[i] == NormalIrq(irqs[i])
  {
    seq(|irqs|, i requires 0 <= i < |irqs| => NormalIrq(irqs[i]))
  }

  function EffectCuts(registers: seq<Register>): seq<string> {
    if registers == [] then []
    else
      var last := registers[|registers| - 1];
      EffectCuts(registers[..|registers| - 1])
      + (if Clamp(last.effect, MAX_EFFECT_BYTES).1 then [EffectCut(TrimSpace(last.name))] else [])
  }

  function KeptNotes(notes: seq<string>): seq<string> {
    if notes == [] then []
    else
      var last := Clamp(notes[|notes| - 1], MAX_NOTE_BYTES).0;
      KeptNotes(notes[..|notes| - 1]) + (if last != "" then [last] else [])
  }

  function BoundedNotes(notes: seq<string>): (r: seq<string>)
    ensures |r| <= MAX_NOTES
  {
    if |notes| <= MAX_NOTES then notes
    else notes[..MAX_NOTES - 1] + [NotesDropped(|notes| - MAX_NOTES + 1)]
  }

  function Normal(ir: Ir): Ir {
    Ir(ToLower(TrimSpace(ir.device)), NormalBus(ir.bus), ir.mmioSize, NormalRegisters(ir.registers),
       NormalIrqs(ir.interrupts), BoundedNotes(KeptNotes(ir.notes) + EffectCuts(ir.registers)))
  }

  // ----- As it is performed, in place

  method NormalizeRegisters(registers: array<Register>) returns (added: seq<string>)
    modifies registers
    ensures registers[..] == NormalRegisters(old(registers[..]))
    ensures added == EffectCuts(old(registers[..]))
  {
    hide TrimSpace, Clamp, NormalAccess;
    added := [];
    for i := 0 to registers.Length
      invariant forall k | 0 <= k < i :: registers[k] == NormalRegister(old(registers[k]))
      invariant forall k | i <= k < registers.Length :: registers[k] == old(registers[k])
      invariant added == EffectCuts(old(registers[..i]))
    {
      assert old(registers[..i + 1])[..i] == old(registers[..i]);
      var r := registers[i];
      var (effect, cut) := Clamp(r.effect, MAX_EFFECT_BYTES);
      if cut {
        added := added + [EffectCut(TrimSpace(r.name))];
      }
      var fields := r.fields;
      for j := 0 to |fields|
        invariant |fields| == |r.fields|
        invariant forall k | 0 <= k < j :: fields[k] == NormalField(r.fields[k])
        invariant forall k | j <= k < |fields| :: fields[k] == r.fields[k]
      {
        fields := fields[j := NormalField(fields[j])];
      }
      assert fields == NormalFields(r.fields);
      registers[i] := r.(name := TrimSpace(r.name), access := NormalAccess(r.access), effect := effect, fields := fields);
    }
    assert old(registers[..registers.Length]) == old(registers[..]);
    assert registers[..] == NormalRegisters(old(registers[..]));
  }

  method NormalizeNotes(notes: seq<string>, added: seq<string>) returns (out: seq<string>)
    ensures out == BoundedNotes(KeptNotes(notes) + added)
  {
    hide Clamp;
    out := [];
    for i := 0 to |notes|
      invariant out == KeptNotes(notes[..i])
    {
      assert notes[..i + 1][..i] == notes[..i];
      var trimmed := Clamp(notes[i], MAX_NOTE_BYTES).0;
      if trimmed != "" {
        out := out + [trimmed];
      }
    }
    assert notes[..|notes|] == notes;
    out := out + added;
    if |out| > MAX_NOTES {
      out := out[..MAX_NOTES - 1] + [NotesDropped(|out| - MAX_NOTES + 1)];
    }
  }

  method Normalize(ir: Ir) returns (out: Ir, added: seq<string>)
    ensures out == Normal(ir) && added == EffectCuts(ir.registers)
  {
    hide NormalBus, TrimSpace, ToLower, KeptNotes, EffectCuts, NormalRegister;
    var registers := new Register[|ir.registers|](i requires 0 <= i < |ir.registers| => ir.registers[i]);
    assert registers[..] == ir.registers;
    added := NormalizeRegisters(registers);
    var notes := NormalizeNotes(ir.notes, added);
    out := Ir(ToLower(TrimSpace(ir.device)), NormalBus(ir.bus), ir.mmioSize, registers[..],
              NormalIrqs(ir.interrupts), notes);
  }

  // ----- The infer stage

  function TextsOfRemarks(remarks: seq<Remark>): seq<string> {
    seq(|remarks|, i requires 0 <= i < |remarks| => RemarkText(remarks[i]))
  }

  /** What the stage validates: the base merged with the normalized proposal, and normalized. */
  function Inferred(base: Ir, reply: Ir): Ir {
    var proposal := Normal(reply);
    var merged := Merged(base, proposal);
    Normal(merged.(notes := merged.notes + TextsOfRemarks(Remarks(base, proposal))))
  }

  // Names that are already legal stay as they are

  lemma SymbolIsTrimmed(s: string)
    requires IsSymbol(s)
    ensures TrimSpace(s) == s
  {
    assert Trimmed(s);
    TrimSpaceTrims(s);
  }

  lemma DeviceIsNormal(s: string)
    requires IsDevice(s)
    ensures ToLower(TrimSpace(s)) == s
  {
    assert Trimmed(s);
    TrimSpaceTrims(s);
    assert forall i | 0 <= i < |s| :: Lower(s[i]) == s[i];
  }

  predicate ResetFits(r: Register) {
    r.reset.Some? && LegalWidth(r.width) ==> r.reset.value < Pow2(r.width)
  }

  lemma FittingReset(reset: U64, width: I64)
    requires FitsWidth(reset, width) && LegalWidth(width)
    ensures reset < Pow2(width)
  {
    if width == 64 {
      Pow2Of64();
    } else {
      hide Pow2;
      assert reset / Pow2(width) == 0;
    }
  }

  lemma {:induction false} ResetsFit(registers: seq<Register>, proposed: seq<Register>)
    requires forall r | r in registers :: ResetFits(r)
    ensures forall r | r in AbsorbAll(registers, proposed) :: ResetFits(r)
  {
    hide Pow2, FitsWidth, ToLower, MergedFields, MergedEffect, LegalWidth;
    if proposed != [] {
      var front, last := proposed[..|proposed| - 1], proposed[|proposed| - 1];
      ResetsFit(registers, front);
      AbsorbedResetsFit(AbsorbAll(registers, front), last);
    }
  }

  lemma AbsorbedResetsFit(registers: seq<Register>, c: Register)
    requires forall r | r in registers :: ResetFits(r)
    ensures forall r | r in Absorb(registers, c) :: ResetFits(r)
  {
    hide Pow2, FitsWidth, ToLower, MergedFields, MergedEffect, LegalWidth;
    forall r | r in Absorb(registers, c) ensures ResetFits(r) {
      var i :| 0 <= i < |registers| && Absorb(registers, c)[i] == r;
      assert registers[i] in registers;
      if r.reset != registers[i].reset && LegalWidth(r.width) {
        FittingReset(c.reset.value, r.width);
      }
    }
  }

  /** The head of a register is legal after the stage if it was before. */
  lemma HeadStaysLegal(b: Register, m: Register, mmioSize: int)
    requires LegalHead(b, mmioSize) && KeepsRegister(b, m) && ResetFits(m)
    ensures LegalHead(NormalRegister(m), mmioSize)
    ensures var n := NormalRegister(m);
            n.name == b.name && n.offset == b.offset && n.width == b.width && n.access == b.access && n.reset == m.reset
  {
    hide TrimSpace, Clamp, Pow2, IsSymbol, CanonicalAccess;
    SymbolIsTrimmed(b.name);
  }

  /** A field block whose layout the base gave stays legal. */
  lemma FieldsStayLegal(b: seq<Field>, m: seq<Field>, width: int)
    requires LegalFields(b, width) && SameLayout(b, m)
    ensures LegalFields(NormalFields(m), width)
  {
    hide TrimSpace, Clamp, IsSymbol, ToUpper;
    var n := NormalFields(m);
    forall i | 0 <= i < |n| ensures n[i].name == b[i].name && LegalField(n[i], width) {
      assert b[i] in b;
      SymbolIsTrimmed(b[i].name);
    }
    forall i, j | 0 <= i < j < |n| ensures FieldsApart(n[i], n[j]) {
      assert FieldsApart(b[i], b[j]);
    }
  }

  /** The stage left a register's field block to the proposal. */
  predicate AdoptsFields(base: Ir, i: nat) {
    i < |base.registers| && base.registers[i].fields == []
  }

  /** After infer a legal base can fail validation only through a field block it had left open or
      through the interrupt list, if it had none: exactly when one of those is illegal. */
  lemma OnlyAdoptedPartsCanFail(base: Ir, reply: Ir)
    requires Legal(base)
    ensures var n := Inferred(base, reply);
            && |n.registers| == |base.registers|
            && (Legal(n) <==>
                && (forall i: nat | AdoptsFields(base, i) :: LegalFields(n.registers[i].fields, base.registers[i].width))
                && (base.interrupts == [] ==> LegalIrqs(n.interrupts)))
  {
    hide AbsorbAll, Remarks, KeptNotes, EffectCuts, IsDevice, IsPow2, LegalHead, LegalFields, NormalRegister,
      KeepsRegister, LegalIrqs, BoundedNotes, TrimSpace, ToLower, ToUpper, MergedIrqs, ResetFits;
    var proposal := Normal(reply);
    var m := Merged(base, proposal);
    var n := Inferred(base, reply);
    MergeKeepsFindings(base, proposal);
    DeviceIsNormal(base.device);
    BaseResetsFit(base);
    ResetsFit(base.registers, proposal.registers);
    forall i | 0 <= i < |n.registers|
      ensures LegalHead(n.registers[i], n.mmioSize) && SameSpot(base.registers[i], n.registers[i])
      ensures LegalRegister(n.registers[i], n.mmioSize) <==>
              (AdoptsFields(base, i) ==> LegalFields(n.registers[i].fields, base.registers[i].width))
    {
      assert base.registers[i] in base.registers && m.registers[i] in m.registers;
      assert LegalRegister(base.registers[i], base.mmioSize);
      RegisterStaysLegal(base.registers[i], m.registers[i], base.mmioSize);
    }
    MapStaysLegal(base.registers, n.registers, base.mmioSize);
    IrqsStayLegal(base, m, n);
  }

  predicate SameSpot(b: Register, n: Register) {
    n.name == b.name && n.offset == b.offset && n.width == b.width
  }

  lemma BaseResetsFit(base: Ir)
    requires Legal(base)
    ensures forall r | r in base.registers :: ResetFits(r)
  {
    hide Pow2, IsSymbol, LegalFields, IsDevice, IsPow2, ToUpper;
    forall r | r in base.registers ensures ResetFits(r) {
      assert LegalRegister(r, base.mmioSize);
    }
  }

  lemma RegisterStaysLegal(b: Register, m: Register, mmioSize: int)
    requires LegalRegister(b, mmioSize) && KeepsRegister(b, m) && ResetFits(m)
    ensures var n := NormalRegister(m);
            && LegalHead(n, mmioSize) && SameSpot(b, n)
            && (LegalRegister(n, mmioSize) <==> (b.fields == [] ==> LegalFields(n.fields, b.width)))
  {
    hide LegalHead, LegalFields, SameLayout, TrimSpace, Clamp, ResetFits, NormalAccess;
    HeadStaysLegal(b, m, mmioSize);
    if b.fields != [] {
      FieldsStayLegal(b.fields, m.fields, b.width);
    }
  }

  lemma MapStaysLegal(b: seq<Register>, n: seq<Register>, mmioSize: int)
    requires LegalMap(b, mmioSize) && |n| == |b|
    requires forall i | 0 <= i < |b| :: SameSpot(b[i], n[i])
    ensures LegalMap(n, mmioSize) <==> forall i | 0 <= i < |n| :: LegalRegister(n[i], mmioSize)
  {
    hide LegalRegister, ToUpper;
    assert forall i | 0 <= i < |n| :: n[i] in n;
    forall i, j | 0 <= i < j < |n| ensures RegistersApart(n[i], n[j]) {
      assert RegistersApart(b[i], b[j]);
    }
  }

  lemma IrqsStayLegal(base: Ir, m: Ir, n: Ir)
    requires LegalIrqs(base.interrupts) && (base.interrupts != [] ==> SameLines(base.interrupts, m.interrupts))
    requires n.interrupts == NormalIrqs(m.interrupts)
    ensures base.interrupts != [] ==> LegalIrqs(n.interrupts)
  {
    hide TrimSpace, Clamp, IsSymbol;
    if base.interrupts != [] {
      forall i | 0 <= i < |n.interrupts|
        ensures n.interrupts[i].name == base.interrupts[i].name && n.interrupts[i].index == base.interrupts[i].index
      {
        assert base.interrupts[i] in base.interrupts;
        SymbolIsTrimmed(base.interrupts[i].name);
      }
    }
  }

  // ----- Any number of infer runs

  /** Each reply is inferred from the current representation; a result that was not accepted leaves it. */
  function InferRuns(base: Ir, runs: seq<(Ir, bool)>): Ir {
    if runs == [] then base
    else
      var current := InferRuns(base, runs[..|runs| - 1]);
      if runs[|runs| - 1].1 then Inferred(current, runs[|runs| - 1].0) else current
  }

  function ClampTimes(s: string, n: nat): string {
    if n == 0 then s else Clamp(ClampTimes(s, n - 1), MAX_EFFECT_BYTES).0
  }

  ghost predicate StillDescribes(b: Register, m: Register) {
    && m.name == b.name && m.offset == b.offset && m.width == b.width && m.access == b.access
    && (b.reset.Some? ==> m.reset == b.reset)
    && (TrimSpace(b.effect) != "" ==> TrimSpace(m.effect) != "" && exists n: nat :: m.effect == ClampTimes(b.effect, n))
    && (b.fields != [] ==> SameLayout(b.fields, m.fields))
  }

  ghost predicate Describes(base: Ir, m: Ir) {
    && m.device == base.device && m.bus == base.bus && m.mmioSize == base.mmioSize
    && |m.registers| == |base.registers|
    && (forall i | 0 <= i < |base.registers| :: StillDescribes(base.registers[i], m.registers[i]))
    && (base.interrupts != [] ==> SameLines(base.interrupts, m.interrupts))
  }

  lemma RegisterInferred(b: Register, t: Register, m: Register)
    requires IsSymbol(b.name) && !b.access.OtherAccess? && (forall f | f in b.fields :: IsSymbol(f.name))
    requires StillDescribes(b, t) && KeepsRegister(t, m)
    ensures StillDescribes(b, NormalRegister(m))
  {
    hide TrimSpace, Clamp, IsSymbol, CanonicalAccess;
    SymbolIsTrimmed(b.name);
    if TrimSpace(b.effect) != "" {
      var n: nat :| t.effect == ClampTimes(b.effect, n);
      assert NormalRegister(m).effect == ClampTimes(b.effect, n + 1);
      ClampBlank(m.effect, MAX_EFFECT_BYTES);
    }
    if b.fields != [] {
      forall i | 0 <= i < |b.fields| ensures NormalFields(m.fields)[i].name == b.fields[i].name {
        assert b.fields[i] in b.fields;
        SymbolIsTrimmed(b.fields[i].name);
      }
    }
  }

  lemma InferredDescribes(base: Ir, current: Ir, reply: Ir)
    requires Legal(base) && Describes(base, current)
    ensures Describes(base, Inferred(current, reply))
  {
    hide AbsorbAll, Remarks, KeptNotes, EffectCuts, IsDevice, IsPow2, NormalRegister, KeepsRegister, LegalIrqs,
      BoundedNotes, TrimSpace, ToLower, ToUpper, MergedIrqs, StillDescribes, LegalField, FieldsApart;
    var m := Merged(current, Normal(reply));
    MergeKeepsFindings(current, Normal(reply));
    DeviceIsNormal(base.device);
    forall i | 0 <= i < |base.registers| ensures StillDescribes(base.registers[i], NormalRegister(m.registers[i])) {
      assert base.registers[i] in base.registers;
      LegalNames(base.registers[i], base.mmioSize);
      RegisterInferred(base.registers[i], current.registers[i], m.registers[i]);
    }
    if base.interrupts != [] {
      LinesInferred(base.interrupts, current.interrupts, m.interrupts);
    }
  }

  lemma LegalNames(r: Register, mmioSize: int)
    requires LegalRegister(r, mmioSize)
    ensures IsSymbol(r.name) && !r.access.OtherAccess? && (forall f | f in r.fields :: IsSymbol(f.name))
  {
    hide Pow2, ToUpper, IsSymbol;
  }

  lemma LinesInferred(b: seq<Irq>, t: seq<Irq>, m: seq<Irq>)
    requires LegalIrqs(b) && SameLines(b, t) && SameLines(t, m)
    ensures SameLines(b, NormalIrqs(m))
  {
    hide TrimSpace, Clamp, IsSymbol;
    forall i | 0 <= i < |b| ensures NormalIrqs(m)[i].name == b[i].name {
      assert b[i] in b;
      SymbolIsTrimmed(b[i].name);
    }
  }

  /** Over any number of infer runs on arbitrary replies, accepted or not: the identity, the address
      map, the access modes, and every reset value, field layout and interrupt line the base had are
      as they were, and a documented effect is at most clamped. */
  lemma {:induction false} InferNeverRewrites(base: Ir, runs: seq<(Ir, bool)>)
    requires Legal(base)
    ensures Describes(base, InferRuns(base, runs))
  {
    hide Legal, Inferred, Describes;
    if runs == [] {
      DescribesItself(base);
    } else {
      InferNeverRewrites(base, runs[..|runs| - 1]);
      InferredDescribes(base, InferRuns(base, runs[..|runs| - 1]), runs[|runs| - 1].0);
    }
  }

  lemma DescribesItself(base: Ir)
    ensures Describes(base, base)
  {
    hide TrimSpace;
    forall i | 0 <= i < |base.registers| ensures StillDescribes(base.registers[i], base.registers[i]) {
      assert base.registers[i].effect == ClampTimes(base.registers[i].effect, 0);
    }
  }
}
