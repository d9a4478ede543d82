/** What a rendered file holds for each register of the map, wherever it stands in the file. */
module RenderedRegisters {
  import opened Common
  import opened RegIr
  import opened Bits
  import opened FieldMasks
  import opened Sorting
  import opened Renderer

  /** Position i of every part of the file is about this register. */
  predicate StandsAt(src: Source, i: nat, r: Register) {
    && i < |src.macros| && |src.macros| == |src.members| == |src.migrated|
    && |src.macros| == |src.readCases| == |src.writeCases| == |src.resets|
    // its macros: the offset, and shift and mask of every field
    && src.macros[i].name == ToUpper(r.name) && src.macros[i].offset == r.offset && src.macros[i].width == r.width
    && src.macros[i].access == r.access && |src.macros[i].fields| == |r.fields|
    && (forall k | 0 <= k < |r.fields| ::
          && src.macros[i].fields[k].name == ToUpper(r.fields[k].name)
          && src.macros[i].fields[k].shift == r.fields[k].bit
          && Extracts(src.macros[i].fields[k], r.fields[k]))
    // its storage, in the struct and in the migration description
    && src.members[i].width == r.width && src.migrated[i] == src.members[i]
    // its cases, at its offset; a documented side effect leaves a note where the case can have one
    && src.readCases[i].address == r.offset && src.writeCases[i].address == r.offset
    && (src.writeCases[i].todo <==> !r.access.RO? && !r.access.Rsvd? && TrimSpace(r.effect) != "")
    // its reset, marked where it is not documented
    && src.resets[i].name == src.members[i].name && (src.resets[i].documented <==> r.reset.Some?)
    && src.resets[i].value == match r.reset case Some(v) => v case None => 0
  }

  predicate IsSomeRegister(src: Source, i: nat, registers: seq<Register>) {
    exists r :: r in registers && StandsAt(src, i, r)
  }

  /** The macros take the field out of a register's value: what is masked and shifted is the field's bits. */
  predicate Extracts(m: FieldMacro, f: Field) {
    f.bit >= 0 && f.width >= 0
    && forall k | 0 <= k < 64 :: BitOf(m.mask, k) <==> f.bit <= k < f.bit + f.width
  }

  lemma MacroExtracts(f: Field, width: int)
    requires LegalField(f, width) && LegalWidth(width)
    ensures Extracts(FieldMacroOf(f), f)
  {
    hide BitOf, IsSymbol, ToUpper;
    forall k | 0 <= k < 64 ensures BitOf(FieldMask(f), k) <==> f.bit <= k < f.bit + f.width {
      MaskBits(f, width, k);
    }
  }

  /** Every register of a legal map stands at exactly one place of the file, and every place is some register's. */
  lemma EveryRegisterIsRendered(ir: Ir, src: Source)
    requires Legal(ir) && IsRendered(src, ir)
    ensures |src.macros| == |ir.registers|
    ensures forall r | r in ir.registers :: exists i: nat :: StandsAt(src, i, r)
    ensures forall i | 0 <= i < |src.macros| :: IsSomeRegister(src, i, ir.registers)
    ensures forall i, k | 0 <= i < k < |src.macros| :: src.macros[i].offset < src.macros[k].offset
    ensures src.nothingDocumented <==> forall r | r in ir.registers :: r.reset.None?
    ensures |src.irqs| == |ir.interrupts| && forall i | 0 <= i < |src.irqs| :: src.irqs[i] == ToLower(ir.interrupts[i].name)
    ensures src.mmioSize == ir.mmioSize && src.bus == ir.bus && src.notes == ir.notes && src.device == ToLower(ir.device)
  {
    hide StandsAt, Legal, ToLower, IsWidest, MemberOf, IsSourceOf, IsAddressOrder;
    var sorted: seq<Register> :| IsAddressOrder(sorted, ir.registers) && FieldsNonNegative(sorted) && IsSourceOf(src, ir, sorted);
    OrderOfOffsets(ir, sorted);
    WholeFile(src, ir, sorted);
    forall i | 0 <= i < |sorted| ensures StandsAt(src, i, sorted[i]) && IsSomeRegister(src, i, ir.registers) {
      assert sorted[i] in ir.registers;
      RegisterStands(src, ir, sorted, i);
    }
    forall r | r in ir.registers ensures exists i: nat :: StandsAt(src, i, r) {
      var i :| 0 <= i < |sorted| && sorted[i] == r;
      assert StandsAt(src, i, r);
    }
    forall i | 0 <= i < |src.macros| ensures src.macros[i].offset == sorted[i].offset {
      OffsetOfMacro(src, i, sorted[i]);
    }
  }

  lemma OffsetOfMacro(src: Source, i: nat, r: Register)
    requires StandsAt(src, i, r)
    ensures src.macros[i].offset == r.offset
  {
  }

  lemma OrderOfOffsets(ir: Ir, sorted: seq<Register>)
    requires Legal(ir) && IsAddressOrder(sorted, ir.registers)
    ensures |sorted| == |ir.registers| && forall r :: r in sorted <==> r in ir.registers
    ensures forall i, k | 0 <= i < k < |sorted| :: sorted[i].offset < sorted[k].offset
  {
    hide LegalIdentity, LegalIrqs;
    LegalOffsetsDiffer(ir.registers, ir.mmioSize);
    assert Distinct(ir.registers) by { RegistersDiffer(ir.registers, ir.mmioSize); }
    hide LegalMap, ToUpper;
    SortingElements(sorted, ir.registers, NoHigher);
    SortingDistinct(sorted, ir.registers, NoHigher);
    forall i, k | 0 <= i < k < |sorted| ensures sorted[i].offset < sorted[k].offset {
      assert sorted[i] in ir.registers && sorted[k] in ir.registers && sorted[i] != sorted[k];
      assert NoHigher(sorted[i], sorted[k]);
    }
  }

  lemma RegistersDiffer(registers: seq<Register>, mmioSize: int)
    requires LegalMap(registers, mmioSize)
    ensures Distinct(registers)
  {
    hide ToUpper, LegalRegister;
  }

  lemma WholeFile(src: Source, ir: Ir, sorted: seq<Register>)
    requires FieldsNonNegative(sorted) && IsSourceOf(src, ir, sorted) && forall r :: r in sorted <==> r in ir.registers
    ensures |src.macros| == |sorted|
    ensures src.nothingDocumented <==> forall r | r in ir.registers :: r.reset.None?
    ensures |src.irqs| == |ir.interrupts| && forall i | 0 <= i < |src.irqs| :: src.irqs[i] == ToLower(ir.interrupts[i].name)
    ensures src.mmioSize == ir.mmioSize && src.bus == ir.bus && src.notes == ir.notes && src.device == ToLower(ir.device)
  {
    hide ToLower, MemberOf, IsWidest;
  }

  lemma RegisterStands(src: Source, ir: Ir, sorted: seq<Register>, i: nat)
    requires Legal(ir) && FieldsNonNegative(sorted) && IsSourceOf(src, ir, sorted) && i < |sorted|
    requires sorted[i] in ir.registers
    ensures StandsAt(src, i, sorted[i])
  {
    var r := sorted[i];
    assert LegalRegister(r, ir.mmioSize);
    hide ToUpper, ToLower, MemberOf, IsWidest, TrimSpace, Extracts, FieldMask, LegalMap, LegalIdentity, IsSymbol;
    assert src.macros[i] == MacroAt(sorted, i) == MacroOf(r);
    forall k | 0 <= k < |r.fields| ensures Extracts(FieldMacroOf(r.fields[k]), r.fields[k]) {
      assert r.fields[k] in r.fields;
      MacroExtracts(r.fields[k], r.width);
    }
  }
}
