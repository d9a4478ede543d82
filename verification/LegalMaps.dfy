/** What a legal map is, said of its bytes and bits. */
module LegalMaps {
  import opened Common
  import opened RegIr

  /** The register occupies the byte of the window. */
  predicate Covers(r: Register, address: int) {
    r.offset <= address < r.offset + r.width / 8
  }

  /** The field occupies the bit of the register. */
  predicate Owns(f: Field, bit: int) {
    f.bit <= bit < f.bit + f.width
  }

  /** One register by itself: its name, width, mode and reset, aligned, and its fields named and inside it. */
  predicate SoundRegister(r: Register) {
    && IsSymbol(r.name) && (r.width == 8 || r.width == 16 || r.width == 32 || r.width == 64) && !r.access.OtherAccess?
    && r.offset % (r.width / 8) == 0
    && (r.reset.Some? ==> r.reset.value < Pow2(r.width))
    && |r.fields| <= 64
    && (forall f | f in r.fields :: IsSymbol(f.name) && f.width >= 1 && 0 <= f.bit && f.bit + f.width <= r.width)
  }

  lemma ApartIsDisjoint(a: Register, b: Register)
    requires a.width >= 8 && b.width >= 8
    ensures RegistersApart(a, b) <==> forall address: nat :: !(Covers(a, address) && Covers(b, address))
  {
    if !RegistersApart(a, b) {
      var address: nat := if a.offset < b.offset then b.offset else a.offset;
      assert Covers(a, address) && Covers(b, address);
    }
  }

  lemma FieldsApartIsDisjoint(a: Field, b: Field)
    requires a.width >= 1 && b.width >= 1 && a.bit >= 0 && b.bit >= 0
    ensures FieldsApart(a, b) <==> forall bit: nat :: !(Owns(a, bit) && Owns(b, bit))
  {
    if !FieldsApart(a, b) {
      var bit: nat := if a.bit < b.bit then b.bit else a.bit;
      assert Owns(a, bit) && Owns(b, bit);
    }
  }

  /** Every bit has at most one field, and no two fields go by one name, case ignored. */
  ghost predicate FieldsShareNothing(fields: seq<Field>) {
    forall i, j | 0 <= i < j < |fields| ::
      && ToUpper(fields[i].name) != ToUpper(fields[j].name)
      && forall bit: nat :: !(Owns(fields[i], bit) && Owns(fields[j], bit))
  }

  /** Every byte has at most one register, which lies in the window, and no two go by one name, case ignored. */
  ghost predicate RegistersShareNothing(registers: seq<Register>, mmioSize: int) {
    && (forall r | r in registers :: r.offset + r.width / 8 <= mmioSize)
    && forall i, j | 0 <= i < j < |registers| ::
         && ToUpper(registers[i].name) != ToUpper(registers[j].name)
         && forall address: nat :: !(Covers(registers[i], address) && Covers(registers[j], address))
  }

  lemma RegisterExactly(r: Register, mmioSize: int)
    ensures LegalRegister(r, mmioSize) <==>
              SoundRegister(r) && FieldsShareNothing(r.fields) && r.offset + r.width / 8 <= mmioSize
  {
    hide IsSymbol, Pow2, ToUpper;
    if forall f | f in r.fields :: LegalField(f, r.width) {
      forall i, j | 0 <= i < j < |r.fields|
        ensures FieldsApart(r.fields[i], r.fields[j]) <==> forall bit: nat :: !(Owns(r.fields[i], bit) && Owns(r.fields[j], bit))
      {
        assert r.fields[i] in r.fields && r.fields[j] in r.fields;
        FieldsApartIsDisjoint(r.fields[i], r.fields[j]);
      }
    }
  }

  /** A map is legal exactly if every register is sound by itself, each byte of the window belongs to at most one
      register and each bit of a register to at most one field, and no two names are the same where they are read. */
  lemma MapExactly(registers: seq<Register>, mmioSize: int)
    ensures LegalMap(registers, mmioSize) <==>
              && (forall r | r in registers :: SoundRegister(r) && FieldsShareNothing(r.fields))
              && RegistersShareNothing(registers, mmioSize)
  {
    hide LegalRegister, SoundRegister, FieldsShareNothing, ToUpper, RegistersApart, Covers;
    forall r: Register ensures LegalRegister(r, mmioSize) <==>
                                 SoundRegister(r) && FieldsShareNothing(r.fields) && r.offset + r.width / 8 <= mmioSize {
      RegisterExactly(r, mmioSize);
    }
    if forall r | r in registers :: SoundRegister(r) {
      forall i, j | 0 <= i < j < |registers|
        ensures RegistersApart(registers[i], registers[j]) <==>
                forall address: nat :: !(Covers(registers[i], address) && Covers(registers[j], address))
      {
        assert registers[i] in registers && registers[j] in registers;
        SoundWidth(registers[i]);
        SoundWidth(registers[j]);
        ApartIsDisjoint(registers[i], registers[j]);
      }
    }
  }

  lemma SoundWidth(r: Register)
    requires SoundRegister(r)
    ensures r.width >= 8
  {
    hide IsSymbol, Pow2;
  }

  /** The rest of a representation: its device name, bus and window, and at most 32 interrupts on lines of their own. */
  lemma LegalExactly(ir: Ir)
    ensures Legal(ir) <==>
              && LegalMap(ir.registers, ir.mmioSize)
              && IsDevice(ir.device) && (ir.bus == Sysbus || ir.bus == Pci)
              && (exists n: nat :: ir.mmioSize == Pow2(n))
              && 1 <= |ir.registers| <= 512 && |ir.notes| <= 64 && |ir.interrupts| <= 32
              && (forall q | q in ir.interrupts :: IsSymbol(q.name) && 0 <= q.index < 32)
              && (forall i, j | 0 <= i < j < |ir.interrupts| :: ir.interrupts[i].index != ir.interrupts[j].index)
  {
    hide LegalMap, IsDevice, IsSymbol, IsPow2, Pow2;
    PowersExactly(ir.mmioSize);
  }

  lemma {:induction false} PowersExactly(x: nat)
    ensures IsPow2(x) <==> exists n: nat :: x == Pow2(n)
  {
    if IsPow2(x) {
      if x == 1 {
        assert Pow2(0) == 1;
      } else {
        PowersExactly(x / 2);
        var n: nat :| x / 2 == Pow2(n);
        assert x == Pow2(n + 1);
      }
    }
    forall n: nat | x == Pow2(n) ensures IsPow2(x) {
      PowerIsPow2(n);
    }
  }

  lemma {:induction false} PowerIsPow2(n: nat)
    ensures IsPow2(Pow2(n))
  {
    if n > 0 {
      PowerIsPow2(n - 1);
    }
  }
}
