/** The preprocessor names of a generated file. The type, the window, the registers and the two macros of each
    field are all defined in one namespace, and the case labels are spelled with them. */
module Macros {
  import opened Common
  import opened RegIr
  import opened FieldMasks
  import opened Sorting
  import opened Renderer

  datatype Definition = TypeName(name: string) | Number(name: string, value: int)

  function Prefixed(device: string, rest: string): string {
    device + ("_" + rest)
  }

  /** The common part of the two macros of a field. */
  function BitName(m: Macro, k: nat): string
    requires k < |m.fields|
  {
    m.name + ("_" + m.fields[k].name)
  }

  const SHIFT := "_SHIFT"
  const MASK := "_MASK"

  function Suffix(i: nat): string {
    if i % 2 == 0 then SHIFT else MASK
  }

  /** The macros of a field are defined in turn: shift, then mask. */
  function FieldMacroName(m: Macro, i: nat): string
    requires i < 2 * |m.fields|
  {
    BitName(m, i / 2) + Suffix(i)
  }

  function FieldMacroValue(m: Macro, i: nat): int
    requires i < 2 * |m.fields|
  {
    if i % 2 == 0 then m.fields[i / 2].shift else m.fields[i / 2].mask
  }

  function DefinitionsOf(device: string, m: Macro): (r: seq<Definition>)
    ensures |r| == 1 + 2 * |m.fields| && r[0] == Number(Prefixed(device, m.name), m.offset)
    ensures forall i | 0 <= i < 2 * |m.fields| ::
              r[1 + i] == Number(Prefixed(device, FieldMacroName(m, i)), FieldMacroValue(m, i))
  {
    [Number(Prefixed(device, m.name), m.offset)]
    + seq(2 * |m.fields|, i requires 0 <= i < 2 * |m.fields| =>
          Number(Prefixed(device, FieldMacroName(m, i)), FieldMacroValue(m, i)))
  }

  function MacroDefinitions(device: string, macros: seq<Macro>): seq<Definition> {
    if macros == [] then []
    else MacroDefinitions(device, macros[..|macros| - 1]) + DefinitionsOf(device, macros[|macros| - 1])
  }

  const TYPE := "TYPE"
  const WINDOW := "MMIO_SIZE"

  /** All definitions of the file, in order. */
  function Definitions(src: Source): seq<Definition> {
    var device := ToUpper(src.device);
    [TypeName(TYPE + "_" + device), Number(Prefixed(device, WINDOW), src.mmioSize)]
    + MacroDefinitions(device, src.macros)
  }

  ghost predicate NamesDiffer(s: seq<Definition>) {
    forall i, j | 0 <= i < j < |s| :: s[i].name != s[j].name
  }

  ghost predicate Apart(a: seq<Definition>, b: seq<Definition>) {
    forall i, j | 0 <= i < |a| && 0 <= j < |b| :: a[i].name != b[j].name
  }

  // ----- Lists of definitions

  lemma NamesDifferConcat(a: seq<Definition>, b: seq<Definition>)
    ensures NamesDiffer(a + b) <==> NamesDiffer(a) && NamesDiffer(b) && Apart(a, b)
  {
    var s := a + b;
    if NamesDiffer(s) {
      forall i, j | 0 <= i < j < |b| ensures b[i].name != b[j].name {
        assert s[|a| + i] == b[i] && s[|a| + j] == b[j];
      }
      forall i, j | 0 <= i < |a| && 0 <= j < |b| ensures a[i].name != b[j].name {
        assert s[i] == a[i] && s[|a| + j] == b[j];
      }
      assert forall i | 0 <= i < |a| :: s[i] == a[i];
    }
  }

  lemma {:induction false} ApartFromAll(a: seq<Definition>, device: string, macros: seq<Macro>)
    ensures Apart(MacroDefinitions(device, macros), a) <==>
            forall k | 0 <= k < |macros| :: Apart(DefinitionsOf(device, macros[k]), a)
  {
    hide DefinitionsOf;
    if macros != [] {
      var front, last := macros[..|macros| - 1], macros[|macros| - 1];
      ApartFromAll(a, device, front);
      ApartConcat(MacroDefinitions(device, front), DefinitionsOf(device, last), a);
    }
  }

  lemma ApartConcat(a: seq<Definition>, b: seq<Definition>, c: seq<Definition>)
    ensures Apart(a + b, c) <==> Apart(a, c) && Apart(b, c)
  {
    var s := a + b;
    if Apart(s, c) {
      assert forall i | 0 <= i < |a| :: s[i] == a[i];
      assert forall i | 0 <= i < |b| :: s[|a| + i] == b[i];
    }
  }

  lemma ApartSymmetric(a: seq<Definition>, b: seq<Definition>)
    ensures Apart(a, b) <==> Apart(b, a)
  {
  }

  lemma {:induction false} AllDiffer(device: string, macros: seq<Macro>)
    ensures NamesDiffer(MacroDefinitions(device, macros)) <==>
            && (forall k | 0 <= k < |macros| :: NamesDiffer(DefinitionsOf(device, macros[k])))
            && (forall i, k | 0 <= i < k < |macros| ::
                  Apart(DefinitionsOf(device, macros[i]), DefinitionsOf(device, macros[k])))
  {
    hide DefinitionsOf, NamesDiffer, Apart;
    if macros == [] {
      assert NamesDiffer([]) by { NothingDiffers(); }
    } else {
      var front, last := macros[..|macros| - 1], macros[|macros| - 1];
      AllDiffer(device, front);
      NamesDifferConcat(MacroDefinitions(device, front), DefinitionsOf(device, last));
      ApartFromAll(DefinitionsOf(device, last), device, front);
    }
  }

  lemma NothingDiffers()
    ensures NamesDiffer([])
  {
  }

  // ----- Spellings

  lemma SameRest(p: string, x: string, y: string)
    ensures p + x == p + y <==> x == y
  {
    assert (p + x)[|p|..] == x && (p + y)[|p|..] == y;
  }

  lemma SamePrefixed(device: string, x: string, y: string)
    ensures Prefixed(device, x) == Prefixed(device, y) <==> x == y
  {
    SameRest("_", x, y);
    SameRest(device, "_" + x, "_" + y);
  }

  lemma SameSuffixed(x: string, y: string, i: nat, j: nat)
    ensures x + Suffix(i) == y + Suffix(j) <==> x == y && i % 2 == j % 2
  {
    var a, b := x + Suffix(i), y + Suffix(j);
    assert a[|a| - 1] == (if i % 2 == 0 then 'T' else 'K') && b[|b| - 1] == if j % 2 == 0 then 'T' else 'K';
    assert a[..|x|] == x && b[..|y|] == y;
  }

  /** A macro whose fields are named, each differently. */
  predicate WellNamed(m: Macro) {
    && m.name != "" && (forall k | 0 <= k < |m.fields| :: m.fields[k].name != "")
    && forall j, k | 0 <= j < k < |m.fields| :: m.fields[j].name != m.fields[k].name
  }

  lemma OwnNamesDiffer(device: string, m: Macro)
    requires WellNamed(m)
    ensures NamesDiffer(DefinitionsOf(device, m))
  {
    hide Prefixed, DefinitionsOf, WellNamed, FieldMacroName;
    var s := DefinitionsOf(device, m);
    forall i, j | 0 <= i < j < |s| ensures s[i].name != s[j].name {
      if i == 0 {
        LastOfFieldMacro(m, j - 1);
        SamePrefixed(device, m.name, FieldMacroName(m, j - 1));
      } else {
        SamePrefixed(device, FieldMacroName(m, i - 1), FieldMacroName(m, j - 1));
        FieldMacrosDiffer(m, i - 1, j - 1);
      }
    }
  }

  lemma FieldMacrosDiffer(m: Macro, i: nat, j: nat)
    requires WellNamed(m) && i < j < 2 * |m.fields|
    ensures FieldMacroName(m, i) != FieldMacroName(m, j)
  {
    hide BitName, WellNamed;
    SameSuffixed(BitName(m, i / 2), BitName(m, j / 2), i, j);
    SameBits(m, i / 2, j / 2);
  }

  lemma SameBits(m: Macro, j: nat, k: nat)
    requires WellNamed(m) && j < |m.fields| && k < |m.fields|
    ensures BitName(m, j) == BitName(m, k) <==> j == k
  {
    SameRest(m.name, "_" + m.fields[j].name, "_" + m.fields[k].name);
    SameRest("_", m.fields[j].name, m.fields[k].name);
  }

  /** A register is called like a macro of another's field. */
  predicate NamesField(a: Macro, b: Macro) {
    exists k | 0 <= k < |b.fields| :: a.name == BitName(b, k) + SHIFT || a.name == BitName(b, k) + MASK
  }

  /** Register and field of one run together into register and field of the other. */
  predicate BitsCollide(a: Macro, b: Macro) {
    exists j, k | 0 <= j < |a.fields| && 0 <= k < |b.fields| :: BitName(a, j) == BitName(b, k)
  }

  lemma ApartExactly(device: string, a: Macro, b: Macro)
    requires a.name != b.name
    ensures Apart(DefinitionsOf(device, a), DefinitionsOf(device, b)) <==>
            !NamesField(a, b) && !NamesField(b, a) && !BitsCollide(a, b)
  {
    hide Prefixed, BitName, DefinitionsOf, NamesField, BitsCollide;
    var s, t := DefinitionsOf(device, a), DefinitionsOf(device, b);
    forall i, j | 0 <= i < |s| && 0 <= j < |t| && s[i].name == t[j].name
      ensures NamesField(a, b) || NamesField(b, a) || BitsCollide(a, b)
    {
      SharedName(device, a, b, i, j);
    }
    if NamesField(a, b) {
      NamedFieldMeets(device, a, b);
    }
    if NamesField(b, a) {
      NamedFieldMeets(device, b, a);
      ApartSymmetric(s, t);
    }
    if BitsCollide(a, b) {
      CollidingBitsMeet(device, a, b);
    }
  }

  lemma NamedFieldMeets(device: string, a: Macro, b: Macro)
    requires NamesField(a, b)
    ensures !Apart(DefinitionsOf(device, a), DefinitionsOf(device, b))
  {
    hide Prefixed, BitName, DefinitionsOf;
    var s, t := DefinitionsOf(device, a), DefinitionsOf(device, b);
    var k :| 0 <= k < |b.fields| && (a.name == BitName(b, k) + SHIFT || a.name == BitName(b, k) + MASK);
    if a.name == BitName(b, k) + SHIFT {
      assert a.name == FieldMacroName(b, 2 * k) && s[0].name == t[1 + 2 * k].name;
    } else {
      var i := 2 * k + 1;
      assert i / 2 == k && a.name == FieldMacroName(b, i) && s[0].name == t[1 + i].name;
    }
  }

  lemma CollidingBitsMeet(device: string, a: Macro, b: Macro)
    requires BitsCollide(a, b)
    ensures !Apart(DefinitionsOf(device, a), DefinitionsOf(device, b))
  {
    hide Prefixed, BitName, DefinitionsOf;
    var s, t := DefinitionsOf(device, a), DefinitionsOf(device, b);
    var j, k :| 0 <= j < |a.fields| && 0 <= k < |b.fields| && BitName(a, j) == BitName(b, k);
    assert FieldMacroName(a, 2 * j) == FieldMacroName(b, 2 * k);
    assert s[1 + 2 * j].name == t[1 + 2 * k].name;
  }

  lemma SharedName(device: string, a: Macro, b: Macro, i: nat, j: nat)
    requires a.name != b.name && i < |DefinitionsOf(device, a)| && j < |DefinitionsOf(device, b)|
    requires DefinitionsOf(device, a)[i].name == DefinitionsOf(device, b)[j].name
    ensures NamesField(a, b) || NamesField(b, a) || BitsCollide(a, b)
  {
    hide Prefixed, BitName;
    if i == 0 && j == 0 {
      SamePrefixed(device, a.name, b.name);
    } else if i == 0 {
      SamePrefixed(device, a.name, FieldMacroName(b, j - 1));
    } else if j == 0 {
      SamePrefixed(device, b.name, FieldMacroName(a, i - 1));
    } else {
      SamePrefixed(device, FieldMacroName(a, i - 1), FieldMacroName(b, j - 1));
      SameSuffixed(BitName(a, (i - 1) / 2), BitName(b, (j - 1) / 2), i - 1, j - 1);
    }
  }

  // ----- The type's and the window's names

  /** TYPE, TYPE_TYPE, TYPE_TYPE_TYPE, … */
  predicate OnlyTypes(device: string) {
    device == TYPE || (|device| > 5 && device[..5] == TYPE + "_" && OnlyTypes(device[5..]))
  }

  /** The type's macro and a register's are spelled alike only for a register TYPE of such a device. */
  lemma {:induction false} TypeIsRegister(device: string, name: string)
    requires device != ""
    ensures TYPE + "_" + device == Prefixed(device, name) <==> name == TYPE && OnlyTypes(device)
  {
    var l, r := TYPE + "_" + device, Prefixed(device, name);
    assert l[..5] == TYPE + "_" && l[5..] == device && r[..|device|] == device && r[|device|..] == "_" + name;
    if |device| > 5 && device[..5] == TYPE + "_" {
      var rest := device[5..];
      TypeIsRegister(rest, name);
      assert r[5..] == Prefixed(rest, name);
      assert device == TYPE + "_" + rest;
      assert l[..5] == r[..5];
      assert l == l[..5] + l[5..] && r == r[..5] + r[5..];
    } else if device == TYPE {
      assert l == Prefixed(TYPE, TYPE);
      SamePrefixed(TYPE, TYPE, name);
    } else {
      if |device| < 4 {
        assert l[|device|] != '_';
      } else if |device| == 4 {
        assert l[..4] == TYPE && r[..4] == device;
      } else {
        assert r[..5] == device[..5] && l[5] == device[0] && (|device| == 5 ==> r[5] == '_');
      }
    }
  }

  lemma LastOfFieldMacro(m: Macro, i: nat)
    requires i < 2 * |m.fields|
    ensures |FieldMacroName(m, i)| > |m.name| + 5 && FieldMacroName(m, i)[|FieldMacroName(m, i)| - 1] != 'E'
  {
    var bit, name := BitName(m, i / 2), FieldMacroName(m, i);
    assert name[|bit|..] == Suffix(i);
    assert name[|name| - 1] == Suffix(i)[|Suffix(i)| - 1];
  }

  lemma FieldMacroOffHead(device: string, m: Macro, i: nat)
    requires i < 2 * |m.fields|
    ensures var name := Prefixed(device, FieldMacroName(m, i));
            name != TYPE + "_" + device && name != Prefixed(device, WINDOW)
  {
    hide FieldMacroName;
    LastOfFieldMacro(m, i);
    SamePrefixed(device, FieldMacroName(m, i), WINDOW);
  }

  lemma HeadApart(device: string, size: int, m: Macro)
    requires device != ""
    ensures var head := [TypeName(TYPE + "_" + device), Number(Prefixed(device, WINDOW), size)];
            Apart(DefinitionsOf(device, m), head) <==> m.name != WINDOW && !(m.name == TYPE && OnlyTypes(device))
  {
    hide DefinitionsOf, FieldMacroName, Prefixed, OnlyTypes;
    var head := [TypeName(TYPE + "_" + device), Number(Prefixed(device, WINDOW), size)];
    var s := DefinitionsOf(device, m);
    TypeIsRegister(device, m.name);
    SamePrefixed(device, m.name, WINDOW);
    assert s[0].name == head[0].name || s[0].name == head[1].name ==> !Apart(s, head);
    forall i | 1 <= i < |s| ensures s[i].name != head[0].name && s[i].name != head[1].name {
      FieldMacroOffHead(device, m, i - 1);
    }
  }

  lemma HeadDiffers(device: string, size: int)
    ensures NamesDiffer([TypeName(TYPE + "_" + device), Number(Prefixed(device, WINDOW), size)])
  {
    assert |TYPE + "_" + device| != |Prefixed(device, WINDOW)|;
  }

  lemma DefinitionsDiffer(src: Source)
    requires src.device != "" && (forall i | 0 <= i < |src.macros| :: WellNamed(src.macros[i]))
    requires forall i, k | 0 <= i < k < |src.macros| :: src.macros[i].name != src.macros[k].name
    ensures NamesDiffer(Definitions(src)) <==>
            && (forall i | 0 <= i < |src.macros| :: src.macros[i].name != WINDOW)
            && (OnlyTypes(ToUpper(src.device)) ==> forall i | 0 <= i < |src.macros| :: src.macros[i].name != TYPE)
            && (forall i, k | 0 <= i < k < |src.macros| ::
                  && !NamesField(src.macros[i], src.macros[k]) && !NamesField(src.macros[k], src.macros[i])
                  && !BitsCollide(src.macros[i], src.macros[k]))
  {
    hide DefinitionsOf, NamesDiffer, Apart, Prefixed, OnlyTypes, NamesField, BitsCollide, WellNamed, ToUpper;
    var device := ToUpper(src.device);
    var head := [TypeName(TYPE + "_" + device), Number(Prefixed(device, WINDOW), src.mmioSize)];
    HeadDiffers(device, src.mmioSize);
    NamesDifferConcat(head, MacroDefinitions(device, src.macros));
    ApartSymmetric(head, MacroDefinitions(device, src.macros));
    ApartFromAll(head, device, src.macros);
    AllDiffer(device, src.macros);
    forall i | 0 <= i < |src.macros|
      ensures NamesDiffer(DefinitionsOf(device, src.macros[i]))
      ensures Apart(DefinitionsOf(device, src.macros[i]), head) <==>
              src.macros[i].name != WINDOW && !(src.macros[i].name == TYPE && OnlyTypes(device))
    {
      OwnNamesDiffer(device, src.macros[i]);
      HeadApart(device, src.mmioSize, src.macros[i]);
    }
    forall i, k | 0 <= i < k < |src.macros|
      ensures Apart(DefinitionsOf(device, src.macros[i]), DefinitionsOf(device, src.macros[k])) <==>
              && !NamesField(src.macros[i], src.macros[k]) && !NamesField(src.macros[k], src.macros[i])
              && !BitsCollide(src.macros[i], src.macros[k])
    {
      ApartExactly(device, src.macros[i], src.macros[k]);
    }
  }

  // ----- In terms of the register map

  function BitOf(r: Register, f: Field): string {
    ToUpper(r.name) + ("_" + ToUpper(f.name))
  }

  /** A register is called like the shift or the mask of another's field, or the two have a field each that,
      with the register's name in front, are called the same. */
  predicate MacroCollides(a: Register, b: Register) {
    || (exists f | f in b.fields :: ToUpper(a.name) == BitOf(b, f) + SHIFT || ToUpper(a.name) == BitOf(b, f) + MASK)
    || (exists f, g | f in a.fields && g in b.fields :: BitOf(a, f) == BitOf(b, g))
  }

  /** The names a device may have, case ignored, for its macros to differ. */
  predicate MacrosCompatible(ir: Ir) {
    && (forall r | r in ir.registers :: ToUpper(r.name) != WINDOW)
    && (OnlyTypes(ToUpper(ir.device)) ==> forall r | r in ir.registers :: ToUpper(r.name) != TYPE)
    && (forall a, b | a in ir.registers && b in ir.registers && a != b :: !MacroCollides(a, b))
  }

  /** The macro is the register's, as far as names go. */
  predicate Names(m: Macro, r: Register) {
    && m.name == ToUpper(r.name) && |m.fields| == |r.fields|
    && forall k | 0 <= k < |r.fields| :: m.fields[k].name == ToUpper(r.fields[k].name)
  }

  lemma NamesFieldOf(m: Macro, n: Macro, a: Register, b: Register)
    requires Names(m, a) && Names(n, b)
    ensures NamesField(m, n) <==>
            exists f | f in b.fields :: ToUpper(a.name) == BitOf(b, f) + SHIFT || ToUpper(a.name) == BitOf(b, f) + MASK
  {
    hide ToUpper;
    forall k | 0 <= k < |b.fields| ensures BitName(n, k) == BitOf(b, b.fields[k]) && b.fields[k] in b.fields {
    }
    hide BitName, BitOf;
  }

  lemma BitsCollideOf(m: Macro, n: Macro, a: Register, b: Register)
    requires Names(m, a) && Names(n, b)
    ensures BitsCollide(m, n) <==> exists f, g | f in a.fields && g in b.fields :: BitOf(a, f) == BitOf(b, g)
  {
    hide ToUpper;
    forall k | 0 <= k < |a.fields| ensures BitName(m, k) == BitOf(a, a.fields[k]) && a.fields[k] in a.fields {
    }
    forall k | 0 <= k < |b.fields| ensures BitName(n, k) == BitOf(b, b.fields[k]) && b.fields[k] in b.fields {
    }
    hide BitName, BitOf;
    if f, g :| f in a.fields && g in b.fields && BitOf(a, f) == BitOf(b, g) {
      var j :| 0 <= j < |a.fields| && a.fields[j] == f;
      var k :| 0 <= k < |b.fields| && b.fields[k] == g;
      assert BitName(m, j) == BitName(n, k);
    }
  }

  lemma CollidesExactly(m: Macro, n: Macro, a: Register, b: Register)
    requires Names(m, a) && Names(n, b)
    ensures MacroCollides(a, b) || MacroCollides(b, a) <==> NamesField(m, n) || NamesField(n, m) || BitsCollide(m, n)
  {
    NamesFieldOf(m, n, a, b);
    NamesFieldOf(n, m, b, a);
    BitsCollideOf(m, n, a, b);
    BitsCollideOf(n, m, b, a);
    hide NamesField, Names, ToUpper, BitOf;
  }

  lemma LegalIsWellNamed(m: Macro, r: Register, mmioSize: int)
    requires Names(m, r) && LegalRegister(r, mmioSize)
    ensures WellNamed(m)
  {
    hide ToUpper, LegalWidth;
    forall k | 0 <= k < |r.fields| ensures m.fields[k].name != "" {
      assert r.fields[k] in r.fields;
    }
  }

  lemma MacrosOfSource(ir: Ir, src: Source) returns (sorted: seq<Register>)
    requires Legal(ir) && IsRendered(src, ir)
    ensures Distinct(sorted) && (forall r :: r in sorted <==> r in ir.registers) && |src.macros| == |sorted|
    ensures forall i | 0 <= i < |sorted| :: Names(src.macros[i], sorted[i]) && src.macros[i].offset == sorted[i].offset
    ensures src.device == ToLower(ir.device) && src.readCases == Map(ReadCaseOf, sorted)
    ensures forall i, k | 0 <= i < k < |sorted| :: ToUpper(sorted[i].name) != ToUpper(sorted[k].name)
  {
    hide ToUpper, ToLower, IsWidest, ReadCaseOf, WriteCaseOf, ResetLineOf, StructMemberOf, Legal, FieldMask,
      IsAddressOrder, Names, Distinct;
    sorted :| IsAddressOrder(sorted, ir.registers) && FieldsNonNegative(sorted) && IsSourceOf(src, ir, sorted);
    SortedNamesDiffer(ir, sorted);
    forall i | 0 <= i < |sorted|
      ensures Names(src.macros[i], sorted[i]) && src.macros[i].offset == sorted[i].offset
    {
      assert src.macros[i] == MacroAt(sorted, i);
      MacroIsNamed(sorted, i);
    }
  }

  lemma MacroIsNamed(registers: seq<Register>, i: nat)
    requires i < |registers| && FieldsNonNegative(registers)
    ensures Names(MacroAt(registers, i), registers[i]) && MacroAt(registers, i).offset == registers[i].offset
  {
    hide ToUpper, FieldMask;
  }

  lemma SortedNamesDiffer(ir: Ir, sorted: seq<Register>)
    requires Legal(ir) && IsAddressOrder(sorted, ir.registers)
    ensures Distinct(sorted) && (forall r :: r in sorted <==> r in ir.registers)
    ensures forall i, k | 0 <= i < k < |sorted| :: ToUpper(sorted[i].name) != ToUpper(sorted[k].name)
  {
    hide ToUpper, LegalRegister, LegalIdentity, LegalIrqs, RegistersApart;
    assert Distinct(ir.registers);
    SortingElements(sorted, ir.registers, NoHigher);
    SortingDistinct(sorted, ir.registers, NoHigher);
    forall i, k | 0 <= i < k < |sorted| ensures ToUpper(sorted[i].name) != ToUpper(sorted[k].name) {
      assert sorted[i] in ir.registers && sorted[k] in ir.registers;
      var j :| 0 <= j < |ir.registers| && ir.registers[j] == sorted[i];
      var l :| 0 <= l < |ir.registers| && ir.registers[l] == sorted[k];
      assert j != l;
    }
  }

  lemma DeviceIsLower(device: string)
    requires IsDevice(device)
    ensures ToLower(device) == device && ToUpper(device) != ""
  {
    assert |ToUpper(device)| == |device|;
    assert forall i | 0 <= i < |device| :: Lower(device[i]) == device[i];
  }

  /** No macro of the file is defined twice if and only if the names of the device are compatible; the
      validator compares registers with registers and the fields of one register with each other. */
  lemma MacroNamesDifferExactly(ir: Ir, src: Source)
    requires Legal(ir) && IsRendered(src, ir)
    ensures NamesDiffer(Definitions(src)) <==> MacrosCompatible(ir)
  {
    hide NamesDiffer, IsRendered, IsDevice, IsPow2, ToUpper, ToLower, Definitions, Names, OnlyTypes, MacroCollides,
      NamesField, BitsCollide, LegalRegister, LegalIrqs, Map;
    var sorted := MacrosOfSource(ir, src);
    DeviceIsLower(ir.device);
    assert forall i | 0 <= i < |sorted| :: sorted[i] in sorted && sorted[i] in ir.registers;
    forall i | 0 <= i < |sorted| ensures WellNamed(src.macros[i]) && src.macros[i].name == ToUpper(sorted[i].name) {
      LegalIsWellNamed(src.macros[i], sorted[i], ir.mmioSize);
      NamesGive(src.macros[i], sorted[i]);
    }
    DefinitionsDiffer(src);
    forall i, k | 0 <= i < k < |sorted|
      ensures MacroCollides(sorted[i], sorted[k]) || MacroCollides(sorted[k], sorted[i]) <==>
              || NamesField(src.macros[i], src.macros[k]) || NamesField(src.macros[k], src.macros[i])
              || BitsCollide(src.macros[i], src.macros[k])
    {
      CollidesExactly(src.macros[i], src.macros[k], sorted[i], sorted[k]);
    }
    PairsOfElements(sorted, ir.registers);
    hide WellNamed;
  }

  lemma NamesGive(m: Macro, r: Register)
    requires Names(m, r)
    ensures m.name == ToUpper(r.name)
  {
  }

  lemma PairsOfElements(sorted: seq<Register>, registers: seq<Register>)
    requires Distinct(sorted) && forall r :: r in sorted <==> r in registers
    ensures (forall a, b | a in registers && b in registers && a != b :: !MacroCollides(a, b)) <==>
            forall i, k | 0 <= i < k < |sorted| :: !MacroCollides(sorted[i], sorted[k]) && !MacroCollides(sorted[k], sorted[i])
  {
    hide MacroCollides;
    if forall i, k | 0 <= i < k < |sorted| :: !MacroCollides(sorted[i], sorted[k]) && !MacroCollides(sorted[k], sorted[i]) {
      forall a, b | a in registers && b in registers && a != b ensures !MacroCollides(a, b) {
        var i :| 0 <= i < |sorted| && sorted[i] == a;
        var k :| 0 <= k < |sorted| && sorted[k] == b;
        assert i < k || k < i;
      }
    }
    assert forall i | 0 <= i < |sorted| :: sorted[i] in registers;
  }

  // ----- What a case label means

  /** What the preprocessor puts for a name: its last definition. */
  function Expansion(definitions: seq<Definition>, name: string): Option<Definition> {
    if definitions == [] then None
    else if definitions[|definitions| - 1].name == name then Some(definitions[|definitions| - 1])
    else Expansion(definitions[..|definitions| - 1], name)
  }

  /** The spelling of a case label. */
  function Label(src: Source, i: nat): string
    requires i < |src.macros|
  {
    Prefixed(ToUpper(src.device), src.macros[i].name)
  }

  lemma {:induction false} OnlyDefinition(definitions: seq<Definition>, k: nat)
    requires NamesDiffer(definitions) && k < |definitions|
    ensures Expansion(definitions, definitions[k].name) == Some(definitions[k])
  {
    if k < |definitions| - 1 {
      assert definitions[k].name != definitions[|definitions| - 1].name;
      OnlyDefinition(definitions[..|definitions| - 1], k);
    }
  }

  lemma {:induction false} DefinedInMacros(device: string, macros: seq<Macro>, i: nat) returns (k: nat)
    requires i < |macros|
    ensures k < |MacroDefinitions(device, macros)|
    ensures MacroDefinitions(device, macros)[k] == Number(Prefixed(device, macros[i].name), macros[i].offset)
  {
    var front := macros[..|macros| - 1];
    if i == |macros| - 1 {
      k := |MacroDefinitions(device, front)|;
    } else {
      k := DefinedInMacros(device, front, i);
    }
  }

  /** Where the names are compatible, the label of every case expands to that case's register offset. */
  lemma LabelsAreOffsets(ir: Ir, src: Source)
    requires Legal(ir) && IsRendered(src, ir) && MacrosCompatible(ir)
    ensures |src.macros| == |src.readCases|
    ensures forall i | 0 <= i < |src.readCases| ::
              Expansion(Definitions(src), Label(src, i)) == Some(Number(Label(src, i), src.readCases[i].address))
  {
    hide NamesDiffer, IsRendered, Legal, MacrosCompatible, ToUpper, ToLower, Expansion, Names, Prefixed, MacroDefinitions;
    MacroNamesDifferExactly(ir, src);
    var sorted := MacrosOfSource(ir, src);
    forall i | 0 <= i < |src.readCases|
      ensures Expansion(Definitions(src), Label(src, i)) == Some(Number(Label(src, i), src.readCases[i].address))
    {
      var k := DefinedInMacros(ToUpper(src.device), src.macros, i);
      OnlyDefinition(Definitions(src), k + 2);
    }
  }

  lemma {:induction false} FieldDefinedInMacros(device: string, macros: seq<Macro>, i: nat, n: nat) returns (k: nat)
    requires i < |macros| && n < 2 * |macros[i].fields|
    ensures k < |MacroDefinitions(device, macros)|
    ensures MacroDefinitions(device, macros)[k]
            == Number(Prefixed(device, FieldMacroName(macros[i], n)), FieldMacroValue(macros[i], n))
  {
    hide FieldMacroName, FieldMacroValue, Prefixed, DefinitionsOf;
    var front := macros[..|macros| - 1];
    if i == |macros| - 1 {
      k := |MacroDefinitions(device, front)| + 1 + n;
    } else {
      k := FieldDefinedInMacros(device, front, i, n);
    }
  }

  /** And then the two macros of every field expand to its shift and its mask, and the window's to its size. */
  lemma FieldMacrosMean(ir: Ir, src: Source, i: nat, j: nat)
    requires Legal(ir) && IsRendered(src, ir) && MacrosCompatible(ir) && i < |src.macros| && j < |src.macros[i].fields|
    ensures var device, m := ToUpper(src.device), src.macros[i];
            var shift, mask := Prefixed(device, BitName(m, j) + "_SHIFT"), Prefixed(device, BitName(m, j) + "_MASK");
            && Expansion(Definitions(src), shift) == Some(Number(shift, m.fields[j].shift))
            && Expansion(Definitions(src), mask) == Some(Number(mask, m.fields[j].mask))
    ensures var window := Prefixed(ToUpper(src.device), "MMIO_SIZE");
            Expansion(Definitions(src), window) == Some(Number(window, src.mmioSize))
  {
    hide NamesDiffer, IsRendered, Legal, MacrosCompatible, ToUpper, Expansion, Prefixed, MacroDefinitions, BitName;
    MacroNamesDifferExactly(ir, src);
    var device, m := ToUpper(src.device), src.macros[i];
    var a := FieldDefinedInMacros(device, src.macros, i, 2 * j);
    var b := FieldDefinedInMacros(device, src.macros, i, 2 * j + 1);
    assert (2 * j + 1) / 2 == j && (2 * j) / 2 == j;
    OnlyDefinition(Definitions(src), a + 2);
    OnlyDefinition(Definitions(src), b + 2);
    OnlyDefinition(Definitions(src), 1);
  }

  // ----- Legal maps that clash

  function MacroDevice(device: string, a: Register, b: Register): Ir {
    Ir(device, Sysbus, 8, [a, b], [], [])
  }

  /** A field's shift is called like a register; a register is called like the window's size; and the device
      and its register are both called like the type's macro. */
  lemma LegalMacrosMayClash()
    ensures Legal(ShiftDevice()) && !MacrosCompatible(ShiftDevice())
    ensures var ir := MacroDevice("uart", Plain("MMIO_SIZE", 0), Plain("CTRL", 4)); Legal(ir) && !MacrosCompatible(ir)
    ensures var ir := MacroDevice("type", Plain("TYPE", 0), Plain("CTRLS", 4)); Legal(ir) && !MacrosCompatible(ir)
  {
    ShiftClash();
    WindowClash();
    TypeClash();
  }

  lemma TwoRegisterDevice(device: string, a: Register, b: Register)
    requires IsDevice(device) && |a.name| != |b.name| && a.offset == 0 && b.offset == 4
    requires LegalRegister(a, 8) && LegalRegister(b, 8) && a.width == b.width == 32
    ensures Legal(MacroDevice(device, a, b))
  {
    hide LegalRegister, IsDevice;
    assert IsPow2(4) && IsPow2(8);
    assert |ToUpper(a.name)| != |ToUpper(b.name)|;
    assert LegalIrqs([]);
  }

  lemma PlainIsLegal(name: string, offset: U64)
    requires IsSymbol(name) && (offset == 0 || offset == 4)
    ensures LegalRegister(Plain(name, offset), 8)
  {
    hide IsSymbol;
    assert LegalFields([], 32);
  }

  const EN := Field("EN", 4, 1, "")

  function ShiftDevice(): Ir {
    MacroDevice("uart", ShiftRegister(), ControlRegister())
  }

  lemma ShiftDeviceLegal()
    ensures Legal(ShiftDevice())
  {
    assert IsSymbol("CTRL_EN_SHIFT") && IsSymbol("CTRL") && IsSymbol("EN") && IsDevice("uart");
    PlainIsLegal("CTRL_EN_SHIFT", 0);
    PlainIsLegal("CTRL", 4);
    assert LegalFields([EN], 32);
    hide LegalFields, ToUpper, IsSymbol, IsDevice;
    TwoRegisterDevice("uart", Plain("CTRL_EN_SHIFT", 0), Plain("CTRL", 4).(fields := [EN]));
  }

  lemma ShiftClash()
    ensures Legal(ShiftDevice()) && !MacrosCompatible(ShiftDevice())
  {
    ShiftDeviceLegal();
    hide Legal, IsSymbol;
    var a, b := Plain("CTRL_EN_SHIFT", 0), Plain("CTRL", 4).(fields := [EN]);
    assert ToUpper("CTRL_EN_SHIFT") == "CTRL_EN_SHIFT" && ToUpper("CTRL") == "CTRL" && ToUpper("EN") == "EN";
    assert BitOf(b, EN) + SHIFT == "CTRL_EN_SHIFT" && EN in b.fields;
    assert MacroCollides(a, b);
    var registers := ShiftDevice().registers;
    assert registers[0] == a && registers[1] == b && a in registers && b in registers && a != b;
  }

  lemma WindowClash()
    ensures var ir := MacroDevice("uart", Plain("MMIO_SIZE", 0), Plain("CTRL", 4)); Legal(ir) && !MacrosCompatible(ir)
  {
    assert IsSymbol("MMIO_SIZE") && IsSymbol("CTRL");
    PlainIsLegal("MMIO_SIZE", 0);
    PlainIsLegal("CTRL", 4);
    TwoRegisterDevice("uart", Plain("MMIO_SIZE", 0), Plain("CTRL", 4));
    assert ToUpper("MMIO_SIZE") == WINDOW;
    assert Plain("MMIO_SIZE", 0) in MacroDevice("uart", Plain("MMIO_SIZE", 0), Plain("CTRL", 4)).registers;
  }

  lemma TypeClash()
    ensures var ir := MacroDevice("type", Plain("TYPE", 0), Plain("CTRLS", 4)); Legal(ir) && !MacrosCompatible(ir)
  {
    assert IsSymbol("TYPE") && IsSymbol("CTRLS");
    PlainIsLegal("TYPE", 0);
    PlainIsLegal("CTRLS", 4);
    TwoRegisterDevice("type", Plain("TYPE", 0), Plain("CTRLS", 4));
    assert ToUpper("TYPE") == TYPE && ToUpper("type") == TYPE;
    assert Plain("TYPE", 0) in MacroDevice("type", Plain("TYPE", 0), Plain("CTRLS", 4)).registers;
  }

  /** In the first of these the case of the register at offset 0 is labelled with the field's bit, 4. */
  lemma LabelIsNotTheOffset(src: Source)
    requires IsRendered(src, ShiftDevice())
    ensures |src.readCases| == |src.macros| == 2 && src.readCases[0].address == 0
    ensures Expansion(Definitions(src), Label(src, 0)) == Some(Number(Label(src, 0), 4))
  {
    hide Expansion, ToLower, ToUpper, IsRendered, MacroAt, Definitions, Label;
    ShiftSource(src);
    ShiftMacros(ShiftRegister(), ControlRegister(), src.macros);
    ShiftDefinedLast(src);
  }

  function ShiftRegister(): Register {
    Plain("CTRL_EN_SHIFT", 0)
  }

  function ControlRegister(): Register {
    Plain("CTRL", 4).(fields := [EN])
  }

  lemma ShiftSource(src: Source)
    requires IsRendered(src, ShiftDevice())
    ensures |src.readCases| == |src.macros| == 2 && src.readCases[0].address == 0
    ensures var both := [ShiftRegister(), ControlRegister()];
            FieldsNonNegative(both) && src.macros[0] == MacroAt(both, 0) && src.macros[1] == MacroAt(both, 1)
  {
    hide Legal, Expansion, ToLower, ToUpper, IsWidest, WriteCaseOf, ResetLineOf, StructMemberOf, IsAddressOrder, Map,
      MacroAt, FieldsNonNegative, IrqMemberOf;
    ShiftDeviceLegal();
    var both := [ShiftRegister(), ControlRegister()];
    var sorted :| IsAddressOrder(sorted, both) && FieldsNonNegative(sorted) && IsSourceOf(src, ShiftDevice(), sorted);
    assert IsAddressOrder(both, both) by { BothInOrder(); }
    SameAddressOrder(ShiftDevice(), both, sorted, both);
    assert src.readCases[0] == ReadCaseOf(both[0]);
  }

  lemma BothInOrder()
    ensures var both := [ShiftRegister(), ControlRegister()]; IsAddressOrder(both, both)
  {
  }

  lemma ShiftMacros(a: Register, b: Register, macros: seq<Macro>)
    requires a.name == "CTRL_EN_SHIFT" && b.name == "CTRL" && b.fields == [EN]
    requires |macros| == 2 && FieldsNonNegative([a, b]) && macros[0] == MacroAt([a, b], 0) && macros[1] == MacroAt([a, b], 1)
    ensures macros[0].name == "CTRL_EN_SHIFT" && macros[1].name == "CTRL"
    ensures |macros[1].fields| == 1 && macros[1].fields[0].name == "EN" && macros[1].fields[0].shift == 4
  {
    hide FieldMask;
    assert ToUpper("CTRL_EN_SHIFT") == "CTRL_EN_SHIFT" && ToUpper("CTRL") == "CTRL" && ToUpper("EN") == "EN";
  }

  lemma ShiftDefinedLast(src: Source)
    requires |src.macros| == 2 && src.macros[0].name == "CTRL_EN_SHIFT" && src.macros[1].name == "CTRL"
    requires |src.macros[1].fields| == 1 && src.macros[1].fields[0].name == "EN" && src.macros[1].fields[0].shift == 4
    ensures Expansion(Definitions(src), Label(src, 0)) == Some(Number(Label(src, 0), 4))
  {
    hide Prefixed;
    var device, m := ToUpper(src.device), src.macros[1];
    var all, own := Definitions(src), DefinitionsOf(device, m);
    var n := |all|;
    assert MacroDefinitions(device, src.macros) == MacroDefinitions(device, src.macros[..1]) + own;
    assert all[n - 1] == own[2] && all[n - 2] == own[1] && all[..n - 1][n - 2] == own[1];
    assert FieldMacroName(m, 0) == "CTRL_EN_SHIFT";
    LastOfFieldMacro(m, 1);
    SameSuffixed("CTRL_EN", "CTRL_EN", 0, 1);
    assert FieldMacroName(m, 1) == "CTRL_EN" + Suffix(1);
    SamePrefixed(device, "CTRL_EN_SHIFT", FieldMacroName(m, 1));
  }
}
