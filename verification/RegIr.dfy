/** The register intermediate representation, and what it means for one to be legal. */
module RegIr {
  import opened Common

  const TWO63: int := 0x8000_0000_0000_0000
  const TWO64: int := 0x1_0000_0000_0000_0000

  type U64 = x: int | 0 <= x < TWO64
  type I64 = x: int | -TWO63 <= x < TWO63

  /** Go's arithmetic on uint64 and int, wrap-around included. */
  function Add64(a: U64, b: U64): U64 {
    (a + b) % TWO64
  }

  function Sub64(a: U64, b: U64): U64 {
    (a - b) % TWO64
  }

  function AddInt(a: I64, b: I64): I64 {
    var sum := a + b;
    if sum >= TWO63 then sum - TWO64 else if sum < -TWO63 then sum + TWO64 else sum
  }

  /** The conversion uint64(x) of an int. */
  function ToU64(x: I64): U64 {
    if x < 0 then x + TWO64 else x
  }

  function Pow2(n: nat): (r: nat)
    ensures r > 0
  {
    if n == 0 then 1 else 2 * Pow2(n - 1)
  }

  lemma {:induction false} Pow2Sum(a: nat, b: nat)
    ensures Pow2(a + b) == Pow2(a) * Pow2(b)
  {
    if a > 0 {
      Pow2Sum(a - 1, b);
    }
  }

  lemma {:induction false} Pow2Grows(a: nat, b: nat)
    requires a <= b
    ensures Pow2(a) <= Pow2(b)
  {
    if a < b {
      Pow2Grows(a, b - 1);
    }
  }

  lemma Pow2Of64()
    ensures Pow2(64) == TWO64
  {
    assert Pow2(4) == 16;
    Pow2Sum(4, 4);
    Pow2Sum(8, 8);
    Pow2Sum(16, 16);
    Pow2Sum(32, 32);
  }

  /** The bitwise and of two naturals. */
  function BitAnd(a: nat, b: nat): nat {
    if a == 0 || b == 0 then 0 else (a % 2) * (b % 2) + 2 * BitAnd(a / 2, b / 2)
  }

  predicate IsPow2(x: nat) {
    x > 0 && (x == 1 || (x % 2 == 0 && IsPow2(x / 2)))
  }

  lemma {:induction false} BitAndSelf(a: nat)
    ensures BitAnd(a, a) == a
  {
    if a > 0 {
      BitAndSelf(a / 2);
    }
  }

  /** x & (x-1) is zero exactly for the powers of two. */
  lemma {:induction false} PowerOfTwoTest(x: nat)
    requires x > 0
    ensures BitAnd(x, x - 1) == 0 <==> IsPow2(x)
  {
    if x % 2 == 0 {
      assert (x - 1) / 2 == x / 2 - 1;
      PowerOfTwoTest(x / 2);
    } else if x > 1 {
      assert (x - 1) / 2 == x / 2;
      BitAndSelf(x / 2);
    }
  }

  // ----- The representation

  /** Access modes; any other text the model wrote is kept as it is. */
  datatype Access = RO | WO | RW | W1C | Rsvd | OtherAccess(text: string)

  datatype Bus = Sysbus | Pci | OtherBus(text: string)

  datatype Field = Field(name: string, bit: I64, width: I64, description: string)

  datatype Register = Register(
    name: string, offset: U64, width: I64, access: Access, reset: Option<U64>, fields: seq<Field>, effect: string)

  datatype Irq = Irq(name: string, index: I64, description: string)

  datatype Ir = Ir(device: string, bus: Bus, mmioSize: U64, registers: seq<Register>, interrupts: seq<Irq>,
                   notes: seq<string>)

  const MAX_REGISTERS := 512
  const MAX_FIELDS := 64
  const MAX_NOTES := 64
  const MAX_IRQS := 32

  // ----- Legality: the intended meaning, in unbounded arithmetic

  predicate IsDevice(s: string) {
    && s != "" && 'a' <= s[0] <= 'z'
    && forall i | 0 <= i < |s| :: 'a' <= s[i] <= 'z' || IsDecimal(s[i]) || s[i] == '_'
  }

  predicate LegalWidth(w: int) {
    w == 8 || w == 16 || w == 32 || w == 64
  }

  function SizeOf(r: Register): int {
    r.width / 8
  }

  predicate RegistersApart(a: Register, b: Register) {
    a.offset + SizeOf(a) <= b.offset || b.offset + SizeOf(b) <= a.offset
  }

  predicate FieldsApart(a: Field, b: Field) {
    a.bit + a.width <= b.bit || b.bit + b.width <= a.bit
  }

  predicate LegalField(f: Field, width: int) {
    IsSymbol(f.name) && f.width >= 1 && f.bit >= 0 && f.bit + f.width <= width
  }

  predicate LegalFields(fields: seq<Field>, width: int) {
    && |fields| <= MAX_FIELDS
    && (forall f | f in fields :: LegalField(f, width))
    && (forall i, j | 0 <= i < j < |fields| :: ToUpper(fields[i].name) != ToUpper(fields[j].name))
    && (forall i, j | 0 <= i < j < |fields| :: FieldsApart(fields[i], fields[j]))
  }

  /** Everything about one register but its fields. */
  predicate LegalHead(r: Register, mmioSize: int) {
    && IsSymbol(r.name) && LegalWidth(r.width) && !r.access.OtherAccess?
    && r.offset % SizeOf(r) == 0
    && r.offset + SizeOf(r) <= mmioSize
    && (r.reset.Some? ==> r.reset.value < Pow2(r.width))
  }

  predicate LegalRegister(r: Register, mmioSize: int) {
    LegalHead(r, mmioSize) && LegalFields(r.fields, r.width)
  }

  predicate LegalIrqs(irqs: seq<Irq>) {
    && |irqs| <= MAX_IRQS
    && (forall q | q in irqs :: IsSymbol(q.name) && 0 <= q.index < MAX_IRQS)
    && (forall i, j | 0 <= i < j < |irqs| :: irqs[i].index != irqs[j].index)
  }

  predicate LegalIdentity(ir: Ir) {
    && IsDevice(ir.device) && !ir.bus.OtherBus?
    && IsPow2(ir.mmioSize)
    && 1 <= |ir.registers| <= MAX_REGISTERS
  }

  predicate LegalMap(registers: seq<Register>, mmioSize: int) {
    && (forall r | r in registers :: LegalRegister(r, mmioSize))
    && (forall i, j | 0 <= i < j < |registers| :: ToUpper(registers[i].name) != ToUpper(registers[j].name))
    && (forall i, j | 0 <= i < j < |registers| :: RegistersApart(registers[i], registers[j]))
  }

  predicate Legal(ir: Ir) {
    LegalIdentity(ir) && LegalMap(ir.registers, ir.mmioSize) && LegalIrqs(ir.interrupts) && |ir.notes| <= MAX_NOTES
  }

  /** No check of the validator wraps around: no register is wider than the whole window, and no field's
      end leaves the range of an int. */
  predicate NoWrap(ir: Ir) {
    forall r | r in ir.registers :: SizeOf(r) <= ir.mmioSize && forall f | f in r.fields :: f.bit + f.width < TWO63
  }
}
