/** The validator of the register representation: it sorts spans and compares neighbours in uint64
    arithmetic, and is proved to decide the pairwise property `Legal`. */
module RegIrValidator {
  import opened Common
  import opened RegIr
  import opened Sorting

  /** A half-open range of bytes or bits. */
  datatype Span = Span(start: U64, end: U64)

  function RegisterSpan(r: Register): Span
    requires LegalWidth(r.width)
  {
    Span(r.offset, Add64(r.offset, SizeOf(r)))
  }

  function FieldSpan(f: Field): Span {
    Span(ToU64(f.bit), ToU64(AddInt(f.bit, f.width)))
  }

  predicate StartsNoLater(a: Span, b: Span) {
    a.start <= b.start
  }

  predicate Apart(a: Span, b: Span) {
    a.end <= b.start || b.end <= a.start
  }

  predicate PairwiseApart(s: seq<Span>) {
    forall i, j | 0 <= i < j < |s| :: Apart(s[i], s[j])
  }

  /** What the loop after the sort checks. */
  predicate NeighboursApart(s: seq<Span>) {
    forall i | 1 <= i < |s| :: s[i - 1].end <= s[i].start
  }

  predicate NonEmptySpans(s: seq<Span>) {
    forall x | x in s :: x.start < x.end
  }

  // ----- Neighbours suffice

  lemma {:induction false} OrderedEnds(s: seq<Span>, i: nat, j: nat)
    requires SortedBy(s, StartsNoLater) && NonEmptySpans(s) && NeighboursApart(s) && i < j < |s|
    ensures s[i].end <= s[j].start
  {
    assert s[j - 1].end <= s[j].start;
    if i < j - 1 {
      OrderedEnds(s, i, j - 1);
      assert s[j - 1] in s;
    }
  }

  lemma NeighboursDecide(s: seq<Span>)
    requires SortedBy(s, StartsNoLater) && NonEmptySpans(s)
    ensures NeighboursApart(s) <==> PairwiseApart(s)
  {
    if NeighboursApart(s) {
      forall i, j | 0 <= i < j < |s| ensures Apart(s[i], s[j]) {
        OrderedEnds(s, i, j);
      }
    }
    if PairwiseApart(s) {
      forall i | 1 <= i < |s| ensures s[i - 1].end <= s[i].start {
        assert Apart(s[i - 1], s[i]) && s[i] in s;
      }
    }
  }

  /** The pairwise property read off the multiset of spans, so that the order does not matter. */
  ghost predicate BagApart(m: multiset<Span>) {
    && (forall x, y | x in m && y in m && x != y :: Apart(x, y))
    && (forall x | x in m :: m[x] == 1 || Apart(x, x))
  }

  lemma {:induction false} TwicePresent(s: seq<Span>, x: Span)
    ensures multiset(s)[x] >= 2 ==> exists i, j :: 0 <= i < j < |s| && s[i] == x && s[j] == x
    ensures forall i, j | 0 <= i < j < |s| && s[i] == x && s[j] == x :: multiset(s)[x] >= 2
  {
    if s != [] {
      var n := |s| - 1;
      TwicePresent(s[..n], x);
      assert s == s[..n] + [s[n]];
      if multiset(s)[x] >= 2 && s[n] == x {
        assert x in multiset(s[..n]);
        var i :| 0 <= i < n && s[..n][i] == x;
        assert s[i] == x && s[n] == x;
      } else if multiset(s)[x] >= 2 {
        var i, j :| 0 <= i < j < n && s[..n][i] == x && s[..n][j] == x;
        assert s[i] == x && s[j] == x;
      }
      forall i, j | 0 <= i < j < |s| && s[i] == x && s[j] == x ensures multiset(s)[x] >= 2 {
        if j == n {
          assert s[..n][i] == x && x in multiset(s[..n]);
        } else {
          assert s[..n][i] == x && s[..n][j] == x;
        }
      }
    }
  }

  lemma PairwiseIsBag(s: seq<Span>)
    ensures PairwiseApart(s) <==> BagApart(multiset(s))
  {
    if PairwiseApart(s) {
      forall x, y | x in multiset(s) && y in multiset(s) && x != y ensures Apart(x, y) {
        var i :| 0 <= i < |s| && s[i] == x;
        var j :| 0 <= j < |s| && s[j] == y;
        assert i < j || j < i;
      }
      forall x | x in multiset(s) ensures multiset(s)[x] == 1 || Apart(x, x) {
        TwicePresent(s, x);
      }
    }
    if BagApart(multiset(s)) {
      forall i, j | 0 <= i < j < |s| ensures Apart(s[i], s[j]) {
        assert s[i] in multiset(s) && s[j] in multiset(s);
        TwicePresent(s, s[i]);
      }
    }
  }

  lemma SortedDecides(s: seq<Span>, sorted: seq<Span>)
    requires IsSorting(sorted, s, StartsNoLater) && NonEmptySpans(s)
    ensures NeighboursApart(sorted) <==> PairwiseApart(s)
  {
    forall x | x in sorted ensures x.start < x.end {
      assert x in multiset(sorted);
      assert x in s;
    }
    NeighboursDecide(sorted);
    PairwiseIsBag(sorted);
    PairwiseIsBag(s);
  }

  // ----- The code

  method AreNeighboursApart(s: seq<Span>) returns (ok: bool)
    ensures ok <==> NeighboursApart(s)
  {
    var i := 1;
    while i < |s|
      invariant 1 <= i
      invariant forall k | 1 <= k < i && k < |s| :: s[k - 1].end <= s[k].start
    {
      if s[i].start < s[i - 1].end {
        return false;
      }
      i := i + 1;
    }
    return true;
  }

  /** The per-field check as written: the end is computed in int arithmetic. */
  predicate FieldAccepted(f: Field, width: I64) {
    IsSymbol(f.name) && f.width >= 1 && f.bit >= 0 && AddInt(f.bit, f.width) <= width
  }

  /** The per-register check as written, but for the fields: the window is compared by a subtraction
      in uint64 arithmetic. */
  predicate HeadAccepted(r: Register, mmioSize: U64) {
    && IsSymbol(r.name) && LegalWidth(r.width) && !r.access.OtherAccess?
    && r.offset % SizeOf(r) == 0
    && r.offset <= Sub64(mmioSize, SizeOf(r))
    && (r.reset.Some? && r.width < 64 ==> r.reset.value <= Pow2(r.width) - 1)
  }

  function SpansOfFields(fields: seq<Field>): (r: seq<Span>)
    ensures |r| == |fields| && forall i | 0 <= i < |r| :: r[i] == FieldSpan(fields[i])
  {
    seq(|fields|, i requires 0 <= i < |fields| => FieldSpan(fields[i]))
  }

  predicate FieldNamesDiffer(fields: seq<Field>) {
    forall i, j | 0 <= i < j < |fields| :: ToUpper(fields[i].name) != ToUpper(fields[j].name)
  }

  /** The field pass as written, with the overlap said for all pairs. */
  predicate FieldsAccepted(fields: seq<Field>, width: I64) {
    && |fields| <= MAX_FIELDS
    && (forall f | f in fields :: FieldAccepted(f, width))
    && FieldNamesDiffer(fields)
    && (forall i, j | 0 <= i < j < |fields| :: FieldsApart(fields[i], fields[j]))
  }

  predicate FieldNumbersFit(fields: seq<Field>) {
    forall f | f in fields :: f.bit + f.width < TWO63
  }

  /** The ends of accepted fields survive the conversion, even those that overflowed an int. */
  lemma FieldSpansApart(fields: seq<Field>, width: I64)
    requires forall f | f in fields :: FieldAccepted(f, width)
    ensures NonEmptySpans(SpansOfFields(fields))
    ensures PairwiseApart(SpansOfFields(fields))
            <==> forall i, j | 0 <= i < j < |fields| :: FieldsApart(fields[i], fields[j])
  {
    var spans := SpansOfFields(fields);
    assert forall i | 0 <= i < |fields| :: fields[i] in fields;
    assert forall i | 0 <= i < |fields| :: spans[i] == Span(fields[i].bit, fields[i].bit + fields[i].width);
    forall i, j | 0 <= i < j < |fields| ensures Apart(spans[i], spans[j]) <==> FieldsApart(fields[i], fields[j]) {
    }
  }

  /** The field pass. */
  method ValidateFields(fields: seq<Field>, width: I64) returns (ok: bool)
    ensures ok <==> FieldsAccepted(fields, width)
  {
    if |fields| == 0 {
      return true;
    }
    if |fields| > MAX_FIELDS {
      return false;
    }
    var names: set<string> := {};
    var ranges: seq<Span> := [];
    for i := 0 to |fields|
      invariant names == set k | 0 <= k < i :: ToUpper(fields[k].name)
      invariant ranges == SpansOfFields(fields[..i])
      invariant forall k | 0 <= k < i :: FieldAccepted(fields[k], width)
      invariant FieldNamesDiffer(fields[..i])
    {
      var key := ToUpper(fields[i].name);
      assert fields[i] in fields;
      if !FieldAccepted(fields[i], width) || key in names {
        return false;
      }
      names := names + {key};
      ranges := ranges + [FieldSpan(fields[i])];
    }
    assert fields[..|fields|] == fields;
    var sorted := Sort(ranges, StartsNoLater);
    ok := AreNeighboursApart(sorted);
    FieldSpansApart(fields, width);
    SortedDecides(ranges, sorted);
  }

  lemma WindowCheck(r: Register, mmioSize: U64)
    requires LegalWidth(r.width) && SizeOf(r) <= mmioSize
    ensures r.offset <= Sub64(mmioSize, SizeOf(r)) <==> r.offset + SizeOf(r) <= mmioSize
  {
  }

  lemma ResetCheck(r: Register)
    requires LegalWidth(r.width) && r.reset.Some?
    ensures (r.width < 64 ==> r.reset.value <= Pow2(r.width) - 1) <==> r.reset.value < Pow2(r.width)
  {
    if r.width == 64 {
      Pow2Of64();
    }
  }

  predicate RegisterAccepted(r: Register, mmioSize: U64) {
    HeadAccepted(r, mmioSize) && FieldsAccepted(r.fields, r.width)
  }

  /** One register against its window. */
  method ValidateRegister(r: Register, mmioSize: U64) returns (ok: bool)
    ensures ok <==> RegisterAccepted(r, mmioSize)
  {
    if !HeadAccepted(r, mmioSize) {
      return false;
    }
    ok := ValidateFields(r.fields, r.width);
  }

  function SpansOfRegisters(registers: seq<Register>): (r: seq<Span>)
    requires forall x | x in registers :: LegalWidth(x.width)
    ensures |r| == |registers| && forall i | 0 <= i < |r| :: r[i] == RegisterSpan(registers[i])
  {
    seq(|registers|, i requires 0 <= i < |registers| => RegisterSpan(registers[i]))
  }

  lemma RegisterSpansApart(registers: seq<Register>, mmioSize: U64)
    requires forall r | r in registers :: LegalHead(r, mmioSize) && LegalWidth(r.width)
    ensures NonEmptySpans(SpansOfRegisters(registers))
    ensures PairwiseApart(SpansOfRegisters(registers))
            <==> forall i, j | 0 <= i < j < |registers| :: RegistersApart(registers[i], registers[j])
  {
    var spans := SpansOfRegisters(registers);
    assert forall i | 0 <= i < |registers| :: registers[i] in registers;
    forall i | 0 <= i < |spans|
      ensures spans[i] == Span(registers[i].offset, registers[i].offset + SizeOf(registers[i]))
    {
      assert LegalHead(registers[i], mmioSize);
    }
    forall i, j | 0 <= i < j < |spans|
      ensures Apart(spans[i], spans[j]) <==> RegistersApart(registers[i], registers[j])
    {
    }
  }

  method ValidateInterrupts(irqs: seq<Irq>) returns (ok: bool)
    ensures ok <==> LegalIrqs(irqs)
  {
    if |irqs| > MAX_IRQS {
      return false;
    }
    var indices: set<I64> := {};
    for i := 0 to |irqs|
      invariant indices == set k | 0 <= k < i :: irqs[k].index
      invariant LegalIrqs(irqs[..i])
    {
      assert irqs[i] in irqs;
      if !IsSymbol(irqs[i].name) || irqs[i].index < 0 || irqs[i].index >= MAX_IRQS || irqs[i].index in indices {
        return false;
      }
      assert irqs[..i + 1] == irqs[..i] + [irqs[i]];
      indices := indices + {irqs[i].index};
    }
    assert irqs[..|irqs|] == irqs;
    return true;
  }

  predicate NamesDiffer(registers: seq<Register>) {
    forall i, j | 0 <= i < j < |registers| :: ToUpper(registers[i].name) != ToUpper(registers[j].name)
  }

  /** The register pass as written, but for the overlap. */
  predicate EachAccepted(registers: seq<Register>, mmioSize: U64) {
    (forall r | r in registers :: RegisterAccepted(r, mmioSize)) && NamesDiffer(registers)
  }

  /** The overlap pass as written accepts, in whatever order the sort leaves equal starts. */
  ghost predicate AlwaysApart(spans: seq<Span>) {
    forall sorted | IsSorting(sorted, spans, StartsNoLater) :: NeighboursApart(sorted)
  }

  ghost predicate SometimesApart(spans: seq<Span>) {
    exists sorted :: IsSorting(sorted, spans, StartsNoLater) && NeighboursApart(sorted)
  }

  /** The register pass: each register on its own, then names, then overlap. */
  method ValidateMap(registers: seq<Register>, mmioSize: U64) returns (ok: bool)
    ensures ok ==> EachAccepted(registers, mmioSize) && SometimesApart(SpansOfRegisters(registers))
    ensures EachAccepted(registers, mmioSize) && AlwaysApart(SpansOfRegisters(registers)) ==> ok
  {
    hide ToUpper, SortedBy, FieldsAccepted, Apart, NeighboursApart;
    var names: set<string> := {};
    var spans: seq<Span> := [];
    for i := 0 to |registers|
      invariant names == set k | 0 <= k < i :: ToUpper(registers[k].name)
      invariant forall k | 0 <= k < i :: RegisterAccepted(registers[k], mmioSize)
      invariant spans == SpansOfRegisters(registers[..i])
      invariant NamesDiffer(registers[..i])
    {
      assert registers[i] in registers;
      var accepted := ValidateRegister(registers[i], mmioSize);
      var key := ToUpper(registers[i].name);
      if !accepted || key in names {
        return false;
      }
      names := names + {key};
      spans := spans + [RegisterSpan(registers[i])];
    }
    assert registers[..|registers|] == registers;
    var sorted := Sort(spans, StartsNoLater);
    ok := AreNeighboursApart(sorted);
    assert IsSorting(sorted, SpansOfRegisters(registers), StartsNoLater);
  }

  /** Everything the validator checks, in the arithmetic it checks it in. */
  ghost predicate AcceptedAsWritten(ir: Ir) {
    && LegalIdentity(ir)
    && EachAccepted(ir.registers, ir.mmioSize) && AlwaysApart(SpansOfRegisters(ir.registers))
    && LegalIrqs(ir.interrupts) && |ir.notes| <= MAX_NOTES
  }

  lemma FieldsGap(fields: seq<Field>, width: I64)
    requires LegalWidth(width)
    ensures LegalFields(fields, width) <==> FieldsAccepted(fields, width) && FieldNumbersFit(fields)
  {
    hide ToUpper;
  }

  lemma HeadGap(r: Register, mmioSize: U64)
    ensures LegalHead(r, mmioSize) <==> HeadAccepted(r, mmioSize) && SizeOf(r) <= mmioSize
  {
    hide IsSymbol, Pow2;
    if LegalWidth(r.width) {
      if SizeOf(r) <= mmioSize {
        WindowCheck(r, mmioSize);
      }
      if r.reset.Some? {
        ResetCheck(r);
      }
    }
  }

  lemma RegisterGap(r: Register, mmioSize: U64)
    ensures LegalRegister(r, mmioSize)
            <==> RegisterAccepted(r, mmioSize) && SizeOf(r) <= mmioSize && FieldNumbersFit(r.fields)
  {
    HeadGap(r, mmioSize);
    hide LegalFields, FieldsAccepted, FieldNumbersFit, IsSymbol, Pow2;
    if LegalWidth(r.width) {
      FieldsGap(r.fields, r.width);
    }
  }

  /** Where nothing wraps the order of equal starts does not matter, and the written checks are legality. */
  lemma MapGap(registers: seq<Register>, mmioSize: U64)
    requires forall r | r in registers :: SizeOf(r) <= mmioSize && FieldNumbersFit(r.fields)
    requires EachAccepted(registers, mmioSize)
    ensures LegalMap(registers, mmioSize) <==> AlwaysApart(SpansOfRegisters(registers))
    ensures LegalMap(registers, mmioSize) <==> SometimesApart(SpansOfRegisters(registers))
  {
    hide FieldsAccepted, FieldNumbersFit, LegalFields, IsSymbol, Pow2, ToUpper, HeadAccepted, NeighboursApart, SortedBy;
    forall r | r in registers ensures LegalRegister(r, mmioSize) {
      RegisterGap(r, mmioSize);
    }
    var spans := SpansOfRegisters(registers);
    RegisterSpansApart(registers, mmioSize);
    forall sorted | IsSorting(sorted, spans, StartsNoLater)
      ensures NeighboursApart(sorted) <==> LegalMap(registers, mmioSize)
    {
      SortedDecides(spans, sorted);
    }
    StartsOrder();
    var sorted := SomeSorting(spans, StartsNoLater);
    assert NeighboursApart(sorted) ==> SometimesApart(spans);
  }

  lemma StartsOrder()
    ensures TotalPreorder(StartsNoLater)
  {
  }

  lemma LegalMapAccepted(registers: seq<Register>, mmioSize: U64)
    requires LegalMap(registers, mmioSize)
    ensures EachAccepted(registers, mmioSize)
    ensures forall r | r in registers :: SizeOf(r) <= mmioSize && FieldNumbersFit(r.fields)
  {
    hide FieldsAccepted, FieldNumbersFit, LegalHead, LegalFields, HeadAccepted, ToUpper;
    forall r | r in registers
      ensures RegisterAccepted(r, mmioSize) && SizeOf(r) <= mmioSize && FieldNumbersFit(r.fields)
    {
      RegisterGap(r, mmioSize);
    }
  }

  /** Legality is what is checked as written, on the inputs on which no check wraps around. */
  lemma LegalIsAcceptedWithoutWrap(ir: Ir)
    ensures Legal(ir) <==> AcceptedAsWritten(ir) && NoWrap(ir)
  {
    hide LegalIdentity, LegalIrqs, LegalMap, EachAccepted, AlwaysApart;
    WithoutWrap(ir);
    if LegalMap(ir.registers, ir.mmioSize) {
      LegalMapAccepted(ir.registers, ir.mmioSize);
      MapGap(ir.registers, ir.mmioSize);
    }
    if EachAccepted(ir.registers, ir.mmioSize) && NoWrap(ir) {
      MapGap(ir.registers, ir.mmioSize);
    }
  }

  lemma WithoutWrap(ir: Ir)
    ensures NoWrap(ir) <==> forall r | r in ir.registers :: SizeOf(r) <= ir.mmioSize && FieldNumbersFit(r.fields)
  {
  }

  /** The validator decides legality exactly, on every input on which none of its computations wraps
      around; on the others it goes by the checks as written. */
  method Validate(ir: Ir) returns (ok: bool)
    ensures Legal(ir) <==> ok && NoWrap(ir)
    ensures AcceptedAsWritten(ir) ==> ok
    ensures ok ==> EachAccepted(ir.registers, ir.mmioSize) && SometimesApart(SpansOfRegisters(ir.registers))
  {
    hide EachAccepted, AlwaysApart, SometimesApart, LegalMap, LegalIrqs, NoWrap;
    LegalIsAcceptedWithoutWrap(ir);
    WithoutWrap(ir);
    if ir.mmioSize > 0 {
      PowerOfTwoTest(ir.mmioSize);
    }
    if !IsDevice(ir.device) || ir.bus.OtherBus? || ir.mmioSize == 0 || BitAnd(ir.mmioSize, ir.mmioSize - 1) != 0
       || |ir.registers| == 0 || |ir.registers| > MAX_REGISTERS {
      return false;
    }
    ok := ValidateMap(ir.registers, ir.mmioSize);
    if !ok {
      return;
    }
    if NoWrap(ir) {
      MapGap(ir.registers, ir.mmioSize);
    }
    ok := ValidateInterrupts(ir.interrupts);
    if !ok {
      return;
    }
    return |ir.notes| <= MAX_NOTES;
  }

  // ----- Where the condition is needed

  /** The window check lets a register through that is wider than the whole window, at every aligned
      offset: the subtraction wraps around. */
  lemma NarrowWindowAcceptsAll(r: Register, mmioSize: U64)
    requires LegalWidth(r.width) && mmioSize > 0 && IsPow2(mmioSize) && SizeOf(r) > mmioSize
    requires IsSymbol(r.name) && !r.access.OtherAccess? && r.offset % SizeOf(r) == 0 && r.reset.None?
    ensures HeadAccepted(r, mmioSize) && !LegalHead(r, mmioSize)
  {
    assert Sub64(mmioSize, SizeOf(r)) == mmioSize - SizeOf(r) + TWO64;
  }

  /** A field whose end overflows an int passes the range check, although it lies outside the register. */
  lemma OverflowingFieldAccepted(name: string, bit: I64, width: I64, registerWidth: I64)
    requires IsSymbol(name) && bit >= 0 && width >= 1 && bit + width >= TWO63 && LegalWidth(registerWidth)
    ensures FieldAccepted(Field(name, bit, width, ""), registerWidth)
    ensures !LegalField(Field(name, bit, width, ""), registerWidth)
  {
  }

  /** The exact extent of both gaps: a head or a field that passes the written check is legal if and
      only if its own arithmetic does not wrap. */
  lemma GapsAreExactlyTheWraps(r: Register, mmioSize: U64, f: Field)
    requires HeadAccepted(r, mmioSize) && mmioSize > 0 && FieldAccepted(f, r.width)
    ensures LegalHead(r, mmioSize) <==> SizeOf(r) <= mmioSize
    ensures LegalField(f, r.width) <==> f.bit + f.width < TWO63
  {
    HeadGap(r, mmioSize);
  }

  /** A representation of one accepted register is accepted. */
  lemma OneRegisterAccepted(ir: Ir, r: Register)
    requires LegalIdentity(ir) && ir.registers == [r] && ir.interrupts == [] && ir.notes == []
    requires RegisterAccepted(r, ir.mmioSize)
    ensures AcceptedAsWritten(ir)
  {
    hide LegalIdentity, FieldsAccepted, IsSymbol;
    forall sorted | IsSorting(sorted, SpansOfRegisters([r]), StartsNoLater) ensures NeighboursApart(sorted) {
      SortingElements(sorted, SpansOfRegisters([r]), StartsNoLater);
    }
  }

  function DeviceOf(mmioSize: U64, r: Register): Ir {
    Ir("uart", Sysbus, mmioSize, [r], [], [])
  }

  /** A 64-bit register in a window of four bytes is accepted, and not legal. */
  lemma NarrowWindowAccepted()
    ensures var ir := DeviceOf(4, Register("DATA", 0, 64, RW, None, [], ""));
            AcceptedAsWritten(ir) && !Legal(ir)
  {
    var r := Register("DATA", 0, 64, RW, None, [], "");
    NarrowWindowAcceptsAll(r, 4) by {
      SmallPowers();
    }
    OneRegisterAccepted(DeviceOf(4, r), r) by {
      SmallPowers();
    }
    assert r in DeviceOf(4, r).registers;
  }

  /** So is a register with a field whose last bit is beyond the range of an int. */
  lemma OverflowingFieldAcceptedWhole()
    ensures var f := Field("MODE", TWO63 - 1, 1, "");
            var ir := DeviceOf(4, Register("CTRL", 0, 32, RW, None, [f], ""));
            AcceptedAsWritten(ir) && !Legal(ir)
  {
    var f := Field("MODE", TWO63 - 1, 1, "");
    var r := Register("CTRL", 0, 32, RW, None, [f], "");
    OverflowingFieldAccepted("MODE", TWO63 - 1, 1, 32);
    OneRegisterAccepted(DeviceOf(4, r), r) by {
      SmallPowers();
    }
    assert f in r.fields && r in DeviceOf(4, r).registers;
  }

  lemma SmallPowers()
    ensures IsPow2(4)
  {
    assert Pow2(2) == 4;
  }
}
