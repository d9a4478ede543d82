/** The laws of the merge: what it keeps, that doing it twice is doing it once, and how a merged
    representation can fail validation. */
module MergeLaws {
  import opened Common
  import opened RegIr
  import opened Prose
  import opened Merge

  // ----- What a merge keeps

  /** The same fields up to their descriptions. */
  predicate SameLayout(a: seq<Field>, b: seq<Field>) {
    && |a| == |b|
    && forall i | 0 <= i < |a| :: a[i].name == b[i].name && a[i].bit == b[i].bit && a[i].width == b[i].width
  }

  predicate SameLines(a: seq<Irq>, b: seq<Irq>) {
    |a| == |b| && forall i | 0 <= i < |a| :: a[i].name == b[i].name && a[i].index == b[i].index
  }

  predicate KeepsRegister(b: Register, m: Register) {
    && m.name == b.name && m.offset == b.offset && m.width == b.width && m.access == b.access
    && (b.reset.Some? ==> m.reset == b.reset)
    && (TrimSpace(b.effect) != "" ==> m.effect == b.effect)
    && (b.fields != [] ==> SameLayout(b.fields, m.fields))
  }

  predicate KeepsRegisters(b: seq<Register>, m: seq<Register>) {
    |b| == |m| && forall i | 0 <= i < |b| :: KeepsRegister(b[i], m[i])
  }

  predicate KeepsFindings(b: Ir, m: Ir) {
    && m.device == b.device && m.bus == b.bus && m.mmioSize == b.mmioSize && m.notes == b.notes
    && KeepsRegisters(b.registers, m.registers)
    && (b.interrupts != [] ==> SameLines(b.interrupts, m.interrupts))
  }

  lemma MergedFieldsKeepLayout(fields: seq<Field>, proposed: seq<Field>)
    requires fields != []
    ensures SameLayout(fields, MergedFields(fields, proposed))
  {
    hide Fill, NamesOf, TextsOf, Offers;
  }

  lemma AbsorbKeeps(registers: seq<Register>, c: Register)
    ensures KeepsRegisters(registers, Absorb(registers, c))
  {
    hide TrimSpace, ToLower, MergedFields, FitsWidth;
    forall i | 0 <= i < |registers| ensures KeepsRegister(registers[i], Absorb(registers, c)[i]) {
      if registers[i].fields != [] {
        MergedFieldsKeepLayout(registers[i].fields, c.fields);
      }
    }
  }

  lemma KeepsRegistersTransitive(a: seq<Register>, b: seq<Register>, c: seq<Register>)
    requires KeepsRegisters(a, b) && KeepsRegisters(b, c)
    ensures KeepsRegisters(a, c)
  {
    hide TrimSpace;
    forall i | 0 <= i < |a| ensures KeepsRegister(a[i], c[i]) {
      assert KeepsRegister(a[i], b[i]) && KeepsRegister(b[i], c[i]);
    }
  }

  lemma {:induction false} AbsorbAllKeeps(registers: seq<Register>, proposed: seq<Register>)
    ensures KeepsRegisters(registers, AbsorbAll(registers, proposed))
  {
    hide KeepsRegister, Absorb;
    if proposed == [] {
      forall i | 0 <= i < |registers| ensures KeepsRegister(registers[i], registers[i]) {
        KeepsRegisterReflexive(registers[i]);
      }
    } else {
      var front := proposed[..|proposed| - 1];
      AbsorbAllKeeps(registers, front);
      AbsorbKeeps(AbsorbAll(registers, front), proposed[|proposed| - 1]);
      KeepsRegistersTransitive(registers, AbsorbAll(registers, front), AbsorbAll(registers, proposed));
    }
  }

  lemma KeepsRegisterReflexive(r: Register)
    ensures KeepsRegister(r, r)
  {
    hide TrimSpace;
  }

  /** One merge keeps everything the base found, for any base and any proposal. */
  lemma MergeKeepsFindings(base: Ir, proposal: Ir)
    ensures KeepsFindings(base, Merged(base, proposal))
  {
    hide KeepsRegisters, AbsorbAll, Fill;
    AbsorbAllKeeps(base.registers, proposal.registers);
  }

  function MergedInTurn(base: Ir, proposals: seq<Ir>): Ir {
    if proposals == [] then base
    else Merged(MergedInTurn(base, proposals[..|proposals| - 1]), proposals[|proposals| - 1])
  }

  lemma KeepsFindingsTransitive(a: Ir, b: Ir, c: Ir)
    requires KeepsFindings(a, b) && KeepsFindings(b, c)
    ensures KeepsFindings(a, c)
  {
    hide KeepsRegisters;
    KeepsRegistersTransitive(a.registers, b.registers, c.registers);
  }

  /** So does any number of merges of arbitrary proposals. */
  lemma {:induction false} EveryMergeKeepsFindings(base: Ir, proposals: seq<Ir>)
    ensures KeepsFindings(base, MergedInTurn(base, proposals))
  {
    hide KeepsFindings, Merged;
    if proposals == [] {
      KeepsItself(base);
    } else {
      var front := proposals[..|proposals| - 1];
      EveryMergeKeepsFindings(base, front);
      MergeKeepsFindings(MergedInTurn(base, front), proposals[|proposals| - 1]);
      KeepsFindingsTransitive(base, MergedInTurn(base, front), MergedInTurn(base, proposals));
    }
  }

  lemma KeepsItself(base: Ir)
    ensures KeepsFindings(base, base)
  {
    hide KeepsRegister;
    forall i | 0 <= i < |base.registers| ensures KeepsRegister(base.registers[i], base.registers[i]) {
      KeepsRegisterReflexive(base.registers[i]);
    }
  }

  // ----- One register under all proposals

  /** The proposal is about this register and agrees on where it is. */
  predicate Hits(t: Register, c: Register) {
    ToLower(c.name) == ToLower(t.name) && SamePlace(t, c)
  }

  function TakeOne(t: Register, c: Register): Register {
    if Hits(t, c) then MergedRegister(t, c) else t
  }

  function TakeAll(t: Register, proposed: seq<Register>): Register {
    if proposed == [] then t
    else TakeOne(TakeAll(t, proposed[..|proposed| - 1]), proposed[|proposed| - 1])
  }

  lemma {:induction false} AbsorbAllPointwise(registers: seq<Register>, proposed: seq<Register>, i: nat)
    requires Distinct(RegisterKeys(registers)) && i < |registers|
    ensures AbsorbAll(registers, proposed)[i] == TakeAll(registers[i], proposed)
    ensures RegisterKeys(AbsorbAll(registers, proposed)) == RegisterKeys(registers)
  {
    hide ToLower, MergedRegister, SamePlace;
    if proposed != [] {
      var front, last := proposed[..|proposed| - 1], proposed[|proposed| - 1];
      var before := AbsorbAll(registers, front);
      AbsorbAllPointwise(registers, front, i);
      LastAtDistinct(RegisterKeys(before), i);
      KeysAfterAbsorb(before, last);
      var p := LastAt(RegisterKeys(before), ToLower(last.name));
      if p.Some? && p.value != i {
        assert RegisterKeys(before)[i] != ToLower(last.name);
      }
    }
  }

  lemma KeysAfterAbsorb(registers: seq<Register>, c: Register)
    ensures RegisterKeys(Absorb(registers, c)) == RegisterKeys(registers)
  {
    hide ToLower, MergedFields, MergedReset, MergedEffect, SamePlace;
  }

  lemma {:induction false} TakeAllKeepsPlace(t: Register, proposed: seq<Register>)
    ensures var m := TakeAll(t, proposed);
            m.name == t.name && m.offset == t.offset && m.width == t.width && m.access == t.access
  {
    hide ToLower, MergedFields, MergedReset, MergedEffect;
    if proposed != [] {
      TakeAllKeepsPlace(t, proposed[..|proposed| - 1]);
    }
  }

  // Reset values

  function Offered(t: Register, proposed: seq<Register>): bool {
    exists c :: c in proposed && Hits(t, c) && c.reset.Some? && FitsWidth(c.reset.value, t.width)
  }

  lemma {:induction false} ResetTaken(t: Register, proposed: seq<Register>)
    ensures t.reset.Some? ==> TakeAll(t, proposed).reset == t.reset
    ensures t.reset.None? ==> (TakeAll(t, proposed).reset.Some? <==> Offered(t, proposed))
    ensures !Offered(t, proposed) ==> TakeAll(t, proposed).reset == t.reset
  {
    hide ToLower, MergedFields, MergedEffect, FitsWidth;
    if proposed != [] {
      var front, last := proposed[..|proposed| - 1], proposed[|proposed| - 1];
      ResetTaken(t, front);
      TakeAllKeepsPlace(t, front);
      assert forall c :: c in proposed <==> c in front || c == last;
    }
  }

  // Effects

  function Explained(t: Register, proposed: seq<Register>): bool {
    exists c :: c in proposed && Hits(t, c) && TrimSpace(c.effect) != ""
  }

  lemma {:induction false} EffectTaken(t: Register, proposed: seq<Register>)
    ensures TrimSpace(t.effect) != "" ==> TakeAll(t, proposed).effect == t.effect
    ensures TrimSpace(TakeAll(t, proposed).effect) == "" ==> !Explained(t, proposed)
    ensures !Explained(t, proposed) ==> TakeAll(t, proposed).effect == t.effect
  {
    hide ToLower, MergedFields, MergedReset, TrimSpace;
    if proposed != [] {
      var front, last := proposed[..|proposed| - 1], proposed[|proposed| - 1];
      EffectTaken(t, front);
      TakeAllKeepsPlace(t, front);
      assert forall c :: c in proposed <==> c in front || c == last;
    }
  }

  // Fields: filling from the concatenated offers

  function AllOffers(t: Register, proposed: seq<Register>): seq<(string, string)> {
    if proposed == [] then []
    else
      AllOffers(t, proposed[..|proposed| - 1])
      + (if Hits(t, proposed[|proposed| - 1]) then Offers(proposed[|proposed| - 1].fields) else [])
  }

  lemma {:induction false} AllOffersOfSamePlace(t: Register, m: Register, proposed: seq<Register>)
    requires m.name == t.name && m.offset == t.offset && m.width == t.width
    ensures AllOffers(m, proposed) == AllOffers(t, proposed)
  {
    hide Offers, ToLower;
    if proposed != [] {
      AllOffersOfSamePlace(t, m, proposed[..|proposed| - 1]);
    }
  }

  lemma DescribedNames(fields: seq<Field>, texts: seq<string>)
    requires |fields| == |texts|
    ensures NamesOf(Described(fields, texts)) == NamesOf(fields) && TextsOf(Described(fields, texts)) == texts
  {
    hide ToLower;
  }

  lemma DescribedTwice(fields: seq<Field>, a: seq<string>, b: seq<string>)
    requires |fields| == |a| == |b|
    ensures Described(Described(fields, a), b) == Described(fields, b)
  {
  }

  /** The fields of a register with fields, after all proposals. */
  lemma {:induction false} FieldsFilled(t: Register, proposed: seq<Register>)
    requires t.fields != []
    ensures TakeAll(t, proposed).fields ==
            Described(t.fields, Fill(NamesOf(t.fields), TextsOf(t.fields), AllOffers(t, proposed)))
  {
    hide ToLower, MergedReset, MergedEffect, Offers, Fill, NamesOf, TextsOf;
    var names, texts := NamesOf(t.fields), TextsOf(t.fields);
    if proposed == [] {
      assert Fill(names, texts, []) == texts by { FillNothing(names, texts); }
      assert Described(t.fields, texts) == t.fields by { DescribedAsIs(t.fields); }
    } else {
      var front, last := proposed[..|proposed| - 1], proposed[|proposed| - 1];
      FieldsFilled(t, front);
      TakeAllKeepsPlace(t, front);
      var before := Fill(names, texts, AllOffers(t, front));
      DescribedNames(t.fields, before);
      if Hits(t, last) {
        FillConcat(names, texts, AllOffers(t, front), Offers(last.fields));
        DescribedTwice(t.fields, before, Fill(names, before, Offers(last.fields)));
      } else {
        assert AllOffers(t, proposed) == AllOffers(t, front) + [] == AllOffers(t, front);
      }
    }
  }

  lemma FillNothing<K>(keys: seq<K>, texts: seq<string>)
    requires |keys| == |texts|
    ensures Fill(keys, texts, []) == texts
  {
  }

  lemma DescribedAsIs(fields: seq<Field>)
    ensures Described(fields, TextsOf(fields)) == fields
  {
  }

  /** The fields of a register without fields: an adopted block is a block of blanks filled from the
      same offers. */
  lemma {:induction false} FieldsAdopted(t: Register, proposed: seq<Register>)
    requires t.fields == []
    requires Distinct(NamesOf(TakeAll(t, proposed).fields))
    ensures var fields := TakeAll(t, proposed).fields;
            fields == Described(fields, Fill(NamesOf(fields), Blanks(|fields|), AllOffers(t, proposed)))
    ensures TakeAll(t, proposed).fields == [] ==> AllOffers(t, proposed) == []
  {
    hide ToLower, MergedReset, MergedEffect, Fill, FillOne;
    if proposed == [] {
      assert Fill<string>([], Blanks(0), []) == [];
    } else {
      var front, last := proposed[..|proposed| - 1], proposed[|proposed| - 1];
      var before, after := TakeAll(t, front).fields, TakeAll(t, proposed).fields;
      TakeAllKeepsPlace(t, front);
      if before == [] {
        FieldsAdopted(t, front);
        if Hits(t, last) {
          assert after == last.fields by { assert before == [] ==> MergedFields(before, last.fields) == last.fields; }
          AdoptIsFill(NamesOf(last.fields), TextsOf(last.fields));
          DescribedAsIs(last.fields);
          assert AllOffers(t, proposed) == Offers(last.fields);
        } else {
          assert AllOffers(t, proposed) == AllOffers(t, front);
        }
      } else if Hits(t, last) {
        MergedFieldsKeepLayout(before, last.fields);
        SameLayoutSameNames(before, after);
        FieldsAdopted(t, front);
        LaterFill(before, AllOffers(t, front), last.fields);
      } else {
        FieldsAdopted(t, front);
        assert AllOffers(t, proposed) == AllOffers(t, front);
      }
    }
  }

  lemma SameLayoutSameNames(a: seq<Field>, b: seq<Field>)
    requires SameLayout(a, b)
    ensures NamesOf(a) == NamesOf(b)
  {
    hide ToLower;
  }

  lemma LaterFill(fields: seq<Field>, offers: seq<(string, string)>, more: seq<Field>)
    requires fields != []
    requires fields == Described(fields, Fill(NamesOf(fields), Blanks(|fields|), offers))
    ensures var after := MergedFields(fields, more);
            |after| == |fields|
            && after == Described(after, Fill(NamesOf(after), Blanks(|after|), offers + Offers(more)))
  {
    hide ToLower, Fill, Offers, NamesOf;
    var names := NamesOf(fields);
    var once := Fill(names, Blanks(|fields|), offers);
    DescribedNames(fields, once);
    assert TextsOf(fields) == once;
    FillConcat(names, Blanks(|fields|), offers, Offers(more));
    var twice := Fill(names, once, Offers(more));
    assert MergedFields(fields, more) == Described(fields, twice);
    DescribedNames(fields, twice);
    DescribedTwice(fields, twice, twice);
  }

  // ----- Doing it twice

  /** A second pass over the same proposals changes nothing in the register. */
  lemma TakeAllIdempotent(t: Register, proposed: seq<Register>)
    requires Distinct(NamesOf(TakeAll(t, proposed).fields))
    ensures TakeAll(TakeAll(t, proposed), proposed) == TakeAll(t, proposed)
  {
    hide ToLower, TrimSpace, Fill, NamesOf, TextsOf, Offered, Explained, TakeAll;
    var m := TakeAll(t, proposed);
    TakeAllKeepsPlace(t, proposed);
    TakeAllKeepsPlace(m, proposed);
    ResetTaken(t, proposed);
    ResetTaken(m, proposed);
    EffectTaken(t, proposed);
    EffectTaken(m, proposed);
    SameHits(t, m, proposed);
    FieldsTwice(t, m, proposed);
    OnlyTheseParts(t, proposed);
    OnlyTheseParts(m, proposed);
  }

  lemma SameHits(t: Register, m: Register, proposed: seq<Register>)
    requires m.name == t.name && m.offset == t.offset && m.width == t.width
    ensures Offered(m, proposed) == Offered(t, proposed) && Explained(m, proposed) == Explained(t, proposed)
  {
    hide ToLower, TrimSpace, FitsWidth;
    forall c ensures Hits(m, c) == Hits(t, c) {
    }
  }

  /** A merge changes nothing but reset, effect and fields. */
  lemma {:induction false} OnlyTheseParts(t: Register, proposed: seq<Register>)
    ensures var m := TakeAll(t, proposed);
            m == t.(reset := m.reset, effect := m.effect, fields := m.fields)
  {
    hide ToLower, MergedFields, MergedReset, MergedEffect;
    if proposed != [] {
      OnlyTheseParts(t, proposed[..|proposed| - 1]);
    }
  }

  lemma FieldsTwice(t: Register, m: Register, proposed: seq<Register>)
    requires m == TakeAll(t, proposed) && Distinct(NamesOf(m.fields))
    ensures TakeAll(m, proposed).fields == m.fields
  {
    hide ToLower, TrimSpace, Fill, TakeAll, NamesOf, TextsOf, AllOffers, Distinct;
    TakeAllKeepsPlace(t, proposed);
    AllOffersOfSamePlace(t, m, proposed);
    var offers := AllOffers(t, proposed);
    if t.fields != [] {
      var names, texts := NamesOf(t.fields), TextsOf(t.fields);
      var once := Fill(names, texts, offers);
      FieldsFilled(t, proposed);
      DescribedNames(t.fields, once);
      FilledTwice(m, texts, proposed, offers);
    } else if m.fields != [] {
      FieldsAdopted(t, proposed);
      DescribedNames(m.fields, Fill(NamesOf(m.fields), Blanks(|m.fields|), offers));
      FilledTwice(m, Blanks(|m.fields|), proposed, offers);
    } else {
      FieldsAdopted(t, proposed);
      NoOffersNoFields(m, proposed);
    }
  }

  lemma FilledTwice(m: Register, texts: seq<string>, proposed: seq<Register>, offers: seq<(string, string)>)
    requires m.fields != [] && Distinct(NamesOf(m.fields)) && |texts| == |m.fields|
    requires TextsOf(m.fields) == Fill(NamesOf(m.fields), texts, offers)
    requires AllOffers(m, proposed) == offers
    ensures TakeAll(m, proposed).fields == m.fields
  {
    hide ToLower, TrimSpace, Fill, TakeAll, AllOffers, Distinct;
    FieldsFilled(m, proposed);
    FillIdempotent(NamesOf(m.fields), texts, offers);
    DescribedAsIs(m.fields);
  }

  lemma {:induction false} NoOffersNoFields(t: Register, proposed: seq<Register>)
    requires t.fields == [] && AllOffers(t, proposed) == []
    ensures TakeAll(t, proposed).fields == []
  {
    hide ToLower, MergedReset, MergedEffect, Fill;
    if proposed != [] {
      var front, last := proposed[..|proposed| - 1], proposed[|proposed| - 1];
      NoOffersNoFields(t, front);
      TakeAllKeepsPlace(t, front);
      if Hits(t, last) {
        assert |Offers(last.fields)| == |last.fields|;
        assert Fill<string>([], [], []) == [];
      }
    }
  }

  lemma IrqsIdempotent(irqs: seq<Irq>, proposed: seq<Irq>)
    requires Distinct(IndicesOf(MergedIrqs(irqs, proposed)))
    ensures MergedIrqs(MergedIrqs(irqs, proposed), proposed) == MergedIrqs(irqs, proposed)
  {
    hide TrimSpace, Fill, Distinct;
    var m := MergedIrqs(irqs, proposed);
    var offers := Zip(IndicesOf(proposed), IrqTexts(proposed));
    if irqs != [] {
      assert IndicesOf(m) == IndicesOf(irqs);
      assert IrqTexts(m) == Fill(IndicesOf(irqs), IrqTexts(irqs), offers);
      FillIdempotent(IndicesOf(irqs), IrqTexts(irqs), offers);
    } else if proposed != [] {
      AdoptIsFill(IndicesOf(proposed), IrqTexts(proposed));
      FillIdempotent(IndicesOf(proposed), Blanks(|proposed|), offers);
    }
  }

  /** No two registers, fields of a register, or interrupts go by the same key. */
  ghost predicate KeysDiffer(ir: Ir) {
    && Distinct(RegisterKeys(ir.registers))
    && (forall r | r in ir.registers :: Distinct(NamesOf(r.fields)))
    && Distinct(IndicesOf(ir.interrupts))
  }

  lemma UpperDistinctLowerDistinct(s: string, t: string)
    requires ToUpper(s) != ToUpper(t)
    ensures ToLower(s) != ToLower(t)
  {
    FoldingAgrees(s, t);
  }

  lemma LegalKeysDiffer(ir: Ir)
    requires Legal(ir)
    ensures KeysDiffer(ir)
  {
    hide ToLower, ToUpper, LegalHead, IsDevice, IsPow2;
    forall i, j | 0 <= i < j < |ir.registers|
      ensures RegisterKeys(ir.registers)[i] != RegisterKeys(ir.registers)[j]
    {
      UpperDistinctLowerDistinct(ir.registers[i].name, ir.registers[j].name);
    }
    forall r | r in ir.registers ensures Distinct(NamesOf(r.fields)) {
      LegalFieldKeysDiffer(r, ir.mmioSize);
    }
  }

  lemma LegalFieldKeysDiffer(r: Register, mmioSize: int)
    requires LegalRegister(r, mmioSize)
    ensures Distinct(NamesOf(r.fields))
  {
    hide ToLower, ToUpper, LegalHead;
    forall i, j | 0 <= i < j < |r.fields| ensures NamesOf(r.fields)[i] != NamesOf(r.fields)[j] {
      UpperDistinctLowerDistinct(r.fields[i].name, r.fields[j].name);
    }
  }

  /** If the merged representation is legal, merging the same proposal into it again changes no
      register and no interrupt, descriptions included, however often the proposal lists a register. */
  lemma MergeIdempotent(base: Ir, proposal: Ir)
    requires Legal(Merged(base, proposal))
    ensures Merged(Merged(base, proposal), proposal) == Merged(base, proposal)
  {
    LegalKeysDiffer(Merged(base, proposal));
    MergeIdempotentByKeys(base, proposal);
  }

  lemma MergeIdempotentByKeys(base: Ir, proposal: Ir)
    requires KeysDiffer(Merged(base, proposal))
    ensures Merged(Merged(base, proposal), proposal) == Merged(base, proposal)
  {
    hide ToLower, TakeAll, AbsorbAll, NamesOf, MergedIrqs, KeepsRegister, Distinct;
    var m := Merged(base, proposal);
    AbsorbAllKeys(base.registers, proposal.registers);
    IrqsIdempotent(base.interrupts, proposal.interrupts);
    forall i | 0 <= i < |m.registers|
      ensures AbsorbAll(m.registers, proposal.registers)[i] == m.registers[i]
    {
      assert m.registers[i] in m.registers;
      AbsorbAllPointwise(base.registers, proposal.registers, i);
      AbsorbAllPointwise(m.registers, proposal.registers, i);
      TakeAllIdempotent(base.registers[i], proposal.registers);
    }
  }

  lemma AbsorbAllKeys(registers: seq<Register>, proposed: seq<Register>)
    ensures RegisterKeys(AbsorbAll(registers, proposed)) == RegisterKeys(registers)
  {
    hide ToLower, AbsorbAll;
    AbsorbAllKeeps(registers, proposed);
    forall i | 0 <= i < |registers| ensures AbsorbAll(registers, proposed)[i].name == registers[i].name {
      assert KeepsRegister(registers[i], AbsorbAll(registers, proposed)[i]);
    }
  }
}
