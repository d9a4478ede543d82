/** Retrying the infer stage: the same reply inferred into its own result. The merge alone changes nothing
    then; what may still change is the text that the stage clamps each time. */
module InferRetry {
  import opened Common
  import opened RegIr
  import opened Prose
  import opened Merge
  import opened MergeLaws
  import opened Normalization

  // ----- Texts filled once, then clamped, then filled again

  predicate TrimmedOffers<K>(offers: seq<(K, string)>) {
    forall i | 0 <= i < |offers| :: Trimmed(offers[i].1)
  }

  lemma {:induction false} NothingOffered<K>(key: K, text: string, offers: seq<(K, string)>)
    requires TrimmedOffers(offers) && TrimSpace(FillText(key, text, offers)) == ""
    ensures FillText(key, "", offers) == ""
  {
    hide TrimSpace, Trimmed;
    if offers != [] {
      var last := offers[|offers| - 1];
      NothingOffered(key, text, offers[..|offers| - 1]);
      TrimSpaceTrims(last.1);
      assert Trimmed(last.1);
    }
  }

  /** A text is blank exactly where the other is. */
  predicate SameBlank(a: string, b: string) {
    TrimSpace(a) == "" <==> TrimSpace(b) == ""
  }

  lemma FilledAgain<K>(keys: seq<K>, texts: seq<string>, offers: seq<(K, string)>, later: seq<string>)
    requires Distinct(keys) && |keys| == |texts| == |later| && TrimmedOffers(offers)
    requires forall i | 0 <= i < |later| :: Trimmed(later[i]) && SameBlank(later[i], Fill(keys, texts, offers)[i])
    ensures Fill(keys, later, offers) == later
  {
    hide Fill, FillText, Distinct, TrimSpace, Trimmed, TrimmedOffers;
    forall p | 0 <= p < |keys| ensures Fill(keys, later, offers)[p] == later[p] {
      assert Trimmed(later[p]) && SameBlank(later[p], Fill(keys, texts, offers)[p]);
      FillPointwise(keys, texts, offers, p);
      FillPointwise(keys, later, offers, p);
      if TrimSpace(later[p]) == "" {
        TrimSpaceTrims(later[p]);
        NothingOffered(keys[p], texts[p], offers);
      } else {
        FilledStays(keys[p], later[p], offers);
      }
    }
  }

  // ----- Field blocks

  predicate TrimmedFields(fields: seq<Field>) {
    forall f | f in fields :: Trimmed(f.name)
  }

  /** What a normalised proposal is made of. */
  predicate TrimmedProposal(proposed: seq<Register>) {
    forall c | c in proposed :: TrimmedFields(c.fields) && forall f | f in c.fields :: Trimmed(f.description)
  }

  lemma NormalIsTrimmed(registers: seq<Register>)
    ensures TrimmedProposal(NormalRegisters(registers))
  {
    hide TrimSpace, Clamp, Trimmed, NormalAccess;
    forall c, f | c in NormalRegisters(registers) && f in c.fields ensures Trimmed(f.name) && Trimmed(f.description) {
      var i :| 0 <= i < |registers| && NormalRegister(registers[i]) == c;
      var k :| 0 <= k < |c.fields| && c.fields[k] == f;
      var raw := registers[i].fields[k];
      assert f == NormalField(raw);
      TrimSpaceTrims(raw.name);
      ClampBlank(raw.description, MAX_NOTE_BYTES);
    }
  }

  lemma {:induction false} OffersAreTrimmed(t: Register, proposed: seq<Register>)
    requires TrimmedProposal(proposed)
    ensures TrimmedOffers(AllOffers(t, proposed))
  {
    hide Trimmed, ToLower, TrimmedFields;
    if proposed != [] {
      var front, last := proposed[..|proposed| - 1], proposed[|proposed| - 1];
      OffersAreTrimmed(t, front);
      assert last in proposed;
      forall i | 0 <= i < |last.fields| ensures Trimmed(Offers(last.fields)[i].1) {
        assert last.fields[i] in last.fields;
      }
    }
  }

  lemma {:induction false} TakenNamesTrimmed(t: Register, proposed: seq<Register>)
    requires TrimmedFields(t.fields) && TrimmedProposal(proposed)
    ensures TrimmedFields(TakeAll(t, proposed).fields)
  {
    hide Trimmed, ToLower, MergedReset, MergedEffect, Fill;
    if proposed != [] {
      var front, last := proposed[..|proposed| - 1], proposed[|proposed| - 1];
      TakenNamesTrimmed(t, front);
      var m := TakeAll(t, front);
      if Hits(m, last) && m.fields != [] {
        MergedFieldsKeepLayout(m.fields, last.fields);
        SameLayoutTrimmed(m.fields, MergedFields(m.fields, last.fields));
      }
    }
  }

  lemma SameLayoutTrimmed(a: seq<Field>, b: seq<Field>)
    requires SameLayout(a, b) && TrimmedFields(a)
    ensures TrimmedFields(b)
  {
    hide Trimmed;
    forall f | f in b ensures Trimmed(f.name) {
      var i :| 0 <= i < |b| && b[i] == f;
      assert a[i] in a;
    }
  }

  lemma NormalKeepsNames(fields: seq<Field>)
    requires TrimmedFields(fields)
    ensures SameLayout(fields, NormalFields(fields)) && NamesOf(NormalFields(fields)) == NamesOf(fields)
  {
    hide TrimSpace, Clamp, Trimmed, ToLower;
    forall i | 0 <= i < |fields| ensures NormalFields(fields)[i].name == fields[i].name {
      assert fields[i] in fields;
      TrimSpaceTrims(fields[i].name);
    }
  }

  /** The texts of some fields came from filling others. */
  ghost predicate FilledFrom(fields: seq<Field>, offers: seq<(string, string)>) {
    exists texts: seq<string> :: |texts| == |fields| && TextsOf(fields) == Fill(NamesOf(fields), texts, offers)
  }

  lemma TakenAreFilled(t: Register, proposed: seq<Register>)
    requires Distinct(NamesOf(TakeAll(t, proposed).fields))
    ensures FilledFrom(TakeAll(t, proposed).fields, AllOffers(t, proposed))
  {
    hide Fill, TakeAll, NamesOf, TextsOf, AllOffers, Distinct;
    var m, offers := TakeAll(t, proposed), AllOffers(t, proposed);
    if t.fields != [] {
      FieldsFilled(t, proposed);
      DescribedNames(t.fields, Fill(NamesOf(t.fields), TextsOf(t.fields), offers));
      assert TextsOf(m.fields) == Fill(NamesOf(m.fields), TextsOf(t.fields), offers);
    } else {
      FieldsAdopted(t, proposed);
      DescribedNames(m.fields, Fill(NamesOf(m.fields), Blanks(|m.fields|), offers));
      assert TextsOf(m.fields) == Fill(NamesOf(m.fields), Blanks(|m.fields|), offers);
    }
  }

  lemma NormalFieldsFilledAgain(fields: seq<Field>, offers: seq<(string, string)>)
    requires TrimmedFields(fields) && Distinct(NamesOf(fields)) && TrimmedOffers(offers) && FilledFrom(fields, offers)
    ensures var n := NormalFields(fields); Fill(NamesOf(n), TextsOf(n), offers) == TextsOf(n)
  {
    hide Fill, Distinct, TrimSpace, Clamp, Trimmed, TrimmedOffers, TrimmedFields, ToLower, NamesOf;
    var n := NormalFields(fields);
    NormalKeepsNames(fields);
    var texts :| |texts| == |fields| && TextsOf(fields) == Fill(NamesOf(fields), texts, offers);
    forall i | 0 <= i < |n| ensures Trimmed(TextsOf(n)[i]) && SameBlank(TextsOf(n)[i], TextsOf(fields)[i]) {
      ClampBlank(fields[i].description, MAX_NOTE_BYTES);
    }
    FilledAgain(NamesOf(fields), texts, offers, TextsOf(n));
  }

  // ----- One register

  /** A register that was merged and normalised takes nothing more from the same proposals. */
  lemma RegisterSettled(t: Register, proposed: seq<Register>)
    requires Trimmed(t.name) && !t.access.OtherAccess? && TrimmedFields(t.fields) && TrimmedProposal(proposed)
    requires Distinct(NamesOf(TakeAll(t, proposed).fields))
    ensures var n := NormalRegister(TakeAll(t, proposed)); TakeAll(n, proposed) == n
  {
    hide ToLower, TrimSpace, Trimmed, Clamp, Fill, NamesOf, TextsOf, Offered, Explained, TakeAll, TrimmedProposal,
      TrimmedFields, Distinct, CanonicalAccess;
    var m := TakeAll(t, proposed);
    var n := NormalRegister(m);
    TakeAllKeepsPlace(t, proposed);
    TrimSpaceTrims(t.name);
    SameHits(t, n, proposed);
    ResetTaken(t, proposed);
    ResetTaken(n, proposed);
    EffectTaken(t, proposed);
    EffectTaken(n, proposed);
    ClampBlank(m.effect, MAX_EFFECT_BYTES);
    FieldsSettled(t, n, proposed);
    OnlyTheseParts(n, proposed);
  }

  lemma FieldsSettled(t: Register, n: Register, proposed: seq<Register>)
    requires TrimmedFields(t.fields) && TrimmedProposal(proposed)
    requires n.name == t.name && n.offset == t.offset && n.width == t.width
    requires n.fields == NormalFields(TakeAll(t, proposed).fields)
    requires Distinct(NamesOf(TakeAll(t, proposed).fields))
    ensures TakeAll(n, proposed).fields == n.fields
  {
    hide ToLower, Trimmed, Fill, TakeAll, NamesOf, TextsOf, AllOffers, Distinct, TrimmedProposal, TrimmedFields,
      NormalField;
    AllOffersOfSamePlace(t, n, proposed);
    if n.fields != [] {
      OffersAreTrimmed(t, proposed);
      TakenNamesTrimmed(t, proposed);
      TakenAreFilled(t, proposed);
      NormalFieldsFilledAgain(TakeAll(t, proposed).fields, AllOffers(t, proposed));
      FieldsFilled(n, proposed);
      DescribedAsIs(n.fields);
    } else {
      if t.fields != [] {
        FieldsFilled(t, proposed);
        assert false;
      }
      FieldsAdopted(t, proposed);
      NoOffersNoFields(n, proposed);
    }
  }

  // ----- The whole representation

  lemma IrqsSettled(irqs: seq<Irq>, proposed: seq<Irq>)
    requires forall q | q in proposed :: Trimmed(q.description)
    requires Distinct(IndicesOf(MergedIrqs(irqs, proposed)))
    ensures var n := NormalIrqs(MergedIrqs(irqs, proposed)); MergedIrqs(n, proposed) == n
  {
    hide TrimSpace, Fill, Distinct, Trimmed, Clamp;
    var m := MergedIrqs(irqs, proposed);
    var n := NormalIrqs(m);
    var offers := Zip(IndicesOf(proposed), IrqTexts(proposed));
    assert IndicesOf(n) == IndicesOf(m);
    forall i | 0 <= i < |n| ensures Trimmed(IrqTexts(n)[i]) && SameBlank(IrqTexts(n)[i], IrqTexts(m)[i]) {
      ClampBlank(m[i].description, MAX_NOTE_BYTES);
    }
    forall i | 0 <= i < |offers| ensures Trimmed(offers[i].1) {
      assert proposed[i] in proposed;
    }
    if irqs != [] {
      assert IndicesOf(m) == IndicesOf(irqs);
      assert IrqTexts(m) == Fill(IndicesOf(irqs), IrqTexts(irqs), offers);
      FilledAgain(IndicesOf(irqs), IrqTexts(irqs), offers, IrqTexts(n));
    } else if proposed != [] {
      AdoptIsFill(IndicesOf(proposed), IrqTexts(proposed));
      FilledAgain(IndicesOf(proposed), Blanks(|proposed|), offers, IrqTexts(n));
    }
  }

  lemma NormalIrqsTrimmed(irqs: seq<Irq>)
    ensures forall q | q in NormalIrqs(irqs) :: Trimmed(q.description)
  {
    hide TrimSpace, Clamp, Trimmed;
    forall q | q in NormalIrqs(irqs) ensures Trimmed(q.description) {
      var i :| 0 <= i < |irqs| && NormalIrqs(irqs)[i] == q;
      ClampBlank(irqs[i].description, MAX_NOTE_BYTES);
    }
  }

  lemma LegalRegisterIsTrimmed(r: Register, mmioSize: int)
    requires LegalRegister(r, mmioSize)
    ensures Trimmed(r.name) && !r.access.OtherAccess? && TrimmedFields(r.fields) && Distinct(NamesOf(r.fields))
  {
    LegalNames(r, mmioSize);
    LegalFieldKeysDiffer(r, mmioSize);
    hide LegalRegister, NamesOf, Distinct;
  }

  /** The merge of a reply into the result that was inferred from it is that result. */
  lemma MergeSettled(base: Ir, reply: Ir)
    requires Legal(base) && Legal(Inferred(base, reply))
    ensures var n := Inferred(base, reply); Merged(n, Normal(reply)) == n
  {
    hide ToLower, ToUpper, TakeAll, AbsorbAll, NamesOf, MergedIrqs, Distinct, Trimmed, TrimmedProposal, TrimmedFields,
      NormalRegister, LegalRegister, LegalIdentity, Remarks, BoundedNotes, KeptNotes, EffectCuts, LegalHead, NormalBus,
      TrimSpace;
    var p, n := Normal(reply), Inferred(base, reply);
    var m := Merged(base, p);
    NormalIsTrimmed(reply.registers);
    NormalIrqsTrimmed(reply.interrupts);
    LegalKeysDiffer(base);
    LegalKeysDiffer(n);
    assert IndicesOf(m.interrupts) == IndicesOf(n.interrupts);
    IrqsSettled(base.interrupts, p.interrupts);
    forall i | 0 <= i < |n.registers| ensures AbsorbAll(n.registers, p.registers)[i] == n.registers[i] {
      assert base.registers[i] in base.registers && n.registers[i] in n.registers;
      AbsorbAllPointwise(base.registers, p.registers, i);
      AbsorbAllPointwise(n.registers, p.registers, i);
      SettledAt(base.registers[i], p.registers, base.mmioSize);
    }
  }

  lemma SettledAt(t: Register, proposed: seq<Register>, mmioSize: int)
    requires LegalRegister(t, mmioSize) && TrimmedProposal(proposed)
    requires Distinct(NamesOf(NormalRegister(TakeAll(t, proposed)).fields))
    ensures var n := NormalRegister(TakeAll(t, proposed)); TakeAll(n, proposed) == n
  {
    hide TakeAll, TrimmedProposal, NamesOf, LegalRegister, NormalField, Distinct;
    LegalRegisterIsTrimmed(t, mmioSize);
    TakenNamesTrimmed(t, proposed);
    NormalKeepsNames(TakeAll(t, proposed).fields);
    RegisterSettled(t, proposed);
  }

  // ----- What a second normalization does

  /** Clamping the text once is enough. */
  predicate TextSettles(s: string, limit: nat) {
    !LineEndSurvives(TrimSpace(s), limit)
  }

  predicate RegisterSettles(r: Register) {
    TextSettles(r.effect, MAX_EFFECT_BYTES) && forall f | f in r.fields :: TextSettles(f.description, MAX_NOTE_BYTES)
  }

  /** No text of the map keeps a line end through its first clamp. */
  predicate Settles(ir: Ir) {
    && (forall r | r in ir.registers :: RegisterSettles(r))
    && (forall q | q in ir.interrupts :: TextSettles(q.description, MAX_NOTE_BYTES))
  }

  lemma FieldsNormalTwice(fields: seq<Field>)
    requires TrimmedFields(NormalFields(fields))
    ensures NormalFields(NormalFields(fields)) == NormalFields(fields) <==>
            forall f | f in fields :: TextSettles(f.description, MAX_NOTE_BYTES)
  {
    hide TrimSpace, Trimmed, Clamp, TextSettles;
    var n := NormalFields(fields);
    forall i | 0 <= i < |fields|
      ensures NormalField(n[i]) == n[i] <==> TextSettles(fields[i].description, MAX_NOTE_BYTES)
    {
      assert n[i] in n;
      TrimSpaceTrims(n[i].name);
      TextSettlesExactly(fields[i].description, MAX_NOTE_BYTES);
    }
    assert NormalFields(n) == n <==> forall i | 0 <= i < |n| :: NormalField(n[i]) == n[i];
    assert forall i | 0 <= i < |fields| :: fields[i] in fields;
  }

  lemma TextSettlesExactly(s: string, limit: nat)
    ensures TextSettles(s, limit) <==> Clamp(Clamp(s, limit).0, limit).0 == Clamp(s, limit).0
  {
    hide TrimSpace, Clamp, LineEndSurvives;
    ClampSettles(s, limit);
  }

  lemma RegisterNormalTwice(r: Register)
    requires Trimmed(NormalRegister(r).name) && TrimmedFields(NormalRegister(r).fields)
    requires !NormalRegister(r).access.OtherAccess?
    ensures NormalRegister(NormalRegister(r)) == NormalRegister(r) <==> RegisterSettles(r)
  {
    hide TrimSpace, Trimmed, Clamp, TextSettles, NormalField, TrimmedFields, CanonicalAccess;
    var n := NormalRegister(r);
    TrimSpaceTrims(n.name);
    TextSettlesExactly(r.effect, MAX_EFFECT_BYTES);
    FieldsNormalTwice(r.fields);
  }

  lemma IrqsNormalTwice(irqs: seq<Irq>)
    requires LegalIrqs(NormalIrqs(irqs))
    ensures NormalIrqs(NormalIrqs(irqs)) == NormalIrqs(irqs) <==>
            forall q | q in irqs :: TextSettles(q.description, MAX_NOTE_BYTES)
  {
    hide TrimSpace, Clamp, TextSettles, IsSymbol;
    var n := NormalIrqs(irqs);
    forall i | 0 <= i < |irqs| ensures NormalIrq(n[i]) == n[i] <==> TextSettles(irqs[i].description, MAX_NOTE_BYTES) {
      assert n[i] in n;
      SymbolIsTrimmed(n[i].name);
      TextSettlesExactly(irqs[i].description, MAX_NOTE_BYTES);
    }
    assert NormalIrqs(n) == n <==> forall i | 0 <= i < |n| :: NormalIrq(n[i]) == n[i];
    assert forall i | 0 <= i < |irqs| :: irqs[i] in irqs;
  }

  lemma RegistersNormalTwice(registers: seq<Register>, mmioSize: int)
    requires LegalMap(NormalRegisters(registers), mmioSize)
    ensures NormalRegisters(NormalRegisters(registers)) == NormalRegisters(registers) <==>
            forall r | r in registers :: RegisterSettles(r)
  {
    hide NormalRegister, RegisterSettles, LegalRegister, ToUpper, Trimmed, TrimmedFields;
    var n := NormalRegisters(registers);
    forall i | 0 <= i < |registers| ensures NormalRegister(n[i]) == n[i] <==> RegisterSettles(registers[i]) {
      assert n[i] in n;
      LegalRegisterIsTrimmed(n[i], mmioSize);
      RegisterNormalTwice(registers[i]);
    }
    assert NormalRegisters(n) == n <==> forall i | 0 <= i < |n| :: NormalRegister(n[i]) == n[i];
    assert forall i | 0 <= i < |registers| :: registers[i] in registers;
  }

  /** Running infer again on its own accepted result, with the same reply, is accepted: the merge leaves every
      field block and the interrupts as they are, and these were legal. */
  lemma RetryIsLegal(base: Ir, reply: Ir)
    requires Legal(base) && Legal(Inferred(base, reply))
    ensures Legal(Inferred(Inferred(base, reply), reply))
  {
    hide Merged, Normal, NormalRegister, TrimSpace, ToLower, ToUpper, IsDevice, IsPow2, LegalHead, LegalFields, LegalIrqs;
    var once := Inferred(base, reply);
    var twice := Inferred(once, reply);
    MergeSettled(base, reply);
    InferredParts(once, reply);
    OnlyAdoptedPartsCanFail(once, reply);
    forall i: nat | AdoptsFields(once, i) ensures LegalFields(twice.registers[i].fields, once.registers[i].width) {
      assert once.registers[i] in once.registers;
      StillNoFields(once.registers[i]);
    }
    if once.interrupts == [] {
      assert twice.interrupts == [];
    }
  }

  lemma StillNoFields(r: Register)
    requires r.fields == []
    ensures NormalRegister(r).fields == []
  {
  }

  /** Running infer again on its own accepted result, with the same reply, changes nothing but the notes if
      and only if no text of the merged map keeps a line end through its first clamp. */
  lemma RetryChangesNothingExactly(base: Ir, reply: Ir)
    requires Legal(base) && Legal(Inferred(base, reply))
    ensures var once := Inferred(base, reply);
            var twice := Inferred(once, reply);
            twice == once.(notes := twice.notes) <==> Settles(Merged(base, Normal(reply)))
  {
    hide Merged, Normal, RegisterSettles, TextSettles, TrimSpace, ToLower, IsDevice, IsPow2, LegalMap, LegalIrqs;
    var m, once := Merged(base, Normal(reply)), Inferred(base, reply);
    var twice := Inferred(once, reply);
    InferredParts(base, reply);
    MergeSettled(base, reply);
    InferredParts(once, reply);
    RegistersNormalTwice(m.registers, once.mmioSize);
    IrqsNormalTwice(m.interrupts);
    DeviceIsNormal(once.device);
  }

  lemma InferredParts(base: Ir, reply: Ir)
    ensures var m, n := Merged(base, Normal(reply)), Inferred(base, reply);
            && n.device == ToLower(TrimSpace(m.device)) && n.bus == NormalBus(m.bus) && n.mmioSize == m.mmioSize
            && n.registers == NormalRegisters(m.registers) && n.interrupts == NormalIrqs(m.interrupts)
  {
    hide Merged, ToLower, TrimSpace, NormalBus, Remarks, KeptNotes, EffectCuts;
  }

  const TWO_RETURNS := "a\r\r\nb"

  /** A device whose one effect has two carriage returns before a line feed. */
  function ReturnsDevice(): Ir {
    Ir("uart", Sysbus, 4, [Register("DATA", 0, 32, RW, None, [], TWO_RETURNS)], [], [])
  }

  /** Such a base and an empty reply: the retry is accepted like the first run and changes the effect. */
  lemma RetryMayRewriteAnEffect(reply: Ir)
    requires reply.registers == [] && reply.interrupts == []
    ensures var base := ReturnsDevice();
            && Legal(base) && Legal(Inferred(base, reply)) && Legal(Inferred(Inferred(base, reply), reply))
            && Inferred(Inferred(base, reply), reply).registers != Inferred(base, reply).registers
  {
    var base := ReturnsDevice();
    var once := Inferred(base, reply);
    ReturnsDeviceLegal();
    hide Legal, LegalFields, LegalIrqs, Settles, Normal;
    InferredParts(base, reply);
    EmptyReply(base, reply);
    assert once.registers[0].fields == [];
    assert LegalFields([], 32) && LegalIrqs([]) by { NothingIsLegal(); }
    OnlyAdoptedPartsCanFail(base, reply);
    RetryIsLegal(base, reply);
    InferredParts(once, reply);
    EmptyReply(once, reply);
    EffectChanges();
  }

  lemma NothingIsLegal()
    ensures LegalFields([], 32) && LegalIrqs([])
  {
  }

  lemma EmptyReply(base: Ir, reply: Ir)
    requires reply.registers == [] && reply.interrupts == []
    ensures Merged(base, Normal(reply)).registers == base.registers
    ensures base.interrupts == [] ==> Merged(base, Normal(reply)).interrupts == []
  {
    hide KeptNotes, EffectCuts, TrimSpace, ToLower, NormalBus;
  }

  lemma EffectChanges()
    ensures Clamp(Clamp(TWO_RETURNS, MAX_EFFECT_BYTES).0, MAX_EFFECT_BYTES).0 != Clamp(TWO_RETURNS, MAX_EFFECT_BYTES).0
  {
    var joined := ['a', '\r', '\n', 'b'];
    assert ['a'][..0] == "" && ['a', '\r'][..1] == ['a'] && ['a', '\r', '\n'][..2] == ['a', '\r'];
    assert ByteLen(['a']) == 1;
    assert ByteLen(['a', '\r']) == 2;
    assert ByteLen(['a', '\r', '\n']) == 3;
    assert joined[..3] == ['a', '\r', '\n'];
    assert ByteLen(joined) == 4;
    SecondClampJoins('a', 'b', MAX_EFFECT_BYTES);
  }

  lemma ReturnsDeviceLegal()
    ensures Legal(ReturnsDevice())
  {
    assert IsPow2(4);
    assert IsSymbol("DATA");
  }
}
