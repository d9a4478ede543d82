/** What a merge puts into the holes of a base: in each case the first thing that was offered for it. */
module MergeValues {
  import opened Common
  import opened RegIr
  import opened Prose
  import opened Merge
  import opened MergeLaws

  /** The proposal is about this register: its name, case ignored, its offset and its width. */
  predicate About(t: Register, c: Register) {
    ToLower(c.name) == ToLower(t.name) && c.offset == t.offset && c.width == t.width
  }

  predicate OffersReset(t: Register, c: Register) {
    About(t, c) && c.reset.Some? && (0 <= t.width < 64 ==> c.reset.value < Pow2(t.width))
  }

  predicate OffersEffect(t: Register, c: Register) {
    About(t, c) && TrimSpace(c.effect) != ""
  }

  predicate OffersFields(t: Register, c: Register) {
    About(t, c) && c.fields != []
  }

  /** Position k is the first at which the proposals offer something. */
  ghost predicate FirstTo(offers: (Register, Register) -> bool, t: Register, proposed: seq<Register>, k: int) {
    0 <= k < |proposed| && offers(t, proposed[k]) && forall j | 0 <= j < k :: !offers(t, proposed[j])
  }

  ghost predicate NoneTo(offers: (Register, Register) -> bool, t: Register, proposed: seq<Register>) {
    forall c | c in proposed :: !offers(t, c)
  }

  lemma FitsIsBelow(t: Register, c: Register)
    requires c.reset.Some?
    ensures FitsWidth(c.reset.value, t.width) <==> (0 <= t.width < 64 ==> c.reset.value < Pow2(t.width))
  {
    hide Pow2;
  }

  // ----- Reset values and effects

  lemma {:induction false} ResetIsFirst(t: Register, proposed: seq<Register>)
    ensures t.reset.Some? ==> TakeAll(t, proposed).reset == t.reset
    ensures t.reset.None? ==>
              && (forall k | FirstTo(OffersReset, t, proposed, k) :: TakeAll(t, proposed).reset == proposed[k].reset)
              && (NoneTo(OffersReset, t, proposed) ==> TakeAll(t, proposed).reset.None?)
  {
    hide ToLower, MergedFields, MergedEffect, FitsWidth, Pow2;
    if proposed != [] {
      var front, last := proposed[..|proposed| - 1], proposed[|proposed| - 1];
      ResetIsFirst(t, front);
      TakeAllKeepsPlace(t, front);
      if last.reset.Some? {
        FitsIsBelow(t, last);
      }
      FirstOrNone(OffersReset, t, proposed);
      FirstExists(OffersReset, t, front);
    }
  }

  /** The first offer is one of the front, or the last if the front has none. */
  lemma FirstOrNone(offers: (Register, Register) -> bool, t: Register, proposed: seq<Register>)
    requires proposed != []
    ensures var front, last := proposed[..|proposed| - 1], proposed[|proposed| - 1];
            && (forall k | FirstTo(offers, t, proposed, k) ::
                  FirstTo(offers, t, front, k) || (k == |front| && NoneTo(offers, t, front) && offers(t, last)))
            && (NoneTo(offers, t, proposed) <==> NoneTo(offers, t, front) && !offers(t, last))
  {
    var front, last := proposed[..|proposed| - 1], proposed[|proposed| - 1];
    assert forall c :: c in proposed <==> c in front || c == last;
  }

  lemma {:induction false} EffectIsFirst(t: Register, proposed: seq<Register>)
    ensures TrimSpace(t.effect) != "" ==> TakeAll(t, proposed).effect == t.effect
    ensures TrimSpace(t.effect) == "" ==>
              && (forall k | FirstTo(OffersEffect, t, proposed, k) :: TakeAll(t, proposed).effect == proposed[k].effect)
              && (NoneTo(OffersEffect, t, proposed) ==> TakeAll(t, proposed).effect == t.effect)
  {
    hide ToLower, MergedFields, MergedReset, TrimSpace;
    if proposed != [] {
      var front, last := proposed[..|proposed| - 1], proposed[|proposed| - 1];
      EffectIsFirst(t, front);
      TakeAllKeepsPlace(t, front);
      FirstOrNone(OffersEffect, t, proposed);
      FirstExists(OffersEffect, t, front);
    }
  }

  lemma {:induction false} FirstExists(offers: (Register, Register) -> bool, t: Register, proposed: seq<Register>)
    ensures NoneTo(offers, t, proposed) || exists k :: FirstTo(offers, t, proposed, k)
  {
    if proposed != [] {
      var front, last := proposed[..|proposed| - 1], proposed[|proposed| - 1];
      FirstExists(offers, t, front);
      if k :| FirstTo(offers, t, front, k) {
        assert FirstTo(offers, t, proposed, k);
      } else if offers(t, last) {
        assert forall j | 0 <= j < |front| :: front[j] in front;
        assert FirstTo(offers, t, proposed, |front|);
      } else {
        assert forall c :: c in proposed <==> c in front || c == last;
      }
    }
  }

  // ----- Field blocks

  /** The same fields, and every description that was there. */
  predicate SameFields(a: seq<Field>, b: seq<Field>) {
    && SameLayout(a, b)
    && forall i | 0 <= i < |a| && TrimSpace(a[i].description) != "" :: b[i].description == a[i].description
  }

  lemma SameFieldsTransitive(a: seq<Field>, b: seq<Field>, c: seq<Field>)
    requires SameFields(a, b) && SameFields(b, c)
    ensures SameFields(a, c)
  {
    hide TrimSpace;
  }

  lemma MergedFieldsKeep(fields: seq<Field>, proposed: seq<Field>)
    requires fields != []
    ensures SameFields(fields, MergedFields(fields, proposed))
  {
    hide TrimSpace, NamesOf, TextsOf, Offers, Fill;
    FillKeeps(NamesOf(fields), TextsOf(fields), Offers(proposed));
  }

  lemma {:induction false} FillKeeps<K>(keys: seq<K>, texts: seq<string>, proposals: seq<(K, string)>)
    requires |keys| == |texts|
    ensures forall i | 0 <= i < |texts| && TrimSpace(texts[i]) != "" :: Fill(keys, texts, proposals)[i] == texts[i]
  {
    hide TrimSpace;
    if proposals != [] {
      FillKeeps(keys, texts, proposals[..|proposals| - 1]);
    }
  }

  lemma {:induction false} FieldsAreFirst(t: Register, proposed: seq<Register>)
    ensures t.fields != [] ==> SameFields(t.fields, TakeAll(t, proposed).fields)
    ensures t.fields == [] ==>
              && (forall k | FirstTo(OffersFields, t, proposed, k) ::
                    SameFields(proposed[k].fields, TakeAll(t, proposed).fields))
              && (NoneTo(OffersFields, t, proposed) ==> TakeAll(t, proposed).fields == [])
  {
    hide ToLower, MergedReset, MergedEffect, TrimSpace, Fill;
    if proposed != [] {
      var front, last := proposed[..|proposed| - 1], proposed[|proposed| - 1];
      FieldsAreFirst(t, front);
      TakeAllKeepsPlace(t, front);
      FirstOrNone(OffersFields, t, proposed);
      FirstExists(OffersFields, t, front);
      var before, after := TakeAll(t, front).fields, TakeAll(t, proposed).fields;
      if before != [] {
        MergedFieldsKeep(before, last.fields);
        assert SameFields(before, after);
        forall k | FirstTo(OffersFields, t, front, k) && t.fields == [] ensures SameFields(proposed[k].fields, after) {
          SameFieldsTransitive(front[k].fields, before, after);
        }
        if t.fields != [] {
          SameFieldsTransitive(t.fields, before, after);
        }
      } else if Hits(t, last) {
        assert after == MergedFields(before, last.fields);
        NothingToFill(last.fields);
      }
    }
  }

  lemma NothingToFill(proposed: seq<Field>)
    ensures MergedFields([], proposed) == proposed
  {
  }

  // ----- Descriptions

  lemma {:induction false} FillTextOffered<K>(key: K, text: string, offers: seq<(K, string)>)
    requires TrimSpace(text) == ""
    ensures var r := FillText(key, text, offers);
            && (TrimSpace(r) != "" <==> exists q :: q in offers && q.0 == key && TrimSpace(q.1) != "")
            && (TrimSpace(r) != "" ==> (key, r) in offers)
  {
    hide TrimSpace;
    if offers != [] {
      var front, last := offers[..|offers| - 1], offers[|offers| - 1];
      FillTextOffered(key, text, front);
      assert forall q :: q in offers <==> q in front || q == last;
      assert last == (last.0, last.1);
    }
  }

  /** A text is offered for a field of a register. */
  predicate OffersText(t: Register, proposed: seq<Register>, name: string, text: string) {
    exists c, f :: c in proposed && About(t, c) && f in c.fields && ToLower(f.name) == name && f.description == text
  }

  lemma OffersOf(fields: seq<Field>, name: string, text: string)
    ensures (name, text) in Offers(fields) <==> exists f :: f in fields && ToLower(f.name) == name && f.description == text
  {
    hide ToLower;
    forall i | 0 <= i < |fields| ensures Offers(fields)[i] == (ToLower(fields[i].name), fields[i].description) {
    }
    if f :| f in fields && ToLower(f.name) == name && f.description == text {
      var i :| 0 <= i < |fields| && fields[i] == f;
      assert Offers(fields)[i] == (name, text);
    }
  }

  lemma {:induction false} AllOffersAre(t: Register, proposed: seq<Register>, name: string, text: string)
    ensures (name, text) in AllOffers(t, proposed) <==> OffersText(t, proposed, name, text)
  {
    hide ToLower, Offers;
    if proposed != [] {
      var front, last := proposed[..|proposed| - 1], proposed[|proposed| - 1];
      AllOffersAre(t, front, name, text);
      OffersOf(last.fields, name, text);
      assert forall c :: c in proposed <==> c in front || c == last;
    }
  }

  /** A blank description of a field is completed if and only if a text is offered for it, and then by such a text. */
  lemma DescriptionIsOffered(t: Register, proposed: seq<Register>, i: nat)
    requires i < |t.fields| && Distinct(NamesOf(t.fields)) && TrimSpace(t.fields[i].description) == ""
    ensures |TakeAll(t, proposed).fields| == |t.fields|
    ensures var text, name := TakeAll(t, proposed).fields[i].description, ToLower(t.fields[i].name);
            && (TrimSpace(text) != "" <==> exists x :: OffersText(t, proposed, name, x) && TrimSpace(x) != "")
            && (TrimSpace(text) != "" ==> OffersText(t, proposed, name, text))
  {
    hide ToLower, TrimSpace, Fill, TakeAll, AllOffers, Distinct, OffersText, FillText;
    var offers, name := AllOffers(t, proposed), ToLower(t.fields[i].name);
    FieldsFilled(t, proposed);
    FillPointwise(NamesOf(t.fields), TextsOf(t.fields), offers, i);
    FillTextOffered(name, t.fields[i].description, offers);
    forall x ensures (name, x) in offers <==> OffersText(t, proposed, name, x) {
      AllOffersAre(t, proposed, name, x);
    }
    assert forall q :: q in offers && q.0 == name ==> q == (name, q.1);
  }

  // ----- The whole merge

  /** What becomes of a register: the three facts and everything that was there stay, and each hole gets the first
      thing that is offered for it, if anything is. */
  ghost predicate FilledBy(t: Register, proposed: seq<Register>, m: Register) {
    && m.name == t.name && m.offset == t.offset && m.width == t.width && m.access == t.access
    && (t.reset.Some? ==> m.reset == t.reset)
    && (t.reset.None? ==>
          && (forall k | FirstTo(OffersReset, t, proposed, k) :: m.reset == proposed[k].reset)
          && (NoneTo(OffersReset, t, proposed) ==> m.reset.None?))
    && (TrimSpace(t.effect) != "" ==> m.effect == t.effect)
    && (TrimSpace(t.effect) == "" ==>
          && (forall k | FirstTo(OffersEffect, t, proposed, k) :: m.effect == proposed[k].effect)
          && (NoneTo(OffersEffect, t, proposed) ==> m.effect == t.effect))
    && (t.fields != [] ==> SameFields(t.fields, m.fields))
    && (t.fields == [] ==>
          && (forall k | FirstTo(OffersFields, t, proposed, k) :: SameFields(proposed[k].fields, m.fields))
          && (NoneTo(OffersFields, t, proposed) ==> m.fields == []))
  }

  lemma TakenIsFilled(t: Register, proposed: seq<Register>)
    ensures FilledBy(t, proposed, TakeAll(t, proposed))
  {
    hide ToLower, TakeAll, TrimSpace, SameFields, FirstTo, NoneTo;
    TakeAllKeepsPlace(t, proposed);
    ResetIsFirst(t, proposed);
    EffectIsFirst(t, proposed);
    FieldsAreFirst(t, proposed);
  }

  /** For a base whose register names differ, case ignored, and any proposal. */
  lemma HolesAreFilled(base: Ir, proposal: Ir)
    requires Distinct(RegisterKeys(base.registers))
    ensures var m := Merged(base, proposal);
            && |m.registers| == |base.registers|
            && forall i | 0 <= i < |base.registers| :: FilledBy(base.registers[i], proposal.registers, m.registers[i])
  {
    hide AbsorbAll, TakeAll, FilledBy, RegisterKeys, MergedIrqs, Distinct;
    forall i | 0 <= i < |base.registers|
      ensures FilledBy(base.registers[i], proposal.registers, AbsorbAll(base.registers, proposal.registers)[i])
    {
      AbsorbAllPointwise(base.registers, proposal.registers, i);
      TakenIsFilled(base.registers[i], proposal.registers);
    }
  }

  /** And something is always first, if anything is offered. */
  lemma SomethingIsFirst(t: Register, proposed: seq<Register>)
    ensures NoneTo(OffersReset, t, proposed) || exists k :: FirstTo(OffersReset, t, proposed, k)
    ensures NoneTo(OffersEffect, t, proposed) || exists k :: FirstTo(OffersEffect, t, proposed, k)
    ensures NoneTo(OffersFields, t, proposed) || exists k :: FirstTo(OffersFields, t, proposed, k)
  {
    hide About, NoneTo, FirstTo;
    FirstExists(OffersReset, t, proposed);
    FirstExists(OffersEffect, t, proposed);
    FirstExists(OffersFields, t, proposed);
  }

  /** The descriptions of interrupts likewise, by index; a list where there was none is taken as it is. */
  lemma IrqsAreFilled(base: Ir, proposal: Ir)
    requires Distinct(IndicesOf(base.interrupts))
    ensures var m := Merged(base, proposal).interrupts;
            && (base.interrupts == [] ==> m == proposal.interrupts)
            && (base.interrupts != [] ==>
                  && SameLines(base.interrupts, m)
                  && forall i | 0 <= i < |m| ::
                       var was, text := base.interrupts[i].description, m[i].description;
                       && (TrimSpace(was) != "" ==> text == was)
                       && (TrimSpace(was) == "" && TrimSpace(text) != "" ==>
                             exists q :: q in proposal.interrupts && q.index == m[i].index && q.description == text)
                       && (TrimSpace(was) == "" && TrimSpace(text) == "" ==>
                             forall q | q in proposal.interrupts && q.index == m[i].index :: TrimSpace(q.description) == ""))
  {
    hide AbsorbAll, TrimSpace, Fill, FillText, Distinct;
    var irqs, proposed := base.interrupts, proposal.interrupts;
    if irqs != [] {
      var offers := Zip(IndicesOf(proposed), IrqTexts(proposed));
      forall i | 0 <= i < |irqs|
        ensures Fill(IndicesOf(irqs), IrqTexts(irqs), offers)[i] == FillText(irqs[i].index, irqs[i].description, offers)
      {
        FillPointwise(IndicesOf(irqs), IrqTexts(irqs), offers, i);
      }
      forall i | 0 <= i < |irqs| && TrimSpace(irqs[i].description) != ""
        ensures FillText(irqs[i].index, irqs[i].description, offers) == irqs[i].description
      {
        FilledStays(irqs[i].index, irqs[i].description, offers);
      }
      forall i | 0 <= i < |irqs| && TrimSpace(irqs[i].description) == ""
        ensures IrqOffered(proposed, irqs[i].index, FillText(irqs[i].index, irqs[i].description, offers))
      {
        FillTextOffered(irqs[i].index, irqs[i].description, offers);
        IrqOffers(proposed, irqs[i].index, FillText(irqs[i].index, irqs[i].description, offers));
      }
    }
  }

  ghost predicate IrqOffered(proposed: seq<Irq>, index: I64, text: string) {
    if TrimSpace(text) != "" then exists q :: q in proposed && q.index == index && q.description == text
    else forall q | q in proposed && q.index == index :: TrimSpace(q.description) == ""
  }

  lemma IrqOffers(proposed: seq<Irq>, index: I64, text: string)
    requires var offers := Zip(IndicesOf(proposed), IrqTexts(proposed));
             && (TrimSpace(text) != "" <==> exists q :: q in offers && q.0 == index && TrimSpace(q.1) != "")
             && (TrimSpace(text) != "" ==> (index, text) in offers)
    ensures IrqOffered(proposed, index, text)
  {
    hide TrimSpace;
    var offers := Zip(IndicesOf(proposed), IrqTexts(proposed));
    forall i | 0 <= i < |proposed| ensures offers[i] == (proposed[i].index, proposed[i].description) && offers[i] in offers {
    }
  }
}
