/** Nothing a merge refuses goes unnoticed: every disagreement of a proposal with the base is remarked. */
module MergeRefusals {
  import opened Common
  import opened RegIr
  import opened Prose
  import opened Merge
  import opened MergeLaws
  import opened MergeValues

  /** How a proposed register stands to the base and to what became of it. */
  predicate Remarked(base: seq<Register>, merged: seq<Register>, c: Register, remarks: seq<Remark>)
    requires |base| == |merged|
  {
    && ((forall t | t in base :: ToLower(t.name) != ToLower(c.name)) ==> UnseenRegister(c.name) in remarks)
    && forall i | 0 <= i < |base| && ToLower(base[i].name) == ToLower(c.name) ::
         && (c.offset != base[i].offset || c.width != base[i].width ==> MovedRegister(base[i].name) in remarks)
         && (About(base[i], c) ==>
               && (c.access != OtherAccess("") && c.access != base[i].access ==>
                     OtherAccessMode(base[i].name, c.access) in remarks)
               && (c.reset.Some? && merged[i].reset != c.reset ==>
                     OtherReset(base[i].name) in remarks || WideReset(base[i].name) in remarks))
  }

  lemma AbsorbedIsRemarked(base: seq<Register>, front: seq<Register>, c: Register)
    requires Distinct(RegisterKeys(base))
    ensures var before := AbsorbAll(base, front);
            Remarked(base, Absorb(before, c), c, AbsorbRemarks(before, c))
  {
    hide ToLower, FitsWidth, MergedFields, MergedEffect, AbsorbAll, TakeAll, Distinct;
    var before := AbsorbAll(base, front);
    forall i | 0 <= i < |base|
      ensures before[i].name == base[i].name && before[i].offset == base[i].offset && before[i].width == base[i].width
              && before[i].access == base[i].access
    {
      AbsorbAllPointwise(base, front, i);
      TakeAllKeepsPlace(base[i], front);
    }
    assert RegisterKeys(before) == RegisterKeys(base);
    forall i | 0 <= i < |base| && ToLower(base[i].name) == ToLower(c.name)
      ensures LastAt(RegisterKeys(before), ToLower(c.name)) == Some(i)
    {
      LastAtDistinct(RegisterKeys(before), i);
    }
    assert forall i | 0 <= i < |base| :: base[i] in base;
  }

  /** A later proposal does not take back what an earlier one was given. */
  lemma StaysRemarked(base: seq<Register>, merged: seq<Register>, later: seq<Register>, c: Register,
                      remarks: seq<Remark>, more: seq<Remark>)
    requires |base| == |merged| == |later| && Remarked(base, merged, c, remarks)
    requires forall i | 0 <= i < |base| && merged[i].reset.Some? :: later[i].reset == merged[i].reset
    ensures Remarked(base, later, c, remarks + more)
  {
    hide ToLower;
    assert forall r | r in remarks :: r in remarks + more;
  }

  lemma {:induction false} AllRemarked(base: seq<Register>, proposed: seq<Register>)
    requires Distinct(RegisterKeys(base))
    ensures forall c | c in proposed ::
              Remarked(base, AbsorbAll(base, proposed), c, AbsorbAllRemarks(base, proposed))
  {
    hide Distinct, Remarked, Absorb, AbsorbRemarks;
    if proposed != [] {
      var front, last := proposed[..|proposed| - 1], proposed[|proposed| - 1];
      var before := AbsorbAll(base, front);
      AllRemarked(base, front);
      AbsorbedIsRemarked(base, front, last);
      forall i | 0 <= i < |base| && before[i].reset.Some? ensures Absorb(before, last)[i].reset == before[i].reset {
        AbsorbKeepsReset(before, last, i);
      }
      forall c | c in proposed ensures Remarked(base, AbsorbAll(base, proposed), c, AbsorbAllRemarks(base, proposed)) {
        if c in front {
          StaysRemarked(base, before, Absorb(before, last), c, AbsorbAllRemarks(base, front), AbsorbRemarks(before, last));
        } else {
          assert c == last;
          MoreRemarks(base, Absorb(before, last), last, AbsorbAllRemarks(base, front), AbsorbRemarks(before, last));
        }
      }
    }
  }

  lemma AbsorbKeepsReset(registers: seq<Register>, c: Register, i: nat)
    requires i < |registers| && registers[i].reset.Some?
    ensures Absorb(registers, c)[i].reset == registers[i].reset
  {
    hide ToLower, MergedFields, MergedEffect, FitsWidth;
  }

  lemma MoreRemarks(base: seq<Register>, merged: seq<Register>, c: Register, before: seq<Remark>, remarks: seq<Remark>)
    requires |base| == |merged| && Remarked(base, merged, c, remarks)
    ensures Remarked(base, merged, c, before + remarks)
  {
    hide ToLower;
    assert forall r | r in remarks :: r in before + remarks;
  }

  lemma {:induction false} IrqsRemarked(irqs: seq<Irq>, proposed: seq<Irq>)
    requires irqs != []
    ensures forall q | q in proposed && (forall own | own in irqs :: own.index != q.index) ::
              ExtraInterrupt(q.index) in IrqRemarks(irqs, proposed)
  {
    if proposed != [] {
      var front, last := proposed[..|proposed| - 1], proposed[|proposed| - 1];
      IrqsRemarked(irqs, front);
      assert forall q :: q in proposed <==> q in front || q == last;
      if forall own | own in irqs :: own.index != last.index {
        assert last.index !in IndicesOf(irqs);
      }
    }
  }

  lemma {:induction false} NotesRemarked(notes: seq<string>)
    ensures forall note | note in notes && TrimSpace(note) != "" :: Doubt(TrimSpace(note)) in Doubts(notes)
  {
    hide TrimSpace;
    if notes != [] {
      NotesRemarked(notes[..|notes| - 1]);
      assert forall note :: note in notes <==> note in notes[..|notes| - 1] || note == notes[|notes| - 1];
    }
  }

  /** Another device, bus or size; a register the base does not have or has elsewhere; another access mode; a reset
      value that was not taken; an interrupt the base does not have; and every note: all are remarked. */
  lemma NothingDroppedSilently(base: Ir, proposal: Ir)
    requires Distinct(RegisterKeys(base.registers))
    ensures var m, remarks := Merged(base, proposal), Remarks(base, proposal);
            && (proposal.device != "" && proposal.device != base.device ==> OtherDevice(proposal.device) in remarks)
            && (proposal.bus != OtherBus("") && proposal.bus != base.bus ==> OtherBusKind(proposal.bus) in remarks)
            && (proposal.mmioSize != 0 && proposal.mmioSize != base.mmioSize ==> OtherSize(proposal.mmioSize) in remarks)
            && (forall c | c in proposal.registers :: Remarked(base.registers, m.registers, c, remarks))
            && (base.interrupts != [] ==>
                  forall q | q in proposal.interrupts && (forall own | own in base.interrupts :: own.index != q.index) ::
                    ExtraInterrupt(q.index) in remarks)
            && (forall note | note in proposal.notes && TrimSpace(note) != "" :: Doubt(TrimSpace(note)) in remarks)
  {
    hide Remarked, AbsorbAll, AbsorbAllRemarks, IrqRemarks, Doubts, TrimSpace, MergedIrqs, Distinct;
    AllRemarked(base.registers, proposal.registers);
    if base.interrupts != [] {
      IrqsRemarked(base.interrupts, proposal.interrupts);
    }
    NotesRemarked(proposal.notes);
    var identity, registers := IdentityRemarks(base, proposal), AbsorbAllRemarks(base.registers, proposal.registers);
    var irqs, doubts := IrqRemarks(base.interrupts, proposal.interrupts), Doubts(proposal.notes);
    assert Remarks(base, proposal) == identity + (registers + (irqs + doubts));
    forall c | c in proposal.registers
      ensures Remarked(base.registers, Merged(base, proposal).registers, c, Remarks(base, proposal))
    {
      var merged := AbsorbAll(base.registers, proposal.registers);
      StaysRemarked(base.registers, merged, merged, c, registers, irqs + doubts);
      MoreRemarks(base.registers, merged, c, identity, registers + (irqs + doubts));
    }
  }
}
