/** What the normal form of a representation is, part by part. */
module NormalForm {
  import opened Common
  import opened RegIr
  import opened Prose
  import opened Merge
  import opened Normalization

  // ----- Clamped text

  /** Line ends are joined wherever they are. */
  lemma {:induction false} LineEndsJoin(a: string, b: string)
    ensures JoinCrLf(a + ['\r', '\n'] + b) == JoinCrLf(a) + ['\n'] + JoinCrLf(b)
    decreases |a|
  {
    var text := a + ['\r', '\n'] + b;
    if a == "" {
      assert text[2..] == b;
    } else if |a| >= 2 && a[0] == '\r' && a[1] == '\n' {
      assert text[2..] == a[2..] + ['\r', '\n'] + b;
      LineEndsJoin(a[2..], b);
    } else {
      assert text[1..] == a[1..] + ['\r', '\n'] + b && text[0] == a[0];
      assert text[1] == if |a| == 1 then '\r' else a[1];
      LineEndsJoin(a[1..], b);
    }
  }

  /** A clamped text is the trimmed text with its line ends joined, if that fits. Otherwise it is a beginning of it and
      an ellipsis; that beginning fits, and every beginning that ends visibly and fits is a part of it. */
  lemma ClampIs(raw: string, limit: nat)
    ensures var joined, (text, cut) := TrimSpace(JoinCrLf(raw)), Clamp(raw, limit);
            && (cut <==> ByteLen(joined) > limit)
            && (!cut ==> text == joined)
            && (cut ==>
                  && text != "" && text[|text| - 1] == ELLIPSIS
                  && var kept := text[..|text| - 1];
                     && kept <= joined && ByteLen(kept) <= limit && Trimmed(kept)
                     && forall u | u <= joined && u != "" && !IsSpace(u[|u| - 1]) && ByteLen(u) <= limit :: u <= kept)
  {
    hide TrimSpace, JoinCrLf, ByteLen, CutTo, IsSpace, Trimmed;
    var joined := TrimSpace(JoinCrLf(raw));
    TrimSpaceTrims(JoinCrLf(raw));
    KeptIsAPart(joined, limit);
    forall u | u <= joined && u != "" && !IsSpace(u[|u| - 1]) && ByteLen(u) <= limit ensures u <= KeptPart(joined, limit) {
      KeepsParts(joined, limit, u);
    }
  }

  // ----- Access modes and buses as they are written

  /** The spelling of a mode in a representation. */
  function Spelling(a: Access): string {
    match a
    case RO => "ro"
    case WO => "wo"
    case RW => "rw"
    case W1C => "w1c"
    case Rsvd => "rsvd"
    case OtherAccess(text) => text
  }

  /** A mode is read from its spelling in any case and with any space around it, and nothing else is one. */
  lemma ModesAreRead(text: string)
    ensures forall a: Access | !a.OtherAccess? ::
              NormalAccess(OtherAccess(text)) == a <==> ToLower(TrimSpace(text)) == Spelling(a)
    ensures forall a: Access | !a.OtherAccess? :: NormalAccess(a) == a
  {
    hide TrimSpace, ToLower;
    assert |"ro"| == 2 && |"wo"| == 2 && |"rw"| == 2 && |"w1c"| == 3 && |"rsvd"| == 4;
    assert "ro"[0] == 'r' && "wo"[0] == 'w' && "rw"[0] == 'r' && "ro"[1] == 'o' && "rw"[1] == 'w';
  }

  lemma BusesAreRead(text: string)
    ensures NormalBus(OtherBus(text)) == Sysbus <==> ToLower(TrimSpace(text)) == "sysbus"
    ensures NormalBus(OtherBus(text)) == Pci <==> ToLower(TrimSpace(text)) == "pci"
    ensures NormalBus(Sysbus) == Sysbus && NormalBus(Pci) == Pci
  {
    hide TrimSpace, ToLower;
    assert |"pci"| == 3 && |"sysbus"| == 6;
  }

  // ----- Registers, fields and interrupts

  /** The facts stay as they are, names are trimmed and prose is clamped. */
  lemma RegistersAreNormal(ir: Ir, i: nat)
    requires i < |ir.registers|
    ensures |Normal(ir).registers| == |ir.registers|
    ensures var r, n := ir.registers[i], Normal(ir).registers[i];
            && n.name == TrimSpace(r.name) && n.offset == r.offset && n.width == r.width && n.reset == r.reset
            && n.access == NormalAccess(r.access) && n.effect == Clamp(r.effect, 2048).0 && |n.fields| == |r.fields|
            && forall k | 0 <= k < |r.fields| ::
                 && n.fields[k].name == TrimSpace(r.fields[k].name)
                 && n.fields[k].bit == r.fields[k].bit && n.fields[k].width == r.fields[k].width
                 && n.fields[k].description == Clamp(r.fields[k].description, 2048).0
  {
    hide TrimSpace, Clamp, ToLower, NormalBus, KeptNotes, EffectCuts;
  }

  lemma IrqsAreNormal(ir: Ir, i: nat)
    requires i < |ir.interrupts|
    ensures |Normal(ir).interrupts| == |ir.interrupts|
    ensures var q, n := ir.interrupts[i], Normal(ir).interrupts[i];
            n.name == TrimSpace(q.name) && n.index == q.index && n.description == Clamp(q.description, 2048).0
  {
    hide TrimSpace, Clamp, ToLower, NormalBus, KeptNotes, EffectCuts;
  }

  // ----- Notes

  lemma {:induction false} NotesAreKept(a: seq<string>, b: seq<string>)
    ensures KeptNotes(a + b) == KeptNotes(a) + KeptNotes(b)
  {
    hide Clamp;
    if b == [] {
      assert a + b == a;
    } else {
      NotesAreKept(a, b[..|b| - 1]);
      assert (a + b)[..|a + b| - 1] == a + b[..|b| - 1];
    }
  }

  lemma NoteIsKept(note: string)
    ensures var text := Clamp(note, 2048).0; KeptNotes([note]) == if text == "" then [] else [text]
  {
    hide Clamp;
    assert [note][..0] == [];
    assert KeptNotes([]) == [];
  }

  lemma {:induction false} CutsAreNoted(registers: seq<Register>)
    ensures forall x :: x in EffectCuts(registers) <==>
              exists r :: r in registers && Clamp(r.effect, 2048).1 && x == EffectCut(TrimSpace(r.name))
  {
    hide Clamp, TrimSpace;
    if registers != [] {
      var front, last := registers[..|registers| - 1], registers[|registers| - 1];
      CutsAreNoted(front);
      assert forall r :: r in registers <==> r in front || r == last;
      assert EffectCuts(registers) == EffectCuts(front)
                                      + (if Clamp(last.effect, 2048).1 then [EffectCut(TrimSpace(last.name))] else []);
    }
  }

  /** Up to 64 notes stay as they are; of more the first 63 stay, and the last says how many were dropped. */
  lemma NotesAreBounded(notes: seq<string>)
    ensures |notes| <= 64 ==> BoundedNotes(notes) == notes
    ensures |notes| > 64 ==>
              && |BoundedNotes(notes)| == 64 && BoundedNotes(notes)[..63] == notes[..63]
              && BoundedNotes(notes)[63] == NotesDropped(|notes| - 63)
  {
  }

  /** No effect is cut without a note, unless the notes run over. */
  lemma NoteForEveryCut(ir: Ir, r: Register)
    requires r in ir.registers && Clamp(r.effect, 2048).1 && |KeptNotes(ir.notes)| + |EffectCuts(ir.registers)| <= 64
    ensures EffectCut(TrimSpace(r.name)) in Normal(ir).notes
  {
    CutsAreNoted(ir.registers);
    hide Clamp, TrimSpace, KeptNotes, EffectCuts, NormalBus, ToLower, NormalRegisters, NormalIrqs;
    NotesAreBounded(KeptNotes(ir.notes) + EffectCuts(ir.registers));
  }

  lemma {:induction false} KeptHas(notes: seq<string>, note: string)
    requires note in notes && Clamp(note, 2048).0 != ""
    ensures Clamp(note, 2048).0 in KeptNotes(notes)
  {
    hide Clamp;
    if note != notes[|notes| - 1] {
      assert note in notes[..|notes| - 1];
      KeptHas(notes[..|notes| - 1], note);
    }
  }

  /** What the merge remarked stands in the notes of the result, next to the base's own, unless the notes run over. */
  lemma RemarksAreNoted(base: Ir, reply: Ir)
    requires var m := Merged(base, Normal(reply));
             |m.notes + TextsOfRemarks(Remarks(base, Normal(reply)))| + |m.registers| <= 64
    ensures forall remark | remark in Remarks(base, Normal(reply)) && Clamp(RemarkText(remark), 2048).0 != "" ::
              Clamp(RemarkText(remark), 2048).0 in Inferred(base, reply).notes
    ensures forall note | note in base.notes && Clamp(note, 2048).0 != "" :: Clamp(note, 2048).0 in Inferred(base, reply).notes
  {
    hide Clamp, AbsorbAll, Remarks, KeptNotes, EffectCuts, MergedIrqs, NormalBus, NormalRegisters, NormalIrqs, ToLower, TrimSpace;
    var m := Merged(base, Normal(reply));
    var remarks := Remarks(base, Normal(reply));
    var notes := m.notes + TextsOfRemarks(remarks);
    KeptAreFewer(notes);
    CutsAreFewer(m.registers);
    NotesAreBounded(KeptNotes(notes) + EffectCuts(m.registers));
    assert Inferred(base, reply).notes == KeptNotes(notes) + EffectCuts(m.registers);
    forall note | note in notes && Clamp(note, 2048).0 != "" ensures Clamp(note, 2048).0 in Inferred(base, reply).notes {
      KeptHas(notes, note);
    }
    forall remark | remark in remarks ensures RemarkText(remark) in notes {
      var i :| 0 <= i < |remarks| && remarks[i] == remark;
      assert TextsOfRemarks(remarks)[i] in notes;
    }
  }

  lemma {:induction false} KeptAreFewer(notes: seq<string>)
    ensures |KeptNotes(notes)| <= |notes|
  {
    hide Clamp;
    if notes != [] {
      KeptAreFewer(notes[..|notes| - 1]);
    }
  }

  lemma {:induction false} CutsAreFewer(registers: seq<Register>)
    ensures |EffectCuts(registers)| <= |registers|
  {
    hide Clamp, TrimSpace;
    if registers != [] {
      CutsAreFewer(registers[..|registers| - 1]);
    }
  }
}
