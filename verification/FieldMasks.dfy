/** The masks generated for the bit fields of a register. */
module FieldMasks {
  import opened Common
  import opened RegIr
  import opened Bits

  /** The mask as the generator computes it, shifts in uint64 arithmetic. */
  function FieldMask(f: Field): U64
    requires f.width >= 0 && f.bit >= 0
  {
    if f.width >= 64 then TWO64 - 1
    else ((Pow2(f.width) - 1) * Pow2(f.bit)) % TWO64
  }

  /** Below bit 64 the shift loses nothing. */
  lemma MaskValue(f: Field)
    requires f.width >= 0 && f.bit >= 0 && f.width < 64 && f.bit + f.width <= 64
    ensures FieldMask(f) == (Pow2(f.width) - 1) * Pow2(f.bit)
    ensures FieldMask(f) < Pow2(f.bit + f.width)
  {
    hide Pow2;
    Pow2Sum(f.width, f.bit);
    OneLess(Pow2(f.width), Pow2(f.bit));
    Pow2Of64();
    Pow2Grows(f.width + f.bit, 64);
  }

  lemma OneLess(a: nat, b: nat)
    requires a > 0
    ensures 0 <= (a - 1) * b == a * b - b
  {
    if a > 1 {
      OneLess(a - 1, b);
    }
  }

  /** The mask of a legal field has exactly the field's bits set and fits the register. */
  lemma MaskBits(f: Field, width: int, k: nat)
    requires LegalField(f, width) && LegalWidth(width)
    ensures FieldMask(f) < Pow2(width)
    ensures BitOf(FieldMask(f), k) <==> f.bit <= k < f.bit + f.width
  {
    hide Pow2, BitOf;
    Pow2Of64();
    Pow2Grows(width, 64);
    if f.width >= 64 {
      assert f.bit == 0 && FieldMask(f) == Pow2(64) - 1;
      OnesBits(64, k);
    } else {
      MaskValue(f);
      Pow2Grows(f.bit + f.width, width);
      ShiftedBits(Pow2(f.width) - 1, f.bit, k);
      if k >= f.bit {
        OnesBits(f.width, k - f.bit);
      }
    }
  }

  /** The masks of two fields of a legal register share no bit and stay below 2^width. */
  lemma MasksAreDisjoint(r: Register, mmioSize: int, i: nat, j: nat)
    requires LegalRegister(r, mmioSize) && i < j < |r.fields|
    ensures r.fields[i].width >= 0 && r.fields[i].bit >= 0 && r.fields[j].width >= 0 && r.fields[j].bit >= 0
    ensures BitAnd(FieldMask(r.fields[i]), FieldMask(r.fields[j])) == 0
    ensures FieldMask(r.fields[i]) < Pow2(r.width) && FieldMask(r.fields[j]) < Pow2(r.width)
  {
    var f, g := r.fields[i], r.fields[j];
    assert f in r.fields && g in r.fields && FieldsApart(f, g);
    MaskBits(f, r.width, 0);
    MaskBits(g, r.width, 0);
    forall k: nat ensures !(BitOf(FieldMask(f), k) && BitOf(FieldMask(g), k)) {
      MaskBits(f, r.width, k);
      MaskBits(g, r.width, k);
    }
    NoSharedBit(FieldMask(f), FieldMask(g));
  }
}
