/**
 The shift-and-mask bodies of the packing loops, one pair per coefficient width. Each body is proved to keep the
 bit string: a byte is a sum of bit fields of coefficients, a coefficient is the sum of its own bit fields.
 PackGroups and UnpackGroups turn that into the loops.
 */
module GroupCodecs {
  import opened MachineInts
  import opened BitPacking

  // ---------- Numbers written out, by the number of digits and the base ----------

  lemma Value1Of256(s: seq<int>)
    requires |s| == 1
    ensures Value(s, 256) == s[0]
  {
    hide *;
    Value1(s, 256);
  }

  lemma Value2Of16(s: seq<int>)
    requires |s| == 2
    ensures Value(s, 16) == s[0] + 16 * s[1]
  {
    hide *;
    Value2(s, 16);
  }

  lemma Value2Of4096(s: seq<int>)
    requires |s| == 2
    ensures Value(s, 0x1000) == s[0] + 0x1000 * s[1]
  {
    hide *;
    Value2(s, 0x1000);
  }

  lemma Value2Of1048576(s: seq<int>)
    requires |s| == 2
    ensures Value(s, 0x10_0000) == s[0] + 0x10_0000 * s[1]
  {
    hide *;
    Value2(s, 0x10_0000);
  }

  lemma Value3Of256(s: seq<int>)
    requires |s| == 3
    ensures Value(s, 256) == s[0] + 256 * (s[1] + 256 * s[2])
  {
    hide *;
    Value3(s, 256);
  }

  lemma Value4Of64(s: seq<int>)
    requires |s| == 4
    ensures Value(s, 64) == s[0] + 64 * (s[1] + 64 * (s[2] + 64 * s[3]))
  {
    hide *;
    Value4(s, 64);
  }

  lemma Value4Of1024(s: seq<int>)
    requires |s| == 4
    ensures Value(s, 0x400) == s[0] + 0x400 * (s[1] + 0x400 * (s[2] + 0x400 * s[3]))
  {
    hide *;
    Value4(s, 0x400);
  }

  lemma Value4Of262144(s: seq<int>)
    requires |s| == 4
    ensures Value(s, 0x4_0000) == s[0] + 0x4_0000 * (s[1] + 0x4_0000 * (s[2] + 0x4_0000 * s[3]))
  {
    hide *;
    Value4(s, 0x4_0000);
  }

  lemma Value5Of256(s: seq<int>)
    requires |s| == 5
    ensures Value(s, 256) == s[0] + 256 * (s[1] + 256 * (s[2] + 256 * (s[3] + 256 * s[4])))
  {
    hide *;
    Value5(s, 256);
  }

  lemma Value8Of2(s: seq<int>)
    requires |s| == 8
    ensures Value(s, 2) == s[0] + 2 * (s[1] + 2 * (s[2] + 2 * (s[3] + 2 * (s[4] + 2 * (s[5] + 2 * (s[6] + 2 * s[7]))))))
  {
    hide *;
    Value8(s, 2);
  }

  lemma Value8Of8(s: seq<int>)
    requires |s| == 8
    ensures Value(s, 8) == s[0] + 8 * (s[1] + 8 * (s[2] + 8 * (s[3] + 8 * (s[4] + 8 * (s[5] + 8 * (s[6] + 8 * s[7]))))))
  {
    hide *;
    Value8(s, 8);
  }

  lemma Value8Of32(s: seq<int>)
    requires |s| == 8
    ensures Value(s, 32) == s[0] + 32 * (s[1] + 32 * (s[2] + 32 * (s[3] + 32 * (s[4] + 32 * (s[5] + 32 * (s[6] + 32 * s[7]))))))
  {
    hide *;
    Value8(s, 32);
  }

  lemma Value8Of2048(s: seq<int>)
    requires |s| == 8
    ensures Value(s, 0x800) == s[0] + 0x800 * (s[1] + 0x800 * (s[2] + 0x800 * (s[3] + 0x800 * (s[4] + 0x800 * (s[5] + 0x800 * (s[6] + 0x800 * s[7]))))))
  {
    hide *;
    Value8(s, 0x800);
  }

  lemma Value8Of8192(s: seq<int>)
    requires |s| == 8
    ensures Value(s, 0x2000) == s[0] + 0x2000 * (s[1] + 0x2000 * (s[2] + 0x2000 * (s[3] + 0x2000 * (s[4] + 0x2000 * (s[5] + 0x2000 * (s[6] + 0x2000 * s[7]))))))
  {
    hide *;
    Value8(s, 0x2000);
  }

  lemma Value9Of256(s: seq<int>)
    requires |s| == 9
    ensures Value(s, 256) == s[0] + 256 * (s[1] + 256 * (s[2] + 256 * (s[3] + 256 * (s[4] + 256 * (s[5] + 256 * (s[6] + 256 * (s[7] + 256 * s[8])))))))
  {
    hide *;
    Value9(s, 256);
  }

  lemma Value11Of256(s: seq<int>)
    requires |s| == 11
    ensures Value(s, 256) == s[0] + 256 * (s[1] + 256 * (s[2] + 256 * (s[3] + 256 * (s[4] + 256 * (s[5] + 256 * (s[6] + 256 * (s[7] + 256 * (s[8] + 256 * (s[9] + 256 * s[10])))))))))
  {
    hide *;
    Value11(s, 256);
  }

  lemma Value13Of256(s: seq<int>)
    requires |s| == 13
    ensures Value(s, 256) == s[0] + 256 * (s[1] + 256 * (s[2] + 256 * (s[3] + 256 * (s[4] + 256 * (s[5] + 256 * (s[6] + 256 * (s[7] + 256 * (s[8] + 256 * (s[9] + 256 * (s[10] + 256 * (s[11] + 256 * s[12])))))))))))
  {
    hide *;
    Value13(s, 256);
  }

  // ---------- 1 bit: messages ----------

  function Pack1Bytes(t: seq<nat>): (b: seq<uint8>)
    requires |t| == 8
    ensures |b| == 1
  {
    [Byte(Or(Or(Or(Or(Or(Or(Or(t[0], Shl(t[1], 1)), Shl(t[2], 2)), Shl(t[3], 3)), Shl(t[4], 4)), Shl(t[5], 5)), Shl(t[6], 6)), Shl(t[7], 7)))]
  }

  lemma Pack1Parts(t: seq<nat>)
    requires |t| == 8 && Digits(t, 2)
    ensures Pack1Bytes(t)[0] == Bits(t[0], 0, 1) + 2 * Bits(t[1], 0, 1) + 4 * Bits(t[2], 0, 1) + 8 * Bits(t[3], 0, 1) + 16 * Bits(t[4], 0, 1) + 32 * Bits(t[5], 0, 1) + 64 * Bits(t[6], 0, 1) + 128 * Bits(t[7], 0, 1)
  {
    Powers();
    hide Pow, Shr, Shl, Or, Mask, Byte, Bits;
    assert Pack1Bytes(t)[0] == Bits(t[0], 0, 1) + 2 * Bits(t[1], 0, 1) + 4 * Bits(t[2], 0, 1) + 8 * Bits(t[3], 0, 1) + 16 * Bits(t[4], 0, 1) + 32 * Bits(t[5], 0, 1) + 64 * Bits(t[6], 0, 1) + 128 * Bits(t[7], 0, 1) by {
      Masked(t[0], 1); Masked(t[1], 1); OrJoin(t[0], t[1], 1, 1, 2); Masked(t[2], 1);
      OrJoin(Or(t[0], Shl(t[1], 1)), t[2], 2, 1, 4); Masked(t[3], 1);
      OrJoin(Or(Or(t[0], Shl(t[1], 1)), Shl(t[2], 2)), t[3], 3, 1, 8); Masked(t[4], 1);
      OrJoin(Or(Or(Or(t[0], Shl(t[1], 1)), Shl(t[2], 2)), Shl(t[3], 3)), t[4], 4, 1, 16); Masked(t[5], 1);
      OrJoin(Or(Or(Or(Or(t[0], Shl(t[1], 1)), Shl(t[2], 2)), Shl(t[3], 3)), Shl(t[4], 4)), t[5], 5, 1, 32);
      Masked(t[6], 1);
      OrJoin(Or(Or(Or(Or(Or(t[0], Shl(t[1], 1)), Shl(t[2], 2)), Shl(t[3], 3)), Shl(t[4], 4)), Shl(t[5], 5)), t[6], 6, 1, 64);
      OrJoinMasked(Or(Or(Or(Or(Or(Or(t[0], Shl(t[1], 1)), Shl(t[2], 2)), Shl(t[3], 3)), Shl(t[4], 4)), Shl(t[5], 5)), Shl(t[6], 6)), t[7], 7, 8, 128);
      ByteMasks(Or(Or(Or(Or(Or(Or(Or(t[0], Shl(t[1], 1)), Shl(t[2], 2)), Shl(t[3], 3)), Shl(t[4], 4)), Shl(t[5], 5)), Shl(t[6], 6)), Shl(t[7], 7)));
    }
  }

  lemma Pack1Value(t: seq<nat>)
    requires |t| == 8 && Digits(t, 2)
    ensures Value(Pack1Bytes(t), 256) == Value(t, 2)
  {
    hide Pow, Value, Or, Shl, Shr, Mask, Bits, Byte, Pack1Bytes;
    Pack1Parts(t);
    Powers();
    Value1Of256(Pack1Bytes(t));
    Value8Of2(t);
    assert t[0] == Bits(t[0], 0, 1) by {
      Masked(t[0], 1);
    }
    assert t[1] == Bits(t[1], 0, 1) by {
      Masked(t[1], 1);
    }
    assert t[2] == Bits(t[2], 0, 1) by {
      Masked(t[2], 1);
    }
    assert t[3] == Bits(t[3], 0, 1) by {
      Masked(t[3], 1);
    }
    assert t[4] == Bits(t[4], 0, 1) by {
      Masked(t[4], 1);
    }
    assert t[5] == Bits(t[5], 0, 1) by {
      Masked(t[5], 1);
    }
    assert t[6] == Bits(t[6], 0, 1) by {
      Masked(t[6], 1);
    }
    assert t[7] == Bits(t[7], 0, 1) by {
      Masked(t[7], 1);
    }
  }

  lemma Pack1IsPacking()
    ensures PacksGroups(Pack1Bytes, 1, 8, 1)
  {
    Powers();
    hide Pow, Value, Pack1Bytes;
    forall t: seq<nat> | |t| == 8 && Digits(t, Pow(2, 1))
      ensures SameBits(Pack1Bytes(t), t, 1)
    {
      Pack1Value(t);
    }
  }

  function Unpack1Coeffs(b: seq<uint8>): (t: seq<nat>)
    requires |b| == 1
    ensures |t| == 8
  {
    [Mask(b[0], 1), Mask(Shr(b[0], 1), 1), Mask(Shr(b[0], 2), 1), Mask(Shr(b[0], 3), 1),
     Mask(Shr(b[0], 4), 1), Mask(Shr(b[0], 5), 1), Mask(Shr(b[0], 6), 1), Mask(Shr(b[0], 7), 1)]
  }

  lemma Unpack1PartsA(b: seq<uint8>)
    requires |b| == 1
    ensures Unpack1Coeffs(b)[0] == Bits(b[0], 0, 1) < 2
    ensures Unpack1Coeffs(b)[1] == Bits(b[0], 1, 1) < 2
    ensures Unpack1Coeffs(b)[2] == Bits(b[0], 2, 1) < 2
    ensures Unpack1Coeffs(b)[3] == Bits(b[0], 3, 1) < 2
  {
    Powers();
    hide Pow, Shr, Shl, Or, Mask, Byte, Bits;
    assert Unpack1Coeffs(b)[0] == Bits(b[0], 0, 1) < 2 by {
      LowBits(b[0], 1);
    }
    assert Unpack1Coeffs(b)[1] == Bits(b[0], 1, 1) < 2 by {
      BitsOfShift(b[0], 1, 1);
    }
    assert Unpack1Coeffs(b)[2] == Bits(b[0], 2, 1) < 2 by {
      BitsOfShift(b[0], 2, 1);
    }
    assert Unpack1Coeffs(b)[3] == Bits(b[0], 3, 1) < 2 by {
      BitsOfShift(b[0], 3, 1);
    }
  }

  lemma Unpack1PartsB(b: seq<uint8>)
    requires |b| == 1
    ensures Unpack1Coeffs(b)[4] == Bits(b[0], 4, 1) < 2
    ensures Unpack1Coeffs(b)[5] == Bits(b[0], 5, 1) < 2
    ensures Unpack1Coeffs(b)[6] == Bits(b[0], 6, 1) < 2
    ensures Unpack1Coeffs(b)[7] == Bits(b[0], 7, 1) < 2
  {
    Powers();
    hide Pow, Shr, Shl, Or, Mask, Byte, Bits;
    assert Unpack1Coeffs(b)[4] == Bits(b[0], 4, 1) < 2 by {
      BitsOfShift(b[0], 4, 1);
    }
    assert Unpack1Coeffs(b)[5] == Bits(b[0], 5, 1) < 2 by {
      BitsOfShift(b[0], 5, 1);
    }
    assert Unpack1Coeffs(b)[6] == Bits(b[0], 6, 1) < 2 by {
      BitsOfShift(b[0], 6, 1);
    }
    assert Unpack1Coeffs(b)[7] == Bits(b[0], 7, 1) < 2 by {
      TopBits(b[0], 7, 1); Masked(Shr(b[0], 7), 1);
    }
  }

  lemma Unpack1Parts(b: seq<uint8>)
    requires |b| == 1
    ensures Digits(Unpack1Coeffs(b), 2)
    ensures Unpack1Coeffs(b)[0] == Bits(b[0], 0, 1)
    ensures Unpack1Coeffs(b)[1] == Bits(b[0], 1, 1)
    ensures Unpack1Coeffs(b)[2] == Bits(b[0], 2, 1)
    ensures Unpack1Coeffs(b)[3] == Bits(b[0], 3, 1)
    ensures Unpack1Coeffs(b)[4] == Bits(b[0], 4, 1)
    ensures Unpack1Coeffs(b)[5] == Bits(b[0], 5, 1)
    ensures Unpack1Coeffs(b)[6] == Bits(b[0], 6, 1)
    ensures Unpack1Coeffs(b)[7] == Bits(b[0], 7, 1)
  {
    hide Pow, Shr, Shl, Or, Mask, Byte, Bits, Unpack1Coeffs;
    Unpack1PartsA(b);
    Unpack1PartsB(b);
  }

  lemma Unpack1Value(b: seq<uint8>)
    requires |b| == 1
    ensures Value(b, 256) == Value(Unpack1Coeffs(b), 2)
  {
    hide Pow, Value, Or, Shl, Shr, Mask, Bits, Byte, Unpack1Coeffs;
    Unpack1Parts(b);
    Powers();
    Value1Of256(b);
    Value8Of2(Unpack1Coeffs(b));
    assert b[0] == Bits(b[0], 0, 1) + 2 * Bits(b[0], 1, 1) + 4 * Bits(b[0], 2, 1) + 8 * Bits(b[0], 3, 1) + 16 * Bits(b[0], 4, 1) + 32 * Bits(b[0], 5, 1) + 64 * Bits(b[0], 6, 1) + 128 * Bits(b[0], 7, 1) by {
      Masked(b[0], 8); BitsSplit(b[0], 0, 8, 1, 7, 2); BitsSplit(b[0], 1, 7, 1, 6, 2);
      BitsSplit(b[0], 2, 6, 1, 5, 2); BitsSplit(b[0], 3, 5, 1, 4, 2); BitsSplit(b[0], 4, 4, 1, 3, 2);
      BitsSplit(b[0], 5, 3, 1, 2, 2); BitsSplit(b[0], 6, 2, 1, 1, 2);
    }
  }

  lemma Unpack1IsReading()
    ensures ReadsGroups(Unpack1Coeffs, 1, 8, 1)
  {
    Powers();
    hide Pow, Value, Unpack1Coeffs;
    forall b: seq<uint8> | |b| == 1
      ensures SameBits(b, Unpack1Coeffs(b), 1)
    {
      Unpack1Parts(b);
      Unpack1Value(b);
      BytesAreDigits(b);
    }
  }

  // ---------- 3 bits: s1 and s2 for eta = 2 ----------

  function Pack3Bytes(t: seq<nat>): (b: seq<uint8>)
    requires |t| == 8
    ensures |b| == 3
  {
    [Byte(Or(Or(t[0], Shl(t[1], 3)), Shl(t[2], 6))),
     Byte(Or(Or(Or(Shr(t[2], 2), Shl(t[3], 1)), Shl(t[4], 4)), Shl(t[5], 7))),
     Byte(Or(Or(Shr(t[5], 1), Shl(t[6], 2)), Shl(t[7], 5)))]
  }

  lemma Pack3Parts(t: seq<nat>)
    requires |t| == 8 && Digits(t, 8)
    ensures Pack3Bytes(t)[0] == Bits(t[0], 0, 3) + 8 * Bits(t[1], 0, 3) + 64 * Bits(t[2], 0, 2)
    ensures Pack3Bytes(t)[1] == Bits(t[2], 2, 1) + 2 * Bits(t[3], 0, 3) + 16 * Bits(t[4], 0, 3) + 128 * Bits(t[5], 0, 1)
    ensures Pack3Bytes(t)[2] == Bits(t[5], 1, 2) + 4 * Bits(t[6], 0, 3) + 32 * Bits(t[7], 0, 3)
  {
    Powers();
    hide Pow, Shr, Shl, Or, Mask, Byte, Bits;
    assert Pack3Bytes(t)[0] == Bits(t[0], 0, 3) + 8 * Bits(t[1], 0, 3) + 64 * Bits(t[2], 0, 2) by {
      Masked(t[0], 3); Masked(t[1], 3); OrJoin(t[0], t[1], 3, 3, 8);
      OrJoinMasked(Or(t[0], Shl(t[1], 3)), t[2], 6, 8, 64); ByteMasks(Or(Or(t[0], Shl(t[1], 3)), Shl(t[2], 6)));
    }
    assert Pack3Bytes(t)[1] == Bits(t[2], 2, 1) + 2 * Bits(t[3], 0, 3) + 16 * Bits(t[4], 0, 3) + 128 * Bits(t[5], 0, 1) by {
      TopBits(t[2], 2, 1); Masked(t[3], 3); OrJoin(Shr(t[2], 2), t[3], 1, 3, 2); Masked(t[4], 3);
      OrJoin(Or(Shr(t[2], 2), Shl(t[3], 1)), t[4], 4, 3, 16);
      OrJoinMasked(Or(Or(Shr(t[2], 2), Shl(t[3], 1)), Shl(t[4], 4)), t[5], 7, 8, 128);
      ByteMasks(Or(Or(Or(Shr(t[2], 2), Shl(t[3], 1)), Shl(t[4], 4)), Shl(t[5], 7)));
    }
    assert Pack3Bytes(t)[2] == Bits(t[5], 1, 2) + 4 * Bits(t[6], 0, 3) + 32 * Bits(t[7], 0, 3) by {
      TopBits(t[5], 1, 2); Masked(t[6], 3); OrJoin(Shr(t[5], 1), t[6], 2, 3, 4);
      OrJoinMasked(Or(Shr(t[5], 1), Shl(t[6], 2)), t[7], 5, 8, 32);
      ByteMasks(Or(Or(Shr(t[5], 1), Shl(t[6], 2)), Shl(t[7], 5)));
    }
  }

  lemma Pack3Value(t: seq<nat>)
    requires |t| == 8 && Digits(t, 8)
    ensures Value(Pack3Bytes(t), 256) == Value(t, 8)
  {
    hide Pow, Value, Or, Shl, Shr, Mask, Bits, Byte, Pack3Bytes;
    Pack3Parts(t);
    Powers();
    Value3Of256(Pack3Bytes(t));
    Value8Of8(t);
    assert t[0] == Bits(t[0], 0, 3) by {
      Masked(t[0], 3);
    }
    assert t[1] == Bits(t[1], 0, 3) by {
      Masked(t[1], 3);
    }
    assert t[2] == Bits(t[2], 0, 2) + 4 * Bits(t[2], 2, 1) by {
      Masked(t[2], 3); BitsSplit(t[2], 0, 3, 2, 1, 4);
    }
    assert t[3] == Bits(t[3], 0, 3) by {
      Masked(t[3], 3);
    }
    assert t[4] == Bits(t[4], 0, 3) by {
      Masked(t[4], 3);
    }
    assert t[5] == Bits(t[5], 0, 1) + 2 * Bits(t[5], 1, 2) by {
      Masked(t[5], 3); BitsSplit(t[5], 0, 3, 1, 2, 2);
    }
    assert t[6] == Bits(t[6], 0, 3) by {
      Masked(t[6], 3);
    }
    assert t[7] == Bits(t[7], 0, 3) by {
      Masked(t[7], 3);
    }
  }

  lemma Pack3IsPacking()
    ensures PacksGroups(Pack3Bytes, 3, 8, 3)
  {
    Powers();
    hide Pow, Value, Pack3Bytes;
    forall t: seq<nat> | |t| == 8 && Digits(t, Pow(2, 3))
      ensures SameBits(Pack3Bytes(t), t, 3)
    {
      Pack3Value(t);
    }
  }

  function Unpack3Coeffs(b: seq<uint8>): (t: seq<nat>)
    requires |b| == 3
    ensures |t| == 8
  {
    [Mask(b[0], 3), Mask(Shr(b[0], 3), 3), Mask(Or(Shr(b[0], 6), Shl(b[1], 2)), 3), Mask(Shr(b[1], 1), 3),
     Mask(Shr(b[1], 4), 3), Mask(Or(Shr(b[1], 7), Shl(b[2], 1)), 3), Mask(Shr(b[2], 2), 3),
     Mask(Shr(b[2], 5), 3)]
  }

  lemma Unpack3PartsA(b: seq<uint8>)
    requires |b| == 3
    ensures Unpack3Coeffs(b)[0] == Bits(b[0], 0, 3) < 8
    ensures Unpack3Coeffs(b)[1] == Bits(b[0], 3, 3) < 8
    ensures Unpack3Coeffs(b)[2] == Bits(b[0], 6, 2) + 4 * Bits(b[1], 0, 1) < 8
    ensures Unpack3Coeffs(b)[3] == Bits(b[1], 1, 3) < 8
  {
    Powers();
    hide Pow, Shr, Shl, Or, Mask, Byte, Bits;
    assert Unpack3Coeffs(b)[0] == Bits(b[0], 0, 3) < 8 by {
      LowBits(b[0], 3);
    }
    assert Unpack3Coeffs(b)[1] == Bits(b[0], 3, 3) < 8 by {
      BitsOfShift(b[0], 3, 3);
    }
    assert Unpack3Coeffs(b)[2] == Bits(b[0], 6, 2) + 4 * Bits(b[1], 0, 1) < 8 by {
      TopBits(b[0], 6, 2); OrJoinMasked(Shr(b[0], 6), b[1], 2, 3, 4);
    }
    assert Unpack3Coeffs(b)[3] == Bits(b[1], 1, 3) < 8 by {
      BitsOfShift(b[1], 1, 3);
    }
  }

  lemma Unpack3PartsB(b: seq<uint8>)
    requires |b| == 3
    ensures Unpack3Coeffs(b)[4] == Bits(b[1], 4, 3) < 8
    ensures Unpack3Coeffs(b)[5] == Bits(b[1], 7, 1) + 2 * Bits(b[2], 0, 2) < 8
    ensures Unpack3Coeffs(b)[6] == Bits(b[2], 2, 3) < 8
    ensures Unpack3Coeffs(b)[7] == Bits(b[2], 5, 3) < 8
  {
    Powers();
    hide Pow, Shr, Shl, Or, Mask, Byte, Bits;
    assert Unpack3Coeffs(b)[4] == Bits(b[1], 4, 3) < 8 by {
      BitsOfShift(b[1], 4, 3);
    }
    assert Unpack3Coeffs(b)[5] == Bits(b[1], 7, 1) + 2 * Bits(b[2], 0, 2) < 8 by {
      TopBits(b[1], 7, 1); OrJoinMasked(Shr(b[1], 7), b[2], 1, 3, 2);
    }
    assert Unpack3Coeffs(b)[6] == Bits(b[2], 2, 3) < 8 by {
      BitsOfShift(b[2], 2, 3);
    }
    assert Unpack3Coeffs(b)[7] == Bits(b[2], 5, 3) < 8 by {
      TopBits(b[2], 5, 3); Masked(Shr(b[2], 5), 3);
    }
  }

  lemma Unpack3Parts(b: seq<uint8>)
    requires |b| == 3
    ensures Digits(Unpack3Coeffs(b), 8)
    ensures Unpack3Coeffs(b)[0] == Bits(b[0], 0, 3)
    ensures Unpack3Coeffs(b)[1] == Bits(b[0], 3, 3)
    ensures Unpack3Coeffs(b)[2] == Bits(b[0], 6, 2) + 4 * Bits(b[1], 0, 1)
    ensures Unpack3Coeffs(b)[3] == Bits(b[1], 1, 3)
    ensures Unpack3Coeffs(b)[4] == Bits(b[1], 4, 3)
    ensures Unpack3Coeffs(b)[5] == Bits(b[1], 7, 1) + 2 * Bits(b[2], 0, 2)
    ensures Unpack3Coeffs(b)[6] == Bits(b[2], 2, 3)
    ensures Unpack3Coeffs(b)[7] == Bits(b[2], 5, 3)
  {
    hide Pow, Shr, Shl, Or, Mask, Byte, Bits, Unpack3Coeffs;
    Unpack3PartsA(b);
    Unpack3PartsB(b);
  }

  lemma Unpack3Value(b: seq<uint8>)
    requires |b| == 3
    ensures Value(b, 256) == Value(Unpack3Coeffs(b), 8)
  {
    hide Pow, Value, Or, Shl, Shr, Mask, Bits, Byte, Unpack3Coeffs;
    Unpack3Parts(b);
    Powers();
    Value3Of256(b);
    Value8Of8(Unpack3Coeffs(b));
    assert b[0] == Bits(b[0], 0, 3) + 8 * Bits(b[0], 3, 3) + 64 * Bits(b[0], 6, 2) by {
      Masked(b[0], 8); BitsSplit(b[0], 0, 8, 3, 5, 8); BitsSplit(b[0], 3, 5, 3, 2, 8);
    }
    assert b[1] == Bits(b[1], 0, 1) + 2 * Bits(b[1], 1, 3) + 16 * Bits(b[1], 4, 3) + 128 * Bits(b[1], 7, 1) by {
      Masked(b[1], 8); BitsSplit(b[1], 0, 8, 1, 7, 2); BitsSplit(b[1], 1, 7, 3, 4, 8);
      BitsSplit(b[1], 4, 4, 3, 1, 8);
    }
    assert b[2] == Bits(b[2], 0, 2) + 4 * Bits(b[2], 2, 3) + 32 * Bits(b[2], 5, 3) by {
      Masked(b[2], 8); BitsSplit(b[2], 0, 8, 2, 6, 4); BitsSplit(b[2], 2, 6, 3, 3, 8);
    }
  }

  lemma Unpack3IsReading()
    ensures ReadsGroups(Unpack3Coeffs, 3, 8, 3)
  {
    Powers();
    hide Pow, Value, Unpack3Coeffs;
    forall b: seq<uint8> | |b| == 3
      ensures SameBits(b, Unpack3Coeffs(b), 3)
    {
      Unpack3Parts(b);
      Unpack3Value(b);
      BytesAreDigits(b);
    }
  }

  // ---------- 4 bits: s1 and s2 for eta = 4, w1 for gamma2 = (q-1)/32, compressed v ----------

  function Pack4Bytes(t: seq<nat>): (b: seq<uint8>)
    requires |t| == 2
    ensures |b| == 1
  {
    [Byte(Or(t[0], Shl(t[1], 4)))]
  }

  lemma Pack4Parts(t: seq<nat>)
    requires |t| == 2 && Digits(t, 16)
    ensures Pack4Bytes(t)[0] == Bits(t[0], 0, 4) + 16 * Bits(t[1], 0, 4)
  {
    Powers();
    hide Pow, Shr, Shl, Or, Mask, Byte, Bits;
    assert Pack4Bytes(t)[0] == Bits(t[0], 0, 4) + 16 * Bits(t[1], 0, 4) by {
      Masked(t[0], 4); OrJoinMasked(t[0], t[1], 4, 8, 16); ByteMasks(Or(t[0], Shl(t[1], 4)));
    }
  }

  lemma Pack4Value(t: seq<nat>)
    requires |t| == 2 && Digits(t, 16)
    ensures Value(Pack4Bytes(t), 256) == Value(t, 16)
  {
    hide Pow, Value, Or, Shl, Shr, Mask, Bits, Byte, Pack4Bytes;
    Pack4Parts(t);
    Powers();
    Value1Of256(Pack4Bytes(t));
    Value2Of16(t);
    assert t[0] == Bits(t[0], 0, 4) by {
      Masked(t[0], 4);
    }
    assert t[1] == Bits(t[1], 0, 4) by {
      Masked(t[1], 4);
    }
  }

  lemma Pack4IsPacking()
    ensures PacksGroups(Pack4Bytes, 4, 2, 1)
  {
    Powers();
    hide Pow, Value, Pack4Bytes;
    forall t: seq<nat> | |t| == 2 && Digits(t, Pow(2, 4))
      ensures SameBits(Pack4Bytes(t), t, 4)
    {
      Pack4Value(t);
    }
  }

  function Unpack4Coeffs(b: seq<uint8>): (t: seq<nat>)
    requires |b| == 1
    ensures |t| == 2
  {
    [Mask(b[0], 4), Shr(b[0], 4)]
  }

  lemma Unpack4Parts(b: seq<uint8>)
    requires |b| == 1
    ensures Digits(Unpack4Coeffs(b), 16)
    ensures Unpack4Coeffs(b)[0] == Bits(b[0], 0, 4)
    ensures Unpack4Coeffs(b)[1] == Bits(b[0], 4, 4)
  {
    Powers();
    hide Pow, Shr, Shl, Or, Mask, Byte, Bits;
    assert Unpack4Coeffs(b)[0] == Bits(b[0], 0, 4) < 16 by {
      LowBits(b[0], 4);
    }
    assert Unpack4Coeffs(b)[1] == Bits(b[0], 4, 4) < 16 by {
      TopBits(b[0], 4, 4);
    }
  }

  lemma Unpack4Value(b: seq<uint8>)
    requires |b| == 1
    ensures Value(b, 256) == Value(Unpack4Coeffs(b), 16)
  {
    hide Pow, Value, Or, Shl, Shr, Mask, Bits, Byte, Unpack4Coeffs;
    Unpack4Parts(b);
    Powers();
    Value1Of256(b);
    Value2Of16(Unpack4Coeffs(b));
    assert b[0] == Bits(b[0], 0, 4) + 16 * Bits(b[0], 4, 4) by {
      Masked(b[0], 8); BitsSplit(b[0], 0, 8, 4, 4, 16);
    }
  }

  lemma Unpack4IsReading()
    ensures ReadsGroups(Unpack4Coeffs, 4, 2, 1)
  {
    Powers();
    hide Pow, Value, Unpack4Coeffs;
    forall b: seq<uint8> | |b| == 1
      ensures SameBits(b, Unpack4Coeffs(b), 4)
    {
      Unpack4Parts(b);
      Unpack4Value(b);
      BytesAreDigits(b);
    }
  }

  // ---------- 5 bits: compressed v ----------

  function Pack5Bytes(t: seq<nat>): (b: seq<uint8>)
    requires |t| == 8
    ensures |b| == 5
  {
    [Byte(Or(t[0], Shl(t[1], 5))), Byte(Or(Or(Shr(t[1], 3), Shl(t[2], 2)), Shl(t[3], 7))),
     Byte(Or(Shr(t[3], 1), Shl(t[4], 4))), Byte(Or(Or(Shr(t[4], 4), Shl(t[5], 1)), Shl(t[6], 6))),
     Byte(Or(Shr(t[6], 2), Shl(t[7], 3)))]
  }

  lemma Pack5Parts(t: seq<nat>)
    requires |t| == 8 && Digits(t, 32)
    ensures Pack5Bytes(t)[0] == Bits(t[0], 0, 5) + 32 * Bits(t[1], 0, 3)
    ensures Pack5Bytes(t)[1] == Bits(t[1], 3, 2) + 4 * Bits(t[2], 0, 5) + 128 * Bits(t[3], 0, 1)
    ensures Pack5Bytes(t)[2] == Bits(t[3], 1, 4) + 16 * Bits(t[4], 0, 4)
    ensures Pack5Bytes(t)[3] == Bits(t[4], 4, 1) + 2 * Bits(t[5], 0, 5) + 64 * Bits(t[6], 0, 2)
    ensures Pack5Bytes(t)[4] == Bits(t[6], 2, 3) + 8 * Bits(t[7], 0, 5)
  {
    Powers();
    hide Pow, Shr, Shl, Or, Mask, Byte, Bits;
    assert Pack5Bytes(t)[0] == Bits(t[0], 0, 5) + 32 * Bits(t[1], 0, 3) by {
      Masked(t[0], 5); OrJoinMasked(t[0], t[1], 5, 8, 32); ByteMasks(Or(t[0], Shl(t[1], 5)));
    }
    assert Pack5Bytes(t)[1] == Bits(t[1], 3, 2) + 4 * Bits(t[2], 0, 5) + 128 * Bits(t[3], 0, 1) by {
      TopBits(t[1], 3, 2); Masked(t[2], 5); OrJoin(Shr(t[1], 3), t[2], 2, 5, 4);
      OrJoinMasked(Or(Shr(t[1], 3), Shl(t[2], 2)), t[3], 7, 8, 128);
      ByteMasks(Or(Or(Shr(t[1], 3), Shl(t[2], 2)), Shl(t[3], 7)));
    }
    assert Pack5Bytes(t)[2] == Bits(t[3], 1, 4) + 16 * Bits(t[4], 0, 4) by {
      TopBits(t[3], 1, 4); OrJoinMasked(Shr(t[3], 1), t[4], 4, 8, 16); ByteMasks(Or(Shr(t[3], 1), Shl(t[4], 4)));
    }
    assert Pack5Bytes(t)[3] == Bits(t[4], 4, 1) + 2 * Bits(t[5], 0, 5) + 64 * Bits(t[6], 0, 2) by {
      TopBits(t[4], 4, 1); Masked(t[5], 5); OrJoin(Shr(t[4], 4), t[5], 1, 5, 2);
      OrJoinMasked(Or(Shr(t[4], 4), Shl(t[5], 1)), t[6], 6, 8, 64);
      ByteMasks(Or(Or(Shr(t[4], 4), Shl(t[5], 1)), Shl(t[6], 6)));
    }
    assert Pack5Bytes(t)[4] == Bits(t[6], 2, 3) + 8 * Bits(t[7], 0, 5) by {
      TopBits(t[6], 2, 3); OrJoinMasked(Shr(t[6], 2), t[7], 3, 8, 8); ByteMasks(Or(Shr(t[6], 2), Shl(t[7], 3)));
    }
  }

  lemma Pack5Value(t: seq<nat>)
    requires |t| == 8 && Digits(t, 32)
    ensures Value(Pack5Bytes(t), 256) == Value(t, 32)
  {
    hide Pow, Value, Or, Shl, Shr, Mask, Bits, Byte, Pack5Bytes;
    Pack5Parts(t);
    Powers();
    Value5Of256(Pack5Bytes(t));
    Value8Of32(t);
    assert t[0] == Bits(t[0], 0, 5) by {
      Masked(t[0], 5);
    }
    assert t[1] == Bits(t[1], 0, 3) + 8 * Bits(t[1], 3, 2) by {
      Masked(t[1], 5); BitsSplit(t[1], 0, 5, 3, 2, 8);
    }
    assert t[2] == Bits(t[2], 0, 5) by {
      Masked(t[2], 5);
    }
    assert t[3] == Bits(t[3], 0, 1) + 2 * Bits(t[3], 1, 4) by {
      Masked(t[3], 5); BitsSplit(t[3], 0, 5, 1, 4, 2);
    }
    assert t[4] == Bits(t[4], 0, 4) + 16 * Bits(t[4], 4, 1) by {
      Masked(t[4], 5); BitsSplit(t[4], 0, 5, 4, 1, 16);
    }
    assert t[5] == Bits(t[5], 0, 5) by {
      Masked(t[5], 5);
    }
    assert t[6] == Bits(t[6], 0, 2) + 4 * Bits(t[6], 2, 3) by {
      Masked(t[6], 5); BitsSplit(t[6], 0, 5, 2, 3, 4);
    }
    assert t[7] == Bits(t[7], 0, 5) by {
      Masked(t[7], 5);
    }
  }

  lemma Pack5IsPacking()
    ensures PacksGroups(Pack5Bytes, 5, 8, 5)
  {
    Powers();
    hide Pow, Value, Pack5Bytes;
    forall t: seq<nat> | |t| == 8 && Digits(t, Pow(2, 5))
      ensures SameBits(Pack5Bytes(t), t, 5)
    {
      Pack5Value(t);
    }
  }

  function Unpack5Coeffs(b: seq<uint8>): (t: seq<nat>)
    requires |b| == 5
    ensures |t| == 8
  {
    [Mask(b[0], 5), Or(Shr(b[0], 5), Shl(Mask(b[1], 2), 3)), Mask(Shr(b[1], 2), 5),
     Or(Shr(b[1], 7), Shl(Mask(b[2], 4), 1)), Or(Shr(b[2], 4), Shl(Mask(b[3], 1), 4)), Mask(Shr(b[3], 1), 5),
     Or(Shr(b[3], 6), Shl(Mask(b[4], 3), 2)), Mask(Shr(b[4], 3), 5)]
  }

  lemma Unpack5PartsA(b: seq<uint8>)
    requires |b| == 5
    ensures Unpack5Coeffs(b)[0] == Bits(b[0], 0, 5) < 32
    ensures Unpack5Coeffs(b)[1] == Bits(b[0], 5, 3) + 8 * Bits(b[1], 0, 2) < 32
    ensures Unpack5Coeffs(b)[2] == Bits(b[1], 2, 5) < 32
    ensures Unpack5Coeffs(b)[3] == Bits(b[1], 7, 1) + 2 * Bits(b[2], 0, 4) < 32
  {
    Powers();
    hide Pow, Shr, Shl, Or, Mask, Byte, Bits;
    assert Unpack5Coeffs(b)[0] == Bits(b[0], 0, 5) < 32 by {
      LowBits(b[0], 5);
    }
    assert Unpack5Coeffs(b)[1] == Bits(b[0], 5, 3) + 8 * Bits(b[1], 0, 2) < 32 by {
      TopBits(b[0], 5, 3); LowBits(b[1], 2); OrJoin(Shr(b[0], 5), Mask(b[1], 2), 3, 2, 8);
    }
    assert Unpack5Coeffs(b)[2] == Bits(b[1], 2, 5) < 32 by {
      BitsOfShift(b[1], 2, 5);
    }
    assert Unpack5Coeffs(b)[3] == Bits(b[1], 7, 1) + 2 * Bits(b[2], 0, 4) < 32 by {
      TopBits(b[1], 7, 1); LowBits(b[2], 4); OrJoin(Shr(b[1], 7), Mask(b[2], 4), 1, 4, 2);
    }
  }

  lemma Unpack5PartsB(b: seq<uint8>)
    requires |b| == 5
    ensures Unpack5Coeffs(b)[4] == Bits(b[2], 4, 4) + 16 * Bits(b[3], 0, 1) < 32
    ensures Unpack5Coeffs(b)[5] == Bits(b[3], 1, 5) < 32
    ensures Unpack5Coeffs(b)[6] == Bits(b[3], 6, 2) + 4 * Bits(b[4], 0, 3) < 32
    ensures Unpack5Coeffs(b)[7] == Bits(b[4], 3, 5) < 32
  {
    Powers();
    hide Pow, Shr, Shl, Or, Mask, Byte, Bits;
    assert Unpack5Coeffs(b)[4] == Bits(b[2], 4, 4) + 16 * Bits(b[3], 0, 1) < 32 by {
      TopBits(b[2], 4, 4); LowBits(b[3], 1); OrJoin(Shr(b[2], 4), Mask(b[3], 1), 4, 1, 16);
    }
    assert Unpack5Coeffs(b)[5] == Bits(b[3], 1, 5) < 32 by {
      BitsOfShift(b[3], 1, 5);
    }
    assert Unpack5Coeffs(b)[6] == Bits(b[3], 6, 2) + 4 * Bits(b[4], 0, 3) < 32 by {
      TopBits(b[3], 6, 2); LowBits(b[4], 3); OrJoin(Shr(b[3], 6), Mask(b[4], 3), 2, 3, 4);
    }
    assert Unpack5Coeffs(b)[7] == Bits(b[4], 3, 5) < 32 by {
      TopBits(b[4], 3, 5); Masked(Shr(b[4], 3), 5);
    }
  }

  lemma Unpack5Parts(b: seq<uint8>)
    requires |b| == 5
    ensures Digits(Unpack5Coeffs(b), 32)
    ensures Unpack5Coeffs(b)[0] == Bits(b[0], 0, 5)
    ensures Unpack5Coeffs(b)[1] == Bits(b[0], 5, 3) + 8 * Bits(b[1], 0, 2)
    ensures Unpack5Coeffs(b)[2] == Bits(b[1], 2, 5)
    ensures Unpack5Coeffs(b)[3] == Bits(b[1], 7, 1) + 2 * Bits(b[2], 0, 4)
    ensures Unpack5Coeffs(b)[4] == Bits(b[2], 4, 4) + 16 * Bits(b[3], 0, 1)
    ensures Unpack5Coeffs(b)[5] == Bits(b[3], 1, 5)
    ensures Unpack5Coeffs(b)[6] == Bits(b[3], 6, 2) + 4 * Bits(b[4], 0, 3)
    ensures Unpack5Coeffs(b)[7] == Bits(b[4], 3, 5)
  {
    hide Pow, Shr, Shl, Or, Mask, Byte, Bits, Unpack5Coeffs;
    Unpack5PartsA(b);
    Unpack5PartsB(b);
  }

  lemma Unpack5Value(b: seq<uint8>)
    requires |b| == 5
    ensures Value(b, 256) == Value(Unpack5Coeffs(b), 32)
  {
    hide Pow, Value, Or, Shl, Shr, Mask, Bits, Byte, Unpack5Coeffs;
    Unpack5Parts(b);
    Powers();
    Value5Of256(b);
    Value8Of32(Unpack5Coeffs(b));
    assert b[0] == Bits(b[0], 0, 5) + 32 * Bits(b[0], 5, 3) by {
      Masked(b[0], 8); BitsSplit(b[0], 0, 8, 5, 3, 32);
    }
    assert b[1] == Bits(b[1], 0, 2) + 4 * Bits(b[1], 2, 5) + 128 * Bits(b[1], 7, 1) by {
      Masked(b[1], 8); BitsSplit(b[1], 0, 8, 2, 6, 4); BitsSplit(b[1], 2, 6, 5, 1, 32);
    }
    assert b[2] == Bits(b[2], 0, 4) + 16 * Bits(b[2], 4, 4) by {
      Masked(b[2], 8); BitsSplit(b[2], 0, 8, 4, 4, 16);
    }
    assert b[3] == Bits(b[3], 0, 1) + 2 * Bits(b[3], 1, 5) + 64 * Bits(b[3], 6, 2) by {
      Masked(b[3], 8); BitsSplit(b[3], 0, 8, 1, 7, 2); BitsSplit(b[3], 1, 7, 5, 2, 32);
    }
    assert b[4] == Bits(b[4], 0, 3) + 8 * Bits(b[4], 3, 5) by {
      Masked(b[4], 8); BitsSplit(b[4], 0, 8, 3, 5, 8);
    }
  }

  lemma Unpack5IsReading()
    ensures ReadsGroups(Unpack5Coeffs, 5, 8, 5)
  {
    Powers();
    hide Pow, Value, Unpack5Coeffs;
    forall b: seq<uint8> | |b| == 5
      ensures SameBits(b, Unpack5Coeffs(b), 5)
    {
      Unpack5Parts(b);
      Unpack5Value(b);
      BytesAreDigits(b);
    }
  }

  // ---------- 6 bits: w1 for gamma2 = (q-1)/88 ----------

  function Pack6Bytes(t: seq<nat>): (b: seq<uint8>)
    requires |t| == 4
    ensures |b| == 3
  {
    [Byte(Or(t[0], Shl(t[1], 6))), Byte(Or(Shr(t[1], 2), Shl(t[2], 4))), Byte(Or(Shr(t[2], 4), Shl(t[3], 2)))]
  }

  lemma Pack6Parts(t: seq<nat>)
    requires |t| == 4 && Digits(t, 64)
    ensures Pack6Bytes(t)[0] == Bits(t[0], 0, 6) + 64 * Bits(t[1], 0, 2)
    ensures Pack6Bytes(t)[1] == Bits(t[1], 2, 4) + 16 * Bits(t[2], 0, 4)
    ensures Pack6Bytes(t)[2] == Bits(t[2], 4, 2) + 4 * Bits(t[3], 0, 6)
  {
    Powers();
    hide Pow, Shr, Shl, Or, Mask, Byte, Bits;
    assert Pack6Bytes(t)[0] == Bits(t[0], 0, 6) + 64 * Bits(t[1], 0, 2) by {
      Masked(t[0], 6); OrJoinMasked(t[0], t[1], 6, 8, 64); ByteMasks(Or(t[0], Shl(t[1], 6)));
    }
    assert Pack6Bytes(t)[1] == Bits(t[1], 2, 4) + 16 * Bits(t[2], 0, 4) by {
      TopBits(t[1], 2, 4); OrJoinMasked(Shr(t[1], 2), t[2], 4, 8, 16); ByteMasks(Or(Shr(t[1], 2), Shl(t[2], 4)));
    }
    assert Pack6Bytes(t)[2] == Bits(t[2], 4, 2) + 4 * Bits(t[3], 0, 6) by {
      TopBits(t[2], 4, 2); OrJoinMasked(Shr(t[2], 4), t[3], 2, 8, 4); ByteMasks(Or(Shr(t[2], 4), Shl(t[3], 2)));
    }
  }

  lemma Pack6Value(t: seq<nat>)
    requires |t| == 4 && Digits(t, 64)
    ensures Value(Pack6Bytes(t), 256) == Value(t, 64)
  {
    hide Pow, Value, Or, Shl, Shr, Mask, Bits, Byte, Pack6Bytes;
    Pack6Parts(t);
    Powers();
    Value3Of256(Pack6Bytes(t));
    Value4Of64(t);
    assert t[0] == Bits(t[0], 0, 6) by {
      Masked(t[0], 6);
    }
    assert t[1] == Bits(t[1], 0, 2) + 4 * Bits(t[1], 2, 4) by {
      Masked(t[1], 6); BitsSplit(t[1], 0, 6, 2, 4, 4);
    }
    assert t[2] == Bits(t[2], 0, 4) + 16 * Bits(t[2], 4, 2) by {
      Masked(t[2], 6); BitsSplit(t[2], 0, 6, 4, 2, 16);
    }
    assert t[3] == Bits(t[3], 0, 6) by {
      Masked(t[3], 6);
    }
  }

  lemma Pack6IsPacking()
    ensures PacksGroups(Pack6Bytes, 6, 4, 3)
  {
    Powers();
    hide Pow, Value, Pack6Bytes;
    forall t: seq<nat> | |t| == 4 && Digits(t, Pow(2, 6))
      ensures SameBits(Pack6Bytes(t), t, 6)
    {
      Pack6Value(t);
    }
  }

  // ---------- 10 bits: t1, compressed u ----------

  function Pack10Bytes(t: seq<nat>): (b: seq<uint8>)
    requires |t| == 4
    ensures |b| == 5
  {
    [Byte(t[0]), Byte(Or(Shr(t[0], 8), Shl(Mask(t[1], 6), 2))),
     Byte(Or(Shr(t[1], 6), Shl(Mask(t[2], 4), 4))), Byte(Or(Shr(t[2], 4), Shl(Mask(t[3], 2), 6))),
     Byte(Shr(t[3], 2))]
  }

  lemma Pack10Parts(t: seq<nat>)
    requires |t| == 4 && Digits(t, 0x400)
    ensures Pack10Bytes(t)[0] == Bits(t[0], 0, 8)
    ensures Pack10Bytes(t)[1] == Bits(t[0], 8, 2) + 4 * Bits(t[1], 0, 6)
    ensures Pack10Bytes(t)[2] == Bits(t[1], 6, 4) + 16 * Bits(t[2], 0, 4)
    ensures Pack10Bytes(t)[3] == Bits(t[2], 4, 6) + 64 * Bits(t[3], 0, 2)
    ensures Pack10Bytes(t)[4] == Bits(t[3], 2, 8)
  {
    Powers();
    hide Pow, Shr, Shl, Or, Mask, Byte, Bits;
    assert Pack10Bytes(t)[0] == Bits(t[0], 0, 8) by {
      LowBits(t[0], 8); ByteMasks(t[0]);
    }
    assert Pack10Bytes(t)[1] == Bits(t[0], 8, 2) + 4 * Bits(t[1], 0, 6) by {
      TopBits(t[0], 8, 2); LowBits(t[1], 6); OrJoin(Shr(t[0], 8), Mask(t[1], 6), 2, 6, 4);
      Masked(Or(Shr(t[0], 8), Shl(Mask(t[1], 6), 2)), 8); ByteMasks(Or(Shr(t[0], 8), Shl(Mask(t[1], 6), 2)));
    }
    assert Pack10Bytes(t)[2] == Bits(t[1], 6, 4) + 16 * Bits(t[2], 0, 4) by {
      TopBits(t[1], 6, 4); LowBits(t[2], 4); OrJoin(Shr(t[1], 6), Mask(t[2], 4), 4, 4, 16);
      Masked(Or(Shr(t[1], 6), Shl(Mask(t[2], 4), 4)), 8); ByteMasks(Or(Shr(t[1], 6), Shl(Mask(t[2], 4), 4)));
    }
    assert Pack10Bytes(t)[3] == Bits(t[2], 4, 6) + 64 * Bits(t[3], 0, 2) by {
      TopBits(t[2], 4, 6); LowBits(t[3], 2); OrJoin(Shr(t[2], 4), Mask(t[3], 2), 6, 2, 64);
      Masked(Or(Shr(t[2], 4), Shl(Mask(t[3], 2), 6)), 8); ByteMasks(Or(Shr(t[2], 4), Shl(Mask(t[3], 2), 6)));
    }
    assert Pack10Bytes(t)[4] == Bits(t[3], 2, 8) by {
      TopBits(t[3], 2, 8); Masked(Shr(t[3], 2), 8); ByteMasks(Shr(t[3], 2));
    }
  }

  lemma Pack10Splits(t: seq<nat>)
    requires |t| == 4 && Digits(t, 0x400)
    ensures t[0] == Bits(t[0], 0, 8) + 0x100 * Bits(t[0], 8, 2)
    ensures t[1] == Bits(t[1], 0, 6) + 64 * Bits(t[1], 6, 4)
    ensures t[2] == Bits(t[2], 0, 4) + 16 * Bits(t[2], 4, 6)
    ensures t[3] == Bits(t[3], 0, 2) + 4 * Bits(t[3], 2, 8)
  {
    hide Pow, Shr, Shl, Or, Mask, Byte, Bits;
    Powers();
    assert t[0] == Bits(t[0], 0, 8) + 0x100 * Bits(t[0], 8, 2) by {
      Masked(t[0], 10); BitsSplit(t[0], 0, 10, 8, 2, 0x100);
    }
    assert t[1] == Bits(t[1], 0, 6) + 64 * Bits(t[1], 6, 4) by {
      Masked(t[1], 10); BitsSplit(t[1], 0, 10, 6, 4, 64);
    }
    assert t[2] == Bits(t[2], 0, 4) + 16 * Bits(t[2], 4, 6) by {
      Masked(t[2], 10); BitsSplit(t[2], 0, 10, 4, 6, 16);
    }
    assert t[3] == Bits(t[3], 0, 2) + 4 * Bits(t[3], 2, 8) by {
      Masked(t[3], 10); BitsSplit(t[3], 0, 10, 2, 8, 4);
    }
  }

  lemma Pack10Value(t: seq<nat>)
    requires |t| == 4 && Digits(t, 0x400)
    ensures Value(Pack10Bytes(t), 256) == Value(t, 0x400)
  {
    hide *;
    Pack10Splits(t);
    Pack10Parts(t);
    Value5Of256(Pack10Bytes(t));
    Value4Of1024(t);
  }

  lemma Pack10IsPacking()
    ensures PacksGroups(Pack10Bytes, 10, 4, 5)
  {
    Powers();
    hide Pow, Value, Pack10Bytes;
    forall t: seq<nat> | |t| == 4 && Digits(t, Pow(2, 10))
      ensures SameBits(Pack10Bytes(t), t, 10)
    {
      Pack10Value(t);
    }
  }

  function Unpack10Coeffs(b: seq<uint8>): (t: seq<nat>)
    requires |b| == 5
    ensures |t| == 4
  {
    [Mask(Or(b[0], Shl(b[1], 8)), 10), Mask(Or(Shr(b[1], 2), Shl(b[2], 6)), 10),
     Mask(Or(Shr(b[2], 4), Shl(b[3], 4)), 10), Mask(Or(Shr(b[3], 6), Shl(b[4], 2)), 10)]
  }

  lemma Unpack10Parts(b: seq<uint8>)
    requires |b| == 5
    ensures Digits(Unpack10Coeffs(b), 0x400)
    ensures Unpack10Coeffs(b)[0] == Bits(b[0], 0, 8) + 0x100 * Bits(b[1], 0, 2)
    ensures Unpack10Coeffs(b)[1] == Bits(b[1], 2, 6) + 64 * Bits(b[2], 0, 4)
    ensures Unpack10Coeffs(b)[2] == Bits(b[2], 4, 4) + 16 * Bits(b[3], 0, 6)
    ensures Unpack10Coeffs(b)[3] == Bits(b[3], 6, 2) + 4 * Bits(b[4], 0, 8)
  {
    Powers();
    hide Pow, Shr, Shl, Or, Mask, Byte, Bits;
    assert Unpack10Coeffs(b)[0] == Bits(b[0], 0, 8) + 0x100 * Bits(b[1], 0, 2) < 0x400 by {
      Masked(b[0], 8); OrJoinMasked(b[0], b[1], 8, 10, 0x100);
    }
    assert Unpack10Coeffs(b)[1] == Bits(b[1], 2, 6) + 64 * Bits(b[2], 0, 4) < 0x400 by {
      TopBits(b[1], 2, 6); OrJoinMasked(Shr(b[1], 2), b[2], 6, 10, 64);
    }
    assert Unpack10Coeffs(b)[2] == Bits(b[2], 4, 4) + 16 * Bits(b[3], 0, 6) < 0x400 by {
      TopBits(b[2], 4, 4); OrJoinMasked(Shr(b[2], 4), b[3], 4, 10, 16);
    }
    assert Unpack10Coeffs(b)[3] == Bits(b[3], 6, 2) + 4 * Bits(b[4], 0, 8) < 0x400 by {
      TopBits(b[3], 6, 2); OrJoinMasked(Shr(b[3], 6), b[4], 2, 10, 4);
    }
  }

  lemma Unpack10Splits(b: seq<uint8>)
    requires |b| == 5
    ensures b[0] == Bits(b[0], 0, 8)
    ensures b[1] == Bits(b[1], 0, 2) + 4 * Bits(b[1], 2, 6)
    ensures b[2] == Bits(b[2], 0, 4) + 16 * Bits(b[2], 4, 4)
    ensures b[3] == Bits(b[3], 0, 6) + 64 * Bits(b[3], 6, 2)
    ensures b[4] == Bits(b[4], 0, 8)
  {
    hide Pow, Shr, Shl, Or, Mask, Byte, Bits;
    Powers();
    assert b[0] == Bits(b[0], 0, 8) by {
      Masked(b[0], 8);
    }
    assert b[1] == Bits(b[1], 0, 2) + 4 * Bits(b[1], 2, 6) by {
      Masked(b[1], 8); BitsSplit(b[1], 0, 8, 2, 6, 4);
    }
    assert b[2] == Bits(b[2], 0, 4) + 16 * Bits(b[2], 4, 4) by {
      Masked(b[2], 8); BitsSplit(b[2], 0, 8, 4, 4, 16);
    }
    assert b[3] == Bits(b[3], 0, 6) + 64 * Bits(b[3], 6, 2) by {
      Masked(b[3], 8); BitsSplit(b[3], 0, 8, 6, 2, 64);
    }
    assert b[4] == Bits(b[4], 0, 8) by {
      Masked(b[4], 8);
    }
  }

  lemma Unpack10Value(b: seq<uint8>)
    requires |b| == 5
    ensures Value(b, 256) == Value(Unpack10Coeffs(b), 0x400)
  {
    hide *;
    Unpack10Splits(b);
    Unpack10Parts(b);
    Value5Of256(b);
    Value4Of1024(Unpack10Coeffs(b));
  }

  lemma Unpack10IsReading()
    ensures ReadsGroups(Unpack10Coeffs, 10, 4, 5)
  {
    Powers();
    hide Pow, Value, Unpack10Coeffs;
    forall b: seq<uint8> | |b| == 5
      ensures SameBits(b, Unpack10Coeffs(b), 10)
    {
      Unpack10Parts(b);
      Unpack10Value(b);
      BytesAreDigits(b);
    }
  }

  // ---------- 11 bits: compressed u ----------

  function Pack11Bytes(t: seq<nat>): (b: seq<uint8>)
    requires |t| == 8
    ensures |b| == 11
  {
    [Byte(t[0]), Byte(Or(Shr(t[0], 8), Shl(Mask(t[1], 5), 3))),
     Byte(Or(Shr(t[1], 5), Shl(Mask(t[2], 2), 6))), Byte(Shr(t[2], 2)),
     Byte(Or(Shr(t[2], 10), Shl(Mask(t[3], 7), 1))), Byte(Or(Shr(t[3], 7), Shl(Mask(t[4], 4), 4))),
     Byte(Or(Shr(t[4], 4), Shl(Mask(t[5], 1), 7))), Byte(Shr(t[5], 1)),
     Byte(Or(Shr(t[5], 9), Shl(Mask(t[6], 6), 2))), Byte(Or(Shr(t[6], 6), Shl(Mask(t[7], 3), 5))),
     Byte(Shr(t[7], 3))]
  }

  lemma Pack11PartsA(t: seq<nat>)
    requires |t| == 8 && Digits(t, 0x800)
    ensures Pack11Bytes(t)[0] == Bits(t[0], 0, 8)
    ensures Pack11Bytes(t)[1] == Bits(t[0], 8, 3) + 8 * Bits(t[1], 0, 5)
    ensures Pack11Bytes(t)[2] == Bits(t[1], 5, 6) + 64 * Bits(t[2], 0, 2)
    ensures Pack11Bytes(t)[3] == Bits(t[2], 2, 8)
    ensures Pack11Bytes(t)[4] == Bits(t[2], 10, 1) + 2 * Bits(t[3], 0, 7)
    ensures Pack11Bytes(t)[5] == Bits(t[3], 7, 4) + 16 * Bits(t[4], 0, 4)
  {
    Powers();
    hide Pow, Shr, Shl, Or, Mask, Byte, Bits;
    assert Pack11Bytes(t)[0] == Bits(t[0], 0, 8) by {
      LowBits(t[0], 8); ByteMasks(t[0]);
    }
    assert Pack11Bytes(t)[1] == Bits(t[0], 8, 3) + 8 * Bits(t[1], 0, 5) by {
      TopBits(t[0], 8, 3); LowBits(t[1], 5); OrJoin(Shr(t[0], 8), Mask(t[1], 5), 3, 5, 8);
      Masked(Or(Shr(t[0], 8), Shl(Mask(t[1], 5), 3)), 8); ByteMasks(Or(Shr(t[0], 8), Shl(Mask(t[1], 5), 3)));
    }
    assert Pack11Bytes(t)[2] == Bits(t[1], 5, 6) + 64 * Bits(t[2], 0, 2) by {
      TopBits(t[1], 5, 6); LowBits(t[2], 2); OrJoin(Shr(t[1], 5), Mask(t[2], 2), 6, 2, 64);
      Masked(Or(Shr(t[1], 5), Shl(Mask(t[2], 2), 6)), 8); ByteMasks(Or(Shr(t[1], 5), Shl(Mask(t[2], 2), 6)));
    }
    assert Pack11Bytes(t)[3] == Bits(t[2], 2, 8) by {
      BitsOfShift(t[2], 2, 8); ByteMasks(Shr(t[2], 2));
    }
    assert Pack11Bytes(t)[4] == Bits(t[2], 10, 1) + 2 * Bits(t[3], 0, 7) by {
      TopBits(t[2], 10, 1); LowBits(t[3], 7); OrJoin(Shr(t[2], 10), Mask(t[3], 7), 1, 7, 2);
      Masked(Or(Shr(t[2], 10), Shl(Mask(t[3], 7), 1)), 8); ByteMasks(Or(Shr(t[2], 10), Shl(Mask(t[3], 7), 1)));
    }
    assert Pack11Bytes(t)[5] == Bits(t[3], 7, 4) + 16 * Bits(t[4], 0, 4) by {
      TopBits(t[3], 7, 4); LowBits(t[4], 4); OrJoin(Shr(t[3], 7), Mask(t[4], 4), 4, 4, 16);
      Masked(Or(Shr(t[3], 7), Shl(Mask(t[4], 4), 4)), 8); ByteMasks(Or(Shr(t[3], 7), Shl(Mask(t[4], 4), 4)));
    }
  }

  lemma Pack11PartsB(t: seq<nat>)
    requires |t| == 8 && Digits(t, 0x800)
    ensures Pack11Bytes(t)[6] == Bits(t[4], 4, 7) + 128 * Bits(t[5], 0, 1)
    ensures Pack11Bytes(t)[7] == Bits(t[5], 1, 8)
    ensures Pack11Bytes(t)[8] == Bits(t[5], 9, 2) + 4 * Bits(t[6], 0, 6)
    ensures Pack11Bytes(t)[9] == Bits(t[6], 6, 5) + 32 * Bits(t[7], 0, 3)
    ensures Pack11Bytes(t)[10] == Bits(t[7], 3, 8)
  {
    Powers();
    hide Pow, Shr, Shl, Or, Mask, Byte, Bits;
    assert Pack11Bytes(t)[6] == Bits(t[4], 4, 7) + 128 * Bits(t[5], 0, 1) by {
      TopBits(t[4], 4, 7); LowBits(t[5], 1); OrJoin(Shr(t[4], 4), Mask(t[5], 1), 7, 1, 128);
      Masked(Or(Shr(t[4], 4), Shl(Mask(t[5], 1), 7)), 8); ByteMasks(Or(Shr(t[4], 4), Shl(Mask(t[5], 1), 7)));
    }
    assert Pack11Bytes(t)[7] == Bits(t[5], 1, 8) by {
      BitsOfShift(t[5], 1, 8); ByteMasks(Shr(t[5], 1));
    }
    assert Pack11Bytes(t)[8] == Bits(t[5], 9, 2) + 4 * Bits(t[6], 0, 6) by {
      TopBits(t[5], 9, 2); LowBits(t[6], 6); OrJoin(Shr(t[5], 9), Mask(t[6], 6), 2, 6, 4);
      Masked(Or(Shr(t[5], 9), Shl(Mask(t[6], 6), 2)), 8); ByteMasks(Or(Shr(t[5], 9), Shl(Mask(t[6], 6), 2)));
    }
    assert Pack11Bytes(t)[9] == Bits(t[6], 6, 5) + 32 * Bits(t[7], 0, 3) by {
      TopBits(t[6], 6, 5); LowBits(t[7], 3); OrJoin(Shr(t[6], 6), Mask(t[7], 3), 5, 3, 32);
      Masked(Or(Shr(t[6], 6), Shl(Mask(t[7], 3), 5)), 8); ByteMasks(Or(Shr(t[6], 6), Shl(Mask(t[7], 3), 5)));
    }
    assert Pack11Bytes(t)[10] == Bits(t[7], 3, 8) by {
      TopBits(t[7], 3, 8); Masked(Shr(t[7], 3), 8); ByteMasks(Shr(t[7], 3));
    }
  }

  lemma Pack11Parts(t: seq<nat>)
    requires |t| == 8 && Digits(t, 0x800)
    ensures Pack11Bytes(t)[0] == Bits(t[0], 0, 8)
    ensures Pack11Bytes(t)[1] == Bits(t[0], 8, 3) + 8 * Bits(t[1], 0, 5)
    ensures Pack11Bytes(t)[2] == Bits(t[1], 5, 6) + 64 * Bits(t[2], 0, 2)
    ensures Pack11Bytes(t)[3] == Bits(t[2], 2, 8)
    ensures Pack11Bytes(t)[4] == Bits(t[2], 10, 1) + 2 * Bits(t[3], 0, 7)
    ensures Pack11Bytes(t)[5] == Bits(t[3], 7, 4) + 16 * Bits(t[4], 0, 4)
    ensures Pack11Bytes(t)[6] == Bits(t[4], 4, 7) + 128 * Bits(t[5], 0, 1)
    ensures Pack11Bytes(t)[7] == Bits(t[5], 1, 8)
    ensures Pack11Bytes(t)[8] == Bits(t[5], 9, 2) + 4 * Bits(t[6], 0, 6)
    ensures Pack11Bytes(t)[9] == Bits(t[6], 6, 5) + 32 * Bits(t[7], 0, 3)
    ensures Pack11Bytes(t)[10] == Bits(t[7], 3, 8)
  {
    hide Pow, Shr, Shl, Or, Mask, Byte, Bits, Pack11Bytes;
    Pack11PartsA(t);
    Pack11PartsB(t);
  }

  lemma Pack11Splits(t: seq<nat>)
    requires |t| == 8 && Digits(t, 0x800)
    ensures t[0] == Bits(t[0], 0, 8) + 0x100 * Bits(t[0], 8, 3)
    ensures t[1] == Bits(t[1], 0, 5) + 32 * Bits(t[1], 5, 6)
    ensures t[2] == Bits(t[2], 0, 2) + 4 * Bits(t[2], 2, 8) + 0x400 * Bits(t[2], 10, 1)
    ensures t[3] == Bits(t[3], 0, 7) + 128 * Bits(t[3], 7, 4)
    ensures t[4] == Bits(t[4], 0, 4) + 16 * Bits(t[4], 4, 7)
    ensures t[5] == Bits(t[5], 0, 1) + 2 * Bits(t[5], 1, 8) + 0x200 * Bits(t[5], 9, 2)
    ensures t[6] == Bits(t[6], 0, 6) + 64 * Bits(t[6], 6, 5)
    ensures t[7] == Bits(t[7], 0, 3) + 8 * Bits(t[7], 3, 8)
  {
    hide Pow, Shr, Shl, Or, Mask, Byte, Bits;
    Powers();
    assert t[0] == Bits(t[0], 0, 8) + 0x100 * Bits(t[0], 8, 3) by {
      Masked(t[0], 11); BitsSplit(t[0], 0, 11, 8, 3, 0x100);
    }
    assert t[1] == Bits(t[1], 0, 5) + 32 * Bits(t[1], 5, 6) by {
      Masked(t[1], 11); BitsSplit(t[1], 0, 11, 5, 6, 32);
    }
    assert t[2] == Bits(t[2], 0, 2) + 4 * Bits(t[2], 2, 8) + 0x400 * Bits(t[2], 10, 1) by {
      Masked(t[2], 11); BitsSplit(t[2], 0, 11, 2, 9, 4); BitsSplit(t[2], 2, 9, 8, 1, 0x100);
    }
    assert t[3] == Bits(t[3], 0, 7) + 128 * Bits(t[3], 7, 4) by {
      Masked(t[3], 11); BitsSplit(t[3], 0, 11, 7, 4, 128);
    }
    assert t[4] == Bits(t[4], 0, 4) + 16 * Bits(t[4], 4, 7) by {
      Masked(t[4], 11); BitsSplit(t[4], 0, 11, 4, 7, 16);
    }
    assert t[5] == Bits(t[5], 0, 1) + 2 * Bits(t[5], 1, 8) + 0x200 * Bits(t[5], 9, 2) by {
      Masked(t[5], 11); BitsSplit(t[5], 0, 11, 1, 10, 2); BitsSplit(t[5], 1, 10, 8, 2, 0x100);
    }
    assert t[6] == Bits(t[6], 0, 6) + 64 * Bits(t[6], 6, 5) by {
      Masked(t[6], 11); BitsSplit(t[6], 0, 11, 6, 5, 64);
    }
    assert t[7] == Bits(t[7], 0, 3) + 8 * Bits(t[7], 3, 8) by {
      Masked(t[7], 11); BitsSplit(t[7], 0, 11, 3, 8, 8);
    }
  }

  lemma Pack11Value(t: seq<nat>)
    requires |t| == 8 && Digits(t, 0x800)
    ensures Value(Pack11Bytes(t), 256) == Value(t, 0x800)
  {
    hide *;
    Pack11Splits(t);
    Pack11Parts(t);
    Value11Of256(Pack11Bytes(t));
    Value8Of2048(t);
  }

  lemma Pack11IsPacking()
    ensures PacksGroups(Pack11Bytes, 11, 8, 11)
  {
    Powers();
    hide Pow, Value, Pack11Bytes;
    forall t: seq<nat> | |t| == 8 && Digits(t, Pow(2, 11))
      ensures SameBits(Pack11Bytes(t), t, 11)
    {
      Pack11Value(t);
    }
  }

  function Unpack11Coeffs(b: seq<uint8>): (t: seq<nat>)
    requires |b| == 11
    ensures |t| == 8
  {
    [Mask(Or(b[0], Shl(b[1], 8)), 11), Mask(Or(Shr(b[1], 3), Shl(b[2], 5)), 11),
     Mask(Or(Or(Shr(b[2], 6), Shl(b[3], 2)), Shl(b[4], 10)), 11), Mask(Or(Shr(b[4], 1), Shl(b[5], 7)), 11),
     Mask(Or(Shr(b[5], 4), Shl(b[6], 4)), 11), Mask(Or(Or(Shr(b[6], 7), Shl(b[7], 1)), Shl(b[8], 9)), 11),
     Mask(Or(Shr(b[8], 2), Shl(b[9], 6)), 11), Mask(Or(Shr(b[9], 5), Shl(b[10], 3)), 11)]
  }

  lemma Unpack11PartsA(b: seq<uint8>)
    requires |b| == 11
    ensures Unpack11Coeffs(b)[0] == Bits(b[0], 0, 8) + 0x100 * Bits(b[1], 0, 3) < 0x800
    ensures Unpack11Coeffs(b)[1] == Bits(b[1], 3, 5) + 32 * Bits(b[2], 0, 6) < 0x800
    ensures Unpack11Coeffs(b)[2] == Bits(b[2], 6, 2) + 4 * Bits(b[3], 0, 8) + 0x400 * Bits(b[4], 0, 1) < 0x800
    ensures Unpack11Coeffs(b)[3] == Bits(b[4], 1, 7) + 128 * Bits(b[5], 0, 4) < 0x800
  {
    Powers();
    hide Pow, Shr, Shl, Or, Mask, Byte, Bits;
    assert Unpack11Coeffs(b)[0] == Bits(b[0], 0, 8) + 0x100 * Bits(b[1], 0, 3) < 0x800 by {
      Masked(b[0], 8); OrJoinMasked(b[0], b[1], 8, 11, 0x100);
    }
    assert Unpack11Coeffs(b)[1] == Bits(b[1], 3, 5) + 32 * Bits(b[2], 0, 6) < 0x800 by {
      TopBits(b[1], 3, 5); OrJoinMasked(Shr(b[1], 3), b[2], 5, 11, 32);
    }
    assert Unpack11Coeffs(b)[2] == Bits(b[2], 6, 2) + 4 * Bits(b[3], 0, 8) + 0x400 * Bits(b[4], 0, 1) < 0x800 by {
      TopBits(b[2], 6, 2); Masked(b[3], 8); OrJoin(Shr(b[2], 6), b[3], 2, 8, 4);
      OrJoinMasked(Or(Shr(b[2], 6), Shl(b[3], 2)), b[4], 10, 11, 0x400);
    }
    assert Unpack11Coeffs(b)[3] == Bits(b[4], 1, 7) + 128 * Bits(b[5], 0, 4) < 0x800 by {
      TopBits(b[4], 1, 7); OrJoinMasked(Shr(b[4], 1), b[5], 7, 11, 128);
    }
  }

  lemma Unpack11PartsB(b: seq<uint8>)
    requires |b| == 11
    ensures Unpack11Coeffs(b)[4] == Bits(b[5], 4, 4) + 16 * Bits(b[6], 0, 7) < 0x800
    ensures Unpack11Coeffs(b)[5] == Bits(b[6], 7, 1) + 2 * Bits(b[7], 0, 8) + 0x200 * Bits(b[8], 0, 2) < 0x800
    ensures Unpack11Coeffs(b)[6] == Bits(b[8], 2, 6) + 64 * Bits(b[9], 0, 5) < 0x800
    ensures Unpack11Coeffs(b)[7] == Bits(b[9], 5, 3) + 8 * Bits(b[10], 0, 8) < 0x800
  {
    Powers();
    hide Pow, Shr, Shl, Or, Mask, Byte, Bits;
    assert Unpack11Coeffs(b)[4] == Bits(b[5], 4, 4) + 16 * Bits(b[6], 0, 7) < 0x800 by {
      TopBits(b[5], 4, 4); OrJoinMasked(Shr(b[5], 4), b[6], 4, 11, 16);
    }
    assert Unpack11Coeffs(b)[5] == Bits(b[6], 7, 1) + 2 * Bits(b[7], 0, 8) + 0x200 * Bits(b[8], 0, 2) < 0x800 by {
      TopBits(b[6], 7, 1); Masked(b[7], 8); OrJoin(Shr(b[6], 7), b[7], 1, 8, 2);
      OrJoinMasked(Or(Shr(b[6], 7), Shl(b[7], 1)), b[8], 9, 11, 0x200);
    }
    assert Unpack11Coeffs(b)[6] == Bits(b[8], 2, 6) + 64 * Bits(b[9], 0, 5) < 0x800 by {
      TopBits(b[8], 2, 6); OrJoinMasked(Shr(b[8], 2), b[9], 6, 11, 64);
    }
    assert Unpack11Coeffs(b)[7] == Bits(b[9], 5, 3) + 8 * Bits(b[10], 0, 8) < 0x800 by {
      TopBits(b[9], 5, 3); OrJoinMasked(Shr(b[9], 5), b[10], 3, 11, 8);
    }
  }

  lemma Unpack11Parts(b: seq<uint8>)
    requires |b| == 11
    ensures Digits(Unpack11Coeffs(b), 0x800)
    ensures Unpack11Coeffs(b)[0] == Bits(b[0], 0, 8) + 0x100 * Bits(b[1], 0, 3)
    ensures Unpack11Coeffs(b)[1] == Bits(b[1], 3, 5) + 32 * Bits(b[2], 0, 6)
    ensures Unpack11Coeffs(b)[2] == Bits(b[2], 6, 2) + 4 * Bits(b[3], 0, 8) + 0x400 * Bits(b[4], 0, 1)
    ensures Unpack11Coeffs(b)[3] == Bits(b[4], 1, 7) + 128 * Bits(b[5], 0, 4)
    ensures Unpack11Coeffs(b)[4] == Bits(b[5], 4, 4) + 16 * Bits(b[6], 0, 7)
    ensures Unpack11Coeffs(b)[5] == Bits(b[6], 7, 1) + 2 * Bits(b[7], 0, 8) + 0x200 * Bits(b[8], 0, 2)
    ensures Unpack11Coeffs(b)[6] == Bits(b[8], 2, 6) + 64 * Bits(b[9], 0, 5)
    ensures Unpack11Coeffs(b)[7] == Bits(b[9], 5, 3) + 8 * Bits(b[10], 0, 8)
  {
    hide Pow, Shr, Shl, Or, Mask, Byte, Bits, Unpack11Coeffs;
    Unpack11PartsA(b);
    Unpack11PartsB(b);
  }

  lemma Unpack11Splits(b: seq<uint8>)
    requires |b| == 11
    ensures b[0] == Bits(b[0], 0, 8)
    ensures b[1] == Bits(b[1], 0, 3) + 8 * Bits(b[1], 3, 5)
    ensures b[2] == Bits(b[2], 0, 6) + 64 * Bits(b[2], 6, 2)
    ensures b[3] == Bits(b[3], 0, 8)
    ensures b[4] == Bits(b[4], 0, 1) + 2 * Bits(b[4], 1, 7)
    ensures b[5] == Bits(b[5], 0, 4) + 16 * Bits(b[5], 4, 4)
    ensures b[6] == Bits(b[6], 0, 7) + 128 * Bits(b[6], 7, 1)
    ensures b[7] == Bits(b[7], 0, 8)
    ensures b[8] == Bits(b[8], 0, 2) + 4 * Bits(b[8], 2, 6)
    ensures b[9] == Bits(b[9], 0, 5) + 32 * Bits(b[9], 5, 3)
    ensures b[10] == Bits(b[10], 0, 8)
  {
    hide Pow, Shr, Shl, Or, Mask, Byte, Bits;
    Powers();
    assert b[0] == Bits(b[0], 0, 8) by {
      Masked(b[0], 8);
    }
    assert b[1] == Bits(b[1], 0, 3) + 8 * Bits(b[1], 3, 5) by {
      Masked(b[1], 8); BitsSplit(b[1], 0, 8, 3, 5, 8);
    }
    assert b[2] == Bits(b[2], 0, 6) + 64 * Bits(b[2], 6, 2) by {
      Masked(b[2], 8); BitsSplit(b[2], 0, 8, 6, 2, 64);
    }
    assert b[3] == Bits(b[3], 0, 8) by {
      Masked(b[3], 8);
    }
    assert b[4] == Bits(b[4], 0, 1) + 2 * Bits(b[4], 1, 7) by {
      Masked(b[4], 8); BitsSplit(b[4], 0, 8, 1, 7, 2);
    }
    assert b[5] == Bits(b[5], 0, 4) + 16 * Bits(b[5], 4, 4) by {
      Masked(b[5], 8); BitsSplit(b[5], 0, 8, 4, 4, 16);
    }
    assert b[6] == Bits(b[6], 0, 7) + 128 * Bits(b[6], 7, 1) by {
      Masked(b[6], 8); BitsSplit(b[6], 0, 8, 7, 1, 128);
    }
    assert b[7] == Bits(b[7], 0, 8) by {
      Masked(b[7], 8);
    }
    assert b[8] == Bits(b[8], 0, 2) + 4 * Bits(b[8], 2, 6) by {
      Masked(b[8], 8); BitsSplit(b[8], 0, 8, 2, 6, 4);
    }
    assert b[9] == Bits(b[9], 0, 5) + 32 * Bits(b[9], 5, 3) by {
      Masked(b[9], 8); BitsSplit(b[9], 0, 8, 5, 3, 32);
    }
    assert b[10] == Bits(b[10], 0, 8) by {
      Masked(b[10], 8);
    }
  }

  lemma Unpack11Value(b: seq<uint8>)
    requires |b| == 11
    ensures Value(b, 256) == Value(Unpack11Coeffs(b), 0x800)
  {
    hide *;
    Unpack11Splits(b);
    Unpack11Parts(b);
    Value11Of256(b);
    Value8Of2048(Unpack11Coeffs(b));
  }

  lemma Unpack11IsReading()
    ensures ReadsGroups(Unpack11Coeffs, 11, 8, 11)
  {
    Powers();
    hide Pow, Value, Unpack11Coeffs;
    forall b: seq<uint8> | |b| == 11
      ensures SameBits(b, Unpack11Coeffs(b), 11)
    {
      Unpack11Parts(b);
      Unpack11Value(b);
      BytesAreDigits(b);
    }
  }

  // ---------- 12 bits: ML-KEM keys ----------

  function Pack12Bytes(t: seq<nat>): (b: seq<uint8>)
    requires |t| == 2
    ensures |b| == 3
  {
    [Byte(t[0]), Byte(Or(Shr(t[0], 8), Shl(Mask(t[1], 4), 4))), Byte(Shr(t[1], 4))]
  }

  lemma Pack12Parts(t: seq<nat>)
    requires |t| == 2 && Digits(t, 0x1000)
    ensures Pack12Bytes(t)[0] == Bits(t[0], 0, 8)
    ensures Pack12Bytes(t)[1] == Bits(t[0], 8, 4) + 16 * Bits(t[1], 0, 4)
    ensures Pack12Bytes(t)[2] == Bits(t[1], 4, 8)
  {
    Powers();
    hide Pow, Shr, Shl, Or, Mask, Byte, Bits;
    assert Pack12Bytes(t)[0] == Bits(t[0], 0, 8) by {
      LowBits(t[0], 8); ByteMasks(t[0]);
    }
    assert Pack12Bytes(t)[1] == Bits(t[0], 8, 4) + 16 * Bits(t[1], 0, 4) by {
      TopBits(t[0], 8, 4); LowBits(t[1], 4); OrJoin(Shr(t[0], 8), Mask(t[1], 4), 4, 4, 16);
      Masked(Or(Shr(t[0], 8), Shl(Mask(t[1], 4), 4)), 8); ByteMasks(Or(Shr(t[0], 8), Shl(Mask(t[1], 4), 4)));
    }
    assert Pack12Bytes(t)[2] == Bits(t[1], 4, 8) by {
      TopBits(t[1], 4, 8); Masked(Shr(t[1], 4), 8); ByteMasks(Shr(t[1], 4));
    }
  }

  lemma Pack12Value(t: seq<nat>)
    requires |t| == 2 && Digits(t, 0x1000)
    ensures Value(Pack12Bytes(t), 256) == Value(t, 0x1000)
  {
    hide Pow, Value, Or, Shl, Shr, Mask, Bits, Byte, Pack12Bytes;
    Pack12Parts(t);
    Powers();
    Value3Of256(Pack12Bytes(t));
    Value2Of4096(t);
    assert t[0] == Bits(t[0], 0, 8) + 0x100 * Bits(t[0], 8, 4) by {
      Masked(t[0], 12); BitsSplit(t[0], 0, 12, 8, 4, 0x100);
    }
    assert t[1] == Bits(t[1], 0, 4) + 16 * Bits(t[1], 4, 8) by {
      Masked(t[1], 12); BitsSplit(t[1], 0, 12, 4, 8, 16);
    }
  }

  lemma Pack12IsPacking()
    ensures PacksGroups(Pack12Bytes, 12, 2, 3)
  {
    Powers();
    hide Pow, Value, Pack12Bytes;
    forall t: seq<nat> | |t| == 2 && Digits(t, Pow(2, 12))
      ensures SameBits(Pack12Bytes(t), t, 12)
    {
      Pack12Value(t);
    }
  }

  function Unpack12Coeffs(b: seq<uint8>): (t: seq<nat>)
    requires |b| == 3
    ensures |t| == 2
  {
    [Mask(Or(b[0], Shl(b[1], 8)), 12), Mask(Or(Shr(b[1], 4), Shl(b[2], 4)), 12)]
  }

  lemma Unpack12Parts(b: seq<uint8>)
    requires |b| == 3
    ensures Digits(Unpack12Coeffs(b), 0x1000)
    ensures Unpack12Coeffs(b)[0] == Bits(b[0], 0, 8) + 0x100 * Bits(b[1], 0, 4)
    ensures Unpack12Coeffs(b)[1] == Bits(b[1], 4, 4) + 16 * Bits(b[2], 0, 8)
  {
    Powers();
    hide Pow, Shr, Shl, Or, Mask, Byte, Bits;
    assert Unpack12Coeffs(b)[0] == Bits(b[0], 0, 8) + 0x100 * Bits(b[1], 0, 4) < 0x1000 by {
      Masked(b[0], 8); OrJoinMasked(b[0], b[1], 8, 12, 0x100);
    }
    assert Unpack12Coeffs(b)[1] == Bits(b[1], 4, 4) + 16 * Bits(b[2], 0, 8) < 0x1000 by {
      TopBits(b[1], 4, 4); OrJoinMasked(Shr(b[1], 4), b[2], 4, 12, 16);
    }
  }

  lemma Unpack12Value(b: seq<uint8>)
    requires |b| == 3
    ensures Value(b, 256) == Value(Unpack12Coeffs(b), 0x1000)
  {
    hide Pow, Value, Or, Shl, Shr, Mask, Bits, Byte, Unpack12Coeffs;
    Unpack12Parts(b);
    Powers();
    Value3Of256(b);
    Value2Of4096(Unpack12Coeffs(b));
    assert b[0] == Bits(b[0], 0, 8) by {
      Masked(b[0], 8);
    }
    assert b[1] == Bits(b[1], 0, 4) + 16 * Bits(b[1], 4, 4) by {
      Masked(b[1], 8); BitsSplit(b[1], 0, 8, 4, 4, 16);
    }
    assert b[2] == Bits(b[2], 0, 8) by {
      Masked(b[2], 8);
    }
  }

  lemma Unpack12IsReading()
    ensures ReadsGroups(Unpack12Coeffs, 12, 2, 3)
  {
    Powers();
    hide Pow, Value, Unpack12Coeffs;
    forall b: seq<uint8> | |b| == 3
      ensures SameBits(b, Unpack12Coeffs(b), 12)
    {
      Unpack12Parts(b);
      Unpack12Value(b);
      BytesAreDigits(b);
    }
  }

  // ---------- 13 bits: t0 ----------

  function Pack13Bytes(t: seq<nat>): (b: seq<uint8>)
    requires |t| == 8
    ensures |b| == 13
  {
    [Byte(t[0]), Byte(Or(Shr(t[0], 8), Shl(t[1], 5))), Byte(Shr(t[1], 3)),
     Byte(Or(Shr(t[1], 11), Shl(t[2], 2))), Byte(Or(Shr(t[2], 6), Shl(t[3], 7))), Byte(Shr(t[3], 1)),
     Byte(Or(Shr(t[3], 9), Shl(t[4], 4))), Byte(Shr(t[4], 4)), Byte(Or(Shr(t[4], 12), Shl(t[5], 1))),
     Byte(Or(Shr(t[5], 7), Shl(t[6], 6))), Byte(Shr(t[6], 2)), Byte(Or(Shr(t[6], 10), Shl(t[7], 3))),
     Byte(Shr(t[7], 5))]
  }

  lemma Pack13PartsA(t: seq<nat>)
    requires |t| == 8 && Digits(t, 0x2000)
    ensures Pack13Bytes(t)[0] == Bits(t[0], 0, 8)
    ensures Pack13Bytes(t)[1] == Bits(t[0], 8, 5) + 32 * Bits(t[1], 0, 3)
    ensures Pack13Bytes(t)[2] == Bits(t[1], 3, 8)
    ensures Pack13Bytes(t)[3] == Bits(t[1], 11, 2) + 4 * Bits(t[2], 0, 6)
    ensures Pack13Bytes(t)[4] == Bits(t[2], 6, 7) + 128 * Bits(t[3], 0, 1)
    ensures Pack13Bytes(t)[5] == Bits(t[3], 1, 8)
    ensures Pack13Bytes(t)[6] == Bits(t[3], 9, 4) + 16 * Bits(t[4], 0, 4)
  {
    Powers();
    hide Pow, Shr, Shl, Or, Mask, Byte, Bits;
    assert Pack13Bytes(t)[0] == Bits(t[0], 0, 8) by {
      LowBits(t[0], 8); ByteMasks(t[0]);
    }
    assert Pack13Bytes(t)[1] == Bits(t[0], 8, 5) + 32 * Bits(t[1], 0, 3) by {
      TopBits(t[0], 8, 5); OrJoinMasked(Shr(t[0], 8), t[1], 5, 8, 32); ByteMasks(Or(Shr(t[0], 8), Shl(t[1], 5)));
    }
    assert Pack13Bytes(t)[2] == Bits(t[1], 3, 8) by {
      BitsOfShift(t[1], 3, 8); ByteMasks(Shr(t[1], 3));
    }
    assert Pack13Bytes(t)[3] == Bits(t[1], 11, 2) + 4 * Bits(t[2], 0, 6) by {
      TopBits(t[1], 11, 2); OrJoinMasked(Shr(t[1], 11), t[2], 2, 8, 4);
      ByteMasks(Or(Shr(t[1], 11), Shl(t[2], 2)));
    }
    assert Pack13Bytes(t)[4] == Bits(t[2], 6, 7) + 128 * Bits(t[3], 0, 1) by {
      TopBits(t[2], 6, 7); OrJoinMasked(Shr(t[2], 6), t[3], 7, 8, 128);
      ByteMasks(Or(Shr(t[2], 6), Shl(t[3], 7)));
    }
    assert Pack13Bytes(t)[5] == Bits(t[3], 1, 8) by {
      BitsOfShift(t[3], 1, 8); ByteMasks(Shr(t[3], 1));
    }
    assert Pack13Bytes(t)[6] == Bits(t[3], 9, 4) + 16 * Bits(t[4], 0, 4) by {
      TopBits(t[3], 9, 4); OrJoinMasked(Shr(t[3], 9), t[4], 4, 8, 16); ByteMasks(Or(Shr(t[3], 9), Shl(t[4], 4)));
    }
  }

  lemma Pack13PartsB(t: seq<nat>)
    requires |t| == 8 && Digits(t, 0x2000)
    ensures Pack13Bytes(t)[7] == Bits(t[4], 4, 8)
    ensures Pack13Bytes(t)[8] == Bits(t[4], 12, 1) + 2 * Bits(t[5], 0, 7)
    ensures Pack13Bytes(t)[9] == Bits(t[5], 7, 6) + 64 * Bits(t[6], 0, 2)
    ensures Pack13Bytes(t)[10] == Bits(t[6], 2, 8)
    ensures Pack13Bytes(t)[11] == Bits(t[6], 10, 3) + 8 * Bits(t[7], 0, 5)
    ensures Pack13Bytes(t)[12] == Bits(t[7], 5, 8)
  {
    Powers();
    hide Pow, Shr, Shl, Or, Mask, Byte, Bits;
    assert Pack13Bytes(t)[7] == Bits(t[4], 4, 8) by {
      BitsOfShift(t[4], 4, 8); ByteMasks(Shr(t[4], 4));
    }
    assert Pack13Bytes(t)[8] == Bits(t[4], 12, 1) + 2 * Bits(t[5], 0, 7) by {
      TopBits(t[4], 12, 1); OrJoinMasked(Shr(t[4], 12), t[5], 1, 8, 2);
      ByteMasks(Or(Shr(t[4], 12), Shl(t[5], 1)));
    }
    assert Pack13Bytes(t)[9] == Bits(t[5], 7, 6) + 64 * Bits(t[6], 0, 2) by {
      TopBits(t[5], 7, 6); OrJoinMasked(Shr(t[5], 7), t[6], 6, 8, 64); ByteMasks(Or(Shr(t[5], 7), Shl(t[6], 6)));
    }
    assert Pack13Bytes(t)[10] == Bits(t[6], 2, 8) by {
      BitsOfShift(t[6], 2, 8); ByteMasks(Shr(t[6], 2));
    }
    assert Pack13Bytes(t)[11] == Bits(t[6], 10, 3) + 8 * Bits(t[7], 0, 5) by {
      TopBits(t[6], 10, 3); OrJoinMasked(Shr(t[6], 10), t[7], 3, 8, 8);
      ByteMasks(Or(Shr(t[6], 10), Shl(t[7], 3)));
    }
    assert Pack13Bytes(t)[12] == Bits(t[7], 5, 8) by {
      TopBits(t[7], 5, 8); Masked(Shr(t[7], 5), 8); ByteMasks(Shr(t[7], 5));
    }
  }

  lemma Pack13Parts(t: seq<nat>)
    requires |t| == 8 && Digits(t, 0x2000)
    ensures Pack13Bytes(t)[0] == Bits(t[0], 0, 8)
    ensures Pack13Bytes(t)[1] == Bits(t[0], 8, 5) + 32 * Bits(t[1], 0, 3)
    ensures Pack13Bytes(t)[2] == Bits(t[1], 3, 8)
    ensures Pack13Bytes(t)[3] == Bits(t[1], 11, 2) + 4 * Bits(t[2], 0, 6)
    ensures Pack13Bytes(t)[4] == Bits(t[2], 6, 7) + 128 * Bits(t[3], 0, 1)
    ensures Pack13Bytes(t)[5] == Bits(t[3], 1, 8)
    ensures Pack13Bytes(t)[6] == Bits(t[3], 9, 4) + 16 * Bits(t[4], 0, 4)
    ensures Pack13Bytes(t)[7] == Bits(t[4], 4, 8)
    ensures Pack13Bytes(t)[8] == Bits(t[4], 12, 1) + 2 * Bits(t[5], 0, 7)
    ensures Pack13Bytes(t)[9] == Bits(t[5], 7, 6) + 64 * Bits(t[6], 0, 2)
    ensures Pack13Bytes(t)[10] == Bits(t[6], 2, 8)
    ensures Pack13Bytes(t)[11] == Bits(t[6], 10, 3) + 8 * Bits(t[7], 0, 5)
    ensures Pack13Bytes(t)[12] == Bits(t[7], 5, 8)
  {
    hide Pow, Shr, Shl, Or, Mask, Byte, Bits, Pack13Bytes;
    Pack13PartsA(t);
    Pack13PartsB(t);
  }

  lemma Pack13Splits(t: seq<nat>)
    requires |t| == 8 && Digits(t, 0x2000)
    ensures t[0] == Bits(t[0], 0, 8) + 0x100 * Bits(t[0], 8, 5)
    ensures t[1] == Bits(t[1], 0, 3) + 8 * Bits(t[1], 3, 8) + 0x800 * Bits(t[1], 11, 2)
    ensures t[2] == Bits(t[2], 0, 6) + 64 * Bits(t[2], 6, 7)
    ensures t[3] == Bits(t[3], 0, 1) + 2 * Bits(t[3], 1, 8) + 0x200 * Bits(t[3], 9, 4)
    ensures t[4] == Bits(t[4], 0, 4) + 16 * Bits(t[4], 4, 8) + 0x1000 * Bits(t[4], 12, 1)
    ensures t[5] == Bits(t[5], 0, 7) + 128 * Bits(t[5], 7, 6)
    ensures t[6] == Bits(t[6], 0, 2) + 4 * Bits(t[6], 2, 8) + 0x400 * Bits(t[6], 10, 3)
    ensures t[7] == Bits(t[7], 0, 5) + 32 * Bits(t[7], 5, 8)
  {
    hide Pow, Shr, Shl, Or, Mask, Byte, Bits;
    Powers();
    assert t[0] == Bits(t[0], 0, 8) + 0x100 * Bits(t[0], 8, 5) by {
      Masked(t[0], 13); BitsSplit(t[0], 0, 13, 8, 5, 0x100);
    }
    assert t[1] == Bits(t[1], 0, 3) + 8 * Bits(t[1], 3, 8) + 0x800 * Bits(t[1], 11, 2) by {
      Masked(t[1], 13); BitsSplit(t[1], 0, 13, 3, 10, 8); BitsSplit(t[1], 3, 10, 8, 2, 0x100);
    }
    assert t[2] == Bits(t[2], 0, 6) + 64 * Bits(t[2], 6, 7) by {
      Masked(t[2], 13); BitsSplit(t[2], 0, 13, 6, 7, 64);
    }
    assert t[3] == Bits(t[3], 0, 1) + 2 * Bits(t[3], 1, 8) + 0x200 * Bits(t[3], 9, 4) by {
      Masked(t[3], 13); BitsSplit(t[3], 0, 13, 1, 12, 2); BitsSplit(t[3], 1, 12, 8, 4, 0x100);
    }
    assert t[4] == Bits(t[4], 0, 4) + 16 * Bits(t[4], 4, 8) + 0x1000 * Bits(t[4], 12, 1) by {
      Masked(t[4], 13); BitsSplit(t[4], 0, 13, 4, 9, 16); BitsSplit(t[4], 4, 9, 8, 1, 0x100);
    }
    assert t[5] == Bits(t[5], 0, 7) + 128 * Bits(t[5], 7, 6) by {
      Masked(t[5], 13); BitsSplit(t[5], 0, 13, 7, 6, 128);
    }
    assert t[6] == Bits(t[6], 0, 2) + 4 * Bits(t[6], 2, 8) + 0x400 * Bits(t[6], 10, 3) by {
      Masked(t[6], 13); BitsSplit(t[6], 0, 13, 2, 11, 4); BitsSplit(t[6], 2, 11, 8, 3, 0x100);
    }
    assert t[7] == Bits(t[7], 0, 5) + 32 * Bits(t[7], 5, 8) by {
      Masked(t[7], 13); BitsSplit(t[7], 0, 13, 5, 8, 32);
    }
  }

  lemma Pack13Value(t: seq<nat>)
    requires |t| == 8 && Digits(t, 0x2000)
    ensures Value(Pack13Bytes(t), 256) == Value(t, 0x2000)
  {
    hide *;
    Pack13Splits(t);
    Pack13Parts(t);
    Value13Of256(Pack13Bytes(t));
    Value8Of8192(t);
  }

  lemma Pack13IsPacking()
    ensures PacksGroups(Pack13Bytes, 13, 8, 13)
  {
    Powers();
    hide Pow, Value, Pack13Bytes;
    forall t: seq<nat> | |t| == 8 && Digits(t, Pow(2, 13))
      ensures SameBits(Pack13Bytes(t), t, 13)
    {
      Pack13Value(t);
    }
  }

  function Unpack13Coeffs(b: seq<uint8>): (t: seq<nat>)
    requires |b| == 13
    ensures |t| == 8
  {
    [Mask(Or(b[0], Shl(b[1], 8)), 13), Mask(Or(Or(Shr(b[1], 5), Shl(b[2], 3)), Shl(b[3], 11)), 13),
     Mask(Or(Shr(b[3], 2), Shl(b[4], 6)), 13), Mask(Or(Or(Shr(b[4], 7), Shl(b[5], 1)), Shl(b[6], 9)), 13),
     Mask(Or(Or(Shr(b[6], 4), Shl(b[7], 4)), Shl(b[8], 12)), 13), Mask(Or(Shr(b[8], 1), Shl(b[9], 7)), 13),
     Mask(Or(Or(Shr(b[9], 6), Shl(b[10], 2)), Shl(b[11], 10)), 13),
     Mask(Or(Shr(b[11], 3), Shl(b[12], 5)), 13)]
  }

  lemma Unpack13PartsA(b: seq<uint8>)
    requires |b| == 13
    ensures Unpack13Coeffs(b)[0] == Bits(b[0], 0, 8) + 0x100 * Bits(b[1], 0, 5) < 0x2000
    ensures Unpack13Coeffs(b)[1] == Bits(b[1], 5, 3) + 8 * Bits(b[2], 0, 8) + 0x800 * Bits(b[3], 0, 2) < 0x2000
    ensures Unpack13Coeffs(b)[2] == Bits(b[3], 2, 6) + 64 * Bits(b[4], 0, 7) < 0x2000
    ensures Unpack13Coeffs(b)[3] == Bits(b[4], 7, 1) + 2 * Bits(b[5], 0, 8) + 0x200 * Bits(b[6], 0, 4) < 0x2000
  {
    Powers();
    hide Pow, Shr, Shl, Or, Mask, Byte, Bits;
    assert Unpack13Coeffs(b)[0] == Bits(b[0], 0, 8) + 0x100 * Bits(b[1], 0, 5) < 0x2000 by {
      Masked(b[0], 8); OrJoinMasked(b[0], b[1], 8, 13, 0x100);
    }
    assert Unpack13Coeffs(b)[1] == Bits(b[1], 5, 3) + 8 * Bits(b[2], 0, 8) + 0x800 * Bits(b[3], 0, 2) < 0x2000 by {
      TopBits(b[1], 5, 3); Masked(b[2], 8); OrJoin(Shr(b[1], 5), b[2], 3, 8, 8);
      OrJoinMasked(Or(Shr(b[1], 5), Shl(b[2], 3)), b[3], 11, 13, 0x800);
    }
    assert Unpack13Coeffs(b)[2] == Bits(b[3], 2, 6) + 64 * Bits(b[4], 0, 7) < 0x2000 by {
      TopBits(b[3], 2, 6); OrJoinMasked(Shr(b[3], 2), b[4], 6, 13, 64);
    }
    assert Unpack13Coeffs(b)[3] == Bits(b[4], 7, 1) + 2 * Bits(b[5], 0, 8) + 0x200 * Bits(b[6], 0, 4) < 0x2000 by {
      TopBits(b[4], 7, 1); Masked(b[5], 8); OrJoin(Shr(b[4], 7), b[5], 1, 8, 2);
      OrJoinMasked(Or(Shr(b[4], 7), Shl(b[5], 1)), b[6], 9, 13, 0x200);
    }
  }

  lemma Unpack13PartsB(b: seq<uint8>)
    requires |b| == 13
    ensures Unpack13Coeffs(b)[4] == Bits(b[6], 4, 4) + 16 * Bits(b[7], 0, 8) + 0x1000 * Bits(b[8], 0, 1) < 0x2000
    ensures Unpack13Coeffs(b)[5] == Bits(b[8], 1, 7) + 128 * Bits(b[9], 0, 6) < 0x2000
    ensures Unpack13Coeffs(b)[6] == Bits(b[9], 6, 2) + 4 * Bits(b[10], 0, 8) + 0x400 * Bits(b[11], 0, 3) < 0x2000
    ensures Unpack13Coeffs(b)[7] == Bits(b[11], 3, 5) + 32 * Bits(b[12], 0, 8) < 0x2000
  {
    Powers();
    hide Pow, Shr, Shl, Or, Mask, Byte, Bits;
    assert Unpack13Coeffs(b)[4] == Bits(b[6], 4, 4) + 16 * Bits(b[7], 0, 8) + 0x1000 * Bits(b[8], 0, 1) < 0x2000 by {
      TopBits(b[6], 4, 4); Masked(b[7], 8); OrJoin(Shr(b[6], 4), b[7], 4, 8, 16);
      OrJoinMasked(Or(Shr(b[6], 4), Shl(b[7], 4)), b[8], 12, 13, 0x1000);
    }
    assert Unpack13Coeffs(b)[5] == Bits(b[8], 1, 7) + 128 * Bits(b[9], 0, 6) < 0x2000 by {
      TopBits(b[8], 1, 7); OrJoinMasked(Shr(b[8], 1), b[9], 7, 13, 128);
    }
    assert Unpack13Coeffs(b)[6] == Bits(b[9], 6, 2) + 4 * Bits(b[10], 0, 8) + 0x400 * Bits(b[11], 0, 3) < 0x2000 by {
      TopBits(b[9], 6, 2); Masked(b[10], 8); OrJoin(Shr(b[9], 6), b[10], 2, 8, 4);
      OrJoinMasked(Or(Shr(b[9], 6), Shl(b[10], 2)), b[11], 10, 13, 0x400);
    }
    assert Unpack13Coeffs(b)[7] == Bits(b[11], 3, 5) + 32 * Bits(b[12], 0, 8) < 0x2000 by {
      TopBits(b[11], 3, 5); OrJoinMasked(Shr(b[11], 3), b[12], 5, 13, 32);
    }
  }

  lemma Unpack13Parts(b: seq<uint8>)
    requires |b| == 13
    ensures Digits(Unpack13Coeffs(b), 0x2000)
    ensures Unpack13Coeffs(b)[0] == Bits(b[0], 0, 8) + 0x100 * Bits(b[1], 0, 5)
    ensures Unpack13Coeffs(b)[1] == Bits(b[1], 5, 3) + 8 * Bits(b[2], 0, 8) + 0x800 * Bits(b[3], 0, 2)
    ensures Unpack13Coeffs(b)[2] == Bits(b[3], 2, 6) + 64 * Bits(b[4], 0, 7)
    ensures Unpack13Coeffs(b)[3] == Bits(b[4], 7, 1) + 2 * Bits(b[5], 0, 8) + 0x200 * Bits(b[6], 0, 4)
    ensures Unpack13Coeffs(b)[4] == Bits(b[6], 4, 4) + 16 * Bits(b[7], 0, 8) + 0x1000 * Bits(b[8], 0, 1)
    ensures Unpack13Coeffs(b)[5] == Bits(b[8], 1, 7) + 128 * Bits(b[9], 0, 6)
    ensures Unpack13Coeffs(b)[6] == Bits(b[9], 6, 2) + 4 * Bits(b[10], 0, 8) + 0x400 * Bits(b[11], 0, 3)
    ensures Unpack13Coeffs(b)[7] == Bits(b[11], 3, 5) + 32 * Bits(b[12], 0, 8)
  {
    hide Pow, Shr, Shl, Or, Mask, Byte, Bits, Unpack13Coeffs;
    Unpack13PartsA(b);
    Unpack13PartsB(b);
  }

  lemma Unpack13Splits(b: seq<uint8>)
    requires |b| == 13
    ensures b[0] == Bits(b[0], 0, 8)
    ensures b[1] == Bits(b[1], 0, 5) + 32 * Bits(b[1], 5, 3)
    ensures b[2] == Bits(b[2], 0, 8)
    ensures b[3] == Bits(b[3], 0, 2) + 4 * Bits(b[3], 2, 6)
    ensures b[4] == Bits(b[4], 0, 7) + 128 * Bits(b[4], 7, 1)
    ensures b[5] == Bits(b[5], 0, 8)
    ensures b[6] == Bits(b[6], 0, 4) + 16 * Bits(b[6], 4, 4)
    ensures b[7] == Bits(b[7], 0, 8)
    ensures b[8] == Bits(b[8], 0, 1) + 2 * Bits(b[8], 1, 7)
    ensures b[9] == Bits(b[9], 0, 6) + 64 * Bits(b[9], 6, 2)
    ensures b[10] == Bits(b[10], 0, 8)
    ensures b[11] == Bits(b[11], 0, 3) + 8 * Bits(b[11], 3, 5)
    ensures b[12] == Bits(b[12], 0, 8)
  {
    hide Pow, Shr, Shl, Or, Mask, Byte, Bits;
    Powers();
    assert b[0] == Bits(b[0], 0, 8) by {
      Masked(b[0], 8);
    }
    assert b[1] == Bits(b[1], 0, 5) + 32 * Bits(b[1], 5, 3) by {
      Masked(b[1], 8); BitsSplit(b[1], 0, 8, 5, 3, 32);
    }
    assert b[2] == Bits(b[2], 0, 8) by {
      Masked(b[2], 8);
    }
    assert b[3] == Bits(b[3], 0, 2) + 4 * Bits(b[3], 2, 6) by {
      Masked(b[3], 8); BitsSplit(b[3], 0, 8, 2, 6, 4);
    }
    assert b[4] == Bits(b[4], 0, 7) + 128 * Bits(b[4], 7, 1) by {
      Masked(b[4], 8); BitsSplit(b[4], 0, 8, 7, 1, 128);
    }
    assert b[5] == Bits(b[5], 0, 8) by {
      Masked(b[5], 8);
    }
    assert b[6] == Bits(b[6], 0, 4) + 16 * Bits(b[6], 4, 4) by {
      Masked(b[6], 8); BitsSplit(b[6], 0, 8, 4, 4, 16);
    }
    assert b[7] == Bits(b[7], 0, 8) by {
      Masked(b[7], 8);
    }
    assert b[8] == Bits(b[8], 0, 1) + 2 * Bits(b[8], 1, 7) by {
      Masked(b[8], 8); BitsSplit(b[8], 0, 8, 1, 7, 2);
    }
    assert b[9] == Bits(b[9], 0, 6) + 64 * Bits(b[9], 6, 2) by {
      Masked(b[9], 8); BitsSplit(b[9], 0, 8, 6, 2, 64);
    }
    assert b[10] == Bits(b[10], 0, 8) by {
      Masked(b[10], 8);
    }
    assert b[11] == Bits(b[11], 0, 3) + 8 * Bits(b[11], 3, 5) by {
      Masked(b[11], 8); BitsSplit(b[11], 0, 8, 3, 5, 8);
    }
    assert b[12] == Bits(b[12], 0, 8) by {
      Masked(b[12], 8);
    }
  }

  lemma Unpack13Value(b: seq<uint8>)
    requires |b| == 13
    ensures Value(b, 256) == Value(Unpack13Coeffs(b), 0x2000)
  {
    hide *;
    Unpack13Splits(b);
    Unpack13Parts(b);
    Value13Of256(b);
    Value8Of8192(Unpack13Coeffs(b));
  }

  lemma Unpack13IsReading()
    ensures ReadsGroups(Unpack13Coeffs, 13, 8, 13)
  {
    Powers();
    hide Pow, Value, Unpack13Coeffs;
    forall b: seq<uint8> | |b| == 13
      ensures SameBits(b, Unpack13Coeffs(b), 13)
    {
      Unpack13Parts(b);
      Unpack13Value(b);
      BytesAreDigits(b);
    }
  }

  // ---------- 18 bits: z for gamma1 = 2^17 ----------

  function Pack18Bytes(t: seq<nat>): (b: seq<uint8>)
    requires |t| == 4
    ensures |b| == 9
  {
    [Byte(t[0]), Byte(Shr(t[0], 8)), Byte(Or(Shr(t[0], 16), Shl(t[1], 2))), Byte(Shr(t[1], 6)),
     Byte(Or(Shr(t[1], 14), Shl(t[2], 4))), Byte(Shr(t[2], 4)), Byte(Or(Shr(t[2], 12), Shl(t[3], 6))),
     Byte(Shr(t[3], 2)), Byte(Shr(t[3], 10))]
  }

  lemma Pack18PartsA(t: seq<nat>)
    requires |t| == 4 && Digits(t, 0x4_0000)
    ensures Pack18Bytes(t)[0] == Bits(t[0], 0, 8)
    ensures Pack18Bytes(t)[1] == Bits(t[0], 8, 8)
    ensures Pack18Bytes(t)[2] == Bits(t[0], 16, 2) + 4 * Bits(t[1], 0, 6)
    ensures Pack18Bytes(t)[3] == Bits(t[1], 6, 8)
    ensures Pack18Bytes(t)[4] == Bits(t[1], 14, 4) + 16 * Bits(t[2], 0, 4)
  {
    Powers();
    hide Pow, Shr, Shl, Or, Mask, Byte, Bits;
    assert Pack18Bytes(t)[0] == Bits(t[0], 0, 8) by {
      LowBits(t[0], 8); ByteMasks(t[0]);
    }
    assert Pack18Bytes(t)[1] == Bits(t[0], 8, 8) by {
      BitsOfShift(t[0], 8, 8); ByteMasks(Shr(t[0], 8));
    }
    assert Pack18Bytes(t)[2] == Bits(t[0], 16, 2) + 4 * Bits(t[1], 0, 6) by {
      TopBits(t[0], 16, 2); OrJoinMasked(Shr(t[0], 16), t[1], 2, 8, 4);
      ByteMasks(Or(Shr(t[0], 16), Shl(t[1], 2)));
    }
    assert Pack18Bytes(t)[3] == Bits(t[1], 6, 8) by {
      BitsOfShift(t[1], 6, 8); ByteMasks(Shr(t[1], 6));
    }
    assert Pack18Bytes(t)[4] == Bits(t[1], 14, 4) + 16 * Bits(t[2], 0, 4) by {
      TopBits(t[1], 14, 4); OrJoinMasked(Shr(t[1], 14), t[2], 4, 8, 16);
      ByteMasks(Or(Shr(t[1], 14), Shl(t[2], 4)));
    }
  }

  lemma Pack18PartsB(t: seq<nat>)
    requires |t| == 4 && Digits(t, 0x4_0000)
    ensures Pack18Bytes(t)[5] == Bits(t[2], 4, 8)
    ensures Pack18Bytes(t)[6] == Bits(t[2], 12, 6) + 64 * Bits(t[3], 0, 2)
    ensures Pack18Bytes(t)[7] == Bits(t[3], 2, 8)
    ensures Pack18Bytes(t)[8] == Bits(t[3], 10, 8)
  {
    Powers();
    hide Pow, Shr, Shl, Or, Mask, Byte, Bits;
    assert Pack18Bytes(t)[5] == Bits(t[2], 4, 8) by {
      BitsOfShift(t[2], 4, 8); ByteMasks(Shr(t[2], 4));
    }
    assert Pack18Bytes(t)[6] == Bits(t[2], 12, 6) + 64 * Bits(t[3], 0, 2) by {
      TopBits(t[2], 12, 6); OrJoinMasked(Shr(t[2], 12), t[3], 6, 8, 64);
      ByteMasks(Or(Shr(t[2], 12), Shl(t[3], 6)));
    }
    assert Pack18Bytes(t)[7] == Bits(t[3], 2, 8) by {
      BitsOfShift(t[3], 2, 8); ByteMasks(Shr(t[3], 2));
    }
    assert Pack18Bytes(t)[8] == Bits(t[3], 10, 8) by {
      TopBits(t[3], 10, 8); Masked(Shr(t[3], 10), 8); ByteMasks(Shr(t[3], 10));
    }
  }

  lemma Pack18Parts(t: seq<nat>)
    requires |t| == 4 && Digits(t, 0x4_0000)
    ensures Pack18Bytes(t)[0] == Bits(t[0], 0, 8)
    ensures Pack18Bytes(t)[1] == Bits(t[0], 8, 8)
    ensures Pack18Bytes(t)[2] == Bits(t[0], 16, 2) + 4 * Bits(t[1], 0, 6)
    ensures Pack18Bytes(t)[3] == Bits(t[1], 6, 8)
    ensures Pack18Bytes(t)[4] == Bits(t[1], 14, 4) + 16 * Bits(t[2], 0, 4)
    ensures Pack18Bytes(t)[5] == Bits(t[2], 4, 8)
    ensures Pack18Bytes(t)[6] == Bits(t[2], 12, 6) + 64 * Bits(t[3], 0, 2)
    ensures Pack18Bytes(t)[7] == Bits(t[3], 2, 8)
    ensures Pack18Bytes(t)[8] == Bits(t[3], 10, 8)
  {
    hide Pow, Shr, Shl, Or, Mask, Byte, Bits, Pack18Bytes;
    Pack18PartsA(t);
    Pack18PartsB(t);
  }

  lemma Pack18Splits(t: seq<nat>)
    requires |t| == 4 && Digits(t, 0x4_0000)
    ensures t[0] == Bits(t[0], 0, 8) + 0x100 * Bits(t[0], 8, 8) + 0x1_0000 * Bits(t[0], 16, 2)
    ensures t[1] == Bits(t[1], 0, 6) + 64 * Bits(t[1], 6, 8) + 0x4000 * Bits(t[1], 14, 4)
    ensures t[2] == Bits(t[2], 0, 4) + 16 * Bits(t[2], 4, 8) + 0x1000 * Bits(t[2], 12, 6)
    ensures t[3] == Bits(t[3], 0, 2) + 4 * Bits(t[3], 2, 8) + 0x400 * Bits(t[3], 10, 8)
  {
    hide Pow, Shr, Shl, Or, Mask, Byte, Bits;
    Powers();
    assert t[0] == Bits(t[0], 0, 8) + 0x100 * Bits(t[0], 8, 8) + 0x1_0000 * Bits(t[0], 16, 2) by {
      Masked(t[0], 18); BitsSplit(t[0], 0, 18, 8, 10, 0x100); BitsSplit(t[0], 8, 10, 8, 2, 0x100);
    }
    assert t[1] == Bits(t[1], 0, 6) + 64 * Bits(t[1], 6, 8) + 0x4000 * Bits(t[1], 14, 4) by {
      Masked(t[1], 18); BitsSplit(t[1], 0, 18, 6, 12, 64); BitsSplit(t[1], 6, 12, 8, 4, 0x100);
    }
    assert t[2] == Bits(t[2], 0, 4) + 16 * Bits(t[2], 4, 8) + 0x1000 * Bits(t[2], 12, 6) by {
      Masked(t[2], 18); BitsSplit(t[2], 0, 18, 4, 14, 16); BitsSplit(t[2], 4, 14, 8, 6, 0x100);
    }
    assert t[3] == Bits(t[3], 0, 2) + 4 * Bits(t[3], 2, 8) + 0x400 * Bits(t[3], 10, 8) by {
      Masked(t[3], 18); BitsSplit(t[3], 0, 18, 2, 16, 4); BitsSplit(t[3], 2, 16, 8, 8, 0x100);
    }
  }

  lemma Pack18Value(t: seq<nat>)
    requires |t| == 4 && Digits(t, 0x4_0000)
    ensures Value(Pack18Bytes(t), 256) == Value(t, 0x4_0000)
  {
    hide *;
    Pack18Splits(t);
    Pack18Parts(t);
    Value9Of256(Pack18Bytes(t));
    Value4Of262144(t);
  }

  lemma Pack18IsPacking()
    ensures PacksGroups(Pack18Bytes, 18, 4, 9)
  {
    Powers();
    hide Pow, Value, Pack18Bytes;
    forall t: seq<nat> | |t| == 4 && Digits(t, Pow(2, 18))
      ensures SameBits(Pack18Bytes(t), t, 18)
    {
      Pack18Value(t);
    }
  }

  function Unpack18Coeffs(b: seq<uint8>): (t: seq<nat>)
    requires |b| == 9
    ensures |t| == 4
  {
    [Mask(Or(Or(b[0], Shl(b[1], 8)), Shl(b[2], 16)), 18),
     Mask(Or(Or(Shr(b[2], 2), Shl(b[3], 6)), Shl(b[4], 14)), 18),
     Mask(Or(Or(Shr(b[4], 4), Shl(b[5], 4)), Shl(b[6], 12)), 18),
     Mask(Or(Or(Shr(b[6], 6), Shl(b[7], 2)), Shl(b[8], 10)), 18)]
  }

  lemma Unpack18Parts(b: seq<uint8>)
    requires |b| == 9
    ensures Digits(Unpack18Coeffs(b), 0x4_0000)
    ensures Unpack18Coeffs(b)[0] == Bits(b[0], 0, 8) + 0x100 * Bits(b[1], 0, 8) + 0x1_0000 * Bits(b[2], 0, 2)
    ensures Unpack18Coeffs(b)[1] == Bits(b[2], 2, 6) + 64 * Bits(b[3], 0, 8) + 0x4000 * Bits(b[4], 0, 4)
    ensures Unpack18Coeffs(b)[2] == Bits(b[4], 4, 4) + 16 * Bits(b[5], 0, 8) + 0x1000 * Bits(b[6], 0, 6)
    ensures Unpack18Coeffs(b)[3] == Bits(b[6], 6, 2) + 4 * Bits(b[7], 0, 8) + 0x400 * Bits(b[8], 0, 8)
  {
    Powers();
    hide Pow, Shr, Shl, Or, Mask, Byte, Bits;
    assert Unpack18Coeffs(b)[0] == Bits(b[0], 0, 8) + 0x100 * Bits(b[1], 0, 8) + 0x1_0000 * Bits(b[2], 0, 2) < 0x4_0000 by {
      Masked(b[0], 8); Masked(b[1], 8); OrJoin(b[0], b[1], 8, 8, 0x100);
      OrJoinMasked(Or(b[0], Shl(b[1], 8)), b[2], 16, 18, 0x1_0000);
    }
    assert Unpack18Coeffs(b)[1] == Bits(b[2], 2, 6) + 64 * Bits(b[3], 0, 8) + 0x4000 * Bits(b[4], 0, 4) < 0x4_0000 by {
      TopBits(b[2], 2, 6); Masked(b[3], 8); OrJoin(Shr(b[2], 2), b[3], 6, 8, 64);
      OrJoinMasked(Or(Shr(b[2], 2), Shl(b[3], 6)), b[4], 14, 18, 0x4000);
    }
    assert Unpack18Coeffs(b)[2] == Bits(b[4], 4, 4) + 16 * Bits(b[5], 0, 8) + 0x1000 * Bits(b[6], 0, 6) < 0x4_0000 by {
      TopBits(b[4], 4, 4); Masked(b[5], 8); OrJoin(Shr(b[4], 4), b[5], 4, 8, 16);
      OrJoinMasked(Or(Shr(b[4], 4), Shl(b[5], 4)), b[6], 12, 18, 0x1000);
    }
    assert Unpack18Coeffs(b)[3] == Bits(b[6], 6, 2) + 4 * Bits(b[7], 0, 8) + 0x400 * Bits(b[8], 0, 8) < 0x4_0000 by {
      TopBits(b[6], 6, 2); Masked(b[7], 8); OrJoin(Shr(b[6], 6), b[7], 2, 8, 4);
      OrJoinMasked(Or(Shr(b[6], 6), Shl(b[7], 2)), b[8], 10, 18, 0x400);
    }
  }

  lemma Unpack18Splits(b: seq<uint8>)
    requires |b| == 9
    ensures b[0] == Bits(b[0], 0, 8)
    ensures b[1] == Bits(b[1], 0, 8)
    ensures b[2] == Bits(b[2], 0, 2) + 4 * Bits(b[2], 2, 6)
    ensures b[3] == Bits(b[3], 0, 8)
    ensures b[4] == Bits(b[4], 0, 4) + 16 * Bits(b[4], 4, 4)
    ensures b[5] == Bits(b[5], 0, 8)
    ensures b[6] == Bits(b[6], 0, 6) + 64 * Bits(b[6], 6, 2)
    ensures b[7] == Bits(b[7], 0, 8)
    ensures b[8] == Bits(b[8], 0, 8)
  {
    hide Pow, Shr, Shl, Or, Mask, Byte, Bits;
    Powers();
    assert b[0] == Bits(b[0], 0, 8) by {
      Masked(b[0], 8);
    }
    assert b[1] == Bits(b[1], 0, 8) by {
      Masked(b[1], 8);
    }
    assert b[2] == Bits(b[2], 0, 2) + 4 * Bits(b[2], 2, 6) by {
      Masked(b[2], 8); BitsSplit(b[2], 0, 8, 2, 6, 4);
    }
    assert b[3] == Bits(b[3], 0, 8) by {
      Masked(b[3], 8);
    }
    assert b[4] == Bits(b[4], 0, 4) + 16 * Bits(b[4], 4, 4) by {
      Masked(b[4], 8); BitsSplit(b[4], 0, 8, 4, 4, 16);
    }
    assert b[5] == Bits(b[5], 0, 8) by {
      Masked(b[5], 8);
    }
    assert b[6] == Bits(b[6], 0, 6) + 64 * Bits(b[6], 6, 2) by {
      Masked(b[6], 8); BitsSplit(b[6], 0, 8, 6, 2, 64);
    }
    assert b[7] == Bits(b[7], 0, 8) by {
      Masked(b[7], 8);
    }
    assert b[8] == Bits(b[8], 0, 8) by {
      Masked(b[8], 8);
    }
  }

  lemma Unpack18Value(b: seq<uint8>)
    requires |b| == 9
    ensures Value(b, 256) == Value(Unpack18Coeffs(b), 0x4_0000)
  {
    hide *;
    Unpack18Splits(b);
    Unpack18Parts(b);
    Value9Of256(b);
    Value4Of262144(Unpack18Coeffs(b));
  }

  lemma Unpack18IsReading()
    ensures ReadsGroups(Unpack18Coeffs, 18, 4, 9)
  {
    Powers();
    hide Pow, Value, Unpack18Coeffs;
    forall b: seq<uint8> | |b| == 9
      ensures SameBits(b, Unpack18Coeffs(b), 18)
    {
      Unpack18Parts(b);
      Unpack18Value(b);
      BytesAreDigits(b);
    }
  }

  // ---------- 20 bits: z for gamma1 = 2^19 ----------

  function Pack20Bytes(t: seq<nat>): (b: seq<uint8>)
    requires |t| == 2
    ensures |b| == 5
  {
    [Byte(t[0]), Byte(Shr(t[0], 8)), Byte(Or(Shr(t[0], 16), Shl(t[1], 4))), Byte(Shr(t[1], 4)),
     Byte(Shr(t[1], 12))]
  }

  lemma Pack20Parts(t: seq<nat>)
    requires |t| == 2 && Digits(t, 0x10_0000)
    ensures Pack20Bytes(t)[0] == Bits(t[0], 0, 8)
    ensures Pack20Bytes(t)[1] == Bits(t[0], 8, 8)
    ensures Pack20Bytes(t)[2] == Bits(t[0], 16, 4) + 16 * Bits(t[1], 0, 4)
    ensures Pack20Bytes(t)[3] == Bits(t[1], 4, 8)
    ensures Pack20Bytes(t)[4] == Bits(t[1], 12, 8)
  {
    Powers();
    hide Pow, Shr, Shl, Or, Mask, Byte, Bits;
    assert Pack20Bytes(t)[0] == Bits(t[0], 0, 8) by {
      LowBits(t[0], 8); ByteMasks(t[0]);
    }
    assert Pack20Bytes(t)[1] == Bits(t[0], 8, 8) by {
      BitsOfShift(t[0], 8, 8); ByteMasks(Shr(t[0], 8));
    }
    assert Pack20Bytes(t)[2] == Bits(t[0], 16, 4) + 16 * Bits(t[1], 0, 4) by {
      TopBits(t[0], 16, 4); OrJoinMasked(Shr(t[0], 16), t[1], 4, 8, 16);
      ByteMasks(Or(Shr(t[0], 16), Shl(t[1], 4)));
    }
    assert Pack20Bytes(t)[3] == Bits(t[1], 4, 8) by {
      BitsOfShift(t[1], 4, 8); ByteMasks(Shr(t[1], 4));
    }
    assert Pack20Bytes(t)[4] == Bits(t[1], 12, 8) by {
      TopBits(t[1], 12, 8); Masked(Shr(t[1], 12), 8); ByteMasks(Shr(t[1], 12));
    }
  }

  lemma Pack20Splits(t: seq<nat>)
    requires |t| == 2 && Digits(t, 0x10_0000)
    ensures t[0] == Bits(t[0], 0, 8) + 0x100 * Bits(t[0], 8, 8) + 0x1_0000 * Bits(t[0], 16, 4)
    ensures t[1] == Bits(t[1], 0, 4) + 16 * Bits(t[1], 4, 8) + 0x1000 * Bits(t[1], 12, 8)
  {
    hide Pow, Shr, Shl, Or, Mask, Byte, Bits;
    Powers();
    assert t[0] == Bits(t[0], 0, 8) + 0x100 * Bits(t[0], 8, 8) + 0x1_0000 * Bits(t[0], 16, 4) by {
      Masked(t[0], 20); BitsSplit(t[0], 0, 20, 8, 12, 0x100); BitsSplit(t[0], 8, 12, 8, 4, 0x100);
    }
    assert t[1] == Bits(t[1], 0, 4) + 16 * Bits(t[1], 4, 8) + 0x1000 * Bits(t[1], 12, 8) by {
      Masked(t[1], 20); BitsSplit(t[1], 0, 20, 4, 16, 16); BitsSplit(t[1], 4, 16, 8, 8, 0x100);
    }
  }

  lemma Pack20Value(t: seq<nat>)
    requires |t| == 2 && Digits(t, 0x10_0000)
    ensures Value(Pack20Bytes(t), 256) == Value(t, 0x10_0000)
  {
    hide *;
    Pack20Splits(t);
    Pack20Parts(t);
    Value5Of256(Pack20Bytes(t));
    Value2Of1048576(t);
  }

  lemma Pack20IsPacking()
    ensures PacksGroups(Pack20Bytes, 20, 2, 5)
  {
    Powers();
    hide Pow, Value, Pack20Bytes;
    forall t: seq<nat> | |t| == 2 && Digits(t, Pow(2, 20))
      ensures SameBits(Pack20Bytes(t), t, 20)
    {
      Pack20Value(t);
    }
  }

  function Unpack20Coeffs(b: seq<uint8>): (t: seq<nat>)
    requires |b| == 5
    ensures |t| == 2
  {
    [Mask(Or(Or(b[0], Shl(b[1], 8)), Shl(b[2], 16)), 20),
     Mask(Or(Or(Shr(b[2], 4), Shl(b[3], 4)), Shl(b[4], 12)), 20)]
  }

  lemma Unpack20Parts(b: seq<uint8>)
    requires |b| == 5
    ensures Digits(Unpack20Coeffs(b), 0x10_0000)
    ensures Unpack20Coeffs(b)[0] == Bits(b[0], 0, 8) + 0x100 * Bits(b[1], 0, 8) + 0x1_0000 * Bits(b[2], 0, 4)
    ensures Unpack20Coeffs(b)[1] == Bits(b[2], 4, 4) + 16 * Bits(b[3], 0, 8) + 0x1000 * Bits(b[4], 0, 8)
  {
    Powers();
    hide Pow, Shr, Shl, Or, Mask, Byte, Bits;
    assert Unpack20Coeffs(b)[0] == Bits(b[0], 0, 8) + 0x100 * Bits(b[1], 0, 8) + 0x1_0000 * Bits(b[2], 0, 4) < 0x10_0000 by {
      Masked(b[0], 8); Masked(b[1], 8); OrJoin(b[0], b[1], 8, 8, 0x100);
      OrJoinMasked(Or(b[0], Shl(b[1], 8)), b[2], 16, 20, 0x1_0000);
    }
    assert Unpack20Coeffs(b)[1] == Bits(b[2], 4, 4) + 16 * Bits(b[3], 0, 8) + 0x1000 * Bits(b[4], 0, 8) < 0x10_0000 by {
      TopBits(b[2], 4, 4); Masked(b[3], 8); OrJoin(Shr(b[2], 4), b[3], 4, 8, 16);
      OrJoinMasked(Or(Shr(b[2], 4), Shl(b[3], 4)), b[4], 12, 20, 0x1000);
    }
  }

  lemma Unpack20Splits(b: seq<uint8>)
    requires |b| == 5
    ensures b[0] == Bits(b[0], 0, 8)
    ensures b[1] == Bits(b[1], 0, 8)
    ensures b[2] == Bits(b[2], 0, 4) + 16 * Bits(b[2], 4, 4)
    ensures b[3] == Bits(b[3], 0, 8)
    ensures b[4] == Bits(b[4], 0, 8)
  {
    hide Pow, Shr, Shl, Or, Mask, Byte, Bits;
    Powers();
    assert b[0] == Bits(b[0], 0, 8) by {
      Masked(b[0], 8);
    }
    assert b[1] == Bits(b[1], 0, 8) by {
      Masked(b[1], 8);
    }
    assert b[2] == Bits(b[2], 0, 4) + 16 * Bits(b[2], 4, 4) by {
      Masked(b[2], 8); BitsSplit(b[2], 0, 8, 4, 4, 16);
    }
    assert b[3] == Bits(b[3], 0, 8) by {
      Masked(b[3], 8);
    }
    assert b[4] == Bits(b[4], 0, 8) by {
      Masked(b[4], 8);
    }
  }

  lemma Unpack20Value(b: seq<uint8>)
    requires |b| == 5
    ensures Value(b, 256) == Value(Unpack20Coeffs(b), 0x10_0000)
  {
    hide *;
    Unpack20Splits(b);
    Unpack20Parts(b);
    Value5Of256(b);
    Value2Of1048576(Unpack20Coeffs(b));
  }

  lemma Unpack20IsReading()
    ensures ReadsGroups(Unpack20Coeffs, 20, 2, 5)
  {
    Powers();
    hide Pow, Value, Unpack20Coeffs;
    forall b: seq<uint8> | |b| == 5
      ensures SameBits(b, Unpack20Coeffs(b), 20)
    {
      Unpack20Parts(b);
      Unpack20Value(b);
      BytesAreDigits(b);
    }
  }
}
