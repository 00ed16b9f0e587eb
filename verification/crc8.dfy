/**
 * The sensor's CRC-8 accumulator: a running byte updated through a constant
 * 256-entry substitution table, plus the bit-order reversal applied before the
 * accumulated value is compared with the checksum byte the sensor sends.
 */
module Crc8 {

  /**
   * The 256-entry substitution table, eight consecutive entries to a row as
   * in the listing it models. Each row packs its eight entries into one word,
   * the first entry in the most significant byte, so the hexadecimal digits
   * read in table order. Packed this way the entries cannot be compared
   * with the listing's decimal values by eye; the contract of `Entry`
   * instead proves every one of them equal to the remainder `Divide` computes.
   */
  const Table: seq<bv64> :=
    [ 0x00_31_62_53_C4_F5_A6_97
    , 0xB9_88_DB_EA_7D_4C_1F_2E
    , 0x43_72_21_10_87_B6_E5_D4
    , 0xFA_CB_98_A9_3E_0F_5C_6D
    , 0x86_B7_E4_D5_42_73_20_11
    , 0x3F_0E_5D_6C_FB_CA_99_A8
    , 0xC5_F4_A7_96_01_30_63_52
    , 0x7C_4D_1E_2F_B8_89_DA_EB
    , 0x3D_0C_5F_6E_F9_C8_9B_AA
    , 0x84_B5_E6_D7_40_71_22_13
    , 0x7E_4F_1C_2D_BA_8B_D8_E9
    , 0xC7_F6_A5_94_03_32_61_50
    , 0xBB_8A_D9_E8_7F_4E_1D_2C
    , 0x02_33_60_51_C6_F7_A4_95
    , 0xF8_C9_9A_AB_3C_0D_5E_6F
    , 0x41_70_23_12_85_B4_E7_D6
    , 0x7A_4B_18_29_BE_8F_DC_ED
    , 0xC3_F2_A1_90_07_36_65_54
    , 0x39_08_5B_6A_FD_CC_9F_AE
    , 0x80_B1_E2_D3_44_75_26_17
    , 0xFC_CD_9E_AF_38_09_5A_6B
    , 0x45_74_27_16_81_B0_E3_D2
    , 0xBF_8E_DD_EC_7B_4A_19_28
    , 0x06_37_64_55_C2_F3_A0_91
    , 0x47_76_25_14_83_B2_E1_D0
    , 0xFE_CF_9C_AD_3A_0B_58_69
    , 0x04_35_66_57_C0_F1_A2_93
    , 0xBD_8C_DF_EE_79_48_1B_2A
    , 0xC1_F0_A3_92_05_34_67_56
    , 0x78_49_1A_2B_BC_8D_DE_EF
    , 0x82_B3_E0_D1_46_77_24_15
    , 0x3B_0A_59_68_FF_CE_9D_AC
    ]

  /**
   * The table entry at index `i`: row `i / 8`, byte `i % 8` counted from the
   * most significant. Every entry is the remainder of dividing its index
   * followed by eight zero bits (the index times x^8) by the generator
   * polynomial, which ties all 256 packed entries to `Divide`.
   */
  function Entry(i: bv8): (r: bv8)
    ensures r == Divide(i)
  {
    var shift := (7 - (i & 7) as bv64) << 3;
    ((Table[(i >> 3) as int] >> shift) & 0xFF) as bv8
  }

  /** The generator polynomial x^8 + x^5 + x^4 + 1 without its leading term. */
  const Polynomial: bv8 := 0x31

  /** Bit `i` of `b`, where bit 0 is the least significant. */
  predicate Bit(b: bv8, i: nat)
    requires i < 8
  {
    (b >> i) & 1 == 1
  }

  /** One step of polynomial division, most significant bit first. */
  function DivideStep(c: bv8): bv8 {
    if c & 0x80 != 0 then (c << 1) ^ Polynomial else c << 1
  }

  /**
   * Eight division steps: the remainder of `c` times x^8 (`c` followed by
   * eight zero bits) modulo the polynomial, which a table built from
   * `Polynomial` holds at `c`.
   */
  function Divide(c: bv8): bv8 {
    DivideStep(DivideStep(DivideStep(DivideStep(DivideStep(DivideStep(DivideStep(DivideStep(c))))))))
  }

  /** The accumulator; `Crc(0)` is a freshly constructed one. */
  datatype Crc = Crc(state: bv8) {

    /**
     * Injects one byte: the state becomes the table entry at `state ^ byte`,
     * which is the remainder of dividing `state ^ byte` followed by eight
     * zero bits by the polynomial.
     */
    function Add(byte: bv8): (r: Crc)
      ensures r.Value() == Divide(state ^ byte)
    {
      Crc(Entry(state ^ byte))
    }

    function Value(): bv8 {
      state
    }

    /** The state with its bit order reversed. */
    function Reversed(): bv8 {
      Reverse(state)
    }
  }

  /** The accumulator a default-constructed `Crc` starts with. */
  function Fresh(): (c: Crc)
    ensures c.Value() == 0
  {
    Crc(0)
  }

  /** Injects `bytes` one after the other, first byte first. */
  function AddAll(c: Crc, bytes: seq<bv8>): Crc
    decreases |bytes|
  {
    if |bytes| == 0 then c else AddAll(c.Add(bytes[0]), bytes[1..])
  }

  /** The value a fresh accumulator holds after injecting `bytes`. */
  function Checksum(bytes: seq<bv8>): bv8 {
    AddAll(Fresh(), bytes).Value()
  }

  /**
   * The CRC computed without the table: each byte is xored into the
   * remainder, which is then shifted through eight steps of division by the
   * polynomial, one bit at a time.
   */
  function Bitwise(c: bv8, bytes: seq<bv8>): bv8
    decreases |bytes|
  {
    if |bytes| == 0 then c else Bitwise(Divide(c ^ bytes[0]), bytes[1..])
  }

  /** The table-driven accumulator computes the bitwise CRC from its state. */
  lemma {:induction false} AddAllIsBitwise(c: Crc, bytes: seq<bv8>)
    ensures AddAll(c, bytes).Value() == Bitwise(c.Value(), bytes)
    decreases |bytes|
  {
    if |bytes| > 0 {
      AddAllIsBitwise(c.Add(bytes[0]), bytes[1..]);
    }
  }

  /** A fresh accumulator's value after `bytes` is the bitwise CRC from remainder 0. */
  lemma {:induction false} ChecksumIsBitwise(bytes: seq<bv8>)
    ensures Checksum(bytes) == Bitwise(0, bytes)
  {
    AddAllIsBitwise(Fresh(), bytes);
  }

  /** Bit reversal by swapping nibbles, then bit pairs, then adjacent bits. */
  function Reverse(b: bv8): (r: bv8)
    ensures forall i :: 0 <= i < 8 ==> (Bit(r, i) <==> Bit(b, 7 - i))
  {
    var b1 := ((b & 0xF0) >> 4) | ((b & 0x0F) << 4);
    var b2 := ((b1 & 0xCC) >> 2) | ((b1 & 0x33) << 2);
    ((b2 & 0xAA) >> 1) | ((b2 & 0x55) << 1)
  }

  /** Two bytes are equal when all eight of their bits are. */
  lemma {:induction false} BitsDetermineByte(a: bv8, b: bv8)
    requires forall i :: 0 <= i < 8 ==> (Bit(a, i) <==> Bit(b, i))
    ensures a == b
  {
    assert Bit(a, 0) == Bit(b, 0);
    assert Bit(a, 1) == Bit(b, 1);
    assert Bit(a, 2) == Bit(b, 2);
    assert Bit(a, 3) == Bit(b, 3);
    assert Bit(a, 4) == Bit(b, 4);
    assert Bit(a, 5) == Bit(b, 5);
    assert Bit(a, 6) == Bit(b, 6);
    assert Bit(a, 7) == Bit(b, 7);
  }

  /** Reversing twice gives the byte back. */
  lemma {:induction false} ReverseInvolution(b: bv8)
    ensures Reverse(Reverse(b)) == b
  {
    var r := Reverse(Reverse(b));
    forall i | 0 <= i < 8
      ensures Bit(r, i) <==> Bit(b, i)
    {
      assert Bit(r, i) <==> Bit(Reverse(b), 7 - i);
    }
    BitsDetermineByte(r, b);
  }

  /** Reversal is one-to-one, so comparing reversed values is comparing values. */
  lemma {:induction false} ReverseInjective(a: bv8, b: bv8)
    ensures Reverse(a) == Reverse(b) <==> a == b
  {
    ReverseInvolution(a);
    ReverseInvolution(b);
  }

  /** Accumulation is a left fold: injecting `s + t` is injecting `s`, then `t`. */
  lemma {:induction false} AddAllAppend(c: Crc, s: seq<bv8>, t: seq<bv8>)
    ensures AddAll(c, s + t) == AddAll(AddAll(c, s), t)
    decreases |s|
  {
    if |s| == 0 {
      assert s + t == t;
    } else {
      assert (s + t)[1..] == s[1..] + t;
      AddAllAppend(c.Add(s[0]), s[1..], t);
    }
  }

  /** Injection order matters: [0, 1] and [1, 0] leave different values. */
  lemma {:induction false} OrderMatters()
    ensures Checksum([0, 1]) != Checksum([1, 0])
  {
    assert Entry(0) == 0 && Entry(1) == 49 && Entry(49) == 244;
    assert Checksum([0, 1]) == 49;
    assert Checksum([1, 0]) == 244;
  }
}
