/**
 * The NAL unit header byte of ITU-T H.264, section 7.3.1:
 * forbidden_zero_bit (1 bit), nal_ref_idc (2 bits), nal_unit_type (5 bits),
 * and the labels of Table 7-1 that the splitter writes next to each unit.
 */
module NalHeader {

  import opened Results

  /** A byte of the source stream. */
  type byte = x: int | 0 <= x < 256

  /** Bit 7 of the header: `h >> 7` on a non-negative byte. */
  function ForbiddenZeroBit(h: byte): (r: int)
    ensures 0 <= r <= 1
  {
    h / 128
  }

  /** Bits 6-5 of the header: `h >> 5 & 3`. */
  function NalRefIdc(h: byte): (r: int)
    ensures 0 <= r <= 3
  {
    (h / 32) % 4
  }

  /** Bits 4-0 of the header: `h & 31`. */
  function NalUnitType(h: byte): (r: int)
    ensures 0 <= r < 32
  {
    h % 32
  }

  /** The byte whose three fields are the given values (the inverse of the three extractions). */
  function HeaderByte(fzb: int, refIdc: int, unitType: int): (h: int)
    requires 0 <= fzb <= 1 && 0 <= refIdc <= 3 && 0 <= unitType < 32
    ensures 0 <= h < 256
  {
    128 * fzb + 32 * refIdc + unitType
  }

  /** Decoding then re-encoding a header byte gives the byte back. */
  lemma EncodeDecode(h: byte)
    ensures HeaderByte(ForbiddenZeroBit(h), NalRefIdc(h), NalUnitType(h)) == h
  {
    var q := h / 32;
    assert h == 32 * q + h % 32;
    assert q == 4 * (q / 4) + q % 4;
    assert q / 4 == h / 128;
  }

  /** Encoding three in-range fields then decoding gives the fields back. */
  lemma DecodeEncode(fzb: int, refIdc: int, unitType: int)
    requires 0 <= fzb <= 1 && 0 <= refIdc <= 3 && 0 <= unitType < 32
    ensures ForbiddenZeroBit(HeaderByte(fzb, refIdc, unitType) as byte) == fzb
    ensures NalRefIdc(HeaderByte(fzb, refIdc, unitType) as byte) == refIdc
    ensures NalUnitType(HeaderByte(fzb, refIdc, unitType) as byte) == unitType
  {
    var h := HeaderByte(fzb, refIdc, unitType);
    var q := 4 * fzb + refIdc;
    assert h / 32 == q && h % 32 == unitType;
    assert q / 4 == fzb && q % 4 == refIdc;
    assert h / 128 == fzb;
  }

  /** The labels of nal_unit_type 0..31, in order. */
  const NalUnitTypes: seq<string> := [
    "Unspecified",
    "Coded slice of a non-IDR picture",
    "Coded slice data partition A",
    "Coded slice data partition B",
    "Coded slice data partition C",
    "Coded slice of an IDR picture",
    "Supplemental enhancement information (SEI)",
    "Sequence parameter set",
    "Picture parameter set",
    "Access unit delimiter",
    "End of sequence",
    "End of stream",
    "Filler data",
    "Sequence parameter set extension",
    "Prefix NAL unit",
    "Subset sequence parameter set",
    "Reserved",
    "Reserved",
    "Reserved",
    "Coded slice of an auxiliary coded picture without partitioning",
    "Coded slice extension",
    "Coded slice extension for depth view components",
    "Reserved",
    "Reserved",
    "Unspecified",
    "Unspecified",
    "Unspecified",
    "Unspecified",
    "Unspecified",
    "Unspecified",
    "Unspecified",
    "Unspecified"
  ]

  /** The table lookup `NAL_UNIT_TYPES[nal_unit_type]`; every 5-bit type has an entry. */
  function NalUnitTypeDesc(unitType: int): (desc: string)
    requires 0 <= unitType < 32
    ensures desc != []
  {
    assert |NalUnitTypes| == 32;
    assert forall t :: 0 <= t < 32 ==> NalUnitTypes[t] != [];
    NalUnitTypes[unitType]
  }

  /** Every header byte is classified: its type is in range and has a non-empty label. */
  lemma ClassifierTotal(h: byte)
    ensures 0 <= NalUnitType(h) < 32 && NalUnitTypeDesc(NalUnitType(h)) != []
  {
  }

  /**
   * Units of type 6, 7 and 8 (SEI, SPS, PPS) get no probe record; every
   * other type takes the next one, including types that carry no picture
   * (0, 9-31: delimiters, end of sequence or stream, filler, reserved).
   */
  predicate TakesProbeRecord(h: byte)
  {
    NalUnitType(h) != 6 && NalUnitType(h) != 7 && NalUnitType(h) != 8
  }

  /** The excluded types are exactly the ones labelled SEI, SPS and PPS. */
  lemma ExcludedTypesAreParameterSets(h: byte)
    ensures !TakesProbeRecord(h) <==>
      NalUnitTypeDesc(NalUnitType(h)) in
        {"Supplemental enhancement information (SEI)", "Sequence parameter set", "Picture parameter set"}
  {
    var t := NalUnitType(h);
    assert NalUnitTypes[6] == "Supplemental enhancement information (SEI)";
    assert NalUnitTypes[7] == "Sequence parameter set";
    assert NalUnitTypes[8] == "Picture parameter set";
    if t != 6 && t != 7 && t != 8 {
      assert forall u :: 0 <= u < 32 && u != 6 && u != 7 && u != 8 ==>
        NalUnitTypes[u] !in {"Supplemental enhancement information (SEI)", "Sequence parameter set", "Picture parameter set"};
    }
  }

  /** One upper-case hexadecimal digit. */
  function HexDigit(d: int): (c: char)
    requires 0 <= d < 16
  {
    if d < 10 then ('0' as int + d) as char else ('A' as int + d - 10) as char
  }

  /** The value of an upper-case hexadecimal digit, if `c` is one. */
  function HexValue(c: char): (d: Option<int>)
  {
    if '0' <= c <= '9' then Some(c as int - '0' as int)
    else if 'A' <= c <= 'F' then Some(c as int - 'A' as int + 10)
    else None
  }

  /** `"0x%02X" % h`: the fixed-width header string written to the index. */
  function HexByte(h: byte): (s: string)
    ensures |s| == 4 && s[..2] == "0x"
  {
    "0x" + [HexDigit(h / 16), HexDigit(h % 16)]
  }

  /** Reads back a string of the form written by HexByte. */
  function ParseHexByte(s: string): (r: Option<int>)
  {
    if |s| == 4 && s[0] == '0' && s[1] == 'x' && HexValue(s[2]).Some? && HexValue(s[3]).Some?
    then Some(16 * HexValue(s[2]).value + HexValue(s[3]).value)
    else None
  }

  lemma HexDigitValue(d: int)
    requires 0 <= d < 16
    ensures HexValue(HexDigit(d)) == Some(d)
  {
  }

  /** The header string is lossless: parsing it gives the header byte back. */
  lemma HexByteRoundTrip(h: byte)
    ensures ParseHexByte(HexByte(h)) == Some(h)
  {
    HexDigitValue(h / 16);
    HexDigitValue(h % 16);
  }
}
