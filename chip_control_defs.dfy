/** Register map, field masks, ADC-mode bit patterns and command status
    codes of the LTC2943 control layer (ChipControl.h). */
module ChipControlDefs {

  datatype Option<T> = None | Some(value: T)

  // Register addresses (ChipControl.h:7-13; line 9 repeats line 8 with the same value).
  const STATUS_REG: bv8 := 0x00
  const CONTROL_REG: bv8 := 0x01
  const CHRG_TRSHLD_E: bv8 := 0x04
  const CHRG_TRSHLD_F: bv8 := 0x05
  const CHRG_TRSHLD_G: bv8 := 0x06
  const CHRG_TRSHLD_H: bv8 := 0x07

  // Field masks (ChipControl.h:16-19).
  const ADC_MODE_MASK: bv8 := 0xC0
  const TEMP_ALRT_MASK: bv8 := 0x10
  const CHRG_ALRT_HI_MASK: bv8 := 0x08
  const CHRG_ALRT_LO_MASK: bv8 := 0x04

  // ADC-mode bit patterns of the control register (ChipControl.h:22-25).
  const ADC_MODE_AUTOMATIC: bv8 := 0xC0
  const ADC_MODE_SCAN: bv8 := 0x80
  const ADC_MODE_MANUAL: bv8 := 0x40
  const ADC_MODE_SLEEP: bv8 := 0x00

  /** The six register addresses, in the order they are defined. */
  const REGISTERS: seq<bv8> :=
    [STATUS_REG, CONTROL_REG, CHRG_TRSHLD_E, CHRG_TRSHLD_F, CHRG_TRSHLD_G, CHRG_TRSHLD_H]

  /** The four field masks, in the order they are defined. */
  const FIELD_MASKS: seq<bv8> :=
    [ADC_MODE_MASK, TEMP_ALRT_MASK, CHRG_ALRT_HI_MASK, CHRG_ALRT_LO_MASK]

  /** The four named values of the ADC-mode field. */
  datatype AdcMode = Automatic | Scan | Manual | Sleep

  /** The bit pattern each ADC mode stands for in the control register. */
  function ModeBits(m: AdcMode): (b: bv8)
    ensures b & !ADC_MODE_MASK == 0
    ensures b & ADC_MODE_MASK == b
  {
    match m
    case Automatic => ADC_MODE_AUTOMATIC
    case Scan => ADC_MODE_SCAN
    case Manual => ADC_MODE_MANUAL
    case Sleep => ADC_MODE_SLEEP
  }

  /** A byte is a valid ADC-mode field value when it is one of the four patterns. */
  predicate IsAdcMode(b: bv8) {
    b == ADC_MODE_AUTOMATIC || b == ADC_MODE_SCAN || b == ADC_MODE_MANUAL || b == ADC_MODE_SLEEP
  }

  /** Decoding an isolated ADC-mode field; total, since every 2-bit value is named. */
  function DecodeMode(field: bv8): (m: AdcMode)
    requires field & !ADC_MODE_MASK == 0
    ensures ModeBits(m) == field
  {
    if field == ADC_MODE_AUTOMATIC then Automatic
    else if field == ADC_MODE_SCAN then Scan
    else if field == ADC_MODE_MANUAL then Manual
    else Sleep
  }

  /** Command status codes (ChipControl.h:28-31). */
  datatype CmdStatus = Success | Failure

  /** The numeric value of each status in the C enumeration. */
  function StatusCode(s: CmdStatus): (c: nat)
    ensures c < 2
    ensures (c == 0) == (s == Success)
  {
    match s
    case Success => 0
    case Failure => 1
  }

  /** The status a numeric code names, if any. */
  function StatusFromCode(c: int): (r: Option<CmdStatus>)
    ensures r.Some? <==> 0 <= c < 2
    ensures r.Some? ==> StatusCode(r.value) == c
  {
    if c == 0 then Some(Success)
    else if c == 1 then Some(Failure)
    else None
  }

  lemma RegistersDistinct()
    ensures |REGISTERS| == 6
    ensures forall i, j :: 0 <= i < j < |REGISTERS| ==> REGISTERS[i] != REGISTERS[j]
  {
  }

  /** The four charge-threshold registers occupy the consecutive addresses 0x04..0x07. */
  lemma ThresholdRegistersConsecutive()
    ensures CHRG_TRSHLD_E == 0x04
    ensures CHRG_TRSHLD_F == CHRG_TRSHLD_E + 1
    ensures CHRG_TRSHLD_G == CHRG_TRSHLD_F + 1
    ensures CHRG_TRSHLD_H == CHRG_TRSHLD_G + 1
  {
  }

  lemma MasksDisjoint()
    ensures |FIELD_MASKS| == 4
    ensures forall i, j :: 0 <= i < j < |FIELD_MASKS| ==> FIELD_MASKS[i] & FIELD_MASKS[j] == 0
  {
  }

  /** Every mode pattern lies inside the ADC-mode mask. */
  lemma ModesInsideMask(m: AdcMode)
    ensures ModeBits(m) & ADC_MODE_MASK == ModeBits(m)
    ensures IsAdcMode(ModeBits(m))
  {
  }

  /** Distinct modes have distinct patterns, and decoding inverts ModeBits. */
  lemma ModeBitsInjective(m1: AdcMode, m2: AdcMode)
    ensures ModeBits(m1) == ModeBits(m2) <==> m1 == m2
    ensures DecodeMode(ModeBits(m1)) == m1
  {
  }

  /** The four patterns cover every value the two ADC-mode bits can take. */
  lemma ModesCoverField(b: bv8)
    ensures IsAdcMode(b & ADC_MODE_MASK)
    ensures IsAdcMode(b) <==> b & !ADC_MODE_MASK == 0
  {
  }

  /** SUCCESS and FAILURE differ, and 0 and 1 are the only codes. */
  lemma StatusCodesRoundTrip(s: CmdStatus, t: CmdStatus)
    ensures StatusFromCode(StatusCode(s)) == Some(s)
    ensures StatusCode(s) == StatusCode(t) <==> s == t
  {
  }
}
