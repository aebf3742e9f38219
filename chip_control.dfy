/** The ChipControl facade (ChipControl.c): bit-field extraction and the
    ADC-mode getter over the LTC2943 driver. */
module ChipControl {
  import opened ChipControlDefs
  import opened Ltc2943

  /** get_bits_by_mask: the bits of `data` that lie inside `mask`, every other bit cleared. */
  function GetBitsByMask(data: bv8, mask: bv8): (r: bv8)
    ensures r & !mask == 0
    ensures r & mask == data & mask
  {
    data & mask
  }

  lemma GetBitsByMaskIdempotent(data: bv8, mask: bv8)
    ensures GetBitsByMask(GetBitsByMask(data, mask), mask) == GetBitsByMask(data, mask)
  {
  }

  /** The extracted field is no larger than the mask or the data, and is a subset of both. */
  lemma GetBitsByMaskBounded(data: bv8, mask: bv8)
    ensures GetBitsByMask(data, mask) <= mask && GetBitsByMask(data, mask) <= data
    ensures GetBitsByMask(data, mask) & data == GetBitsByMask(data, mask)
  {
  }

  /** What get_adc_mode reports. `resp` is the value left behind in the caller's
      output variable. */
  datatype AdcReply = AdcReply(status: CmdStatus, resp: bv8)

  /** get_adc_mode after its single driver read returned (`ok`, `data`), for any
      driver: a failed read reports FAILURE and leaves the caller's output `prior`
      as it was; a successful one reports SUCCESS with the ADC-mode field of `data`. */
  function AdcModeAfterRead(ok: bool, data: bv8, prior: bv8): (r: AdcReply)
    ensures r.status == Success <==> ok
    ensures !ok ==> r.resp == prior
    ensures ok ==> r.resp & !ADC_MODE_MASK == 0 && r.resp & ADC_MODE_MASK == data & ADC_MODE_MASK
    ensures ok ==> IsAdcMode(r.resp)
  {
    if !ok then AdcReply(Failure, prior)
    else AdcReply(Success, GetBitsByMask(data, ADC_MODE_MASK))
  }

  /** On success the reported field decodes to the mode whose pattern it is. */
  lemma AdcModeDecodes(data: bv8, prior: bv8)
    ensures var r := AdcModeAfterRead(true, data, prior);
            ModeBits(DecodeMode(r.resp)) == data & ADC_MODE_MASK
  {
  }

  /** Against the mock: after a write of `x` to any register, the getter reports
      SUCCESS with `x & 0xC0`. */
  lemma AdcModeAfterWrite(init: bv8, log: seq<Access>, address: bv8, x: bv8, size: bv8, prior: bv8)
    ensures AdcModeAfterRead(true, Stored(init, log + [WriteCall(address, x, size)]), prior)
            == AdcReply(Success, x & 0xC0)
  {
    StoredIsLastWrite(init, log + [WriteCall(address, x, size)]);
  }

  /** get_adc_mode run against the mock driver: one read of size 1 at the
      control register, no write, and the outcome AdcModeAfterRead gives. */
  method GetAdcMode(driver: Ltc2943Mock, prior: bv8) returns (status: CmdStatus, resp: bv8)
    requires driver.Valid()
    modifies driver`log
    ensures driver.Valid()
    ensures driver.resp == old(driver.resp)
    ensures driver.log == old(driver.log) + [ReadCall(CONTROL_REG, 1)]
    ensures AdcReply(status, resp) == AdcModeAfterRead(true, driver.resp, prior)
    ensures status == Success && resp == driver.resp & ADC_MODE_MASK
  {
    var ok, data := driver.Read(CONTROL_REG, 1);
    var r := AdcModeAfterRead(ok, data, prior);
    status, resp := r.status, r.resp;
  }
}
