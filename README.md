# LTC2943 ChipControl — Dafny model

This project models the control layer of the LTC2943 battery-gauge chip:

- the register map, field masks, ADC-mode bit patterns and command status codes of
  `ChipControl.h` (module `ChipControlDefs`);
- the mock driver of `LTC2943.c`, one static byte that stands in for every register
  (module `Ltc2943`, class `Ltc2943Mock`);
- the facade of `ChipControl.c`: the field extractor `get_bits_by_mask` and the
  getter `get_adc_mode` (module `ChipControl`).

Registers, masks and fields are `bv8`, so every bit-level statement is exact.

`get_adc_mode` is modelled in two ways:

- `ChipControl.AdcModeAfterRead` describes what the getter does after the driver's reply
  `(ok, data)`, for any driver. A failed read gives FAILURE and leaves the caller's output
  variable as it was. A successful read gives SUCCESS and the ADC-mode field of `data`.
- `ChipControl.GetAdcMode` is the imperative getter run against the mock driver object.

The mock keeps a ghost log of the calls made to it. This is how the model states that
the getter makes exactly one read, of size 1, at the control register, and no write.
The class invariant `Valid()` ties the stored byte to this log. The stored byte is the
fold `Ltc2943.Stored` of the per-call effects over the log, starting from 0x00.
`Ltc2943.StoredIsLastWrite` then describes the stored byte after any history of calls.

Points where the source is inconsistent or incomplete, and how the model reads it:

- `ChipControl.c:19` uses the name `MASK_ADC_MODE`, which the header does not define.
  The model reads it as `ADC_MODE_MASK` (0xC0, `ChipControl.h:16`).
- The first `#define` of the control register is repeated at `ChipControl.h:9` with the
  same value, so the model has one constant for it.
- The getter returns the raw masked byte, not an enumerated mode. The model does the same.
  Decoding that byte is provided separately by `ChipControlDefs.DecodeMode`. It is total:
  the four patterns fill the 2-bit field.

## Model

| member | source | states |
|---|---|---|
| `ChipControlDefs.RegistersDistinct` | ChipControl.h:7-13 | The six register addresses STATUS, CONTROL and the four charge thresholds are pairwise distinct |
| `ChipControlDefs.ThresholdRegistersConsecutive` | ChipControl.h:10-13 | The four charge-threshold registers are the consecutive addresses 0x04, 0x05, 0x06, 0x07 |
| `ChipControlDefs.MasksDisjoint` | ChipControl.h:16-19 | The ADC, TEMP, CHRG_HI and CHRG_LO masks are pairwise disjoint |
| `ChipControlDefs.ModeBits` | ChipControl.h:22-25 | Each ADC mode's pattern has no bit outside ADC_MODE_MASK |
| `ChipControlDefs.DecodeMode` | ChipControl.h:16-25 | Every byte with no bit outside ADC_MODE_MASK decodes to a mode whose pattern is exactly that byte, so there is no unmapped pattern |
| `ChipControlDefs.ModesInsideMask` | ChipControl.h:16-25 | `mode & ADC_MODE_MASK == mode` for every mode, and every mode pattern is one of the four constants |
| `ChipControlDefs.ModeBitsInjective` | ChipControl.h:22-25 | Distinct modes have distinct patterns, and decoding a mode's pattern gives back that mode |
| `ChipControlDefs.ModesCoverField` | ChipControl.h:16-25 | Any byte masked by ADC_MODE_MASK is one of the four mode constants; a byte is a mode constant exactly when it has no bit outside the mask |
| `ChipControlDefs.StatusCode` | ChipControl.h:28-31 | Status codes are below 2, and the code is 0 exactly for SUCCESS (so 1 for FAILURE) |
| `ChipControlDefs.StatusFromCode` | ChipControl.h:28-31 | A number names a status exactly when it is 0 or 1, and then that status has that code |
| `ChipControlDefs.StatusCodesRoundTrip` | ChipControl.h:28-31 | SUCCESS and FAILURE have different codes, and a status's code decodes back to it |
| `Ltc2943.StoredIsLastWrite` | LTC2943.c:17-26 | After any sequence of calls, the stored byte is the source of the last write, whatever its address and size. With no write it is the initial byte. Reads never change it |
| `Ltc2943.ReadAfterWrite` | LTC2943.c:17-26 | A read after a write sees the written byte, whatever the two addresses and sizes are |
| `Ltc2943.LastWriteWins` | LTC2943.c:23-26 | Of two consecutive writes only the second one is visible afterwards |
| `Ltc2943.Ltc2943Mock.constructor` | LTC2943.c:12 | The stored byte starts at 0x00, with no calls logged |
| `Ltc2943.Ltc2943Mock.Initialise` | LTC2943.c:14 | Initialisation always returns true and changes no state |
| `Ltc2943.Ltc2943Mock.Read` | LTC2943.c:17-20 | Returns true and the stored byte for any address and size. The stored byte is unchanged, and exactly this read is logged |
| `Ltc2943.Ltc2943Mock.Write` | LTC2943.c:23-26 | Returns true and the stored byte becomes the source byte for any address and size. Exactly this write is logged |
| `ChipControl.GetBitsByMask` | ChipControl.c:5-7 | The result has no bit outside the mask, and inside the mask it agrees with the data |
| `ChipControl.GetBitsByMaskIdempotent` | ChipControl.c:5-7 | Extracting a field twice with the same mask is the same as extracting it once |
| `ChipControl.GetBitsByMaskBounded` | ChipControl.c:5-7 | The field is no larger than the mask or the data, and is a bit-subset of the data |
| `ChipControl.AdcModeAfterRead` | ChipControl.c:13-22 | For any driver reply: SUCCESS exactly when the read succeeded. On failure the caller's output is unchanged. On success the output is the data's ADC-mode field and is one of the four mode constants |
| `ChipControl.AdcModeDecodes` | ChipControl.c:18-20 | On success the reported byte decodes to the mode whose pattern is the data's ADC-mode field |
| `ChipControl.AdcModeAfterWrite` | ChipControl.c:15-20 | Against the mock, after a write of `x` to any register, the getter gives SUCCESS with output `x & 0xC0` |
| `ChipControl.GetAdcMode` | ChipControl.c:13-22 | Against the mock: exactly one read is logged, of size 1 at CONTROL (0x01), and no write. The stored byte is unchanged. The result is what `AdcModeAfterRead` gives for the mock's reply, so SUCCESS with `stored & 0xC0` |

## Left out

- `set_adc_mode`, `check_temp_alert`, `set_charge_treshold` and `check_charge_status`
  (`ChipControl.h:36-42`) are only declared; the files have no body for them. So the model
  has no read-modify-write, write avoidance or charge-status decoding. Three of them take a
  `uint8_t *` in/out argument; `set_charge_treshold` takes 8-bit min and max values.
- The demo program `main.c` is not part of this model. It only prints and sets exit codes,
  and it uses the undefined identifiers `adc_mode_t` and `LTC2943_ADC_MODE_AUTO`.
- The real chip driver declared in `LTC2943.h` is a bus transport. The model cannot see it.
  Its possible read failure appears only as the `ok` argument of
  `ChipControl.AdcModeAfterRead`. The header's misspelt prototype `LTC2973_Write` is read as
  the `LTC2943_Write` that the mock defines.
- ChipControl.GetAdcMode: against the mock the read never fails, so the failure branch of
  `ChipControl.AdcModeAfterRead`, which the method uses for its decision, is never taken
  there. That branch is proved for any driver reply by `ChipControl.AdcModeAfterRead`.
- Multi-byte `dataSize` transfers are not modelled. Every call uses size 1, and the mock
  ignores the size. The size is recorded in the log only.
- Concurrency and atomicity of register access are not modelled. The code is
  single-threaded and takes no locks.
- C pointers are modelled as values. The read's destination pointer becomes the returned
  byte. The getter's `*resp` becomes an input `prior` and a result that equals it on
  failure.
