/** Fixed-width integer types, the ESP-IDF status codes the core returns, and Option. */
module Types {

  /** uint8_t */
  newtype byte = x: int | 0 <= x < 0x100

  /** uint16_t */
  newtype uint16 = x: int | 0 <= x < 0x1_0000

  /** uint32_t */
  newtype uint32 = x: int | 0 <= x < 0x1_0000_0000

  /** C `int` on the ESP32 (32-bit, two's complement) */
  newtype int32 = x: int | -0x8000_0000 <= x < 0x8000_0000

  const Uint32Modulus: int := 0x1_0000_0000

  /** `a + n` computed in uint32_t arithmetic: the sum wraps modulo 2^32. */
  function WrapAdd32(a: uint32, n: nat): (r: uint32)
    ensures a as int + n < Uint32Modulus ==> r as int == a as int + n
    ensures (r as int - a as int - n) % Uint32Modulus == 0
  {
    ((a as int + n) % Uint32Modulus) as uint32
  }

  /** A (left, right) clutch pair, as handed to the HID report sink. */
  datatype Report = Report(left: uint16, right: uint16)

  /** The subset of esp_err_t values that appear on the modelled paths. */
  datatype EspErr =
    | EspOk                // ESP_OK
    | EspErrInvalidState   // ESP_ERR_INVALID_STATE
    | EspErrInvalidArg     // ESP_ERR_INVALID_ARG
    | EspErrInvalidSize    // ESP_ERR_INVALID_SIZE

  /** A C pointer that may be NULL. */
  datatype Option<+T> = None | Some(value: T)
}
