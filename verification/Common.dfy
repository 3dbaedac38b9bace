/** Types the models share. */
module Common {

  datatype Option<T> = None | Some(value: T)

  const WORD: nat := 0x1_0000_0000

  /** A whole number as an unsigned 32-bit word: static_cast<uint32_t>, or napi_get_value_uint32. */
  function ToUint32(n: int): nat {
    n % WORD
  }

  newtype byte = x: int | 0 <= x < 256
}
