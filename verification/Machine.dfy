/** Integer widths of the host language, and the option type shared by every module. */
module Machine {

  const UINT_VALUES: int := 0x1_0000_0000

  type Int32 = x: int | -0x8000_0000 <= x < 0x8000_0000

  type UInt = x: int | 0 <= x < UINT_VALUES

  /** Two's-complement reinterpretation: a negative Int becomes a huge UInt. */
  function ToUInt(x: int): UInt {
    x % UINT_VALUES
  }

  datatype Option<+T> = None | Some(value: T)
}
