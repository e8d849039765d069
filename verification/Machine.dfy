/** Integer widths and the constants shared by every component. */
module Machine {
  type Byte = x: int | 0 <= x < 0x100
  type Word16 = x: int | 0 <= x < 0x1_0000
  type Word32 = x: int | 0 <= x < 0x1_0000_0000

  const MAX_PEERS: nat := 8

  function Wrap16(x: int): Word16 { x % 0x1_0000 }

  function Wrap32(x: int): Word32 { x % 0x1_0000_0000 }

  datatype Option<+T> = None | Some(value: T)
}
