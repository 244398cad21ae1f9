/**
 * The DS2482 command set and register layout (the `cmds` table the bridge imports), with the
 * values of the DS2482-100/-800 datasheet and of the standard 1-Wire ROM commands.
 */
module Commands {
  import opened Bytes

  /* Bridge commands (first byte of an I2C write) */
  const DEVICE_RESET: Byte := 0xF0
  const SET_READ_POINTER: Byte := 0xE1
  const WRITE_CONFIG: Byte := 0xD2
  const CHANNEL_SELECT: Byte := 0xC3
  const ONE_WIRE_RESET: Byte := 0xB4
  const ONE_WIRE_SINGLE_BIT: Byte := 0x87
  const ONE_WIRE_WRITE_BYTE: Byte := 0xA5
  const ONE_WIRE_READ_BYTE: Byte := 0x96
  const ONE_WIRE_TRIPLET: Byte := 0x78

  /* 1-Wire ROM commands */
  const ONE_WIRE_READ_ROM: Byte := 0x33
  const ONE_WIRE_MATCH_ROM: Byte := 0x55
  const ONE_WIRE_SKIP_ROM: Byte := 0xCC
  const ONE_WIRE_SEARCH_ROM: Byte := 0xF0
  const ONE_WIRE_RESUME_COMMAND: Byte := 0xA5

  /* Read-pointer codes */
  const REG_STATUS: Byte := 0xF0
  const REG_DATA: Byte := 0xE1
  const REG_CHANNEL: Byte := 0xD2
  const REG_CONFIG: Byte := 0xC3

  /* Status register bits */
  const STATUS_BUSY: Byte := 0x01
  const STATUS_PRESENCE: Byte := 0x02
  const STATUS_SHORT: Byte := 0x04
  const STATUS_LOGIC_LEVEL: Byte := 0x08
  const STATUS_RESET: Byte := 0x10
  const STATUS_SINGLE_BIT: Byte := 0x20
  const STATUS_TRIPLE_BIT: Byte := 0x40
  const STATUS_BRANCH_DIR: Byte := 0x80

  /* Configuration register bits */
  const CONFIG_ACTIVE: Byte := 0x01
  const CONFIG_STRONG: Byte := 0x04
  const CONFIG_OVERDRIVE: Byte := 0x08

  /** A channel of the DS2482-800: the code written to select it and the code read back. */
  datatype SelectionCode = SelectionCode(write: Byte, read: Byte)

  const SELECTION_CODES: seq<SelectionCode> := [
    SelectionCode(0xF0, 0xB8), SelectionCode(0xE1, 0xB1), SelectionCode(0xD2, 0xAA),
    SelectionCode(0xC3, 0xA3), SelectionCode(0xB4, 0x9C), SelectionCode(0xA5, 0x95),
    SelectionCode(0x96, 0x8E), SelectionCode(0x87, 0x87)
  ]

  predicate Has(status: Byte, bit: Byte)
  {
    status & bit != 0
  }
}
