/** Command and response codes: internal/niimbot/commands.go. */
module Commands {
  import opened Bytes

  const CMD_PRINT_START: byte := 0x01
  const CMD_PAGE_START: byte := 0x03
  const CMD_SET_PAGE_SIZE: byte := 0x13
  const CMD_PRINT_QUANTITY: byte := 0x15
  const CMD_PRINT_CLEAR: byte := 0x20
  const CMD_SET_DENSITY: byte := 0x21
  const CMD_SET_LABEL_TYPE: byte := 0x23
  const CMD_EMPTY_ROW: byte := 0x84
  const CMD_BITMAP_ROW: byte := 0x85
  const CMD_CHECK_LINE: byte := 0x86
  const CMD_PRINT_STATUS: byte := 0xA3
  const CMD_CANCEL_PRINT: byte := 0xDA
  const CMD_PAGE_END: byte := 0xE3
  const CMD_PRINT_END: byte := 0xF3

  const RESP_NOT_SUPPORTED: byte := 0x00
  const RESP_PRINT_START: byte := 0x02
  const RESP_PAGE_START: byte := 0x04
  const RESP_SET_PAGE_SIZE: byte := 0x14
  const RESP_PRINT_QUANTITY: byte := 0x16
  const RESP_PRINT_CLEAR: byte := 0x30
  const RESP_SET_DENSITY: byte := 0x31
  const RESP_SET_LABEL_TYPE: byte := 0x33
  const RESP_PRINT_STATUS: byte := 0xB3
  const RESP_CANCEL_PRINT: byte := 0xD0
  const RESP_PRINT_ERROR: byte := 0xDB
  const RESP_PAGE_END: byte := 0xE4
  const RESP_PRINT_END: byte := 0xF4
}
