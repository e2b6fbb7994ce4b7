/** Types, constants and result codes of the command line interface
    (cli_config.h, cli.h), and the small helpers shared by every module. */
module CliConfig {

  /** One byte of the serial stream; the firmware's `char`. */
  newtype byte = x: int | 0 <= x < 256

  datatype Option<T> = None | Some(value: T)

  /** Values of a `uint32_t`. */
  const U32_RANGE: nat := 0x1_0000_0000

  /** A conversion to `uint32_t`: the value modulo 2^32. */
  function U32(x: int): (r: nat)
    ensures r < U32_RANGE && (0 <= x < U32_RANGE ==> r == x)
  {
    x % U32_RANGE
  }

  // Capacities (cli_config.h).
  const CLI_SIZE_MAX_CMD: nat := 20    // commands in the registry
  const CLI_CMD_BUF_SIZE: nat := 20    // bytes of one edited line
  const CLI_CMD_LOG_SIZE: nat := 10    // entries of the history
  const CLI_ARGS_BUF_SIZE: nat := 10   // argument slots
  const CLI_ARG_SIZE: nat := 5         // bytes of one argument slot, without its NUL

  // Key codes (cli_config.h).
  const NUL: byte := 0x00
  const KEY_ENTER: byte := 0x0D
  const KEY_BACKSPACE: byte := 0x08
  const KEY_LSHIFT: byte := 0x08
  const KEY_ESCAPE: byte := 0xF0
  const KEY_UP: byte := 0xF1
  const KEY_RIGHT: byte := 0xF2
  const KEY_DOWN: byte := 0xF3
  const KEY_LEFT: byte := 0xF4
  const KEY_DEL: byte := 0xF5
  const KEY_HOME: byte := 0xA0
  const KEY_END: byte := 0xA1
  const KEY_TAB: byte := 0x09
  const KEY_CLEAR_SCR: byte := 0x0C
  const CHAR_INTERRUPT: byte := 0x03
  const LINE_FEED: byte := 0x0A
  const SPACE: byte := 0x20

  /** STRING_TERM_ARROW, the prompt ">> ". */
  const PROMPT: seq<byte> := [0x3E, 0x3E, 0x20]

  /** CLI_Result_t */
  datatype CliResult = Ok | Err | NotFound | ArgErr | ExecErr | WorkInt

  /** CLI_Add_Result_t */
  datatype AddResult = AddOk | MaxCmd | FcnNull | EmptyName | RetryName

  /** CLI_Append_Result_t */
  datatype AppendResult = AppendOk | AppendEnter | AppendBufFull | AppendReset | AppendIgnore

  // CLI_Type_Mode_Cmd_t
  const PRINT_NONE: nat := 0x0000
  const PRINT_START_TIME: nat := 0x0001
  const PRINT_STOP_TIME: nat := 0x0002
  const PRINT_DIFF_TIME: nat := 0x0004

  /** `n` copies of `b`. */
  function Repeat(b: byte, n: nat): (r: seq<byte>)
    ensures |r| == n
    ensures forall i :: 0 <= i < n ==> r[i] == b
  {
    if n == 0 then [] else [b] + Repeat(b, n - 1)
  }

  /** The bytes hold no string terminator. */
  predicate NoNul(s: seq<byte>)
  {
    forall i :: 0 <= i < |s| ==> s[i] != NUL
  }
}
