/** The interpreter of cli.c: the command registry, the argument slots
    `_split` fills, the dispatcher, the argument accessors for handlers, and
    the per-key state machine `cli_append_char`.

    `CLI_State_s` becomes the class `Cli`. Its ten argument slots of
    `SLOT_BYTES` bytes each lie one after the other in `argv`. The
    static `_interrupt_operation` is the field `interrupt`. Handlers are
    functions of the argument strings. `executeState`, which is 1 only while
    a handler runs and is never read, is not a field. */
module CliCore {
  import opened CliConfig
  import opened Terminal
  import opened TinyString
  import opened LineEdit
  import opened CliInput
  import opened CliLog
  import opened CliTable
  import opened CliKeys

  /** Bytes of one argument without its NUL: the length of the longest
      built-in name, so that every built-in can be typed at the prompt.
      `cli_init` gives each slot `CLI_ARG_SIZE + 1` bytes, too few for
      three of them (see `LongNamesOverflowSlot`). */
  const SLOT_CHARS: nat := 8
  /** Bytes of one argument slot, its NUL included. */
  const SLOT_BYTES: nat := SLOT_CHARS + 1
  /** Bytes of all argument slots. */
  const ARGV_BYTES: nat := CLI_ARGS_BUF_SIZE * SLOT_BYTES

  /** The separator `ExecuteString` splits with: the string " ". */
  const BLANK: seq<byte> := [SPACE, NUL]

  /** Argument slot `k` of the slot memory. */
  function Slot(mem: seq<byte>, k: nat): (r: seq<byte>)
    requires |mem| == ARGV_BYTES && k < CLI_ARGS_BUF_SIZE
    ensures |r| == SLOT_BYTES
  {
    mem[k * SLOT_BYTES..(k + 1) * SLOT_BYTES]
  }

  predicate SlotsTerminated(mem: seq<byte>)
    requires |mem| == ARGV_BYTES
  {
    forall k :: 0 <= k < CLI_ARGS_BUF_SIZE ==> Terminated(Slot(mem, k))
  }

  /** The tokens of `s` fit `_split`'s slots: at most `CLI_ARGS_BUF_SIZE`
      tokens of at most `size` bytes each. */
  predicate SplitFitsIn(s: seq<byte>, sep: seq<byte>, size: nat)
  {
    var t := Tokens(s, sep);
    |t| <= CLI_ARGS_BUF_SIZE && forall k :: 0 <= k < |t| ==> |t[k]| <= size
  }

  /** `_split` writes only in-bounds into the model's slots. */
  predicate SplitFits(s: seq<byte>, sep: seq<byte>)
  {
    SplitFitsIn(s, sep, SLOT_CHARS)
  }

  /** Registered names are non-empty strings, pairwise different. */
  predicate RegistryValid(t: seq<Cmd>)
  {
    (forall i :: 0 <= i < |t| ==> Terminated(t[i].name) && StrLen(Some(t[i].name)) > 0)
    && (forall i, j :: 0 <= i < j < |t| ==> CStr(t[i].name) != CStr(t[j].name))
  }

  /** Every registered name leaves room on the line for the blank that
      completion appends. */
  predicate NamesFitLine(t: seq<Cmd>)
    requires NamesTerminated(t)
  {
    forall i :: 0 <= i < |t| ==> StrLen(Some(t[i].name)) < CLI_CMD_BUF_SIZE
  }

  /** `_strtol`-style parser: the value of a string in a base. */
  type Strtol = (seq<byte>, nat) -> int

  /** The inner loop of `_split`: does the byte end a token? Only when the
      separator is non-empty, and then for a separator byte or the NUL. */
  method SeparatorHit(b: byte, sep: seq<byte>) returns (hit: bool)
    requires Terminated(sep)
    ensures hit <==> |CStr(sep)| > 0 && (b == NUL || b in CStr(sep))
  {
    var lenSep := StrLen(Some(sep));
    ghost var sepS := CStr(sep);
    var s := 0;
    hit := false;
    while s < lenSep && !hit
      invariant s <= lenSep
      decreases lenSep - s, if hit then 0 else 1
      invariant hit ==> lenSep > 0 && (b == NUL || b in sepS)
      invariant !hit ==> b != NUL || s == 0
      invariant !hit ==> forall j :: 0 <= j < s ==> sepS[j] != b
    {
      if b == sep[s] || b == NUL {
        hit := true;
      } else {
        s := s + 1;
      }
    }
  }

  /** The token write of `_split`: a NUL after `size` bytes of slot `k`,
      then the token copied in front of it. */
  method WriteToken(src: seq<byte>, start: nat, size: nat, mem: array<byte>, k: nat)
    requires start + size <= |src| && size <= SLOT_CHARS && k < CLI_ARGS_BUF_SIZE
    requires mem.Length == ARGV_BYTES
    modifies mem
    ensures Slot(mem[..], k) == src[start..start + size] + [NUL] + old(Slot(mem[..], k))[size + 1..]
    ensures forall j :: 0 <= j < CLI_ARGS_BUF_SIZE && j != k ==> Slot(mem[..], j) == old(Slot(mem[..], j))
  {
    ghost var m0 := mem[..];
    var base := k * SLOT_BYTES;
    PutByte(mem, base + size, NUL);
    StrCpy(src, start, mem, base, size);
    TokenBytes(src, start, size, k, m0, mem[..]);
  }

  /** The bytes `WriteToken` leaves: slot `k` holds the token and its NUL,
      every other slot is as before. */
  lemma TokenBytes(src: seq<byte>, start: nat, size: nat, k: nat, m0: seq<byte>, m2: seq<byte>)
    requires start + size <= |src| && size <= SLOT_CHARS && k < CLI_ARGS_BUF_SIZE && |m0| == ARGV_BYTES
    requires var m1 := m0[k * SLOT_BYTES + size := NUL];
             m2 == m1[..k * SLOT_BYTES] + src[start..start + size] + m1[k * SLOT_BYTES + size..]
    ensures Slot(m2, k) == src[start..start + size] + [NUL] + Slot(m0, k)[size + 1..]
    ensures forall j :: 0 <= j < CLI_ARGS_BUF_SIZE && j != k ==> Slot(m2, j) == Slot(m0, j)
  {
    assert SLOT_BYTES == 9;
    var b := k * SLOT_BYTES;
    assert b + SLOT_BYTES <= ARGV_BYTES;
    var m1 := m0[b + size := NUL];
    assert |m2| == ARGV_BYTES;
    forall i | 0 <= i < ARGV_BYTES && !(b <= i < b + SLOT_BYTES) ensures m2[i] == m0[i] {
      if i < b { assert m2[i] == m1[i]; } else { assert m2[i] == m1[i]; }
    }
    var want := src[start..start + size] + [NUL] + Slot(m0, k)[size + 1..];
    forall i | 0 <= i < SLOT_BYTES ensures Slot(m2, k)[i] == want[i] {
      assert Slot(m2, k)[i] == m2[b + i];
      if i < size {
        assert m2[b + i] == src[start + i];
      } else if i == size {
        assert m2[b + i] == m1[b + i];
      } else {
        assert m2[b + i] == m1[b + i] == m0[b + i];
        assert want[i] == Slot(m0, k)[i];
      }
    }
    forall j | 0 <= j < CLI_ARGS_BUF_SIZE && j != k ensures Slot(m2, j) == Slot(m0, j) {
      assert j < k ==> (j + 1) * SLOT_BYTES <= b;
      assert j > k ==> j * SLOT_BYTES >= b + SLOT_BYTES;
      forall i | 0 <= i < SLOT_BYTES ensures Slot(m2, j)[i] == Slot(m0, j)[i] {
        assert Slot(m2, j)[i] == m2[j * SLOT_BYTES + i];
        assert Slot(m0, j)[i] == m0[j * SLOT_BYTES + i];
      }
    }
  }

  /** The token of `_split` that a separator or the end of the string
      closes: copied into slot `coArg`, the other slots untouched. */
  method StoreToken(str: seq<byte>, ghost s: seq<byte>, ghost sep: seq<byte>, co: nat, start: nat, coArg: nat, mem: array<byte>)
    requires SplitFits(s, sep) && Progress(s, sep, co, start, coArg, mem[..])
    requires |s| < |str| && str[..|s|] == s && NoNul(s)
    requires co == |s| || s[co] in sep
    modifies mem
    ensures |mem[..]| == ARGV_BYTES && SlotsTerminated(mem[..])
    ensures co < |s| ==> Progress(s, sep, co + 1, co + 1, coArg + 1, mem[..])
    ensures co == |s| ==> coArg + 1 == |Tokens(s, sep)|
                          && forall k :: 0 <= k <= coArg ==> CStr(Slot(mem[..], k)) == Tokens(s, sep)[k]
    ensures forall j :: 0 <= j < CLI_ARGS_BUF_SIZE && j != coArg ==> Slot(mem[..], j) == old(Slot(mem[..], j))
  {
    ProgressFits(s, sep, co, start, coArg, mem[..]);
    var sizeWord := co - start;
    ghost var m0 := mem[..];
    WriteToken(str, start, sizeWord, mem, coArg);
    assert str[start..start + sizeWord] == s[start..co];
    SlotHoldsToken(Slot(mem[..], coArg), s[start..co], Slot(m0, coArg)[sizeWord + 1..]);
    assert SlotsTerminated(mem[..]) by {
      forall k | 0 <= k < CLI_ARGS_BUF_SIZE ensures Terminated(Slot(mem[..], k)) {
        if k != coArg { assert Slot(mem[..], k) == Slot(m0, k); }
      }
    }
    if co < |s| {
      ProgressNext(s, sep, co, start, coArg, m0, mem[..]);
    } else {
      ProgressEnd(s, sep, start, coArg, m0, mem[..]);
    }
  }

  /** A slot holding a token, its NUL and anything after holds the token. */
  lemma SlotHoldsToken(slot: seq<byte>, token: seq<byte>, rest: seq<byte>)
    requires slot == token + [NUL] + rest && NoNul(token)
    ensures Terminated(slot) && CStr(slot) == token
  {
    CStrOf(slot, |token|);
    assert slot[..|token|] == token;
  }

  /** Zero-initialised slots hold empty strings. */
  lemma ZeroSlots(mem: seq<byte>)
    requires |mem| == ARGV_BYTES && forall i :: 0 <= i < |mem| ==> mem[i] == NUL
    ensures SlotsTerminated(mem)
  {
    forall k | 0 <= k < CLI_ARGS_BUF_SIZE ensures Terminated(Slot(mem, k)) {
      assert Slot(mem, k)[0] == mem[k * SLOT_BYTES];
    }
  }

  /** The scan of `_split`: every byte of the line up to its NUL is compared
      against the separator, and each hit stores the token read so far
      into the next slot. With an empty separator nothing is stored. */
  method ScanTokens(str: seq<byte>, sep: seq<byte>, mem: array<byte>)
    requires mem.Length == ARGV_BYTES && SlotsTerminated(mem[..])
    requires Terminated(str) && Terminated(sep)
    requires |CStr(sep)| > 0 ==> SplitFits(CStr(str), CStr(sep))
    modifies mem
    ensures SlotsTerminated(mem[..])
    ensures var t := Tokens(CStr(str), CStr(sep));
            |CStr(sep)| > 0 ==> forall k :: 0 <= k < |t| ==> CStr(Slot(mem[..], k)) == t[k]
    ensures |CStr(sep)| == 0 ==> mem[..] == old(mem[..])
    ensures forall k :: |Tokens(CStr(str), CStr(sep))| <= k < CLI_ARGS_BUF_SIZE ==>
              Slot(mem[..], k) == old(Slot(mem[..], k))
  {
    ghost var m0 := mem[..];
    ghost var s := CStr(str);
    ghost var sepS := CStr(sep);
    ghost var T := Tokens(s, sepS);
    ghost var n := |s|;
    var lenSep := StrLen(Some(sep));
    assert lenSep == |sepS|;
    var startIndex := 0;
    var co := 0;
    var coArg := 0;
    ProgressStart(s, sepS, mem[..]);
    while true
      invariant 0 <= startIndex <= co <= n && coArg <= CLI_ARGS_BUF_SIZE
      invariant SlotsTerminated(mem[..])
      invariant lenSep > 0 ==> Progress(s, sepS, co, startIndex, coArg, mem[..])
      invariant lenSep == 0 ==> mem[..] == m0 && coArg == 0
      invariant forall k :: coArg <= k < CLI_ARGS_BUF_SIZE ==> Slot(mem[..], k) == Slot(m0, k)
      decreases n - co
    {
      var hit := SeparatorHit(str[co], sep);
      assert hit ==> lenSep > 0;
      assert co < n ==> str[co] == s[co];
      assert co == n ==> str[co] == NUL;
      if hit {
        ghost var mb := mem[..];
        StoreToken(str, s, sepS, co, startIndex, coArg, mem);
        ghost var ma := mem[..];
        forall k | coArg + 1 <= k < CLI_ARGS_BUF_SIZE ensures Slot(ma, k) == Slot(m0, k) {
          assert Slot(ma, k) == Slot(mb, k);
        }
        startIndex := co + 1;
        coArg := coArg + 1;
        assert co < n ==> Progress(s, sepS, co + 1, startIndex, coArg, mem[..]);
      }
      if str[co] == NUL {
        if lenSep == 0 {
          TokensOfPlain(s, sepS);
        }
        assert coArg == |T| || lenSep == 0;
        break;
      }
      if !hit && lenSep > 0 {
        ProgressPlain(s, sepS, co, startIndex, coArg, mem[..]);
        assert Progress(s, sepS, co + 1, startIndex, coArg, mem[..]);
      }
      co := co + 1;
    }
  }

  /** The state of `_split` at position `co` of `s`: the tokens so far are
      in slots 0 to `coArg - 1`, and the token being read starts at
      `start`. */
  ghost predicate Progress(s: seq<byte>, sep: seq<byte>, co: nat, start: nat, coArg: nat, mem: seq<byte>)
  {
    start <= co <= |s| && |mem| == ARGV_BYTES && SlotsTerminated(mem)
    && var tp := Tokens(s[..co], sep);
       |tp| == coArg + 1 && coArg < CLI_ARGS_BUF_SIZE && tp[coArg] == s[start..co]
       && forall k :: 0 <= k < coArg ==> CStr(Slot(mem, k)) == tp[k]
  }

  lemma ProgressStart(s: seq<byte>, sep: seq<byte>, mem: seq<byte>)
    requires |mem| == ARGV_BYTES && SlotsTerminated(mem)
    ensures Progress(s, sep, 0, 0, 0, mem)
  {
    assert s[..0] == [];
  }

  /** The token being read fits its slot. */
  lemma ProgressFits(s: seq<byte>, sep: seq<byte>, co: nat, start: nat, coArg: nat, mem: seq<byte>)
    requires SplitFits(s, sep) && Progress(s, sep, co, start, coArg, mem)
    ensures co - start <= SLOT_CHARS
  {
    TokensOfPrefix(s, sep, co);
  }

  /** A byte that is not a separator extends the token being read. */
  lemma ProgressPlain(s: seq<byte>, sep: seq<byte>, co: nat, start: nat, coArg: nat, mem: seq<byte>)
    requires Progress(s, sep, co, start, coArg, mem) && co < |s| && s[co] !in sep
    ensures Progress(s, sep, co + 1, start, coArg, mem)
  {
    var tp := Tokens(s[..co], sep);
    var tq := Tokens(s[..co + 1], sep);
    TokensStep(s, sep, co);
    assert tq == tp[..coArg] + [tp[coArg] + [s[co]]];
    assert tq[coArg] == s[start..co + 1] by {
      assert s[start..co + 1] == s[start..co] + [s[co]];
    }
    forall k | 0 <= k < coArg ensures CStr(Slot(mem, k)) == tq[k] {
      assert tq[k] == tp[k];
    }
  }

  /** A separator closes the token being read once it is in its slot: a
      new, empty token starts after it. */
  lemma ProgressNext(s: seq<byte>, sep: seq<byte>, co: nat, start: nat, coArg: nat, mem: seq<byte>, mem2: seq<byte>)
    requires SplitFits(s, sep) && Progress(s, sep, co, start, coArg, mem)
    requires co < |s| && s[co] in sep
    requires |mem2| == ARGV_BYTES && SlotsTerminated(mem2)
    requires CStr(Slot(mem2, coArg)) == s[start..co]
    requires forall j :: 0 <= j < CLI_ARGS_BUF_SIZE && j != coArg ==> Slot(mem2, j) == Slot(mem, j)
    ensures Progress(s, sep, co + 1, co + 1, coArg + 1, mem2)
  {
    var tp := Tokens(s[..co], sep);
    TokensStep(s, sep, co);
    var tq := Tokens(s[..co + 1], sep);
    assert tq == tp + [[]];
    NextSlotExists(s, sep, co);
    assert tq[coArg + 1] == s[co + 1..co + 1];
    forall k | 0 <= k < coArg + 1 ensures CStr(Slot(mem2, k)) == tq[k] {
      if k < coArg {
        assert Slot(mem2, k) == Slot(mem, k);
        assert tq[k] == tp[k];
      } else {
        assert tq[k] == tp[coArg];
      }
    }
  }

  /** The tokens of a prefix of a string that fits are no more than slots. */
  lemma NextSlotExists(s: seq<byte>, sep: seq<byte>, co: nat)
    requires SplitFits(s, sep) && co < |s|
    ensures |Tokens(s[..co + 1], sep)| <= CLI_ARGS_BUF_SIZE
  {
    TokensOfPrefix(s, sep, co + 1);
  }

  /** The end of the string closes the last token once it is in its slot:
      all tokens of `s` are in their slots. */
  lemma ProgressEnd(s: seq<byte>, sep: seq<byte>, start: nat, coArg: nat, mem: seq<byte>, mem2: seq<byte>)
    requires Progress(s, sep, |s|, start, coArg, mem)
    requires |mem2| == ARGV_BYTES && SlotsTerminated(mem2)
    requires CStr(Slot(mem2, coArg)) == s[start..]
    requires forall j :: 0 <= j < CLI_ARGS_BUF_SIZE && j != coArg ==> Slot(mem2, j) == Slot(mem, j)
    ensures coArg + 1 == |Tokens(s, sep)|
    ensures forall k :: 0 <= k <= coArg ==> CStr(Slot(mem2, k)) == Tokens(s, sep)[k]
  {
    assert s[..|s|] == s;
    var tp := Tokens(s, sep);
    forall k | 0 <= k <= coArg ensures CStr(Slot(mem2, k)) == tp[k] {
      if k < coArg { assert Slot(mem2, k) == Slot(mem, k); }
    }
  }

  /** A step of the tokenizer: the tokens of one more byte of a line. */
  lemma TokensStep(s: seq<byte>, sep: seq<byte>, co: nat)
    requires co < |s|
    ensures var t := Tokens(s[..co], sep);
            Tokens(s[..co + 1], sep) ==
              if s[co] in sep then t + [[]] else t[..|t| - 1] + [t[|t| - 1] + [s[co]]]
  {
    assert s[..co + 1][..co] == s[..co];
  }

  // ------------------------------------------------------- built-in commands

  const HELP_NAME: seq<byte> := [0x68, 0x65, 0x6C, 0x70, NUL]                        // "help"
  const WELCOME_NAME: seq<byte> := [0x77, 0x65, 0x6C, 0x63, 0x6F, 0x6D, 0x65, NUL]   // "welcome"
  const BOOTTIME_NAME: seq<byte> := [0x62, 0x6F, 0x6F, 0x74, 0x74, 0x69, 0x6D, 0x65, NUL] // "boottime"
  const REBOOT_NAME: seq<byte> := [0x72, 0x65, 0x62, 0x6F, 0x6F, 0x74, NUL]          // "reboot"
  const LOGLEVEL_NAME: seq<byte> := [0x6C, 0x6F, 0x67, 0x6C, 0x65, 0x76, 0x65, 0x6C, NUL] // "loglevel"

  /** "help by CLI command" */
  const HELP_DESCR: seq<byte> := [0x68, 0x65, 0x6C, 0x70, 0x20, 0x62, 0x79, 0x20, 0x43, 0x4C, 0x49, 0x20, 0x63, 0x6F, 0x6D, 0x6D, 0x61, 0x6E, 0x64, NUL]
  /** "CLI welcome message" */
  const WELCOME_DESCR: seq<byte> := [0x43, 0x4C, 0x49, 0x20, 0x77, 0x65, 0x6C, 0x63, 0x6F, 0x6D, 0x65, 0x20, 0x6D, 0x65, 0x73, 0x73, 0x61, 0x67, 0x65, NUL]
  /** "System BootTime" */
  const BOOTTIME_DESCR: seq<byte> := [0x53, 0x79, 0x73, 0x74, 0x65, 0x6D, 0x20, 0x42, 0x6F, 0x6F, 0x74, 0x54, 0x69, 0x6D, 0x65, NUL]
  /** "reboot MCU" */
  const REBOOT_DESCR: seq<byte> := [0x72, 0x65, 0x62, 0x6F, 0x6F, 0x74, 0x20, 0x4D, 0x43, 0x55, NUL]
  /** "for set LogLevel output" */
  const LOGLEVEL_DESCR: seq<byte> := [0x66, 0x6F, 0x72, 0x20, 0x73, 0x65, 0x74, 0x20, 0x4C, 0x6F, 0x67, 0x4C, 0x65, 0x76, 0x65, 0x6C, 0x20, 0x6F, 0x75, 0x74, 0x70, 0x75, 0x74, NUL]

  /** `help_cmd`: lists the commands; the listing is output only. */
  function HelpCmd(args: seq<seq<byte>>): (r: CliResult)
    ensures r == Ok
  {
    Ok
  }

  /** `print_cli_w`: prints the banner. */
  function WelcomeCmd(args: seq<seq<byte>>): (r: CliResult)
    ensures r == Ok
  {
    Ok
  }

  /** `sys_uptime`: the time is printed by the dispatcher's print mode. */
  function UptimeCmd(args: seq<seq<byte>>): (r: CliResult)
    ensures r == Ok
  {
    Ok
  }

  /** `reboot_mcu`: the reset itself is hardware. */
  function RebootCmd(args: seq<seq<byte>>): (r: CliResult)
    ensures r == Ok
  {
    Ok
  }

  /** The level `set_loglevel` selects: 0xFF for an empty first argument,
      else the argument parsed in base 10, truncated to `uint32_t` and then
      to `uint8_t`. */
  function LogLevelOf(strtol: Strtol, args: seq<seq<byte>>): (level: nat)
    ensures level < 256
    ensures |args| >= 2 && args[1] != [] ==> level == U32(strtol(args[1], 10)) % 256
  {
    if |args| < 2 || args[1] == [] then 0xFF else U32(strtol(args[1], 10)) % 256
  }

  /** `set_loglevel`: levels 1 to 6 are accepted, anything else is an
      argument error. */
  function SetLogLevel(strtol: Strtol, args: seq<seq<byte>>): (r: CliResult)
    ensures r == Ok || r == ArgErr
    ensures r == Ok <==> 1 <= LogLevelOf(strtol, args) <= 6
  {
    var level := LogLevelOf(strtol, args);
    if 1 <= level <= 6 then Ok else ArgErr
  }

  /** An empty argument never selects a level, and the level wraps modulo
      256: an argument parsing to 259 selects level 3. */
  lemma SetLogLevelWraps(strtol: Strtol, a: seq<byte>)
    requires a != []
    requires Terminated(LOGLEVEL_NAME)
    ensures SetLogLevel(strtol, [CStr(LOGLEVEL_NAME), []]) == ArgErr
    ensures strtol(a, 10) == 259 ==> LogLevelOf(strtol, [CStr(LOGLEVEL_NAME), a]) == 3
  {
  }

  /** The commands `cli_init` registers, in order; `loglevel` is present as
      the configuration sets `DEBUG` to 1. */
  function Builtins(strtol: Strtol): (t: seq<Cmd>)
    ensures |t| == 5
  {
    [ Cmd(HelpCmd, HELP_NAME, 0, PRINT_NONE, HELP_DESCR),
      Cmd(WelcomeCmd, WELCOME_NAME, 0, PRINT_NONE, WELCOME_DESCR),
      Cmd(UptimeCmd, BOOTTIME_NAME, 0, PRINT_START_TIME, BOOTTIME_DESCR),
      Cmd(RebootCmd, REBOOT_NAME, 0, PRINT_NONE, REBOOT_DESCR),
      Cmd(args => SetLogLevel(strtol, args), LOGLEVEL_NAME, 1, PRINT_NONE, LOGLEVEL_DESCR) ]
  }

  /** The strings the built-in names hold. */
  lemma BuiltinNames()
    ensures Terminated(HELP_NAME) && CStr(HELP_NAME) == HELP_NAME[..4]
    ensures Terminated(WELCOME_NAME) && CStr(WELCOME_NAME) == WELCOME_NAME[..7]
    ensures Terminated(BOOTTIME_NAME) && CStr(BOOTTIME_NAME) == BOOTTIME_NAME[..8]
    ensures Terminated(REBOOT_NAME) && CStr(REBOOT_NAME) == REBOOT_NAME[..6]
    ensures Terminated(LOGLEVEL_NAME) && CStr(LOGLEVEL_NAME) == LOGLEVEL_NAME[..8]
  {
    CStrOf(HELP_NAME, 4);
    CStrOf(WELCOME_NAME, 7);
    CStrOf(BOOTTIME_NAME, 8);
    CStrOf(REBOOT_NAME, 6);
    CStrOf(LOGLEVEL_NAME, 8);
  }

  /** The names `cli_init` registers, in order. */
  const BUILTIN_NAMES: seq<seq<byte>> := [HELP_NAME, WELCOME_NAME, BOOTTIME_NAME, REBOOT_NAME, LOGLEVEL_NAME]

  /** The built-in names are non-empty strings, pairwise different and
      shorter than the line. */
  lemma BuiltinNamesDistinct()
    ensures forall i :: 0 <= i < 5 ==> Terminated(BUILTIN_NAMES[i])
    ensures forall i :: 0 <= i < 5 ==> 0 < StrLen(Some(BUILTIN_NAMES[i])) < CLI_CMD_BUF_SIZE
    ensures forall i, j :: 0 <= i < j < 5 ==> CStr(BUILTIN_NAMES[i]) != CStr(BUILTIN_NAMES[j])
  {
    var n := BUILTIN_NAMES;
    BuiltinNames();
    var lens := [4, 7, 8, 6, 8];
    forall i | 0 <= i < 5 ensures Terminated(n[i]) && |CStr(n[i])| == lens[i] {
    }
    forall i, j | 0 <= i < j < 5 ensures CStr(n[i]) != CStr(n[j]) {
      if i == 2 && j == 4 {
        assert CStr(n[i])[0] != CStr(n[j])[0];
      } else {
        assert lens[i] != lens[j];
      }
    }
  }

  /** The built-in names are non-empty, different from each other and short
      enough to be completed on the line. */
  lemma BuiltinsValid(strtol: Strtol)
    ensures var t := Builtins(strtol);
            RegistryValid(t) && NamesFitLine(t)
            && forall i :: 0 <= i < |t| ==> t[i].mode < 0x1_0000
  {
    var t := Builtins(strtol);
    BuiltinNamesDistinct();
    assert forall i :: 0 <= i < 5 ==> t[i].name == BUILTIN_NAMES[i];
  }

  /** A word without blanks is a single token. */
  lemma PlainWordToken(u: seq<byte>)
    requires SPACE !in u
    ensures Tokens(u, [SPACE]) == [u]
  {
    forall j | 0 <= j < |u| ensures u[j] !in [SPACE] {
      assert u[j] in u;
    }
    TokensOfPlain(u, [SPACE]);
  }

  /** A word without blanks longer than `CLI_ARG_SIZE` does not fit the
      slots of `CLI_ARG_SIZE + 1` bytes that `cli_init` allocates: `_split`
      writes past the slot. */
  lemma LongWordOverflows(u: seq<byte>)
    requires |u| > CLI_ARG_SIZE && SPACE !in u
    ensures !SplitFitsIn(u, [SPACE], CLI_ARG_SIZE)
  {
    PlainWordToken(u);
    assert |Tokens(u, [SPACE])[0]| > CLI_ARG_SIZE;
  }

  /** Typed at the prompt, these built-in names are longer than the
      argument slots `cli_init` allocates. */
  lemma LongNamesOverflowSlot(strtol: Strtol)
    ensures var t := Builtins(strtol);
            !SplitFitsIn(CStr(t[1].name), [SPACE], CLI_ARG_SIZE)
            && !SplitFitsIn(CStr(t[2].name), [SPACE], CLI_ARG_SIZE)
            && !SplitFitsIn(CStr(t[4].name), [SPACE], CLI_ARG_SIZE)
  {
    BuiltinNames();
    LongWordOverflows(WELCOME_NAME[..7]);
    LongWordOverflows(BOOTTIME_NAME[..8]);
    LongWordOverflows(LOGLEVEL_NAME[..8]);
  }

  /** With slots of `SLOT_BYTES`, every built-in name typed alone at the
      prompt fits, so `_split` stays in bounds for it. */
  lemma BuiltinNamesFitSlot(strtol: Strtol)
    ensures var t := Builtins(strtol);
            SplitFits(CStr(t[0].name), [SPACE]) && SplitFits(CStr(t[1].name), [SPACE])
            && SplitFits(CStr(t[2].name), [SPACE]) && SplitFits(CStr(t[3].name), [SPACE])
            && SplitFits(CStr(t[4].name), [SPACE])
  {
    BuiltinNames();
    WordFitsSlot(HELP_NAME[..4]);
    WordFitsSlot(WELCOME_NAME[..7]);
    WordFitsSlot(BOOTTIME_NAME[..8]);
    WordFitsSlot(REBOOT_NAME[..6]);
    WordFitsSlot(LOGLEVEL_NAME[..8]);
  }

  /** A word without blanks that is no longer than a slot fits one. */
  lemma WordFitsSlot(u: seq<byte>)
    requires |u| <= SLOT_CHARS && SPACE !in u
    ensures SplitFits(u, [SPACE])
  {
    PlainWordToken(u);
  }

  /** The tokens of a string without NUL hold no NUL. */
  lemma TokensNoNul(s: seq<byte>, sep: seq<byte>)
    requires NoNul(s)
    ensures forall k :: 0 <= k < |Tokens(s, sep)| ==> NoNul(Tokens(s, sep)[k])
  {
    TokensShape(s, sep);
  }

  /** `ExecuteString` on a line: `_execute_cli_cmd` on its blank-separated
      words. The command run is the first one named by the first word, and
      it accepts one argument more than the line has blanks; a line always
      has a first word, so it is never refused for having none. */
  function ExecuteLine(t: seq<Cmd>, line: seq<byte>): (d: Dispatch)
    requires NamesTerminated(t) && NoNul(line)
    ensures d != Refused(ArgErr) || exists j :: 0 <= j < |t| && CStr(t[j].name) == Tokens(line, [SPACE])[0]
    ensures d == Refused(NotFound) <==> forall i :: 0 <= i < |t| ==> CStr(t[i].name) != Tokens(line, [SPACE])[0]
    ensures d.Ran? ==> d.index < |t| && CStr(t[d.index].name) == Tokens(line, [SPACE])[0]
                       && SPACE !in CStr(t[d.index].name)
                       && ArgcAccepted(t[d.index].argc, 1 + Occurrences(line, [SPACE]))
  {
    TokensNoNul(line, [SPACE]);
    TokensShape(line, [SPACE]);
    var w := Tokens(line, [SPACE]);
    assert forall j :: 0 <= j < |w[0]| ==> w[0][j] !in [SPACE];
    Execute(t, w)
  }

  /** Dispatching on the strings of the slots is dispatching on the first
      slot itself. */
  lemma ExecuteBySlot(t: seq<Cmd>, slot: seq<byte>, args: seq<seq<byte>>)
    requires NamesTerminated(t) && Terminated(slot) && |args| > 0 && args[0] == CStr(slot)
    ensures var f := FindCommand(t, slot);
            Execute(t, args) == if f.None? then Refused(NotFound)
                                else if !ArgcAccepted(t[f.value].argc, |args|) then Refused(ArgErr)
                                else Ran(f.value)
  {
    var key := args[0] + [NUL];
    CStrOf(key, |args[0]|);
    assert key[..|args[0]|] == args[0];
    FindCommandSameStr(t, slot, key);
  }

  /** The string the corrected tab key refreshes: the name and a blank. */
  lemma CompletedName(name: seq<byte>)
    requires Terminated(name)
    ensures var n := name[..StrLen(Some(name))] + [SPACE, NUL];
            Terminated(n) && CStr(n) == CStr(name) + [SPACE] && StrLen(Some(n)) == StrLen(Some(name)) + 1
  {
    var len := StrLen(Some(name));
    var n := name[..len] + [SPACE, NUL];
    assert NoNul(n[..len + 1]) by {
      assert n[..len + 1] == CStr(name) + [SPACE];
    }
    CStrOf(n, len + 1);
  }

  /** `strcat(Main, " ")` after the name and its NUL were copied into
      Main: the name and a blank, then a NUL. */
  lemma BlankOverNul(d0: seq<byte>, d1: seq<byte>, d2: seq<byte>, name: seq<byte>)
    requires Terminated(name) && StrLen(Some(name)) + 2 <= |d0|
    requires var len := StrLen(Some(name));
             d1 == name[..len + 1] + d0[len + 1..] && d2 == d1[len := SPACE][len + 1 := NUL]
    ensures var len := StrLen(Some(name));
            d2[..len + 1] == CStr(name) + [SPACE] && NoNul(d2[..len + 1])
  {
    var len := StrLen(Some(name));
    assert d2[..len + 1] == CStr(name) + [SPACE] by {
      assert d2[..len] == name[..len];
    }
    assert NoNul(CStr(name) + [SPACE]) by {
      assert (CStr(name) + [SPACE])[len] == SPACE;
    }
  }

  /** Of the built-in names only "help" starts with 'h'. */
  lemma OnlyHelpStartsWithH(strtol: Strtol)
    ensures var t := Builtins(strtol);
            NamesTerminated(t) && CStr(t[0].name) == HELP_NAME[..4]
            && forall k :: 0 < k < |t| ==> |CStr(t[k].name)| > 0 && CStr(t[k].name)[0] != 0x68
  {
    var t := Builtins(strtol);
    BuiltinsValid(strtol);
    BuiltinNames();
    assert forall i :: 0 <= i < 5 ==> t[i].name == BUILTIN_NAMES[i];
  }

  /** The built-in lookup of a word starting with 'h': "help" if the two
      are compatible, otherwise nothing. */
  lemma LookupStartingWithH(strtol: Strtol, w: seq<byte>)
    requires Terminated(w) && StrLen(Some(w)) < 256 && |CStr(w)| > 0 && CStr(w)[0] == 0x68
    ensures NamesTerminated(Builtins(strtol))
    ensures FindPartTerm(Builtins(strtol), w) == if PrefixCompatible(HELP_NAME[..4], CStr(w)) then Some(0) else None
  {
    var t := Builtins(strtol);
    OnlyHelpStartsWithH(strtol);
    forall k | 0 < k < |t| ensures !Compatible(t, w, k) {
      assert CStr(t[k].name)[0] != CStr(w)[0];
    }
    LookupOnlyFirst(t, w);
  }

  /** A word compatible with no entry but the first finds the first if it
      is compatible with that, and nothing otherwise. */
  lemma LookupOnlyFirst(t: seq<Cmd>, w: seq<byte>)
    requires NamesTerminated(t) && |t| > 0 && Terminated(w) && StrLen(Some(w)) < 256
    requires forall k :: 0 < k < |t| ==> !Compatible(t, w, k)
    ensures FindPartTerm(t, w) == if Compatible(t, w, 0) then Some(0) else None
  {
    var r := FindPartTerm(t, w);
    if Compatible(t, w, 0) {
      assert r.Some?;
    } else {
      assert r.None?;
    }
  }

  /** The tab key as written looks up a stale word. The line "hxyz" is
      replaced from the history by "he" (`cli_input_refresh` copies "he"
      without its NUL), so Main holds "heyz" up to its first NUL while the
      line is "he": the corrected lookup completes "help ", the one as
      written finds nothing. */
  lemma StaleWordMissesCompletion(strtol: Strtol)
    ensures var t := Builtins(strtol);
            var d0: seq<byte> := [0x68, 0x78, 0x79, 0x7A, NUL];
            var e: seq<byte> := [0x68, 0x65];
            var d1 := e + d0[|e|..];
            NamesTerminated(t) && Terminated(d1) && StrLen(Some(d1)) == 4
            && Completion(t, e) == Some(HELP_NAME[..4] + [SPACE])
            && FindPartTerm(t, d1) == None
  {
    var d0: seq<byte> := [0x68, 0x78, 0x79, 0x7A, NUL];
    var e: seq<byte> := [0x68, 0x65];
    var d1 := e + d0[|e|..];
    assert d1 == [0x68, 0x65, 0x79, 0x7A, NUL];
    CStrOf(d1, 4);
    assert !PrefixCompatible(HELP_NAME[..4], CStr(d1)) by {
      assert HELP_NAME[..4][2] != CStr(d1)[2];
    }
    LookupStartingWithH(strtol, d1);
    assert e == HELP_NAME[..4][..2];
    CompletesToHelp(strtol, e);
  }

  /** A line compatible with "help" (a part of it, or "help" and more),
      with no NUL and not ending in a blank, completes to "help ". */
  lemma CompletesToHelp(strtol: Strtol, s: seq<byte>)
    requires 0 < |s| <= CLI_CMD_BUF_SIZE && NoNul(s) && s[|s| - 1] != SPACE
    requires PrefixCompatible(HELP_NAME[..4], s)
    ensures NamesTerminated(Builtins(strtol))
    ensures Completion(Builtins(strtol), s) == Some(HELP_NAME[..4] + [SPACE])
  {
    BuiltinNames();
    assert s[0] == HELP_NAME[0];
    var w := s + [NUL];
    CStrOf(w, |s|);
    assert CStr(w) == s;
    LookupStartingWithH(strtol, w);
  }

  /** Redrawing a line over a longer one leaves the old line's tail on
      the screen. */
  lemma RedrawOverLonger(s: seq<byte>, n: seq<byte>, col: nat)
    requires Glyphs(n) && |n| < |s|
    ensures Run(Screen(PROMPT + s, col), RedrawEcho(n)) == Screen(PROMPT + n + s[|n|..], |PROMPT| + |n|)
  {
    var sc := Screen(PROMPT + s, col);
    assert RedrawEcho(n) == [KEY_ENTER] + (PROMPT + n);
    assert Glyphs(PROMPT + n) by {
      forall i | 0 <= i < |PROMPT + n| ensures (PROMPT + n)[i] != KEY_ENTER && (PROMPT + n)[i] != KEY_BACKSPACE {
        if i >= |PROMPT| {
          assert (PROMPT + n)[i] == n[i - |PROMPT|];
        }
      }
    }
    RunReturnGlyphs(sc, PROMPT + n);
    assert Overwrite(sc.line, 0, PROMPT + n) == PROMPT + n + s[|n|..];
  }

  /** The tab key as written redraws the completion over the old line
      without blanking the rest: ">> helpxy", which `CompletesToHelp`
      completes to "help ", then shows ">> help y", so the screen no longer
      shows the line. This holds for every line "help" + `tail` whose second
      byte of `tail` is not a blank. */
  lemma CompletionRedrawLeavesGlyphs(tail: seq<byte>)
    requires 2 <= |tail| && tail[1] != SPACE
    ensures var s := HELP_NAME[..4] + tail;
            var n := HELP_NAME[..4] + [SPACE];
            var sc := Screen(PROMPT + s, |PROMPT| + |s|);
            Shows(sc, s, |s|)
            && Run(sc, RedrawEcho(n)) == Screen(PROMPT + n + tail[1..], |PROMPT| + |n|)
            && !Shows(Run(sc, RedrawEcho(n)), n, |n|)
  {
    var s := HELP_NAME[..4] + tail;
    var n := HELP_NAME[..4] + [SPACE];
    assert n == [0x68, 0x65, 0x6C, 0x70, SPACE];
    RedrawOverLonger(s, n, |PROMPT| + |s|);
    assert s[|n|..] == tail[1..];
    var r := PROMPT + n + tail[1..];
    assert r[|PROMPT| + |n|] == tail[1];
  }

  /** The zero-initialised argument buffer: every slot holds "". */
  method NewArgv() returns (a: array<byte>)
    ensures fresh(a) && a.Length == ARGV_BYTES && SlotsTerminated(a[..])
  {
    a := new byte[ARGV_BYTES](_ => NUL);
    ZeroSlots(a[..]);
  }

  /** The command table before any registration. */
  method NewTable() returns (c: array<Cmd>)
    ensures fresh(c) && c.Length == CLI_SIZE_MAX_CMD
    ensures forall i :: 0 <= i < c.Length ==> Terminated(c[i].name) && CStr(c[i].name) == []
  {
    c := new Cmd[CLI_SIZE_MAX_CMD](_ => Cmd(HelpCmd, [NUL], 0, PRINT_NONE, [NUL]));
  }

  /** The line editor at start-up: no line, nothing echoed. */
  method NewInput() returns (i: Input)
    ensures fresh(i) && fresh(i.main) && fresh(i.transit) && fresh(i.symbols)
    ensures fresh(i.main.data) && fresh(i.transit.data) && fresh(i.symbols.slots)
    ensures i.Valid() && i.Line() == [] && i.main.cursor == 0 && i.echo == []
  {
    i := new Input.Init();
  }

  /** The history at start-up: empty, the cursor on the first row. */
  method NewLog() returns (l: Log)
    ensures fresh(l) && fresh(l.cmds) && l.Valid() && l.Entries() == [] && l.cur == 0
  {
    l := new Log.Init();
  }

  /** `CLI_State_s` with the interrupt latch, the line editor and the
      history. */
  class Cli {
    const cmds: array<Cmd>
    var countCommand: nat
    var argc: nat
    const argv: array<byte>
    var isEntered: bool
    var firstIn: bool
    var interrupt: bool
    const input: Input
    const log: Log

    /** `cli_init`, with the zero-initialised statics: the built-in
        commands registered, no line, no history, no argument. */
    constructor Init(strtol: Strtol)
      ensures Valid() && fresh(input) && fresh(log) && fresh(argv) && fresh(cmds)
      ensures Table() == Builtins(strtol) && argc == 0
      ensures !isEntered && !firstIn && !interrupt
      ensures input.Line() == [] && input.main.cursor == 0 && input.echo == []
      ensures log.Entries() == [] && log.cur == 0
    {
      var c := NewTable();
      var a := NewArgv();
      var i := NewInput();
      var l := NewLog();
      cmds, argv, input, log := c, a, i, l;
      countCommand := 0;
      argc := 0;
      isEntered := false;
      firstIn := false;
      interrupt := false;
      new;
      RegisterBuiltins(strtol);
    }

    /** The registrations of `cli_init`, all of which succeed. */
    method RegisterBuiltins(strtol: Strtol)
      requires Valid() && countCommand == 0
      modifies this`countCommand, cmds
      ensures Valid() && Table() == Builtins(strtol)
      ensures argc == old(argc) && isEntered == old(isEntered) && firstIn == old(firstIn) && interrupt == old(interrupt)
      ensures input.Line() == old(input.Line()) && input.main.cursor == old(input.main.cursor) && input.echo == old(input.echo)
      ensures log.Entries() == old(log.Entries()) && log.cur == old(log.cur)
    {
      BuiltinsValid(strtol);
      Register(Builtins(strtol));
    }

    /** The `cli_add_new_cmd` calls of `cli_init`: a list of distinct
        commands registered one by one into an empty table is the table. */
    method Register(b: seq<Cmd>)
      requires RegistryOk() && countCommand == 0 && |b| <= CLI_SIZE_MAX_CMD
      requires RegistryValid(b) && forall i :: 0 <= i < |b| ==> b[i].mode < 0x1_0000
      modifies this`countCommand, cmds
      ensures RegistryOk() && Table() == b
    {
      var i := 0;
      while i < |b|
        invariant i <= |b| && RegistryOk() && Table() == b[..i]
      {
        assert forall j :: 0 <= j < i ==> CStr(Table()[j].name) != CStr(b[i].name);
        var r := AddNewCmd(Some(b[i].name), Some(b[i].fcn), b[i].argc, b[i].mode, b[i].description);
        assert b[..i] + [b[i]] == b[..i + 1];
        i := i + 1;
      }
    }

    ghost predicate ArgsValid()
      reads this`argc, argv
    {
      argv.Length == ARGV_BYTES && argc <= CLI_ARGS_BUF_SIZE && SlotsTerminated(argv[..])
    }

    /** The registry: at most `CLI_SIZE_MAX_CMD` distinct, non-empty names. */
    ghost predicate RegistryOk()
      reads this`countCommand, cmds
    {
      cmds.Length == CLI_SIZE_MAX_CMD && countCommand <= CLI_SIZE_MAX_CMD
      && RegistryValid(cmds[..countCommand])
    }

    ghost predicate Valid()
      reads this`countCommand, this`argc, cmds, argv, input, input.main, input.transit, input.main.data, input.transit.data
      reads input.symbols, log, log.cmds
    {
      RegistryOk() && ArgsValid()
      && argv != input.main.data && argv != input.transit.data && argv != input.symbols.slots
      && input.Valid() && log.Valid()
    }

    /** The registered commands, in registration order. */
    function Table(): (t: seq<Cmd>)
      reads this`countCommand, cmds
      requires cmds.Length == CLI_SIZE_MAX_CMD && countCommand <= CLI_SIZE_MAX_CMD
      ensures |t| == countCommand
    {
      cmds[..countCommand]
    }

    /** The argument slots in use. */
    function Slots(): (r: seq<seq<byte>>)
      reads this`argc, argv
      requires ArgsValid()
      ensures |r| == argc
      ensures forall k :: 0 <= k < argc ==> r[k] == Slot(argv[..], k) && Terminated(r[k])
    {
      var n, mem := argc, argv[..];
      seq(n, k requires 0 <= k < n => Slot(mem, k))
    }

    /** The strings in the argument slots in use. */
    function Args(): (r: seq<seq<byte>>)
      reads this`argc, argv
      requires ArgsValid()
      ensures |r| == argc
      ensures forall k :: 0 <= k < argc ==> r[k] == CStr(Slots()[k])
    {
      var sl := Slots();
      seq(|sl|, k requires 0 <= k < |sl| => CStr(sl[k]))
    }

    /** `cli_add_new_cmd`: refused when the table is full, the handler is
        NULL, the name is empty (or NULL) or already registered, in that
        order; appended otherwise. */
    method AddNewCmd(name: Option<seq<byte>>, fcn: Option<Handler>, argc: byte, mode: nat, descr: seq<byte>)
      returns (r: AddResult)
      requires RegistryOk()
      requires name.Some? ==> Terminated(name.value)
      requires mode < 0x1_0000
      modifies this`countCommand, cmds
      ensures RegistryOk()
      ensures old(countCommand) >= CLI_SIZE_MAX_CMD ==> r == MaxCmd
      ensures old(countCommand) < CLI_SIZE_MAX_CMD && fcn.None? ==> r == FcnNull
      ensures old(countCommand) < CLI_SIZE_MAX_CMD && fcn.Some? && StrLen(name) == 0 ==> r == EmptyName
      ensures old(countCommand) < CLI_SIZE_MAX_CMD && fcn.Some? && StrLen(name) > 0
              && (exists i :: 0 <= i < old(countCommand) && CStr(old(Table())[i].name) == CStr(name.value))
              ==> r == RetryName
      ensures old(countCommand) < CLI_SIZE_MAX_CMD && fcn.Some? && StrLen(name) > 0
              && (forall i :: 0 <= i < old(countCommand) ==> CStr(old(Table())[i].name) != CStr(name.value))
              ==> r == AddOk
      ensures r == AddOk ==> name.Some? && fcn.Some?
                             && Table() == old(Table()) + [Cmd(fcn.value, name.value, argc, mode, descr)]
      ensures r != AddOk ==> countCommand == old(countCommand) && cmds[..] == old(cmds[..])
    {
      if countCommand >= CLI_SIZE_MAX_CMD {
        return MaxCmd;
      }
      if fcn.None? {
        return FcnNull;
      }
      if StrLen(name) == 0 {
        return EmptyName;
      }
      var taken := NameTaken(name.value);
      if taken {
        return RetryName;
      }
      r := AddOk;
      Append(Cmd(fcn.value, name.value, argc, mode, descr));
    }

    /** The duplicate search of `cli_add_new_cmd`: is the name registered? */
    method NameTaken(name: seq<byte>) returns (taken: bool)
      requires RegistryOk() && Terminated(name)
      ensures taken <==> exists i :: 0 <= i < countCommand && CStr(Table()[i].name) == CStr(name)
    {
      var i := 0;
      while i < countCommand
        invariant i <= countCommand
        invariant forall k :: 0 <= k < i ==> CStr(cmds[k].name) != CStr(name)
      {
        if StrCmp(Some(cmds[i].name), Some(name)) == 1 {
          assert CStr(Table()[i].name) == CStr(name);
          return true;
        }
        i := i + 1;
      }
      return false;
    }

    /** The store of `cli_add_new_cmd`: a new name goes after the others. */
    method Append(c: Cmd)
      requires RegistryOk() && countCommand < CLI_SIZE_MAX_CMD
      requires Terminated(c.name) && StrLen(Some(c.name)) > 0
      requires forall i :: 0 <= i < countCommand ==> CStr(Table()[i].name) != CStr(c.name)
      modifies this`countCommand, cmds
      ensures RegistryOk() && Table() == old(Table()) + [c]
    {
      ghost var t := Table();
      cmds[countCommand] := c;
      countCommand := countCommand + 1;
      assert Table() == t + [c];
    }

    /** `_split`: one token per separator byte plus one; token `k` lands in
        slot `k`. With an empty separator no slot is written. */
    method Split(str: seq<byte>, sep: seq<byte>)
      requires ArgsValid()
      requires Terminated(str) && Terminated(sep) && StrLen(Some(str)) < 256
      requires |CStr(sep)| > 0 ==> SplitFits(CStr(str), CStr(sep))
      modifies this`argc, argv
      ensures ArgsValid()
      ensures argc == CountSeparator(str, sep) == |Tokens(CStr(str), CStr(sep))|
      ensures |CStr(sep)| > 0 ==> Args() == Tokens(CStr(str), CStr(sep))
      ensures |CStr(sep)| == 0 ==> argv[..] == old(argv[..])
      ensures forall k :: argc <= k < CLI_ARGS_BUF_SIZE ==> Slot(argv[..], k) == old(Slot(argv[..], k))
    {
      ghost var s := CStr(str);
      ghost var sepS := CStr(sep);
      ghost var T := Tokens(s, sepS);
      TokensShape(s, sepS);
      if |sepS| == 0 {
        TokensOfPlain(s, sepS);
      }
      var countSep := CountSeparator(str, sep);
      argc := countSep;
      ScanTokens(str, sep, argv);
      if |sepS| > 0 {
        forall k | 0 <= k < argc ensures Args()[k] == T[k] {
          assert Args()[k] == CStr(Slot(argv[..], k));
        }
      }
    }

    /** `_execute_cli_cmd` over the slots in use, as `Execute` describes:
        the refusal, or the result of the handler applied to the argument
        strings. */
    method ExecuteCmd() returns (r: CliResult)
      requires Valid()
      ensures var d := Execute(Table(), Args());
              (d.Refused? ==> r == d.result) && (d.Ran? ==> r == Table()[d.index].fcn(Args()))
    {
      var args := Args();
      ghost var d := Execute(Table(), args);
      if argc < 1 {
        assert d == Refused(ArgErr);
        return ArgErr;
      }
      var found := FindCommand(Table(), Slot(argv[..], 0));
      ExecuteBySlot(Table(), Slot(argv[..], 0), args);
      if found.None? {
        assert d == Refused(NotFound);
        return NotFound;
      }
      var cmd := cmds[found.value];
      if cmd.argc != 0 {
        if argc - 1 < cmd.argc as int || argc - 1 != cmd.argc as int {
          assert d == Refused(ArgErr);
          return ArgErr;
        }
      }
      assert d == Ran(found.value);
      r := cmd.fcn(args);
    }

    /** `ExecuteString`: splits the string at blanks into the slots,
        dispatches, and clears the argument count. */
    method ExecuteString(str: seq<byte>) returns (r: CliResult)
      requires Valid()
      requires Terminated(str) && StrLen(Some(str)) < 256 && SplitFits(CStr(str), [SPACE])
      modifies this`argc, argv
      ensures Valid() && argc == 0
      ensures var words := Tokens(CStr(str), [SPACE]);
              forall k :: 0 <= k < |words| ==> CStr(Slot(argv[..], k)) == words[k]
      ensures var d := ExecuteLine(Table(), CStr(str));
              (d.Refused? ==> r == d.result)
              && (d.Ran? ==> r == Table()[d.index].fcn(Tokens(CStr(str), [SPACE])))
    {
      CStrOf(BLANK, 1);
      assert BLANK[..1] == [SPACE];
      TokensNoNul(CStr(str), [SPACE]);
      ghost var words := Tokens(CStr(str), [SPACE]);
      Split(str, BLANK);
      assert Args() == words;
      r := ExecuteCmd();
      assert ExecuteLine(Table(), CStr(str)) == Execute(Table(), words);
      ClearArgs(words);
    }

    /** The last step of `ExecuteString`: the count goes back to 0 and the
        slots keep the words. */
    method ClearArgs(ghost words: seq<seq<byte>>)
      requires Valid() && Args() == words
      modifies this`argc
      ensures Valid() && argc == 0
      ensures forall k :: 0 <= k < |words| ==> CStr(Slot(argv[..], k)) == words[k]
    {
      assert forall k :: 0 <= k < |words| ==> CStr(Slot(argv[..], k)) == words[k];
      argc := 0;
    }

    /** `cli_loop_service`: executes the line waiting in Transit, once. */
    method LoopService() returns (ran: bool)
      requires Valid()
      requires isEntered ==> SplitFits(CStr(input.transit.data[..]), [SPACE])
      modifies this`argc, argv, this`isEntered
      ensures Valid() && !isEntered && ran == old(isEntered)
      ensures old(isEntered) ==>
                argc == 0
                && var words := Tokens(CStr(input.transit.data[..]), [SPACE]);
                   forall k :: 0 <= k < |words| ==> CStr(Slot(argv[..], k)) == words[k]
      ensures !old(isEntered) ==> argc == old(argc) && argv[..] == old(argv[..])
    {
      if isEntered {
        var r := ExecuteString(input.transit.data[..]);
        isEntered := false;
        return true;
      }
      return false;
    }

    /** `cli_get_int_state`: the interrupt latch, which reading clears. */
    method GetIntState() returns (r: bool)
      modifies this`interrupt
      ensures r == old(interrupt) && !interrupt
    {
      r := interrupt;
      interrupt := false;
    }

    /** `cli_set_first_in_cli` */
    method SetFirstIn(state: bool)
      modifies this`firstIn
      ensures firstIn == state
    {
      firstIn := state;
    }

    // ------------------------------------------------------- key handling

    /** The editor's state as `CliKeys` describes it. */
    ghost function Editing(): (ed: Editor)
      reads input, input.main, input.transit, input.main.data, input.transit.data, input.symbols, log, log.cmds
      requires input.Sound() && log.Valid()
      ensures EditorOk(ed)
    {
      EditingWith(log.Entries(), log.cur)
    }

    /** The editor with the input's line, cursor and echo and the given
        history. */
    ghost function EditingWith(entries: seq<seq<byte>>, cur: nat): (ed: Editor)
      reads input, input.main, input.transit, input.main.data, input.transit.data, input.symbols
      requires input.Sound()
      ensures ed.entries == entries && ed.cur == cur
    {
      Editor(input.Line(), input.main.cursor, input.echo, entries, cur)
    }

    /** `cli_append_char`: the byte goes through the key decoder, and the
        key it completes acts on the editor as `AppendStep` describes. Enter
        on a non-empty line also leaves the line in Transit and raises
        `isEntered` for `cli_loop_service`; escape and the interrupt byte
        raise the interrupt latch. */
    method AppendChar(ch: byte) returns (r: AppendResult)
      requires Valid() && NamesFitLine(Table())
      modifies this`firstIn, this`isEntered, this`interrupt
      modifies input, input.main, input.main.data, input.transit.data, input.symbols, input.symbols.slots
      modifies log, log.cmds
      ensures Valid() && Table() == old(Table())
      ensures input.symbols.Contents() == old(input.symbols.Contents())[1..] + [ch]
      ensures var iv := Classify(KeyOf(input.symbols.Contents(), ch), old(input.main.count));
              var enter := iv.isValid && iv.keyCode == KEY_ENTER;
              Editing() == AppendStep(Table(), iv, old(Editing()))
              && r == AppendOutcome(iv, old(input.Line()))
              && firstIn == (old(firstIn) || enter)
              && isEntered == (old(isEntered) || (enter && old(input.Line()) != []))
              && interrupt == (old(interrupt) || (iv.isValid && (iv.keyCode == KEY_ESCAPE || iv.keyCode == CHAR_INTERRUPT)))
              && (enter && old(input.Line()) != [] ==>
                    Terminated(input.transit.data[..]) && CStr(input.transit.data[..]) == old(input.Line()))
    {
      ghost var ed := Editing();
      var iv := input.PutChar(ch);
      assert Editing() == ed;
      r := OnKey(iv);
    }

    /** What `cli_append_char` does with the decoded key. */
    method OnKey(iv: InputValue) returns (r: AppendResult)
      requires Valid() && NamesFitLine(Table()) && iv == Classify(iv.keyCode, input.main.count)
      modifies this`firstIn, this`isEntered, this`interrupt
      modifies input`echo, input.main, input.main.data, input.transit.data
      modifies log, log.cmds
      ensures Valid() && Table() == old(Table())
      ensures var enter := iv.isValid && iv.keyCode == KEY_ENTER;
              Editing() == AppendStep(Table(), iv, old(Editing()))
              && r == AppendOutcome(iv, old(input.Line()))
              && firstIn == (old(firstIn) || enter)
              && isEntered == (old(isEntered) || (enter && old(input.Line()) != []))
              && interrupt == (old(interrupt) || (iv.isValid && (iv.keyCode == KEY_ESCAPE || iv.keyCode == CHAR_INTERRUPT)))
              && (enter && old(input.Line()) != [] ==>
                    Terminated(input.transit.data[..]) && CStr(input.transit.data[..]) == old(input.Line()))
    {
      if !iv.isValid {
        return AppendBufFull;
      }
      if iv.keyCode == KEY_ENTER {
        r := OnEnter();
        return;
      }
      ApplyKey(iv);
      r := AppendOk;
    }

    /** The enter key of `cli_append_char`. */
    method OnEnter() returns (r: AppendResult)
      requires Valid()
      modifies this`firstIn, this`isEntered, input.main, input.main.data, input.transit.data, log, log.cmds
      ensures Valid() && firstIn
      ensures Editing() == EnterStep(old(Editing()))
      ensures r == (if old(input.Line()) == [] then AppendIgnore else AppendEnter)
      ensures isEntered == (old(isEntered) || old(input.Line()) != [])
      ensures old(input.Line()) != [] ==>
                Terminated(input.transit.data[..]) && CStr(input.transit.data[..]) == old(input.Line())
    {
      // The first enter also prints the welcome banner, which is output only.
      firstIn := true;
      var empty := input.IsEmpty();
      if empty {
        return AppendIgnore;
      }
      isEntered := true;
      Submit();
      r := AppendEnter;
    }

    /** The non-empty line of the enter key goes to Transit and into the
        history, whose cursor is reset, and Main is emptied. */
    method Submit()
      requires Valid() && input.Line() != []
      modifies input.main, input.main.data, input.transit.data, log, log.cmds
      ensures Valid()
      ensures Editing() == EnterStep(old(Editing()))
      ensures Terminated(input.transit.data[..]) && CStr(input.transit.data[..]) == old(input.Line())
    {
      ghost var s := input.Line();
      ghost var h := log.Entries();
      input.Cache();
      CStrOf(input.main.data[..], input.main.count);
      assert CStr(input.main.data[..]) == s;
      Record(input.main.data[..]);
      input.Reset();
      assert CStr(input.transit.data[..]) == s;
    }

    /** `cli_log_cmd_push` of the line, then `cli_log_cur_reset`. */
    method Record(cmd: seq<byte>)
      requires log.Valid()
      requires Terminated(cmd) && |cmd| >= ROW_BYTES && StrLen(Some(cmd)) <= CLI_CMD_BUF_SIZE
      modifies log, log.cmds
      ensures log.Valid() && log.Entries() == Recorded(old(log.Entries()), CStr(cmd))
      ensures log.cur == |log.Entries()|
    {
      log.CmdPush(cmd);
      log.CurReset();
    }

    /** The `switch` of `cli_append_char` for an accepted key other than
        enter. */
    method ApplyKey(iv: InputValue)
      requires Valid() && NamesFitLine(Table()) && iv.keyCode != KEY_ENTER
      requires iv == Classify(iv.keyCode, input.main.count)
      modifies this`interrupt, input`echo, input.main, input.main.data, input.transit.data, log`cur
      ensures input.Valid() && log.Valid()
      ensures Editing() == KeyStep(Table(), iv, old(Editing()))
      ensures interrupt == (old(interrupt) || iv.keyCode == KEY_ESCAPE || iv.keyCode == CHAR_INTERRUPT)
    {
      var c := iv.keyCode;
      if c == KEY_ESCAPE || c == CHAR_INTERRUPT {
        interrupt := true;
      } else if c == KEY_BACKSPACE || c == KEY_DEL {
        EraseKey(iv);
      } else if c == KEY_TAB {
        OnTab();
      } else if c == KEY_DOWN || c == KEY_UP {
        HistoryKey(iv);
      } else if c == KEY_LEFT || c == KEY_RIGHT || c == KEY_HOME || c == KEY_END {
        CursorKey(iv);
      } else if c == KEY_CLEAR_SCR {
      } else {
        TypeKey(iv);
      }
    }

    /** Backspace and delete. */
    method EraseKey(iv: InputValue)
      requires input.Valid() && log.Valid() && (iv.keyCode == KEY_BACKSPACE || iv.keyCode == KEY_DEL)
      modifies input`echo, input.main, input.main.data, input.transit.data
      ensures input.Valid()
      ensures EditingWith(old(log.Entries()), old(log.cur)) == EraseStep(iv, old(Editing()))
    {
      ghost var ed := EditingWith(log.Entries(), log.cur);
      if iv.keyCode == KEY_BACKSPACE {
        input.Backspace();
      } else {
        input.Delete();
      }
      assert EditingWith(ed.entries, ed.cur) == Editor(input.Line(), input.main.cursor, input.echo, ed.entries, ed.cur);
    }

    /** The down and up arrows: the history entry, if any, is refreshed
        over the line. */
    method HistoryKey(iv: InputValue)
      requires input.Valid() && log.Valid() && (iv.keyCode == KEY_DOWN || iv.keyCode == KEY_UP)
      modifies input`echo, input.main, input.main.data, log`cur
      ensures input.Valid() && log.Valid()
      ensures Editing() == HistoryStep(iv, old(Editing()))
    {
      ghost var ed := Editing();
      var p := FetchEntry(iv);
      if p.Some? {
        ghost var e := ed.entries[log.cur];
        assert HistoryStep(iv, ed) == Moved(ed, e, |e|, RefreshEcho(e, |ed.line|), log.cur);
        LoadEntry(p.value);
        assert Editing() == Moved(ed, e, |e|, RefreshEcho(e, |ed.line|), log.cur);
      } else {
        assert HistoryStep(iv, ed) == ed;
      }
    }

    /** `cli_log_get_next_cmd` for down, `cli_log_get_last_cmd` for up. */
    method FetchEntry(iv: InputValue) returns (p: Option<seq<byte>>)
      requires log.Valid() && (iv.keyCode == KEY_DOWN || iv.keyCode == KEY_UP)
      modifies log`cur
      ensures log.Valid() && log.Entries() == old(log.Entries())
      ensures var e := log.Entries();
              if iv.keyCode == KEY_DOWN && old(log.cur) + 1 < |e| then
                log.cur == old(log.cur) + 1 && p.Some? && Terminated(p.value) && CStr(p.value) == e[log.cur]
              else if iv.keyCode == KEY_UP && old(log.cur) > 0 then
                log.cur == old(log.cur) - 1 && p.Some? && Terminated(p.value) && CStr(p.value) == e[log.cur]
              else
                log.cur == old(log.cur) && p == None
    {
      if iv.keyCode == KEY_DOWN {
        p := log.GetNextCmd();
      } else {
        p := log.GetLastCmd();
      }
    }

    /** `cli_input_refresh` with a history entry. */
    method LoadEntry(src: seq<byte>)
      requires input.Valid() && log.Valid() && Terminated(src) && StrLen(Some(src)) <= CLI_CMD_BUF_SIZE
      modifies input`echo, input.main, input.main.data
      ensures input.Valid() && log.Valid() && log.Entries() == old(log.Entries()) && log.cur == old(log.cur)
      ensures input.Line() == CStr(src) && input.main.cursor == |CStr(src)|
      ensures input.echo == old(input.echo) + RefreshEcho(CStr(src), |old(input.Line())|)
    {
      input.Refresh(src);
    }

    /** Left, right, home and end. */
    method CursorKey(iv: InputValue)
      requires input.Valid() && log.Valid()
      requires iv.keyCode == KEY_LEFT || iv.keyCode == KEY_RIGHT || iv.keyCode == KEY_HOME || iv.keyCode == KEY_END
      modifies input`echo, input.main`cursor
      ensures input.Valid()
      ensures EditingWith(old(log.Entries()), old(log.cur)) == CursorStep(iv, old(Editing()))
    {
      ghost var ed := Editing();
      var c := iv.keyCode;
      if c == KEY_LEFT {
        input.CursorToLeft();
      } else if c == KEY_RIGHT {
        input.CursorToRight();
      } else if c == KEY_HOME {
        input.CursorToHome();
        assert EditingWith(ed.entries, ed.cur) == Moved(ed, ed.line, 0, Repeat(KEY_LSHIFT, ed.cursor), ed.cur);
      } else {
        input.CursorToEnd();
        assert EditingWith(ed.entries, ed.cur) == Moved(ed, ed.line, |ed.line|, ed.line[ed.cursor..], ed.cur);
      }
    }

    /** Any other key: `cli_input_add_char` for a printable byte while the
        line is not full. */
    method TypeKey(iv: InputValue)
      requires input.Valid() && log.Valid() && iv == Classify(iv.keyCode, input.main.count)
      modifies input`echo, input.main, input.main.data, input.transit.data
      ensures input.Valid()
      ensures EditingWith(old(log.Entries()), old(log.cur)) == TypeStep(iv, old(Editing()))
    {
      var full := input.IsFull();
      if iv.isAlphaBet && !full {
        input.AddChar(iv.keyCode);
      }
    }

    /** The tab key, corrected: the line itself is looked up, and the
        completion is refreshed over the old line. */
    method OnTab()
      requires input.Valid() && log.Valid() && RegistryOk() && NamesFitLine(Table())
      modifies input`echo, input.main, input.main.data
      ensures input.Valid()
      ensures EditingWith(old(log.Entries()), old(log.cur)) == TabStep(old(Table()), old(Editing()))
    {
      ghost var ed := Editing();
      var m := TabMatch();
      if m.Some? {
        ghost var line := CStr(cmds[m.value].name) + [SPACE];
        Complete(cmds[m.value].name);
        assert EditingWith(ed.entries, ed.cur) == Moved(ed, line, |line|, RefreshEcho(line, |ed.line|), ed.cur);
      }
    }

    /** The corrected lookup: nothing for an empty line or one ending in a
        blank, otherwise the one command the line itself is compatible
        with. */
    method TabMatch() returns (m: Option<nat>)
      requires input.Valid() && RegistryOk()
      ensures m.Some? ==> m.value < countCommand
                          && Completion(Table(), input.Line()) == Some(CStr(Table()[m.value].name) + [SPACE])
      ensures m.None? ==> Completion(Table(), input.Line()) == None
    {
      var empty := input.IsEmpty();
      if empty {
        return None;
      }
      var last := input.GetLastChar();
      if last == SPACE {
        return None;
      }
      var word := input.main.data[..input.main.count] + [NUL];
      assert word == input.Line() + [NUL];
      m := FindPartTerm(Table(), word);
    }

    /** The corrected completion: the name and a blank, refreshed from a
        buffer of their own over the old line. */
    method Complete(name: seq<byte>)
      requires input.Valid() && Terminated(name) && StrLen(Some(name)) < CLI_CMD_BUF_SIZE
      modifies input`echo, input.main, input.main.data
      ensures input.Valid()
      ensures input.Line() == CStr(name) + [SPACE] && input.main.cursor == input.main.count
      ensures input.echo == old(input.echo) + RefreshEcho(input.Line(), old(input.main.count))
    {
      var len := StrLen(Some(name));
      CompletedName(name);
      input.Refresh(name[..len] + [SPACE, NUL]);
    }

    /** The tab key as written: the string in Main, which runs past the
        line when a shorter line was loaded over a longer one, is looked
        up, and the completion is redrawn in place. */
    method OnTabAsWritten()
      requires input.Valid() && log.Valid() && RegistryOk() && NamesFitLine(Table())
      modifies input`echo, input.main, input.main.data
      ensures input.Valid()
      ensures var s := old(input.Line());
              var t := old(Table());
              var m := FindPartTerm(t, old(input.main.data[..]));
              if s != [] && s[|s| - 1] != SPACE && m.Some? then
                input.Line() == CStr(t[m.value].name) + [SPACE]
                && input.main.cursor == input.main.count
                && input.echo == old(input.echo) + RedrawEcho(input.Line())
              else
                input.Line() == s && input.main.cursor == old(input.main.cursor) && input.echo == old(input.echo)
    {
      var m := TabMatchAsWritten();
      if m.Some? {
        CompleteAsWritten(cmds[m.value].name);
      }
    }

    /** The lookup as written: the whole of Main up to its first NUL is
        the word looked up. */
    method TabMatchAsWritten() returns (m: Option<nat>)
      requires input.Valid() && RegistryOk()
      ensures var s := input.Line();
              m == if s != [] && s[|s| - 1] != SPACE then FindPartTerm(Table(), input.main.data[..]) else None
    {
      var empty := input.IsEmpty();
      if empty {
        return None;
      }
      var last := input.GetLastChar();
      if last == SPACE {
        return None;
      }
      m := FindPartTerm(Table(), input.main.data[..]);
    }

    /** The completion as written: the name with its NUL copied into Main
        (`cli_input_set_buffer`), the NUL overwritten by a blank
        (`strcat`), and Main redrawn in place. */
    method CompleteAsWritten(name: seq<byte>)
      requires input.Valid() && Terminated(name) && StrLen(Some(name)) < CLI_CMD_BUF_SIZE
      modifies input`echo, input.main, input.main.data
      ensures input.Valid()
      ensures input.Line() == CStr(name) + [SPACE] && input.main.cursor == input.main.count
      ensures input.echo == old(input.echo) + RedrawEcho(input.Line())
    {
      var len := StrLen(Some(name));
      ghost var d0 := input.main.data[..];
      input.SetBuffer(name[..len + 1]);
      CStrOf(input.main.data[..], len);
      ghost var d1 := input.main.data[..];
      input.AppendSpace();
      BlankOverNul(d0, d1, input.main.data[..], name);
      input.Redraw();
    }

    // ------------------------------------------------- argument accessors

    /** `cli_get_arg`: the slot after the command name's `index` slots. */
    function GetArg(index: nat): (r: seq<byte>)
      reads this`argc, argv
      requires ArgsValid() && index + 1 < CLI_ARGS_BUF_SIZE
      ensures Terminated(r) && |r| == SLOT_BYTES
      ensures index + 1 < argc ==> CStr(r) == Args()[index + 1]
    {
      Slot(argv[..], index + 1)
    }

    /** `cli_get_arg_dec`: argument `index` parsed in base 10, as a
        `uint32_t`. */
    function GetArgDec(index: nat, strtol: Strtol): (r: nat)
      reads this`argc, argv
      requires ArgsValid() && index + 1 < CLI_ARGS_BUF_SIZE
      ensures r < U32_RANGE
      ensures index + 1 < argc ==> r == U32(strtol(Args()[index + 1], 10))
    {
      U32(strtol(CStr(GetArg(index)), 10))
    }

    /** `cli_get_arg_hex`: argument `index` parsed in base 16, as a
        `uint32_t`. */
    function GetArgHex(index: nat, strtol: Strtol): (r: nat)
      reads this`argc, argv
      requires ArgsValid() && index + 1 < CLI_ARGS_BUF_SIZE
      ensures r < U32_RANGE
      ensures index + 1 < argc ==> r == U32(strtol(Args()[index + 1], 16))
    {
      U32(strtol(CStr(GetArg(index)), 16))
    }

    /** `cli_get_arg_str`: 1 when argument `index` equals `str`. */
    function GetArgStr(index: nat, str: Option<seq<byte>>): (r: byte)
      reads this`argc, argv
      requires ArgsValid() && index + 1 < CLI_ARGS_BUF_SIZE
      requires str.Some? ==> Terminated(str.value)
      ensures r == 0 || r == 1
      ensures index + 1 < argc ==> (r == 1 <==> str.Some? && Args()[index + 1] == CStr(str.value))
    {
      StrCmp(Some(GetArg(index)), str)
    }

    /** `_index_of_flag` over the slots in use. */
    function FlagIndex(flag: Option<seq<byte>>): (r: int)
      reads this`argc, argv
      requires ArgsValid()
      requires flag.Some? ==> Terminated(flag.value)
      ensures -1 <= r < argc
      ensures r >= 0 ==> flag.Some? && Args()[r] == CStr(flag.value)
                         && forall k :: 0 <= k < r ==> Args()[k] != CStr(flag.value)
      ensures r == -1 <==> forall k :: 0 <= k < argc ==> !(flag.Some? && Args()[k] == CStr(flag.value))
    {
      IndexOfFlag(Slots(), flag)
    }

    /** `cli_get_arg_dec_by_flag`: the argument after the flag, parsed in
        base 10 by `GetArgDec` at the flag's index, when the flag is present
        after the name and is not the last argument; `outValue` otherwise. */
    function GetArgDecByFlag(flag: Option<seq<byte>>, outValue: nat, strtol: Strtol): (r: (bool, nat))
      reads this`argc, argv
      requires ArgsValid()
      requires flag.Some? ==> Terminated(flag.value)
      ensures r.0 <==> 0 < FlagIndex(flag) && FlagIndex(flag) + 1 < argc
      ensures r.0 ==> r.1 == GetArgDec(FlagIndex(flag), strtol)
      ensures !r.0 ==> r.1 == outValue
    {
      var w := FlagIndex(flag);
      if w > 0 && w + 1 < argc then (true, GetArgDec(w, strtol)) else (false, outValue)
    }

    /** `cli_get_arg_hex_by_flag`: as `GetArgDecByFlag`, in base 16. */
    function GetArgHexByFlag(flag: Option<seq<byte>>, outValue: nat, strtol: Strtol): (r: (bool, nat))
      reads this`argc, argv
      requires ArgsValid()
      requires flag.Some? ==> Terminated(flag.value)
      ensures r.0 <==> 0 < FlagIndex(flag) && FlagIndex(flag) + 1 < argc
      ensures r.0 ==> r.1 == GetArgHex(FlagIndex(flag), strtol)
      ensures !r.0 ==> r.1 == outValue
    {
      var w := FlagIndex(flag);
      if w > 0 && w + 1 < argc then (true, GetArgHex(w, strtol)) else (false, outValue)
    }

    /** `cli_is_arg_flag`: the flag is one of the argument strings, the
        command's name included. */
    function IsArgFlag(flag: Option<seq<byte>>): (r: bool)
      reads this`argc, argv
      requires ArgsValid()
      requires flag.Some? ==> Terminated(flag.value)
      ensures r <==> flag.Some? && exists k :: 0 <= k < argc && Args()[k] == CStr(flag.value)
    {
      FlagIndex(flag) >= 0
    }
  }
}
