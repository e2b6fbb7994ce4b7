/** The command history of lib/cli_log.c.

    The history is an array of ten rows and a count; the rows below the count
    are the recorded lines, oldest first. A browsing cursor walks over them
    for the arrow keys. */
module CliLog {
  import opened CliConfig
  import opened TinyString

  /** Bytes of one history row: an edited line of up to `CLI_CMD_BUF_SIZE`
      bytes with its terminator (see `StoredRowAsWritten`). */
  const ROW_BYTES: nat := CLI_CMD_BUF_SIZE + 1

  /** The strings a sequence of terminated rows holds. */
  function Strings(rows: seq<seq<byte>>): (r: seq<seq<byte>>)
    requires forall i :: 0 <= i < |rows| ==> Terminated(rows[i])
    ensures |r| == |rows|
    ensures forall i :: 0 <= i < |rows| ==> r[i] == CStr(rows[i])
  {
    seq(|rows|, i requires 0 <= i < |rows| => CStr(rows[i]))
  }

  // ---------------------------------------------------------------------
  // The history as a sequence of lines

  /** The history after `line` is entered: a line equal to the newest entry
      is not recorded again; any other line is appended, and when the history
      already holds `CLI_CMD_LOG_SIZE` lines the oldest one goes. */
  function Recorded(e: seq<seq<byte>>, line: seq<byte>): (r: seq<seq<byte>>)
    ensures |e| <= CLI_CMD_LOG_SIZE ==> |r| <= CLI_CMD_LOG_SIZE
    ensures |r| > 0 && r[|r| - 1] == line
  {
    if |e| > 0 && e[|e| - 1] == line then e
    else if |e| < CLI_CMD_LOG_SIZE then e + [line]
    else e[1..] + [line]
  }

  /** The history after all of `lines` are entered, in order. */
  function RecordedAll(e: seq<seq<byte>>, lines: seq<seq<byte>>): seq<seq<byte>>
  {
    if |lines| == 0 then e
    else Recorded(RecordedAll(e, lines[..|lines| - 1]), lines[|lines| - 1])
  }

  /** `lines` with every run of equal neighbours collapsed to one line. */
  function Collapsed(lines: seq<seq<byte>>): seq<seq<byte>>
  {
    if |lines| == 0 then []
    else
      var p := lines[..|lines| - 1];
      if |p| > 0 && p[|p| - 1] == lines[|lines| - 1] then Collapsed(p)
      else Collapsed(p) + [lines[|lines| - 1]]
  }

  /** The newest `n` elements of `s`. */
  function Newest(s: seq<seq<byte>>, n: nat): seq<seq<byte>>
  {
    if |s| <= n then s else s[|s| - n..]
  }

  predicate NoAdjacentRepeats(e: seq<seq<byte>>)
  {
    forall i :: 0 < i < |e| ==> e[i] != e[i - 1]
  }

  /** Collapsing keeps the newest line and leaves no equal neighbours. */
  lemma {:induction false} CollapsedShape(lines: seq<seq<byte>>)
    ensures |lines| > 0 ==> |Collapsed(lines)| > 0
                            && Collapsed(lines)[|Collapsed(lines)| - 1] == lines[|lines| - 1]
    ensures NoAdjacentRepeats(Collapsed(lines))
    decreases |lines|
  {
    if |lines| > 0 {
      var p := lines[..|lines| - 1];
      CollapsedShape(p);
    }
  }

  /** Entering the same line twice in a row records it once. */
  lemma RecordedIdempotent(e: seq<seq<byte>>, line: seq<byte>)
    ensures Recorded(Recorded(e, line), line) == Recorded(e, line)
  {
  }

  /** Recording never puts two equal lines next to each other. */
  lemma RecordedKeepsNoAdjacentRepeats(e: seq<seq<byte>>, line: seq<byte>)
    requires NoAdjacentRepeats(e)
    ensures NoAdjacentRepeats(Recorded(e, line))
  {
  }

  /** Starting from the empty history, the history is the newest
      `CLI_CMD_LOG_SIZE` of the entered lines once runs of equal lines are
      collapsed. */
  lemma {:induction false} HistoryIsNewestCollapsed(lines: seq<seq<byte>>)
    ensures RecordedAll([], lines) == Newest(Collapsed(lines), CLI_CMD_LOG_SIZE)
    decreases |lines|
  {
    if |lines| > 0 {
      var p := lines[..|lines| - 1];
      var x := lines[|lines| - 1];
      HistoryIsNewestCollapsed(p);
      CollapsedShape(p);
      var c := Collapsed(p);
      var h := Newest(c, CLI_CMD_LOG_SIZE);
      assert |p| > 0 ==> |h| > 0 && h[|h| - 1] == c[|c| - 1];
      if |p| > 0 && p[|p| - 1] == x {
        assert Recorded(h, x) == h;
      } else {
        assert Collapsed(lines) == c + [x];
        assert |p| == 0 ==> c == [];
        if |h| < CLI_CMD_LOG_SIZE {
          assert Recorded(h, x) == h + [x];
        } else {
          assert Recorded(h, x) == h[1..] + [x];
          assert h[1..] + [x] == (c + [x])[|c + [x]| - CLI_CMD_LOG_SIZE..];
        }
      }
    }
  }

  // ---------------------------------------------------------------------
  // Rows

  /** The row the source stores: the first `CLI_CMD_BUF_SIZE` bytes of the
      line's buffer. */
  function StoredRowAsWritten(cmd: seq<byte>): (row: seq<byte>)
    requires |cmd| >= CLI_CMD_BUF_SIZE
    ensures |row| == CLI_CMD_BUF_SIZE
  {
    cmd[..CLI_CMD_BUF_SIZE]
  }

  /** A line of the full `CLI_CMD_BUF_SIZE` bytes loses its terminator in a
      row of that width: the row is not a C string, and reading it runs on
      into the next row. */
  lemma FullLineRowAsWrittenUnterminated()
    ensures var cmd := Repeat(0x61, CLI_CMD_BUF_SIZE) + [NUL];
            Terminated(cmd) && StrLen(Some(cmd)) == CLI_CMD_BUF_SIZE
            && !Terminated(StoredRowAsWritten(cmd))
  {
    var cmd := Repeat(0x61, CLI_CMD_BUF_SIZE) + [NUL];
    assert cmd[CLI_CMD_BUF_SIZE] == NUL;
    CStrOf(cmd, CLI_CMD_BUF_SIZE);
    assert StoredRowAsWritten(cmd) == Repeat(0x61, CLI_CMD_BUF_SIZE);
  }

  /** The row stored by the model: the whole line buffer with its
      terminator. */
  function StoredRow(cmd: seq<byte>): (row: seq<byte>)
    requires |cmd| >= ROW_BYTES
    ensures |row| == ROW_BYTES
  {
    cmd[..ROW_BYTES]
  }

  /** A row of `ROW_BYTES` holds every line the editor can produce. */
  lemma StoredRowKeepsLine(cmd: seq<byte>)
    requires Terminated(cmd) && |cmd| >= ROW_BYTES && StrLen(Some(cmd)) <= CLI_CMD_BUF_SIZE
    ensures Terminated(StoredRow(cmd)) && CStr(StoredRow(cmd)) == CStr(cmd)
  {
    var n := StrLen(Some(cmd));
    CStrOf(StoredRow(cmd), n);
  }

  // ---------------------------------------------------------------------
  // The history object

  /** `CLI_Log_s` */
  class Log {
    const cmds: array<seq<byte>>
    var cnt: nat      // `_cntCmd`
    var cur: nat      // `_curCmd`

    ghost predicate Valid()
      reads this, cmds
    {
      cmds.Length == CLI_CMD_LOG_SIZE && cur <= cnt <= CLI_CMD_LOG_SIZE
      && (forall i :: 0 <= i < cmds.Length ==> |cmds[i]| == ROW_BYTES && Terminated(cmds[i]))
    }

    /** The recorded lines, oldest first. */
    ghost function Entries(): (e: seq<seq<byte>>)
      reads this, cmds
      requires Valid()
      ensures |e| == cnt
    {
      Strings(cmds[..cnt])
    }

    /** `cli_log_init` with the zero-initialised static rows: an empty
        history with the cursor reset. */
    constructor Init()
      ensures Valid() && fresh(cmds)
      ensures cnt == 0 && cur == 0 && Entries() == []
      ensures forall i :: 0 <= i < cmds.Length ==> CStr(cmds[i]) == []
    {
      cmds := new seq<byte>[CLI_CMD_LOG_SIZE](_ => Repeat(NUL, ROW_BYTES));
      cnt := 0;
      cur := 0;
      new;
      forall i | 0 <= i < cmds.Length
        ensures Terminated(cmds[i]) && CStr(cmds[i]) == []
      {
        CStrOf(cmds[i], 0);
      }
    }

    /** `cli_log_cmd_push`: records the line in the buffer `cmd` unless it
        equals the newest entry; in a full history the rows move one down and
        the line goes into the last row. The browsing cursor does not move. */
    method CmdPush(cmd: seq<byte>)
      requires Valid()
      requires Terminated(cmd) && |cmd| >= ROW_BYTES && StrLen(Some(cmd)) <= CLI_CMD_BUF_SIZE
      modifies this`cnt, cmds
      ensures Valid()
      ensures Entries() == Recorded(old(Entries()), CStr(cmd))
      ensures old(cnt) > 0 && old(Entries())[old(cnt) - 1] == CStr(cmd) ==>
                cnt == old(cnt) && cmds[..] == old(cmds[..])
      ensures !(old(cnt) > 0 && old(Entries())[old(cnt) - 1] == CStr(cmd)) && old(cnt) < CLI_CMD_LOG_SIZE ==>
                cnt == old(cnt) + 1 && cmds[..] == old(cmds[..])[old(cnt) := StoredRow(cmd)]
      ensures !(old(cnt) > 0 && old(Entries())[old(cnt) - 1] == CStr(cmd)) && old(cnt) == CLI_CMD_LOG_SIZE ==>
                cnt == CLI_CMD_LOG_SIZE && cmds[..] == old(cmds[1..]) + [StoredRow(cmd)]
    {
      if cnt < CLI_CMD_LOG_SIZE {
        if cnt > 0 {
          if StrCmp(Some(cmd), Some(cmds[cnt - 1])) == 0 {
            AppendRow(cmd);
          }
        } else {
          AppendRow(cmd);
        }
      } else {
        if StrCmp(Some(cmd), Some(cmds[cnt - 1])) == 0 {
          RotateIn(cmd);
        }
      }
    }

    /** The copy of lib/cli_log.c:62 and 68: the line goes into the row at
        the count, which grows by one. */
    method AppendRow(cmd: seq<byte>)
      requires Valid() && cnt < CLI_CMD_LOG_SIZE
      requires Terminated(cmd) && |cmd| >= ROW_BYTES && StrLen(Some(cmd)) <= CLI_CMD_BUF_SIZE
      modifies this`cnt, cmds
      ensures Valid()
      ensures cnt == old(cnt) + 1 && cmds[..] == old(cmds[..])[old(cnt) := StoredRow(cmd)]
      ensures Entries() == old(Entries()) + [CStr(cmd)]
    {
      ghost var e := Entries();
      StoredRowKeepsLine(cmd);
      cmds[cnt] := StoredRow(cmd);
      cnt := cnt + 1;
      forall i | 0 <= i < cnt ensures Entries()[i] == (e + [CStr(cmd)])[i] {
        if i < cnt - 1 {
          assert cmds[i] == old(cmds[i]);
        }
      }
    }

    /** The moves of lib/cli_log.c:76-78: every row one down, the line into
        the last row. */
    method RotateIn(cmd: seq<byte>)
      requires Valid() && cnt == CLI_CMD_LOG_SIZE
      requires Terminated(cmd) && |cmd| >= ROW_BYTES && StrLen(Some(cmd)) <= CLI_CMD_BUF_SIZE
      modifies cmds
      ensures Valid()
      ensures cmds[..] == old(cmds[1..]) + [StoredRow(cmd)]
      ensures Entries() == old(Entries())[1..] + [CStr(cmd)]
    {
      ghost var e := Entries();
      StoredRowKeepsLine(cmd);
      ShiftRows();
      cmds[cnt - 1] := StoredRow(cmd);
      assert cmds[..] == old(cmds[1..]) + [StoredRow(cmd)];
      forall i | 0 <= i < cnt ensures Entries()[i] == (e[1..] + [CStr(cmd)])[i] {
        if i < cnt - 1 {
          assert cmds[i] == old(cmds[i + 1]);
        }
      }
    }

    /** The block move of lib/cli_log.c:76 over rows 1 to 9; the last row
        keeps its old contents. */
    method ShiftRows()
      requires Valid()
      modifies cmds
      ensures Valid()
      ensures forall j :: 0 <= j < CLI_CMD_LOG_SIZE - 1 ==> cmds[j] == old(cmds[j + 1])
      ensures cmds[CLI_CMD_LOG_SIZE - 1] == old(cmds[CLI_CMD_LOG_SIZE - 1])
    {
      var i := 0;
      while i < CLI_CMD_LOG_SIZE - 1
        invariant 0 <= i <= CLI_CMD_LOG_SIZE - 1
        invariant forall j :: 0 <= j < i ==> cmds[j] == old(cmds[j + 1])
        invariant forall j :: i <= j < cmds.Length ==> cmds[j] == old(cmds[j])
      {
        cmds[i] := cmds[i + 1];
        i := i + 1;
      }
    }

    /** `cli_log_cmd_get`: the row at `index`, NULL past the last row. */
    function CmdGet(index: nat): (r: Option<seq<byte>>)
      reads this, cmds
      requires Valid()
      ensures r.Some? <==> index < CLI_CMD_LOG_SIZE
      ensures r.Some? ==> Terminated(r.value) && r.value == cmds[index]
      ensures index < cnt ==> r.Some? && CStr(r.value) == Entries()[index]
    {
      if index < CLI_CMD_LOG_SIZE then Some(cmds[index]) else None
    }

    /** `cli_log_get_next_cmd` (the down arrow): one entry newer, NULL when
        the cursor is at the newest entry or past it. */
    method GetNextCmd() returns (r: Option<seq<byte>>)
      requires Valid()
      modifies this`cur
      ensures Valid()
      ensures old(cur) + 1 < cnt ==>
                cur == old(cur) + 1 && r.Some? && r.value == cmds[cur]
                && Terminated(r.value) && CStr(r.value) == Entries()[cur]
      ensures old(cur) + 1 >= cnt ==> cur == old(cur) && r == None
    {
      if cur + 1 < cnt {
        cur := cur + 1;
        return Some(cmds[cur]);
      }
      return None;
    }

    /** `cli_log_get_last_cmd` (the up arrow): one entry older, NULL at the
        oldest entry. */
    method GetLastCmd() returns (r: Option<seq<byte>>)
      requires Valid()
      modifies this`cur
      ensures Valid()
      ensures old(cur) > 0 ==>
                cur == old(cur) - 1 && r.Some? && r.value == cmds[cur]
                && Terminated(r.value) && CStr(r.value) == Entries()[cur]
      ensures old(cur) == 0 ==> cur == 0 && r == None
    {
      if cur > 0 {
        cur := cur - 1;
        return Some(cmds[cur]);
      }
      return None;
    }

    /** `cli_log_cur_reset`: the cursor goes just past the newest entry, so
        the next up arrow yields the newest entry and the next down arrow
        yields nothing. */
    method CurReset()
      requires Valid()
      modifies this`cur
      ensures Valid() && cur == cnt
    {
      cur := cnt;
    }
  }
}
