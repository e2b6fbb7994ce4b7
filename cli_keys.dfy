/** What one received byte does to the line editor and the history, as
    `cli_append_char` in cli.c dispatches it: a pure description of the
    editor's state before and after a key, and the proof that the terminal
    keeps showing the line for every key but enter. */
module CliKeys {
  import opened CliConfig
  import opened TinyString
  import opened Terminal
  import opened LineEdit
  import opened CliInput
  import opened CliLog
  import opened CliTable

  /** The line, its cursor, everything echoed so far, the history entries
      (oldest first) and the history cursor. */
  datatype Editor = Editor(line: seq<byte>, cursor: nat, echo: seq<byte>, entries: seq<seq<byte>>, cur: nat)

  predicate EditorOk(ed: Editor)
  {
    ed.cursor <= |ed.line| <= CLI_CMD_BUF_SIZE && ed.cur <= |ed.entries|
  }

  /** The editor with a new line, cursor and history cursor, after `delta`
      went to the terminal. */
  function Moved(ed: Editor, line: seq<byte>, cursor: nat, delta: seq<byte>, cur: nat): Editor
  {
    Editor(line, cursor, ed.echo + delta, ed.entries, cur)
  }

  /** The line completion of the tab key would write for the line `s`:
      the name of the one command compatible with it, and a blank. */
  function Completion(t: seq<Cmd>, s: seq<byte>): (r: Option<seq<byte>>)
    requires NamesTerminated(t) && |s| <= CLI_CMD_BUF_SIZE
    ensures r.Some? ==> exists j :: 0 <= j < |t| && r.value == CStr(t[j].name) + [SPACE]
                                    && Compatible(t, s + [NUL], j)
                                    && forall i :: 0 <= i < |t| && i != j ==> !Compatible(t, s + [NUL], i)
  {
    assert (s + [NUL])[|s|] == NUL;
    var m := FindPartTerm(t, s + [NUL]);
    if s != [] && s[|s| - 1] != SPACE && m.Some? then Some(CStr(t[m.value].name) + [SPACE]) else None
  }

  /** Backspace and delete: the byte before, and the byte under, the
      cursor goes, if there is one. */
  function EraseStep(iv: InputValue, ed: Editor): (r: Editor)
    requires EditorOk(ed)
    ensures EditorOk(r) && r.entries == ed.entries && r.cur == ed.cur && ed.echo <= r.echo
    ensures r.line == ed.line || (|r.line| + 1 == |ed.line| && r.line == RemoveAt(ed.line, r.cursor)
                                  && r.cursor == if iv.keyCode == KEY_BACKSPACE then ed.cursor - 1 else ed.cursor)
    ensures r.line == ed.line <==> (if iv.keyCode == KEY_BACKSPACE then ed.cursor == 0 else ed.cursor == |ed.line|)
    ensures r.line == ed.line ==> r == ed
  {
    var s, k := ed.line, ed.cursor;
    if iv.keyCode == KEY_BACKSPACE then
      if k > 0 then Moved(ed, RemoveAt(s, k - 1), k - 1, RemCharEcho(s, k), ed.cur) else ed
    else
      if k < |s| then Moved(ed, RemoveAt(s, k), k, DeleteEcho(s, k), ed.cur) else ed
  }

  /** Tab: the line becomes its completion, if it has one, and is
      refreshed over the old one. */
  function TabStep(t: seq<Cmd>, ed: Editor): (r: Editor)
    requires NamesTerminated(t) && EditorOk(ed)
    ensures r.entries == ed.entries && r.cur == ed.cur && ed.echo <= r.echo
    ensures ed.line == [] || ed.line[|ed.line| - 1] == SPACE ==> r == ed
    ensures r != ed ==> r.cursor == |r.line|
                        && exists j :: 0 <= j < |t| && r.line == CStr(t[j].name) + [SPACE]
                                       && Compatible(t, ed.line + [NUL], j)
  {
    match Completion(t, ed.line)
    case Some(n) => Moved(ed, n, |n|, RefreshEcho(n, |ed.line|), ed.cur)
    case None => ed
  }

  /** The down and up arrows: the next newer, or older, history entry
      replaces the line, if there is one. */
  function HistoryStep(iv: InputValue, ed: Editor): (r: Editor)
    requires EditorOk(ed)
    ensures r.entries == ed.entries && r.cur <= |r.entries| && ed.echo <= r.echo
    ensures r.cur == ed.cur ==> r == ed
    ensures r.cur != ed.cur ==> r.cur == (if iv.keyCode == KEY_DOWN then ed.cur + 1 else ed.cur - 1)
                                && r.cur < |ed.entries| && r.line == ed.entries[r.cur] && r.cursor == |r.line|
    ensures r.cur == ed.cur <==> (if iv.keyCode == KEY_DOWN then ed.cur + 1 >= |ed.entries| else ed.cur == 0)
  {
    if iv.keyCode == KEY_DOWN then
      if ed.cur + 1 < |ed.entries| then
        var n := ed.entries[ed.cur + 1];
        Moved(ed, n, |n|, RefreshEcho(n, |ed.line|), ed.cur + 1)
      else ed
    else
      if ed.cur > 0 then
        var n := ed.entries[ed.cur - 1];
        Moved(ed, n, |n|, RefreshEcho(n, |ed.line|), ed.cur - 1)
      else ed
  }

  /** Left, right, home and end: the cursor moves, the line stays. */
  function CursorStep(iv: InputValue, ed: Editor): (r: Editor)
    requires EditorOk(ed)
    ensures EditorOk(r) && r.line == ed.line && r.entries == ed.entries && r.cur == ed.cur && ed.echo <= r.echo
    ensures iv.keyCode == KEY_LEFT ==> r.cursor == if ed.cursor > 0 then ed.cursor - 1 else 0
    ensures iv.keyCode == KEY_RIGHT ==> r.cursor == if ed.cursor < |ed.line| then ed.cursor + 1 else ed.cursor
    ensures iv.keyCode == KEY_HOME ==> r.cursor == 0
    ensures iv.keyCode !in {KEY_LEFT, KEY_RIGHT, KEY_HOME} ==> r.cursor == |ed.line|
  {
    var s, k, key := ed.line, ed.cursor, iv.keyCode;
    if key == KEY_LEFT then
      if k > 0 then Moved(ed, s, k - 1, [KEY_LSHIFT], ed.cur) else ed
    else if key == KEY_RIGHT then
      if k < |s| then Moved(ed, s, k + 1, [s[k]], ed.cur) else ed
    else if key == KEY_HOME then Moved(ed, s, 0, Repeat(KEY_LSHIFT, k), ed.cur)
    else Moved(ed, s, |s|, s[k..], ed.cur)
  }

  /** Any other key: a printable byte is inserted at the cursor while the
      line has room. */
  function TypeStep(iv: InputValue, ed: Editor): (r: Editor)
    requires EditorOk(ed)
    ensures EditorOk(r) && r.entries == ed.entries && r.cur == ed.cur && ed.echo <= r.echo
    ensures r != ed <==> iv.isAlphaBet && |ed.line| < CLI_CMD_BUF_SIZE
    ensures r != ed ==> r.line == Insert(ed.line, ed.cursor, iv.keyCode) && r.cursor == ed.cursor + 1
  {
    var s, k := ed.line, ed.cursor;
    if iv.isAlphaBet && |s| < CLI_CMD_BUF_SIZE then
      Moved(ed, Insert(s, k, iv.keyCode), k + 1, AddCharEcho(s, k, iv.keyCode), ed.cur)
    else ed
  }

  /** An accepted key other than enter (the `switch` of `cli_append_char`),
      `t` being the registered commands. Escape, the interrupt byte and
      clear-screen leave the editor alone. */
  function KeyStep(t: seq<Cmd>, iv: InputValue, ed: Editor): (r: Editor)
    requires NamesTerminated(t) && EditorOk(ed)
    ensures r.entries == ed.entries && ed.echo <= r.echo
  {
    var key := iv.keyCode;
    if key == KEY_ESCAPE || key == CHAR_INTERRUPT || key == KEY_CLEAR_SCR then ed
    else if key == KEY_BACKSPACE || key == KEY_DEL then EraseStep(iv, ed)
    else if key == KEY_TAB then TabStep(t, ed)
    else if key == KEY_DOWN || key == KEY_UP then HistoryStep(iv, ed)
    else if key == KEY_LEFT || key == KEY_RIGHT || key == KEY_HOME || key == KEY_END then CursorStep(iv, ed)
    else TypeStep(iv, ed)
  }

  /** The enter key: an empty line is ignored; otherwise the line is
      recorded in the history, whose cursor goes past the newest entry, and
      the line is cleared. Nothing is echoed by the editor. */
  function EnterStep(ed: Editor): (r: Editor)
    ensures r.line == [] && r.echo == ed.echo
    ensures ed.line == [] ==> r == ed
    ensures ed.line != [] ==> r.cursor == 0 && |r.entries| > 0 && r.entries[|r.entries| - 1] == ed.line && r.cur == |r.entries|
    ensures |ed.entries| <= CLI_CMD_LOG_SIZE ==> |r.entries| <= CLI_CMD_LOG_SIZE
  {
    if ed.line == [] then ed
    else
      var h := Recorded(ed.entries, ed.line);
      Editor([], 0, ed.echo, h, |h|)
  }

  /** `cli_append_char` after `cli_input_put_char` returned `iv`: a key the
      line has no room for changes nothing. */
  function AppendStep(t: seq<Cmd>, iv: InputValue, ed: Editor): (r: Editor)
    requires NamesTerminated(t) && EditorOk(ed)
    ensures ed.echo <= r.echo
    ensures !iv.isValid ==> r == ed
    ensures !(iv.isValid && iv.keyCode == KEY_ENTER) ==> r.entries == ed.entries
    ensures iv.isValid && iv.keyCode == KEY_ENTER ==> r.line == [] && r.echo == ed.echo
  {
    if !iv.isValid then ed
    else if iv.keyCode == KEY_ENTER then EnterStep(ed)
    else KeyStep(t, iv, ed)
  }

  /** The result `cli_append_char` returns for `iv` and the line `s`. */
  function AppendOutcome(iv: InputValue, s: seq<byte>): (r: AppendResult)
    ensures r == AppendBufFull <==> !iv.isValid
    ensures r == AppendEnter <==> iv.isValid && iv.keyCode == KEY_ENTER && s != []
    ensures r == AppendIgnore <==> iv.isValid && iv.keyCode == KEY_ENTER && s == []
    ensures r != AppendReset
  {
    if !iv.isValid then AppendBufFull
    else if iv.keyCode == KEY_ENTER then (if s == [] then AppendIgnore else AppendEnter)
    else AppendOk
  }

  // --------------------------------------------------------------- lemmas

  /** Enter on a non-empty line: the line becomes the newest history entry,
      the history stays within `CLI_CMD_LOG_SIZE` entries without two equal
      neighbours, and the next up arrow brings the line back. */
  lemma EnterRecords(t: seq<Cmd>, iv: InputValue, ed: Editor)
    requires NamesTerminated(t) && EditorOk(ed) && Glyphs(ed.line)
    requires iv.isValid && iv.keyCode == KEY_ENTER && ed.line != []
    requires |ed.entries| <= CLI_CMD_LOG_SIZE && NoAdjacentRepeats(ed.entries)
    ensures var r := AppendStep(t, iv, ed);
            EditorOk(r) && r.line == [] && r.cursor == 0 && r.echo == ed.echo
            && |r.entries| <= CLI_CMD_LOG_SIZE && NoAdjacentRepeats(r.entries)
            && r.entries[|r.entries| - 1] == ed.line
    ensures var r := AppendStep(t, iv, ed);
            var up := InputValue(KEY_UP, true, true);
            KeyStep(t, up, r).line == ed.line
  {
    RecordedKeepsNoAdjacentRepeats(ed.entries, ed.line);
  }

  /** Tab completes to command `j` exactly when `j` is the only command
      compatible with a line that does not end in a blank. */
  lemma TabCompletesUnique(t: seq<Cmd>, ed: Editor, j: nat)
    requires NamesTerminated(t) && EditorOk(ed)
    requires forall a, b :: 0 <= a < b < |t| ==> CStr(t[a].name) != CStr(t[b].name)
    requires j < |t|
    ensures var s := ed.line;
            var n := CStr(t[j].name) + [SPACE];
            (s != [] && s[|s| - 1] != SPACE && Compatible(t, s + [NUL], j)
             && forall i :: 0 <= i < |t| && i != j ==> !Compatible(t, s + [NUL], i))
            <==> TabStep(t, ed) == Moved(ed, n, |n|, RefreshEcho(n, |s|), ed.cur)
  {
    var s := ed.line;
    var n := CStr(t[j].name) + [SPACE];
    var want := Moved(ed, n, |n|, RefreshEcho(n, |s|), ed.cur);
    assert (s + [NUL])[|s|] == NUL;
    var m := FindPartTerm(t, s + [NUL]);
    var c := Completion(t, s);
    if TabStep(t, ed) == want && c.Some? {
      var i := m.value;
      assert CStr(t[i].name) + [SPACE] == n;
      assert CStr(t[i].name) == n[..|n| - 1] == CStr(t[j].name);
    }
  }

  lemma EraseInSync(iv: InputValue, ed: Editor, sc: Screen)
    requires EditorOk(ed) && Shows(sc, ed.line, ed.cursor) && Glyphs(ed.line)
    ensures var r := EraseStep(iv, ed);
            Shows(Run(sc, r.echo[|ed.echo|..]), r.line, r.cursor) && Glyphs(r.line)
  {
    var s, k := ed.line, ed.cursor;
    var r := EraseStep(iv, ed);
    if r == ed {
      assert r.echo[|ed.echo|..] == [];
    } else if iv.keyCode == KEY_BACKSPACE {
      assert r.echo[|ed.echo|..] == RemCharEcho(s, k);
      RemCharInSync(sc, s, k);
      GlyphsKept(s, k - 1, SPACE);
    } else {
      assert r.echo[|ed.echo|..] == DeleteEcho(s, k);
      DeleteInSync(sc, s, k);
      GlyphsKept(s, k, SPACE);
    }
  }

  lemma TabInSync(t: seq<Cmd>, ed: Editor, sc: Screen)
    requires NamesTerminated(t) && EditorOk(ed) && Shows(sc, ed.line, ed.cursor)
    requires forall i :: 0 <= i < |t| ==> Glyphs(CStr(t[i].name))
    ensures var r := TabStep(t, ed);
            Shows(Run(sc, r.echo[|ed.echo|..]), r.line, r.cursor) && (r != ed ==> Glyphs(r.line))
  {
    var r := TabStep(t, ed);
    var c := Completion(t, ed.line);
    if c.None? {
      assert r.echo[|ed.echo|..] == [];
    } else {
      var n := c.value;
      var j :| 0 <= j < |t| && n == CStr(t[j].name) + [SPACE];
      GlyphsAppend(CStr(t[j].name), [SPACE]);
      assert r.echo[|ed.echo|..] == RefreshEcho(n, |ed.line|);
      RefreshInSync(sc, ed.line, ed.cursor, n, |ed.line|);
    }
  }

  lemma HistoryInSync(iv: InputValue, ed: Editor, sc: Screen)
    requires EditorOk(ed) && Shows(sc, ed.line, ed.cursor)
    requires forall i :: 0 <= i < |ed.entries| ==> Glyphs(ed.entries[i])
    ensures var r := HistoryStep(iv, ed);
            Shows(Run(sc, r.echo[|ed.echo|..]), r.line, r.cursor) && (r != ed ==> Glyphs(r.line))
  {
    var r := HistoryStep(iv, ed);
    if r == ed {
      assert r.echo[|ed.echo|..] == [];
    } else {
      assert r.echo[|ed.echo|..] == RefreshEcho(r.line, |ed.line|);
      RefreshInSync(sc, ed.line, ed.cursor, r.line, |ed.line|);
    }
  }

  lemma CursorInSync(iv: InputValue, ed: Editor, sc: Screen)
    requires EditorOk(ed) && Shows(sc, ed.line, ed.cursor) && Glyphs(ed.line)
    ensures var r := CursorStep(iv, ed);
            Shows(Run(sc, r.echo[|ed.echo|..]), r.line, r.cursor) && r.line == ed.line
  {
    var s, k, key := ed.line, ed.cursor, iv.keyCode;
    var r := CursorStep(iv, ed);
    var delta := r.echo[|ed.echo|..];
    if r == ed {
      assert delta == [];
    } else if key == KEY_LEFT {
      assert delta == Repeat(KEY_BACKSPACE, 1);
      RunBackspaces(sc, 1);
    } else if key == KEY_RIGHT {
      assert delta == [s[k]];
      StepRight(sc, s, k);
    } else if key == KEY_HOME {
      assert delta == Repeat(KEY_LSHIFT, k);
      HomeInSync(sc, s, k);
    } else {
      assert delta == s[k..];
      EndInSync(sc, s, k);
    }
  }

  lemma TypeInSync(iv: InputValue, ed: Editor, sc: Screen)
    requires EditorOk(ed) && Shows(sc, ed.line, ed.cursor) && Glyphs(ed.line)
    requires iv.keyCode != KEY_ENTER && iv.keyCode != KEY_BACKSPACE
    ensures var r := TypeStep(iv, ed);
            Shows(Run(sc, r.echo[|ed.echo|..]), r.line, r.cursor) && Glyphs(r.line)
  {
    var r := TypeStep(iv, ed);
    if r == ed {
      assert r.echo[|ed.echo|..] == [];
    } else {
      assert r.echo[|ed.echo|..] == AddCharEcho(ed.line, ed.cursor, iv.keyCode);
      AddCharInSync(sc, ed.line, ed.cursor, iv.keyCode);
      GlyphsKept(ed.line, ed.cursor, iv.keyCode);
    }
  }

  /** Every editing key keeps the terminal showing the line with the
      cursor in place, provided the line, the history entries and the
      command names hold only glyphs. Enter, escape, the interrupt byte and
      clear-screen are not editing keys: the last three print output of
      their own (a new row with "INTERRUPT", or a cleared screen with a bare
      prompt) after which the screen no longer shows the line. */
  lemma KeyStepInSync(t: seq<Cmd>, iv: InputValue, ed: Editor, sc: Screen)
    requires NamesTerminated(t) && EditorOk(ed) && iv.keyCode != KEY_ENTER
    requires iv.keyCode != KEY_ESCAPE && iv.keyCode != CHAR_INTERRUPT && iv.keyCode != KEY_CLEAR_SCR
    requires Shows(sc, ed.line, ed.cursor) && Glyphs(ed.line)
    requires forall i :: 0 <= i < |ed.entries| ==> Glyphs(ed.entries[i])
    requires forall i :: 0 <= i < |t| ==> Glyphs(CStr(t[i].name))
    ensures var r := KeyStep(t, iv, ed);
            Shows(Run(sc, r.echo[|ed.echo|..]), r.line, r.cursor) && Glyphs(r.line)
  {
    var key := iv.keyCode;
    if key == KEY_BACKSPACE || key == KEY_DEL {
      EraseInSync(iv, ed, sc);
    } else if key == KEY_TAB {
      TabInSync(t, ed, sc);
    } else if key == KEY_DOWN || key == KEY_UP {
      HistoryInSync(iv, ed, sc);
    } else if key == KEY_LEFT || key == KEY_RIGHT || key == KEY_HOME || key == KEY_END {
      CursorInSync(iv, ed, sc);
    } else {
      TypeInSync(iv, ed, sc);
    }
  }
}
