/** What the editing operations of lib/cli_input.c do to the line and what
    they echo, as functions of the line `s` and the cursor `k` before the
    operation, and the proof that each echo keeps the terminal showing the
    line with its cursor in place. */
module LineEdit {
  import opened CliConfig
  import opened Terminal

  /** The line after typing `c` at the cursor `k`. */
  function Insert(s: seq<byte>, k: nat, c: byte): (r: seq<byte>)
    requires k <= |s|
    ensures |r| == |s| + 1 && r[k] == c
    ensures r[..k] == s[..k] && r[k + 1..] == s[k..]
  {
    s[..k] + [c] + s[k..]
  }

  /** The line without its byte `k`. */
  function RemoveAt(s: seq<byte>, k: nat): (r: seq<byte>)
    requires k < |s|
    ensures |r| == |s| - 1
    ensures r[..k] == s[..k] && r[k..] == s[k + 1..]
  {
    s[..k] + s[k + 1..]
  }

  /** Typing a byte and erasing it again gives the line back. */
  lemma RemoveInsert(s: seq<byte>, k: nat, c: byte)
    requires k <= |s|
    ensures RemoveAt(Insert(s, k, c), k) == s
  {
    var t := Insert(s, k, c);
    assert RemoveAt(t, k) == t[..k] + t[k + 1..];
    assert s == s[..k] + s[k..];
  }

  /** Neither operation introduces a byte that is not in the line already. */
  lemma GlyphsKept(s: seq<byte>, k: nat, c: byte)
    requires Glyphs(s) && k <= |s| && c != KEY_ENTER && c != KEY_BACKSPACE
    ensures Glyphs(Insert(s, k, c))
    ensures k < |s| ==> Glyphs(RemoveAt(s, k))
  {
    var t := Insert(s, k, c);
    forall i | 0 <= i < |t| ensures t[i] != KEY_ENTER && t[i] != KEY_BACKSPACE {
      if i < k { assert t[i] == s[..k][i]; }
      else if i > k { assert t[i] == t[k + 1..][i - k - 1] == s[i - 1]; }
    }
    if k < |s| {
      var u := RemoveAt(s, k);
      forall i | 0 <= i < |u| ensures u[i] != KEY_ENTER && u[i] != KEY_BACKSPACE {
        if i < k { assert u[i] == u[..k][i] == s[i]; }
        else { assert u[i] == u[k..][i - k] == s[i + 1]; }
      }
    }
  }

  // ---------------------------------------------------------------- echoes

  /** Blanks `cli_input_refresh` writes after a new line of `newLen` bytes
      that replaces one of `oldCount` bytes. */
  function Pad(newLen: nat, oldCount: nat): nat
  {
    if oldCount > newLen then oldCount - newLen else 0
  }

  /** `cli_input_refresh` with a string other than the line itself: return,
      prompt, the new line, blanks over the rest of the old one and as many
      backspaces. */
  function RefreshEcho(n: seq<byte>, oldCount: nat): (r: seq<byte>)
    ensures |r| == 1 + |PROMPT| + |n| + 2 * Pad(|n|, oldCount)
    ensures r[0] == KEY_ENTER
    ensures |n| + Pad(|n|, oldCount) >= oldCount
  {
    [KEY_ENTER] + PROMPT + n + Repeat(SPACE, Pad(|n|, oldCount)) + Repeat(KEY_BACKSPACE, Pad(|n|, oldCount))
  }

  /** `cli_input_refresh` of the line itself: return, prompt and the line. */
  function RedrawEcho(n: seq<byte>): (r: seq<byte>)
    ensures |r| == 1 + |PROMPT| + |n|
    ensures r[0] == KEY_ENTER && r[1..] == PROMPT + n
  {
    [KEY_ENTER] + PROMPT + n
  }

  /** `cli_input_add_char`: the byte alone at the end of the line; in the
      middle, the new line is refreshed and the cursor walked back to just
      after the byte. */
  function AddCharEcho(s: seq<byte>, k: nat, c: byte): (r: seq<byte>)
    requires k <= |s|
    ensures k == |s| ==> r == [c]
    ensures k < |s| ==> |r| == 1 + |PROMPT| + (|s| + 1) + (|s| - k)
                        && r[0] == KEY_ENTER
  {
    if k == |s| then [c]
    else RefreshEcho(Insert(s, k, c), |s| + 1) + Repeat(KEY_BACKSPACE, |s| - k)
  }

  /** `cli_input_rem_char` with the cursor at `k > 0`: at the end of the line
      backspace, blank, backspace; in the middle, the shorter line is
      refreshed and the cursor walked back to `k - 1`. */
  function RemCharEcho(s: seq<byte>, k: nat): (r: seq<byte>)
    requires 0 < k <= |s|
    ensures k == |s| ==> r == [KEY_BACKSPACE, SPACE, KEY_BACKSPACE]
    ensures k < |s| ==> |r| == 1 + |PROMPT| + (|s| - 1) + 2 + (|s| - k)
                        && r[0] == KEY_ENTER
  {
    if k == |s| then [KEY_BACKSPACE, SPACE, KEY_BACKSPACE]
    else RefreshEcho(RemoveAt(s, k - 1), |s|) + Repeat(KEY_BACKSPACE, |s| - k)
  }

  /** `cli_input_delete` as written: the byte under the cursor is echoed to
      step over it only when it is not the last byte of the line. */
  function DeleteEchoAsWritten(s: seq<byte>, k: nat): (r: seq<byte>)
    requires k < |s|
    ensures k + 1 < |s| ==> r == DeleteEcho(s, k)
    ensures k + 1 == |s| ==> r == [KEY_BACKSPACE, SPACE, KEY_BACKSPACE]
  {
    (if k + 1 != |s| then [s[k]] else []) + RemCharEcho(s, k + 1)
  }

  /** `cli_input_delete` corrected: the byte under the cursor is always
      echoed to step over it, then the byte before the cursor is removed. */
  function DeleteEcho(s: seq<byte>, k: nat): (r: seq<byte>)
    requires k < |s|
    ensures |r| > 0 && r[0] == s[k] && r[1..] == RemCharEcho(s, k + 1)
  {
    [s[k]] + RemCharEcho(s, k + 1)
  }

  // ------------------------------------------------------- terminal in sync

  lemma GlyphsAppend(a: seq<byte>, b: seq<byte>)
    requires Glyphs(a) && Glyphs(b)
    ensures Glyphs(a + b)
  {
    forall i | 0 <= i < |a + b| ensures (a + b)[i] != KEY_ENTER && (a + b)[i] != KEY_BACKSPACE {
      if i >= |a| { assert (a + b)[i] == b[i - |a|]; }
    }
  }

  /** A refresh shows the new line with the cursor at its end, provided the
      blanks reach over what was drawn before. */
  lemma {:induction false} RefreshInSync(sc: Screen, s: seq<byte>, k: nat, n: seq<byte>, oldCount: nat)
    requires Shows(sc, s, k) && Glyphs(n)
    requires |s| <= oldCount || |s| <= |n|
    ensures Shows(Run(sc, RefreshEcho(n, oldCount)), n, |n|)
  {
    var pad := Pad(|n|, oldCount);
    var g := PROMPT + n + Repeat(SPACE, pad);
    GlyphsAppend(PROMPT, n);
    GlyphsAppend(PROMPT + n, Repeat(SPACE, pad));
    assert RefreshEcho(n, oldCount) == ([KEY_ENTER] + g) + Repeat(KEY_BACKSPACE, pad);
    RunAppend(sc, [KEY_ENTER] + g, Repeat(KEY_BACKSPACE, pad));
    RunReturnGlyphs(sc, g);
    var line := Overwrite(sc.line, 0, g);
    RunBackspaces(Screen(line, |g|), pad);
    assert line[..|g|] == g;
    assert line[..|PROMPT| + |n|] == g[..|PROMPT| + |n|] == PROMPT + n;
    forall i | |PROMPT| + |n| <= i < |line| ensures line[i] == SPACE {
      if i < |g| {
        assert line[i] == g[i] == Repeat(SPACE, pad)[i - |PROMPT| - |n|];
      } else {
        assert line[i] == line[|g|..][i - |g|] == sc.line[|g|..][i - |g|] == sc.line[i];
      }
    }
  }

  /** Redrawing the line in place shows it with the cursor at its end when it
      is at least as long as what was drawn before. */
  lemma RedrawInSync(sc: Screen, s: seq<byte>, k: nat, n: seq<byte>)
    requires Shows(sc, s, k) && Glyphs(n) && |s| <= |n|
    ensures Shows(Run(sc, RedrawEcho(n)), n, |n|)
  {
    RefreshInSync(sc, s, k, n, 0);
    assert RefreshEcho(n, 0) == RedrawEcho(n);
  }

  /** Walking the cursor back after a refresh. */
  lemma ShiftBack(sc: Screen, n: seq<byte>, j: nat)
    requires Shows(sc, n, |n|) && j <= |n|
    ensures Shows(Run(sc, Repeat(KEY_BACKSPACE, j)), n, |n| - j)
  {
    RunBackspaces(sc, j);
  }

  lemma AddCharInSync(sc: Screen, s: seq<byte>, k: nat, c: byte)
    requires Shows(sc, s, k) && Glyphs(s) && k <= |s|
    requires c != KEY_ENTER && c != KEY_BACKSPACE
    ensures Shows(Run(sc, AddCharEcho(s, k, c)), Insert(s, k, c), k + 1)
  {
    var t := Insert(s, k, c);
    if k == |s| {
      assert Glyphs([c]);
      RunGlyphs(sc, [c]);
      var line := Overwrite(sc.line, sc.col, [c]);
      assert t == s + [c];
      assert line[..|PROMPT| + |t|] == PROMPT + t by {
        assert line[..sc.col] == sc.line[..|PROMPT| + |s|];
      }
      forall i | |PROMPT| + |t| <= i < |line| ensures line[i] == SPACE {
        assert line[i] == line[sc.col + 1..][i - sc.col - 1] == sc.line[sc.col + 1..][i - sc.col - 1];
      }
    } else {
      GlyphsKept(s, k, c);
      RunAppend(sc, RefreshEcho(t, |s| + 1), Repeat(KEY_BACKSPACE, |s| - k));
      RefreshInSync(sc, s, k, t, |s| + 1);
      ShiftBack(Run(sc, RefreshEcho(t, |s| + 1)), t, |s| - k);
    }
  }

  lemma RemCharInSync(sc: Screen, s: seq<byte>, k: nat)
    requires Shows(sc, s, k) && Glyphs(s) && 0 < k <= |s|
    ensures Shows(Run(sc, RemCharEcho(s, k)), RemoveAt(s, k - 1), k - 1)
  {
    var t := RemoveAt(s, k - 1);
    if k == |s| {
      var sc1 := Screen(sc.line, sc.col - 1);
      var sc2 := Screen(sc.line[sc1.col := SPACE], sc.col);
      assert Run(sc, [KEY_BACKSPACE, SPACE, KEY_BACKSPACE]) == Screen(sc2.line, sc1.col) by {
        assert Put(sc, KEY_BACKSPACE) == sc1;
        assert Put(sc1, SPACE) == sc2;
        assert [KEY_BACKSPACE, SPACE, KEY_BACKSPACE][1..] == [SPACE, KEY_BACKSPACE];
        assert [SPACE, KEY_BACKSPACE][1..] == [KEY_BACKSPACE];
        assert Run(sc2, [KEY_BACKSPACE]) == Run(Put(sc2, KEY_BACKSPACE), []);
      }
      assert t == s[..k - 1];
      assert sc2.line[..|PROMPT| + |t|] == sc.line[..|PROMPT| + |t|];
      assert sc.line[..|PROMPT| + |t|] == (PROMPT + s)[..|PROMPT| + |t|];
    } else {
      GlyphsKept(s, k - 1, SPACE);
      RunAppend(sc, RefreshEcho(t, |s|), Repeat(KEY_BACKSPACE, |s| - k));
      RefreshInSync(sc, s, k, t, |s|);
      ShiftBack(Run(sc, RefreshEcho(t, |s|)), t, |s| - k);
    }
  }

  /** The corrected delete keeps the terminal in sync. */
  lemma DeleteInSync(sc: Screen, s: seq<byte>, k: nat)
    requires Shows(sc, s, k) && Glyphs(s) && k < |s|
    ensures Shows(Run(sc, DeleteEcho(s, k)), RemoveAt(s, k), k)
  {
    RunAppend(sc, [s[k]], RemCharEcho(s, k + 1));
    StepRight(sc, s, k);
    RemCharInSync(Run(sc, [s[k]]), s, k + 1);
  }

  /** Echoing the byte under the cursor steps over it. */
  lemma StepRight(sc: Screen, s: seq<byte>, k: nat)
    requires Shows(sc, s, k) && Glyphs(s) && k < |s|
    ensures Shows(Run(sc, [s[k]]), s, k + 1)
  {
    assert Glyphs([s[k]]) by { assert [s[k]][0] == s[k]; }
    RunGlyphs(sc, [s[k]]);
    var line := Overwrite(sc.line, sc.col, [s[k]]);
    assert sc.line[sc.col] == (PROMPT + s)[sc.col] == s[k];
    assert line == sc.line;
  }

  /** The delete as written: with the cursor on the last byte of "ab" the
      terminal ends up showing " b" with its cursor on the blank, while the
      line is "a" with the cursor after it. */
  lemma DeleteAsWrittenOutOfSync()
    ensures var s: seq<byte> := [0x61, 0x62];
            var sc := Screen(PROMPT + s, |PROMPT| + 1);
            Shows(sc, s, 1)
            && Run(sc, DeleteEchoAsWritten(s, 1)) == Screen(PROMPT + [SPACE, 0x62], |PROMPT|)
            && !Shows(Run(sc, DeleteEchoAsWritten(s, 1)), RemoveAt(s, 1), 1)
  {
    var s: seq<byte> := [0x61, 0x62];
    var sc := Screen(PROMPT + s, |PROMPT| + 1);
    assert DeleteEchoAsWritten(s, 1) == [KEY_BACKSPACE, SPACE, KEY_BACKSPACE];
    var sc1 := Put(sc, KEY_BACKSPACE);
    var sc2 := Put(sc1, SPACE);
    assert sc2 == Screen(PROMPT + [SPACE, 0x62], 4);
    assert Run(sc, [KEY_BACKSPACE, SPACE, KEY_BACKSPACE]) == Run(sc1, [SPACE, KEY_BACKSPACE]);
    assert Run(sc1, [SPACE, KEY_BACKSPACE]) == Run(sc2, [KEY_BACKSPACE]);
    assert Run(sc2, [KEY_BACKSPACE]) == Run(Put(sc2, KEY_BACKSPACE), []);
    var r := Screen(PROMPT + [SPACE, 0x62], |PROMPT|);
    assert r.col != |PROMPT| + 1;
  }

  /** HOME: `k` backspaces bring the cursor to the start of the line. */
  lemma HomeInSync(sc: Screen, s: seq<byte>, k: nat)
    requires Shows(sc, s, k) && k <= |s|
    ensures Shows(Run(sc, Repeat(KEY_BACKSPACE, k)), s, 0)
  {
    RunBackspaces(sc, k);
  }

  /** END: echoing the rest of the line brings the cursor to its end. */
  lemma EndInSync(sc: Screen, s: seq<byte>, k: nat)
    requires Shows(sc, s, k) && Glyphs(s) && k <= |s|
    ensures Shows(Run(sc, s[k..]), s, |s|)
  {
    var g := s[k..];
    assert Glyphs(g) by {
      forall i | 0 <= i < |g| ensures g[i] != KEY_ENTER && g[i] != KEY_BACKSPACE {
        assert g[i] == s[k + i];
      }
    }
    RunGlyphs(sc, g);
    var line := Overwrite(sc.line, sc.col, g);
    assert (PROMPT + s)[sc.col..] == g;
    assert line[..|PROMPT| + |s|] == sc.line[..|PROMPT| + |s|] by {
      assert line[..sc.col] == sc.line[..sc.col];
      assert line[sc.col..|PROMPT| + |s|] == g == sc.line[sc.col..|PROMPT| + |s|];
      assert line[..|PROMPT| + |s|] == line[..sc.col] + line[sc.col..|PROMPT| + |s|];
      assert sc.line[..|PROMPT| + |s|] == sc.line[..sc.col] + sc.line[sc.col..|PROMPT| + |s|];
    }
  }
}
