/** The terminal at the other end of the serial line, as far as the line
    editor relies on it: one line of glyphs and a column. A carriage return
    moves to column 0, a backspace (which is also the editor's "left shift")
    moves one column left, and every other byte is drawn at the column, which
    then advances. Nothing else of a real terminal is modelled: escape
    sequences, tabs and line feeds are drawn like any other byte. */
module Terminal {
  import opened CliConfig

  datatype Screen = Screen(line: seq<byte>, col: nat)

  /** No byte that moves the terminal's cursor instead of drawing. */
  predicate Glyphs(s: seq<byte>)
  {
    forall i :: 0 <= i < |s| ==> s[i] != KEY_ENTER && s[i] != KEY_BACKSPACE
  }

  /** `g` drawn over `line` from column `c`. */
  function Overwrite(line: seq<byte>, c: nat, g: seq<byte>): (r: seq<byte>)
    requires c <= |line|
    ensures |r| == if c + |g| <= |line| then |line| else c + |g|
    ensures r[..c] == line[..c] && r[c..c + |g|] == g
    ensures c + |g| <= |line| ==> r[c + |g|..] == line[c + |g|..]
  {
    line[..c] + g + (if c + |g| <= |line| then line[c + |g|..] else [])
  }

  /** The effect of one byte on the screen. */
  function Put(sc: Screen, b: byte): Screen
  {
    if b == KEY_ENTER then Screen(sc.line, 0)
    else if b == KEY_BACKSPACE then Screen(sc.line, if sc.col > 0 then sc.col - 1 else 0)
    else if sc.col < |sc.line| then Screen(sc.line[sc.col := b], sc.col + 1)
    else Screen(sc.line + Repeat(SPACE, sc.col - |sc.line|) + [b], sc.col + 1)
  }

  /** The effect of a byte stream on the screen. */
  function Run(sc: Screen, bs: seq<byte>): Screen
    decreases |bs|
  {
    if |bs| == 0 then sc else Run(Put(sc, bs[0]), bs[1..])
  }

  /** The screen shows the prompt followed by `s` and nothing but blanks,
      with the terminal's cursor under byte `k` of `s`. */
  predicate Shows(sc: Screen, s: seq<byte>, k: nat)
  {
    |PROMPT| + |s| <= |sc.line|
    && sc.line[..|PROMPT| + |s|] == PROMPT + s
    && (forall i :: |PROMPT| + |s| <= i < |sc.line| ==> sc.line[i] == SPACE)
    && sc.col == |PROMPT| + k
  }

  /** Output can be split anywhere. */
  lemma {:induction false} RunAppend(sc: Screen, a: seq<byte>, b: seq<byte>)
    ensures Run(sc, a + b) == Run(Run(sc, a), b)
    decreases |a|
  {
    if |a| == 0 {
      assert a + b == b;
    } else {
      assert (a + b)[1..] == a[1..] + b;
      RunAppend(Put(sc, a[0]), a[1..], b);
    }
  }

  /** A glyph is drawn at the cursor, which advances. */
  lemma PutGlyph(sc: Screen, b: byte)
    requires sc.col <= |sc.line| && b != KEY_ENTER && b != KEY_BACKSPACE
    ensures Put(sc, b) == Screen(Overwrite(sc.line, sc.col, [b]), sc.col + 1)
  {
    var o := Overwrite(sc.line, sc.col, [b]);
    if sc.col < |sc.line| {
      assert sc.line[sc.col := b] == o by {
        forall i | 0 <= i < |o| ensures sc.line[sc.col := b][i] == o[i] {
          if i < sc.col { assert o[i] == o[..sc.col][i]; }
          else if i > sc.col { assert o[i] == o[sc.col + 1..][i - sc.col - 1]; }
        }
      }
    } else {
      assert Repeat(SPACE, 0) == [];
    }
  }

  /** Drawing `[b]` and then `g` after it is drawing `[b] + g`. */
  lemma OverwriteTwice(line: seq<byte>, c: nat, b: byte, g: seq<byte>)
    requires c <= |line|
    ensures Overwrite(Overwrite(line, c, [b]), c + 1, g) == Overwrite(line, c, [b] + g)
  {
    var o1 := Overwrite(line, c, [b]);
    var o2 := Overwrite(o1, c + 1, g);
    var o := Overwrite(line, c, [b] + g);
    assert |o2| == |o|;
    forall i | 0 <= i < |o| ensures o2[i] == o[i] {
      if i < c {
        assert o2[i] == o2[..c + 1][i] == o1[i] == o1[..c][i] == line[i];
        assert o[i] == o[..c][i];
      } else if i < c + 1 + |g| {
        assert o[i] == o[c..c + 1 + |g|][i - c] == ([b] + g)[i - c];
        if i == c {
          assert o2[i] == o2[..c + 1][i] == o1[i] == o1[c..c + 1][0];
        } else {
          assert o2[i] == o2[c + 1..c + 1 + |g|][i - c - 1];
        }
      } else {
        assert o2[i] == o2[c + 1 + |g|..][i - c - 1 - |g|] == o1[i];
        assert o1[i] == o1[c + 1..][i - c - 1];
        assert o[i] == o[c + 1 + |g|..][i - c - 1 - |g|];
      }
    }
  }

  /** Glyphs are drawn one after the other from the cursor on. */
  lemma {:induction false} RunGlyphs(sc: Screen, g: seq<byte>)
    requires sc.col <= |sc.line| && Glyphs(g)
    ensures Run(sc, g) == Screen(Overwrite(sc.line, sc.col, g), sc.col + |g|)
    decreases |g|
  {
    if |g| == 0 {
      assert Overwrite(sc.line, sc.col, g) == sc.line;
    } else {
      var sc1 := Put(sc, g[0]);
      PutGlyph(sc, g[0]);
      assert Glyphs(g[1..]) by {
        forall i | 0 <= i < |g[1..]| ensures g[1..][i] != KEY_ENTER && g[1..][i] != KEY_BACKSPACE {
          assert g[1..][i] == g[i + 1];
        }
      }
      RunGlyphs(sc1, g[1..]);
      OverwriteTwice(sc.line, sc.col, g[0], g[1..]);
      assert [g[0]] + g[1..] == g;
    }
  }

  /** `n` backspaces move the cursor `n` columns left. */
  lemma {:induction false} RunBackspaces(sc: Screen, n: nat)
    requires n <= sc.col
    ensures Run(sc, Repeat(KEY_BACKSPACE, n)) == Screen(sc.line, sc.col - n)
    decreases n
  {
    if n > 0 {
      var r := Repeat(KEY_BACKSPACE, n);
      assert r[0] == KEY_BACKSPACE;
      assert r[1..] == Repeat(KEY_BACKSPACE, n - 1);
      RunBackspaces(Put(sc, KEY_BACKSPACE), n - 1);
    }
  }

  /** A carriage return followed by glyphs redraws the line from column 0. */
  lemma RunReturnGlyphs(sc: Screen, g: seq<byte>)
    requires Glyphs(g)
    ensures Run(sc, [KEY_ENTER] + g) == Screen(Overwrite(sc.line, 0, g), |g|)
  {
    assert ([KEY_ENTER] + g)[1..] == g;
    RunGlyphs(Screen(sc.line, 0), g);
  }
}
