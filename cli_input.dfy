/** The line editor and key decoder of lib/cli_input.c.

    `CLI_Input_s` becomes the class `Input`: the Main and Transit buffers
    (`Buffer_t`, `Buffer`), the three-byte window of received bytes and the
    bytes echoed to the terminal so far. The editing pointer `CurBuffer`
    always designates Main, so the operations work on `main` directly and
    Transit is only ever used as scratch memory for splices. */
module CliInput {
  import opened CliConfig
  import opened TinyString
  import opened CliQueue
  import opened LineEdit

  /** Bytes of one buffer: the line and its terminator. */
  const BUFFER_BYTES: nat := CLI_CMD_BUF_SIZE + 1

  /** `Buffer_t`. The line is `data[..count]`; `count` and `cursor` never
      leave [0, CLI_CMD_BUF_SIZE] and the last byte of `data` is never
      written with anything but a NUL. The byte after the line is not always
      a NUL: a refresh copies the new line without a terminator. */
  class Buffer {
    const data: array<byte>
    var cursor: nat
    var count: nat

    /** Ranges only: what holds even between `cli_input_set_buffer` and the
        `strcat` after it, when the line still includes its NUL. */
    ghost predicate Sound()
      reads this, data
    {
      data.Length == BUFFER_BYTES && cursor <= count <= CLI_CMD_BUF_SIZE && data[CLI_CMD_BUF_SIZE] == NUL
    }

    ghost predicate Valid()
      reads this, data
    {
      Sound() && NoNul(data[..count])
    }

    ghost function Content(): seq<byte>
      reads this, data
      requires Sound()
    {
      data[..count]
    }

    /** A buffer of the zero-initialised static structure. */
    constructor Init()
      ensures Valid() && fresh(data)
      ensures count == 0 && cursor == 0
      ensures forall i :: 0 <= i < data.Length ==> data[i] == NUL
    {
      data := new byte[BUFFER_BYTES](_ => NUL);
      count := 0;
      cursor := 0;
    }
  }

  // ----------------------------------------------------------- key decoder

  const ARR_UP: seq<byte> := [0x1B, 0x5B, 0x41]
  const ARR_DOWN: seq<byte> := [0x1B, 0x5B, 0x42]
  const ARR_RIGHT: seq<byte> := [0x1B, 0x5B, 0x43]
  const ARR_LEFT: seq<byte> := [0x1B, 0x5B, 0x44]
  const ARR_ESC: seq<byte> := [0x1B, 0x1B, 0x1B]
  const ARR_DEL: seq<byte> := [0x1B, 0x5B, 0x33]
  const ARR_HOME: seq<byte> := [0x1B, 0x5B, 0x31]
  const ARR_END: seq<byte> := [0x1B, 0x5B, 0x34]

  /** `CLI_InputValue_t` */
  datatype InputValue = InputValue(keyCode: byte, isValid: bool, isAlphaBet: bool)

  /** The key a received byte `c` stands for, given the window `w` of the
      last three bytes received (which ends with `c`): the first of the eight
      patterns that equals the window, else the byte itself. */
  function KeyOf(w: seq<byte>, c: byte): (key: byte)
    ensures key != c ==> |w| == 3 && w[0] == 0x1B
    ensures key != c ==> key in {KEY_UP, KEY_DOWN, KEY_RIGHT, KEY_LEFT, KEY_ESCAPE, KEY_DEL, KEY_HOME, KEY_END}
  {
    if w == ARR_UP then KEY_UP
    else if w == ARR_DOWN then KEY_DOWN
    else if w == ARR_RIGHT then KEY_RIGHT
    else if w == ARR_LEFT then KEY_LEFT
    else if w == ARR_ESC then KEY_ESCAPE
    else if w == ARR_DEL then KEY_DEL
    else if w == ARR_HOME then KEY_HOME
    else if w == ARR_END then KEY_END
    else c
  }

  /** The value `cli_input_put_char` returns for the key `key` while the line
      holds `count` bytes. A key is accepted while the line has room, and
      backspace, enter and the interrupt byte always are; it is printable
      unless it is NUL, a line feed or a carriage return. */
  function Classify(key: byte, count: nat): (iv: InputValue)
    ensures iv.keyCode == key
    ensures iv.isValid <==> count < CLI_CMD_BUF_SIZE || key in {KEY_BACKSPACE, KEY_ENTER, CHAR_INTERRUPT}
    ensures iv.isAlphaBet <==> key !in {NUL, LINE_FEED, KEY_ENTER}
  {
    InputValue(key,
      count < CLI_CMD_BUF_SIZE || key == KEY_BACKSPACE || key == KEY_ENTER || key == CHAR_INTERRUPT,
      key != LINE_FEED && key != KEY_ENTER && key != NUL)
  }

  /** The eight patterns are distinct, so the order in which they are tried
      does not matter: each one yields its own key. */
  lemma KeyOfPattern(w: seq<byte>, c: byte)
    ensures w == ARR_UP ==> KeyOf(w, c) == KEY_UP
    ensures w == ARR_DOWN ==> KeyOf(w, c) == KEY_DOWN
    ensures w == ARR_RIGHT ==> KeyOf(w, c) == KEY_RIGHT
    ensures w == ARR_LEFT ==> KeyOf(w, c) == KEY_LEFT
    ensures w == ARR_ESC ==> KeyOf(w, c) == KEY_ESCAPE
    ensures w == ARR_DEL ==> KeyOf(w, c) == KEY_DEL
    ensures w == ARR_HOME ==> KeyOf(w, c) == KEY_HOME
    ensures w == ARR_END ==> KeyOf(w, c) == KEY_END
    ensures w !in {ARR_UP, ARR_DOWN, ARR_RIGHT, ARR_LEFT, ARR_ESC, ARR_DEL, ARR_HOME, ARR_END} ==> KeyOf(w, c) == c
  {
  }

  /** Only a byte that ends a pattern can be translated. */
  lemma KeyOfOtherByte(w: seq<byte>, c: byte)
    requires |w| == 3 && w[2] == c
    requires c !in {0x41, 0x42, 0x43, 0x44, 0x1B, 0x33, 0x31, 0x34}
    ensures KeyOf(w, c) == c
  {
  }

  /** The bytes of an arrow sequence as they arrive: ESC is passed on as
      itself unless two ESC bytes came just before it, the bracket always is,
      and only the third byte is the arrow key. */
  lemma {:induction false} ArrowUpArrives(w: seq<byte>)
    requires |w| == 3
    ensures var w1 := Pushed(w, 3, true, 0x1B);
            var w2 := Pushed(w1, 3, true, 0x5B);
            var w3 := Pushed(w2, 3, true, 0x41);
            (KeyOf(w1, 0x1B) == if w[1..] == [0x1B, 0x1B] then KEY_ESCAPE else 0x1B)
            && KeyOf(w2, 0x5B) == 0x5B
            && KeyOf(w3, 0x41) == KEY_UP
  {
    var w1 := Pushed(w, 3, true, 0x1B);
    assert w1 == [w[1], w[2], 0x1B];
    var w2 := Pushed(w1, 3, true, 0x5B);
    assert w2 == [w[2], 0x1B, 0x5B];
    assert w2[2] == 0x5B;
    WindowHoldsLastThree(w, 0x1B, 0x5B, 0x41);
  }

  // ---------------------------------------------- memory after the splices

  /** Main's bytes after `cli_input_rem_char` with `count` bytes and the
      cursor at `k`: at the end of the line the last byte is cleared; in the
      middle the shorter line is copied over the front and the old last byte
      stays behind it. */
  function MainAfterRem(d: seq<byte>, count: nat, k: nat): seq<byte>
    requires 0 < k <= count < |d|
  {
    if k == count then d[count - 1 := NUL]
    else RemoveAt(d[..count], k - 1) + d[count - 1..]
  }

  /** Transit's bytes after `cli_input_rem_char`: untouched at the end of
      the line, otherwise the shorter line and a NUL. */
  function TransitAfterRem(t: seq<byte>, d: seq<byte>, count: nat, k: nat): seq<byte>
    requires 0 < k <= count < |d| && count <= |t|
  {
    if k == count then t
    else RemoveAt(d[..count], k - 1) + [NUL] + t[count..]
  }

  /** The two copies of `cli_input_rem_char` into Transit: the line
      `src[..n]` without its byte `tmpPos`, followed by a NUL. */
  method SpliceOut(src: seq<byte>, n: nat, tmpPos: nat, dst: array<byte>)
    requires tmpPos < n < |src| && n <= dst.Length
    modifies dst
    ensures dst[..] == RemoveAt(src[..n], tmpPos) + [NUL] + old(dst[n..])
  {
    ghost var t := dst[..];
    StrCpy(src, 0, dst, 0, tmpPos);
    ghost var d1 := dst[..];
    assert d1 == t[..0] + src[0..tmpPos] + t[tmpPos..];
    StrCpy(src, tmpPos + 1, dst, tmpPos, n - tmpPos);
    ghost var d2 := dst[..];
    assert d2 == d1[..tmpPos] + src[tmpPos + 1..n + 1] + d1[n..];
    PutByte(dst, n - 1, NUL);
    SpliceOutBytes(src, n, tmpPos, t, d1, d2, dst[..]);
  }

  /** The bytes the two copies and the final NUL of `SpliceOut` leave. */
  lemma SpliceOutBytes(src: seq<byte>, n: nat, p: nat, t: seq<byte>, d1: seq<byte>, d2: seq<byte>, r: seq<byte>)
    requires p < n < |src| && n <= |t|
    requires d1 == t[..0] + src[0..p] + t[p..]
    requires d2 == d1[..p] + src[p + 1..n + 1] + d1[n..]
    requires r == d2[n - 1 := NUL]
    ensures r == RemoveAt(src[..n], p) + [NUL] + t[n..]
  {
    var w := RemoveAt(src[..n], p) + [NUL] + t[n..];
    assert |r| == |w|;
    forall i | 0 <= i < |r| ensures r[i] == w[i] {
      if i < p {
        assert r[i] == d2[i] == d1[i] == src[i];
        assert w[i] == src[..n][i];
      } else if i < n - 1 {
        assert r[i] == d2[i] == src[i + 1];
        assert w[i] == src[..n][i + 1];
      } else if i >= n {
        assert r[i] == d2[i] == d1[i] == t[i];
        assert w[i] == t[n..][i - n];
      }
    }
  }

  /** The three copies of `cli_input_add_char` into Transit: the line
      `src[..n]` with `c` inserted at `tmpPos`, followed by a NUL. */
  method SpliceIn(src: seq<byte>, n: nat, tmpPos: nat, c: byte, dst: array<byte>)
    requires tmpPos <= n < |src| && n + 2 <= dst.Length
    modifies dst
    ensures dst[..] == Insert(src[..n], tmpPos, c) + [NUL] + old(dst[n + 2..])
  {
    ghost var t := dst[..];
    PlaceFront(src, tmpPos, c, dst);
    ghost var d2 := dst[..];
    StrCpy(src, tmpPos, dst, tmpPos + 1, n - tmpPos);
    ghost var d3 := dst[..];
    assert d3 == d2[..tmpPos + 1] + src[tmpPos..n] + d2[n + 1..];
    PutByte(dst, n + 1, NUL);
    SpliceInBytes(src, n, tmpPos, c, t, d2, d3, dst[..]);
  }

  /** The first two copies of `cli_input_add_char`: the bytes before the
      cursor, then `c`. */
  method PlaceFront(src: seq<byte>, tmpPos: nat, c: byte, dst: array<byte>)
    requires tmpPos <= |src| && tmpPos < dst.Length
    modifies dst
    ensures dst[..] == src[..tmpPos] + [c] + old(dst[tmpPos + 1..])
  {
    ghost var t := dst[..];
    StrCpy(src, 0, dst, 0, tmpPos);
    ghost var d1 := dst[..];
    assert d1 == t[..0] + src[0..tmpPos] + t[tmpPos..];
    PutByte(dst, tmpPos, c);
    assert dst[..] == d1[tmpPos := c];
    assert d1[tmpPos := c] == src[..tmpPos] + [c] + t[tmpPos + 1..];
  }

  /** The bytes the three copies and the final NUL of `SpliceIn` leave. */
  lemma SpliceInBytes(src: seq<byte>, n: nat, p: nat, c: byte, t: seq<byte>,
                      d2: seq<byte>, d3: seq<byte>, r: seq<byte>)
    requires p <= n < |src| && n + 2 <= |t|
    requires d2 == src[..p] + [c] + t[p + 1..]
    requires d3 == d2[..p + 1] + src[p..n] + d2[n + 1..]
    requires r == d3[n + 1 := NUL]
    ensures r == Insert(src[..n], p, c) + [NUL] + t[n + 2..]
  {
    var w := Insert(src[..n], p, c) + [NUL] + t[n + 2..];
    assert |r| == |w|;
    forall i | 0 <= i < |r| ensures r[i] == w[i] {
      if i < p {
        assert r[i] == d3[i] == d2[i] == src[i];
        assert w[i] == src[..n][i];
      } else if p < i <= n {
        assert r[i] == d3[i] == src[i - 1];
        assert w[i] == src[..n][i - 1];
      } else if i > n + 1 {
        assert r[i] == d3[i] == d2[i] == t[i];
        assert w[i] == t[n + 2..][i - n - 2];
      }
    }
  }

  /** A line with a byte removed or a non-NUL byte inserted has no NUL. */
  lemma NoNulKept(s: seq<byte>, k: nat, c: byte)
    requires NoNul(s) && k <= |s| && c != NUL
    ensures NoNul(Insert(s, k, c))
    ensures k < |s| ==> NoNul(RemoveAt(s, k))
  {
    var w := Insert(s, k, c);
    forall i | 0 <= i < |w| ensures w[i] != NUL {
      if i < k { assert w[i] == s[i]; }
      else if i > k { assert w[i] == w[k + 1..][i - k - 1] == s[i - 1]; }
    }
    if k < |s| {
      var r := RemoveAt(s, k);
      forall i | 0 <= i < |r| ensures r[i] != NUL {
        if i < k { assert r[i] == s[i]; } else { assert r[i] == r[k..][i - k] == s[i + 1]; }
      }
    }
  }

  /** The key window of `cli_input_init`: a forced queue of three bytes,
      filled with three zero pushes. */
  method NewSymbols() returns (q: Queue)
    ensures fresh(q) && fresh(q.slots)
    ensures q.Valid() && q.size == 3 && q.cntr == 3 && q.Forced()
    ensures q.Contents() == [0, 0, 0]
  {
    q := new Queue.Init(3, QUEUE_FORCED_PUSH_POP_MSK);
    var ok := q.Push(0);
    ok := q.Push(0);
    ok := q.Push(0);
  }

  class Input {
    const main: Buffer
    const transit: Buffer
    const symbols: Queue
    /** Everything the editor has sent to the terminal. */
    var echo: seq<byte>

    ghost predicate Sound()
      reads main, transit, main.data, transit.data, symbols
    {
      main != transit && main.data != transit.data
      && symbols.slots != main.data && symbols.slots != transit.data
      && main.Sound() && transit.Valid() && transit.count == 0 && transit.cursor == 0
      && symbols.Valid() && symbols.size == 3 && symbols.cntr == 3 && symbols.Forced()
    }

    ghost predicate Valid()
      reads main, transit, main.data, transit.data, symbols
    {
      Sound() && main.Valid()
    }

    /** The line being edited. */
    ghost function Line(): seq<byte>
      reads main, transit, main.data, transit.data, symbols
      requires Sound()
    {
      main.Content()
    }

    /** `cli_input_init`: both buffers empty, Main selected, and three zero
        bytes in the window. */
    constructor Init()
      ensures Valid() && fresh(main) && fresh(transit) && fresh(symbols)
      ensures fresh(main.data) && fresh(transit.data) && fresh(symbols.slots)
      ensures Line() == [] && main.cursor == 0
      ensures forall i :: 0 <= i < main.data.Length ==> main.data[i] == NUL
      ensures forall i :: 0 <= i < transit.data.Length ==> transit.data[i] == NUL
      ensures symbols.Contents() == [0, 0, 0]
      ensures echo == []
    {
      var q := NewSymbols();
      symbols := q;
      main := new Buffer.Init();
      transit := new Buffer.Init();
      echo := [];
    }

    /** `cli_input_is_empty` */
    method IsEmpty() returns (r: bool)
      requires Sound()
      ensures r <==> Line() == []
    {
      r := main.count == 0;
    }

    /** `cli_input_is_full` */
    method IsFull() returns (r: bool)
      requires Sound()
      ensures r <==> |Line()| >= CLI_CMD_BUF_SIZE
    {
      r := main.count >= CLI_CMD_BUF_SIZE;
    }

    /** The loop of `cli_input_refresh` that echoes the first `n` bytes of
        Main. */
    method EchoData(n: nat)
      requires Sound() && n <= main.data.Length
      modifies this`echo
      ensures echo == old(echo) + main.data[..n]
    {
      var i := 0;
      while i < n
        invariant 0 <= i <= n
        invariant echo == old(echo) + main.data[..i]
        modifies this`echo
      {
        echo := echo + [main.data[i]];
        i := i + 1;
        assert main.data[..i] == main.data[..i - 1] + [main.data[i - 1]];
      }
    }

    /** The two loops of `cli_input_refresh` that blank what is left of a
        line of `lenCurCmd` bytes after one of `lenNewCmd` bytes, and step
        back over the blanks. */
    method EchoPadding(lenNewCmd: nat, lenCurCmd: nat)
      modifies this`echo
      ensures echo == old(echo) + Repeat(SPACE, Pad(lenNewCmd, lenCurCmd)) + Repeat(KEY_BACKSPACE, Pad(lenNewCmd, lenCurCmd))
    {
      var cntSpcChar := 0;
      var i := lenNewCmd;
      while i < lenCurCmd
        invariant lenNewCmd <= i && (lenNewCmd <= lenCurCmd ==> i <= lenCurCmd)
        invariant lenNewCmd > lenCurCmd ==> i == lenNewCmd
        invariant cntSpcChar == i - lenNewCmd
        invariant echo == old(echo) + Repeat(SPACE, cntSpcChar)
        modifies this`echo
      {
        echo := echo + [SPACE];
        cntSpcChar := cntSpcChar + 1;
        i := i + 1;
        RepeatSnoc(SPACE, cntSpcChar - 1);
      }
      ghost var e1 := echo;
      i := 0;
      while i < cntSpcChar
        invariant 0 <= i <= cntSpcChar
        invariant echo == e1 + Repeat(KEY_BACKSPACE, i)
        modifies this`echo
      {
        echo := echo + [KEY_BACKSPACE];
        i := i + 1;
        RepeatSnoc(KEY_BACKSPACE, i - 1);
      }
    }

    /** `cli_input_refresh` with a string held elsewhere (Transit or a
        history entry): the string becomes the line, unterminated, with the
        cursor at its end, and the terminal is redrawn. */
    method Refresh(src: seq<byte>)
      requires Sound()
      requires Terminated(src) && StrLen(Some(src)) <= CLI_CMD_BUF_SIZE
      modifies this`echo, main, main.data
      ensures Valid()
      ensures Line() == CStr(src) && main.cursor == main.count
      ensures main.data[..] == CStr(src) + old(main.data[|CStr(src)|..])
      ensures echo == old(echo) + RefreshEcho(CStr(src), old(main.count))
    {
      echo := echo + ([KEY_ENTER] + PROMPT);
      ghost var e0 := echo;
      var lenNewCmd := StrLen(Some(src));
      var lenCurCmd := main.count;
      LoadLine(src);
      EchoData(lenNewCmd);
      EchoPadding(lenNewCmd, lenCurCmd);
      ghost var pad := Pad(lenNewCmd, lenCurCmd);
      assert echo == ((e0 + CStr(src)) + Repeat(SPACE, pad)) + Repeat(KEY_BACKSPACE, pad);
      assert RefreshEcho(CStr(src), lenCurCmd) == (([KEY_ENTER] + PROMPT) + CStr(src)) + Repeat(SPACE, pad) + Repeat(KEY_BACKSPACE, pad);
    }

    /** The copy of `cli_input_refresh`: the string becomes Main's
        unterminated line, with the cursor at its end. */
    method LoadLine(src: seq<byte>)
      requires Sound()
      requires Terminated(src) && StrLen(Some(src)) <= CLI_CMD_BUF_SIZE
      modifies main, main.data
      ensures Valid()
      ensures Line() == CStr(src) && main.cursor == main.count
      ensures main.data[..] == CStr(src) + old(main.data[|CStr(src)|..])
    {
      var n := StrLen(Some(src));
      ghost var d := main.data[..];
      StrCpy(src, 0, main.data, 0, n);
      main.count := n;
      main.cursor := n;
      assert main.data[..] == CStr(src) + d[n..];
      assert main.data[..n] == CStr(src);
    }

    /** `cli_input_refresh` of Main itself: the terminal is redrawn with the
        line, which does not change. */
    method Redraw()
      requires Sound()
      modifies this`echo
      ensures echo == old(echo) + RedrawEcho(Line())
    {
      echo := echo + ([KEY_ENTER] + PROMPT);
      EchoData(main.count);
    }

    /** `_rem_char`: backspace, blank, backspace, and the last byte of the
        line dropped. */
    method RemCharAtEnd()
      requires Valid() && main.cursor > 0 && main.cursor == main.count
      modifies this`echo, main, main.data
      ensures Valid()
      ensures Line() == old(Line())[..|old(Line())| - 1] && main.cursor == main.count
      ensures main.data[..] == old(main.data[..])[main.count := NUL]
      ensures echo == old(echo) + [KEY_BACKSPACE, SPACE, KEY_BACKSPACE]
    {
      ghost var d := main.data[..];
      echo := echo + [KEY_BACKSPACE, SPACE, KEY_BACKSPACE];
      main.cursor := main.cursor - 1;
      main.count := main.count - 1;
      main.data[main.count] := NUL;
      assert main.data[..main.count] == d[..main.count];
    }

    /** The loop that walks the cursor back `j` bytes from the end of the
        line after a splice. */
    method ShiftLeft(j: nat)
      requires Valid() && main.cursor == main.count && j <= main.count
      modifies this`echo, main`cursor
      ensures Valid() && Line() == old(Line())
      ensures main.cursor == main.count - j
      ensures echo == old(echo) + Repeat(KEY_LSHIFT, j)
    {
      var pos := 0;
      while pos < j
        invariant 0 <= pos <= j && Valid() && main.count == old(main.count)
        invariant main.cursor == main.count - pos
        invariant echo == old(echo) + Repeat(KEY_LSHIFT, pos)
        modifies this`echo, main`cursor
      {
        echo := echo + [KEY_LSHIFT];
        main.cursor := main.cursor - 1;
        pos := pos + 1;
        RepeatSnoc(KEY_LSHIFT, pos - 1);
      }
    }

    /** `cli_input_rem_char`: removes the byte before the cursor, which must
        not be at the start of the line. */
    method RemChar()
      requires Valid() && main.cursor > 0
      modifies this`echo, main, main.data, transit.data
      ensures Valid()
      ensures Line() == RemoveAt(old(Line()), old(main.cursor) - 1)
      ensures main.cursor == old(main.cursor) - 1
      ensures main.data[..] == MainAfterRem(old(main.data[..]), old(main.count), old(main.cursor))
      ensures transit.data[..] == TransitAfterRem(old(transit.data[..]), old(main.data[..]), old(main.count), old(main.cursor))
      ensures echo == old(echo) + RemCharEcho(old(Line()), old(main.cursor))
    {
      if main.cursor != main.count {
        RemCharInside();
      } else {
        ghost var s := Line();
        RemCharAtEnd();
        assert s[..|s| - 1] == RemoveAt(s, main.cursor);
      }
    }

    /** The branch of `cli_input_rem_char` with the cursor inside the line:
        the shorter line is built in Transit, refreshed into Main, and the
        cursor walked back. */
    method RemCharInside()
      requires Valid() && 0 < main.cursor < main.count
      modifies this`echo, main, main.data, transit.data
      ensures Valid()
      ensures Line() == RemoveAt(old(Line()), old(main.cursor) - 1)
      ensures main.cursor == old(main.cursor) - 1
      ensures main.data[..] == Line() + old(main.data[main.count - 1..])
      ensures transit.data[..] == Line() + [NUL] + old(transit.data[main.count..])
      ensures echo == old(echo) + RemCharEcho(old(Line()), old(main.cursor))
    {
      ghost var s := Line();
      ghost var d := main.data[..];
      var n := main.count;
      var k := main.cursor;
      var tmpPos := k - 1;
      RemoveIntoTransit();
      ghost var e0 := echo;
      Refresh(transit.data[..]);
      ghost var e1 := echo;
      ShiftLeft(main.count - tmpPos);
      EchoThen(e0, RefreshEcho(RemoveAt(s, tmpPos), n), e1, Repeat(KEY_LSHIFT, n - k), echo);
      RemCharEchoInside(s, k);
    }

    /** The two copies of `cli_input_rem_char` into Transit: the line
        without the byte before the cursor, terminated. */
    method RemoveIntoTransit()
      requires Valid() && 0 < main.cursor < main.count
      modifies transit.data
      ensures Sound() && Line() == old(Line())
      ensures transit.data[..] == RemoveAt(Line(), main.cursor - 1) + [NUL] + old(transit.data[main.count..])
      ensures Terminated(transit.data[..]) && CStr(transit.data[..]) == RemoveAt(Line(), main.cursor - 1)
    {
      ghost var s := Line();
      var n := main.count;
      var tmpPos := main.cursor - 1;
      SpliceOut(main.data[..], n, tmpPos, transit.data);
      assert main.data[..n] == s;
      NoNulKept(s, tmpPos, SPACE);
      assert transit.data[..n - 1] == RemoveAt(s, tmpPos);
      CStrOf(transit.data[..], n - 1);
    }

    /** `_add_char`: the byte appended and echoed. */
    method AddCharAtEnd(c: byte)
      requires Valid() && main.cursor == main.count < CLI_CMD_BUF_SIZE && c != NUL
      modifies this`echo, main, main.data
      ensures Valid()
      ensures Line() == old(Line()) + [c] && main.cursor == main.count
      ensures main.data[..] == old(main.data[..])[old(main.count) := c][main.count := NUL]
      ensures echo == old(echo) + [c]
    {
      ghost var s := Line();
      echo := echo + [c];
      main.data[main.cursor] := c;
      main.count := main.count + 1;
      main.cursor := main.cursor + 1;
      main.data[main.count] := NUL;
      assert main.data[..main.count] == s + [c];
    }

    /** `cli_input_add_char`: inserts `c` at the cursor, which moves past
        it. The line must have room. */
    method AddChar(c: byte)
      requires Valid() && main.count < CLI_CMD_BUF_SIZE && c != NUL
      modifies this`echo, main, main.data, transit.data
      ensures Valid()
      ensures Line() == Insert(old(Line()), old(main.cursor), c)
      ensures main.cursor == old(main.cursor) + 1
      ensures main.data[..] == Line() + [NUL] + old(main.data[main.count + 2..])
      ensures old(main.cursor) == old(main.count) ==> transit.data[..] == old(transit.data[..])
      ensures old(main.cursor) != old(main.count) ==>
                transit.data[..] == Line() + [NUL] + old(transit.data[main.count + 2..])
      ensures echo == old(echo) + AddCharEcho(old(Line()), old(main.cursor), c)
    {
      if main.cursor != main.count {
        AddCharInside(c);
      } else {
        ghost var s := Line();
        ghost var d := main.data[..];
        ghost var n := main.count;
        AddCharAtEnd(c);
        assert main.data[..] == Insert(s, n, c) + [NUL] + d[n + 2..];
      }
    }

    /** The branch of `cli_input_add_char` with the cursor inside the line:
        the longer line is built in Transit, refreshed into Main, and the
        cursor walked back to just after `c`. */
    method AddCharInside(c: byte)
      requires Valid() && main.cursor < main.count < CLI_CMD_BUF_SIZE && c != NUL
      modifies this`echo, main, main.data, transit.data
      ensures Valid()
      ensures Line() == Insert(old(Line()), old(main.cursor), c)
      ensures main.cursor == old(main.cursor) + 1
      ensures main.data[..] == Line() + [NUL] + old(main.data[main.count + 2..])
      ensures transit.data[..] == Line() + [NUL] + old(transit.data[main.count + 2..])
      ensures echo == old(echo) + AddCharEcho(old(Line()), old(main.cursor), c)
    {
      ghost var s := Line();
      ghost var d := main.data[..];
      var n := main.count;
      var k := main.cursor;
      ghost var w := Insert(s, k, c);
      InsertIntoTransit(c);
      GrowLine();
      ghost var g := main.data[..];
      var tmpPos := k + 1;
      var src := transit.data[..];
      assert CStr(src) == w && main.count == n + 1;
      ghost var e0 := echo;
      Refresh(src);
      ghost var e1 := echo;
      ShiftLeft(main.count - tmpPos);
      EchoThen(e0, RefreshEcho(w, n + 1), e1, Repeat(KEY_LSHIFT, n - k), echo);
      AddCharEchoInside(s, k, c);
      TailAfterGrow(d, n, w, g, main.data[..]);
    }

    /** The three copies of `cli_input_add_char` into Transit: the line with
        `c` inserted at the cursor, terminated. */
    method InsertIntoTransit(c: byte)
      requires Valid() && main.cursor < main.count < CLI_CMD_BUF_SIZE && c != NUL
      modifies transit.data
      ensures Valid() && Line() == old(Line())
      ensures transit.data[..] == Insert(Line(), main.cursor, c) + [NUL] + old(transit.data[main.count + 2..])
      ensures Terminated(transit.data[..]) && CStr(transit.data[..]) == Insert(Line(), main.cursor, c)
    {
      ghost var s := Line();
      var n := main.count;
      var tmpPos := main.cursor;
      SpliceIn(main.data[..], n, tmpPos, c, transit.data);
      assert main.data[..n] == s;
      NoNulKept(s, tmpPos, c);
      assert transit.data[..n + 1] == Insert(s, tmpPos, c);
      CStrOf(transit.data[..], n + 1);
    }

    /** The count and cursor steps of `cli_input_add_char` ahead of its
        refresh, with Main terminated at the new count. */
    method GrowLine()
      requires Sound() && main.count < CLI_CMD_BUF_SIZE
      modifies main, main.data
      ensures Sound()
      ensures main.count == old(main.count) + 1 && main.cursor == old(main.cursor) + 1
      ensures main.data[..] == old(main.data[..])[main.count := NUL]
    {
      main.count := main.count + 1;
      main.cursor := main.cursor + 1;
      PutByte(main.data, main.count, NUL);
    }

    /** `cli_input_delete`, corrected to echo the byte under the cursor in
        every case (see `LineEdit.DeleteEchoAsWritten`): removes the byte
        under the cursor, which stays where it is. */
    method Delete()
      requires Valid()
      modifies this`echo, main, main.data, transit.data
      ensures Valid()
      ensures old(main.cursor) == old(main.count) ==>
                echo == old(echo) && main.cursor == old(main.cursor) && main.count == old(main.count)
                && main.data[..] == old(main.data[..]) && transit.data[..] == old(transit.data[..])
      ensures old(main.cursor) < old(main.count) ==>
                Line() == RemoveAt(old(Line()), old(main.cursor))
                && main.cursor == old(main.cursor)
                && main.data[..] == MainAfterRem(old(main.data[..]), old(main.count), old(main.cursor) + 1)
                && transit.data[..] == TransitAfterRem(old(transit.data[..]), old(main.data[..]), old(main.count), old(main.cursor) + 1)
                && echo == old(echo) + DeleteEcho(old(Line()), old(main.cursor))
    {
      var empty := IsEmpty();
      if main.cursor != main.count && !empty {
        ghost var s := Line();
        ghost var k := main.cursor;
        ghost var n := main.count;
        ghost var d := main.data[..];
        ghost var t := transit.data[..];
        main.cursor := main.cursor + 1;
        echo := echo + [main.data[main.cursor - 1]];
        ghost var e := echo;
        assert e == old(echo) + [s[k]];
        assert Line() == s && main.data[..] == d && transit.data[..] == t;
        RemChar();
        assert Line() == RemoveAt(s, k);
        assert main.data[..] == MainAfterRem(d, n, k + 1);
        assert transit.data[..] == TransitAfterRem(t, d, n, k + 1);
        assert echo == e + RemCharEcho(s, k + 1);
        assert old(Line()) == s;
        DeleteEchoSplit(old(echo), s, k);
      }
    }

    /** `cli_input_backspace`: removes the byte before the cursor, if any. */
    method Backspace()
      requires Valid()
      modifies this`echo, main, main.data, transit.data
      ensures Valid()
      ensures old(main.cursor) == 0 ==>
                echo == old(echo) && main.cursor == old(main.cursor) && main.count == old(main.count)
                && main.data[..] == old(main.data[..]) && transit.data[..] == old(transit.data[..])
      ensures old(main.cursor) > 0 ==>
                Line() == RemoveAt(old(Line()), old(main.cursor) - 1)
                && main.cursor == old(main.cursor) - 1
                && main.data[..] == MainAfterRem(old(main.data[..]), old(main.count), old(main.cursor))
                && transit.data[..] == TransitAfterRem(old(transit.data[..]), old(main.data[..]), old(main.count), old(main.cursor))
                && echo == old(echo) + RemCharEcho(old(Line()), old(main.cursor))
    {
      var empty := IsEmpty();
      if !empty && main.cursor > 0 {
        RemChar();
      }
    }

    /** `cli_input_cache`: terminates the line and copies it with its NUL
        into Transit, where the command is executed from. */
    method Cache()
      requires Valid()
      modifies main.data, transit.data
      ensures Valid() && Line() == old(Line())
      ensures main.data[..] == old(main.data[..])[main.count := NUL]
      ensures transit.data[..] == Line() + [NUL] + old(transit.data[main.count + 1..])
      ensures Terminated(transit.data[..]) && CStr(transit.data[..]) == Line()
    {
      main.data[main.count] := NUL;
      assert main.data[..main.count] == old(main.data[..main.count]);
      StrCpy(main.data[..], 0, transit.data, 0, main.count + 1);
      assert main.data[..main.count + 1] == Line() + [NUL];
      CStrOf(transit.data[..], main.count);
    }

    /** `cli_input_reset`: an empty line. */
    method Reset()
      requires Sound()
      modifies main, main.data
      ensures Valid() && Line() == [] && main.cursor == 0
      ensures main.data[..] == old(main.data[..])[0 := NUL]
    {
      main.count := 0;
      main.cursor := 0;
      main.data[main.count] := NUL;
    }

    /** `cli_input_get_last_char` on a non-empty line. */
    method GetLastChar() returns (r: byte)
      requires Sound() && main.count > 0
      ensures r == Line()[|Line()| - 1]
    {
      r := main.data[main.count - 1];
    }

    /** `cli_input_set_buffer` of Main: the first `|src|` bytes of Main
        become `src`, which is also the new line, cursor at its end. */
    method SetBuffer(src: seq<byte>)
      requires Sound() && |src| <= CLI_CMD_BUF_SIZE
      modifies main, main.data
      ensures Sound()
      ensures main.data[..] == src + old(main.data[|src|..])
      ensures Line() == src && main.cursor == main.count
    {
      StrCpy(src, 0, main.data, 0, |src|);
      main.count := |src|;
      main.cursor := |src|;
    }

    /** `strcat(Main, " ")`: a blank over the first NUL of Main and a NUL
        after it. */
    method AppendSpace()
      requires Sound()
      requires StrLen(Some(main.data[..])) < CLI_CMD_BUF_SIZE
      modifies main.data
      ensures Sound()
      ensures var p := StrLen(Some(old(main.data[..])));
              main.data[..] == old(main.data[..])[p := SPACE][p + 1 := NUL]
    {
      var p := StrLen(Some(main.data[..]));
      main.data[p] := SPACE;
      main.data[p + 1] := NUL;
    }

    /** `cli_input_cursor_to_home`: one left shift per byte before the
        cursor. */
    method CursorToHome()
      requires Valid()
      modifies this`echo, main`cursor
      ensures Valid() && Line() == old(Line()) && main.cursor == 0
      ensures echo == old(echo) + Repeat(KEY_LSHIFT, old(main.cursor))
    {
      ghost var e0 := echo;
      ghost var k := main.cursor;
      while main.cursor > 0
        invariant Valid() && main.cursor <= k && main.count == old(main.count)
        invariant echo == e0 + Repeat(KEY_LSHIFT, k - main.cursor)
        modifies this`echo, main`cursor
      {
        echo := echo + [KEY_LSHIFT];
        main.cursor := main.cursor - 1;
        RepeatSnoc(KEY_LSHIFT, k - main.cursor - 1);
      }
    }

    /** `cli_input_cursor_to_end`: the bytes from the cursor on are echoed
        to step over them. */
    method CursorToEnd()
      requires Valid()
      modifies this`echo, main`cursor
      ensures Valid() && Line() == old(Line()) && main.cursor == main.count
      ensures echo == old(echo) + old(Line())[old(main.cursor)..]
    {
      ghost var e0 := echo;
      ghost var k := main.cursor;
      while main.cursor < main.count
        invariant Valid() && k <= main.cursor && main.count == old(main.count)
        invariant echo == e0 + main.data[k..main.cursor]
        modifies this`echo, main`cursor
      {
        echo := echo + [main.data[main.cursor]];
        main.cursor := main.cursor + 1;
        assert main.data[k..main.cursor] == main.data[k..main.cursor - 1] + [main.data[main.cursor - 1]];
      }
      assert old(Line())[k..] == main.data[k..main.count];
    }

    /** `cli_input_cursor_to_left` */
    method CursorToLeft()
      requires Valid()
      modifies this`echo, main`cursor
      ensures Valid() && Line() == old(Line())
      ensures old(main.cursor) > 0 ==> main.cursor == old(main.cursor) - 1 && echo == old(echo) + [KEY_LSHIFT]
      ensures old(main.cursor) == 0 ==> main.cursor == 0 && echo == old(echo)
    {
      if main.cursor > 0 {
        main.cursor := main.cursor - 1;
        echo := echo + [KEY_LSHIFT];
      }
    }

    /** `cli_input_cursor_to_right` */
    method CursorToRight()
      requires Valid()
      modifies this`echo, main`cursor
      ensures Valid() && Line() == old(Line())
      ensures old(main.cursor) < main.count ==>
                main.cursor == old(main.cursor) + 1 && echo == old(echo) + [Line()[old(main.cursor)]]
      ensures old(main.cursor) == main.count ==> main.cursor == old(main.cursor) && echo == old(echo)
    {
      if main.cursor < main.count {
        echo := echo + [main.data[main.cursor]];
        main.cursor := main.cursor + 1;
      }
    }

    /** The pattern tests of `cli_input_put_char` on the window, in the
        order the source tries them. */
    method MatchKey(c: byte) returns (key: byte)
      requires Sound()
      ensures key == KeyOf(symbols.Contents(), c)
    {
      key := c;
      var up := symbols.IsEqual(ARR_UP, 3);
      var down := symbols.IsEqual(ARR_DOWN, 3);
      var right := symbols.IsEqual(ARR_RIGHT, 3);
      var left := symbols.IsEqual(ARR_LEFT, 3);
      var esc := symbols.IsEqual(ARR_ESC, 3);
      var del := symbols.IsEqual(ARR_DEL, 3);
      var home := symbols.IsEqual(ARR_HOME, 3);
      var end := symbols.IsEqual(ARR_END, 3);
      if up { key := KEY_UP; }
      else if down { key := KEY_DOWN; }
      else if right { key := KEY_RIGHT; }
      else if left { key := KEY_LEFT; }
      else if esc { key := KEY_ESCAPE; }
      else if del { key := KEY_DEL; }
      else if home { key := KEY_HOME; }
      else if end { key := KEY_END; }
      assert symbols.Contents()[..3] == symbols.Contents();
    }

    /** `cli_input_put_char`: the byte enters the window of the last three
        bytes, which is then matched against the key patterns. */
    method PutChar(c: byte) returns (iv: InputValue)
      requires Sound()
      modifies symbols, symbols.slots
      ensures Sound() && symbols.Contents() == old(symbols.Contents())[1..] + [c]
      ensures iv == Classify(KeyOf(symbols.Contents(), c), main.count)
    {
      var ok := symbols.Push(c);
      var key := MatchKey(c);
      var isValid := main.count < CLI_CMD_BUF_SIZE || key == KEY_BACKSPACE || key == KEY_ENTER || key == CHAR_INTERRUPT;
      var isAlphaBet := false;
      if key != LINE_FEED && key != KEY_ENTER {
        isAlphaBet := key != NUL;
      }
      iv := InputValue(key, isValid, isAlphaBet);
    }
  }

  /** Main's bytes after the line `w` of `n + 1` bytes is refreshed over
      bytes `d` terminated at `n + 1`. */
  lemma TailAfterGrow(d: seq<byte>, n: nat, w: seq<byte>, g: seq<byte>, r: seq<byte>)
    requires n + 2 <= |d| && |w| == n + 1
    requires g == d[n + 1 := NUL] && r == w + g[|w|..]
    ensures r == w + [NUL] + d[n + 2..]
  {
    assert g[n + 1..] == [NUL] + d[n + 2..];
  }

  /** Two echoes in a row. */
  lemma EchoThen(e0: seq<byte>, a: seq<byte>, e1: seq<byte>, b: seq<byte>, e2: seq<byte>)
    requires e1 == e0 + a && e2 == e1 + b
    ensures e2 == e0 + (a + b)
  {
    assert e0 + a + b == e0 + (a + b);
  }

  /** The echo of `cli_input_rem_char` with the cursor inside the line. */
  lemma RemCharEchoInside(s: seq<byte>, k: nat)
    requires 0 < k < |s|
    ensures RemCharEcho(s, k) == RefreshEcho(RemoveAt(s, k - 1), |s|) + Repeat(KEY_LSHIFT, |s| - k)
  {
  }

  /** The echo of `cli_input_add_char` with the cursor inside the line. */
  lemma AddCharEchoInside(s: seq<byte>, k: nat, c: byte)
    requires k < |s|
    ensures AddCharEcho(s, k, c) == RefreshEcho(Insert(s, k, c), |s| + 1) + Repeat(KEY_LSHIFT, |s| - k)
  {
  }

  lemma DeleteEchoSplit(e: seq<byte>, s: seq<byte>, k: nat)
    requires k < |s|
    ensures e + DeleteEcho(s, k) == e + [s[k]] + RemCharEcho(s, k + 1)
  {
  }

  lemma RepeatSnoc(b: byte, n: nat)
    ensures Repeat(b, n + 1) == Repeat(b, n) + [b]
  {
    assert Repeat(b, n + 1)[..n] == Repeat(b, n);
  }
}
