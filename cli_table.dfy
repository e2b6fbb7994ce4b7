/** The read-only parts of cli.c: the command record, the two name
    lookups, the prefix comparison used by completion, the separator count
    and the tokens `_split` produces, and the flag lookup. */
module CliTable {
  import opened CliConfig
  import opened TinyString

  /** A command callback, applied to the argument strings (the command's
      own name first). */
  type Handler = seq<seq<byte>> -> CliResult

  /** `CLI_Cmd_t`. `name` and `description` are the terminated buffers the
      record's pointers designate. */
  datatype Cmd = Cmd(fcn: Handler, name: seq<byte>, argc: byte, mode: nat, description: seq<byte>)

  predicate NamesTerminated(cmds: seq<Cmd>)
  {
    forall i :: 0 <= i < |cmds| ==> Terminated(cmds[i].name)
  }

  // ---------------------------------------------------------------- lookup

  /** The scan of `_find_cli_command` from entry `i` on. */
  function FindFrom(cmds: seq<Cmd>, cmdName: seq<byte>, i: nat): (r: Option<nat>)
    requires NamesTerminated(cmds) && Terminated(cmdName) && i <= |cmds|
    ensures r.Some? ==> i <= r.value < |cmds| && CStr(cmds[r.value].name) == CStr(cmdName)
                        && forall k :: i <= k < r.value ==> CStr(cmds[k].name) != CStr(cmdName)
    ensures r.None? ==> forall k :: i <= k < |cmds| ==> CStr(cmds[k].name) != CStr(cmdName)
    decreases |cmds| - i
  {
    if i == |cmds| then None
    else if StrCmp(Some(cmds[i].name), Some(cmdName)) == 1 then Some(i)
    else FindFrom(cmds, cmdName, i + 1)
  }

  /** `_find_cli_command`: the first command whose name equals `cmdName`. */
  function FindCommand(cmds: seq<Cmd>, cmdName: seq<byte>): (r: Option<nat>)
    requires NamesTerminated(cmds) && Terminated(cmdName)
    ensures r.Some? ==> r.value < |cmds| && CStr(cmds[r.value].name) == CStr(cmdName)
                        && forall k :: 0 <= k < r.value ==> CStr(cmds[k].name) != CStr(cmdName)
    ensures r.None? <==> forall k :: 0 <= k < |cmds| ==> CStr(cmds[k].name) != CStr(cmdName)
  {
    FindFrom(cmds, cmdName, 0)
  }

  /** The lookup only depends on the string the buffer holds. */
  lemma FindCommandSameStr(cmds: seq<Cmd>, a: seq<byte>, b: seq<byte>)
    requires NamesTerminated(cmds) && Terminated(a) && Terminated(b) && CStr(a) == CStr(b)
    ensures FindCommand(cmds, a) == FindCommand(cmds, b)
  {
    var ra := FindCommand(cmds, a);
    var rb := FindCommand(cmds, b);
    if ra.Some? && rb.Some? {
      assert !(ra.value < rb.value) && !(rb.value < ra.value);
    }
  }

  // -------------------------------------------------------------- dispatch

  /** The outcome of `_execute_cli_cmd`: refused with a result code, or the
      handler of the entry at `index` runs. */
  datatype Dispatch = Refused(result: CliResult) | Ran(index: nat)

  /** A declared argument count of 0 accepts any number of arguments;
      otherwise the number after the name must equal it. */
  predicate ArgcAccepted(declared: byte, argc: nat)
  {
    declared == 0 || argc - 1 == declared as int
  }

  /** `_execute_cli_cmd` on the argument strings `args`, the command's name
      first: refused with ArgErr without arguments, with NotFound when no
      registered name equals the first string, with ArgErr when the first
      entry of that name declares another number of arguments; run
      otherwise. */
  function Execute(cmds: seq<Cmd>, args: seq<seq<byte>>): (d: Dispatch)
    requires NamesTerminated(cmds)
    requires |args| > 0 ==> NoNul(args[0])
    ensures |args| == 0 ==> d == Refused(ArgErr)
    ensures d == Refused(NotFound) <==> |args| > 0 && forall i :: 0 <= i < |cmds| ==> CStr(cmds[i].name) != args[0]
    ensures d.Refused? ==> d.result == ArgErr || d.result == NotFound
    ensures d.Ran? ==> d.index < |cmds| && CStr(cmds[d.index].name) == args[0]
                       && (forall i :: 0 <= i < d.index ==> CStr(cmds[i].name) != args[0])
                       && ArgcAccepted(cmds[d.index].argc, |args|)
    ensures d == Refused(ArgErr) && |args| > 0 ==>
              exists j :: 0 <= j < |cmds| && CStr(cmds[j].name) == args[0]
                          && (forall i :: 0 <= i < j ==> CStr(cmds[i].name) != args[0])
                          && !ArgcAccepted(cmds[j].argc, |args|)
  {
    if |args| == 0 then Refused(ArgErr)
    else
      var key := args[0] + [NUL];
      CStrOf(key, |args[0]|);
      assert key[..|args[0]|] == args[0];
      match FindCommand(cmds, key)
      case None => Refused(NotFound)
      case Some(i) => if !ArgcAccepted(cmds[i].argc, |args|) then Refused(ArgErr) else Ran(i)
  }

  /** One of the two strings is a prefix of the other. */
  predicate PrefixCompatible(a: seq<byte>, b: seq<byte>)
  {
    a <= b || b <= a
  }

  /** The loop of `_strPartCmp` from position `co` on. */
  function PartCmpFrom(p: seq<byte>, q: seq<byte>, co: nat): (r: byte)
    requires Terminated(p) && Terminated(q)
    requires co <= StrLen(Some(p)) && co <= StrLen(Some(q)) && p[..co] == q[..co]
    ensures r == 0 || r == 1
    ensures r == 1 <==> PrefixCompatible(CStr(p), CStr(q))
    decreases |p| - co
  {
    if p[co] != NUL && q[co] != NUL then
      if p[co] != q[co] then
        assert CStr(p)[co] != CStr(q)[co];
        0
      else
        assert p[..co + 1] == p[..co] + [p[co]];
        assert q[..co + 1] == q[..co] + [q[co]];
        PartCmpFrom(p, q, co + 1)
    else
      assert CStr(p)[..co] == CStr(q)[..co];
      1
  }

  /** `_strPartCmp`: 1 when the shorter string is a prefix of the longer
      one, else 0. The position counter is a `uint8_t`, so one string must
      be shorter than 256 bytes for the scan to end. */
  function PartCmp(p: seq<byte>, q: seq<byte>): (r: byte)
    requires Terminated(p) && Terminated(q)
    requires StrLen(Some(p)) < 256 || StrLen(Some(q)) < 256
    ensures r == 0 || r == 1
    ensures r == 1 <==> PrefixCompatible(CStr(p), CStr(q))
  {
    PartCmpFrom(p, q, 0)
  }

  /** Completion works both ways: a typed word longer than a command name
      that starts with the name still matches it. */
  lemma PartCmpBothWays()
    ensures PartCmp([0x68, 0x65, 0x6C, 0x70, NUL], [0x68, 0x65, 0x6C, 0x70, 0x78, NUL]) == 1
    ensures PartCmp([0x68, 0x65, 0x6C, 0x70, NUL], [0x68, 0x65, NUL]) == 1
    ensures PartCmp([0x68, 0x65, 0x6C, 0x70, NUL], [0x68, 0x78, NUL]) == 0
  {
    var help: seq<byte> := [0x68, 0x65, 0x6C, 0x70, NUL];
    var helpx: seq<byte> := [0x68, 0x65, 0x6C, 0x70, 0x78, NUL];
    var he: seq<byte> := [0x68, 0x65, NUL];
    var hx: seq<byte> := [0x68, 0x78, NUL];
    CStrOf(help, 4);
    CStrOf(helpx, 5);
    CStrOf(he, 2);
    CStrOf(hx, 2);
    assert CStr(help) <= CStr(helpx);
    assert CStr(he) <= CStr(help);
    assert CStr(hx)[1] != CStr(help)[1];
  }

  /** Entry `i`'s name and the typed word are prefix-compatible. */
  predicate Compatible(cmds: seq<Cmd>, word: seq<byte>, i: nat)
    requires NamesTerminated(cmds) && Terminated(word) && i < |cmds|
  {
    PrefixCompatible(CStr(cmds[i].name), CStr(word))
  }

  /** The scan of `_find_part_term_cmd` from entry `i` on, `found` being the
      one compatible entry before `i`, if any. */
  function PartFrom(cmds: seq<Cmd>, word: seq<byte>, i: nat, found: Option<nat>): (r: Option<nat>)
    requires NamesTerminated(cmds) && Terminated(word) && StrLen(Some(word)) < 256 && i <= |cmds|
    requires found.Some? ==> found.value < i && Compatible(cmds, word, found.value)
    requires forall k :: 0 <= k < i && Some(k) != found ==> !Compatible(cmds, word, k)
    ensures r.Some? ==> r.value < |cmds| && Compatible(cmds, word, r.value)
                        && forall k :: 0 <= k < |cmds| && k != r.value ==> !Compatible(cmds, word, k)
    ensures r.None? ==> forall j :: 0 <= j < |cmds| && Compatible(cmds, word, j) ==>
                          exists k :: 0 <= k < |cmds| && k != j && Compatible(cmds, word, k)
    decreases |cmds| - i
  {
    if i == |cmds| then found
    else if PartCmp(cmds[i].name, word) == 1 then
      if found.Some? then
        NoUniqueMatch(cmds, word, found.value, i);
        None
      else
        ScanPast(cmds, word, i, found, Some(i));
        PartFrom(cmds, word, i + 1, Some(i))
    else
      ScanPast(cmds, word, i, found, found);
      PartFrom(cmds, word, i + 1, found)
  }

  /** The scan of `PartFrom` moves past entry `i`: either `i` is the first
      compatible entry, or `i` is not compatible and `found` stays. */
  lemma ScanPast(cmds: seq<Cmd>, word: seq<byte>, i: nat, found: Option<nat>, next: Option<nat>)
    requires NamesTerminated(cmds) && Terminated(word) && i < |cmds|
    requires found.Some? ==> found.value < i && Compatible(cmds, word, found.value)
    requires forall k :: 0 <= k < i && Some(k) != found ==> !Compatible(cmds, word, k)
    requires (found.None? && next == Some(i) && Compatible(cmds, word, i))
             || (next == found && !Compatible(cmds, word, i))
    ensures next.Some? ==> next.value < i + 1 && Compatible(cmds, word, next.value)
    ensures forall k :: 0 <= k < i + 1 && Some(k) != next ==> !Compatible(cmds, word, k)
  {
  }

  /** Two compatible entries: no entry is the only compatible one. */
  lemma NoUniqueMatch(cmds: seq<Cmd>, word: seq<byte>, a: nat, b: nat)
    requires NamesTerminated(cmds) && Terminated(word)
    requires a < |cmds| && b < |cmds| && a != b
    requires Compatible(cmds, word, a) && Compatible(cmds, word, b)
    ensures forall j :: 0 <= j < |cmds| && Compatible(cmds, word, j) ==>
              exists k :: 0 <= k < |cmds| && k != j && Compatible(cmds, word, k)
  {
    forall j | 0 <= j < |cmds| && Compatible(cmds, word, j)
      ensures exists k :: 0 <= k < |cmds| && k != j && Compatible(cmds, word, k)
    {
      if j == a {
        assert Compatible(cmds, word, b);
      } else {
        assert Compatible(cmds, word, a);
      }
    }
  }

  /** `_find_part_term_cmd`: the command whose name is the only one
      prefix-compatible with `word`; none when no name or several are. */
  function FindPartTerm(cmds: seq<Cmd>, word: seq<byte>): (r: Option<nat>)
    requires NamesTerminated(cmds) && Terminated(word) && StrLen(Some(word)) < 256
    ensures r.Some? ==> r.value < |cmds| && Compatible(cmds, word, r.value)
                        && forall k :: 0 <= k < |cmds| && k != r.value ==> !Compatible(cmds, word, k)
    ensures r.None? ==> forall j :: 0 <= j < |cmds| && Compatible(cmds, word, j) ==>
                          exists k :: 0 <= k < |cmds| && k != j && Compatible(cmds, word, k)
  {
    PartFrom(cmds, word, 0, None)
  }

  // ------------------------------------------------------------ separators

  /** The number of bytes of `s` that belong to `sep`. */
  function Occurrences(s: seq<byte>, sep: seq<byte>): nat
  {
    if |s| == 0 then 0
    else Occurrences(s[..|s| - 1], sep) + (if s[|s| - 1] in sep then 1 else 0)
  }

  /** The outer loop of `_getCountSeparator` from position `i` on. */
  function CountFrom(src: seq<byte>, sep: seq<byte>, i: nat): (n: nat)
    requires Terminated(src) && i <= StrLen(Some(src))
    ensures n <= StrLen(Some(src)) - i
    decreases StrLen(Some(src)) - i
  {
    if src[i] == NUL then 0
    else (if src[i] in sep then 1 else 0) + CountFrom(src, sep, i + 1)
  }

  lemma {:induction false} CountFromCounts(src: seq<byte>, sep: seq<byte>, i: nat)
    requires Terminated(src) && i <= StrLen(Some(src))
    ensures Occurrences(CStr(src)[..i], sep) + CountFrom(src, sep, i) == Occurrences(CStr(src), sep)
    decreases StrLen(Some(src)) - i
  {
    var s := CStr(src);
    if i == |s| {
      assert s[..i] == s;
    } else {
      assert s[..i + 1][..i] == s[..i];
      CountFromCounts(src, sep, i + 1);
    }
  }

  /** `_getCountSeparator`: one more than the number of bytes of the string
      that are separator bytes. The position counter is a `uint8_t`, so the
      string must be shorter than 256 bytes for the scan to end. */
  function CountSeparator(src: seq<byte>, sep: seq<byte>): (r: nat)
    requires Terminated(src) && Terminated(sep) && StrLen(Some(src)) < 256
    ensures r == 1 + Occurrences(CStr(src), CStr(sep))
  {
    CountFromCounts(src, CStr(sep), 0);
    1 + CountFrom(src, CStr(sep), 0)
  }

  // ---------------------------------------------------------------- tokens

  /** The runs of `s` between bytes of `sep`, in order; neighbouring
      separators enclose an empty token. */
  function Tokens(s: seq<byte>, sep: seq<byte>): (r: seq<seq<byte>>)
    ensures |r| > 0
  {
    if |s| == 0 then [[]]
    else
      var t := Tokens(s[..|s| - 1], sep);
      var b := s[|s| - 1];
      if b in sep then t + [[]]
      else t[..|t| - 1] + [t[|t| - 1] + [b]]
  }

  /** There is one token more than there are separator bytes, and no token
      holds a separator byte. */
  lemma {:induction false} TokensShape(s: seq<byte>, sep: seq<byte>)
    ensures |Tokens(s, sep)| == 1 + Occurrences(s, sep)
    ensures forall k, j :: 0 <= k < |Tokens(s, sep)| && 0 <= j < |Tokens(s, sep)[k]| ==>
              Tokens(s, sep)[k][j] !in sep && Tokens(s, sep)[k][j] in s
    decreases |s|
  {
    if |s| > 0 {
      var p := s[..|s| - 1];
      TokensShape(p, sep);
      var t := Tokens(p, sep);
      forall k, j | 0 <= k < |Tokens(s, sep)| && 0 <= j < |Tokens(s, sep)[k]|
        ensures Tokens(s, sep)[k][j] !in sep && Tokens(s, sep)[k][j] in s
      {
        if k < |t| - 1 || (k == |t| - 1 && j < |t[k]|) {
          assert Tokens(s, sep)[k][j] == t[k][j];
          assert t[k][j] in p;
        }
      }
    }
  }

  /** The tokens of a prefix of `s`: all but the last are tokens of `s`,
      and the last is the start of the corresponding token of `s`. */
  lemma {:induction false} TokensOfPrefix(s: seq<byte>, sep: seq<byte>, i: nat)
    requires i <= |s|
    ensures var tp := Tokens(s[..i], sep); var ts := Tokens(s, sep);
            |tp| <= |ts| && tp[..|tp| - 1] == ts[..|tp| - 1] && tp[|tp| - 1] <= ts[|tp| - 1]
    decreases |s|
  {
    if i < |s| {
      var p := s[..|s| - 1];
      assert s[..i] == p[..i];
      TokensOfPrefix(p, sep, i);
    } else {
      assert s[..i] == s;
    }
  }

  /** The tokens joined back together with `b` between neighbours. */
  function Join(ts: seq<seq<byte>>, b: byte): seq<byte>
    requires |ts| > 0
  {
    if |ts| == 1 then ts[0]
    else Join(ts[..|ts| - 1], b) + [b] + ts[|ts| - 1]
  }

  lemma JoinGrowLast(ts: seq<seq<byte>>, b: byte, x: byte)
    requires |ts| > 0
    ensures Join(ts[..|ts| - 1] + [ts[|ts| - 1] + [x]], b) == Join(ts, b) + [x]
  {
    var u := ts[..|ts| - 1] + [ts[|ts| - 1] + [x]];
    if |ts| > 1 {
      assert u[..|u| - 1] == ts[..|ts| - 1];
    }
  }

  /** With a single separator byte, joining the tokens rebuilds the
      string. */
  lemma {:induction false} JoinTokens(s: seq<byte>, b: byte)
    ensures Join(Tokens(s, [b]), b) == s
    decreases |s|
  {
    if |s| > 0 {
      var p := s[..|s| - 1];
      var x := s[|s| - 1];
      JoinTokens(p, b);
      var t := Tokens(p, [b]);
      if x in [b] {
        assert (t + [[]])[..|t|] == t;
        assert Join(t + [[]], b) == Join(t, b) + [b] + [];
      } else {
        JoinGrowLast(t, b, x);
      }
      assert p + [x] == s;
    }
  }

  /** Bytes that are not separators extend the last token. */
  lemma {:induction false} TokensAppendPlain(s: seq<byte>, u: seq<byte>, sep: seq<byte>)
    requires forall j :: 0 <= j < |u| ==> u[j] !in sep
    ensures var t := Tokens(s, sep);
            Tokens(s + u, sep) == t[..|t| - 1] + [t[|t| - 1] + u]
    decreases |u|
  {
    var t := Tokens(s, sep);
    if |u| == 0 {
      assert s + u == s && t[|t| - 1] + u == t[|t| - 1];
      assert t[..|t| - 1] + [t[|t| - 1]] == t;
    } else {
      var v := u[..|u| - 1];
      var x := u[|u| - 1];
      TokensAppendPlain(s, v, sep);
      var t' := Tokens(s + v, sep);
      assert (s + u)[..|s + u| - 1] == s + v;
      assert (s + u)[|s + u| - 1] == x;
      assert Tokens(s + u, sep) == t'[..|t'| - 1] + [t'[|t'| - 1] + [x]];
      LastExtended(t, t', v, x, u);
    }
  }

  /** Extending the last of a list of tokens by `v` and then by `[x]` is
      extending it by `v + [x]`. */
  lemma LastExtended(t: seq<seq<byte>>, t': seq<seq<byte>>, v: seq<byte>, x: byte, u: seq<byte>)
    requires |t| > 0 && t' == t[..|t| - 1] + [t[|t| - 1] + v] && u == v + [x]
    ensures t'[..|t'| - 1] + [t'[|t'| - 1] + [x]] == t[..|t| - 1] + [t[|t| - 1] + u]
  {
    assert t'[..|t'| - 1] == t[..|t| - 1];
    assert t'[|t'| - 1] + [x] == t[|t| - 1] + u;
  }

  /** A separator byte opens a new, empty token. */
  lemma TokensSep(s: seq<byte>, b: byte)
    ensures Tokens(s + [b], [b]) == Tokens(s, [b]) + [[]]
  {
    assert (s + [b])[..|s|] == s;
  }

  /** A string without separator bytes is a single token. */
  lemma TokensOfPlain(u: seq<byte>, sep: seq<byte>)
    requires forall j :: 0 <= j < |u| ==> u[j] !in sep
    ensures Tokens(u, sep) == [u]
  {
    var e: seq<byte> := [];
    TokensAppendPlain(e, u, sep);
    assert e + u == u;
  }

  /** One more separator-free token: the join grows by the separator and
      the token, and the tokens by the token. */
  lemma TokensJoinStep(init: seq<seq<byte>>, last: seq<byte>, b: byte)
    requires |init| > 0 && Tokens(Join(init, b), [b]) == init
    requires forall j :: 0 <= j < |last| ==> last[j] !in [b]
    ensures Tokens(Join(init + [last], b), [b]) == init + [last]
  {
    var ts := init + [last];
    assert ts[..|ts| - 1] == init && ts[|ts| - 1] == last;
    var left := Join(init, b) + [b];
    assert Join(ts, b) == left + last;
    TokensSep(Join(init, b), b);
    TokensAppendPlain(left, last, [b]);
    var t := init + [[]];
    assert t[..|t| - 1] == init && t[|t| - 1] + last == last;
  }

  /** No token holds the byte `b`. */
  predicate Avoids(ts: seq<seq<byte>>, b: byte)
  {
    forall k, j :: 0 <= k < |ts| && 0 <= j < |ts[k]| ==> ts[k][j] != b
  }

  /** `Avoids` of a list gives `Avoids` of all but its last token, and the
      last token holds no `b`. */
  lemma AvoidsSplit(ts: seq<seq<byte>>, b: byte)
    requires |ts| > 0 && Avoids(ts, b)
    ensures Avoids(ts[..|ts| - 1], b)
    ensures var last := ts[|ts| - 1]; forall j :: 0 <= j < |last| ==> last[j] != b
  {
    var init := ts[..|ts| - 1];
    forall k, j | 0 <= k < |init| && 0 <= j < |init[k]| ensures init[k][j] != b {
      assert init[k] == ts[k];
    }
  }

  /** With a single separator byte, splitting the join of separator-free
      tokens gives the tokens back. */
  lemma {:induction false} TokensJoin(ts: seq<seq<byte>>, b: byte)
    requires |ts| > 0 && Avoids(ts, b)
    ensures Tokens(Join(ts, b), [b]) == ts
    decreases |ts|
  {
    var last := ts[|ts| - 1];
    AvoidsSplit(ts, b);
    assert forall j :: 0 <= j < |last| ==> last[j] !in [b];
    if |ts| == 1 {
      TokensOfPlain(last, [b]);
      assert ts == [last];
    } else {
      var init := ts[..|ts| - 1];
      TokensJoin(init, b);
      TokensJoinStep(init, last, b);
      InitLast(ts);
    }
  }

  /** A non-empty list is its front followed by its last element. */
  lemma InitLast(ts: seq<seq<byte>>)
    requires |ts| > 0
    ensures ts == ts[..|ts| - 1] + [ts[|ts| - 1]]
  {
  }


  /** The tokens of `a b` and of `a` followed by two blanks. */
  lemma TokensExample()
    ensures Tokens([0x61, SPACE, 0x62], [SPACE]) == [[0x61], [0x62]]
    ensures Tokens([0x61, SPACE, SPACE], [SPACE]) == [[0x61], [], []]
  {
    var a: seq<byte> := [0x61];
    var e: seq<byte> := [];
    TokensAppendPlain(e, a, [SPACE]);
    assert e + a == a;
    assert Tokens(e, [SPACE]) == [e];
    assert Tokens(a, [SPACE]) == [a];
    TokensSep(a, SPACE);
    var aSp := a + [SPACE];
    assert Tokens(aSp, [SPACE]) == [a, e];
    var bb: seq<byte> := [0x62];
    TokensAppendPlain(aSp, bb, [SPACE]);
    assert e + bb == bb;
    assert [a, e][..1] == [a];
    assert aSp + bb == [0x61, SPACE, 0x62];
    TokensSep(aSp, SPACE);
    assert aSp + [SPACE] == [0x61, SPACE, SPACE];
  }

  // ----------------------------------------------------------------- flags

  /** The scan of `_index_of_flag` from slot `i` on. */
  function FlagFrom(slots: seq<seq<byte>>, flag: Option<seq<byte>>, i: nat): (r: int)
    requires forall k :: 0 <= k < |slots| ==> Terminated(slots[k])
    requires flag.Some? ==> Terminated(flag.value)
    requires i <= |slots|
    ensures r == -1 || i <= r < |slots|
    ensures r >= 0 ==> SameStr(Some(slots[r]), flag)
                       && forall k :: i <= k < r ==> !SameStr(Some(slots[k]), flag)
    ensures r == -1 <==> forall k :: i <= k < |slots| ==> !SameStr(Some(slots[k]), flag)
    decreases |slots| - i
  {
    if i == |slots| then -1
    else if StrCmp(Some(slots[i]), flag) == 1 then i
    else FlagFrom(slots, flag, i + 1)
  }

  /** `_index_of_flag` over the argument slots in use: the first one
      holding `flag`, or -1. A NULL flag equals no slot. */
  function IndexOfFlag(slots: seq<seq<byte>>, flag: Option<seq<byte>>): (r: int)
    requires forall k :: 0 <= k < |slots| ==> Terminated(slots[k])
    requires flag.Some? ==> Terminated(flag.value)
    ensures -1 <= r < |slots|
    ensures r >= 0 ==> SameStr(Some(slots[r]), flag)
                       && forall k :: 0 <= k < r ==> !SameStr(Some(slots[k]), flag)
    ensures r == -1 <==> forall k :: 0 <= k < |slots| ==> !SameStr(Some(slots[k]), flag)
    ensures flag.None? ==> r == -1
  {
    FlagFrom(slots, flag, 0)
  }
}
