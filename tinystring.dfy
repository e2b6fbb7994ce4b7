/** The three string routines of tinystring/tinystring.c.

    A C string is modelled by the memory its pointer designates: a byte
    sequence that holds a NUL somewhere (`Terminated`). The string itself is
    `CStr(buf)`, the bytes before the first NUL. A pointer that may be NULL is
    an `Option` of such a buffer. */
module TinyString {
  import opened CliConfig

  predicate Terminated(buf: seq<byte>)
  {
    NUL in buf
  }

  /** The counting loop of `_strlen`, from position `co` on. */
  function LenFrom(buf: seq<byte>, co: nat): (n: nat)
    requires co <= |buf| && NUL in buf[co..]
    ensures co <= n < |buf| && buf[n] == NUL
    ensures NoNul(buf[co..n])
    decreases |buf| - co
  {
    if buf[co] == NUL then co
    else
      assert buf[co..] == [buf[co]] + buf[co + 1..];
      LenFrom(buf, co + 1)
  }

  /** `_strlen`: the number of bytes before the first NUL, 0 for NULL. */
  function StrLen(p: Option<seq<byte>>): (n: nat)
    requires p.Some? ==> Terminated(p.value)
    ensures p.None? ==> n == 0
    ensures p.Some? ==> n < |p.value| && p.value[n] == NUL && NoNul(p.value[..n])
  {
    match p
    case None => 0
    case Some(buf) =>
      assert buf[0..] == buf;
      LenFrom(buf, 0)
  }

  /** The string a terminated buffer holds. */
  function CStr(buf: seq<byte>): (s: seq<byte>)
    requires Terminated(buf)
    ensures NoNul(s) && s + [NUL] <= buf
  {
    buf[..StrLen(Some(buf))]
  }

  /** Any NUL-free prefix that is followed by a NUL is the string. */
  lemma CStrOf(buf: seq<byte>, n: nat)
    requires n < |buf| && buf[n] == NUL && NoNul(buf[..n])
    ensures Terminated(buf) && CStr(buf) == buf[..n]
  {
    assert buf[n] in buf;
  }

  /** Two pointers designate the same string: both NULL, or both non-NULL with
      equal bytes up to their terminators. */
  predicate SameStr(p: Option<seq<byte>>, q: Option<seq<byte>>)
    requires p.Some? ==> Terminated(p.value)
    requires q.Some? ==> Terminated(q.value)
  {
    (p.None? && q.None?) || (p.Some? && q.Some? && CStr(p.value) == CStr(q.value))
  }

  /** The comparison loop of `_strcmp` from position `co` on, and the test
      after it. */
  function CmpFrom(p: Option<seq<byte>>, q: Option<seq<byte>>, co: nat): (r: byte)
    requires p.Some? ==> Terminated(p.value) && co <= StrLen(p)
    requires q.Some? ==> Terminated(q.value) && co <= StrLen(q)
    requires p.None? || q.None? ==> co == 0
    requires p.Some? && q.Some? ==> p.value[..co] == q.value[..co]
    ensures r == 0 || r == 1
    ensures r == 1 <==> SameStr(p, q)
    decreases if p.Some? then |p.value| - co else 0
  {
    if p.Some? && p.value[co] != NUL && q.Some? && q.value[co] != NUL then
      if p.value[co] != q.value[co] then
        assert CStr(p.value)[co] != CStr(q.value)[co];
        0
      else
        assert p.value[..co + 1] == p.value[..co] + [p.value[co]];
        assert q.value[..co + 1] == q.value[..co] + [q.value[co]];
        CmpFrom(p, q, co + 1)
    else if (p.None? && q.Some?) || (q.None? && p.Some?)
         || (p.Some? && q.Some? && q.value[co] != p.value[co]) then
      assert p.Some? && q.Some? ==>
        (p.value[co] == NUL ==> co == StrLen(p) && co < StrLen(q) && CStr(q.value)[co] != NUL)
        && (q.value[co] == NUL ==> co == StrLen(q) && co < StrLen(p) && CStr(p.value)[co] != NUL);
      0
    else
      assert p.Some? && q.Some? ==> co == StrLen(p) && co == StrLen(q);
      1
  }

  /** `_strcmp`. Note the polarity: 1 means EQUAL, 0 means different, the
      inverse of the C library's `strcmp`. */
  function StrCmp(p: Option<seq<byte>>, q: Option<seq<byte>>): (r: byte)
    requires p.Some? ==> Terminated(p.value)
    requires q.Some? ==> Terminated(q.value)
    ensures r == 0 || r == 1
    ensures r == 1 <==> SameStr(p, q)
    ensures StrLen(p) != StrLen(q) ==> r == 0
  {
    if StrLen(p) != StrLen(q) then
      assert p.Some? && q.Some? ==> |CStr(p.value)| != |CStr(q.value)|;
      0
    else CmpFrom(p, q, 0)
  }

  /** `_strcmp` does not depend on the order of its arguments. */
  lemma StrCmpSymmetric(p: Option<seq<byte>>, q: Option<seq<byte>>)
    requires p.Some? ==> Terminated(p.value)
    requires q.Some? ==> Terminated(q.value)
    ensures StrCmp(p, q) == StrCmp(q, p)
  {
  }

  /** A single byte store `dst[i] = v`. */
  method PutByte(dst: array<byte>, i: nat, v: byte)
    requires i < dst.Length
    modifies dst
    ensures dst[..] == old(dst[..])[i := v]
  {
    dst[i] := v;
  }

  /** `_strcpy`: copies `length` bytes of `src` from `offSrc` into `dst` at
      `offDst`; no other byte of `dst` changes. The source and the
      destination are distinct buffers. */
  method StrCpy(src: seq<byte>, offSrc: nat, dst: array<byte>, offDst: nat, length: nat)
    requires offSrc + length <= |src| && offDst + length <= dst.Length
    modifies dst
    ensures dst[..] == old(dst[..offDst]) + src[offSrc..offSrc + length] + old(dst[offDst + length..])
  {
    var i := 0;
    while i < length
      invariant 0 <= i <= length
      invariant forall j :: offDst <= j < offDst + i ==> dst[j] == src[j - offDst + offSrc]
      invariant forall j :: 0 <= j < dst.Length && !(offDst <= j < offDst + i) ==> dst[j] == old(dst[j])
    {
      dst[i + offDst] := src[i + offSrc];
      i := i + 1;
    }
    ghost var want := old(dst[..offDst]) + src[offSrc..offSrc + length] + old(dst[offDst + length..]);
    assert |want| == dst.Length;
    assert dst[..] == want;
  }
}
