/** The queue of lib/cli_queue.c.

    Every queue the firmware creates points at one static array of three
    one-byte slots, so the model is a single queue of at most three bytes.
    The queue's contents are `slots[..cntr]`, oldest first. In the forced mode
    a push into a full queue drops the oldest byte: the queue is then a window
    over the last `size` bytes pushed. */
module CliQueue {
  import opened CliConfig

  /** Bytes of the static array every queue uses. */
  const QUEUE_MEMORY: nat := 3

  /** QUEUE_FORCED_PUSH_POP_Msk */
  const QUEUE_FORCED_PUSH_POP_MSK: bv32 := 0x01

  /** The contents after a push of `v` into a queue of capacity `size` holding
      `w`: appended while there is room; when full, the oldest byte is dropped
      in the forced mode and nothing changes otherwise. */
  function Pushed(w: seq<byte>, size: nat, forced: bool, v: byte): (r: seq<byte>)
    requires |w| <= size
    requires forced ==> size > 0
    ensures |r| <= size
    ensures |w| < size ==> r == w + [v]
    ensures |w| == size && forced ==> r == w[1..] + [v]
    ensures |w| == size && !forced ==> r == w
  {
    if |w| < size then w + [v]
    else if forced then w[1..] + [v]
    else w
  }

  /** A forced queue of three that is full holds exactly the last three bytes
      pushed into it, whatever it held before. */
  lemma {:induction false} WindowHoldsLastThree(w: seq<byte>, a: byte, b: byte, c: byte)
    requires |w| == 3
    ensures Pushed(Pushed(Pushed(w, 3, true, a), 3, true, b), 3, true, c) == [a, b, c]
  {
    var w1 := Pushed(w, 3, true, a);
    assert w1 == w[1..] + [a];
    var w2 := Pushed(w1, 3, true, b);
    assert w2 == w1[1..] + [b] == [w[2], a, b];
  }

  class Queue {
    const slots: array<byte>
    var size: nat
    var cntr: nat
    var mode: bv32

    ghost predicate Valid()
      reads this
    {
      slots.Length == QUEUE_MEMORY && size <= QUEUE_MEMORY && cntr <= size
    }

    ghost function Contents(): seq<byte>
      reads this, slots
      requires Valid()
    {
      slots[..cntr]
    }

    predicate Forced()
      reads this
    {
      mode & QUEUE_FORCED_PUSH_POP_MSK != 0
    }

    /** `cli_queue_init`: an empty queue of `sizeQueue` one-byte elements over
        the zero-initialised static array. */
    constructor Init(sizeQueue: nat, mode: bv32)
      requires sizeQueue <= QUEUE_MEMORY
      ensures Valid() && fresh(slots)
      ensures size == sizeQueue && this.mode == mode && cntr == 0
      ensures slots[..] == [0, 0, 0]
    {
      slots := new byte[QUEUE_MEMORY](_ => 0);
      size := sizeQueue;
      cntr := 0;
      this.mode := mode;
      new;
      assert slots[..] == [slots[0], slots[1], slots[2]];
    }

    /** `cli_queue_push`. A forced push into a queue of size 0 would write
        before the array, so it is excluded. */
    method Push(value: byte) returns (ok: bool)
      requires Valid()
      requires Forced() ==> size > 0
      modifies this`cntr, slots
      ensures Valid()
      ensures ok == (old(cntr) < size || Forced())
      ensures Contents() == Pushed(old(Contents()), size, Forced(), value)
      ensures old(cntr) < size ==> cntr == old(cntr) + 1 && slots[..] == old(slots[..])[old(cntr) := value]
      ensures old(cntr) >= size && Forced() ==>
                cntr == size && slots[..] == old(slots[1..size]) + [value] + old(slots[size..])
      ensures !ok ==> cntr == old(cntr) && slots[..] == old(slots[..])
    {
      if cntr >= size {
        if Forced() {
          // the shift of lib/cli_queue.c:61 over size - 1 slots
          var i := 0;
          while i < size - 1
            invariant 0 <= i <= size - 1 && cntr == old(cntr)
            invariant forall j :: 0 <= j < i ==> slots[j] == old(slots[j + 1])
            invariant forall j :: i <= j < slots.Length ==> slots[j] == old(slots[j])
          {
            slots[i] := slots[i + 1];
            i := i + 1;
          }
          slots[cntr - 1] := value;
          cntr := size;
          assert slots[..] == old(slots[1..size]) + [value] + old(slots[size..]);
        } else {
          return false;
        }
      } else {
        slots[cntr] := value;
        cntr := cntr + 1;
      }
      return true;
    }

    /** `cli_queue_pop`: the oldest byte, the others move one slot down. The
        shift reads the slot just past the contents, which must lie inside
        the static array. `outValue` is the caller's variable, untouched when
        the queue is empty. */
    method Pop(outValue: byte) returns (ok: bool, value: byte)
      requires Valid()
      requires cntr == 0 || cntr < slots.Length
      modifies this`cntr, slots
      ensures Valid()
      ensures ok == (old(cntr) > 0)
      ensures !ok ==> value == outValue && cntr == old(cntr) && slots[..] == old(slots[..])
      ensures ok ==> value == old(slots[0]) && cntr == old(cntr) - 1
      ensures ok ==> slots[..] == old(slots[1..cntr + 1]) + old(slots[cntr..])
      ensures ok ==> Contents() == old(Contents())[1..]
    {
      if cntr == 0 {
        return false, outValue;
      }
      value := slots[0];
      var i := 0;
      while i < cntr
        invariant 0 <= i <= cntr && cntr == old(cntr)
        invariant forall j :: 0 <= j < i ==> slots[j] == old(slots[j + 1])
        invariant forall j :: i <= j < slots.Length ==> slots[j] == old(slots[j])
      {
        slots[i] := slots[i + 1];
        i := i + 1;
      }
      cntr := cntr - 1;
      ok := true;
      assert slots[..] == old(slots[1..cntr + 1]) + old(slots[cntr..]);
    }

    /** `cli_queue_is_full` */
    method IsFull() returns (r: bool)
      requires Valid()
      ensures r <==> |Contents()| >= size
    {
      r := cntr >= size;
    }

    /** `cli_queue_is_empty` */
    method IsEmpty() returns (r: bool)
      requires Valid()
      ensures r <==> Contents() == []
    {
      r := cntr == 0;
    }

    /** `cli_queue_is_equal`: the `n` oldest bytes equal `items[..n]`; false
        when the queue holds fewer than `n` bytes. */
    method IsEqual(items: seq<byte>, n: nat) returns (r: bool)
      requires Valid()
      requires n <= cntr ==> n <= |items|
      ensures r <==> n <= |Contents()| && Contents()[..n] == items[..n]
    {
      if n > cntr {
        return false;
      }
      r := slots[..n] == items[..n];
    }
  }
}
