/** The mock LTC2943 driver (LTC2943.c): one stored byte stands in for every
    register; a read copies it out, a write overwrites it. */
module Ltc2943 {

  /** One call made to the driver, with the arguments it was given. */
  datatype Access =
    | ReadCall(address: bv8, size: bv8)
    | WriteCall(address: bv8, src: bv8, size: bv8)

  /** The stored byte when the program starts (LTC2943.c:12). */
  const INITIAL_RESP: bv8 := 0x00

  /** The effect of one call on the stored byte: a read leaves it, a write replaces it. */
  function Apply(stored: bv8, a: Access): bv8 {
    match a
    case ReadCall(_, _) => stored
    case WriteCall(_, src, _) => src
  }

  /** The stored byte after the calls of `log`, starting from `init`. */
  function Stored(init: bv8, log: seq<Access>): bv8 {
    if log == [] then init else Apply(Stored(init, log[..|log| - 1]), log[|log| - 1])
  }

  /** No write occurs in `log` after position `i`. */
  predicate NoWriteAfter(log: seq<Access>, i: int) {
    forall j :: 0 <= j < |log| && i < j ==> log[j].ReadCall?
  }

  /** The stored byte is the source of the last write, or the initial byte when
      nothing was written; reads and addresses play no part. */
  lemma {:induction false} StoredIsLastWrite(init: bv8, log: seq<Access>)
    ensures NoWriteAfter(log, -1) ==> Stored(init, log) == init
    ensures forall i :: 0 <= i < |log| && log[i].WriteCall? && NoWriteAfter(log, i) ==>
              Stored(init, log) == log[i].src
  {
    if log != [] {
      var n := |log| - 1;
      var prefix := log[..n];
      StoredIsLastWrite(init, prefix);
      if log[n].ReadCall? {
        assert NoWriteAfter(log, -1) ==> NoWriteAfter(prefix, -1);
        forall i | 0 <= i < |log| && log[i].WriteCall? && NoWriteAfter(log, i)
          ensures Stored(init, log) == log[i].src
        {
          assert i < n;
          assert prefix[i] == log[i];
          assert NoWriteAfter(prefix, i);
        }
      } else {
        assert !NoWriteAfter(log, -1);
        forall i | 0 <= i < |log| && log[i].WriteCall? && NoWriteAfter(log, i)
          ensures Stored(init, log) == log[i].src
        {
          assert i == n;
        }
      }
    }
  }

  /** A read after a write sees the written byte, whatever the two addresses. */
  lemma ReadAfterWrite(init: bv8, log: seq<Access>, wa: bv8, x: bv8, ws: bv8, ra: bv8, rs: bv8)
    ensures Stored(init, log + [WriteCall(wa, x, ws), ReadCall(ra, rs)]) == x
  {
    var l := log + [WriteCall(wa, x, ws), ReadCall(ra, rs)];
    StoredIsLastWrite(init, l);
    assert l[|log|].WriteCall? && NoWriteAfter(l, |log|);
  }

  /** Of two consecutive writes only the second one is visible afterwards. */
  lemma LastWriteWins(init: bv8, log: seq<Access>, a1: bv8, x1: bv8, s1: bv8, a2: bv8, x2: bv8, s2: bv8)
    ensures Stored(init, log + [WriteCall(a1, x1, s1), WriteCall(a2, x2, s2)]) == x2
  {
    var l := log + [WriteCall(a1, x1, s1), WriteCall(a2, x2, s2)];
    StoredIsLastWrite(init, l);
    assert l[|log| + 1].WriteCall? && NoWriteAfter(l, |log| + 1);
  }

  /** The mock driver. `resp` is the static byte of LTC2943.c:12; `log` is a
      ghost record of the calls made so far. */
  class Ltc2943Mock {
    var resp: bv8
    ghost var log: seq<Access>

    ghost predicate Valid()
      reads this
    {
      resp == Stored(INITIAL_RESP, log)
    }

    constructor ()
      ensures Valid()
      ensures resp == INITIAL_RESP && log == []
    {
      resp := INITIAL_RESP;
      log := [];
    }

    /** LTC2943_Initialise: always succeeds and touches nothing. */
    method Initialise() returns (ok: bool)
      ensures ok
    {
      ok := true;
    }

    /** LTC2943_Read: copies the stored byte to the destination for any
        address and size, and always succeeds. */
    method Read(address: bv8, size: bv8) returns (ok: bool, dest: bv8)
      requires Valid()
      modifies this`log
      ensures Valid()
      ensures ok && dest == resp
      ensures resp == old(resp)
      ensures log == old(log) + [ReadCall(address, size)]
    {
      dest := resp;
      log := log + [ReadCall(address, size)];
      assert log[..|log| - 1] == old(log);
      ok := true;
    }

    /** LTC2943_Write: replaces the stored byte by the source byte for any
        address and size, and always succeeds. */
    method Write(address: bv8, src: bv8, size: bv8) returns (ok: bool)
      requires Valid()
      modifies this
      ensures Valid()
      ensures ok && resp == src
      ensures log == old(log) + [WriteCall(address, src, size)]
    {
      resp := src;
      log := log + [WriteCall(address, src, size)];
      ok := true;
    }
  }
}
