/** `wai_program`: the growing array that holds a program. */
module ProgramBuffer {
  import opened Words
  import opened Isa

  const SIZE_MAX: nat := 0xffff_ffff_ffff_ffff

  /** The most instructions a program can be given one by one: the last capacity
      that the overflow guards let the doubling from 16 reach. */
  const MOST: nat := 0x1000_0000_0000_0000

  function Doubled(capacity: nat): nat {
    if capacity == 0 then 16 else 2 * capacity
  }

  /** The overflow guards let an array of that capacity grow. */
  predicate CanGrow(capacity: nat) {
    Doubled(capacity) <= SIZE_MAX / RECORD_SIZE
  }

  /** A capacity the doubling from 16 passes through. */
  ghost predicate Reachable(capacity: nat) {
    capacity == 0 || exists k :: 4 <= k <= 60 && capacity == Pow2(k)
  }

  lemma {:induction false} Pow2Grows(j: nat, k: nat)
    requires j <= k
    ensures Pow2(j) <= Pow2(k)
    decreases k
  {
    if j < k {
      Pow2Grows(j, k - 1);
    }
  }

  lemma Pow2Limits()
    ensures Pow2(4) == 16 && Pow2(60) == MOST && Pow2(61) == 2 * MOST
  {
    Pow2At64();
    assert Pow2(4) == 2 * (2 * (2 * (2 * Pow2(0))));
    assert Pow2(64) == 2 * (2 * (2 * (2 * Pow2(60))));
    assert Pow2(61) == 2 * Pow2(60);
  }

  /** An array grown by doubling from nothing can grow on exactly below 2^60
      instructions, and stays on that path. */
  lemma Doubling(capacity: nat)
    requires Reachable(capacity)
    ensures capacity <= 0x1000_0000_0000_0000
    ensures CanGrow(capacity) <==> capacity < 0x1000_0000_0000_0000
    ensures capacity < 0x1000_0000_0000_0000 ==> Reachable(Doubled(capacity))
  {
    Pow2Limits();
    if capacity != 0 {
      var k :| 4 <= k <= 60 && capacity == Pow2(k);
      Pow2Grows(k, 60);
      if k < 60 {
        Pow2Grows(k, 59);
        assert 2 * capacity == Pow2(k + 1);
      }
    } else {
      assert Reachable(16);
    }
  }

  class Program {
    var code: array<Instr>
    var count: nat
    var capacity: nat

    ghost predicate Valid()
      reads this
    {
      count <= capacity == code.Length
    }

    ghost function Contents(): (s: seq<Instr>)
      requires Valid()
      reads this, code
    {
      code[..count]
    }

    constructor ()
      ensures Valid() && Contents() == [] && capacity == 0 && fresh(code)
    {
      code := new Instr[0];
      count, capacity := 0, 0;
    }

    /** A program as the reader leaves it: as large as its code. */
    constructor Loaded(records: seq<Instr>)
      ensures Valid() && Contents() == records && capacity == |records| && fresh(code)
    {
      code := new Instr[|records|](i requires 0 <= i < |records| => records[i]);
      count, capacity := |records|, |records|;
    }

    /** `wai_program_push`; `memory` says whether realloc succeeds. A push fails
        exactly when the array is full and cannot grow, for want of memory or of
        addresses, and then leaves the program as it was. */
    method Push(instruction: Instr, memory: bool) returns (r: Error)
      requires Valid()
      modifies this, code
      ensures Valid() && (code == old(code) || fresh(code))
      ensures r == if old(count) < old(capacity) || (memory && CanGrow(old(capacity))) then Ok else Oom
      ensures Contents() == if r == Ok then old(Contents()) + [instruction] else old(Contents())
      ensures capacity ==
        if r == Oom || old(count) < old(capacity) then old(capacity)
        else if old(capacity) == 0 then 16 else 2 * old(capacity)
    {
      if count == capacity {
        if capacity > SIZE_MAX / 2 {
          return Oom;
        }
        var newCapacity := if capacity == 0 then 16 else capacity * 2;
        if newCapacity > SIZE_MAX / RECORD_SIZE {
          return Oom;
        }
        if !memory {
          return Oom;
        }
        var newCode := new Instr[newCapacity];
        forall i | 0 <= i < count {
          newCode[i] := code[i];
        }
        code, capacity := newCode, newCapacity;
      }
      code[count] := instruction;
      count := count + 1;
      return Ok;
    }
  }
}
