/** The register file a driver reaches through a `Devres<IoMem<SIZE>>`.
    `try_access` succeeds unless the device framework has revoked the
    resource; `readl`/`writel` are aligned 32-bit accesses inside the
    `SIZE`-byte mapping.  Revocation is a flag that may be set between any
    two driver steps. */
module Devres {

  type Word = bv32

  /** A 32-bit access at byte `offset` lies inside a mapping of `size` bytes. */
  predicate OffsetValid(offset: nat, size: nat) {
    offset % 4 == 0 && offset + 4 <= size
  }

  /** Value view of a mapping: revoked or not, and the register words (word
      `i` is at byte offset `4 * i`). */
  datatype View = View(revoked: bool, regs: seq<Word>)

  /** The view after `writel(value, offset)`. */
  function Write(v: View, offset: nat, value: Word): (w: View)
    requires OffsetValid(offset, 4 * |v.regs|)
    ensures w.revoked == v.revoked && |w.regs| == |v.regs|
    ensures w.regs[offset / 4] == value
    ensures forall i | 0 <= i < |v.regs| && i != offset / 4 :: w.regs[i] == v.regs[i]
  {
    v.(regs := v.regs[offset / 4 := value])
  }

  class Mapping {
    const size: nat
    const regs: array<Word>
    var revoked: bool

    ghost predicate Valid()
      reads this
    {
      4 * regs.Length == size
    }

    function Snapshot(): View
      reads this, regs
    {
      View(revoked, regs[..])
    }

    /** A fresh, not yet revoked mapping whose registers hold `init`. */
    constructor (size: nat, init: seq<Word>)
      requires 4 * |init| == size
      ensures Valid() && this.size == size && fresh(regs)
      ensures Snapshot() == View(false, init)
    {
      this.size := size;
      regs := new Word[|init|](i requires 0 <= i < |init| => init[i]);
      revoked := false;
    }

    /** The device framework revokes the resource; registers keep their values. */
    method Revoke()
      modifies this
      ensures Snapshot() == old(Snapshot()).(revoked := true)
    {
      revoked := true;
    }

    /** `try_access().is_some()`. */
    predicate Accessible()
      reads this
    {
      !revoked
    }

    /** `readl(offset)` through the guard `try_access` returned. */
    method Readl(offset: nat) returns (v: Word)
      requires Valid() && Accessible() && OffsetValid(offset, size)
      ensures v == Snapshot().regs[offset / 4]
    {
      v := regs[offset / 4];
    }

    /** `writel(value, offset)` through the guard `try_access` returned. */
    method Writel(value: Word, offset: nat)
      requires Valid() && Accessible() && OffsetValid(offset, size)
      modifies regs
      ensures Snapshot() == Write(old(Snapshot()), offset, value)
    {
      regs[offset / 4] := value;
    }
  }
}
