/** The kernel services that the Rust abstractions call through FFI, modelled
    as an environment object.  Whether a call succeeds is decided by the
    caller of the model (a `granted` flag or an outcome code), except where
    the kernel's own bookkeeping decides it: a memory region that overlaps a
    region already reserved is never granted.  Every call is appended to
    `log`, so that the order of calls can be stated. */
module Kernel {

  datatype Option<T> = None | Some(value: T)

  /** A kernel error, as a positive errno value
      (include/uapi/asm-generic/errno-base.h). */
  datatype Error = Error(errno: nat)

  const ENXIO := Error(6)
  const ENOMEM := Error(12)
  const EBUSY := Error(16)
  const EINVAL := Error(22)

  datatype Result<T> = Ok(value: T) | Err(error: Error)

  /** The largest errno value (include/linux/err.h). */
  const MAX_ERRNO := 4095

  /** `Error::from_errno` as `to_result` applies it to a negative return
      code (rust/kernel/error.rs is not part of this model): a code in
      `-MAX_ERRNO..-1` becomes that errno, any other one EINVAL. */
  function FromErrno(code: int): (e: Error)
    requires code < 0
    ensures -MAX_ERRNO <= code ==> e.errno == -code
    ensures code < -MAX_ERRNO ==> e == EINVAL
  {
    if code < -MAX_ERRNO then EINVAL else Error(-code)
  }

  /** A physical or virtual address; 0 is the null pointer. */
  type Addr = nat

  /** A physical address range `[start, start + size)`. */
  datatype Region = Region(start: nat, size: nat)

  predicate Overlap(a: Region, b: Region) {
    a.start < b.start + b.size && b.start < a.start + a.size
  }

  /** No reserved region overlaps `r`. */
  predicate Free(reserved: set<Region>, r: Region) {
    forall b | b in reserved :: !Overlap(r, b)
  }

  /** One `struct irqaction`: the line, the flag word, the device name and
      the `dev_id` cookie passed back to the handler. */
  datatype IrqAction = IrqAction(irq: nat, flags: bv64, name: string, cookie: Addr)

  /** The FFI calls, in the order they are made. */
  datatype Call =
    | RequestMemRegion(region: Region)
    | ReleaseMemRegion(region: Region)
    | Ioremap(region: Region)
    | Iounmap(addr: Addr)
    | RequestIrq(irq: nat, flags: bv64, name: string, cookie: Addr)
    | FreeIrq(irq: nat, cookie: Addr)

  predicate Matches(a: IrqAction, irq: nat, cookie: Addr) {
    a.irq == irq && a.cookie == cookie
  }

  predicate HasAction(actions: seq<IrqAction>, irq: nat, cookie: Addr) {
    exists i :: 0 <= i < |actions| && Matches(actions[i], irq, cookie)
  }

  /** What `free_irq(irq, dev_id)` does to the action list: it unlinks the
      first action of that line whose cookie is `dev_id`, and nothing when
      there is none. */
  function RemoveAction(actions: seq<IrqAction>, irq: nat, cookie: Addr): (r: seq<IrqAction>)
    ensures HasAction(actions, irq, cookie) ==> |r| == |actions| - 1
    ensures !HasAction(actions, irq, cookie) ==> r == actions
  {
    if actions == [] then []
    else if Matches(actions[0], irq, cookie) then
      assert actions == [actions[0]] + actions[1..];
      actions[1..]
    else
      assert HasAction(actions, irq, cookie) ==> HasAction(actions[1..], irq, cookie) by {
        if HasAction(actions, irq, cookie) {
          var i :| 0 <= i < |actions| && Matches(actions[i], irq, cookie);
          assert actions[1..][i - 1] == actions[i];
        }
      }
      assert !HasAction(actions, irq, cookie) ==> !HasAction(actions[1..], irq, cookie) by {
        if HasAction(actions[1..], irq, cookie) {
          var i :| 0 <= i < |actions[1..]| && Matches(actions[1..][i], irq, cookie);
          assert actions[i + 1] == actions[1..][i];
        }
      }
      assert actions == [actions[0]] + actions[1..];
      [actions[0]] + RemoveAction(actions[1..], irq, cookie)
  }

  /** When the first action of `irq` with this cookie is at position `i`,
      `free_irq` unlinks exactly that one and keeps the order of the rest. */
  lemma {:induction false} RemoveActionUnlinksFirst(actions: seq<IrqAction>, irq: nat, cookie: Addr, i: nat)
    requires i < |actions| && Matches(actions[i], irq, cookie)
    requires forall j | 0 <= j < i :: !Matches(actions[j], irq, cookie)
    ensures RemoveAction(actions, irq, cookie) == actions[..i] + actions[i + 1..]
  {
    if i > 0 {
      assert !Matches(actions[0], irq, cookie);
      RemoveActionUnlinksFirst(actions[1..], irq, cookie, i - 1);
      assert actions[..i] == [actions[0]] + actions[1..][..i - 1];
      assert actions[i + 1..] == actions[1..][i..];
    }
  }

  /** Freeing the cookie of an action that was just appended, when no older
      action of that line has the same cookie, gives back the list as it was
      before the append. */
  lemma {:induction false} RemoveAppended(actions: seq<IrqAction>, a: IrqAction)
    requires !HasAction(actions, a.irq, a.cookie)
    ensures RemoveAction(actions + [a], a.irq, a.cookie) == actions
  {
    if actions == [] {
      assert [] + [a] == [a];
    } else {
      assert !Matches(actions[0], a.irq, a.cookie);
      assert !HasAction(actions[1..], a.irq, a.cookie);
      RemoveAppended(actions[1..], a);
      assert (actions + [a])[1..] == actions[1..] + [a];
      assert actions == [actions[0]] + actions[1..];
    }
  }

  /** The kernel state the core touches: reserved physical regions
      (`request_mem_region`), live `ioremap` mappings keyed by virtual
      address, the registered IRQ actions, and the log of FFI calls. */
  class Kernel {
    var reserved: set<Region>
    var mappings: map<Addr, Region>
    var nextAddr: Addr
    var actions: seq<IrqAction>
    var log: seq<Call>

    /** Reserved regions are non-empty and pairwise disjoint; every live
        mapping has a non-null address below `nextAddr`, so `nextAddr` is
        always a fresh address. */
    ghost predicate Valid()
      reads this
    {
      && (forall a | a in reserved :: a.size > 0)
      && (forall a, b | a in reserved && b in reserved && a != b :: !Overlap(a, b))
      && 0 < nextAddr
      && (forall addr | addr in mappings :: 0 < addr < nextAddr)
    }

    constructor ()
      ensures Valid()
      ensures reserved == {} && mappings == map[] && actions == [] && log == []
    {
      reserved := {};
      mappings := map[];
      nextAddr := 1;
      actions := [];
      log := [];
    }

    /** `request_mem_region`: succeeds when the caller grants it and the
        range overlaps no reserved region. */
    method RequestMemRegion(start: nat, size: nat, name: string, granted: bool) returns (ok: bool)
      requires Valid() && size > 0
      modifies this
      ensures Valid()
      ensures ok == (granted && Free(old(reserved), Region(start, size)))
      ensures reserved == if ok then old(reserved) + {Region(start, size)} else old(reserved)
      ensures log == old(log) + [Call.RequestMemRegion(Region(start, size))]
      ensures mappings == old(mappings) && nextAddr == old(nextAddr) && actions == old(actions)
    {
      var r := Region(start, size);
      ok := granted && Free(reserved, r);
      if ok {
        reserved := reserved + {r};
      }
      log := log + [Call.RequestMemRegion(r)];
    }

    /** `release_mem_region`: drops the reservation of exactly this range. */
    method ReleaseMemRegion(start: nat, size: nat)
      requires Valid()
      modifies this
      ensures Valid()
      ensures reserved == old(reserved) - {Region(start, size)}
      ensures log == old(log) + [Call.ReleaseMemRegion(Region(start, size))]
      ensures mappings == old(mappings) && nextAddr == old(nextAddr) && actions == old(actions)
    {
      reserved := reserved - {Region(start, size)};
      log := log + [Call.ReleaseMemRegion(Region(start, size))];
    }

    /** `ioremap`: a fresh non-null virtual address when granted, null
        otherwise. */
    method Ioremap(start: nat, size: nat, granted: bool) returns (addr: Addr)
      requires Valid()
      modifies this
      ensures Valid()
      ensures granted ==> addr == old(nextAddr) && addr !in old(mappings)
      ensures granted ==> mappings == old(mappings)[addr := Region(start, size)]
      ensures !granted ==> addr == 0 && mappings == old(mappings)
      ensures log == old(log) + [Call.Ioremap(Region(start, size))]
      ensures reserved == old(reserved) && actions == old(actions)
    {
      if granted {
        addr := nextAddr;
        mappings := mappings[addr := Region(start, size)];
        nextAddr := nextAddr + 1;
      } else {
        addr := 0;
      }
      log := log + [Call.Ioremap(Region(start, size))];
    }

    /** `iounmap`: the mapping at `addr` is gone. */
    method Iounmap(addr: Addr)
      requires Valid()
      modifies this
      ensures Valid()
      ensures mappings == old(mappings) - {addr}
      ensures log == old(log) + [Call.Iounmap(addr)]
      ensures reserved == old(reserved) && nextAddr == old(nextAddr) && actions == old(actions)
    {
      mappings := mappings - {addr};
      log := log + [Call.Iounmap(addr)];
    }

    /** `request_irq`: returns `outcome`, 0 or a negative errno chosen by the
        caller; on 0 the action is appended to the list. */
    method RequestIrq(irq: nat, flags: bv64, name: string, cookie: Addr, outcome: int) returns (ret: int)
      requires Valid() && outcome <= 0
      modifies this
      ensures Valid()
      ensures ret == outcome
      ensures actions == if ret == 0 then old(actions) + [IrqAction(irq, flags, name, cookie)] else old(actions)
      ensures log == old(log) + [Call.RequestIrq(irq, flags, name, cookie)]
      ensures reserved == old(reserved) && mappings == old(mappings) && nextAddr == old(nextAddr)
    {
      ret := outcome;
      if ret == 0 {
        actions := actions + [IrqAction(irq, flags, name, cookie)];
      }
      log := log + [Call.RequestIrq(irq, flags, name, cookie)];
    }

    /** `free_irq`: unlinks the first action of `irq` with this cookie;
        `found` is false when there was none (the kernel then warns). */
    method FreeIrq(irq: nat, cookie: Addr) returns (found: bool)
      requires Valid()
      modifies this
      ensures Valid()
      ensures found == HasAction(old(actions), irq, cookie)
      ensures actions == RemoveAction(old(actions), irq, cookie)
      ensures log == old(log) + [Call.FreeIrq(irq, cookie)]
      ensures reserved == old(reserved) && mappings == old(mappings) && nextAddr == old(nextAddr)
    {
      found := HasAction(actions, irq, cookie);
      actions := RemoveAction(actions, irq, cookie);
      log := log + [Call.FreeIrq(irq, cookie)];
    }
  }
}
