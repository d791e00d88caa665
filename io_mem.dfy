/** Generic memory-mapped I/O: acquiring a physical range (optional exclusive
    reservation, then `ioremap`), rolling back when mapping fails, and
    releasing it again when the `IoMem` is dropped (rust/kernel/io/mem.rs). */
module IoMem {
  import opened Kernel

  /** The bus-supplied descriptor of a hardware range (rust/kernel/io/resource.rs). */
  datatype Resource = Resource(start: nat, size: nat, name: string)

  /** The raw mapping: virtual address and the size it may be accessed with. */
  datatype IoRaw = IoRaw(addr: Addr, maxsize: nat)

  /** An `IoMem<SIZE, EXCLUSIVE>`; the `EXCLUSIVE` const parameter of the
      type is carried as a field. */
  datatype IoMem = IoMem(io: IoRaw, resStart: nat, exclusive: bool)

  /** Outcomes of the steps whose code is not part of this model: whether
      the kernel grants the reservation and the mapping, and the error (if
      any) returned by `IoRaw::new` and by `Devres::new`. */
  datatype Outcomes = Outcomes(
    reserveGranted: bool,
    mapGranted: bool,
    ioRawError: Option<Error>,
    devresError: Option<Error>)

  function RegionOf(resource: Resource): Region {
    Region(resource.start, resource.size)
  }

  /** The reserved set after a reservation of `r` that was made only when
      `exclusive`. */
  function WithReservation(reserved: set<Region>, r: Region, exclusive: bool): set<Region> {
    if exclusive then reserved + {r} else reserved
  }

  /** The calls `new` makes up to and including `ioremap`. */
  function AcquireCalls(r: Region, exclusive: bool): seq<Call> {
    (if exclusive then [Call.RequestMemRegion(r)] else []) + [Call.Ioremap(r)]
  }

  /** The calls `drop` makes: release (when exclusive) and then unmap. */
  function ReleaseCalls(m: IoMem): seq<Call> {
    (if m.exclusive then [Call.ReleaseMemRegion(Region(m.resStart, m.io.maxsize))] else [])
      + [Call.Iounmap(m.io.addr)]
  }

  /** No call in `calls` reserves or releases a memory region. */
  predicate NoReservationCalls(calls: seq<Call>) {
    forall i | 0 <= i < |calls| :: !calls[i].RequestMemRegion? && !calls[i].ReleaseMemRegion?
  }

  /** `IoMem::new`, as written.  The result stands for the `Devres<IoMem>`
      that wraps the new `IoMem`. */
  method New(k: Kernel, resource: Resource, exclusive: bool, o: Outcomes) returns (r: Result<IoMem>)
    requires k.Valid()
    modifies k
    ensures k.Valid()
    ensures k.actions == old(k.actions)
    ensures old(k.log) <= k.log
    // without EXCLUSIVE no region is ever requested or released
    ensures !exclusive ==> k.reserved == old(k.reserved) && NoReservationCalls(k.log[|old(k.log)|..])
    // a zero-sized resource is refused before anything else happens
    ensures resource.size == 0 ==> r == Err(EINVAL) && unchanged(k)
    // EBUSY: the exclusive reservation was refused; nothing is reserved or mapped
    ensures resource.size != 0 && exclusive
            && !(o.reserveGranted && Free(old(k.reserved), RegionOf(resource))) ==>
              && r == Err(EBUSY)
              && k.reserved == old(k.reserved) && k.mappings == old(k.mappings)
              && k.log == old(k.log) + [Call.RequestMemRegion(RegionOf(resource))]
    // from here on the reservation (if any) was granted
    ensures resource.size != 0 && (exclusive ==> o.reserveGranted && Free(old(k.reserved), RegionOf(resource))) ==>
      // ENOMEM: ioremap failed, and the reservation is released again
      && (!o.mapGranted ==>
            && r == Err(ENOMEM)
            && k.reserved == old(k.reserved) && k.mappings == old(k.mappings)
            && k.log == old(k.log) + AcquireCalls(RegionOf(resource), exclusive)
                        + (if exclusive then [Call.ReleaseMemRegion(RegionOf(resource))] else []))
      // IoRaw::new failed: its error is returned, and NOTHING is rolled back
      && (o.mapGranted && o.ioRawError.Some? ==>
            && r == Err(o.ioRawError.value)
            && k.reserved == WithReservation(old(k.reserved), RegionOf(resource), exclusive)
            && k.mappings == old(k.mappings)[old(k.nextAddr) := RegionOf(resource)]
            && k.log == old(k.log) + AcquireCalls(RegionOf(resource), exclusive))
      // Devres::new failed: the IoMem it was handed is dropped, undoing everything
      && (o.mapGranted && o.ioRawError.None? && o.devresError.Some? ==>
            && r == Err(o.devresError.value)
            && k.reserved == old(k.reserved) && k.mappings == old(k.mappings)
            && k.log == old(k.log) + AcquireCalls(RegionOf(resource), exclusive)
                        + ReleaseCalls(IoMem(IoRaw(old(k.nextAddr), resource.size), resource.start, exclusive)))
      // success: the IoMem records the resource's start and size and a fresh mapping
      && (o.mapGranted && o.ioRawError.None? && o.devresError.None? ==>
            && r == Ok(IoMem(IoRaw(old(k.nextAddr), resource.size), resource.start, exclusive))
            && r.value.io.addr != 0 && r.value.io.addr !in old(k.mappings)
            && k.reserved == WithReservation(old(k.reserved), RegionOf(resource), exclusive)
            && k.mappings == old(k.mappings)[r.value.io.addr := RegionOf(resource)]
            && k.log == old(k.log) + AcquireCalls(RegionOf(resource), exclusive))
  {
    var size := resource.size;
    if size == 0 {
      return Err(EINVAL);
    }
    var resStart := resource.start;
    if exclusive {
      var granted := k.RequestMemRegion(resStart, size, resource.name, o.reserveGranted);
      if !granted {
        return Err(EBUSY);
      }
    }
    var addr := k.Ioremap(resStart, size, o.mapGranted);
    if addr == 0 {
      if exclusive {
        k.ReleaseMemRegion(resStart, size);
      }
      return Err(ENOMEM);
    }
    if o.ioRawError.Some? {
      return Err(o.ioRawError.value);
    }
    var io := IoMem(IoRaw(addr, size), resStart, exclusive);
    if o.devresError.Some? {
      Drop(k, io);
      return Err(o.devresError.value);
    }
    r := Ok(io);
  }

  /** `IoMem::new` with the rollback that the failure of `IoRaw::new`
      lacks: every failure leaves the reserved regions and the mappings as
      they were. */
  method NewWithRollback(k: Kernel, resource: Resource, exclusive: bool, o: Outcomes) returns (r: Result<IoMem>)
    requires k.Valid()
    modifies k
    ensures k.Valid()
    ensures k.actions == old(k.actions)
    ensures r.Err? ==> k.reserved == old(k.reserved) && k.mappings == old(k.mappings)
    ensures resource.size == 0 ==> r == Err(EINVAL) && unchanged(k)
    ensures (resource.size != 0 && exclusive
             && !(o.reserveGranted && Free(old(k.reserved), RegionOf(resource)))) ==> r == Err(EBUSY)
    ensures resource.size != 0 && (exclusive ==> o.reserveGranted && Free(old(k.reserved), RegionOf(resource))) ==>
      && (!o.mapGranted ==> r == Err(ENOMEM))
      && (o.mapGranted && o.ioRawError.Some? ==> r == Err(o.ioRawError.value))
      && (o.mapGranted && o.ioRawError.None? && o.devresError.Some? ==> r == Err(o.devresError.value))
      && (o.mapGranted && o.ioRawError.None? && o.devresError.None? ==>
            && r == Ok(IoMem(IoRaw(old(k.nextAddr), resource.size), resource.start, exclusive))
            && k.reserved == WithReservation(old(k.reserved), RegionOf(resource), exclusive)
            && k.mappings == old(k.mappings)[r.value.io.addr := RegionOf(resource)])
  {
    var size := resource.size;
    if size == 0 {
      return Err(EINVAL);
    }
    var resStart := resource.start;
    if exclusive {
      var granted := k.RequestMemRegion(resStart, size, resource.name, o.reserveGranted);
      if !granted {
        return Err(EBUSY);
      }
    }
    var addr := k.Ioremap(resStart, size, o.mapGranted);
    if addr == 0 {
      if exclusive {
        k.ReleaseMemRegion(resStart, size);
      }
      return Err(ENOMEM);
    }
    var io := IoMem(IoRaw(addr, size), resStart, exclusive);
    if o.ioRawError.Some? {
      Drop(k, io);
      return Err(o.ioRawError.value);
    }
    if o.devresError.Some? {
      Drop(k, io);
      return Err(o.devresError.value);
    }
    r := Ok(io);
  }

  /** `Drop for IoMem`: release the reservation (exclusive only) with the
      recorded start and size, then unmap. */
  method Drop(k: Kernel, m: IoMem)
    requires k.Valid()
    modifies k
    ensures k.Valid()
    ensures k.reserved == if m.exclusive then old(k.reserved) - {Region(m.resStart, m.io.maxsize)}
                          else old(k.reserved)
    ensures k.mappings == old(k.mappings) - {m.io.addr}
    ensures k.log == old(k.log) + ReleaseCalls(m)
    ensures !m.exclusive ==> k.reserved == old(k.reserved) && NoReservationCalls(k.log[|old(k.log)|..])
    ensures k.actions == old(k.actions) && k.nextAddr == old(k.nextAddr)
  {
    if m.exclusive {
      k.ReleaseMemRegion(m.resStart, m.io.maxsize);
    }
    k.Iounmap(m.io.addr);
  }

  /** A successful `new` followed by `drop` leaves the reserved regions and
      the mappings as they were before: drop releases exactly the region
      that `new` reserved and unmaps the address that `new` mapped. */
  method NewThenDrop(k: Kernel, resource: Resource, exclusive: bool, o: Outcomes) returns (r: Result<IoMem>)
    requires k.Valid()
    modifies k
    ensures k.Valid()
    ensures r.Ok? ==> k.reserved == old(k.reserved) && k.mappings == old(k.mappings)
    ensures r.Ok? ==>
      k.log == old(k.log) + AcquireCalls(RegionOf(resource), exclusive)
               + (if exclusive then [Call.ReleaseMemRegion(RegionOf(resource))] else [])
               + [Call.Iounmap(r.value.io.addr)]
  {
    r := New(k, resource, exclusive, o);
    if r.Ok? {
      assert exclusive ==> RegionOf(resource) !in old(k.reserved);
      Drop(k, r.value);
      assert k.mappings == old(k.mappings);
    }
  }

  /** Two exclusive acquisitions of overlapping ranges never both succeed;
      the second one fails with EBUSY while the first is held. */
  method ExclusiveIsMutual(k: Kernel, a: Resource, b: Resource, oa: Outcomes, ob: Outcomes)
    returns (ra: Result<IoMem>, rb: Result<IoMem>)
    requires k.Valid()
    requires a.size != 0 && b.size != 0 && Overlap(RegionOf(a), RegionOf(b))
    modifies k
    ensures k.Valid()
    ensures !(ra.Ok? && rb.Ok?)
    ensures ra.Ok? ==> rb == Err(EBUSY)
  {
    ra := New(k, a, true, oa);
    rb := New(k, b, true, ob);
  }

  /** When `IoRaw::new` fails after a granted exclusive reservation and
      mapping, `new` returns an error yet the region stays reserved and
      mapped: a later exclusive `new` of the same resource fails with EBUSY. */
  method IoRawErrorLeaks(k: Kernel, resource: Resource, o: Outcomes, retry: Outcomes)
    returns (first: Result<IoMem>, second: Result<IoMem>)
    requires k.Valid()
    requires resource.size != 0 && Free(k.reserved, RegionOf(resource))
    requires o.reserveGranted && o.mapGranted && o.ioRawError.Some?
    modifies k
    ensures first == Err(o.ioRawError.value) && second == Err(EBUSY)
    ensures RegionOf(resource) in k.reserved && RegionOf(resource) !in old(k.reserved)
    ensures old(k.nextAddr) !in old(k.mappings)
    ensures k.mappings == old(k.mappings)[old(k.nextAddr) := RegionOf(resource)]
  {
    first := New(k, resource, true, o);
    assert k.mappings[old(k.nextAddr)] == RegionOf(resource);
    second := New(k, resource, true, retry);
  }

  /** With the rollback in place, a failed acquisition of a free range does
      not stop a later one from succeeding. */
  method RollbackThenRetry(k: Kernel, resource: Resource, o: Outcomes, retry: Outcomes)
    returns (first: Result<IoMem>, second: Result<IoMem>)
    requires k.Valid()
    requires resource.size != 0 && Free(k.reserved, RegionOf(resource))
    requires retry.reserveGranted && retry.mapGranted && retry.ioRawError.None? && retry.devresError.None?
    modifies k
    ensures first.Err? ==> second.Ok?
  {
    first := NewWithRollback(k, resource, true, o);
    second := NewWithRollback(k, resource, true, retry);
  }
}
