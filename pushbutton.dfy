/** The push-button platform driver (drivers/misc/pushbutton.rs): probe arms
    the interrupt-mask and edge-capture registers and registers a shared
    IRQ whose handler acknowledges button edges; removal disarms both
    registers and frees the IRQ. */
module Pushbutton {
  import opened Kernel
  import opened Devres
  import IrqRequest

  const MAPPING_SIZE: nat := 0x10
  const DATA_OFFSET: nat := 0x0
  const INTERRUPT_MASK_OFFSET: nat := 0x8
  const EDGE_CAPTURE_OFFSET: nat := 0xC

  const BUTTON_MASK: Word := 0xF

  const NAME: string := "ldd,pushbutton"

  /** Every register offset the driver uses is a valid 32-bit access inside
      the 16-byte mapping, and the two it writes are distinct words. */
  lemma OffsetsInBounds()
    ensures OffsetValid(DATA_OFFSET, MAPPING_SIZE)
    ensures OffsetValid(INTERRUPT_MASK_OFFSET, MAPPING_SIZE)
    ensures OffsetValid(EDGE_CAPTURE_OFFSET, MAPPING_SIZE)
    ensures INTERRUPT_MASK_OFFSET / 4 != EDGE_CAPTURE_OFFSET / 4
  {
  }

  /** A view of this device's 16-byte register file. */
  predicate Sized(v: View) {
    4 * |v.regs| == MAPPING_SIZE
  }

  /** Both the interrupt-mask and the edge-capture register hold BUTTON_MASK. */
  predicate Armed(v: View) {
    Sized(v) && v.regs[INTERRUPT_MASK_OFFSET / 4] == BUTTON_MASK
    && v.regs[EDGE_CAPTURE_OFFSET / 4] == BUTTON_MASK
  }

  /** The two writes probe makes once `try_access` succeeded. */
  function ArmView(v: View): (w: View)
    requires Sized(v)
    ensures Armed(w) && w.revoked == v.revoked
    ensures w.regs[DATA_OFFSET / 4] == v.regs[DATA_OFFSET / 4]
  {
    Write(Write(v, INTERRUPT_MASK_OFFSET, BUTTON_MASK), EDGE_CAPTURE_OFFSET, BUTTON_MASK)
  }

  /** What one interrupt does to the registers: acknowledge the edges when
      the mapping is accessible, nothing otherwise. */
  function HandleView(v: View): (w: View)
    requires Sized(v)
    ensures Sized(w) && w.revoked == v.revoked
    ensures v.revoked ==> w == v
    ensures !v.revoked ==> w.regs[EDGE_CAPTURE_OFFSET / 4] == BUTTON_MASK
    ensures forall i | 0 <= i < |v.regs| && i != EDGE_CAPTURE_OFFSET / 4 :: w.regs[i] == v.regs[i]
  {
    if v.revoked then v else Write(v, EDGE_CAPTURE_OFFSET, BUTTON_MASK)
  }

  /** What driver drop does: disarm both registers, or panic (None) when
      `try_access` fails, because of the `unwrap`. */
  function DisarmView(v: View): (w: Option<View>)
    requires Sized(v)
    ensures w.None? <==> v.revoked
    ensures w.Some? ==>
      && Sized(w.value) && !w.value.revoked
      && w.value.regs[INTERRUPT_MASK_OFFSET / 4] == 0 && w.value.regs[EDGE_CAPTURE_OFFSET / 4] == 0
      && w.value.regs[DATA_OFFSET / 4] == v.regs[DATA_OFFSET / 4]
  {
    if v.revoked then None
    else Some(Write(Write(v, INTERRUPT_MASK_OFFSET, 0), EDGE_CAPTURE_OFFSET, 0))
  }

  /** What can happen to a probed device before it is removed. */
  datatype Event = Interrupt | Revoke

  function Step(v: View, e: Event): (w: View)
    requires Sized(v)
    ensures Sized(w)
  {
    match e
    case Interrupt => HandleView(v)
    case Revoke => v.(revoked := true)
  }

  function Run(v: View, events: seq<Event>): (w: View)
    requires Sized(v)
    ensures Sized(w)
    decreases |events|
  {
    if events == [] then v else Run(Step(v, events[0]), events[1..])
  }

  /** Once armed by probe, the device stays armed whatever interrupts and
      revocation happen before removal. */
  lemma {:induction false} ArmedUntilRemoval(v: View, events: seq<Event>)
    requires Armed(v)
    ensures Armed(Run(v, events))
    decreases |events|
  {
    if events != [] {
      ArmedUntilRemoval(Step(v, events[0]), events[1..]);
    }
  }

  /** After revocation no interrupt touches a register. */
  lemma {:induction false} RevokedIsFrozen(v: View, events: seq<Event>)
    requires Sized(v) && v.revoked
    ensures Run(v, events) == v
    decreases |events|
  {
    if events != [] {
      RevokedIsFrozen(Step(v, events[0]), events[1..]);
    }
  }

  /** Revocation is never undone. */
  lemma {:induction false} RevocationSticks(v: View, events: seq<Event>)
    requires Sized(v)
    ensures v.revoked ==> Run(v, events).revoked
    ensures Revoke in events ==> Run(v, events).revoked
    decreases |events|
  {
    if events != [] {
      RevocationSticks(Step(v, events[0]), events[1..]);
    }
  }

  /** The IRQ handler: it shares the mapping with the driver. */
  class IrqHandler {
    const mapping: Mapping

    constructor (mapping: Mapping)
      ensures this.mapping == mapping
    {
      this.mapping := mapping;
    }

    /** `handle_irq`: when the mapping is accessible, read edge-capture
        (`btns`) and write BUTTON_MASK back to it; otherwise touch nothing.
        Returns `Handled` either way. */
    method HandleIrq() returns (r: IrqRequest.IrqReturn, btns: Option<Word>)
      requires mapping.Valid() && mapping.size == MAPPING_SIZE
      modifies mapping.regs
      ensures r == IrqRequest.Handled
      ensures btns == if old(mapping.revoked) then None
                      else Some(old(mapping.Snapshot()).regs[EDGE_CAPTURE_OFFSET / 4])
      ensures mapping.Snapshot() == HandleView(old(mapping.Snapshot()))
    {
      if mapping.Accessible() {
        var b := mapping.Readl(EDGE_CAPTURE_OFFSET);
        btns := Some(b);
        mapping.Writel(BUTTON_MASK, EDGE_CAPTURE_OFFSET);
      } else {
        btns := None;
      }
      r := IrqRequest.Handled;
    }
  }

  class PushbuttonDriver {
    const mapping: Mapping
    const registration: IrqRequest.Registration<IrqHandler>

    /** The handler registered for the IRQ shares this driver's mapping. */
    ghost predicate Valid()
      reads this, mapping, registration
    {
      && mapping.Valid() && mapping.size == MAPPING_SIZE
      && registration.handler.mapping == mapping
    }

    constructor (mapping: Mapping, registration: IrqRequest.Registration<IrqHandler>)
      ensures this.mapping == mapping && this.registration == registration
    {
      this.mapping := mapping;
      this.registration := registration;
    }
  }

  /** `PushbuttonDriver::probe`.  `irq` is what `get_irq(0)` yields,
      `hasResource` whether resource 0 exists, `mapped` whether
      `ioremap_resource_sized` succeeds, `arcAllocated` whether `Arc::new`
      gets its memory, `init` the register contents found,
      `revokedBeforeAccess` whether the mapping is revoked before
      `try_access`, `boxAllocated` whether `KBox::try_pin_init` gets its
      memory, and `addr`, `handlerOffset`, `irqOutcome` where the
      registration (the driver's `irq_registration` field) is pinned, where
      its handler lies inside it and what `request_irq` returns. */
  method Probe(k: Kernel, irq: Option<nat>, hasResource: bool, mapped: bool, arcAllocated: bool,
               init: seq<Word>, revokedBeforeAccess: bool, boxAllocated: bool,
               addr: Addr, handlerOffset: nat, irqOutcome: int)
    returns (r: Result<PushbuttonDriver>)
    requires k.Valid() && 4 * |init| == MAPPING_SIZE && irqOutcome <= 0
    modifies k
    ensures k.Valid()
    // missing IRQ, missing resource or failed mapping: ENXIO, before any IRQ call
    ensures (irq.None? || !hasResource || !mapped) ==> r == Err(ENXIO) && unchanged(k)
    // then: Arc allocation, access to the mapping, allocation of the driver
    ensures irq.Some? && hasResource && mapped ==>
      && (!arcAllocated ==> r == Err(ENOMEM) && unchanged(k))
      && (arcAllocated && revokedBeforeAccess ==> r == Err(ENXIO) && unchanged(k))
      && (arcAllocated && !revokedBeforeAccess && !boxAllocated ==> r == Err(ENOMEM) && unchanged(k))
    // otherwise request_irq is called for the SHARED line with the handler's
    // address as cookie, and its result decides
    ensures (irq.Some? && hasResource && mapped && arcAllocated && !revokedBeforeAccess && boxAllocated) ==>
      && (r.Ok? <==> irqOutcome == 0)
      && (r.Ok? ==> k.log == old(k.log) + [Call.RequestIrq(irq.value, IrqRequest.SHARED.bits, NAME, addr + handlerOffset)])
      && (r.Err? ==>
            && (-MAX_ERRNO <= irqOutcome ==> r.error.errno == -irqOutcome)
            && (irqOutcome < -MAX_ERRNO ==> r.error == EINVAL)
            && k.actions == RemoveAction(old(k.actions), irq.value, addr + handlerOffset)
            && k.log == old(k.log) + [Call.RequestIrq(irq.value, IrqRequest.SHARED.bits, NAME, addr + handlerOffset),
                                      Call.FreeIrq(irq.value, addr + handlerOffset)])
    ensures r.Ok? ==>
      && fresh(r.value) && fresh(r.value.mapping) && fresh(r.value.mapping.regs) && fresh(r.value.registration)
      && r.value.Valid()
      && r.value.mapping.Snapshot() == ArmView(View(false, init))
      && r.value.registration.live && r.value.registration.irq == irq.value
      && r.value.registration.HandlerCookie() == addr + handlerOffset
      && k.actions == old(k.actions)
                      + [IrqAction(irq.value, IrqRequest.SHARED.bits, NAME, addr + handlerOffset)]
  {
    if irq.None? || !hasResource || !mapped {
      return Err(ENXIO);
    }
    if !arcAllocated {
      return Err(ENOMEM);
    }
    var mapping := new Mapping(MAPPING_SIZE, init);
    var handler := new IrqHandler(mapping);
    if revokedBeforeAccess {
      mapping.Revoke();
    }
    if !mapping.Accessible() {
      return Err(ENXIO);
    }
    mapping.Writel(BUTTON_MASK, INTERRUPT_MASK_OFFSET);
    mapping.Writel(BUTTON_MASK, EDGE_CAPTURE_OFFSET);
    if !boxAllocated {
      return Err(ENOMEM);
    }
    var reg := IrqRequest.Register(k, irq.value, IrqRequest.SHARED, NAME, handler, addr, handlerOffset, irqOutcome);
    if reg.Err? {
      return Err(reg.error);
    }
    var drv := new PushbuttonDriver(mapping, reg.value);
    r := Ok(drv);
  }

  /** The interrupt arriving on a line where the driver's action is
      registered: the callback treats the cookie as the address of the
      handler and finds it in the memory `mem` where the registration is
      pinned, runs it, and hands back IRQ_HANDLED. */
  method Interrupt(k: Kernel, drv: PushbuttonDriver, mem: map<Addr, IrqHandler>) returns (v: bv32)
    requires drv.Valid() && drv.registration.live && drv.registration.PinnedIn(mem)
    requires HasAction(k.actions, drv.registration.irq, drv.registration.HandlerCookie())
    modifies drv.mapping.regs
    ensures v == IrqRequest.IRQ_HANDLED
    ensures drv.mapping.Snapshot() == HandleView(old(drv.mapping.Snapshot()))
  {
    var handler := mem[drv.registration.HandlerCookie()];
    var r, _ := handler.HandleIrq();
    v := IrqRequest.IrqReturnValue(r);
  }

  /** Removal: `PushbuttonDriver`'s drop writes 0 to both registers (or
      panics on `unwrap` when the mapping is already revoked, after which
      nothing more is modelled), then the registration field is dropped,
      freeing the IRQ once. */
  method Remove(k: Kernel, drv: PushbuttonDriver) returns (panicked: bool)
    requires k.Valid() && drv.Valid() && drv.registration.live
    modifies k, drv.mapping.regs, drv.registration
    ensures k.Valid()
    ensures panicked == old(drv.mapping.revoked)
    ensures panicked ==> unchanged(k) && drv.mapping.Snapshot() == old(drv.mapping.Snapshot())
    ensures !panicked ==>
      && Some(drv.mapping.Snapshot()) == DisarmView(old(drv.mapping.Snapshot()))
      && !drv.registration.live
      && k.actions == RemoveAction(old(k.actions), drv.registration.irq, drv.registration.HandlerCookie())
      && k.log == old(k.log) + [Call.FreeIrq(drv.registration.irq, drv.registration.HandlerCookie())]
  {
    if !drv.mapping.Accessible() {
      return true;
    }
    panicked := false;
    drv.mapping.Writel(0, INTERRUPT_MASK_OFFSET);
    drv.mapping.Writel(0, EDGE_CAPTURE_OFFSET);
    drv.registration.Drop(k);
  }
}
