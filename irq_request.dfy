/** IRQ allocation and handling (rust/kernel/irq/request.rs): the flag word
    and its operators, the handler's return value, and the `Registration`
    guard that owns one `request_irq` registration and frees it on drop. */
module IrqRequest {
  import opened Kernel

  /** `Flags(c_ulong)`; `c_ulong` is taken to be 64 bits wide. */
  datatype Flags = Flags(bits: bv64)

  /** Bit `i` of the flag word is set. */
  predicate Bit(f: Flags, i: bv6) {
    (f.bits >> i) & 1 == 1
  }

  /** Every bit set in `g` is set in `f`. */
  predicate Includes(f: Flags, g: Flags) {
    f.bits & g.bits == g.bits
  }

  const NO_FLAGS := Flags(0)
  const ALL_FLAGS := Flags(0xFFFF_FFFF_FFFF_FFFF)

  /** `impl BitOr for Flags`. */
  function BitOr(a: Flags, b: Flags): (r: Flags)
    ensures Includes(r, a) && Includes(r, b)
  {
    Flags(a.bits | b.bits)
  }

  /** `impl BitAnd for Flags`. */
  function BitAnd(a: Flags, b: Flags): (r: Flags)
    ensures Includes(a, r) && Includes(b, r)
  {
    Flags(a.bits & b.bits)
  }

  /** `impl Not for Flags`. */
  function BitNot(a: Flags): (r: Flags)
    ensures BitAnd(a, r) == NO_FLAGS && BitOr(a, r) == ALL_FLAGS
  {
    Flags(!a.bits)
  }

  // The operators act bit by bit on the wrapped word.

  lemma OrBit(a: Flags, b: Flags, i: bv6)
    ensures Bit(BitOr(a, b), i) == (Bit(a, i) || Bit(b, i))
  {
  }

  lemma AndBit(a: Flags, b: Flags, i: bv6)
    ensures Bit(BitAnd(a, b), i) == (Bit(a, i) && Bit(b, i))
  {
  }

  lemma NotBit(a: Flags, i: bv6)
    ensures Bit(BitNot(a), i) == !Bit(a, i)
  {
  }

  // The algebra that follows: `|` is commutative, associative and
  // idempotent and is the least word including both operands, `&` the
  // greatest word included in both, and `!` an involution whose meet with
  // its operand is empty.

  lemma OrCommutative(a: Flags, b: Flags)
    ensures BitOr(a, b) == BitOr(b, a)
  {
  }

  lemma OrAssociative(a: Flags, b: Flags, c: Flags)
    ensures BitOr(a, BitOr(b, c)) == BitOr(BitOr(a, b), c)
  {
  }

  lemma OrIdempotent(a: Flags)
    ensures BitOr(a, a) == a
  {
  }

  lemma OrIsLeast(a: Flags, b: Flags, c: Flags)
    requires Includes(c, a) && Includes(c, b)
    ensures Includes(c, BitOr(a, b))
  {
  }

  lemma AndIsGreatest(a: Flags, b: Flags, c: Flags)
    requires Includes(a, c) && Includes(b, c)
    ensures Includes(BitAnd(a, b), c)
  {
  }

  lemma NotNot(a: Flags)
    ensures BitNot(BitNot(a)) == a
  {
  }

  lemma AndNotIsEmpty(a: Flags)
    ensures BitAnd(a, BitNot(a)) == NO_FLAGS
  {
  }

  // The constants of the `flags` module.  Their values come from the C
  // header include/linux/interrupt.h through the bindings; no proof
  // depends on them beyond their being distinct words.

  const TRIGGER_NONE := Flags(0x0000_0000)
  const TRIGGER_RISING := Flags(0x0000_0001)
  const TRIGGER_FALLING := Flags(0x0000_0002)
  const TRIGGER_HIGH := Flags(0x0000_0004)
  const TRIGGER_LOW := Flags(0x0000_0008)
  const SHARED := Flags(0x0000_0080)
  const PROBE_SHARED := Flags(0x0000_0100)
  /** `__IRQF_TIMER | IRQF_NO_SUSPEND | IRQF_NO_THREAD`. */
  const TIMER := Flags(0x0001_4200)
  const PERCPU := Flags(0x0000_0400)
  const NOBALANCING := Flags(0x0000_0800)
  const IRQPOLL := Flags(0x0000_1000)
  const ONESHOT := Flags(0x0000_2000)
  const NO_SUSPEND := Flags(0x0000_4000)
  const FORCE_RESUME := Flags(0x0000_8000)
  const NO_THREAD := Flags(0x0001_0000)
  const EARLY_RESUME := Flags(0x0002_0000)
  const COND_SUSPEND := Flags(0x0004_0000)
  const NO_AUTOEN := Flags(0x0008_0000)
  const NO_DEBUG := Flags(0x0010_0000)

  /** What a handler returns. */
  datatype IrqReturn = None | Handled

  /** `irqreturn_IRQ_NONE` and `irqreturn_IRQ_HANDLED` (include/linux/irqreturn.h). */
  const IRQ_NONE: bv32 := 0
  const IRQ_HANDLED: bv32 := 1

  /** The numeric value `handle_irq_callback` hands back to the kernel. */
  function IrqReturnValue(r: IrqReturn): (v: bv32)
    ensures v == IRQ_NONE <==> r == IrqReturn.None
    ensures v == IRQ_HANDLED <==> r == Handled
  {
    match r
    case None => IRQ_NONE
    case Handled => IRQ_HANDLED
  }

  /** `handle_irq_callback::<T>(irq, ptr)`: treats the cookie `ptr` as the
      address of a `T` (here: looks it up in the memory `mem`), runs the
      handler on it (`handle` is what `T::handle_irq` returns for a given
      handler) and returns that result's numeric value.  The caller
      guarantees that a `T` lives at `ptr`. */
  function HandleIrqCallback<T>(irq: int, ptr: Addr, mem: map<Addr, T>, handle: T -> IrqReturn): (v: bv32)
    requires ptr in mem
    ensures v == IRQ_HANDLED <==> handle(mem[ptr]) == Handled
    ensures v == IRQ_NONE <==> handle(mem[ptr]) == IrqReturn.None
  {
    IrqReturnValue(handle(mem[ptr]))
  }

  /** A `Registration<T>` pinned at address `addr`.  Where its `handler`
      field lies inside it is the compiler's choice (the struct has Rust's
      default layout): `handlerOffset` bytes from `addr`. */
  class Registration<T> {
    const irq: nat
    const handler: T
    const addr: Addr
    const handlerOffset: nat
    /** Registered (true) or not yet registered / freed (false). */
    var live: bool

    /** The address of the `handler` field: the cookie given to `request_irq`. */
    function HandlerCookie(): Addr {
      addr + handlerOffset
    }

    /** Memory holds this registration's handler at its pinned address. */
    ghost predicate PinnedIn(mem: map<Addr, T>) {
      HandlerCookie() in mem && mem[HandlerCookie()] == handler
    }

    /** The slot initialised with `irq` and the handler, before `request_irq`. */
    constructor Init(irq: nat, handler: T, addr: Addr, handlerOffset: nat)
      ensures this.irq == irq && this.handler == handler
      ensures this.addr == addr && this.handlerOffset == handlerOffset
      ensures !live
    {
      this.irq := irq;
      this.handler := handler;
      this.addr := addr;
      this.handlerOffset := handlerOffset;
      live := false;
    }

    /** `PinnedDrop for Registration`, as written: `free_irq` is given the
        address of the `Registration` itself as the cookie. */
    method DropAsWritten(k: Kernel)
      requires k.Valid()
      modifies this, k
      ensures k.Valid() && !live
      ensures k.actions == RemoveAction(old(k.actions), irq, addr)
      ensures k.log == old(k.log) + [Call.FreeIrq(irq, addr)]
      ensures k.reserved == old(k.reserved) && k.mappings == old(k.mappings)
    {
      var _ := k.FreeIrq(irq, addr);
      live := false;
    }

    /** `PinnedDrop for Registration` with the cookie that `request_irq` was
        given: `free_irq` runs once, for the registered line and cookie. */
    method Drop(k: Kernel)
      requires k.Valid()
      modifies this, k
      ensures k.Valid() && !live
      ensures k.actions == RemoveAction(old(k.actions), irq, HandlerCookie())
      ensures k.log == old(k.log) + [Call.FreeIrq(irq, HandlerCookie())]
      ensures k.reserved == old(k.reserved) && k.mappings == old(k.mappings)
    {
      var _ := k.FreeIrq(irq, HandlerCookie());
      live := false;
    }
  }

  /** `Registration::register`: initialise the slot at `addr`, then call
      `request_irq` with the line, the flag word, the name and the address
      of the handler as cookie.  `outcome` is what `request_irq` returns
      (0 or a negative errno).  A negative value becomes the error through
      `to_result`; the
      `pin_chain` closure failing drops the initialised slot, so its
      `PinnedDrop` calls `free_irq` for an action that was never added. */
  method Register<T>(k: Kernel, irq: nat, flags: Flags, name: string, handler: T,
                     addr: Addr, handlerOffset: nat, outcome: int)
    returns (r: Result<Registration<T>>)
    requires k.Valid() && outcome <= 0
    modifies k
    ensures k.Valid()
    ensures k.reserved == old(k.reserved) && k.mappings == old(k.mappings)
    ensures r.Ok? <==> outcome == 0
    ensures r.Ok? ==>
      && fresh(r.value) && r.value.live
      && r.value.irq == irq && r.value.handler == handler
      && r.value.addr == addr && r.value.handlerOffset == handlerOffset
      && k.actions == old(k.actions) + [IrqAction(irq, flags.bits, name, r.value.HandlerCookie())]
      && k.log == old(k.log) + [Call.RequestIrq(irq, flags.bits, name, addr + handlerOffset)]
    ensures r.Err? ==> (-MAX_ERRNO <= outcome ==> r.error.errno == -outcome)
    ensures r.Err? ==> (outcome < -MAX_ERRNO ==> r.error == EINVAL)
    ensures r.Err? ==> k.actions == RemoveAction(old(k.actions), irq, addr + handlerOffset)
    ensures r.Err? ==> k.log == old(k.log) + [Call.RequestIrq(irq, flags.bits, name, addr + handlerOffset),
                                              Call.FreeIrq(irq, addr + handlerOffset)]
  {
    ghost var actions0, log0 := k.actions, k.log;
    var slot := new Registration.Init(irq, handler, addr, handlerOffset);
    var cookie := slot.HandlerCookie();
    assert cookie == addr + handlerOffset;
    var ret := k.RequestIrq(irq, flags.bits, name, cookie, outcome);
    ghost var requested := log0 + [Call.RequestIrq(irq, flags.bits, name, cookie)];
    assert k.log == requested;
    if ret < 0 {
      assert k.actions == actions0;
      slot.Drop(k);
      assert k.actions == RemoveAction(actions0, irq, cookie);
      assert k.log == requested + [Call.FreeIrq(irq, cookie)];
      r := Err(FromErrno(ret));
      return;
    }
    slot.live := true;
    r := Ok(slot);
  }

  /** The cookie registered for a pinned registration leads the callback to
      that registration's handler. */
  lemma CallbackReachesHandler<T>(reg: Registration<T>, mem: map<Addr, T>, handle: T -> IrqReturn)
    requires reg.PinnedIn(mem)
    ensures HandleIrqCallback(reg.irq, reg.HandlerCookie(), mem, handle) == IrqReturnValue(handle(reg.handler))
  {
  }

  /** Registering and then dropping (or the failed registration dropping
      its slot) leaves the kernel's action list as it was, with exactly one
      `request_irq` and one `free_irq` for the same line and cookie. */
  method RegisterThenDrop<T>(k: Kernel, irq: nat, flags: Flags, name: string, handler: T,
                             addr: Addr, handlerOffset: nat, outcome: int)
    returns (registered: bool)
    requires k.Valid() && outcome <= 0
    requires !HasAction(k.actions, irq, addr + handlerOffset)
    modifies k
    ensures k.Valid()
    ensures k.actions == old(k.actions)
    ensures registered == (outcome == 0)
    ensures k.log == old(k.log) + [Call.RequestIrq(irq, flags.bits, name, addr + handlerOffset),
                                   Call.FreeIrq(irq, addr + handlerOffset)]
  {
    ghost var actions0, log0 := k.actions, k.log;
    ghost var requested := log0 + [Call.RequestIrq(irq, flags.bits, name, addr + handlerOffset)];
    var r := Register(k, irq, flags, name, handler, addr, handlerOffset, outcome);
    registered := r.Ok?;
    if registered {
      var reg := r.value;
      assert k.log == requested;
      ghost var a := IrqAction(irq, flags.bits, name, addr + handlerOffset);
      assert reg.HandlerCookie() == addr + handlerOffset;
      assert k.actions == actions0 + [a];
      RemoveAppended(actions0, a);
      reg.Drop(k);
      assert k.actions == actions0;
      assert k.log == requested + [Call.FreeIrq(irq, addr + handlerOffset)];
    }
  }

  /** Registering and then dropping as written: when the `handler` field is
      at offset 0 the list is restored; otherwise `free_irq` finds no action
      for the `Registration`'s address and the registered action stays in
      the list after the handler has been dropped. */
  method RegisterThenDropAsWritten<T>(k: Kernel, irq: nat, flags: Flags, name: string, handler: T,
                                      addr: Addr, handlerOffset: nat)
    requires k.Valid()
    requires !HasAction(k.actions, irq, addr + handlerOffset) && !HasAction(k.actions, irq, addr)
    modifies k
    ensures k.Valid()
    ensures handlerOffset == 0 ==> k.actions == old(k.actions)
    ensures handlerOffset != 0 ==>
      k.actions == old(k.actions) + [IrqAction(irq, flags.bits, name, addr + handlerOffset)]
  {
    ghost var actions0 := k.actions;
    var r := Register(k, irq, flags, name, handler, addr, handlerOffset, 0);
    var reg := r.value;
    ghost var a := IrqAction(irq, flags.bits, name, addr + handlerOffset);
    assert reg.HandlerCookie() == addr + handlerOffset && reg.addr == addr;
    assert k.actions == actions0 + [a];
    if handlerOffset == 0 {
      RemoveAppended(actions0, a);
    } else {
      NoActionAfterAppend(actions0, a, irq, addr);
    }
    reg.DropAsWritten(k);
  }

  /** Appending an action with another cookie adds no action for `cookie`. */
  lemma NoActionAfterAppend(actions: seq<IrqAction>, a: IrqAction, irq: nat, cookie: Addr)
    requires !HasAction(actions, irq, cookie) && !Matches(a, irq, cookie)
    ensures !HasAction(actions + [a], irq, cookie)
  {
  }
}
