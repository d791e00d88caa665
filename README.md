# Rust-for-Linux memory-mapped I/O, IRQ registration and two platform drivers

This project models, in Dafny, a small slice of the Rust-for-Linux kernel
abstractions and two platform drivers built on them:

- `IoMem::new` / `Drop for IoMem` (rust/kernel/io/mem.rs): an optional exclusive
  `request_mem_region` reservation, then `ioremap`, with rollback when the
  mapping fails; dropping releases the reservation and unmaps.
- The IRQ request API (rust/kernel/irq/request.rs): the `Flags` word and its
  `|`, `&`, `!` operators, `IrqReturn` and its numeric value,
  `Registration::register` (`request_irq`), `Registration::handler`,
  `PinnedDrop for Registration` (`free_irq`) and `handle_irq_callback`.
- The push-button driver (drivers/misc/pushbutton.rs): probe, IRQ handler and
  removal over a 16-byte register window.
- The LED PWM driver (drivers/misc/ledpwm.rs): probe with the static `NUM`
  name counter, misc-device open and close, and removal over a 4-byte window.

Modules:

- `Kernel` (kernel.dfy) is the environment the core calls through FFI. It is a
  class holding the reserved physical regions, the live `ioremap` mappings, the
  registered IRQ actions and a log of every FFI call, so that call order can be
  stated. Whether a call succeeds is a parameter chosen by the caller. The one
  exception is the kernel's own bookkeeping: a region overlapping a reserved
  one is never granted. `free_irq` unlinks the first action of the line whose
  cookie matches.
- `IoMem` (io_mem.dfy) holds `New` (as written), `NewWithRollback` (corrected,
  see Findings) and `Drop`, plus harness methods relating them.
- `IrqRequest` (irq_request.dfy) holds the flag operators as functions on a
  64-bit word and `Registration<T>` as a class whose `live` flag the methods
  update. The handler field's offset inside the pinned `Registration` is an
  explicit parameter, because it decides which cookie `free_irq` receives.
- `Devres` (devres.dfy) is a revocable register file: an `array<bv32>` plus a
  `revoked` flag. `readl`/`writel` require an aligned 32-bit access inside the
  window and an accessible (not revoked) mapping. `View` is its value
  snapshot.
- `Pushbutton` (pushbutton.dfy) and `LedPwm` (ledpwm.dfy) are the drivers. Each
  driver method is proved against a function on `View`. Lemmas over arbitrary
  sequences of interrupts, opens, closes and revocations are proved about those
  functions.

## Model

| member | source | states |
|---|---|---|
| `IoMem.New` | rust/kernel/io/mem.rs:34-75 | Size 0 gives EINVAL and touches nothing. A refused exclusive reservation gives EBUSY with nothing reserved or mapped. A failed `ioremap` gives ENOMEM after releasing the same `(start, size)`, so the reserved set is unchanged. An `IoRaw::new` error is returned with the reservation and mapping left in place. A `Devres::new` error drops the `IoMem`. On success the result records `res_start = start`, `maxsize = size` and a fresh non-null address. Without EXCLUSIVE no reservation call is ever made. |
| `IoMem.Drop` | rust/kernel/io/mem.rs:78-89 | For an exclusive `IoMem` it releases `(res_start, maxsize)` and then unmaps the address. The call log grows by exactly those calls, in that order. Without EXCLUSIVE it makes no release call and leaves the reserved set unchanged. |
| `IoMem.NewThenDrop` | rust/kernel/io/mem.rs:34-89 | A successful `new` followed by `drop` returns the reserved-region set and the mapping table to their prior state. The drop releases exactly the region `new` reserved (exclusive only) and unmaps the address `new` mapped, after `new`'s own calls. |
| `IoMem.ExclusiveIsMutual` | rust/kernel/io/mem.rs:42-54 | Two exclusive acquisitions of overlapping ranges never both succeed. While the first is held, the second gets EBUSY. |
| `IoMem.IoRawErrorLeaks` | rust/kernel/io/mem.rs:70 | After `IoRaw::new` fails, `new` returns that error, yet the range stays reserved and stays mapped at the fresh address. A later exclusive `new` of the same resource gets EBUSY. |
| `IoMem.NewWithRollback` | rust/kernel/io/mem.rs:34-75 | Same results as `new`, but every error leaves the reserved set and the mappings as they were. |
| `IoMem.RollbackThenRetry` | rust/kernel/io/mem.rs:59-72 | With the rollback in place, a failed acquisition of a free range does not stop a later successful one. |
| `IrqRequest.BitOr` | rust/kernel/irq/request.rs:19-24 | The OR of `a` and `b` includes every bit of `a` and of `b`. |
| `IrqRequest.BitAnd` | rust/kernel/irq/request.rs:26-31 | `a & b` is included in both `a` and `b`. |
| `IrqRequest.BitNot` | rust/kernel/irq/request.rs:33-38 | `a & !a` is the empty word, and the OR of `a` and `!a` is the full word. |
| `IrqRequest.OrBit` | rust/kernel/irq/request.rs:21-23 | Bit `i` of the OR of `a` and `b` is set iff it is set in `a` or in `b`. |
| `IrqRequest.AndBit` | rust/kernel/irq/request.rs:28-30 | Bit `i` of `a & b` is set iff it is set in both. |
| `IrqRequest.NotBit` | rust/kernel/irq/request.rs:35-37 | Bit `i` of `!a` is set iff it is clear in `a`. |
| `IrqRequest.OrCommutative` | rust/kernel/irq/request.rs:19-24 | OR is commutative. |
| `IrqRequest.OrAssociative` | rust/kernel/irq/request.rs:19-24 | OR is associative. |
| `IrqRequest.OrIdempotent` | rust/kernel/irq/request.rs:19-24 | OR is idempotent. |
| `IrqRequest.OrIsLeast` | rust/kernel/irq/request.rs:19-24 | Any word that includes `a` and `b` includes the OR of `a` and `b`. |
| `IrqRequest.AndIsGreatest` | rust/kernel/irq/request.rs:26-31 | Any word included in `a` and in `b` is included in `a & b`. |
| `IrqRequest.NotNot` | rust/kernel/irq/request.rs:33-38 | `!!a == a`. |
| `IrqRequest.AndNotIsEmpty` | rust/kernel/irq/request.rs:26-38 | `a & !a` is the empty word. |
| `IrqRequest.IrqReturnValue` | rust/kernel/irq/request.rs:112-119 | `None` maps to IRQ_NONE and `Handled` maps to IRQ_HANDLED, in both directions. |
| `IrqRequest.HandleIrqCallback` | rust/kernel/irq/request.rs:253-259 | The callback returns IRQ_HANDLED iff the handler found at the cookie returns `Handled`, and IRQ_NONE iff it returns `None`. |
| `IrqRequest.CallbackReachesHandler` | rust/kernel/irq/request.rs:217-225 | Through the cookie passed to `request_irq`, the callback runs the registration's own handler. |
| `IrqRequest.Registration.Init` | rust/kernel/irq/request.rs:206-209 | The slot holds the given irq number and handler and is not yet registered. |
| `IrqRequest.Register` | rust/kernel/irq/request.rs:200-235 | Calls `request_irq` once, with the irq, the flag word, the name and the handler field's address as cookie. It succeeds iff that call returns 0, and the action is then appended to the line. A negative return in `-4095..-1` becomes that errno, and any other negative return becomes EINVAL. The `pin_chain` failure drops the initialised slot, so `free_irq` follows for the same line and cookie, and no live registration results. `handler()` returns the handler that was passed in. |
| `IrqRequest.Registration.DropAsWritten` | rust/kernel/irq/request.rs:238-250 | As written, calls `free_irq` once, for the registered line, with the `Registration`'s own address as cookie. |
| `IrqRequest.Registration.Drop` | rust/kernel/irq/request.rs:238-250 | Calls `free_irq` once, for the registered line, with the cookie `request_irq` was given. The registration is no longer live. |
| `IrqRequest.RegisterThenDrop` | rust/kernel/irq/request.rs:200-250 | Register followed by drop, or a failed register dropping its slot, restores the IRQ action list. The log holds exactly one `request_irq` and then one `free_irq`, with the same line and cookie. |
| `IrqRequest.RegisterThenDropAsWritten` | rust/kernel/irq/request.rs:217-250 | As written, the action list is restored only when the handler field sits at offset 0. Otherwise the registered action outlives the registration. |
| `Pushbutton.OffsetsInBounds` | drivers/misc/pushbutton.rs:21-24 | Offsets 0x0, 0x8 and 0xC are aligned 4-byte accesses inside the 0x10-byte window, and 0x8 and 0xC are distinct registers. |
| `Pushbutton.ArmView` | drivers/misc/pushbutton.rs:59-61 | Probe's writes leave BUTTON_MASK in both the interrupt-mask and edge-capture registers. |
| `Pushbutton.HandleView` | drivers/misc/pushbutton.rs:93-104 | An interrupt sets edge-capture to BUTTON_MASK when accessible and changes nothing else. When revoked it changes nothing at all. |
| `Pushbutton.DisarmView` | drivers/misc/pushbutton.rs:78-84 | Drop panics iff the mapping is revoked. Otherwise both interrupt-mask and edge-capture become 0 and the data register is kept. |
| `Pushbutton.ArmedUntilRemoval` | drivers/misc/pushbutton.rs:93-104 | After probe, the registers stay armed through any sequence of interrupts and revocations. |
| `Pushbutton.RevokedIsFrozen` | drivers/misc/pushbutton.rs:94-102 | Once the mapping is revoked, no interrupt changes any register. |
| `Pushbutton.RevocationSticks` | drivers/misc/pushbutton.rs:94-102 | Once the mapping is revoked, the handler never sees it accessible again. |
| `Pushbutton.IrqHandler.HandleIrq` | drivers/misc/pushbutton.rs:93-104 | Always returns `Handled`. When accessible, it reads edge-capture and writes BUTTON_MASK back to it. When revoked, it touches no register. |
| `Pushbutton.Probe` | drivers/misc/pushbutton.rs:40-73 | No IRQ, no resource, a failed mapping or a revoked mapping each give ENXIO, and a failed `Arc` or driver allocation gives ENOMEM, all with no IRQ call. Otherwise both registers are armed and `request_irq` is called once, for the SHARED line with the name "ldd,pushbutton" and the handler's address as cookie. Probe succeeds iff that call succeeds, and the handler shares the driver's mapping. On failure the error is the negated return (EINVAL below -4095), and the dropped slot frees the same line and the handler's address. |
| `Pushbutton.Interrupt` | drivers/misc/pushbutton.rs:93-104 | On a line where the driver's action is registered, the handler found at the cookie runs on the driver's mapping, and the kernel gets IRQ_HANDLED back. |
| `Pushbutton.Remove` | drivers/misc/pushbutton.rs:76-85 | Panics iff the mapping is revoked. Otherwise it writes 0 to both registers and then frees the IRQ once, with the registered line and cookie. |
| `LedPwm.OffsetInBounds` | drivers/misc/ledpwm.rs:25 | Offset 0 is an aligned 4-byte access inside the 4-byte window. |
| `LedPwm.Name` | drivers/misc/ledpwm.rs:54-66 | `names[n]` is "led" followed by the digit `n` for `n < 10`. For any other `n` the index panics. |
| `LedPwm.NamesDistinct` | drivers/misc/ledpwm.rs:54-65 | The ten names are pairwise distinct. |
| `LedPwm.Counter.FetchAdd` | drivers/misc/ledpwm.rs:66 | Returns the old `NUM`. The new value is the old one plus 1, modulo 256, as `AtomicU8` wraps. |
| `LedPwm.NumAfterWraps` | drivers/misc/ledpwm.rs:26 | After `n` increments from 0, `NUM` is `n mod 256`. |
| `LedPwm.ProbeNames` | drivers/misc/ledpwm.rs:66 | Over successive probes, `NUM` after each `fetch_add` is `NumAfter` of the increment count, and each probe takes `names` at the old value. |
| `LedPwm.ProbeName` | drivers/misc/ledpwm.rs:54-66 | The probe that makes the `n`-th increment gets a name iff `n mod 256 < 10`, so the 11th such probe panics. Names repeat once the counter wraps. |
| `LedPwm.OpenView` | drivers/misc/ledpwm.rs:100-101 | Open fails iff the mapping is revoked. Otherwise the LED register becomes 0x80. |
| `LedPwm.CloseView` | drivers/misc/ledpwm.rs:117-123 | Close writes 0x10 only when accessible and otherwise changes nothing. |
| `LedPwm.RemoveView` | drivers/misc/ledpwm.rs:128-134 | Removal writes 0x00 only when accessible and otherwise changes nothing. |
| `LedPwm.LedKeepsLifecycleValue` | drivers/misc/ledpwm.rs:52 | From probe's 0xFF on, through any sequence of opens, closes, revocations and the final removal, the register holds only 0xFF, 0x80, 0x10 or 0x00. |
| `LedPwm.RevokedLedFrozen` | drivers/misc/ledpwm.rs:100-134 | Once revoked, no open, close or removal changes the register. |
| `LedPwm.UnrevokedRemovalTurnsOff` | drivers/misc/ledpwm.rs:100-134 | Without revocation, removal always leaves 0x00, and before it the last open or close decides the value (0x80 or 0x10). |
| `LedPwm.Probe` | drivers/misc/ledpwm.rs:40-79 | A missing resource, a failed mapping or a revoked mapping gives ENXIO, with no write and no increment. Otherwise 0xFF is written and `NUM` is incremented, even when the later registration fails. Probe panics iff the old `NUM >= 10`. On success it takes the name `names[old NUM]`. |
| `LedPwm.OpenDevice` | drivers/misc/ledpwm.rs:92-112 | Returns ENXIO when the mapping is revoked, touching nothing. Otherwise it writes 0x80, and then returns ENOMEM when the box allocation fails, and otherwise a device on the driver's own mapping. It succeeds iff the mapping is accessible and the allocation succeeds. |
| `LedPwm.CloseDevice` | drivers/misc/ledpwm.rs:115-124 | The register becomes as `CloseView` says. |
| `LedPwm.Remove` | drivers/misc/ledpwm.rs:126-135 | The register becomes as `RemoveView` says. |

## Left out

- Concurrency is not modelled. This covers interrupts arriving during probe or removal, `free_irq` waiting for running handlers, the revocation race inside `Devres`, `Arc` reference counts and the memory ordering of `NUM`. Revocation is a flag that may be set between any two driver steps, and an interrupt is a step.
- The kernel FFI functions (`request_mem_region`, `release_mem_region`, `ioremap`, `iounmap`, `request_irq`, `free_irq`, `platform_get_irq`) are not part of this model. Their success or failure is a parameter, and their effect is recorded in the `Kernel` class.
- rust/kernel/platform.rs (bus glue, `ioremap_resource_sized`, `get_irq`, `resource`) is not part of this model. The drivers take the presence of the IRQ and of the resource, and the success of the mapping, as parameters. They are not connected to `IoMem.New` or to the kernel's region sets.
- `IoRaw::new`, `Devres::new` and the internals of `Devres`, `Io` and `IoRaw` are not part of this model. Their errors are parameters of `IoMem.New`, and `Devres` is the revocable register file described above.
- The `device` argument of `IoMem::new` and the `Devres` wrapper around the result are not modelled: the result stands for the wrapped `IoMem`.
- Memory layout is not modelled: pinning, `Aliased`, pin-init macros, and the `container_of` / `'static` casts in ledpwm. The position of the handler inside a `Registration` is an explicit offset parameter.
- `IrqRequest.Register`: the trampoline pointer passed to `request_irq` is not modelled. The IRQ number (`u32`) is an unbounded natural.
- The `Flags` word is taken as 64 bits wide (`c_ulong` on 64-bit targets). The flag constants use the values of include/linux/interrupt.h, with `TIMER` the composite `__IRQF_TIMER | IRQF_NO_SUSPEND | IRQF_NO_THREAD`. No proof depends on them.
- Logging (`dev_info!`, `dev_dbg!`), the `info` argument of probe, OF device tables and module declarations are not modelled. Neither are the misc-device registration internals and `ARef<Device>`.
- `IrqRequest.Register`: when `request_irq` fails, the dropped slot frees the handler field's address, the corrected cookie of `IrqRequest.Registration.Drop`. As written, line 249 of rust/kernel/irq/request.rs passes the `Registration`'s own address (see Findings).
- `Pushbutton.Probe`: on a failed `request_irq` the dropped slot frees the handler field's address, as in `IrqRequest.Register`. As written, line 249 of rust/kernel/irq/request.rs passes the `Registration`'s own address.
- `Pushbutton.Remove`: the registration is freed with the corrected cookie (the handler field's address). As written, line 249 of rust/kernel/irq/request.rs passes the `Registration`'s own address; `IrqRequest.RegisterThenDropAsWritten` shows what that does.
- `LedPwm.Probe`: on a failed registration the register keeps 0xFF. The mapping is dropped with the partly built driver, so the model returns no handle to it and states nothing about it.
- `Pushbutton.Remove`, `Pushbutton.Probe` and `LedPwm.Probe`: a panic ends the model's run. Nothing that unwinding would do afterwards is modelled.

## Findings

| source | as written | input that shows it | evidently intended | confidence | as-written member | corrected member |
|---|---|---|---|---|---|---|
| rust/kernel/io/mem.rs:70 | When `IoRaw::new(addr, size)?` fails, it returns early without releasing the exclusive reservation and without unmapping `addr`. | An exclusive, non-empty, free resource where the reservation and `ioremap` succeed and `IoRaw::new` returns an error. The range stays reserved and mapped, and the next exclusive `new` of it gets EBUSY. | Roll back like the `ioremap` failure path does at lines 60-67, so that no error leaves a reservation or mapping behind. | not executed | `IoMem.IoRawErrorLeaks` | `IoMem.NewWithRollback` |
| rust/kernel/irq/request.rs:223 | `request_irq` receives the address of the `handler` field (line 223), but `free_irq` receives the address of the whole `Registration` (line 249). The comment at lines 243-245 says these are the same. | `Registration` has Rust's default layout, so the compiler may place `irq` before `handler`, for example at handler offset 8. `free_irq` then finds no action with that cookie, and the action, whose cookie points into freed memory, stays registered. | `free_irq` receives the same cookie `request_irq` was given: the handler field's address. | not executed | `IrqRequest.RegisterThenDropAsWritten` | `IrqRequest.Registration.Drop` |

The corrected members are the ones the rest of the model uses.
`Pushbutton.Remove` drops its registration with `IrqRequest.Registration.Drop`.
`IoMem.RollbackThenRetry` is proved about `IoMem.NewWithRollback`.
`IoMem.New` and `IrqRequest.Registration.DropAsWritten` keep the code's behaviour as written.

Pushbutton removal panics on `unwrap` when the mapping is already revoked, and ledpwm probe panics on the out-of-range `names` index once `NUM` reaches 10. The model keeps both panics.
