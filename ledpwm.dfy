/** The LED PWM platform driver (drivers/misc/ledpwm.rs): one 32-bit
    register at offset 0 of a 4-byte mapping.  Probe lights all LEDs and
    takes the next name from a static counter, opening the misc device sets
    the opened pattern, closing and removal set theirs, each only while the
    mapping is still accessible. */
module LedPwm {
  import opened Kernel
  import opened Devres

  const MAPPING_SIZE: nat := 0x4
  const LED_OFFSET: nat := 0x0

  const PROBE_VALUE: Word := 0xFF
  const OPEN_VALUE: Word := 0x80
  const CLOSE_VALUE: Word := 0x10
  const REMOVE_VALUE: Word := 0x00

  const NAMES: seq<string> :=
    ["led0", "led1", "led2", "led3", "led4", "led5", "led6", "led7", "led8", "led9"]

  /** The only register access the driver makes is a valid 32-bit access. */
  lemma OffsetInBounds()
    ensures OffsetValid(LED_OFFSET, MAPPING_SIZE)
  {
  }

  /** `names[n]`: "led" followed by the decimal digit `n`, or None where the
      index is outside the ten-entry array (the access panics there). */
  function Name(n: nat): (r: Option<string>)
    ensures r.Some? <==> n < 10
    ensures r.Some? ==> r.value == "led" + [('0' as int + n) as char]
  {
    if n < |NAMES| then Some(NAMES[n]) else None
  }

  /** The ten names are pairwise distinct. */
  lemma NamesDistinct(i: nat, j: nat)
    requires i < 10 && j < 10 && i != j
    ensures Name(i) != Name(j)
  {
    assert Name(i).value[3] != Name(j).value[3];
  }

  /** The static `NUM: AtomicU8`. */
  class Counter {
    var num: bv8

    constructor ()
      ensures num == 0
    {
      num := 0;
    }

    /** `fetch_add(1)`: returns the old value; the new one wraps at 256. */
    method FetchAdd() returns (prev: bv8)
      modifies this
      ensures prev == old(num)
      ensures num as int == (old(num) as int + 1) % 256
    {
      prev := num;
      num := num + 1;
    }
  }

  /** The value of `NUM` after `n` increments from its initial 0. */
  function NumAfter(n: nat): bv8
  {
    if n == 0 then 0 else NumAfter(n - 1) + 1
  }

  /** `NUM` counts increments modulo 256. */
  lemma {:induction false} NumAfterWraps(n: nat)
    ensures NumAfter(n) as int == n % 256
  {
    if n > 0 {
      var prev := NumAfter(n - 1);
      NumAfterWraps(n - 1);
      WrappingIncrement(prev);
      if prev == 255 {
        assert (n - 1) % 256 == 255;
        assert n % 256 == 0;
      } else {
        assert n % 256 == (n - 1) % 256 + 1;
      }
    }
  }

  /** Adding 1 to a `u8` wraps from 255 to 0. */
  lemma WrappingIncrement(x: bv8)
    ensures (x + 1) as int == (x as int + 1) % 256
  {
  }

  /** The probe that makes the `n`-th increment (from 0) gets a name exactly
      when `n mod 256 < 10`: the first ten get led0..led9, the next 246
      panic, and after the counter wraps the names are handed out again. */
  lemma ProbeName(n: nat)
    ensures Name(NumAfter(n) as nat).Some? <==> n % 256 < 10
    ensures Name(NumAfter(n + 256) as nat) == Name(NumAfter(n) as nat)
  {
    NumAfterWraps(n);
    NumAfterWraps(n + 256);
  }

  /** The counter side of `n` successive probes, the first of which makes
      increment number `start`: each takes `names[NUM]` for the old `NUM`,
      which is `NumAfter` of its position, so `ProbeName` speaks of the
      names these probes get. */
  method ProbeNames(counter: Counter, ghost start: nat, n: nat) returns (names: seq<Option<string>>)
    requires counter.num == NumAfter(start)
    modifies counter
    ensures counter.num == NumAfter(start + n)
    ensures |names| == n
    ensures forall i | 0 <= i < n :: names[i] == Name(NumAfter(start + i) as nat)
  {
    names := [];
    var i := 0;
    while i < n
      invariant 0 <= i <= n
      invariant counter.num == NumAfter(start + i)
      invariant |names| == i
      invariant forall j | 0 <= j < i :: names[j] == Name(NumAfter(start + j) as nat)
    {
      var prev := counter.FetchAdd();
      WrappingIncrement(prev);
      names := names + [Name(prev as nat)];
      i := i + 1;
    }
  }

  /** Register views of the 4-byte mapping. */
  predicate Sized(v: View) {
    4 * |v.regs| == MAPPING_SIZE
  }

  /** The LED register. */
  function Led(v: View): Word
    requires Sized(v)
  {
    v.regs[LED_OFFSET / 4]
  }

  /** `open`: ENXIO (None) when revoked, the opened pattern otherwise. */
  function OpenView(v: View): (w: Option<View>)
    requires Sized(v)
    ensures w.None? <==> v.revoked
    ensures w.Some? ==> Sized(w.value) && !w.value.revoked && Led(w.value) == OPEN_VALUE
  {
    if v.revoked then None else Some(Write(v, LED_OFFSET, OPEN_VALUE))
  }

  /** `RustMiscDevice` drop: the closed pattern, when still accessible. */
  function CloseView(v: View): (w: View)
    requires Sized(v)
    ensures Sized(w) && w.revoked == v.revoked
    ensures Led(w) == if v.revoked then Led(v) else CLOSE_VALUE
  {
    if v.revoked then v else Write(v, LED_OFFSET, CLOSE_VALUE)
  }

  /** `LedPwmDriver` drop: all LEDs off, when still accessible. */
  function RemoveView(v: View): (w: View)
    requires Sized(v)
    ensures Sized(w) && w.revoked == v.revoked
    ensures Led(w) == if v.revoked then Led(v) else REMOVE_VALUE
  {
    if v.revoked then v else Write(v, LED_OFFSET, REMOVE_VALUE)
  }

  /** What can happen between probe and removal. */
  datatype Event = Open | Close | Revoke

  function Step(v: View, e: Event): (w: View)
    requires Sized(v)
    ensures Sized(w)
  {
    match e
    case Open => (var o := OpenView(v); if o.Some? then o.value else v)
    case Close => CloseView(v)
    case Revoke => v.(revoked := true)
  }

  function Run(v: View, events: seq<Event>): (w: View)
    requires Sized(v)
    ensures Sized(w)
    decreases |events|
  {
    if events == [] then v else Run(Step(v, events[0]), events[1..])
  }

  /** The values the driver itself writes. */
  predicate Lifecycle(w: Word) {
    w == PROBE_VALUE || w == OPEN_VALUE || w == CLOSE_VALUE || w == REMOVE_VALUE
  }

  /** From probe on, the LED register only ever holds one of the driver's
      own patterns, whatever opens, closes and revocation happen. */
  lemma {:induction false} LedKeepsLifecycleValue(v: View, events: seq<Event>)
    requires Sized(v) && Lifecycle(Led(v))
    ensures Lifecycle(Led(Run(v, events)))
    ensures Lifecycle(Led(RemoveView(Run(v, events))))
    decreases |events|
  {
    if events != [] {
      LedKeepsLifecycleValue(Step(v, events[0]), events[1..]);
    }
  }

  /** Once revoked, no open, close or removal changes the register. */
  lemma {:induction false} RevokedLedFrozen(v: View, events: seq<Event>)
    requires Sized(v) && v.revoked
    ensures Run(v, events) == v
    ensures RemoveView(Run(v, events)) == v
    decreases |events|
  {
    if events != [] {
      RevokedLedFrozen(Step(v, events[0]), events[1..]);
    }
  }

  /** Without revocation, removal always turns the LEDs off, and the last
      open or close decides the pattern before it. */
  lemma {:induction false} UnrevokedRemovalTurnsOff(v: View, events: seq<Event>)
    requires Sized(v) && !v.revoked && Revoke !in events
    ensures !Run(v, events).revoked
    ensures Led(RemoveView(Run(v, events))) == REMOVE_VALUE
    ensures events != [] && events[|events| - 1] == Open ==> Led(Run(v, events)) == OPEN_VALUE
    ensures events != [] && events[|events| - 1] == Close ==> Led(Run(v, events)) == CLOSE_VALUE
    decreases |events|
  {
    if events != [] {
      assert events == [events[0]] + events[1..];
      UnrevokedRemovalTurnsOff(Step(v, events[0]), events[1..]);
      if |events| > 1 {
        assert events[1..][|events[1..]| - 1] == events[|events| - 1];
      }
    }
  }

  /** The probed driver: its mapping and the misc-device name it got. */
  class LedPwmDriver {
    const mapping: Mapping
    const name: string

    ghost predicate Valid()
      reads this, mapping
    {
      mapping.Valid() && mapping.size == MAPPING_SIZE
    }

    constructor (mapping: Mapping, name: string)
      ensures this.mapping == mapping && this.name == name
    {
      this.mapping := mapping;
      this.name := name;
    }
  }

  /** An open misc-device file: it refers to the driver's mapping. */
  class RustMiscDevice {
    const mapping: Mapping

    ghost predicate Valid()
      reads this, mapping
    {
      mapping.Valid() && mapping.size == MAPPING_SIZE
    }

    constructor (mapping: Mapping)
      ensures this.mapping == mapping
    {
      this.mapping := mapping;
    }
  }

  datatype ProbeResult = Probed(driver: LedPwmDriver) | Failed(error: Error) | Panicked

  /** `LedPwmDriver::probe`.  `hasResource` is whether resource 0 exists,
      `mapped` whether `ioremap_resource_sized` succeeds, `init` the register
      value found, `revokedBeforeAccess` whether the mapping is revoked
      before `try_access`, and `initError` the error, if any, of the final
      `try_pin_init` (misc-device registration or allocation). */
  method Probe(counter: Counter, hasResource: bool, mapped: bool, init: Word,
               revokedBeforeAccess: bool, initError: Option<Error>)
    returns (r: ProbeResult)
    modifies counter
    // no resource, no mapping, or a revoked one: ENXIO, before any write or increment
    ensures (!hasResource || !mapped || revokedBeforeAccess) ==>
      r == Failed(ENXIO) && counter.num == old(counter.num)
    // otherwise NUM is incremented whatever happens next
    ensures (hasResource && mapped && !revokedBeforeAccess) ==>
      && counter.num as int == (old(counter.num) as int + 1) % 256
      && (old(counter.num) >= 10 <==> r.Panicked?)
      && (old(counter.num) < 10 && initError.Some? ==> r == Failed(initError.value))
      && (old(counter.num) < 10 && initError.None? ==> r.Probed?)
    ensures r.Probed? ==>
      && fresh(r.driver) && fresh(r.driver.mapping) && r.driver.Valid()
      && Name(old(counter.num) as nat) == Some(r.driver.name)
      && r.driver.mapping.Snapshot() == View(false, [PROBE_VALUE])
  {
    if !hasResource || !mapped {
      return Failed(ENXIO);
    }
    var mapping := new Mapping(MAPPING_SIZE, [init]);
    if revokedBeforeAccess {
      mapping.Revoke();
    }
    if !mapping.Accessible() {
      return Failed(ENXIO);
    }
    mapping.Writel(PROBE_VALUE, LED_OFFSET);
    var index := counter.FetchAdd();
    var name := Name(index as nat);
    if name.None? {
      return Panicked;
    }
    if initError.Some? {
      return Failed(initError.value);
    }
    var drv := new LedPwmDriver(mapping, name.value);
    r := Probed(drv);
  }

  /** `RustMiscDevice::open`: ENXIO when the mapping is revoked; otherwise
      the opened pattern is written, and then `KBox::try_pin_init` either
      fails to get its memory (`allocFails`: ENOMEM, the write stays) or
      yields a file that refers to the driver's mapping. */
  method OpenDevice(drv: LedPwmDriver, allocFails: bool) returns (r: Result<RustMiscDevice>)
    requires drv.Valid()
    modifies drv.mapping.regs
    ensures r.Ok? <==> !old(drv.mapping.revoked) && !allocFails
    ensures old(drv.mapping.revoked) ==> r == Err(ENXIO) && drv.mapping.Snapshot() == old(drv.mapping.Snapshot())
    ensures !old(drv.mapping.revoked) ==> Some(drv.mapping.Snapshot()) == OpenView(old(drv.mapping.Snapshot()))
    ensures !old(drv.mapping.revoked) && allocFails ==> r == Err(ENOMEM)
    ensures r.Ok? ==> fresh(r.value) && r.value.mapping == drv.mapping && r.value.Valid()
  {
    if !drv.mapping.Accessible() {
      return Err(ENXIO);
    }
    drv.mapping.Writel(OPEN_VALUE, LED_OFFSET);
    if allocFails {
      return Err(ENOMEM);
    }
    var dev := new RustMiscDevice(drv.mapping);
    r := Ok(dev);
  }

  /** `RustMiscDevice`'s drop. */
  method CloseDevice(dev: RustMiscDevice)
    requires dev.Valid()
    modifies dev.mapping.regs
    ensures dev.mapping.Snapshot() == CloseView(old(dev.mapping.Snapshot()))
  {
    if dev.mapping.Accessible() {
      dev.mapping.Writel(CLOSE_VALUE, LED_OFFSET);
    }
  }

  /** `LedPwmDriver`'s drop. */
  method Remove(drv: LedPwmDriver)
    requires drv.Valid()
    modifies drv.mapping.regs
    ensures drv.mapping.Snapshot() == RemoveView(old(drv.mapping.Snapshot()))
  {
    if drv.mapping.Accessible() {
      drv.mapping.Writel(REMOVE_VALUE, LED_OFFSET);
    }
  }
}
