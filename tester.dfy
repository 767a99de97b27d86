/** The in-memory I2C mock used by the drivers' tests: devices whose
    registers live in memory, and a bus that routes register reads and
    writes to the device with the requested address.  A failed test
    assertion (Fatalf) or a panic is the status `Aborted`; it changes
    nothing. */
module Tester {
  import opened Optional

  /** A Go uint8. */
  type Uint8 = b: int | 0 <= b < 0x100

  /** How many registers a contiguous device has. */
  const MaxRegisters: nat := 200

  /** A Go error value. */
  datatype Error = Error(message: string)

  /** Why an operation aborted the test. */
  datatype Fault =
    | StartOutOfRange  // contiguous device: first register past the end
    | EndOutOfRange    // contiguous device: last register past the end
    | UnknownRegister  // classic device: no such register, or a nil one
    | BadLength        // classic device: buffer and register lengths differ
    | UnknownDevice    // bus: no device at the address
    | DuplicateDevice  // bus: a device at that address was already added

  datatype Status = Ok | Failed(err: Error) | Aborted(fault: Fault)

  // ---------------------------------------------------------------------
  // The contiguous-register device, as functions of its state

  /** assertRegisterRange of the contiguous device: registers r, ...,
      r + n - 1 must all exist. */
  function RangeCheck(r: Uint8, n: nat): (st: Status)
    ensures st == Ok <==> r < MaxRegisters && r + n <= MaxRegisters
    ensures st != Ok ==> st.Aborted?
  {
    if r >= MaxRegisters then Aborted(StartOutOfRange)
    else if r + n > MaxRegisters then Aborted(EndOutOfRange)
    else Ok
  }

  /** What a contiguous device's ReadRegister returns, and the caller's
      buffer after it. */
  function ContiguousRead(err: Option<Error>, regs: seq<Uint8>, r: Uint8, buf: seq<Uint8>): (Status, seq<Uint8>)
    requires |regs| == MaxRegisters
  {
    if err.Some? then (Failed(err.value), buf)
    else if RangeCheck(r, |buf|) != Ok then (RangeCheck(r, |buf|), buf)
    else (Ok, regs[r..r + |buf|])
  }

  /** The registers with `data` copied in from register `r` on. */
  function Overwrite(regs: seq<Uint8>, r: nat, data: seq<Uint8>): seq<Uint8>
    requires r + |data| <= |regs|
  {
    regs[..r] + data + regs[r + |data|..]
  }

  /** What a contiguous device's WriteRegister returns, and its registers
      after it. */
  function ContiguousWrite(err: Option<Error>, regs: seq<Uint8>, r: Uint8, data: seq<Uint8>): (Status, seq<Uint8>)
    requires |regs| == MaxRegisters
  {
    if err.Some? then (Failed(err.value), regs)
    else if RangeCheck(r, |data|) != Ok then (RangeCheck(r, |data|), regs)
    else (Ok, Overwrite(regs, r, data))
  }

  /** A device with an error set returns it and changes nothing. */
  lemma ContiguousErrorNoEffect(e: Error, regs: seq<Uint8>, r: Uint8, buf: seq<Uint8>)
    requires |regs| == MaxRegisters
    ensures ContiguousRead(Some(e), regs, r, buf) == (Failed(e), buf)
    ensures ContiguousWrite(Some(e), regs, r, buf) == (Failed(e), regs)
  {
  }

  /** A read succeeds exactly when there is no error and the range fits;
      it then fills the buffer with the registers from `r` on, and
      otherwise leaves the buffer alone. */
  lemma ContiguousReadResult(err: Option<Error>, regs: seq<Uint8>, r: Uint8, buf: seq<Uint8>)
    requires |regs| == MaxRegisters
    ensures var (st, out) := ContiguousRead(err, regs, r, buf);
      (st == Ok <==> err.None? && r + |buf| <= MaxRegisters && r < MaxRegisters)
      && |out| == |buf|
      && (st == Ok ==> forall k :: 0 <= k < |buf| ==> out[k] == regs[r + k])
      && (st != Ok ==> out == buf)
  {
  }

  /** A successful write sets registers r, ..., r + |data| - 1 to `data` and
      leaves every other register as it was. */
  lemma ContiguousWriteResult(err: Option<Error>, regs: seq<Uint8>, r: Uint8, data: seq<Uint8>)
    requires |regs| == MaxRegisters
    ensures var (st, after) := ContiguousWrite(err, regs, r, data);
      (st == Ok <==> err.None? && r + |data| <= MaxRegisters && r < MaxRegisters)
      && |after| == MaxRegisters
      && (st == Ok ==>
            after[r..r + |data|] == data
            && forall k :: 0 <= k < MaxRegisters && !(r <= k < r + |data|) ==> after[k] == regs[k])
      && (st != Ok ==> after == regs)
  {
    var (st, after) := ContiguousWrite(err, regs, r, data);
    if st == Ok {
      assert after == regs[..r] + data + regs[r + |data|..];
      assert after[r..r + |data|] == data;
    }
  }

  /** Reading back what was just written, at the same register and with
      the same length, returns the written bytes. */
  lemma ContiguousRoundTrip(regs: seq<Uint8>, r: Uint8, data: seq<Uint8>, buf: seq<Uint8>)
    requires |regs| == MaxRegisters && |buf| == |data|
    requires ContiguousWrite(None, regs, r, data).0 == Ok
    ensures ContiguousRead(None, ContiguousWrite(None, regs, r, data).1, r, buf) == (Ok, data)
  {
    ContiguousWriteResult(None, regs, r, data);
  }

  // ---------------------------------------------------------------------
  // The classic device, as functions of its state

  /** A Go []uint8 stored in the register map: nil, or a slice. */
  datatype Slice = Nil | Bytes(data: seq<Uint8>)

  /** assertRegisterRange of the classic device: the register must exist,
      be non-nil, and have exactly the buffer's length. */
  function ClassicCheck(regs: map<Uint8, Slice>, r: Uint8, n: nat): (st: Status)
    ensures st == Ok <==> r in regs && regs[r].Bytes? && |regs[r].data| == n
    ensures st != Ok ==> st.Aborted?
  {
    if r !in regs || regs[r].Nil? then Aborted(UnknownRegister)
    else if n != |regs[r].data| then Aborted(BadLength)
    else Ok
  }

  /** What a classic device's ReadRegister returns, and the caller's buffer
      after it. */
  function ClassicRead(err: Option<Error>, regs: map<Uint8, Slice>, r: Uint8, buf: seq<Uint8>): (Status, seq<Uint8>)
  {
    if err.Some? then (Failed(err.value), buf)
    else if ClassicCheck(regs, r, |buf|) != Ok then (ClassicCheck(regs, r, |buf|), buf)
    else (Ok, regs[r].data)
  }

  /** What a classic device's WriteRegister returns, and its registers
      after it. */
  function ClassicWrite(err: Option<Error>, regs: map<Uint8, Slice>, r: Uint8, data: seq<Uint8>): (Status, map<Uint8, Slice>)
  {
    if err.Some? then (Failed(err.value), regs)
    else if ClassicCheck(regs, r, |data|) != Ok then (ClassicCheck(regs, r, |data|), regs)
    else (Ok, regs[r := Bytes(data)])
  }

  /** A device with an error set returns it and changes nothing. */
  lemma ClassicErrorNoEffect(e: Error, regs: map<Uint8, Slice>, r: Uint8, buf: seq<Uint8>)
    ensures ClassicRead(Some(e), regs, r, buf) == (Failed(e), buf)
    ensures ClassicWrite(Some(e), regs, r, buf) == (Failed(e), regs)
  {
  }

  /** A read succeeds exactly when there is no error and the register
      exists with the buffer's length; it then copies the register into the
      buffer, and otherwise leaves the buffer alone. */
  lemma ClassicReadResult(err: Option<Error>, regs: map<Uint8, Slice>, r: Uint8, buf: seq<Uint8>)
    ensures var (st, out) := ClassicRead(err, regs, r, buf);
      (st == Ok <==> err.None? && r in regs && regs[r] == Bytes(out) && |out| == |buf|)
      && (st != Ok ==> out == buf)
  {
  }

  /** A successful write replaces the contents of register `r`, keeping its
      length, the set of registers, and every other register. */
  lemma ClassicWriteResult(err: Option<Error>, regs: map<Uint8, Slice>, r: Uint8, data: seq<Uint8>)
    ensures var (st, after) := ClassicWrite(err, regs, r, data);
      (st == Ok <==> err.None? && r in regs && regs[r].Bytes? && |regs[r].data| == |data|)
      && after.Keys == regs.Keys
      && (forall k :: k in regs && k != r ==> after[k] == regs[k])
      && (st == Ok ==> after[r] == Bytes(data) && |after[r].data| == |regs[r].data|)
      && (st != Ok ==> after == regs)
  {
  }

  /** Reading back what was just written returns the written bytes. */
  lemma ClassicRoundTrip(regs: map<Uint8, Slice>, r: Uint8, data: seq<Uint8>, buf: seq<Uint8>)
    requires |buf| == |data|
    requires ClassicWrite(None, regs, r, data).0 == Ok
    ensures ClassicRead(None, ClassicWrite(None, regs, r, data).1, r, buf) == (Ok, data)
  {
  }

  // ---------------------------------------------------------------------
  // The devices

  /** A device whose registers are one contiguous, auto-incrementing
      address space of MaxRegisters single-byte registers. */
  class ContiguousDevice {
    const addr: Uint8
    /** The registers; a test may inspect or change them freely. */
    const registers: array<Uint8>
    /** When set, every register access returns it. */
    var err: Option<Error>

    constructor (addr: Uint8)
      ensures this.addr == addr && err == None
      ensures fresh(registers) && registers.Length == MaxRegisters
      ensures forall k :: 0 <= k < MaxRegisters ==> registers[k] == 0
    {
      this.addr := addr;
      registers := new Uint8[MaxRegisters](_ => 0);
      err := None;
    }

    function Addr(): Uint8 {
      addr
    }

    method ReadRegister(r: Uint8, buf: array<Uint8>) returns (st: Status)
      requires registers.Length == MaxRegisters && buf != registers
      modifies buf
      ensures (st, buf[..]) == ContiguousRead(err, registers[..], r, old(buf[..]))
    {
      if err.Some? {
        return Failed(err.value);
      }
      st := RangeCheck(r, buf.Length);
      if st != Ok {
        return;
      }
      forall k | 0 <= k < buf.Length {
        buf[k] := registers[r + k];
      }
      assert buf[..] == registers[r..r + buf.Length];
    }

    method WriteRegister(r: Uint8, buf: array<Uint8>) returns (st: Status)
      requires registers.Length == MaxRegisters && buf != registers
      modifies registers
      ensures (st, registers[..]) == ContiguousWrite(err, old(registers[..]), r, buf[..])
    {
      if err.Some? {
        return Failed(err.value);
      }
      st := RangeCheck(r, buf.Length);
      if st != Ok {
        return;
      }
      forall k | r <= k < r + buf.Length {
        registers[k] := buf[k - r];
      }
      assert registers[..] == Overwrite(old(registers[..]), r, buf[..]);
    }
  }

  /** A device with a map from register address to that register's bytes;
      registers may have different lengths. */
  class ClassicDevice {
    const addr: Uint8
    /** The registers; a test may inspect or change them freely. */
    var registers: map<Uint8, Slice>
    /** When set, every register access returns it. */
    var err: Option<Error>

    constructor (addr: Uint8)
      ensures this.addr == addr && err == None && registers == map[]
    {
      this.addr := addr;
      registers := map[];
      err := None;
    }

    function Addr(): Uint8 {
      addr
    }

    method ReadRegister(r: Uint8, buf: array<Uint8>) returns (st: Status)
      modifies buf
      ensures (st, buf[..]) == ClassicRead(err, registers, r, old(buf[..]))
    {
      if err.Some? {
        return Failed(err.value);
      }
      st := ClassicCheck(registers, r, buf.Length);
      if st != Ok {
        return;
      }
      var reg := registers[r].data;
      forall k | 0 <= k < buf.Length {
        buf[k] := reg[k];
      }
      assert buf[..] == reg;
    }

    method WriteRegister(r: Uint8, buf: array<Uint8>) returns (st: Status)
      modifies this`registers
      ensures (st, registers) == ClassicWrite(err, old(registers), r, buf[..])
    {
      if err.Some? {
        return Failed(err.value);
      }
      st := ClassicCheck(registers, r, buf.Length);
      if st != Ok {
        return;
      }
      registers := registers[r := Bytes(buf[..])];
    }
  }

  // ---------------------------------------------------------------------
  // The bus

  /** A device on the bus, of either kind. */
  datatype AnyDevice = Contiguous(c: ContiguousDevice) | Classic(k: ClassicDevice)

  function Addr(d: AnyDevice): Uint8 {
    match d
    case Contiguous(c) => c.Addr()
    case Classic(k) => k.Addr()
  }

  /** What a register access to `d` may change: the register array of a
      contiguous device, the classic device itself. */
  function Objects(d: AnyDevice): set<object> {
    match d
    case Contiguous(c) => {c.registers}
    case Classic(k) => {k}
  }

  /** A contiguous device keeps MaxRegisters registers. */
  predicate WellFormed(d: AnyDevice) {
    d.Contiguous? ==> d.c.registers.Length == MaxRegisters
  }

  predicate HasAddr(ds: seq<AnyDevice>, a: Uint8) {
    exists k :: 0 <= k < |ds| && Addr(ds[k]) == a
  }

  predicate DistinctAddrs(ds: seq<AnyDevice>) {
    forall j, k :: 0 <= j < k < |ds| ==> Addr(ds[j]) != Addr(ds[k])
  }

  /** The first device with address `a`. */
  function Find(ds: seq<AnyDevice>, a: Uint8): (r: Option<AnyDevice>)
    ensures r.Some? ==> r.value in ds && Addr(r.value) == a
  {
    if ds == [] then None
    else if Addr(ds[0]) == a then Some(ds[0])
    else Find(ds[1..], a)
  }

  /** Find answers some device exactly when one has the address. */
  lemma {:induction false} FindFinds(ds: seq<AnyDevice>, a: Uint8)
    ensures Find(ds, a).Some? <==> HasAddr(ds, a)
  {
    if ds != [] && Addr(ds[0]) != a {
      FindFinds(ds[1..], a);
      if HasAddr(ds, a) {
        var k :| 0 <= k < |ds| && Addr(ds[k]) == a;
        assert Addr(ds[1..][k - 1]) == a;
      }
    }
  }

  /** With distinct addresses, the device found at a device's address is
      that device. */
  lemma {:induction false} FindUnique(ds: seq<AnyDevice>, k: nat)
    requires DistinctAddrs(ds) && k < |ds|
    ensures Find(ds, Addr(ds[k])) == Some(ds[k])
  {
    if k > 0 {
      assert Addr(ds[0]) != Addr(ds[k]);
      FindUnique(ds[1..], k - 1);
    }
  }

  /** Adding a device at a new address keeps the addresses distinct, and
      the new device is then found at its address. */
  lemma AddKeepsDistinct(ds: seq<AnyDevice>, d: AnyDevice)
    requires DistinctAddrs(ds) && !HasAddr(ds, Addr(d))
    ensures DistinctAddrs(ds + [d])
    ensures Find(ds + [d], Addr(d)) == Some(d)
  {
    var ds' := ds + [d];
    forall j, k | 0 <= j < k < |ds'|
      ensures Addr(ds'[j]) != Addr(ds'[k])
    {
      if k == |ds| {
        assert ds'[j] == ds[j];
      }
    }
    FindUnique(ds', |ds|);
  }

  /** The mock bus: the devices added to it, in order. */
  class Bus {
    var devices: seq<AnyDevice>

    ghost predicate Valid()
      reads this
    {
      DistinctAddrs(devices) && forall d :: d in devices ==> WellFormed(d)
    }

    constructor ()
      ensures devices == [] && Valid()
    {
      devices := [];
    }

    /** AddDevice: aborts when a device already has the address, and
        otherwise appends the device. */
    method AddDevice(d: AnyDevice) returns (st: Status)
      requires Valid() && WellFormed(d)
      modifies this
      ensures Valid()
      ensures st == (if HasAddr(old(devices), Addr(d)) then Aborted(DuplicateDevice) else Ok)
      ensures devices == (if st == Ok then old(devices) + [d] else old(devices))
    {
      for i := 0 to |devices|
        invariant forall k :: 0 <= k < i ==> Addr(devices[k]) != Addr(d)
      {
        if Addr(devices[i]) == Addr(d) {
          return Aborted(DuplicateDevice);
        }
      }
      AddKeepsDistinct(devices, d);
      devices := devices + [d];
      st := Ok;
    }

    /** NewContiguousRegisterDevice: a fresh contiguous device at `addr`,
        added to the bus, and found there afterwards. */
    method NewContiguousRegisterDevice(addr: Uint8) returns (dev: ContiguousDevice, st: Status)
      requires Valid()
      modifies this
      ensures Valid()
      ensures fresh(dev) && fresh(dev.registers) && dev.addr == addr && dev.err == None
      ensures st == (if HasAddr(old(devices), addr) then Aborted(DuplicateDevice) else Ok)
      ensures st == Ok ==> devices == old(devices) + [Contiguous(dev)] && Find(devices, addr) == Some(Contiguous(dev))
      ensures st != Ok ==> devices == old(devices)
    {
      dev := new ContiguousDevice(addr);
      st := AddDevice(Contiguous(dev));
      if st == Ok {
        AddKeepsDistinct(old(devices), Contiguous(dev));
      }
    }

    /** FindDevice: the first device with the address, by a linear scan;
        None where the source aborts the test. */
    method FindDevice(addr: Uint8) returns (found: Option<AnyDevice>)
      ensures found == Find(devices, addr)
    {
      for i := 0 to |devices|
        invariant Find(devices, addr) == Find(devices[i..], addr)
      {
        if Addr(devices[i]) == addr {
          return Some(devices[i]);
        }
        assert devices[i..][1..] == devices[i + 1..];
      }
      found := None;
    }

    /** ReadRegister: the read of the device found at `addr`. */
    method ReadRegister(addr: Uint8, r: Uint8, buf: array<Uint8>) returns (st: Status)
      requires Valid() && forall d :: d in devices ==> buf !in Objects(d)
      modifies buf
      ensures match Find(devices, addr)
        case None => st == Aborted(UnknownDevice) && buf[..] == old(buf[..])
        case Some(Contiguous(c)) => (st, buf[..]) == ContiguousRead(c.err, c.registers[..], r, old(buf[..]))
        case Some(Classic(k)) => (st, buf[..]) == ClassicRead(k.err, k.registers, r, old(buf[..]))
    {
      var found := FindDevice(addr);
      match found
      case None =>
        st := Aborted(UnknownDevice);
      case Some(d) =>
        match d
        case Contiguous(c) =>
          st := c.ReadRegister(r, buf);
        case Classic(k) =>
          st := k.ReadRegister(r, buf);
    }

    /** WriteRegister: the write of the device found at `addr`; nothing
        else changes. */
    method WriteRegister(addr: Uint8, r: Uint8, buf: array<Uint8>) returns (st: Status)
      requires Valid() && forall d :: d in devices ==> buf !in Objects(d)
      modifies if Find(devices, addr).Some? then Objects(Find(devices, addr).value) else {}
      ensures match Find(devices, addr)
        case None => st == Aborted(UnknownDevice)
        case Some(Contiguous(c)) => (st, c.registers[..]) == ContiguousWrite(c.err, old(c.registers[..]), r, buf[..])
        case Some(Classic(k)) =>
          k.err == old(k.err) && (st, k.registers) == ClassicWrite(k.err, old(k.registers), r, buf[..])
    {
      var found := FindDevice(addr);
      match found
      case None =>
        st := Aborted(UnknownDevice);
      case Some(d) =>
        match d
        case Contiguous(c) =>
          st := c.WriteRegister(r, buf);
        case Classic(k) =>
          st := k.WriteRegister(r, buf);
    }

    /** Tx: not implemented by the mock; it does nothing and succeeds. */
    method Tx(addr: int, w: seq<Uint8>, r: array<Uint8>) returns (err: Option<Error>)
      requires 0 <= addr < 0x1_0000
      ensures err == None
    {
      err := None;
    }
  }
}
