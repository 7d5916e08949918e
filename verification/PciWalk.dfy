/**
 The enumeration of PCI functions: a depth-first walk over buses, which form a graph that may be cyclic.  A
 configuration space is the function that `pciConfigRead` computes from bus, device, function and offset.
 */
module PciWalk {
  type Config = (nat, nat, nat, nat) -> nat

  datatype Key = Key(bus: nat, device: nat, fn: nat)

  datatype PciDevice = PciDevice(
    key: Key, class_: nat, subclass: nat, programmingInterface: nat,
    vendorId: nat, deviceId: nat, configuration: nat, bar: seq<nat>, id: nat)

  const BUS_COUNT := 256

  // ----- what the configuration space says ---------------------------------------------------

  function Read8(config: Config, k: Key, offset: nat): (value: nat)
    ensures value < 256
  {
    config(k.bus, k.device, k.fn, offset) % 256
  }

  function Read16(config: Config, k: Key, offset: nat): nat {
    config(k.bus, k.device, k.fn, offset) % 65536
  }

  /** The vendor id says that there is something. */
  predicate HasVendor(config: Config, k: Key) {
    Read16(config, k, 0) != 0xFFFF
  }

  /** `value & 0x80`. */
  predicate TopBit(value: nat) {
    value / 128 % 2 == 1
  }

  /** The function answers: function 0 of its device does, and it is function 0 or one of the eight of a
      multi-function device. */
  predicate Answers(config: Config, k: Key) {
    && k.bus < BUS_COUNT && k.device < 32 && k.fn < 8
    && config(k.bus, k.device, 0, 0) % 0x1_0000 != 0xFFFF
    && (k.fn == 0 || (config(k.bus, k.device, 0, 0x0E) % 0x100 >= 0x80
                      && config(k.bus, k.device, k.fn, 0) % 0x1_0000 != 0xFFFF))
  }

  /** The tests of `checkDevice` decide whether a function answers. */
  lemma AnswersIff(config: Config, k: Key)
    ensures Answers(config, k)
       <==> && k.bus < BUS_COUNT && k.device < 32 && k.fn < 8 && HasVendor(config, Key(k.bus, k.device, 0))
            && (k.fn == 0 || (TopBit(Read8(config, Key(k.bus, k.device, 0), 0x0E)) && HasVendor(config, k)))
  {
  }

  lemma TopBitOfLowByte(value: nat)
    ensures TopBit(value) <==> value % 0x100 >= 0x80
  {
  }

  lemma NoFunctionAnswers(config: Config, bus: nat, device: nat)
    requires !HasVendor(config, Key(bus, device, 0))
    ensures forall fn: nat :: !Answers(config, Key(bus, device, fn))
  {
  }

  lemma OneFunctionAnswers(config: Config, bus: nat, device: nat)
    requires !TopBit(Read8(config, Key(bus, device, 0), 0x0E))
    ensures forall fn: nat | fn != 0 :: !Answers(config, Key(bus, device, fn))
  {
  }

  /** The function answers and has a class. */
  predicate Present(config: Config, k: Key) {
    && Answers(config, k)
    && config(k.bus, k.device, k.fn, 0xB) % 0x100 != 0 && config(k.bus, k.device, k.fn, 0xB) % 0x100 != 0xFF
  }

  predicate IsBridge(config: Config, k: Key) {
    && Present(config, k)
    && config(k.bus, k.device, k.fn, 0xB) % 0x100 == 6 && config(k.bus, k.device, k.fn, 0x0A) % 0x100 == 4
  }

  /** The bus behind a bridge. */
  function Secondary(config: Config, k: Key): (bus: nat)
    ensures bus < 0x100
  {
    config(k.bus, k.device, k.fn, 0x19) % 0x100
  }

  function DeviceAt(config: Config, k: Key, id: nat): PciDevice {
    PciDevice(k, Read8(config, k, 0xB), Read8(config, k, 0x0A), Read8(config, k, 0x09),
              Read16(config, k, 0x00), Read16(config, k, 0x02), Read16(config, k, 0x04),
              seq(6, i requires 0 <= i < 6 => config(k.bus, k.device, k.fn, 0x10 + 4 * i)), id)
  }

  /** The fields of `d` are the words that the configuration space has at the function's own place: class, subclass and
      programming interface, vendor, device and configuration, and six base addresses. */
  predicate Describes(config: Config, d: PciDevice) {
    var b, v, f := d.key.bus, d.key.device, d.key.fn;
    && d.vendorId == config(b, v, f, 0x00) % 0x1_0000 && d.deviceId == config(b, v, f, 0x02) % 0x1_0000
    && d.configuration == config(b, v, f, 0x04) % 0x1_0000 && d.programmingInterface == config(b, v, f, 0x09) % 0x100
    && d.subclass == config(b, v, f, 0x0A) % 0x100 && d.class_ == config(b, v, f, 0x0B) % 0x100
    && |d.bar| == 6 && d.bar[0] == config(b, v, f, 0x10) && d.bar[1] == config(b, v, f, 0x14)
    && d.bar[2] == config(b, v, f, 0x18) && d.bar[3] == config(b, v, f, 0x1C) && d.bar[4] == config(b, v, f, 0x20)
    && d.bar[5] == config(b, v, f, 0x24)
  }

  lemma DeviceDescribes(config: Config, k: Key, id: nat)
    ensures DeviceAt(config, k, id).key == k && DeviceAt(config, k, id).id == id
    ensures Describes(config, DeviceAt(config, k, id))
  {
  }

  // ----- reachable buses ---------------------------------------------------------------------

  /** Some bridge on bus `a` leads to bus `b`. */
  ghost predicate Edge(config: Config, a: nat, b: nat) {
    exists k: Key :: IsBridge(config, k) && k.bus == a && Secondary(config, k) == b
  }

  ghost predicate IsPath(config: Config, path: seq<nat>, a: nat, b: nat) {
    && |path| > 0 && path[0] == a && path[|path| - 1] == b
    && forall i | 0 <= i < |path| - 1 :: Edge(config, path[i], path[i + 1])
  }

  ghost predicate Reaches(config: Config, a: nat, b: nat) {
    exists path: seq<nat> :: IsPath(config, path, a, b)
  }

  /** The buses the walk starts from. */
  predicate IsStart(config: Config, bus: nat) {
    if config(0, 0, 0, 0x0E) % 0x100 >= 0x80 then bus < 8 else bus == 0
  }

  ghost predicate Reachable(config: Config, bus: nat) {
    exists start: nat :: IsStart(config, start) && Reaches(config, start, bus)
  }

  lemma ReachesItself(config: Config, a: nat)
    ensures Reaches(config, a, a)
  {
    assert IsPath(config, [a], a, a);
  }

  lemma ReachesThrough(config: Config, a: nat, b: nat, c: nat)
    requires Edge(config, a, b) && Reaches(config, b, c)
    ensures Reaches(config, a, c)
  {
    var path :| IsPath(config, path, b, c);
    var longer := [a] + path;
    forall i | 0 <= i < |longer| - 1 ensures Edge(config, longer[i], longer[i + 1]) {
      if i > 0 {
        assert longer[i] == path[i - 1] && longer[i + 1] == path[i];
      }
    }
    assert IsPath(config, longer, a, c);
  }

  /** A set that is closed under bridges contains whatever its members reach. */
  lemma {:induction false} ClosedUnderReaching(config: Config, s: set<nat>, path: seq<nat>, a: nat, b: nat)
    requires IsPath(config, path, a, b) && a in s
    requires forall k: Key | IsBridge(config, k) && k.bus in s :: Secondary(config, k) in s
    ensures b in s
    decreases |path|
  {
    if |path| > 1 {
      assert Edge(config, path[0], path[1]);
      assert IsPath(config, path[1..], path[1], b) by {
        forall i | 0 <= i < |path[1..]| - 1 ensures Edge(config, path[1..][i], path[1..][i + 1]) {
          assert Edge(config, path[i + 1], path[i + 1 + 1]);
        }
      }
      ClosedUnderReaching(config, s, path[1..], path[1], b);
    }
  }

  // ----- the walk ----------------------------------------------------------------------------

  /** `k` is the place of a listed device. */
  predicate Listed(devices: seq<PciDevice>, k: Key) {
    exists i :: 0 <= i < |devices| && devices[i].key == k
  }

  /** Every listed device is as the configuration space says, is listed once, and has its index as its id. */
  ghost predicate Sound(config: Config, devices: seq<PciDevice>) {
    && (forall i | 0 <= i < |devices| ::
          Present(config, devices[i].key) && Describes(config, devices[i]) && devices[i].id == i)
    && (forall i, j | 0 <= i < j < |devices| :: devices[i].key != devices[j].key)
  }

  /** All functions on the buses that `now` has and `before` has not are listed, and so are those of `extra`. */
  ghost predicate Walked(config: Config, before: set<nat>, now: set<nat>, was: seq<PciDevice>, devices: seq<PciDevice>,
                         extra: set<Key>) {
    && before <= now
    && (forall k: Key :: Listed(devices, k)
          <==> Listed(was, k) || (Present(config, k) && (k in extra || (k.bus in now && k.bus !in before))))
    && (forall k: Key | IsBridge(config, k) && (k in extra || (k.bus in now && k.bus !in before)) ::
          Secondary(config, k) in now)
  }

  /** Every bus of `now` that is not in `before` is reached from `bus`. */
  ghost predicate NewOnesReached(config: Config, before: set<nat>, now: set<nat>, bus: nat) {
    forall b: nat | b in now && b !in before :: Reaches(config, bus, b)
  }

  class Enumerator {
    const config: Config
    const checkedBuses: array<bool>
    var pciDevices: seq<PciDevice>
    var deviceCount: nat
    var initialized: bool

    constructor (config: Config)
      ensures Valid() && Checked() == {} && pciDevices == [] && this.config == config && !initialized
      ensures fresh(checkedBuses)
    {
      this.config := config;
      checkedBuses := new bool[BUS_COUNT](_ => false);
      pciDevices, deviceCount, initialized := [], 0, false;
    }

    ghost function Checked(): (buses: set<nat>)
      requires checkedBuses.Length == BUS_COUNT
      reads checkedBuses
    {
      set b: nat | b < BUS_COUNT && checkedBuses[b]
    }

    ghost function Unchecked(): (buses: set<nat>)
      requires checkedBuses.Length == BUS_COUNT
      reads checkedBuses
    {
      set b: nat | b < BUS_COUNT && !checkedBuses[b]
    }

    /** Devices are listed only on checked buses. */
    ghost predicate Valid()
      reads this, checkedBuses
    {
      && checkedBuses.Length == BUS_COUNT
      && Sound(config, pciDevices)
      && forall k: Key | Listed(pciDevices, k) :: k.bus in Checked()
    }

    /** `checkFunction`. */
    method CheckFunction(k: Key)
      requires Valid() && Answers(config, k) && k.bus in Checked() && !Listed(pciDevices, k)
      modifies `pciDevices, checkedBuses
      ensures Valid() && Walked(config, old(Checked()), Checked(), old(pciDevices), pciDevices, {k})
      ensures NewOnesReached(config, old(Checked()), Checked(), k.bus)
      decreases Unchecked(), 1, 0
    {
      var class_ := Read8(config, k, 0xB);
      if class_ == 0 || class_ == 0xFF {
        return;
      }
      var pciDevice := DeviceAt(config, k, |pciDevices|);
      DeviceDescribes(config, k, |pciDevices|);
      AddDevice(pciDevice);
      if class_ == 6 && pciDevice.subclass == 4 {
        CheckBus(Read8(config, k, 0x19));
        ReachedThroughBridge(config, old(Checked()), Checked(), k);
      }
    }

    method AddDevice(device: PciDevice)
      requires Valid() && Describes(config, device) && device.id == |pciDevices| && Present(config, device.key)
      requires device.key.bus in Checked() && !Listed(pciDevices, device.key)
      modifies `pciDevices
      ensures Valid() && pciDevices == old(pciDevices) + [device]
      ensures forall k: Key :: Listed(pciDevices, k) <==> Listed(old(pciDevices), k) || k == device.key
    {
      ListedAfterAppend(pciDevices, device);
      pciDevices := pciDevices + [device];
    }

    /** `checkDevice`. */
    method CheckDevice(bus: nat, device: nat)
      requires Valid() && bus in Checked() && device < 32
      requires forall fn: nat :: !Listed(pciDevices, Key(bus, device, fn))
      modifies `pciDevices, checkedBuses
      ensures Valid()
      ensures Walked(config, old(Checked()), Checked(), old(pciDevices), pciDevices, Functions(bus, device, 8))
      ensures NewOnesReached(config, old(Checked()), Checked(), bus)
      decreases Unchecked(), 2, 0
    {
      var fn := 0;
      if !HasVendor(config, Key(bus, device, 0)) {
        NoFunctionAnswers(config, bus, device);
        WalkedMore(config, Checked(), Checked(), pciDevices, pciDevices, {}, Functions(bus, device, 8));
        return;
      }
      if TopBit(Read8(config, Key(bus, device, 0), 0x0E)) {
        while fn < 8
          invariant fn <= 8 && Valid()
          invariant Walked(config, old(Checked()), Checked(), old(pciDevices), pciDevices, Functions(bus, device, fn))
          invariant NewOnesReached(config, old(Checked()), Checked(), bus)
        {
          ghost var before, was := Checked(), pciDevices;
          AnswersIff(config, Key(bus, device, fn));
          if HasVendor(config, Key(bus, device, fn)) {
            UncheckedShrinks(old(Checked()), old(Unchecked()));
            CheckFunction(Key(bus, device, fn));
          }
          WalkedOn(config, old(Checked()), before, Checked(), old(pciDevices), was, pciDevices,
                   Functions(bus, device, fn), {Key(bus, device, fn)});
          fn := fn + 1;
        }
      } else {
        OneFunctionAnswers(config, bus, device);
        AnswersIff(config, Key(bus, device, 0));
        CheckFunction(Key(bus, device, 0));
        WalkedMore(config, old(Checked()), Checked(), old(pciDevices), pciDevices, {Key(bus, device, 0)},
                   Functions(bus, device, 8));
      }
    }

    /** `checkBus`: a bus that was already checked adds nothing. */
    method CheckBus(bus: nat)
      requires Valid() && bus < BUS_COUNT
      modifies `pciDevices, checkedBuses
      ensures Valid() && bus in Checked()
      ensures Walked(config, old(Checked()), Checked(), old(pciDevices), pciDevices, {})
      ensures NewOnesReached(config, old(Checked()), Checked(), bus)
      decreases Unchecked(), 0, 0
    {
      if checkedBuses[bus] {
        return;
      }
      checkedBuses[bus] := true;
      ghost var marked, left := Checked(), Unchecked();
      assert bus in old(Unchecked()) && left < old(Unchecked());
      var device := 0;
      while device < 32
        invariant device <= 32 && Valid()
        invariant Walked(config, marked, Checked(), old(pciDevices), pciDevices, Devices(bus, device))
        invariant NewOnesReached(config, marked, Checked(), bus)
      {
        ghost var before, was := Checked(), pciDevices;
        UncheckedShrinks(marked, left);
        CheckDevice(bus, device);
        WalkedOn(config, marked, before, Checked(), old(pciDevices), was, pciDevices,
                 Devices(bus, device), Functions(bus, device, 8));
        device := device + 1;
      }
      ReachesItself(config, bus);
    }

    /** `initializePci`, on a fresh enumerator: it ends for every configuration space, has then checked exactly the
        buses reachable from the start buses through bridges, and lists every function present on them exactly
        once, with its index as its id and with the words that its configuration space has. */
    method InitializePci()
      requires Valid() && Checked() == {} && pciDevices == []
      modifies this, checkedBuses
      ensures Valid() && initialized && deviceCount == |pciDevices|
      ensures forall b: nat :: b in Checked() <==> Reachable(config, b)
      ensures forall k: Key :: Listed(pciDevices, k) <==> Present(config, k) && Reachable(config, k.bus)
      ensures forall i | 0 <= i < |pciDevices| && pciDevices[i].class_ == 6 && pciDevices[i].subclass == 4 ::
                Secondary(config, pciDevices[i].key) in Checked()
      ensures Sound(config, pciDevices) && forall i | 0 <= i < |pciDevices| :: pciDevices[i].vendorId != 0xFFFF
    {
      var count := if TopBit(config(0, 0, 0, 0x0E)) then 8 else 1;
      TopBitOfLowByte(config(0, 0, 0, 0x0E));
      var bus := 0;
      while bus < count
        invariant bus <= count && Valid()
        invariant forall b: nat | b < bus :: b in Checked()
        invariant forall b: nat | b in Checked() :: Reachable(config, b)
        invariant Walked(config, {}, Checked(), [], pciDevices, {})
      {
        ghost var before, was := Checked(), pciDevices;
        CheckBus(bus);
        WalkedOn(config, {}, before, Checked(), [], was, pciDevices, {}, {});
        assert IsStart(config, bus);
        bus := bus + 1;
      }
      deviceCount, initialized := |pciDevices|, true;
      forall b: nat | Reachable(config, b) ensures b in Checked() {
        var start: nat :| IsStart(config, start) && Reaches(config, start, b);
        var path :| IsPath(config, path, start, b);
        ClosedUnderReaching(config, Checked(), path, start, b);
      }
    }

    lemma UncheckedShrinks(before: set<nat>, unchecked: set<nat>)
      requires checkedBuses.Length == BUS_COUNT && before <= Checked()
      requires forall b: nat | b < BUS_COUNT :: b in unchecked <==> b !in before
      ensures Unchecked() == unchecked || Unchecked() < unchecked
    {
      assert Unchecked() <= unchecked;
    }
  }

  /** Functions below `count` of a device. */
  function Functions(bus: nat, device: nat, count: nat): (keys: set<Key>)
    ensures forall k :: k in keys <==> k.bus == bus && k.device == device && k.fn < count
  {
    if count == 0 then {} else Functions(bus, device, count - 1) + {Key(bus, device, count - 1)}
  }

  /** All functions of the devices below `count` of a bus. */
  function Devices(bus: nat, count: nat): (keys: set<Key>)
    ensures forall k :: k in keys <==> k.bus == bus && k.device < count && k.fn < 8
  {
    if count == 0 then {} else Devices(bus, count - 1) + Functions(bus, count - 1, 8)
  }

  lemma ListedAfterAppend(devices: seq<PciDevice>, device: PciDevice)
    ensures forall k: Key :: Listed(devices + [device], k) <==> Listed(devices, k) || k == device.key
  {
    var longer := devices + [device];
    forall k: Key ensures Listed(longer, k) <==> Listed(devices, k) || k == device.key {
      if Listed(devices, k) {
        var i :| 0 <= i < |devices| && devices[i].key == k;
        assert longer[i].key == k;
      }
      if k == device.key {
        assert longer[|devices|].key == k;
      }
    }
  }

  /** Two stretches of the walk make one. */
  lemma WalkedOn(config: Config, a: set<nat>, b: set<nat>, c: set<nat>,
                 x: seq<PciDevice>, y: seq<PciDevice>, z: seq<PciDevice>, first: set<Key>, second: set<Key>)
    requires Walked(config, a, b, x, y, first) && Walked(config, b, c, y, z, second)
    ensures Walked(config, a, c, x, z, first + second)
  {
  }

  /** Places at which nothing is present add nothing. */
  lemma WalkedMore(config: Config, before: set<nat>, now: set<nat>, was: seq<PciDevice>, devices: seq<PciDevice>,
                   some: set<Key>, all: set<Key>)
    requires Walked(config, before, now, was, devices, some) && some <= all
    requires forall k | k in all && k !in some :: !Answers(config, k)
    ensures Walked(config, before, now, was, devices, all)
  {
  }

  lemma ReachedThroughBridge(config: Config, before: set<nat>, now: set<nat>, k: Key)
    requires IsBridge(config, k) && NewOnesReached(config, before, now, Secondary(config, k))
    ensures NewOnesReached(config, before, now, k.bus)
  {
    forall b: nat | b in now && b !in before ensures Reaches(config, k.bus, b) {
      ReachesThrough(config, k.bus, Secondary(config, k), b);
    }
  }
}
