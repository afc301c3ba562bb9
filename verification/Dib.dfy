/** The device information base and its validator, framework/fw_dib.c. */
module Dib {
  const MAX_NAND_DEVICES: nat := 64
  const MAX_STORAGE_CHIPS: nat := 8

  /** unsigned int */
  type Uint = x: nat | x < 0x1_0000_0000

  function Successor(x: Uint): Uint {
    (x + 1) % 0x1_0000_0000
  }

  class StorageChip {
    var nextStorage: StorageChip?
    var controller: ControllerChip?
    var refCount: Uint

    constructor ()
      ensures nextStorage == null && controller == null && refCount == 1
    {
      nextStorage, controller, refCount := null, null, 1;
    }
  }

  class ControllerChip {
    var nstorage: Uint
    var firstStorage: StorageChip?
    var lastStorage: StorageChip?
    var refCount: Uint

    constructor (chip: StorageChip)
      ensures firstStorage == lastStorage == chip && nstorage == refCount == 1
    {
      firstStorage, lastStorage, nstorage, refCount := chip, chip, 1, 1;
    }
  }

  class NandDevice {
    var controller: ControllerChip?
    var nextDevice: NandDevice?
    var refCount: Uint

    constructor (c: ControllerChip)
      ensures controller == c && nextDevice == null && refCount == 2
    {
      controller, nextDevice, refCount := c, null, 2;
    }
  }

  // Pointer graphs.

  /** Any finite set of nodes; Closed says that their pointers do not lead out of it.  The
      pointers may form cycles and nodes may be shared. */
  datatype Graph = Graph(devices: set<NandDevice>, controllers: set<ControllerChip>, chips: set<StorageChip>) {
    ghost predicate Closed()
      reads devices, controllers, chips
    {
      && (forall d :: d in devices ==> d.nextDevice == null || d.nextDevice in devices)
      && (forall d :: d in devices ==> d.controller == null || d.controller in controllers)
      && (forall c :: c in controllers ==> (c.firstStorage == null || c.firstStorage in chips))
      && (forall s :: s in chips ==> (s.nextStorage == null || s.nextStorage in chips))
    }
  }

  /** The chip reached from p by following n links, or null if the list ends before. */
  ghost function NthChip(g: Graph, p: StorageChip?, n: nat): (q: StorageChip?)
    requires g.Closed() && (p == null || p in g.chips)
    reads g.devices, g.controllers, g.chips
    ensures q == null || q in g.chips
  {
    if n == 0 || p == null then p else NthChip(g, p.nextStorage, n - 1)
  }

  ghost function NthDevice(g: Graph, p: NandDevice?, n: nat): (q: NandDevice?)
    requires g.Closed() && (p == null || p in g.devices)
    reads g.devices, g.controllers, g.chips
    ensures q == null || q in g.devices
  {
    if n == 0 || p == null then p else NthDevice(g, p.nextDevice, n - 1)
  }

  lemma {:induction false} NthChipAdd(g: Graph, p: StorageChip?, i: nat, j: nat)
    requires g.Closed() && (p == null || p in g.chips)
    ensures NthChip(g, NthChip(g, p, i), j) == NthChip(g, p, i + j)
    decreases i
  {
    if i > 0 && p != null {
      NthChipAdd(g, p.nextStorage, i - 1, j);
    }
  }

  /** A list that ends after n chips has no chip twice. */
  lemma ChipsAreDistinct(g: Graph, p: StorageChip?, n: nat, i: nat, j: nat)
    requires g.Closed() && (p == null || p in g.chips)
    requires NthChip(g, p, n) == null && i < j < n && NthChip(g, p, n - 1) != null
    ensures NthChip(g, p, i) != NthChip(g, p, j)
  {
    if NthChip(g, p, i) == NthChip(g, p, j) {
      NthChipAdd(g, p, i, n - j);
      NthChipAdd(g, p, j, n - j);
      NthChipAdd(g, p, i + (n - j), j - i - 1);
    }
  }

  // Well-formedness, declaratively.

  /** The controller's list has exactly n chips; its ends, and no other chips, point back to the
      controller; and all counts are right. */
  ghost predicate HasChips(g: Graph, c: ControllerChip, n: nat)
    requires g.Closed() && c in g.controllers
    reads g.devices, g.controllers, g.chips
  {
    && 1 <= n <= MAX_STORAGE_CHIPS
    && NthChip(g, c.firstStorage, n) == null
    && NthChip(g, c.firstStorage, n - 1) != null
    && c.lastStorage == NthChip(g, c.firstStorage, n - 1)
    && c.nstorage == c.refCount == n
    && forall i {:trigger NthChip(g, c.firstStorage, i)} :: 0 <= i < n ==>
         var s := NthChip(g, c.firstStorage, i);
         s != null && s.refCount == 1 && s.controller == if i == 0 || i == n - 1 then c else null
  }

  ghost predicate WellFormedController(g: Graph, c: ControllerChip)
    requires g.Closed() && c in g.controllers
    reads g.devices, g.controllers, g.chips
  {
    exists n :: HasChips(g, c, n)
  }

  ghost predicate WellFormedDevice(g: Graph, d: NandDevice)
    requires g.Closed() && d in g.devices
    reads g.devices, g.controllers, g.chips
  {
    d.controller != null && WellFormedController(g, d.controller) && d.refCount == d.controller.refCount + 1
  }

  /** The list of devices ends after exactly n well-formed devices. */
  ghost predicate HasDevices(g: Graph, dib: NandDevice?, n: nat)
    requires g.Closed() && (dib == null || dib in g.devices)
    reads g.devices, g.controllers, g.chips
  {
    && NthDevice(g, dib, n) == null
    && forall i {:trigger NthDevice(g, dib, i)} :: 0 <= i < n ==>
         var d := NthDevice(g, dib, i);
         d != null && WellFormedDevice(g, d)
  }

  ghost predicate WellFormed(g: Graph, dib: NandDevice?)
    requires g.Closed() && (dib == null || dib in g.devices)
    reads g.devices, g.controllers, g.chips
  {
    exists n :: 0 <= n <= MAX_NAND_DEVICES && HasDevices(g, dib, n)
  }

  // The validator.

  /** What verify_storage demands of one chip: the ends of the list are recognised by
      comparing pointers with the controller's. */
  ghost predicate ChipPasses(c: ControllerChip, s: StorageChip)
    reads c, s
  {
    s.refCount == 1 && s.controller == if c.firstStorage == s || c.lastStorage == s then c else null
  }

  /** verify_storage */
  method VerifyStorage(c: ControllerChip, s: StorageChip) returns (ret: int)
    ensures ret == 0 <==> ChipPasses(c, s)
  {
    if c.firstStorage == s || c.lastStorage == s {
      if s.controller != c {
        return -1;
      }
    } else {
      if s.controller != null {
        return -1;
      }
    }
    if s.refCount != 1 {
      return -1;
    }
    return 0;
  }

  lemma {:induction false} LongList(g: Graph, p: StorageChip?, i: nat, n: nat)
    requires g.Closed() && (p == null || p in g.chips)
    requires i <= n && NthChip(g, p, n) != null
    ensures NthChip(g, p, i) != null
  {
    NthChipAdd(g, p, i, n - i);
  }

  /** In a well-formed list every chip passes. */
  lemma WellFormedChipsPass(g: Graph, c: ControllerChip, n: nat, i: nat)
    requires g.Closed() && c in g.controllers && HasChips(g, c, n) && i < n
    ensures NthChip(g, c.firstStorage, i) != null && ChipPasses(c, NthChip(g, c.firstStorage, i))
  {
    var p := c.firstStorage;
    assert NthChip(g, p, i) != null;
    assert NthChip(g, p, 0) == p;
    if 0 < i {
      ChipsAreDistinct(g, p, n, 0, i);
    }
    if i < n - 1 {
      ChipsAreDistinct(g, p, n, i, n - 1);
    }
  }

  /** A list of n passing chips with the right ends and counts is well-formed. */
  lemma PassingChipsAreWellFormed(g: Graph, c: ControllerChip, n: nat)
    requires g.Closed() && c in g.controllers
    requires 1 <= n <= MAX_STORAGE_CHIPS && NthChip(g, c.firstStorage, n) == null
    requires c.lastStorage == NthChip(g, c.firstStorage, n - 1) && c.nstorage == c.refCount == n
    requires forall i {:trigger NthChip(g, c.firstStorage, i)} :: 0 <= i < n ==>
               NthChip(g, c.firstStorage, i) != null && ChipPasses(c, NthChip(g, c.firstStorage, i))
    ensures HasChips(g, c, n)
  {
    var p := c.firstStorage;
    assert NthChip(g, p, 0) == p;
    assert NthChip(g, p, n - 1) != null;
    forall i | 0 < i < n - 1
      ensures NthChip(g, p, i) != p && NthChip(g, p, i) != NthChip(g, p, n - 1)
    {
      ChipsAreDistinct(g, p, n, 0, i);
      ChipsAreDistinct(g, p, n, i, n - 1);
    }
  }

  /** The number of chips is unique. */
  lemma ChipCountIsUnique(g: Graph, c: ControllerChip, n: nat, k: nat)
    requires g.Closed() && c in g.controllers && HasChips(g, c, n)
    ensures NthChip(g, c.firstStorage, k) != null ==> k < n
    ensures k > 0 && NthChip(g, c.firstStorage, k - 1) != null && NthChip(g, c.firstStorage, k) == null ==> k == n
  {
    if n <= k && NthChip(g, c.firstStorage, k) != null {
      LongList(g, c.firstStorage, n, k);
    }
    if k > 0 && NthChip(g, c.firstStorage, k - 1) != null && n <= k - 1 {
      LongList(g, c.firstStorage, n, k - 1);
    }
  }

  /** verify_controller: 0 exactly for the well-formed controllers.  The loop ends on any
      pointer graph, because it counts chips. */
  method VerifyController(g: Graph, c: ControllerChip) returns (ret: int)
    requires g.Closed() && c in g.controllers
    ensures ret == 0 <==> WellFormedController(g, c)
  {
    if c.firstStorage == null {
      return -1;
    }
    var scCount: nat := 0;
    var p := c.firstStorage;
    var last: StorageChip? := null;
    while p != null
      invariant scCount <= MAX_STORAGE_CHIPS
      invariant p == NthChip(g, c.firstStorage, scCount) && (p == null || p in g.chips)
      invariant scCount == 0 ==> p != null
      invariant scCount > 0 ==> last == NthChip(g, c.firstStorage, scCount - 1)
      invariant forall i {:trigger NthChip(g, c.firstStorage, i)} :: 0 <= i < scCount ==>
                  NthChip(g, c.firstStorage, i) != null && ChipPasses(c, NthChip(g, c.firstStorage, i))
      decreases MAX_STORAGE_CHIPS - scCount
    {
      scCount := scCount + 1;
      if scCount > MAX_STORAGE_CHIPS {
        TooLong(g, c);
        return -1;
      }
      var bad := VerifyStorage(c, p);
      if bad != 0 {
        BadChip(g, c, scCount - 1);
        return -1;
      }
      last := p;
      NthChipAdd(g, c.firstStorage, scCount - 1, 1);
      p := p.nextStorage;
    }
    Counted(g, c, scCount);
    if c.lastStorage != last {
      return -1;
    }
    if c.refCount != c.nstorage || c.nstorage != scCount {
      return -1;
    }
    return 0;
  }

  lemma TooLong(g: Graph, c: ControllerChip)
    requires g.Closed() && c in g.controllers
    requires NthChip(g, c.firstStorage, MAX_STORAGE_CHIPS) != null
    ensures !WellFormedController(g, c)
  {
    if WellFormedController(g, c) {
      var n :| HasChips(g, c, n);
      ChipCountIsUnique(g, c, n, MAX_STORAGE_CHIPS);
    }
  }

  lemma BadChip(g: Graph, c: ControllerChip, k: nat)
    requires g.Closed() && c in g.controllers
    requires var s := NthChip(g, c.firstStorage, k); s != null && !ChipPasses(c, s)
    ensures !WellFormedController(g, c)
  {
    if WellFormedController(g, c) {
      var n :| HasChips(g, c, n);
      ChipCountIsUnique(g, c, n, k);
      WellFormedChipsPass(g, c, n, k);
    }
  }

  lemma Counted(g: Graph, c: ControllerChip, n: nat)
    requires g.Closed() && c in g.controllers
    requires 1 <= n <= MAX_STORAGE_CHIPS && NthChip(g, c.firstStorage, n) == null
    requires forall i {:trigger NthChip(g, c.firstStorage, i)} :: 0 <= i < n ==>
               NthChip(g, c.firstStorage, i) != null && ChipPasses(c, NthChip(g, c.firstStorage, i))
    ensures WellFormedController(g, c)
       <==> c.lastStorage == NthChip(g, c.firstStorage, n - 1) && c.nstorage == c.refCount == n
  {
    if c.lastStorage == NthChip(g, c.firstStorage, n - 1) && c.nstorage == c.refCount == n {
      PassingChipsAreWellFormed(g, c, n);
    }
    if WellFormedController(g, c) {
      var k :| HasChips(g, c, k);
      ChipCountIsUnique(g, c, k, n);
    }
  }

  /** verify_device */
  method VerifyDevice(g: Graph, d: NandDevice) returns (ret: int)
    requires g.Closed() && d in g.devices
    ensures ret == 0 <==> WellFormedDevice(g, d)
  {
    if d.controller == null {
      return -1;
    }
    var bad := VerifyController(g, d.controller);
    if bad != 0 {
      return -1;
    }
    if d.refCount != Successor(d.controller.refCount) {
      return -1;
    }
    return 0;
  }

  lemma {:induction false} NthDeviceAdd(g: Graph, p: NandDevice?, i: nat, j: nat)
    requires g.Closed() && (p == null || p in g.devices)
    ensures NthDevice(g, NthDevice(g, p, i), j) == NthDevice(g, p, i + j)
    decreases i
  {
    if i > 0 && p != null {
      NthDeviceAdd(g, p.nextDevice, i - 1, j);
    }
  }

  /** A list that has a k-th device has all the devices before it, and one that ends after n
      devices has no others. */
  lemma DeviceCount(g: Graph, dib: NandDevice?, n: nat, k: nat)
    requires g.Closed() && (dib == null || dib in g.devices) && HasDevices(g, dib, n)
    ensures NthDevice(g, dib, k) != null ==> k < n
  {
    if n <= k {
      NthDeviceAdd(g, dib, n, k - n);
    }
  }

  /** verify_dib: terminates on every pointer graph, cyclic or not, and returns 0 exactly for
      the well-formed ones. */
  method VerifyDib(g: Graph, dib: NandDevice?) returns (ret: int)
    requires g.Closed() && (dib == null || dib in g.devices)
    ensures ret == 0 <==> WellFormed(g, dib)
  {
    var deviceCount: nat := 0;
    var p := dib;
    while p != null
      invariant deviceCount <= MAX_NAND_DEVICES
      invariant p == NthDevice(g, dib, deviceCount) && (p == null || p in g.devices)
      invariant forall i {:trigger NthDevice(g, dib, i)} :: 0 <= i < deviceCount ==>
                  NthDevice(g, dib, i) != null && WellFormedDevice(g, NthDevice(g, dib, i))
      decreases MAX_NAND_DEVICES - deviceCount
    {
      deviceCount := deviceCount + 1;
      if deviceCount > MAX_NAND_DEVICES {
        NotWellFormed(g, dib, MAX_NAND_DEVICES);
        return -1;
      }
      var bad := VerifyDevice(g, p);
      if bad != 0 {
        NotWellFormed(g, dib, deviceCount - 1);
        return -1;
      }
      NthDeviceAdd(g, dib, deviceCount - 1, 1);
      p := p.nextDevice;
    }
    assert HasDevices(g, dib, deviceCount);
    return 0;
  }

  lemma NotWellFormed(g: Graph, dib: NandDevice?, k: nat)
    requires g.Closed() && (dib == null || dib in g.devices)
    requires NthDevice(g, dib, k) != null
    requires k >= MAX_NAND_DEVICES || !WellFormedDevice(g, NthDevice(g, dib, k))
    ensures !WellFormed(g, dib)
  {
    if WellFormed(g, dib) {
      var n :| 0 <= n <= MAX_NAND_DEVICES && HasDevices(g, dib, n);
      DeviceCount(g, dib, n, k);
    }
  }

  // The same notion from the other side: what can be wrong with a base.

  /** The list of the controller ends after exactly n > 0 chips. */
  ghost predicate ChipCount(g: Graph, c: ControllerChip, n: nat)
    requires g.Closed() && c in g.controllers
    reads g.devices, g.controllers, g.chips
  {
    n > 0 && NthChip(g, c.firstStorage, n) == null && NthChip(g, c.firstStorage, n - 1) != null
  }

  /** Chip number i is counted wrongly, is an end of the list that does not point back, or is
      another chip that points somewhere. */
  ghost predicate ChipDefect(g: Graph, c: ControllerChip, i: nat)
    requires g.Closed() && c in g.controllers
    reads g.devices, g.controllers, g.chips
  {
    var s := NthChip(g, c.firstStorage, i);
    s != null && (s.refCount != 1 || s.controller != if i == 0 || s.nextStorage == null then c else null)
  }

  /** The device has no controller, its controller has no chip or too many, or a chip, the last
      link, or one of the three counts is wrong. */
  ghost predicate DeviceDefect(g: Graph, d: NandDevice)
    requires g.Closed() && d in g.devices
    reads g.devices, g.controllers, g.chips
  {
    var c := d.controller;
    || c == null || c.firstStorage == null
    || NthChip(g, c.firstStorage, MAX_STORAGE_CHIPS) != null
    || (exists i: nat :: ChipDefect(g, c, i))
    || (exists n: nat :: ChipCount(g, c, n)
          && (c.lastStorage != NthChip(g, c.firstStorage, n - 1)
              || c.nstorage != n || c.refCount != n || d.refCount != n + 1))
  }

  lemma {:induction false} ListEnds(g: Graph, c: ControllerChip, m: nat) returns (n: nat)
    requires g.Closed() && c in g.controllers
    requires c.firstStorage != null && NthChip(g, c.firstStorage, m) == null
    ensures 1 <= n <= m && ChipCount(g, c, n)
    decreases m
  {
    assert NthChip(g, c.firstStorage, 0) == c.firstStorage;
    if NthChip(g, c.firstStorage, m - 1) == null {
      n := ListEnds(g, c, m - 1);
    } else {
      n := m;
    }
  }

  /** Only the last chip of a list has no successor. */
  lemma NoSuccessor(g: Graph, c: ControllerChip, n: nat, i: nat)
    requires g.Closed() && c in g.controllers && ChipCount(g, c, n) && i < n
    ensures var s := NthChip(g, c.firstStorage, i); s != null && (s.nextStorage == null <==> i == n - 1)
  {
    LongList(g, c.firstStorage, i, n - 1);
    NthChipAdd(g, c.firstStorage, i, 1);
    if i < n - 1 {
      LongList(g, c.firstStorage, i + 1, n - 1);
    }
    assert NthChip(g, NthChip(g, c.firstStorage, i), 1) == NthChip(g, c.firstStorage, i).nextStorage;
  }

  lemma WellFormedHasNoDefect(g: Graph, d: NandDevice)
    requires g.Closed() && d in g.devices && WellFormedDevice(g, d)
    ensures !DeviceDefect(g, d)
  {
    var c := d.controller;
    var n: nat :| HasChips(g, c, n);
    assert ChipCount(g, c, n);
    assert NthChip(g, c.firstStorage, 0) == c.firstStorage;
    ChipCountIsUnique(g, c, n, MAX_STORAGE_CHIPS);
    forall i: nat ensures !ChipDefect(g, c, i) {
      ChipCountIsUnique(g, c, n, i);
      if i < n {
        NoSuccessor(g, c, n, i);
      }
    }
    forall m: nat | ChipCount(g, c, m) ensures m == n {
      ChipCountIsUnique(g, c, n, m);
    }
  }

  lemma NoDefectIsWellFormed(g: Graph, d: NandDevice)
    requires g.Closed() && d in g.devices && !DeviceDefect(g, d)
    ensures WellFormedDevice(g, d)
  {
    var c := d.controller;
    var n := ListEnds(g, c, MAX_STORAGE_CHIPS);
    forall i | 0 <= i < n
      ensures var s := NthChip(g, c.firstStorage, i);
              s != null && s.refCount == 1 && s.controller == if i == 0 || i == n - 1 then c else null
    {
      NoSuccessor(g, c, n, i);
      assert !ChipDefect(g, c, i);
    }
    assert HasChips(g, c, n);
  }

  /** A base is malformed if and only if it has more than 64 devices or a defective one. */
  lemma MalformedExactly(g: Graph, dib: NandDevice?)
    requires g.Closed() && (dib == null || dib in g.devices)
    ensures !WellFormed(g, dib)
       <==> || NthDevice(g, dib, MAX_NAND_DEVICES) != null
            || exists k: nat :: NthDevice(g, dib, k) != null && DeviceDefect(g, NthDevice(g, dib, k))
  {
    if NthDevice(g, dib, MAX_NAND_DEVICES) != null {
      NotWellFormed(g, dib, MAX_NAND_DEVICES);
    } else if k: nat :| NthDevice(g, dib, k) != null && DeviceDefect(g, NthDevice(g, dib, k)) {
      if WellFormedDevice(g, NthDevice(g, dib, k)) {
        WellFormedHasNoDefect(g, NthDevice(g, dib, k));
      }
      NotWellFormed(g, dib, k);
    } else {
      var n := DevicesEnd(g, dib, MAX_NAND_DEVICES);
      forall k | 0 <= k < n ensures NthDevice(g, dib, k) != null && WellFormedDevice(g, NthDevice(g, dib, k)) {
        NthDeviceAdd(g, dib, k, n - 1 - k);
        NoDefectIsWellFormed(g, NthDevice(g, dib, k));
      }
      assert HasDevices(g, dib, n);
    }
  }

  lemma {:induction false} DevicesEnd(g: Graph, dib: NandDevice?, m: nat) returns (n: nat)
    requires g.Closed() && (dib == null || dib in g.devices) && NthDevice(g, dib, m) == null
    ensures n <= m && NthDevice(g, dib, n) == null && (n > 0 ==> NthDevice(g, dib, n - 1) != null)
    decreases m
  {
    if m > 0 && NthDevice(g, dib, m - 1) == null {
      n := DevicesEnd(g, dib, m - 1);
    } else {
      n := m;
    }
  }

  lemma {:induction false} CycleNeverEnds(g: Graph, d: NandDevice, k: nat, j: nat)
    requires g.Closed() && d in g.devices && NthDevice(g, d, k + 1) == d
    ensures NthDevice(g, d, j) != null
    decreases j
  {
    if j <= k {
      NthDeviceAdd(g, d, j, k + 1 - j);
    } else {
      NthDeviceAdd(g, d, k + 1, j - k - 1);
      CycleNeverEnds(g, d, k, j - k - 1);
    }
  }

  /** A list of devices that leads back to its beginning is malformed.  A driver whose device is
      in the base already makes such a list (Kilo.KiloDriver.RegisteredTwice). */
  lemma CyclesAreMalformed(g: Graph, d: NandDevice, k: nat)
    requires g.Closed() && d in g.devices && NthDevice(g, d, k + 1) == d
    ensures !WellFormed(g, d)
  {
    forall n: nat ensures NthDevice(g, d, n) != null {
      CycleNeverEnds(g, d, k, n);
    }
  }
}
