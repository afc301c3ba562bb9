/** The registration of a device in the device information base, driver/kilo/kilo_0.c. */
module Kilo {
  import opened Dib

  class KiloDriver {
    const chip: StorageChip
    const controller: ControllerChip
    const device: NandDevice

    /** The static nodes as the driver declares them, apart from the two fields that are set
        during registration. */
    ghost predicate Declared()
      reads this, chip, controller, device
    {
      && chip.refCount == 1 && chip.nextStorage == null
      && controller.nstorage == controller.refCount == 1
      && controller.firstStorage == controller.lastStorage == chip
      && device.refCount == 2 && device.controller == controller
    }

    constructor ()
      ensures Declared() && fresh(chip) && fresh(controller) && fresh(device)
      ensures chip.controller == null && device.nextDevice == null
    {
      var s := new StorageChip();
      var c := new ControllerChip(s);
      chip, controller := s, c;
      device := new NandDevice(c);
    }

    ghost predicate NotIn(g: Graph) {
      chip !in g.chips && controller !in g.controllers && device !in g.devices
    }

    ghost function Extended(g: Graph): Graph {
      Graph(g.devices + {device}, g.controllers + {controller}, g.chips + {chip})
    }

    /** The driver's device is already in the base. */
    ghost predicate OnList(g: Graph, dib: NandDevice?)
      requires g.Closed() && (dib == null || dib in g.devices)
      reads g.devices, g.controllers, g.chips
    {
      exists k: nat :: NthDevice(g, dib, k) == device
    }

    /** The controller of some device in the base is another one than the driver's, but its list
        of chips ends with the driver's chip. */
    ghost predicate ChipShared(g: Graph, dib: NandDevice?)
      requires g.Closed() && (dib == null || dib in g.devices)
      reads g.devices, g.controllers, g.chips
    {
      exists k: nat :: Shares(NthDevice(g, dib, k))
    }

    ghost predicate Shares(d: NandDevice?)
      reads d, if d == null then {} else {d.controller}
    {
      d != null && d.controller != null && d.controller != controller && d.controller.lastStorage == chip
    }

    /** There are at most 63 devices. */
    ghost predicate HasRoom(g: Graph, dib: NandDevice?)
      requires g.Closed() && (dib == null || dib in g.devices)
      reads g.devices, g.controllers, g.chips
    {
      exists n :: 0 <= n < MAX_NAND_DEVICES && HasDevices(g, dib, n)
    }

    ghost predicate MayBeExtended(g: Graph, dib: NandDevice?)
      requires g.Closed() && (dib == null || dib in g.devices)
      reads g.devices, g.controllers, g.chips
    {
      HasRoom(g, dib) && !OnList(g, dib) && !ChipShared(g, dib)
    }

    /** register_nand_device: refuses a malformed base and then changes nothing; else the new base
        is this driver's device in front of the old one.  It is well-formed if and only if the
        old one had room, did not contain this very device, and made no other controller the
        owner of this driver's chip. */
    method RegisterNandDevice(g: Graph, oldDib: NandDevice?) returns (dib: NandDevice?)
      requires Declared()
      requires g.Closed() && (oldDib == null || oldDib in g.devices)
      modifies chip, device
      ensures Declared() && g.Closed()
      ensures !old(WellFormed(g, oldDib)) ==> dib == null && unchanged(chip, device)
      ensures old(WellFormed(g, oldDib)) ==>
                && dib == device && device.nextDevice == oldDib
                && Extended(g).Closed() && OnList(Extended(g), dib)
                && (WellFormed(Extended(g), dib)
                    <==> old(MayBeExtended(g, oldDib)))
      ensures old(WellFormed(g, oldDib) && OnList(g, oldDib)) ==> !WellFormed(Extended(g), dib)
      ensures old(NotIn(g) && WellFormed(g, oldDib)) ==>
                && WellFormed(g, oldDib)
                && (WellFormed(Extended(g), dib) <==> HasRoom(g, oldDib))
    {
      var bad := VerifyDib(g, oldDib);
      if bad != 0 {
        return null;
      }
      if NotIn(g) {
        NewNodesAreNotUsed(g, oldDib);
      }
      dib := Link(g, oldDib);
    }

    /** The part of register_nand_device that links the device into the base. */
    method Link(g: Graph, oldDib: NandDevice?) returns (dib: NandDevice)
      requires Declared() && g.Closed() && (oldDib == null || oldDib in g.devices)
      requires WellFormed(g, oldDib)
      modifies chip, device
      ensures Declared() && g.Closed() && Extended(g).Closed()
      ensures dib == device && device.nextDevice == oldDib && OnList(Extended(g), dib)
      ensures WellFormed(Extended(g), dib)
         <==> old(MayBeExtended(g, oldDib))
    {
      SetLinks(g, oldDib);
      dib := device;
      Prepended(g, oldDib);
    }

    method SetLinks(g: Graph, oldDib: NandDevice?)
      requires Declared() && g.Closed() && (oldDib == null || oldDib in g.devices)
      modifies chip, device
      ensures Linked(g, oldDib)
    {
      chip.controller := controller;
      device.nextDevice := oldDib;
    }

    lemma NewNodesAreNotUsed(g: Graph, dib: NandDevice?)
      requires NotIn(g) && g.Closed() && (dib == null || dib in g.devices) && WellFormed(g, dib)
      ensures !OnList(g, dib) && !ChipShared(g, dib)
    {
      var n :| 0 <= n <= MAX_NAND_DEVICES && HasDevices(g, dib, n);
      forall k: nat ensures NthDevice(g, dib, k) != device && !Shares(NthDevice(g, dib, k)) {
        if NthDevice(g, dib, k) != null {
          DeviceCount(g, dib, n, k);
        }
      }
    }

    // What the registration does to the lists of chips.

    /** Two fields have changed, and nothing else. */
    twostate predicate Linked(g: Graph, new oldDib: NandDevice?)
      reads this, chip, controller, device, g.devices, g.controllers, g.chips
    {
      && old(Declared()) && Declared() && old(g.Closed()) && g.Closed() && Extended(g).Closed()
      && (oldDib == null || oldDib in g.devices)
      && chip.controller == controller && device.nextDevice == oldDib
      && (forall d :: d in g.devices ==>
            && d.controller == old(d.controller) && d.refCount == old(d.refCount)
            && (d != device ==> d.nextDevice == old(d.nextDevice)))
      && (forall c :: c in g.controllers ==> unchanged(c))
      && (forall s :: s in g.chips ==>
            && s.nextStorage == old(s.nextStorage) && s.refCount == old(s.refCount)
            && (s != chip ==> s.controller == old(s.controller)))
    }

    twostate lemma {:induction false} SameChips(g: Graph, new oldDib: NandDevice?, new p: StorageChip?, new n: nat)
      requires Linked(g, oldDib) && (p == null || p in g.chips)
      ensures NthChip(Extended(g), p, n) == old(NthChip(g, p, n))
      decreases n
    {
      if n > 0 && p != null {
        SameChips(g, oldDib, p.nextStorage, n - 1);
      }
    }

    /** No list goes on after the driver's chip. */
    twostate lemma ChipIsLast(g: Graph, new oldDib: NandDevice?, new c: ControllerChip, new n: nat, new i: nat)
      requires Linked(g, oldDib) && c in g.controllers && old(HasChips(g, c, n))
      requires i < n && NthChip(Extended(g), c.firstStorage, i) == chip
      ensures c.lastStorage == chip
    {
      SameChips(g, oldDib, c.firstStorage, i);
      SameChips(g, oldDib, c.firstStorage, i + 1);
      NthChipAdd(Extended(g), c.firstStorage, i, 1);
      assert NthChip(Extended(g), chip, 1) == null;
    }

    lemma OwnControllerIsWellFormed(h: Graph)
      requires Declared() && h.Closed() && chip.controller == controller
      requires controller in h.controllers && chip in h.chips
      ensures WellFormedController(h, controller)
    {
      assert NthChip(h, chip, 0) == chip && NthChip(h, chip, 1) == null;
      assert HasChips(h, controller, 1);
    }

    /** A controller stays well-formed exactly if the chip has not been taken away from it. */
    twostate lemma ControllerAfter(g: Graph, new oldDib: NandDevice?, new c: ControllerChip)
      requires Linked(g, oldDib) && c in g.controllers && old(WellFormedController(g, c))
      ensures WellFormedController(Extended(g), c) <==> c == controller || c.lastStorage != chip
    {
      var h := Extended(g);
      if WellFormedController(h, c) {
        LastPointsBack(h, c);
      }
      if c == controller {
        OwnControllerIsWellFormed(h);
      } else if c.lastStorage != chip {
        var n :| old(HasChips(g, c, n));
        UntouchedController(g, oldDib, c, n);
      }
    }

    lemma LastPointsBack(g: Graph, c: ControllerChip)
      requires g.Closed() && c in g.controllers && WellFormedController(g, c)
      ensures c.lastStorage != null && c.lastStorage.controller == c
    {
      var n: nat :| HasChips(g, c, n);
      assert NthChip(g, c.firstStorage, n - 1) != null;
    }

    twostate lemma UntouchedController(g: Graph, new oldDib: NandDevice?, new c: ControllerChip, new n: nat)
      requires Linked(g, oldDib) && c in g.controllers && old(HasChips(g, c, n)) && c.lastStorage != chip
      ensures HasChips(Extended(g), c, n)
    {
      var h, p := Extended(g), c.firstStorage;
      forall i: nat
        ensures NthChip(h, p, i) == old(NthChip(g, p, i))
        ensures i < n ==> NthChip(h, p, i) != chip
      {
        SameChips(g, oldDib, p, i);
        if i < n && NthChip(h, p, i) == chip {
          ChipIsLast(g, oldDib, c, n, i);
        }
      }
    }

    // What the registration does to the list of devices.

    ghost predicate Avoided(g: Graph, p: NandDevice?, n: nat)
      requires g.Closed() && (p == null || p in g.devices)
      reads g.devices, g.controllers, g.chips
    {
      forall i: nat :: i < n ==> NthDevice(g, p, i) != device
    }

    /** Up to the first occurrence of the driver's device the list is what it was. */
    twostate lemma {:induction false} SameDevices(g: Graph, new oldDib: NandDevice?, new p: NandDevice?, new n: nat)
      requires Linked(g, oldDib) && (p == null || p in g.devices)
      requires old(Avoided(g, p, n))
      ensures NthDevice(Extended(g), p, n) == old(NthDevice(g, p, n))
      decreases n
    {
      if n > 0 && p != null {
        var q := p.nextDevice;
        assert old(NthDevice(g, p, 0)) == p;
        assert q == old(p.nextDevice);
        forall i: nat | i < n - 1 ensures old(NthDevice(g, q, i)) != device {
          assert old(NthDevice(g, p, i + 1)) == old(NthDevice(g, q, i));
        }
        SameDevices(g, oldDib, q, n - 1);
      }
    }

    /** If the device was in the base already, it now leads back to itself. */
    twostate lemma {:induction false} RegisteredTwice(g: Graph, new oldDib: NandDevice?, new k: nat)
      requires Linked(g, oldDib) && old(NthDevice(g, oldDib, k)) == device
      ensures !WellFormed(Extended(g), device)
      decreases k
    {
      if i: nat :| i < k && old(NthDevice(g, oldDib, i)) == device {
        RegisteredTwice(g, oldDib, i);
      } else {
        SameDevices(g, oldDib, oldDib, k);
        assert NthDevice(Extended(g), device, k + 1) == device;
        CyclesAreMalformed(Extended(g), device, k);
      }
    }

    /** A device of the base stays well-formed exactly if its controller keeps its chips. */
    twostate lemma DeviceAfter(g: Graph, new oldDib: NandDevice?, new d: NandDevice)
      requires Linked(g, oldDib) && d in g.devices && old(WellFormedDevice(g, d))
      ensures WellFormedDevice(Extended(g), d) <==> !old(Shares(d))
    {
      ControllerAfter(g, oldDib, d.controller);
    }

    lemma OwnDeviceIsWellFormed(h: Graph)
      requires Declared() && h.Closed() && chip.controller == controller
      requires device in h.devices && controller in h.controllers && chip in h.chips
      ensures WellFormedDevice(h, device)
    {
      OwnControllerIsWellFormed(h);
    }

    /** The new list is the driver's device and then the old list. */
    twostate lemma Shifted(g: Graph, new oldDib: NandDevice?, new n: nat, new i: nat)
      requires Linked(g, oldDib) && !old(OnList(g, oldDib)) && old(HasDevices(g, oldDib, n))
      ensures NthDevice(Extended(g), device, i + 1) == old(NthDevice(g, oldDib, i))
      ensures i >= n ==> old(NthDevice(g, oldDib, i)) == null
    {
      SameDevices(g, oldDib, oldDib, i);
      if i >= n {
        SameDevices(g, oldDib, oldDib, n);
        NthDeviceAdd(Extended(g), oldDib, n, i - n);
      }
    }

    twostate lemma ListAfter(g: Graph, new oldDib: NandDevice?, new n: nat)
      requires Linked(g, oldDib) && !old(OnList(g, oldDib)) && old(HasDevices(g, oldDib, n))
      ensures HasDevices(Extended(g), device, n + 1) <==> !old(ChipShared(g, oldDib))
    {
      var h := Extended(g);
      assert NthDevice(h, device, 0) == device;
      OwnDeviceIsWellFormed(h);
      forall i: nat
        ensures NthDevice(h, device, i + 1) == old(NthDevice(g, oldDib, i))
        ensures i < n ==> old(NthDevice(g, oldDib, i)) != null
        ensures i < n ==> (WellFormedDevice(h, NthDevice(h, device, i + 1))
                           <==> !old(Shares(NthDevice(g, oldDib, i))))
        ensures i >= n ==> old(NthDevice(g, oldDib, i)) == null
      {
        Shifted(g, oldDib, n, i);
        if i < n {
          DeviceAfter(g, oldDib, old(NthDevice(g, oldDib, i)));
        }
      }
      if HasDevices(h, device, n + 1) {
        forall i: nat ensures !old(Shares(NthDevice(g, oldDib, i))) {
          assert i < n ==> NthDevice(h, device, i + 1) != null;
        }
      }
      if !old(ChipShared(g, oldDib)) {
        forall i: nat | i < n + 1
          ensures NthDevice(h, device, i) != null && WellFormedDevice(h, NthDevice(h, device, i))
        {
          if i > 0 {
            assert !old(Shares(NthDevice(g, oldDib, i - 1)));
          }
        }
      }
    }

    twostate lemma Prepended(g: Graph, new oldDib: NandDevice?)
      requires Linked(g, oldDib) && old(WellFormed(g, oldDib))
      ensures OnList(Extended(g), device)
      ensures WellFormed(Extended(g), device) <==> old(MayBeExtended(g, oldDib))
    {
      assert NthDevice(Extended(g), device, 0) == device;
      if k: nat :| old(NthDevice(g, oldDib, k)) == device {
        RegisteredTwice(g, oldDib, k);
      } else {
        var n :| 0 <= n <= MAX_NAND_DEVICES && old(HasDevices(g, oldDib, n));
        ListAfter(g, oldDib, n);
        OnlyThisLong(g, oldDib, n);
      }
    }

    twostate lemma OnlyThisLong(g: Graph, new oldDib: NandDevice?, new n: nat)
      requires Linked(g, oldDib) && !old(OnList(g, oldDib)) && old(HasDevices(g, oldDib, n))
      ensures old(HasRoom(g, oldDib)) <==> n < MAX_NAND_DEVICES
      ensures WellFormed(Extended(g), device) <==> n < MAX_NAND_DEVICES && HasDevices(Extended(g), device, n + 1)
    {
      forall m | 0 <= m && old(HasDevices(g, oldDib, m)) ensures m == n {
      }
      forall m | 0 <= m && HasDevices(Extended(g), device, m) ensures m == n + 1 {
        assert NthDevice(Extended(g), device, 0) == device;
        if m > 0 {
          Shifted(g, oldDib, n, m - 1);
        }
        Shifted(g, oldDib, n, n);
      }
    }
  }
}
