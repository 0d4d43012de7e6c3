/** Reference-counted per-device objects: the statistics registry keeps one connection
    handle per device, the limiter one pair of token buckets. Both use the same table. */
module Devices {
  import opened Frames

  datatype DeviceKey = DeviceKey(auth: string, ip: string)

  class Device<P> {
    const key: DeviceKey
    const payload: P
    var refs: int

    constructor (key: DeviceKey, payload: P)
      ensures this.key == key && this.payload == payload && refs == 0
    {
      this.key, this.payload, refs := key, payload, 0;
    }
  }

  /** The devices with live sessions, by key. `held` are the handles given out and not yet
      released, each as often as it is held. */
  class Table<P> {
    var devices: map<DeviceKey, Device<P>>
    ghost var held: multiset<Device<P>>

    ghost predicate Valid()
      reads this, devices.Values
    {
      && (forall k :: k in devices ==>
            devices[k].key == k && devices[k].refs == held[devices[k]] && held[devices[k]] > 0)
      && (forall d :: d in held ==> d.key in devices && devices[d.key] == d)
    }

    constructor ()
      ensures Valid() && devices == map[] && held == multiset{}
    {
      devices, held := map[], multiset{};
    }

    /** The device for `key`, made with `make` on first use. */
    method Acquire(key: DeviceKey, make: P) returns (d: Device<P>)
      requires Valid()
      modifies this, devices.Values
      ensures Valid()
      ensures d.key == key && held == old(held) + multiset{d}
      ensures key in old(devices) ==> d == old(devices)[key] && devices == old(devices)
      ensures key !in old(devices) ==> fresh(d) && d.payload == make && devices == old(devices)[key := d]
    {
      if key in devices {
        d := devices[key];
        Retain(d);
      } else {
        d := Create(key, make);
      }
    }

    method Retain(d: Device<P>)
      requires Valid() && d in held
      modifies this`held, d`refs
      ensures Valid() && held == old(held) + multiset{d}
    {
      d.refs := d.refs + 1;
      held := held + multiset{d};
    }

    method Create(key: DeviceKey, make: P) returns (d: Device<P>)
      requires Valid() && key !in devices
      modifies this
      ensures Valid() && fresh(d) && d.key == key && d.payload == make
      ensures held == old(held) + multiset{d} && devices == old(devices)[key := d]
    {
      d := new Device(key, make);
      d.refs := d.refs + 1;
      devices := devices[key := d];
      held := held + multiset{d};
    }

    /** Releasing nothing is allowed; otherwise the handle must be held. */
    method Release(d: Device?<P>)
      requires Valid() && (d != null ==> d in held)
      modifies this, devices.Values
      ensures Valid()
      ensures d == null ==> held == old(held) && devices == old(devices)
      ensures d != null ==> held == old(held) - multiset{d}
      ensures d != null ==> devices == if old(held)[d] == 1 then old(devices) - {d.key} else old(devices)
    {
      if d == null {
        return;
      }
      if d.refs - 1 <= 0 {
        DropLast(d);
      } else {
        Drop(d);
      }
    }

    method Drop(d: Device<P>)
      requires Valid() && d in held && d.refs > 1
      modifies this`held, d`refs
      ensures Valid() && held == old(held) - multiset{d} && d.refs == old(d.refs) - 1
    {
      d.refs := d.refs - 1;
      held := held - multiset{d};
    }

    method DropLast(d: Device<P>)
      requires Valid() && d in held && d.refs <= 1
      modifies this, d`refs
      ensures Valid() && held == old(held) - multiset{d} && d.refs == old(d.refs) - 1
      ensures devices == old(devices) - {d.key}
    {
      assert held[d] == 1;
      devices := devices - {d.key};
      held := held - multiset{d};
      d.refs := d.refs - 1;
      assert forall k :: k in devices ==> devices[k] != d;
    }

    /** A key is present exactly while its device is held, and all holders of one key share
        one object. */
    lemma Shared(key: DeviceKey)
      requires Valid()
      ensures key in devices <==> exists d :: d in held && d.key == key
      ensures forall d, d' :: d in held && d' in held && d.key == d'.key ==> d == d'
    {
      if key in devices {
        assert devices[key] in held && devices[key].key == key;
      }
    }
  }

  // ---------- connection ids ----------

  /** No two live devices have the same connection id. */
  ghost predicate DistinctIds(t: Table<uint32>)
    reads t
  {
    forall k, k' :: k in t.devices && k' in t.devices && k != k' ==> t.devices[k].payload != t.devices[k'].payload
  }

  predicate InUse(t: Table<uint32>, id: uint32)
    reads t
  {
    exists k :: k in t.devices && t.devices[k].payload == id
  }

  /** Draws until an unused id comes up. `random(n)` is the n-th draw; `n` says one comes. */
  method FreshConnID(t: Table<uint32>, random: nat -> uint32, ghost n: nat) returns (id: uint32)
    requires !InUse(t, random(n))
    ensures !InUse(t, id)
  {
    var i := 0;
    id := random(i);
    while InUse(t, id)
      invariant i <= n && id == random(i)
      decreases n - i
    {
      i := i + 1;
      id := random(i);
    }
  }

  method AcquireConn(t: Table<uint32>, key: DeviceKey, random: nat -> uint32, ghost n: nat) returns (c: Device<uint32>)
    requires t.Valid() && DistinctIds(t) && (key !in t.devices ==> !InUse(t, random(n)))
    modifies t, t.devices.Values
    ensures t.Valid() && DistinctIds(t)
    ensures c.key == key && t.held == old(t.held) + multiset{c}
    ensures key in old(t.devices) ==> c == old(t.devices)[key]
  {
    var id: uint32 := 0;
    if key !in t.devices {
      id := FreshConnID(t, random, n);
    }
    c := t.Acquire(key, id);
  }

  method ReleaseConn(t: Table<uint32>, c: Device?<uint32>)
    requires t.Valid() && DistinctIds(t) && (c != null ==> c in t.held)
    modifies t, t.devices.Values
    ensures t.Valid() && DistinctIds(t)
    ensures c != null ==> t.held == old(t.held) - multiset{c}
  {
    t.Release(c);
  }

  // ---------- stream numbers ----------

  class StreamNumbers {
    var streamSeq: uint32
    /** All numbers handed out, in order. */
    ghost var issued: seq<uint32>

    ghost predicate Valid()
      reads this
    {
      streamSeq == |issued| % 0x1_0000_0000 && Consecutive(issued)
    }

    constructor ()
      ensures Valid() && issued == []
    {
      streamSeq, issued := 0, [];
    }

    method NextStreamID() returns (n: uint32)
      requires Valid()
      modifies this
      ensures Valid() && issued == old(issued) + [n]
    {
      streamSeq := (streamSeq + 1) % 0x1_0000_0000;
      n := streamSeq;
      issued := issued + [n];
    }
  }

  ghost predicate Consecutive(issued: seq<uint32>) {
    forall i :: 0 <= i < |issued| ==> issued[i] == (i + 1) % 0x1_0000_0000
  }

  /** Within one connection a stream number repeats only after the counter wrapped. */
  lemma StreamNumbersRepeatOnlyAfterWrap(issued: seq<uint32>, i: nat, j: nat)
    requires Consecutive(issued) && i < j < |issued| && issued[i] == issued[j]
    ensures j - i >= 0x1_0000_0000
  {
    assert (i + 1) % 0x1_0000_0000 == (j + 1) % 0x1_0000_0000;
  }
}
