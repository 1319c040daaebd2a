/** Devices of a control system: names are reserved, devices built and published by their creators,
    and destroyed by anybody, under two locks. */
module Devices {
  import opened States
  import opened Collections

  /** Addresses of device objects; 0 is none. */
  type Pointer = nat
  type Node = nat
  type Thread = nat

  class FactoryBase {
    /** The devices by name; 0 while a creation is in progress. */
    var devices: map<string, Pointer>
    /** The root nodes to be deinitialized with a device. */
    var held: map<Pointer, seq<Node>>

    constructor ()
      ensures devices == map[] && held == map[]
    {
      devices, held := map[], map[];
    }

    /** The first section of createDevice. */
    method Reserve(name: string) returns (reserved: bool)
      modifies this`devices
      ensures reserved <==> name !in old(devices)
      ensures devices == if reserved then old(devices)[name := 0] else old(devices)
    {
      if name in devices {
        return false;
      }
      devices := devices[name := 0];
      reserved := true;
    }

    /** The section that undoes the reservation when the driver throws. */
    method Release(name: string)
      modifies this`devices
      ensures devices == old(devices) - {name}
    {
      devices := devices - {name};
    }

    method Publish(name: string, p: Pointer)
      modifies this`devices
      ensures devices == old(devices)[name := p]
    {
      devices := devices[name := p];
    }

    method HoldNode(p: Pointer, node: Node)
      modifies this`held
      ensures held == Holding(old(held), p, node)
    {
      if p !in held {
        held := held[p := []];
      }
      held := held[p := held[p] + [node]];
      assert held == Holding(old(held), p, node);
    }

    /** Destroy a device: its nodes are deinitialized, then it is deallocated and forgotten. A name that
        is only reserved has no address and no deallocation function: address 0 makes the call of that
        function throw if some name is reserved. */
    method DestroyDevice(p: Pointer) returns (deinitialized: seq<Node>, deallocated: seq<Pointer>, thrown: bool)
      modifies this
      ensures deinitialized == HeldBy(old(held), p) && (thrown <==> p == 0 && p in old(devices).Values)
      ensures held == if thrown then old(held) else old(held) - {p}
      ensures if p in old(devices).Values && !thrown
              then deallocated == [p]
                   && exists name :: FirstAt(old(devices), p, name) && devices == old(devices) - {name}
              else deallocated == [] && devices == old(devices)
      ensures OnePerPointer(old(devices), p) && !thrown ==> devices == Without(old(devices), p)
    {
      deinitialized := DeinitializeNodes(p);
      deallocated, thrown := Deallocate(p);
      if !thrown {
        held := held - {p};
      }
    }

    /** The nodes held with the device, in the order in which they are deinitialized. */
    method DeinitializeNodes(p: Pointer) returns (deinitialized: seq<Node>)
      ensures deinitialized == HeldBy(held, p)
    {
      deinitialized := [];
      var scan := held.Keys;
      while scan != {}
        invariant scan <= held.Keys
        invariant deinitialized == if p in scan then [] else HeldBy(held, p)
        decreases |scan|
      {
        var device :| device in scan;
        if device == p {
          deinitialized := deinitialized + held[device];
        }
        scan := scan - {device};
      }
    }

    /** Deallocate the first device at this address. */
    method Deallocate(p: Pointer) returns (deallocated: seq<Pointer>, thrown: bool)
      modifies this`devices
      ensures thrown <==> p == 0 && p in old(devices).Values
      ensures if p in old(devices).Values && !thrown
              then deallocated == [p]
                   && exists name :: FirstAt(old(devices), p, name) && devices == old(devices) - {name}
              else deallocated == [] && devices == old(devices)
      ensures OnePerPointer(old(devices), p) && !thrown ==> devices == Without(old(devices), p)
    {
      deallocated, thrown := [], false;
      var names := devices.Keys;
      while names != {}
        invariant devices == old(devices) && names <= devices.Keys && deallocated == [] && !thrown
        invariant forall name :: name in devices && devices[name] == p ==> name in names
        decreases |names|
      {
        var name := Least(names);
        if devices[name] == p {
          assert FirstAt(devices, p, name);
          if p == 0 {
            return [], true;
          }
          assert OnePerPointer(devices, p) ==> devices - {name} == Without(devices, p);
          devices := devices - {name};
          return [p], false;
        }
        names := names - {name};
      }
    }

    method PointerOf(name: string) returns (p: Option<Pointer>)
      ensures p == if name == "" then Some(0) else if name in devices then Some(devices[name]) else None
    {
      if name == "" {
        return Some(0);
      }
      if name !in devices {
        return None;
      }
      p := Some(devices[name]);
    }
  }

  function HeldBy(held: map<Pointer, seq<Node>>, p: Pointer): seq<Node> {
    if p in held then held[p] else []
  }

  function Holding(held: map<Pointer, seq<Node>>, p: Pointer, node: Node): map<Pointer, seq<Node>> {
    held[p := HeldBy(held, p) + [node]]
  }

  /** The devices with other addresses. */
  function Without(devices: map<string, Pointer>, p: Pointer): map<string, Pointer> {
    map name | name in devices && devices[name] != p :: devices[name]
  }

  predicate OnePerPointer(devices: map<string, Pointer>, p: Pointer) {
    forall a, b :: a in devices && b in devices && devices[a] == devices[b] == p ==> a == b
  }

  /** The first of the names with an address. */
  ghost predicate FirstAt(devices: map<string, Pointer>, p: Pointer, name: string) {
    && name in devices && devices[name] == p
    && forall other :: other in devices && devices[other] == p && other != name ==> Precedes(name, other)
  }

  /** What a thread is doing. */
  datatype Activity =
    /** It has reserved the name and is in the driver's allocation function. */
    | Reserved(name: string)
    | Constructing(name: string, device: Pointer)
    /** It has the initialization lock, and initializes a root node. */
    | InitializingRoot(name: string, device: Pointer, node: Node)
    | Built(name: string, device: Pointer)
    /** It has the factory's lock, and deinitializes the held nodes one by one. */
    | Destroying(device: Pointer, rest: seq<Node>)

  datatype System = System(
    devices: map<string, Pointer>,
    held: map<Pointer, seq<Node>>,
    threads: map<Thread, Activity>,
    /** The threads that have the locks. */
    mutex: Option<Thread>,
    initialization: Option<Thread>,
    /** Every address ever used for a device, and those of complete devices. */
    used: set<Pointer>,
    completed: set<Pointer>,
    /** The addresses handed to deallocation functions, in order. */
    freed: seq<Pointer>,
    /** The nodes that are initialized. */
    live: set<Node>)

  datatype Event =
    | Reserve(name: string)
    | Construct(device: Pointer)
    | Initialize(node: Node)
    | Hold
    | Complete
    | Publish
    | Fail
    | Destroy(device: Pointer)
    | Deinitialize
    | Deallocate

  /** The thread creates a device with this name. */
  predicate CreatorOf(s: System, t: Thread, name: string) {
    t in s.threads && !s.threads[t].Destroying? && s.threads[t].name == name
  }

  /** The thread is building, or has built, a device at this address. */
  predicate BuildsAt(s: System, t: Thread, p: Pointer) {
    t in s.threads && !s.threads[t].Destroying? && !s.threads[t].Reserved? && s.threads[t].device == p
  }

  /** Whether a thread can take this step now: the caller's promises, and the locks. A device is not
      destroyed while it is being built. */
  ghost predicate Enabled(s: System, t: Thread, event: Event) {
    match event
    case Reserve(name) => t !in s.threads && s.mutex.None?
    case Construct(p) => t in s.threads && s.threads[t].Reserved? && p != 0 && p !in s.used
    case Initialize(node) =>
      t in s.threads && s.threads[t].Constructing? && s.initialization.None? && node !in s.live
    case Hold => t in s.threads && s.threads[t].InitializingRoot? && s.mutex.None?
    case Complete => t in s.threads && s.threads[t].Constructing?
    case Publish => t in s.threads && s.threads[t].Built? && s.mutex.None?
    case Fail => t in s.threads && (s.threads[t].Reserved? || s.threads[t].Constructing?) && s.mutex.None?
    case Destroy(p) =>
      t !in s.threads && p != 0 && s.mutex.None? && forall u :: !BuildsAt(s, u, p)
    case Deinitialize =>
      t in s.threads && s.threads[t].Destroying? && s.threads[t].rest != [] && s.initialization.None?
    case Deallocate => t in s.threads && s.threads[t].Destroying? && s.threads[t].rest == []
  }

  ghost function Apply(s: System, t: Thread, event: Event): System
    requires Enabled(s, t, event)
  {
    match event
    case Reserve(name) =>
      if name in s.devices then s
      else s.(devices := s.devices[name := 0], threads := s.threads[t := Reserved(name)])
    case Construct(p) => s.(threads := s.threads[t := Constructing(s.threads[t].name, p)], used := s.used + {p})
    case Initialize(node) =>
      s.(threads := s.threads[t := InitializingRoot(s.threads[t].name, s.threads[t].device, node)],
         initialization := Some(t), live := s.live + {node})
    case Hold =>
      var a := s.threads[t];
      s.(threads := s.threads[t := Constructing(a.name, a.device)], initialization := None,
         held := Holding(s.held, a.device, a.node))
    case Complete =>
      var a := s.threads[t];
      s.(threads := s.threads[t := Built(a.name, a.device)], completed := s.completed + {a.device})
    case Publish =>
      s.(devices := s.devices[s.threads[t].name := s.threads[t].device], threads := s.threads - {t})
    case Fail => s.(devices := s.devices - {s.threads[t].name}, threads := s.threads - {t})
    case Destroy(p) => s.(threads := s.threads[t := Destroying(p, HeldBy(s.held, p))], mutex := Some(t))
    case Deinitialize =>
      var a := s.threads[t];
      s.(threads := s.threads[t := Destroying(a.device, a.rest[1..])], live := s.live - {a.rest[0]})
    case Deallocate =>
      var p := s.threads[t].device;
      s.(devices := Without(s.devices, p), held := s.held - {p}, threads := s.threads - {t}, mutex := None,
         freed := s.freed + if p in s.devices.Values then [p] else [])
  }

  const EMPTY := System(map[], map[], map[], None, None, {}, {}, [], {})
}
