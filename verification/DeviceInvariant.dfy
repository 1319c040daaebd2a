/** What every step of the creation and destruction of devices keeps. */
module DeviceInvariant {
  import opened States
  import opened Collections
  import opened Devices

  /** A reserved name belongs to exactly one creator. */
  ghost predicate Reservations(s: System) {
    && (forall t, name :: CreatorOf(s, t, name) ==> name in s.devices && s.devices[name] == 0)
    && (forall t, u, name :: CreatorOf(s, t, name) && CreatorOf(s, u, name) ==> t == u)
    && (forall name :: name in s.devices && s.devices[name] == 0 ==> exists t :: CreatorOf(s, t, name))
  }

  /** The locks are where the activities say. */
  ghost predicate Locks(s: System) {
    && (forall t :: s.mutex == Some(t) <==> t in s.threads && s.threads[t].Destroying?)
    && (forall t :: t in s.threads && s.threads[t].Destroying? ==> s.threads[t].device != 0)
    && (forall t :: s.initialization == Some(t) <==> t in s.threads && s.threads[t].InitializingRoot?)
  }

  function Published(s: System): set<Pointer> {
    set name | name in s.devices && s.devices[name] != 0 :: s.devices[name]
  }

  function Waiting(s: System): set<Pointer> {
    set t | t in s.threads && s.threads[t].Built? :: s.threads[t].device
  }

  function Freed(s: System): set<Pointer> {
    set p | p in s.freed
  }

  /** Addresses are used once, by one creator, and then published or freed. */
  ghost predicate Addresses(s: System) {
    && (forall t, p :: BuildsAt(s, t, p) ==> p != 0 && p in s.used && p !in Published(s) && p !in s.freed)
    && (forall t, p :: BuildsAt(s, t, p) && !s.threads[t].Built? ==> p !in s.completed)
    && (forall t, u, p :: BuildsAt(s, t, p) && BuildsAt(s, u, p) ==> t == u)
    && s.completed <= s.used
  }

  /** Published devices have different addresses. */
  ghost predicate Separate(s: System) {
    forall a, b :: a in s.devices && b in s.devices && s.devices[a] == s.devices[b] != 0 ==> a == b
  }

  /** Every complete device is published, about to be, or freed, once. */
  ghost predicate Accounts(s: System) {
    && s.completed == Published(s) + Waiting(s) + Freed(s)
    && Freed(s) !! Published(s)
    && Different(s.freed)
  }

  lemma ReservationsKept(s: System, t: Thread, event: Event)
    requires Reservations(s) && Addresses(s) && Locks(s) && Enabled(s, t, event)
    ensures Reservations(Apply(s, t, event))
  {
    match event {
      case Reserve(name) => ReserveKeeps(s, t, name);
      case Publish => CreatorLeaves(s, t, event);
      case Fail => CreatorLeaves(s, t, event);
      case Deallocate => DeallocateKeeps(s, t);
      case _ =>
        assert forall u, name :: CreatorOf(Apply(s, t, event), u, name) <==> CreatorOf(s, u, name);
        hide CreatorOf;
    }
  }

  lemma ReserveKeeps(s: System, t: Thread, name: string)
    requires Reservations(s) && Enabled(s, t, Reserve(name))
    ensures Reservations(Apply(s, t, Reserve(name)))
  {
    var after := Apply(s, t, Reserve(name));
    if name !in s.devices {
      assert forall u, n :: CreatorOf(after, u, n) <==> CreatorOf(s, u, n) || (u == t && n == name);
      assert CreatorOf(after, t, name);
      hide CreatorOf;
    } else {
      assert after == s;
    }
  }

  lemma CreatorLeaves(s: System, t: Thread, event: Event)
    requires Reservations(s) && Addresses(s) && Enabled(s, t, event) && (event.Publish? || event.Fail?)
    ensures Reservations(Apply(s, t, event))
  {
    var after, name := Apply(s, t, event), s.threads[t].name;
    assert CreatorOf(s, t, name);
    if event.Publish? {
      assert BuildsAt(s, t, s.threads[t].device);
      assert after.devices[name] != 0;
    }
    assert forall u, n :: CreatorOf(after, u, n) <==> CreatorOf(s, u, n) && u != t;
    assert forall n :: n != name ==> (n in after.devices <==> n in s.devices);
    assert forall n :: CreatorOf(s, t, n) ==> n == name;
    hide CreatorOf;
  }

  lemma DeallocateKeeps(s: System, t: Thread)
    requires Reservations(s) && Locks(s) && Enabled(s, t, Deallocate)
    ensures Reservations(Apply(s, t, Deallocate))
  {
    var after := Apply(s, t, Deallocate);
    assert forall u, n :: CreatorOf(after, u, n) <==> CreatorOf(s, u, n);
    hide CreatorOf;
  }

  lemma LocksKept(s: System, t: Thread, event: Event)
    requires Locks(s) && Enabled(s, t, event)
    ensures Locks(Apply(s, t, event))
  {
  }

  /** What an event publishes. */
  lemma PublishedAfter(s: System, t: Thread, event: Event)
    requires Reservations(s) && Addresses(s) && Separate(s) && Enabled(s, t, event)
    ensures Published(Apply(s, t, event)) ==
        if event.Publish? then Published(s) + {s.threads[t].device}
        else if event.Deallocate? then Published(s) - {s.threads[t].device}
        else Published(s)
    ensures Separate(Apply(s, t, event))
  {
    match event {
      case Publish => PublishOne(s, t);
      case Reserve(name) => SamePublished(s, Apply(s, t, event));
      case Fail =>
        assert CreatorOf(s, t, s.threads[t].name);
        SamePublished(s, Apply(s, t, event));
      case Deallocate => DeallocateOne(s, t);
      case _ =>
    }
  }

  predicate PublishedAs(s: System, name: string, p: Pointer) {
    name in s.devices && s.devices[name] == p != 0
  }

  lemma SamePublished(s: System, after: System)
    requires forall name, p :: PublishedAs(s, name, p) <==> PublishedAs(after, name, p)
    ensures Published(after) == Published(s)
    ensures Separate(s) ==> Separate(after)
  {
    forall p
      ensures p in Published(s) <==> p in Published(after)
    {
      if p in Published(s) {
        var name :| name in s.devices && s.devices[name] != 0 && s.devices[name] == p;
        assert PublishedAs(after, name, p);
      }
      if p in Published(after) {
        var name :| name in after.devices && after.devices[name] != 0 && after.devices[name] == p;
        assert PublishedAs(s, name, p);
      }
    }
    if Separate(s) {
      forall a, b | a in after.devices && b in after.devices && after.devices[a] == after.devices[b] != 0
        ensures a == b
      {
        assert PublishedAs(s, a, after.devices[a]) && PublishedAs(s, b, after.devices[b]);
      }
    }
  }

  lemma DeallocateOne(s: System, t: Thread)
    requires Separate(s) && Enabled(s, t, Deallocate)
    ensures Published(Apply(s, t, Deallocate)) == Published(s) - {s.threads[t].device}
    ensures Separate(Apply(s, t, Deallocate))
  {
    var after, p := Apply(s, t, Deallocate), s.threads[t].device;
    forall q
      ensures q in Published(after) <==> q in Published(s) && q != p
    {
      if q in Published(s) && q != p {
        var n :| n in s.devices && s.devices[n] != 0 && s.devices[n] == q;
        assert after.devices[n] == q;
      }
    }
  }

  lemma PublishOne(s: System, t: Thread)
    requires Reservations(s) && Addresses(s) && Separate(s) && Enabled(s, t, Publish)
    ensures Published(Apply(s, t, Publish)) == Published(s) + {s.threads[t].device}
    ensures Separate(Apply(s, t, Publish))
  {
    var after, name, p := Apply(s, t, Publish), s.threads[t].name, s.threads[t].device;
    assert CreatorOf(s, t, name) && BuildsAt(s, t, p);
    assert after.devices[name] == p != 0;
    forall q
      ensures q in Published(after) <==> q in Published(s) || q == p
    {
      if q in Published(s) {
        var n :| n in s.devices && s.devices[n] != 0 && s.devices[n] == q;
        assert after.devices[n] == q;
      }
    }
    forall n | n in s.devices && s.devices[n] != 0
      ensures s.devices[n] != p
    {
      assert s.devices[n] in Published(s);
    }
  }

  lemma AddressesKept(s: System, t: Thread, event: Event)
    requires Reservations(s) && Locks(s) && Addresses(s) && Accounts(s) && Separate(s) && Enabled(s, t, event)
    ensures Addresses(Apply(s, t, event))
  {
    var after := Apply(s, t, event);
    PublishedAfter(s, t, event);
    match event {
      case Construct(q) => ConstructKeeps(s, t, q);
      case Publish => BuilderLeaves(s, t, event);
      case Fail => BuilderLeaves(s, t, event);
      case Deallocate => FreeingKeeps(s, t);
      case Complete => CompleteKeeps(s, t);
      case _ =>
        assert forall u, p :: BuildsAt(after, u, p) <==> BuildsAt(s, u, p);
        hide Published;
    }
  }

  lemma ConstructKeeps(s: System, t: Thread, q: Pointer)
    requires Reservations(s) && Addresses(s) && Accounts(s) && Separate(s) && Enabled(s, t, Construct(q))
    ensures Addresses(Apply(s, t, Construct(q)))
  {
    PublishedAfter(s, t, Construct(q));
    assert forall u, p :: BuildsAt(Apply(s, t, Construct(q)), u, p) <==> BuildsAt(s, u, p) || (u == t && p == q);
    hide Published, BuildsAt, Waiting, Freed;
    assert q !in Freed(s);
  }

  lemma CompleteKeeps(s: System, t: Thread)
    requires Reservations(s) && Addresses(s) && Separate(s) && Enabled(s, t, Complete)
    ensures Addresses(Apply(s, t, Complete))
  {
    PublishedAfter(s, t, Complete);
    assert forall u, p :: BuildsAt(Apply(s, t, Complete), u, p) <==> BuildsAt(s, u, p);
    assert BuildsAt(s, t, s.threads[t].device);
    hide Published;
  }

  lemma BuilderLeaves(s: System, t: Thread, event: Event)
    requires Reservations(s) && Addresses(s) && Separate(s) && Enabled(s, t, event) && (event.Publish? || event.Fail?)
    ensures Addresses(Apply(s, t, event))
  {
    var after := Apply(s, t, event);
    PublishedAfter(s, t, event);
    assert forall u, p :: BuildsAt(after, u, p) <==> BuildsAt(s, u, p) && u != t;
    assert event.Publish? ==> BuildsAt(s, t, s.threads[t].device);
    hide Published;
  }

  lemma FreeingKeeps(s: System, t: Thread)
    requires Reservations(s) && Locks(s) && Addresses(s) && Separate(s) && Enabled(s, t, Deallocate)
    ensures Addresses(Apply(s, t, Deallocate))
  {
    var after, p := Apply(s, t, Deallocate), s.threads[t].device;
    PublishedAfter(s, t, Deallocate);
    FreedIsPublished(s, p);
    assert forall u, q :: BuildsAt(after, u, q) <==> BuildsAt(s, u, q);
    hide Published, BuildsAt;
  }

  lemma FreedIsPublished(s: System, p: Pointer)
    requires p != 0
    ensures p in s.devices.Values <==> p in Published(s)
  {
  }

  predicate BuiltAt(s: System, t: Thread, p: Pointer) {
    t in s.threads && s.threads[t].Built? && s.threads[t].device == p
  }

  lemma WaitingIff(s: System)
    ensures forall p :: p in Waiting(s) <==> exists t :: BuiltAt(s, t, p)
  {
    forall p | exists t :: BuiltAt(s, t, p)
      ensures p in Waiting(s)
    {
      var t :| BuiltAt(s, t, p);
      assert s.threads[t].device == p;
    }
    forall p | p in Waiting(s)
      ensures exists t :: BuiltAt(s, t, p)
    {
      var t :| t in s.threads && s.threads[t].Built? && s.threads[t].device == p;
      assert BuiltAt(s, t, p);
    }
  }

  /** What an event leaves to be published. */
  lemma WaitingAfter(s: System, t: Thread, event: Event)
    requires Addresses(s) && Enabled(s, t, event)
    ensures Waiting(Apply(s, t, event)) ==
        if event.Publish? then Waiting(s) - {s.threads[t].device}
        else if event.Complete? then Waiting(s) + {s.threads[t].device}
        else Waiting(s)
  {
    var after := Apply(s, t, event);
    WaitingIff(s);
    WaitingIff(after);
    match event {
      case Publish =>
        assert forall u, p :: BuiltAt(after, u, p) <==> BuiltAt(s, u, p) && u != t;
        assert forall u, p :: BuiltAt(s, u, p) ==> BuildsAt(s, u, p);
        assert BuiltAt(s, t, s.threads[t].device);
      case Complete =>
        assert forall u, p :: BuiltAt(after, u, p) <==> BuiltAt(s, u, p) || (u == t && p == s.threads[t].device);
        assert BuiltAt(after, t, s.threads[t].device);
      case _ =>
        assert forall u, p :: BuiltAt(after, u, p) <==> BuiltAt(s, u, p);
    }
    hide Waiting, BuiltAt, BuildsAt;
  }

  lemma AccountsKept(s: System, t: Thread, event: Event)
    requires Reservations(s) && Locks(s) && Addresses(s) && Accounts(s) && Separate(s) && Enabled(s, t, event)
    ensures Accounts(Apply(s, t, event))
  {
    PublishedAfter(s, t, event);
    WaitingAfter(s, t, event);
    if event.Deallocate? {
      DeallocateBalances(s, t);
    } else if event.Publish? {
      assert BuildsAt(s, t, s.threads[t].device);
      hide Published, Waiting, BuildsAt;
    } else {
      hide Published, Waiting;
    }
  }

  lemma DeallocateBalances(s: System, t: Thread)
    requires Reservations(s) && Locks(s) && Addresses(s) && Accounts(s) && Separate(s) && Enabled(s, t, Deallocate)
    ensures Accounts(Apply(s, t, Deallocate))
  {
    var after, p := Apply(s, t, Deallocate), s.threads[t].device;
    PublishedAfter(s, t, Deallocate);
    WaitingAfter(s, t, Deallocate);
    FreedIsPublished(s, p);
    assert after.completed == s.completed && after.freed == s.freed + if p in Published(s) then [p] else [];
    OneMoreFreed(s.freed, p, Published(s));
  }

  lemma OneMoreFreed(freed: seq<Pointer>, p: Pointer, published: set<Pointer>)
    requires Different(freed) && (set q | q in freed) !! published
    ensures p in published ==> Different(freed + [p]) && (set q | q in freed + [p]) == (set q | q in freed) + {p}
    ensures freed + [] == freed
  {
  }

  /** The nodes of a device that are still to be deinitialized. */
  function Remaining(s: System, p: Pointer): seq<Node> {
    if s.mutex.Some? && s.mutex.value in s.threads && s.threads[s.mutex.value].Destroying?
       && s.threads[s.mutex.value].device == p
    then s.threads[s.mutex.value].rest
    else HeldBy(s.held, p)
  }

  predicate NodeAt(s: System, p: Pointer, i: nat, node: Node) {
    i < |Remaining(s, p)| && Remaining(s, p)[i] == node
  }

  predicate Initializes(s: System, t: Thread, node: Node) {
    t in s.threads && s.threads[t].InitializingRoot? && s.threads[t].node == node
  }

  /** A node is initialized if and only if it is held, in exactly one place, or about to be. */
  ghost predicate Nodes(s: System) {
    && (forall p, i, node :: NodeAt(s, p, i, node) ==> node in s.live)
    && (forall p, q, i, j, node :: NodeAt(s, p, i, node) && NodeAt(s, q, j, node) ==> p == q && i == j)
    && (forall t, node :: Initializes(s, t, node) ==> node in s.live && forall p, i :: !NodeAt(s, p, i, node))
    && (forall node :: node in s.live ==>
          (exists p, i :: NodeAt(s, p, i, node)) || exists t :: Initializes(s, t, node))
  }

  lemma NodesKept(s: System, t: Thread, event: Event)
    requires Locks(s) && Nodes(s) && Enabled(s, t, event)
    ensures Nodes(Apply(s, t, event))
  {
    var after := Apply(s, t, event);
    match event {
      case Initialize(n) => InitializeKeeps(s, t, n);
      case Hold => HoldKeeps(s, t);
      case Deinitialize => DeinitializeKeeps(s, t);
      case _ =>
        assert forall p, i, node :: NodeAt(after, p, i, node) <==> NodeAt(s, p, i, node);
        assert forall u, node :: Initializes(after, u, node) <==> Initializes(s, u, node);
    }
    hide NodeAt, Initializes;
  }

  lemma InitializeKeeps(s: System, t: Thread, n: Node)
    requires Locks(s) && Nodes(s) && Enabled(s, t, Initialize(n))
    ensures Nodes(Apply(s, t, Initialize(n)))
  {
    var after := Apply(s, t, Initialize(n));
    assert forall p, i, node :: NodeAt(after, p, i, node) <==> NodeAt(s, p, i, node);
    assert forall u, node :: Initializes(after, u, node) <==> Initializes(s, u, node) || (u == t && node == n);
    assert Initializes(after, t, n);
    hide NodeAt, Initializes;
  }

  lemma HoldKeeps(s: System, t: Thread)
    requires Locks(s) && Nodes(s) && Enabled(s, t, Hold)
    ensures Nodes(Apply(s, t, Hold))
  {
    var after, a := Apply(s, t, Hold), s.threads[t];
    var n := |Remaining(s, a.device)|;
    assert forall p, i, node ::
        NodeAt(after, p, i, node) <==> NodeAt(s, p, i, node) || (p == a.device && i == n && node == a.node);
    assert forall u, node :: Initializes(after, u, node) <==> Initializes(s, u, node) && u != t;
    assert Initializes(s, t, a.node) && NodeAt(after, a.device, n, a.node);
    assert forall u, node :: Initializes(s, u, node) ==> u == t && node == a.node;
    hide NodeAt, Initializes;
  }

  lemma DeinitializeKeeps(s: System, t: Thread)
    requires Locks(s) && Nodes(s) && Enabled(s, t, Deinitialize)
    ensures Nodes(Apply(s, t, Deinitialize))
  {
    var after, a := Apply(s, t, Deinitialize), s.threads[t];
    assert s.mutex == Some(t);
    assert forall p, i: nat, node ::
        NodeAt(after, p, i, node) ==> NodeAt(s, p, if p == a.device then i + 1 else i, node);
    assert forall u, node :: Initializes(after, u, node) <==> Initializes(s, u, node);
    assert NodeAt(s, a.device, 0, a.rest[0]);
    forall node | node in after.live
      ensures (exists p, i :: NodeAt(after, p, i, node)) || exists u :: Initializes(after, u, node)
    {
      var p, i: nat :| NodeAt(s, p, i, node);
      assert p == a.device ==> i > 0;
      assert NodeAt(after, p, if p == a.device then i - 1 else i, node);
    }
    forall p, q, i: nat, j: nat, node | NodeAt(after, p, i, node) && NodeAt(after, q, j, node)
      ensures p == q && i == j
    {
      assert NodeAt(s, p, if p == a.device then i + 1 else i, node);
      assert NodeAt(s, q, if q == a.device then j + 1 else j, node);
    }
    hide NodeAt, Initializes;
  }

  /** What the destroyer has left to do is the end of the list of held nodes. */
  ghost predicate Orderly(s: System) {
    s.mutex.Some? && s.mutex.value in s.threads && s.threads[s.mutex.value].Destroying? ==>
      EndOf(s.threads[s.mutex.value].rest, HeldBy(s.held, s.threads[s.mutex.value].device))
  }

  predicate EndOf(rest: seq<Node>, all: seq<Node>) {
    |rest| <= |all| && rest == all[|all| - |rest|..]
  }

  lemma OrderlyKept(s: System, t: Thread, event: Event)
    requires Locks(s) && Orderly(s) && Enabled(s, t, event)
    ensures Orderly(Apply(s, t, event))
  {
  }

  ghost predicate Invariant(s: System) {
    Reservations(s) && Locks(s) && Addresses(s) && Separate(s) && Accounts(s) && Nodes(s) && Orderly(s)
  }

  lemma Initially()
    ensures Invariant(EMPTY)
  {
  }

  lemma Keeps(s: System, t: Thread, event: Event)
    requires Invariant(s) && Enabled(s, t, event)
    ensures Invariant(Apply(s, t, event))
  {
    hide Reservations, Locks, Addresses, Separate, Accounts, Nodes, Orderly;
    ReservationsKept(s, t, event);
    LocksKept(s, t, event);
    AddressesKept(s, t, event);
    PublishedAfter(s, t, event);
    AccountsKept(s, t, event);
    NodesKept(s, t, event);
    OrderlyKept(s, t, event);
  }
}
