/** Creation and destruction of devices over whole runs. */
module DeviceTheorems {
  import opened States
  import opened Collections
  import opened Devices
  import opened DeviceInvariant

  datatype Move = Move(thread: Thread, event: Event)

  ghost predicate Legal(s: System, run: seq<Move>)
    decreases |run|
  {
    run == [] || (Enabled(s, run[0].thread, run[0].event) && Legal(Apply(s, run[0].thread, run[0].event), run[1..]))
  }

  ghost function After(s: System, run: seq<Move>): System
    requires Legal(s, run)
    decreases |run|
  {
    if run == [] then s else After(Apply(s, run[0].thread, run[0].event), run[1..])
  }

  lemma {:induction false} RunKeeps(s: System, run: seq<Move>)
    requires Invariant(s) && Legal(s, run)
    ensures Invariant(After(s, run))
    decreases |run|
  {
    if run == [] {
    } else {
      Keeps(s, run[0].thread, run[0].event);
      RunKeeps(Apply(s, run[0].thread, run[0].event), run[1..]);
    }
  }

  lemma Always(run: seq<Move>)
    requires Legal(EMPTY, run)
    ensures Invariant(After(EMPTY, run))
  {
    Initially();
    RunKeeps(EMPTY, run);
  }

  /** However creators interleave, a name has at most one, and its reservation stands. */
  lemma OneCreatorPerName(run: seq<Move>, t: Thread, u: Thread, name: string)
    requires Legal(EMPTY, run) && CreatorOf(After(EMPTY, run), t, name)
    ensures name in After(EMPTY, run).devices && After(EMPTY, run).devices[name] == 0
    ensures CreatorOf(After(EMPTY, run), u, name) ==> t == u
  {
    Always(run);
  }

  /** A name has no address yet if and only if somebody is creating the device. */
  lemma NamedDeviceIsThereIffFinished(run: seq<Move>, name: string)
    requires Legal(EMPTY, run) && name in After(EMPTY, run).devices
    ensures After(EMPTY, run).devices[name] != 0 <==> forall t :: !CreatorOf(After(EMPTY, run), t, name)
  {
    Always(run);
  }

  /** A failed creation takes back its own reservation and nothing else. */
  lemma FailureReleasesItsOwn(run: seq<Move>, t: Thread)
    requires Legal(EMPTY, run) && Enabled(After(EMPTY, run), t, Fail)
    ensures var s := After(EMPTY, run);
        var after := Apply(s, t, Fail);
        && s.threads[t].name in s.devices && s.devices[s.threads[t].name] == 0
        && after == s.(devices := s.devices - {s.threads[t].name}, threads := s.threads - {t})
        && Published(after) == Published(s)
  {
    var s := After(EMPTY, run);
    Always(run);
    assert CreatorOf(s, t, s.threads[t].name);
    PublishedAfter(s, t, Fail);
  }

  /** Every complete device is alive or has been deallocated, exactly once. */
  lemma DevicesBalance(run: seq<Move>)
    requires Legal(EMPTY, run)
    ensures var s := After(EMPTY, run);
        && Different(s.freed)
        && Freed(s) !! Published(s) + Waiting(s)
        && |s.completed| == |s.freed| + |Published(s) + Waiting(s)|
  {
    var s := After(EMPTY, run);
    Always(run);
    DifferentCount(s.freed);
    WaitingIff(s);
    assert forall t, p :: BuiltAt(s, t, p) ==> BuildsAt(s, t, p);
    hide Legal, After, Reservations, Locks, Separate, Nodes, Orderly, BuiltAt, BuildsAt, Published, Waiting;
    assert Freed(s) !! Published(s) + Waiting(s);
    assert s.completed == Freed(s) + (Published(s) + Waiting(s));
  }

  /** When all calls have returned, every name has its device, and exactly the held nodes are
      initialized. They need not belong to a device: see DeviceFailures. */
  lemma AtRest(run: seq<Move>)
    requires Legal(EMPTY, run) && After(EMPTY, run).threads == map[]
    ensures var s := After(EMPTY, run);
        && s.mutex == None && s.initialization == None
        && (forall name :: name in s.devices ==> s.devices[name] != 0)
        && |s.completed| == |s.freed| + |Published(s)|
        && forall node :: node in s.live <==> exists p :: node in HeldBy(s.held, p)
  {
    var s := After(EMPTY, run);
    Always(run);
    DevicesBalance(run);
    assert Published(s) + Waiting(s) == Published(s);
    forall node
      ensures node in s.live <==> exists p :: node in HeldBy(s.held, p)
    {
      if node in s.live {
        var p, i: nat :| NodeAt(s, p, i, node);
        assert node in HeldBy(s.held, p);
      }
      if p :| node in HeldBy(s.held, p) {
        var i: nat :| i < |HeldBy(s.held, p)| && HeldBy(s.held, p)[i] == node;
        assert NodeAt(s, p, i, node);
      }
    }
  }

  /** A creator files its device under the name it reserved, which had no address, and no other name. */
  lemma PublicationFiles(run: seq<Move>, t: Thread)
    requires Legal(EMPTY, run) && Enabled(After(EMPTY, run), t, Publish)
    ensures var s := After(EMPTY, run);
        var name, device := s.threads[t].name, s.threads[t].device;
        var after := Apply(s, t, Publish);
        && device != 0 && device !in s.devices.Values && name in s.devices && s.devices[name] == 0
        && name in after.devices && after.devices[name] == device && after.devices.Keys == s.devices.Keys
        && (forall other :: other in s.devices && other != name ==> after.devices[other] == s.devices[other])
        && t !in after.threads && after.held == s.held
  {
    var s := After(EMPTY, run);
    Always(run);
    assert CreatorOf(s, t, s.threads[t].name) && BuildsAt(s, t, s.threads[t].device);
    FreedIsPublished(s, s.threads[t].device);
  }

  /** Nodes are held in the order in which they are initialized, and a destruction takes the list as it is. */
  lemma HeldInOrder(s: System, t: Thread, event: Event, p: Pointer)
    requires Enabled(s, t, event)
    ensures HeldBy(Apply(s, t, event).held, p) ==
        if event.Hold? && s.threads[t].device == p then HeldBy(s.held, p) + [s.threads[t].node]
        else if event.Deallocate? && s.threads[t].device == p then []
        else HeldBy(s.held, p)
    ensures event.Destroy? && event.device == p ==> Apply(s, t, event).threads[t].rest == HeldBy(s.held, p)
    ensures event.Deinitialize? ==>
        s.threads[t].rest == [s.threads[t].rest[0]] + Apply(s, t, event).threads[t].rest
        && Apply(s, t, event).live == s.live - {s.threads[t].rest[0]}
  {
  }

  /** The two locks: while a device is destroyed nobody else changes what is filed or held, and while a root
      node is initialized no other node is initialized or deinitialized. */
  lemma LocksExclude(run: seq<Move>, t: Thread, event: Event)
    requires Legal(EMPTY, run) && Enabled(After(EMPTY, run), t, event)
    ensures var s := After(EMPTY, run);
        var after := Apply(s, t, event);
        && (forall d :: d != t && d in s.threads && s.threads[d].Destroying? ==>
              after.devices == s.devices && after.held == s.held && after.freed == s.freed)
        && (forall c :: c in s.threads && s.threads[c].InitializingRoot? ==> after.live == s.live)
  {
    Always(run);
  }
}
