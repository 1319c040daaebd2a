/** How the creation and destruction of devices can go wrong, and exactly when it does. */
module DeviceFailures {
  import opened States
  import opened Devices
  import opened DeviceInvariant
  import opened DeviceTheorems

  /** Nodes are held only for devices that are published or being built. */
  ghost predicate NoOrphans(s: System) {
    forall p :: HeldBy(s.held, p) != [] ==> p in Published(s) || exists t :: BuildsAt(s, t, p)
  }

  /** The driver throws after it has initialized a root node. */
  predicate Strands(s: System, t: Thread, event: Event) {
    event.Fail? && t in s.threads && s.threads[t].Constructing? && HeldBy(s.held, s.threads[t].device) != []
  }

  /** Exactly this leaves a node without a device. */
  lemma StrandsIff(s: System, t: Thread, event: Event)
    requires Invariant(s) && Enabled(s, t, event) && NoOrphans(s)
    ensures NoOrphans(Apply(s, t, event)) <==> !Strands(s, t, event)
  {
    var after := Apply(s, t, event);
    PublishedAfter(s, t, event);
    if event.Fail? {
      FailureStrands(s, t);
    } else if event.Hold? {
      assert BuildsAt(after, t, s.threads[t].device);
      BuildersStay(s, t, event);
      hide BuildsAt, Published;
    } else {
      BuildersStay(s, t, event);
      hide BuildsAt, Published;
    }
  }

  lemma BuildersStay(s: System, t: Thread, event: Event)
    requires Enabled(s, t, event) && !event.Fail?
    ensures forall u, p :: BuildsAt(s, u, p) ==>
        BuildsAt(Apply(s, t, event), u, p) || (event.Publish? && p == s.threads[t].device)
  {
  }

  lemma FailureStrands(s: System, t: Thread)
    requires Invariant(s) && Enabled(s, t, Fail) && NoOrphans(s)
    ensures NoOrphans(Apply(s, t, Fail)) <==> !Strands(s, t, Fail)
  {
    var after := Apply(s, t, Fail);
    PublishedAfter(s, t, Fail);
    assert forall u, p :: BuildsAt(after, u, p) <==> BuildsAt(s, u, p) && u != t;
    if Strands(s, t, Fail) {
      assert BuildsAt(s, t, s.threads[t].device);
    } else if s.threads[t].Constructing? {
      assert forall p :: BuildsAt(s, t, p) ==> HeldBy(s.held, p) == [];
    } else {
      assert forall p :: !BuildsAt(s, t, p);
    }
    hide Published;
  }

  ghost predicate NoOrphansThroughout(s: System, run: seq<Move>)
    requires Legal(s, run)
    decreases |run|
  {
    NoOrphans(s)
    && (run == [] || NoOrphansThroughout(Apply(s, run[0].thread, run[0].event), run[1..]))
  }

  ghost predicate NeverStrands(s: System, run: seq<Move>)
    requires Legal(s, run)
    decreases |run|
  {
    run == [] || (!Strands(s, run[0].thread, run[0].event)
                  && NeverStrands(Apply(s, run[0].thread, run[0].event), run[1..]))
  }

  /** In a run, no node is ever without a device if and only if no driver throws after it has
      initialized a root node. */
  lemma {:induction false} NoOrphansIff(s: System, run: seq<Move>)
    requires Invariant(s) && NoOrphans(s) && Legal(s, run)
    ensures NoOrphansThroughout(s, run) <==> NeverStrands(s, run)
    ensures NeverStrands(s, run) ==> NoOrphans(After(s, run))
    decreases |run|
  {
    if run == [] {
    } else {
      var t, event := run[0].thread, run[0].event;
      Keeps(s, t, event);
      StrandsIff(s, t, event);
      if !Strands(s, t, event) {
        NoOrphansIff(Apply(s, t, event), run[1..]);
      }
    }
  }

  /** The same from the start, and what it means when all calls have returned: then every initialized
      node is held for a device that has a name. */
  lemma OwnedAtRest(run: seq<Move>)
    requires Legal(EMPTY, run)
    ensures NoOrphansThroughout(EMPTY, run) <==> NeverStrands(EMPTY, run)
    ensures var s := After(EMPTY, run);
        s.threads == map[] ==>
          (NoOrphans(s) <==> forall node :: node in s.live ==> exists name :: Owns(s, name, node))
    ensures NeverStrands(EMPTY, run) ==> NoOrphans(After(EMPTY, run))
  {
    Initially();
    NoOrphansIff(EMPTY, run);
    if After(EMPTY, run).threads == map[] {
      OwnedIff(run);
    }
  }

  predicate Owns(s: System, name: string, node: Node) {
    name in s.devices && s.devices[name] != 0 && node in HeldBy(s.held, s.devices[name])
  }

  lemma OwnedIff(run: seq<Move>)
    requires Legal(EMPTY, run) && After(EMPTY, run).threads == map[]
    ensures var s := After(EMPTY, run);
        NoOrphans(s) <==> forall node :: node in s.live ==> exists name :: Owns(s, name, node)
  {
    var s := After(EMPTY, run);
    Always(run);
    AtRest(run);
    hide Legal, After;
    if NoOrphans(s) {
      forall node | node in s.live
        ensures exists name :: Owns(s, name, node)
      {
        var p :| node in HeldBy(s.held, p);
        var name :| name in s.devices && s.devices[name] != 0 && s.devices[name] == p;
        assert Owns(s, name, node);
      }
    }
    if forall node :: node in s.live ==> exists name :: Owns(s, name, node) {
      forall p | HeldBy(s.held, p) != []
        ensures p in Published(s)
      {
        OwnerPublishes(s, p);
      }
    }
  }

  lemma OwnerPublishes(s: System, p: Pointer)
    requires Nodes(s) && s.mutex == None && HeldBy(s.held, p) != []
    requires forall node :: node in s.live ==> exists name :: Owns(s, name, node)
    ensures p in Published(s)
  {
    var node := HeldBy(s.held, p)[0];
    assert NodeAt(s, p, 0, node);
    var name :| Owns(s, name, node);
    var q := s.devices[name];
    var i: nat :| i < |HeldBy(s.held, q)| && HeldBy(s.held, q)[i] == node;
    assert NodeAt(s, q, i, node);
  }

  /** A creator that waits for the factory's lock with the initialization lock in its hands, and a
      destroyer that waits for the initialization lock with the factory's in its hands. */
  ghost predicate Embraced(s: System, creator: Thread, destroyer: Thread) {
    && creator in s.threads && s.threads[creator].InitializingRoot? && s.initialization == Some(creator)
    && destroyer in s.threads && s.threads[destroyer].Destroying? && s.threads[destroyer].rest != []
    && s.mutex == Some(destroyer)
  }

  ghost predicate Blocked(s: System) {
    exists c, d :: Embraced(s, c, d)
  }

  ghost predicate CanMove(s: System, t: Thread) {
    t in s.threads && exists event :: Enabled(s, t, event)
  }

  /** Two calls clash: a device with nodes is destroyed while some root node is being initialized, or a
      root node is initialized while a destruction has nodes left to deinitialize. */
  predicate Clashes(s: System, t: Thread, event: Event) {
    || (event.Destroy? && HeldBy(s.held, event.device) != [] && s.initialization.Some?)
    || (event.Initialize? && s.mutex.Some? && s.mutex.value in s.threads
        && s.threads[s.mutex.value].Destroying? && s.threads[s.mutex.value].rest != [])
  }

  /** A destroyer with nodes left, and a creator that initializes a root node. */
  predicate BothLocked(s: System) {
    s.mutex.Some? && s.initialization.Some?
    && s.mutex.value in s.threads && s.threads[s.mutex.value].Destroying? && s.threads[s.mutex.value].rest != []
  }

  lemma BlockedIff(s: System)
    requires Locks(s)
    ensures Blocked(s) <==> BothLocked(s)
  {
    if BothLocked(s) {
      assert Embraced(s, s.initialization.value, s.mutex.value);
    }
  }

  lemma BothLockedAfter(s: System, t: Thread, event: Event)
    requires Locks(s) && Enabled(s, t, event)
    ensures BothLocked(Apply(s, t, event)) <==> BothLocked(s) || Clashes(s, t, event)
  {
  }

  /** Exactly the clashes lead to the embrace. */
  lemma ClashesIff(s: System, t: Thread, event: Event)
    requires Invariant(s) && Enabled(s, t, event)
    ensures Blocked(Apply(s, t, event)) <==> Blocked(s) || Clashes(s, t, event)
  {
    Keeps(s, t, event);
    BlockedIff(s);
    BlockedIff(Apply(s, t, event));
    BothLockedAfter(s, t, event);
    hide Blocked, BothLocked, Clashes, Apply, Enabled;
  }

  ghost predicate EverClashes(s: System, run: seq<Move>)
    requires Legal(s, run)
    decreases |run|
  {
    run != [] && (Clashes(s, run[0].thread, run[0].event)
                  || EverClashes(Apply(s, run[0].thread, run[0].event), run[1..]))
  }

  /** A run ends in the embrace if and only if two of its calls have clashed. */
  lemma {:induction false} EmbracedIffClashed(s: System, run: seq<Move>)
    requires Invariant(s) && Legal(s, run)
    ensures Blocked(After(s, run)) <==> Blocked(s) || EverClashes(s, run)
    decreases |run|
  {
    hide Blocked, Clashes, Invariant;
    if run == [] {
    } else {
      var t, event := run[0].thread, run[0].event;
      Keeps(s, t, event);
      ClashesIff(s, t, event);
      EmbracedIffClashed(Apply(s, t, event), run[1..]);
    }
  }

  /** From the start: a run is safe if and only if no destruction of a device with nodes overlaps the
      initialization of a root node. */
  lemma SafeIffNoClash(run: seq<Move>)
    requires Legal(EMPTY, run)
    ensures Blocked(After(EMPTY, run)) <==> EverClashes(EMPTY, run)
  {
    Initially();
    EmbracedIffClashed(EMPTY, run);
  }

  /** While a lock is held, some holder can go on, except in this embrace. */
  lemma StuckIffEmbraced(run: seq<Move>)
    requires Legal(EMPTY, run)
    requires After(EMPTY, run).mutex.Some? || After(EMPTY, run).initialization.Some?
    ensures var s := After(EMPTY, run);
        (forall t :: s.mutex == Some(t) || s.initialization == Some(t) ==> !CanMove(s, t))
        <==> Blocked(s)
  {
    var s := After(EMPTY, run);
    Always(run);
    if s.mutex.Some? && s.initialization.Some? && s.threads[s.mutex.value].rest != [] {
      assert Embraced(s, s.initialization.value, s.mutex.value);
    } else if s.mutex.Some? {
      assert Enabled(s, s.mutex.value, if s.threads[s.mutex.value].rest == [] then Deallocate else Deinitialize);
    } else {
      assert Enabled(s, s.initialization.value, Hold);
    }
  }

  /** The embrace never ends. */
  lemma {:induction false} EmbraceIsForever(s: System, run: seq<Move>, c: Thread, d: Thread)
    requires Invariant(s) && Embraced(s, c, d) && Legal(s, run)
    ensures Embraced(After(s, run), c, d)
    decreases |run|
  {
    if run == [] {
    } else {
      Keeps(s, run[0].thread, run[0].event);
      EmbraceIsForever(Apply(s, run[0].thread, run[0].event), run[1..], c, d);
    }
  }

  lemma {:induction false} OneMore(s: System, run: seq<Move>, t: Thread, event: Event) returns (more: seq<Move>)
    requires Legal(s, run) && Enabled(After(s, run), t, event)
    ensures more == run + [Move(t, event)] && Legal(s, more) && After(s, more) == Apply(After(s, run), t, event)
    decreases |run|
  {
    more := run + [Move(t, event)];
    if run == [] {
      assert more == [Move(t, event)] && more[1..] == [];
    } else {
      var rest := OneMore(Apply(s, run[0].thread, run[0].event), run[1..], t, event);
      assert more[1..] == rest;
    }
  }

  /** A device with a held node, created without interruption. */
  lemma DeviceCreated() returns (run: seq<Move>)
    ensures Legal(EMPTY, run)
    ensures After(EMPTY, run) == System(map["a" := 1], map[1 := [10]], map[], None, None, {1}, {1}, [], {10})
  {
    hide After;
    assert After(EMPTY, []) == EMPTY by {
      AfterNothing();
    }
    run := OneMore(EMPTY, [], 1, Reserve("a"));
    run := OneMore(EMPTY, run, 1, Construct(1));
    run := OneMore(EMPTY, run, 1, Initialize(10));
    assert After(EMPTY, run).threads[1] == InitializingRoot("a", 1, 10);
    run := OneMore(EMPTY, run, 1, Hold);
    assert After(EMPTY, run).held == map[1 := [10]] by {
      assert [] + [10] == [10];
    }
    run := OneMore(EMPTY, run, 1, Complete);
    run := OneMore(EMPTY, run, 1, Publish);
    var s := After(EMPTY, run);
    assert s.devices == map["a" := 1] && s.held == map[1 := [10]] && s.threads == map[];
    assert s.used == {1} && s.completed == {1} && s.live == {10};
  }

  lemma AfterNothing()
    ensures Legal(EMPTY, []) && After(EMPTY, []) == EMPTY
  {
  }

  /** It can happen: one device is destroyed while another is being created. */
  lemma EmbraceHappens() returns (run: seq<Move>)
    ensures Legal(EMPTY, run) && Embraced(After(EMPTY, run), 2, 3)
  {
    hide After;
    run := DeviceCreated();
    run := OneMore(EMPTY, run, 2, Reserve("b"));
    run := OneMore(EMPTY, run, 2, Construct(2));
    run := OneMore(EMPTY, run, 2, Initialize(11));
    run := OneMore(EMPTY, run, 3, Destroy(1));
  }

  /** A creation that fails after it has initialized a root node leaves the node initialized and held,
      with no device. */
  lemma NodeStranded() returns (run: seq<Move>)
    ensures Legal(EMPTY, run)
    ensures var s := After(EMPTY, run);
        && s.threads == map[] && s.devices == map[] && s.held == map[1 := [10]] && s.live == {10}
        && !NoOrphans(s)
  {
    hide After;
    AfterNothing();
    run := OneMore(EMPTY, [], 1, Reserve("a"));
    run := OneMore(EMPTY, run, 1, Construct(1));
    run := OneMore(EMPTY, run, 1, Initialize(10));
    run := OneMore(EMPTY, run, 1, Hold);
    assert After(EMPTY, run).held == map[1 := [10]] by {
      assert [] + [10] == [10];
    }
    run := OneMore(EMPTY, run, 1, Fail);
    var s := After(EMPTY, run);
    assert s.devices == map[] && s.threads == map[] && s.live == {10};
    assert HeldBy(s.held, 1) == [10];
  }
}
