/** What pushes do to a network of inputs and outputs. */
module PushTheorems {
  import opened Graphs
  import opened Decimation
  import opened PVs

  /** Whether an output subscribes to an input that a push into u comes to. */
  ghost predicate Hears(net: Net, u: InputPV, o: OutputPV)
    requires WellFormed(net.destinations) && u in net.destinations && o in net.subscriptions
  {
    exists v :: v in Reach<InputPV>(net.destinations, u) && v in net.subscriptions[o]
  }

  /** After a push, exactly the outputs subscribed to a reached input hold the pushed sample; every
      other output is unchanged. The outputs are those that InputPV.Push leaves. */
  lemma PushReachesSubscribers(net: Net, cells: map<OutputPV, Cell>, u: InputPV, sample: Sample, o: OutputPV)
    requires Dag(net.destinations) && u in net.destinations
    requires cells.Keys == net.subscriptions.Keys && o in cells
    ensures var after := WriteOut(cells, net.Writes(u), sample)[o];
            if Hears(net, u, o) then after.sample == sample && after.writes > cells[o].writes else after == cells[o]
  {
    var g: Graph<InputPV> := net.destinations;
    var weight := Mark<InputPV>(g.Keys, net.subscriptions[o]);
    FlowReaches<InputPV>(g, weight, u);
    if Hears(net, u, o) {
      var v :| v in Reach<InputPV>(g, u) && v in net.subscriptions[o];
      assert weight[v] > 0;
    }
  }

  /** An input counts a push exactly when it is reached. */
  lemma PushReachesInputs(net: Net, streams: map<InputPV, Stream>, u: InputPV, sample: Sample, v: InputPV)
    requires Dag(net.destinations) && u in net.destinations
    requires streams.Keys == net.destinations.Keys && v in streams
    ensures var after := Advance(streams, net.Receipts(u), sample)[v];
            && after.received == streams[v].received + Paths<InputPV>(net.destinations, u, v)
            && (after.received > streams[v].received <==> v in Reach<InputPV>(net.destinations, u))
  {
    TicksCount(streams[v], Paths<InputPV>(net.destinations, u, v), sample);
    PathsReach<InputPV>(net.destinations, u, v);
  }

  /** One call of push on an input by the device. */
  datatype Direct = Direct(origin: InputPV, sample: Sample)

  function Origins(pushes: seq<Direct>): seq<InputPV> {
    seq(|pushes|, i requires 0 <= i < |pushes| => pushes[i].origin)
  }

  ghost predicate Within(net: Net, pushes: seq<Direct>) {
    Dag(net.destinations) && forall i :: 0 <= i < |pushes| ==> pushes[i].origin in net.destinations
  }

  /** The inputs after a run of pushes. */
  ghost function RunStreams(net: Net, streams: map<InputPV, Stream>, pushes: seq<Direct>): (after: map<InputPV, Stream>)
    requires Within(net, pushes) && streams.Keys == net.destinations.Keys
    ensures after.Keys == streams.Keys
  {
    if pushes == [] then streams
    else
      var last := pushes[|pushes| - 1];
      Advance(RunStreams(net, streams, pushes[..|pushes| - 1]), net.Receipts(last.origin), last.sample)
  }

  ghost function RunCells(net: Net, cells: map<OutputPV, Cell>, pushes: seq<Direct>): (after: map<OutputPV, Cell>)
    requires Within(net, pushes) && cells.Keys == net.subscriptions.Keys
    ensures after.Keys == cells.Keys
  {
    if pushes == [] then cells
    else
      var last := pushes[|pushes| - 1];
      WriteOut(RunCells(net, cells, pushes[..|pushes| - 1]), net.Writes(last.origin), last.sample)
  }

  lemma OriginsWithin(net: Net, pushes: seq<Direct>)
    requires Within(net, pushes)
    ensures forall u :: u in Origins(pushes) ==> u in net.destinations
    ensures pushes != [] ==>
        Origins(pushes)[..|pushes| - 1] == Origins(pushes[..|pushes| - 1])
        && Origins(pushes)[|pushes| - 1] == pushes[|pushes| - 1].origin
  {
  }

  /** A stream n pushes after it was freshly set: the port has been handed the quotient of n and
      the period. */
  ghost predicate Accounts(start: Stream, after: Stream, n: nat) {
    && after.received == start.received + n
    && |after.delivered| == |start.delivered| + Share(start.factor, n)
    && after.factor == start.factor && Counting(after, n)
  }

  lemma AccountsInitially(start: Stream)
    requires start.Fresh()
    ensures Accounts(start, start, 0)
  {
  }

  lemma AccountsOnward(start: Stream, between: Stream, k: nat, n: nat, sample: Sample)
    requires Accounts(start, between, k)
    ensures Accounts(start, Ticks(between, n, sample), k + n)
  {
    TicksCount(between, n, sample);
    TicksDeliver(between, k, n, sample);
  }

  lemma {:induction false} StreamsOfRun(net: Net, streams: map<InputPV, Stream>, pushes: seq<Direct>, v: InputPV)
    requires Within(net, pushes) && streams.Keys == net.destinations.Keys && v in streams && streams[v].Fresh()
    ensures forall u :: u in Origins(pushes) ==> u in net.destinations
    ensures Accounts(streams[v], RunStreams(net, streams, pushes)[v],
                     Received<InputPV>(net.destinations, Origins(pushes), v))
  {
    hide Share, Left, Advance, Paths, Net.Receipts;
    OriginsWithin(net, pushes);
    if pushes == [] {
      AccountsInitially(streams[v]);
    } else {
      var before, last := pushes[..|pushes| - 1], pushes[|pushes| - 1];
      StreamsOfRun(net, streams, before, v);
      AdvanceAt(net, RunStreams(net, streams, before), last, v);
      AccountsOnward(streams[v], RunStreams(net, streams, before)[v],
                     Received<InputPV>(net.destinations, Origins(before), v),
                     Paths<InputPV>(net.destinations, last.origin, v), last.sample);
    }
  }

  lemma AdvanceAt(net: Net, streams: map<InputPV, Stream>, push: Direct, v: InputPV)
    requires Dag(net.destinations) && push.origin in net.destinations
    requires streams.Keys == net.destinations.Keys && v in streams
    ensures Advance(streams, net.Receipts(push.origin), push.sample)[v]
         == Ticks(streams[v], Paths<InputPV>(net.destinations, push.origin, v), push.sample)
  {
  }

  /** Streams that have not been pushed into. */
  ghost predicate Untouched(net: Net, streams: map<InputPV, Stream>) {
    streams.Keys == net.destinations.Keys
    && forall u :: u in streams ==> streams[u] == Stream(streams[u].factor, streams[u].factor, [], 0)
  }

  function ReceivedIn(streams: map<InputPV, Stream>): map<InputPV, nat> {
    map v | v in streams :: streams[v].received
  }

  lemma ReceivedInRun(net: Net, streams: map<InputPV, Stream>, pushes: seq<Direct>, nodes: set<InputPV>)
    requires Within(net, pushes) && Untouched(net, streams) && nodes <= net.destinations.Keys
    ensures forall u :: u in Origins(pushes) ==> u in net.destinations
    ensures forall v :: v in nodes ==>
        ReceivedIn(RunStreams(net, streams, pushes))[v]
          == ReceivedBy<InputPV>(net.destinations, Origins(pushes), nodes)[v]
  {
    hide Received;
    OriginsWithin(net, pushes);
    forall v | v in nodes
      ensures ReceivedIn(RunStreams(net, streams, pushes))[v]
           == ReceivedBy<InputPV>(net.destinations, Origins(pushes), nodes)[v]
    {
      StreamsOfRun(net, streams, pushes, v);
    }
  }

  /** The flow equation of an input over any run of pushes: it has received what was pushed into it
      directly and all that its sources have received. Its port has been handed the quotient of that
      and its period. */
  lemma InputFlow(net: Net, streams: map<InputPV, Stream>, pushes: seq<Direct>, v: InputPV)
    requires Within(net, pushes) && Untouched(net, streams) && v in net.destinations
    ensures var after := RunStreams(net, streams, pushes);
        && ReceivedIn(after)[v]
           == multiset(Origins(pushes))[v] + Sum<InputPV>(Sources<InputPV>(net.destinations, v), ReceivedIn(after))
        && |after[v].delivered| == Share(streams[v].factor, ReceivedIn(after)[v])
  {
    var after := RunStreams(net, streams, pushes);
    hide Received, RunStreams;
    var g: Graph<InputPV> := net.destinations;
    var sources := Sources<InputPV>(g, v);
    StreamsOfRun(net, streams, pushes, v);
    FlowEquation<InputPV>(g, Origins(pushes), v);
    ReceivedInRun(net, streams, pushes, sources);
    SumAgrees<InputPV>(sources, ReceivedIn(after), ReceivedBy<InputPV>(g, Origins(pushes), sources));
  }

  lemma {:induction false} CellsOfRun(net: Net, cells: map<OutputPV, Cell>, pushes: seq<Direct>, o: OutputPV)
    requires Within(net, pushes) && cells.Keys == net.subscriptions.Keys && o in cells
    requires forall u :: u in Origins(pushes) ==> u in net.destinations
    ensures RunCells(net, cells, pushes)[o].writes
        == cells[o].writes + Arrivals<InputPV>(net.destinations, Origins(pushes), net.subscriptions[o])
  {
    if pushes == [] {
    } else {
      OriginsWithin(net, pushes);
      CellsOfRun(net, cells, pushes[..|pushes| - 1], o);
    }
  }

  /** An output has been written as often as all the inputs it subscribes to have received. */
  lemma OutputFlow(net: Net, streams: map<InputPV, Stream>, cells: map<OutputPV, Cell>, pushes: seq<Direct>,
                   o: OutputPV)
    requires Within(net, pushes) && Untouched(net, streams)
    requires cells.Keys == net.subscriptions.Keys && o in cells && net.subscriptions[o] <= net.destinations.Keys
    ensures RunCells(net, cells, pushes)[o].writes
        == cells[o].writes + Sum<InputPV>(net.subscriptions[o], ReceivedIn(RunStreams(net, streams, pushes)))
  {
    hide Arrivals, Received, RunStreams, RunCells;
    var g: Graph<InputPV> := net.destinations;
    var ends := net.subscriptions[o];
    ReceivedInRun(net, streams, pushes, ends);
    CellsOfRun(net, cells, pushes, o);
    ArrivalsAreReceived<InputPV>(g, Origins(pushes), ends);
    SumAgrees<InputPV>(ends, ReceivedIn(RunStreams(net, streams, pushes)),
                       ReceivedBy<InputPV>(g, Origins(pushes), ends));
  }
}
