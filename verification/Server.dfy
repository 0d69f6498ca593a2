/** The server object: counters, metrics, configuration and channels, updated in place. */
module Server {
  import opened Bytes
  import opened Game
  import Sqp
  import Players
  import Metrics
  import Channels
  import Allocation

  /** A decoded configuration: its query type, and the rest. */
  datatype Config = Config(queryType: string, rest: string)

  const QUERY_SQP := "sqp"

  class Server {
    const kind: Allocation.ServerType

    var currentPlayers: int32
    var maxPlayers: int32
    var serverName: seq<byte>
    var gameType: seq<byte>
    var gameMap: seq<byte>
    var port: u16

    /** The metrics slice: a backing array, and the length in use. */
    var metrics: array<u32>
    var metricsLength: nat

    var currentConfig: Config
    var chanConfigurationChanged: seq<Config>
    var chanError: seq<string>

    var allocatedUUID: string
    var chanAllocated: Channels.Line<Allocation.Item>
    var chanDeallocated: Channels.Line<Allocation.Item>

    ghost predicate Valid()
      reads this
    {
      metricsLength <= metrics.Length && chanAllocated.Valid() && chanDeallocated.Valid()
    }

    ghost function Slice(): Metrics.Slice
      reads this, metrics
    {
      Metrics.Slice(metrics[..], metricsLength)
    }

    ghost function Events(): Allocation.State
      reads this
    {
      Allocation.State(allocatedUUID, chanAllocated, chanDeallocated)
    }

    ghost predicate SqpConfigured()
      reads this
    {
      currentConfig.queryType == QUERY_SQP
    }

    ghost function Seen(received: seq<Config>): View
      reads this, metrics
    {
      View(currentPlayers, Metrics.State(SqpConfigured(), Slice()), Events(),
           Channels.Flow(chanConfigurationChanged, received))
    }

    constructor (kind: Allocation.ServerType)
      ensures Valid() && this.kind == kind && fresh(metrics)
      ensures Slice() == Metrics.Allocated(false) && currentPlayers == 0
      ensures Events() == Allocation.INITIAL
      ensures chanConfigurationChanged == [] && chanError == []
    {
      this.kind := kind;
      currentPlayers, maxPlayers, port := 0, 0, 0;
      serverName, gameType, gameMap := [], [], [];
      metrics := new u32[0];
      metricsLength := 0;
      currentConfig := Config("", "");
      chanConfigurationChanged, chanError := [], [];
      allocatedUUID := "";
      chanAllocated := Channels.Line([], [], []);
      chanDeallocated := Channels.Line([], [], []);
    }

    /** The part of Start that sets up the state: the configuration, and the metrics buffer if SQP is configured. */
    method StartState(c: Config)
      requires Valid() && Slice() == Metrics.Allocated(false)
      modifies this
      ensures Valid() && Slice() == Metrics.Allocated(c.queryType == QUERY_SQP)
      ensures fresh(metrics) || metrics == old(metrics)
      ensures currentConfig == c
      ensures chanConfigurationChanged == Channels.Offer(old(chanConfigurationChanged), c)
      ensures currentPlayers == old(currentPlayers) && chanError == old(chanError) && Events() == old(Events())
    {
      SetConfig(c);
      if c.queryType == QUERY_SQP {
        metrics := new u32[Sqp.MAX_METRICS](_ => 0);
        metricsLength := 0;
      }
    }

    method SetConfig(c: Config)
      modifies this`currentConfig, this`chanConfigurationChanged
      ensures currentConfig == c
      ensures chanConfigurationChanged == Channels.Offer(old(chanConfigurationChanged), c)
    {
      currentConfig := c;
      if chanConfigurationChanged == [] {
        chanConfigurationChanged := [c];
      }
    }

    method PushError(e: string)
      modifies this`chanError
      ensures chanError == Channels.Offer(old(chanError), e)
    {
      if chanError == [] {
        chanError := [e];
      }
    }

    method PlayerJoined() returns (count: int32)
      modifies this`currentPlayers
      ensures count == currentPlayers == Players.Step(old(currentPlayers), Players.Join)
    {
      currentPlayers := Players.Wrap(currentPlayers + 1);
      return currentPlayers;
    }

    method PlayerLeft() returns (count: int32)
      modifies this`currentPlayers
      ensures count == currentPlayers == Players.Step(old(currentPlayers), Players.Leave)
    {
      if currentPlayers > 0 {
        currentPlayers := currentPlayers - 1;
      }
      return currentPlayers;
    }

    method SetCurrentPlayers(players: int32)
      modifies this`currentPlayers
      ensures currentPlayers == Players.Step(old(currentPlayers), Players.Assign(players))
      ensures currentPlayers == if players < 0 then 0 else players
    {
      currentPlayers := if players < 0 then 0 else players;
    }

    /** `Panicked` is the runtime panic of reslicing past the capacity: nothing has changed by then. */
    method SetMetric(index: byte, value: u32) returns (r: Metrics.Result)
      requires Valid()
      modifies this`metricsLength, metrics
      ensures Valid() && metrics == old(metrics)
      ensures (Slice(), r) == Metrics.Set(SqpConfigured(), old(Slice()), index, value)
    {
      if currentConfig.queryType != QUERY_SQP {
        return Metrics.NotSupported;
      }
      if index >= Sqp.MAX_METRICS {
        return Metrics.OutOfBounds;
      }
      if index >= metricsLength {
        if index + 1 > metrics.Length {
          return Metrics.Panicked;
        }
        metricsLength := index + 1;
      }
      metrics[index] := value;
      return Metrics.Stored;
    }

    /** The consistent snapshot a responder reports. */
    method Snapshot() returns (q: QueryState)
      requires Valid()
      ensures q.currentPlayers == currentPlayers && q.maxPlayers == maxPlayers
      ensures q.serverName == serverName && q.gameType == gameType && q.gameMap == gameMap && q.port == port
      ensures q.metrics == Slice().Contents()
    {
      return QueryState(currentPlayers, maxPlayers, serverName, gameType, gameMap, port, metrics[..metricsLength]);
    }

    /** The callback for allocation events, registered on allocation servers: store the ID, then send, maybe blocking. */
    method WatchAllocation(ev: Allocation.ProxyEvent)
      requires Valid() && kind == Allocation.AllocationType
      modifies this`allocatedUUID, this`chanAllocated
      ensures Valid()
      ensures Events() == if ev.Allocate? then Allocation.Apply(kind, old(Events()), ev) else old(Events())
    {
      if ev.Allocate? {
        allocatedUUID := ev.id;
        chanAllocated := Channels.Send(chanAllocated, Allocation.FromCallback(ev.id));
      }
    }

    method WatchDeallocation(ev: Allocation.ProxyEvent)
      requires Valid() && kind == Allocation.AllocationType
      modifies this`allocatedUUID, this`chanDeallocated
      ensures Valid()
      ensures Events() == if ev.Deallocate? then Allocation.Apply(kind, old(Events()), ev) else old(Events())
    {
      if ev.Deallocate? {
        allocatedUUID := "";
        chanDeallocated := Channels.Send(chanDeallocated, Allocation.FromCallback(ev.id));
      }
    }

    /** The local proxy runs the callback registered for the type of the event, if there is one. */
    method Dispatch(ev: Allocation.ProxyEvent)
      requires Valid()
      modifies this`allocatedUUID, this`chanAllocated, this`chanDeallocated
      ensures Valid() && Events() == Allocation.Step(kind, old(Events()), Allocation.Publish(ev))
    {
      if kind == Allocation.AllocationType {
        if ev.Allocate? {
          WatchAllocation(ev);
        } else if ev.Deallocate? {
          WatchDeallocation(ev);
        }
      }
    }

    /** The deallocation message of Stop. */
    method PublishStop()
      requires Valid()
      modifies this`chanDeallocated
      ensures Valid() && Events() == Allocation.Step(kind, old(Events()), Allocation.StopSends)
    {
      chanDeallocated := Channels.Send(chanDeallocated, Allocation.FromStop);
    }

    method ReadyForPlayers(hasContext: bool) returns (r: Allocation.Ready)
      ensures r == Allocation.ReadyForPlayers(hasContext, allocatedUUID)
    {
      if !hasContext {
        return Allocation.NilContext;
      }
      if allocatedUUID == "" {
        return Allocation.NotAllocated;
      }
      return Allocation.Patches(allocatedUUID);
    }

    /** One call by the game, its configuration watcher, the local proxy, or a consumer of a channel. */
    method Perform(call: Call) returns (taken: seq<Config>)
      requires Valid()
      modifies this, metrics
      ensures Valid() && metrics == old(metrics)
      ensures Seen(taken) == Moved(kind, old(Seen([])), call)
    {
      taken := [];
      match call {
        case Count(Join) => var _ := PlayerJoined();
        case Count(Leave) => var _ := PlayerLeft();
        case Count(Assign(players)) => SetCurrentPlayers(players);
        case Measure(index, value) => var _ := SetMetric(index, value);
        case Configure(c) => SetConfig(c);
        case ReceiveConfig =>
          taken := chanConfigurationChanged;
          chanConfigurationChanged := [];
        case Proxy(ev) => Dispatch(ev);
        case PublishDeallocation => PublishStop();
        case ReceiveAllocation => chanAllocated := Channels.Take(chanAllocated);
        case ReceiveDeallocation => chanDeallocated := Channels.Take(chanDeallocated);
      }
    }
  }

  // ---------------------------------------------------------------- a server over its life

  datatype Call =
    | Count(op: Players.Op)
    | Measure(index: byte, value: u32)
    | Configure(c: Config)
    | ReceiveConfig
    | Proxy(ev: Allocation.ProxyEvent)
    | PublishDeallocation
    | ReceiveAllocation
    | ReceiveDeallocation

  /** The operation of a call on the player count, the metrics, the allocation state and the channel of changes. */
  function PlayerOp(call: Call): seq<Players.Op> {
    if call.Count? then [call.op] else []
  }

  function MetricOp(call: Call): seq<Metrics.Op> {
    match call
    case Measure(index, value) => [Metrics.SetMetric(index, value)]
    case Configure(c) => [Metrics.Reconfigure(c.queryType == QUERY_SQP)]
    case _ => []
  }

  function Action(call: Call): seq<Allocation.Action> {
    match call
    case Proxy(ev) => [Allocation.Publish(ev)]
    case PublishDeallocation => [Allocation.StopSends]
    case ReceiveAllocation => [Allocation.TakeAllocated]
    case ReceiveDeallocation => [Allocation.TakeDeallocated]
    case _ => []
  }

  function ConfigOp(call: Call): seq<Channels.Op<Config>> {
    match call
    case Configure(c) => [Channels.Push(c)]
    case ReceiveConfig => [Channels.Receive]
    case _ => []
  }

  function Counted(count: int32, call: Call): int32 {
    if PlayerOp(call) == [] then count else Players.Step(count, PlayerOp(call)[0])
  }

  function Measured(s: Metrics.State, call: Call): Metrics.State
    requires s.slice.Valid()
  {
    if MetricOp(call) == [] then s else Metrics.Step(s, MetricOp(call)[0])
  }

  function Happened(kind: Allocation.ServerType, s: Allocation.State, call: Call): Allocation.State
    requires s.Valid()
  {
    if Action(call) == [] then s else Allocation.Step(kind, s, Action(call)[0])
  }

  function Announced(f: Channels.Flow<Config>, call: Call): Channels.Flow<Config> {
    if ConfigOp(call) == [] then f else Channels.Step(f, ConfigOp(call)[0])
  }

  /** The calls of one kind, in order. */
  function Project<T>(calls: seq<Call>, of: Call -> seq<T>): seq<T> {
    if calls == [] then [] else Project(calls[..|calls| - 1], of) + of(calls[|calls| - 1])
  }

  lemma ProjectSnoc<T>(calls: seq<Call>, i: nat, of: Call -> seq<T>)
    requires i < |calls|
    ensures Project(calls[..i + 1], of) == Project(calls[..i], of) + of(calls[i])
  {
    assert calls[..i + 1][..i] == calls[..i];
  }

  /** A server seen through its specifications, with the configurations received from it. */
  datatype View = View(
    players: int32,
    measured: Metrics.State,
    events: Allocation.State,
    announced: Channels.Flow<Config>)

  /** The runs the theorems are about, each over the calls of its own kind. */
  function Life(kind: Allocation.ServerType, c: Config, calls: seq<Call>): View {
    View(Players.Count(0, Project(calls, PlayerOp)),
         Metrics.Run(c.queryType == QUERY_SQP, Project(calls, MetricOp)),
         Allocation.Run(kind, Project(calls, Action)),
         Channels.Run([Channels.Push(c)] + Project(calls, ConfigOp)))
  }

  function Moved(kind: Allocation.ServerType, v: View, call: Call): View
    requires v.measured.slice.Valid() && v.events.Valid()
  {
    View(Counted(v.players, call), Measured(v.measured, call), Happened(kind, v.events, call), Announced(v.announced, call))
  }

  lemma LifeAdvances(kind: Allocation.ServerType, c: Config, calls: seq<Call>, i: nat)
    requires i < |calls|
    ensures Life(kind, c, calls[..i + 1]) == Moved(kind, Life(kind, c, calls[..i]), calls[i])
  {
    ProjectSnoc(calls, i, PlayerOp);
    AppendUpToOne(Project(calls[..i], PlayerOp), PlayerOp(calls[i]));
    ProjectSnoc(calls, i, MetricOp);
    AppendUpToOne(Project(calls[..i], MetricOp), MetricOp(calls[i]));
    ProjectSnoc(calls, i, Action);
    AppendUpToOne(Project(calls[..i], Action), Action(calls[i]));
    AnnouncementsAdvance(c, calls, i);
  }

  lemma AnnouncementsAdvance(c: Config, calls: seq<Call>, i: nat)
    requires i < |calls|
    ensures Channels.Run([Channels.Push(c)] + Project(calls[..i + 1], ConfigOp))
         == Announced(Channels.Run([Channels.Push(c)] + Project(calls[..i], ConfigOp)), calls[i])
  {
    ProjectSnoc(calls, i, ConfigOp);
    var configs := [Channels.Push(c)] + Project(calls[..i], ConfigOp);
    assert [Channels.Push(c)] + Project(calls[..i + 1], ConfigOp) == configs + ConfigOp(calls[i]);
    AppendUpToOne(configs, ConfigOp(calls[i]));
  }

  lemma AnnouncedAppends(buffer: seq<Config>, received: seq<Config>, call: Call)
    ensures var f := Announced(Channels.Flow(buffer, []), call);
            Announced(Channels.Flow(buffer, received), call) == Channels.Flow(f.buffer, received + f.received)
  {
  }

  lemma AppendUpToOne<T>(s: seq<T>, more: seq<T>)
    requires |more| <= 1
    ensures more == [] ==> s + more == s
    ensures more != [] ==> (s + more)[..|s| + |more| - 1] == s && (s + more)[|s| + |more| - 1] == more[0]
  {
  }

  /**
   * A server over any interleaving of calls, from its start with a configuration: its metrics, its player count, its
   * allocation state and its announcements of configurations are those of the runs the theorems speak of.
   */
  method Live(kind: Allocation.ServerType, c: Config, calls: seq<Call>) returns (s: Server, received: seq<Config>)
    ensures fresh(s) && s.Valid() && s.kind == kind
    ensures s.Seen(received) == Life(kind, c, calls)
  {
    s := Started(kind, c);
    received := [];
    var i := 0;
    while i < |calls|
      invariant 0 <= i <= |calls| && fresh(s) && fresh(s.metrics) && s.Valid() && s.kind == kind
      invariant s.Seen(received) == Life(kind, c, calls[..i])
    {
      LifeAdvances(kind, c, calls, i);
      AnnouncedAppends(s.chanConfigurationChanged, received, calls[i]);
      var taken := s.Perform(calls[i]);
      received := received + taken;
      i := i + 1;
    }
    assert calls[..|calls|] == calls;
  }

  method Started(kind: Allocation.ServerType, c: Config) returns (s: Server)
    ensures fresh(s) && fresh(s.metrics) && s.Valid() && s.kind == kind
    ensures s.Seen([]) == Life(kind, c, [])
  {
    s := new Server(kind);
    s.StartState(c);
    Announcing(c);
    assert [Channels.Push(c)] + [] == [Channels.Push(c)];
  }

  /** The start has announced its configuration. */
  lemma Announcing(c: Config)
    ensures Channels.Run([Channels.Push(c)]) == Channels.Flow([c], [])
  {
    assert [Channels.Push(c)][..0] == [];
  }

  /** Config returns the newest configuration, whatever the channel of changes dropped or a consumer has received. */
  function Newest(start: Config, ops: seq<Channels.Op<Config>>): Config {
    if ops == [] then start else
      var op := ops[|ops| - 1];
      if op.Push? then op.item else Newest(start, ops[..|ops| - 1])
  }

  /** An interleaving of setConfig calls and receives on the channel of changes, run on the server. */
  method ChangeConfig(s: Server, ops: seq<Channels.Op<Config>>) returns (received: seq<Config>)
    requires s.chanConfigurationChanged == []
    modifies s`currentConfig, s`chanConfigurationChanged
    ensures s.currentConfig == Newest(old(s.currentConfig), ops)
    ensures Channels.Flow(s.chanConfigurationChanged, received) == Channels.Run(ops)
  {
    received := [];
    var i := 0;
    assert ops[..0] == [];
    while i < |ops|
      invariant 0 <= i <= |ops|
      invariant s.currentConfig == Newest(old(s.currentConfig), ops[..i])
      invariant Channels.Flow(s.chanConfigurationChanged, received) == Channels.Run(ops[..i])
    {
      assert ops[..i + 1][..i] == ops[..i];
      match ops[i] {
        case Push(c) => s.SetConfig(c);
        case Receive =>
          received := received + s.chanConfigurationChanged;
          s.chanConfigurationChanged := [];
      }
      i := i + 1;
    }
    assert ops[..|ops|] == ops;
  }
}
