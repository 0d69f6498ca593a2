/** Allocation events: callbacks run one after another, each storing the allocation ID and then sending on a channel. */
module Allocation {
  import opened Bytes
  import opened Channels

  datatype ServerType = AllocationType | ReservationType

  datatype ProxyEvent = Allocate(id: string) | Deallocate(id: string) | Other

  /** An item on the deallocation channel: from a callback, or the empty one that Stop publishes. */
  datatype Item = FromCallback(id: string) | FromStop

  datatype Action = Publish(ev: ProxyEvent) | StopSends | TakeAllocated | TakeDeallocated

  datatype State = State(id: string, allocations: Line<Item>, deallocations: Line<Item>) {
    predicate Valid() {
      allocations.Valid() && deallocations.Valid()
    }

    /** The callback goroutine is still inside a blocked send. */
    predicate CallbackBlocked() {
      allocations.waiting != [] || exists i :: 0 <= i < |deallocations.waiting| && deallocations.waiting[i].FromCallback?
    }
  }

  const INITIAL := State("", Line([], [], []), Line([], [], []))

  /** Callbacks are registered only on allocation servers; unknown events have none. */
  function Apply(kind: ServerType, s: State, ev: ProxyEvent): (r: State)
    requires s.Valid()
    ensures r.Valid()
  {
    if kind == ReservationType then s else
      match ev
      case Allocate(id) => s.(id := id, allocations := Send(s.allocations, FromCallback(id)))
      case Deallocate(id) => s.(id := "", deallocations := Send(s.deallocations, FromCallback(id)))
      case Other => s
  }

  function Step(kind: ServerType, s: State, a: Action): (r: State)
    requires s.Valid()
    ensures r.Valid()
  {
    match a
    case Publish(ev) => Apply(kind, s, ev)
    case StopSends => s.(deallocations := Send(s.deallocations, FromStop))
    case TakeAllocated => s.(allocations := Take(s.allocations))
    case TakeDeallocated => s.(deallocations := Take(s.deallocations))
  }

  function Run(kind: ServerType, actions: seq<Action>): (s: State)
    ensures s.Valid()
  {
    if actions == [] then INITIAL else Step(kind, Run(kind, actions[..|actions| - 1]), actions[|actions| - 1])
  }

  /** Callbacks are serial: no event is published while an earlier callback is blocked. Stop is called once. */
  predicate Serial(kind: ServerType, actions: seq<Action>) {
    actions != [] ==>
      var init, a := actions[..|actions| - 1], actions[|actions| - 1];
      && Serial(kind, init)
      && (a.Publish? ==> !Run(kind, init).CallbackBlocked())
      && (a.StopSends? ==> StopSends !in init)
  }

  // ---------------------------------------------------------------- the history

  function Allocations(actions: seq<Action>): seq<Item> {
    if actions == [] then [] else
      var init, a := Allocations(actions[..|actions| - 1]), actions[|actions| - 1];
      if a.Publish? && a.ev.Allocate? then init + [FromCallback(a.ev.id)] else init
  }

  function Deallocations(actions: seq<Action>): seq<Item> {
    if actions == [] then [] else
      var init, a := Deallocations(actions[..|actions| - 1]), actions[|actions| - 1];
      if a.Publish? && a.ev.Deallocate? then init + [FromCallback(a.ev.id)]
      else if a.StopSends? then init + [FromStop]
      else init
  }

  /** The allocation event last applied, if any. */
  function LastEvent(actions: seq<Action>): Option<ProxyEvent> {
    if actions == [] then None else
      var a := actions[|actions| - 1];
      if a.Publish? && !a.ev.Other? then Some(a.ev) else LastEvent(actions[..|actions| - 1])
  }

  /**
   * Delivery is lossless and ordered: on each channel, what was received, then what is buffered, then what is
   * blocked, is the event history in order. The stored ID is that of the last event applied.
   */
  lemma {:induction false} Delivered(actions: seq<Action>)
    ensures var s := Run(AllocationType, actions);
            && s.allocations.Sent() == Allocations(actions)
            && s.deallocations.Sent() == Deallocations(actions)
            && s.id == (match LastEvent(actions)
                        case Some(Allocate(id)) => id
                        case _ => "")
  {
    if actions != [] {
      Delivered(actions[..|actions| - 1]);
    }
  }

  function CallbacksWaiting(items: seq<Item>): nat {
    if items == [] then 0 else (if items[0].FromCallback? then 1 else 0) + CallbacksWaiting(items[1..])
  }

  lemma {:induction false} WaitingSnoc(items: seq<Item>, item: Item)
    ensures CallbacksWaiting(items + [item]) == CallbacksWaiting(items) + if item.FromCallback? then 1 else 0
  {
    if items == [] {
      assert [item][1..] == [] && [] + [item] == [item];
    } else {
      WaitingSnoc(items[1..], item);
      assert (items + [item])[1..] == items[1..] + [item];
    }
  }

  lemma {:induction false} NoneWaiting(items: seq<Item>)
    ensures CallbacksWaiting(items) == 0 <==> forall i :: 0 <= i < |items| ==> !items[i].FromCallback?
    ensures CallbacksWaiting(items) <= |items|
  {
    if items != [] {
      NoneWaiting(items[1..]);
      assert forall i :: 1 <= i < |items| ==> items[i] == items[1..][i - 1];
    }
  }

  predicate OneEach(s: State, stopped: bool) {
    && |s.allocations.waiting| + CallbacksWaiting(s.deallocations.waiting) <= 1
    && |s.deallocations.waiting| <= CallbacksWaiting(s.deallocations.waiting) + if stopped then 1 else 0
  }

  lemma StepOneEach(kind: ServerType, s: State, a: Action, stopped: bool)
    requires s.Valid() && OneEach(s, stopped)
    requires a.Publish? ==> !s.CallbackBlocked()
    requires a.StopSends? ==> !stopped
    ensures OneEach(Step(kind, s, a), stopped || a.StopSends?)
  {
    var w := s.deallocations.waiting;
    NoneWaiting(w);
    WaitingSnoc(w, FromStop);
    if a.Publish? && !a.ev.Other? {
      WaitingSnoc(w, FromCallback(a.ev.id));
    }
  }

  /**
   * With serial callbacks, at most one callback send is ever blocked, over both channels together; besides it only
   * the one of Stop can be, on the deallocation channel.
   */
  lemma {:induction false} AtMostOneBlocked(kind: ServerType, actions: seq<Action>)
    requires Serial(kind, actions)
    ensures OneEach(Run(kind, actions), StopSends in actions)
  {
    if actions != [] {
      var init, a := actions[..|actions| - 1], actions[|actions| - 1];
      AtMostOneBlocked(kind, init);
      StepOneEach(kind, Run(kind, init), a, StopSends in init);
      assert StopSends in actions <==> StopSends in init || a == StopSends;
    }
  }

  // ---------------------------------------------------------------- readiness

  datatype Ready = NilContext | NotAllocated | Patches(id: string)

  function ReadyForPlayers(hasContext: bool, id: string): Ready {
    if !hasContext then NilContext else if id == "" then NotAllocated else Patches(id)
  }

  /**
   * Without a context readiness is refused for that; with one, exactly if no event was applied or the last one left
   * the ID empty; otherwise the allocation of the last event is patched.
   */
  lemma {:induction false} ReadyExactly(hasContext: bool, actions: seq<Action>)
    ensures var r := ReadyForPlayers(hasContext, Run(AllocationType, actions).id);
            && (r == NilContext <==> !hasContext)
            && (r == NotAllocated <==>
                  hasContext && match LastEvent(actions)
                                case Some(Allocate(id)) => id == ""
                                case _ => true)
            && (r.Patches? ==> LastEvent(actions) == Some(Allocate(r.id)))
  {
    Delivered(actions);
  }

  /** On a reservation server no callback is registered, so readiness is always refused. */
  lemma {:induction false} ReservationNeverReady(hasContext: bool, actions: seq<Action>)
    ensures ReadyForPlayers(hasContext, Run(ReservationType, actions).id) == if hasContext then NotAllocated else NilContext
  {
    if actions != [] {
      ReservationNeverReady(hasContext, actions[..|actions| - 1]);
    }
  }
}
