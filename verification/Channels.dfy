/** The two ways the server uses channels of capacity one: sends that drop when full, and sends that block. */
module Channels {
  import opened Bytes

  // ---------------------------------------------------------------- drop if full

  datatype Op<T> = Push(item: T) | Receive

  datatype Flow<T> = Flow(buffer: seq<T>, received: seq<T>)

  /** A send with a default case: it never waits, and drops the item when one is pending. */
  function Offer<T>(buffer: seq<T>, item: T): seq<T> {
    if buffer == [] then [item] else buffer
  }

  function Step<T>(f: Flow<T>, op: Op<T>): Flow<T> {
    match op
    case Push(item) => f.(buffer := Offer(f.buffer, item))
    case Receive => Flow([], f.received + f.buffer)
  }

  function Run<T>(ops: seq<Op<T>>): (f: Flow<T>)
    ensures |f.buffer| <= 1
  {
    if ops == [] then Flow([], []) else Step(Run(ops[..|ops| - 1]), ops[|ops| - 1])
  }

  function Pushed<T>(ops: seq<Op<T>>): seq<T> {
    if ops == [] then [] else
      var init, op := Pushed(ops[..|ops| - 1]), ops[|ops| - 1];
      if op.Push? then init + [op.item] else init
  }

  /** Indices, among the items pushed, of those that found the channel empty. */
  function Kept<T>(ops: seq<Op<T>>): seq<nat> {
    if ops == [] then [] else
      var init := ops[..|ops| - 1];
      if ops[|ops| - 1].Push? && Run(init).buffer == [] then Kept(init) + [|Pushed(init)|] else Kept(init)
  }

  predicate Increasing(s: seq<nat>, bound: nat) {
    && (forall i :: 0 <= i < |s| ==> s[i] < bound)
    && (forall i, j :: 0 <= i < j < |s| ==> s[i] < s[j])
  }

  /**
   * Received items and then the pending one are a subsequence, in order, of the items pushed: those at the kept
   * indices.
   */
  lemma {:induction false} DeliversSubsequence<T>(ops: seq<Op<T>>)
    ensures Increasing(Kept(ops), |Pushed(ops)|)
    ensures var all := Run(ops).received + Run(ops).buffer;
            && |all| == |Kept(ops)|
            && forall i :: 0 <= i < |all| ==> all[i] == Pushed(ops)[Kept(ops)[i]]
  {
    if ops != [] {
      DeliversSubsequence(ops[..|ops| - 1]);
    }
  }

  /** A push is dropped exactly while an earlier item is pending; that item is an earlier push, the last one kept. */
  lemma {:induction false} DroppedOnlyWhilePending<T>(ops: seq<Op<T>>, item: T)
    ensures var f := Run(ops);
            && (|Pushed(ops)| in Kept(ops + [Push(item)]) <==> f.buffer == [])
            && Increasing(Kept(ops), |Pushed(ops)|)
            && (f.buffer != [] ==> Kept(ops) != [] && f.buffer == [Pushed(ops)[Kept(ops)[|Kept(ops)| - 1]]])
            && Run(ops + [Push(item)]).received == f.received
  {
    DeliversSubsequence(ops);
    assert (ops + [Push(item)])[..|ops|] == ops;
    var f := Run(ops);
    if f.buffer != [] {
      assert (f.received + f.buffer)[|f.received|] == f.buffer[0];
    }
  }

  // ---------------------------------------------------------------- block if full

  /** Items received, the one buffered, and the senders still blocked, in the order they arrived. */
  datatype Line<T> = Line(received: seq<T>, buffer: seq<T>, waiting: seq<T>) {
    predicate Valid() {
      |buffer| <= 1 && (waiting != [] ==> buffer != [])
    }

    function Sent(): seq<T> {
      received + buffer + waiting
    }
  }

  function Send<T>(l: Line<T>, item: T): (r: Line<T>)
    requires l.Valid()
    ensures r.Valid() && r.Sent() == l.Sent() + [item] && r.received == l.received
  {
    if l.buffer == [] then Line(l.received, [item], []) else Line(l.received, l.buffer, l.waiting + [item])
  }

  /** A receive takes the buffered item and lets the first blocked sender finish; on an empty channel it waits. */
  function Take<T>(l: Line<T>): (r: Line<T>)
    requires l.Valid()
    ensures r.Valid() && r.Sent() == l.Sent()
    ensures |l.Sent()| > |l.received| ==> |r.received| == |l.received| + 1
  {
    if l.buffer == [] then l
    else if l.waiting == [] then Line(l.received + l.buffer, [], [])
    else Line(l.received + l.buffer, [l.waiting[0]], l.waiting[1..])
  }
}
