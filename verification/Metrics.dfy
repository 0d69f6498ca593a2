/** The metrics buffer: a slice that grows by reslicing into capacity allocated once, at start. */
module Metrics {
  import opened Bytes
  import opened Wire
  import opened Game
  import opened Challenges
  import opened Responder
  import opened Handshake
  import opened Answers
  import Sqp

  /** A slice over the front of its backing array, whose length is the capacity. */
  datatype Slice = Slice(backing: seq<u32>, length: nat) {
    predicate Valid() {
      length <= |backing|
    }

    function Contents(): seq<u32>
      requires Valid()
    {
      backing[..length]
    }
  }

  datatype Result = Stored | NotSupported | OutOfBounds | Panicked

  function Zeros(n: nat): seq<u32> {
    seq(n, _ => 0)
  }

  /** What Start leaves behind: room for every metric if the query type is SQP, else a nil slice. */
  function Allocated(sqp: bool): Slice {
    if sqp then Slice(Zeros(Sqp.MAX_METRICS), 0) else Slice([], 0)
  }

  /** Reslicing past the capacity is a runtime panic. */
  function Set(sqp: bool, m: Slice, index: byte, value: u32): (r: (Slice, Result))
    requires m.Valid()
    ensures r.0.Valid() && |r.0.backing| == |m.backing|
    ensures r.1 != Stored ==> r.0 == m
  {
    if !sqp then (m, NotSupported)
    else if index >= Sqp.MAX_METRICS then (m, OutOfBounds)
    else
      var length := if index >= m.length then index + 1 else m.length;
      if length > |m.backing| then (m, Panicked)
      else (Slice(m.backing[index := value], length), Stored)
  }

  /** Calls of SetMetric, and rewrites of the configuration by its watcher. */
  datatype Op = SetMetric(index: byte, value: u32) | Reconfigure(sqp: bool)

  datatype State = State(sqp: bool, slice: Slice)

  function Step(s: State, op: Op): State
    requires s.slice.Valid()
    ensures Step(s, op).slice.Valid()
  {
    match op
    case SetMetric(index, value) => s.(slice := Set(s.sqp, s.slice, index, value).0)
    case Reconfigure(sqp) => s.(sqp := sqp)
  }

  function Run(sqp: bool, ops: seq<Op>): (s: State)
    ensures s.slice.Valid() && |s.slice.backing| == |Allocated(sqp).backing|
  {
    if ops == [] then State(sqp, Allocated(sqp)) else Step(Run(sqp, ops[..|ops| - 1]), ops[|ops| - 1])
  }

  // ---------------------------------------------------------------- when reslicing is safe

  /**
   * After any calls and any rewrites of the configuration, a call is refused exactly if the configuration does not say
   * SQP, or else the index is out of bounds; and otherwise panics exactly if the server was not started with SQP.
   */
  lemma {:induction false} OutcomeExactly(startedSqp: bool, ops: seq<Op>, index: byte, value: u32)
    ensures var s := Run(startedSqp, ops);
            var r := Set(s.sqp, s.slice, index, value).1;
            && (r == NotSupported <==> !s.sqp)
            && (r == OutOfBounds <==> s.sqp && index >= 10)
            && (r == Panicked <==> s.sqp && index < 10 && !startedSqp)
  {
    var s := Run(startedSqp, ops);
    assert |s.slice.backing| == |Allocated(startedSqp).backing|;
  }

  /** Such a run exists: started with A2S, reconfigured to SQP, the first call panics. */
  lemma {:induction false} PanicReachable(index: byte, value: u32)
    requires index < 10
    ensures var s := Run(false, [Reconfigure(true)]); Set(s.sqp, s.slice, index, value).1 == Panicked
  {
    assert [Reconfigure(true)][..0] == [];
  }

  // ---------------------------------------------------------------- the map the slice refines

  /** The query type stays what it was. */
  predicate OnlyCalls(ops: seq<Op>) {
    forall op :: op in ops ==> op.SetMetric?
  }

  predicate InBounds(op: Op) {
    op.SetMetric? && op.index < 10
  }

  /** The value last set at index i, or zero. */
  function LastValue(ops: seq<Op>, i: nat): u32 {
    if ops == [] then 0 else
      var op := ops[|ops| - 1];
      if InBounds(op) && op.index == i then op.value else LastValue(ops[..|ops| - 1], i)
  }

  /** One more than the largest index in bounds, or zero. */
  function Extent(ops: seq<Op>): nat {
    if ops == [] then 0 else
      var rest, op := Extent(ops[..|ops| - 1]), ops[|ops| - 1];
      if InBounds(op) && op.index + 1 > rest then op.index + 1 else rest
  }

  lemma {:induction false} ExtentIsMaximum(ops: seq<Op>)
    ensures Extent(ops) <= 10
    ensures forall op :: op in ops && InBounds(op) ==> op.index < Extent(ops)
    ensures Extent(ops) > 0 ==> exists op :: op in ops && InBounds(op) && op.index + 1 == Extent(ops)
  {
    if ops != [] {
      var init, last := ops[..|ops| - 1], ops[|ops| - 1];
      ExtentIsMaximum(init);
      assert ops == init + [last];
      assert forall op :: op in ops <==> op in init || op == last;
      if Extent(ops) > 0 && !(InBounds(last) && last.index + 1 > Extent(init)) {
        var op :| op in init && InBounds(op) && op.index + 1 == Extent(init);
        assert op in ops;
      }
    }
  }

  /**
   * After an SQP start and any calls, the slice is as long as the largest index needs, entry i is the last value set
   * there or zero, calls out of bounds have changed nothing, and the spare capacity is still all zero.
   */
  lemma {:induction false} SliceRefinesMap(ops: seq<Op>)
    requires OnlyCalls(ops)
    ensures Run(true, ops).sqp
    ensures var m := Run(true, ops).slice;
            && m.length == Extent(ops)
            && |m.backing| == 10
            && (forall i :: 0 <= i < |m.backing| ==> m.backing[i] == LastValue(ops, i))
            && (forall i :: m.length <= i < |m.backing| ==> m.backing[i] == 0)
  {
    if ops != [] {
      var init, op := ops[..|ops| - 1], ops[|ops| - 1];
      assert op in ops;
      SliceRefinesMap(init);
      assert Extent(ops) >= Extent(init);
      forall i | Extent(ops) <= i < 10 ensures LastValue(ops, i) == 0 {
        assert LastValue(ops, i) == LastValue(init, i);
        assert Run(true, init).slice.backing[i] == LastValue(init, i);
      }
    }
  }

  /**
   * End to end: with these metrics in the reported state, a version-2 query that echoes its challenge and asks for
   * metrics is answered by a reply whose metrics chunk decodes to exactly the last values set, in order, uncut.
   */
  lemma MetricsReachTheWire(ops: seq<Op>, q: QueryState, cfg: Setting, s: Store, e: Event, challenge: u32, mask: byte,
                            after: seq<byte>)
    requires OnlyCalls(ops) && q.metrics == Run(true, ops).slice.Contents() && Sqp.Short(q) && Sqp.WantsMetrics(2, mask)
    requires cfg.protocol == SQP && e.Request? && e.qs == Some(q) && e.buf == SqpQuery(challenge, 2, mask, after)
    requires Holds(s, e.a, challenge)
    ensures var o := Reply(cfg, s, e);
            && o.Informed?
            && var read := DecodeFields(SqpEncoder, Sqp.ReplySchema(Sqp.WantsServerInfo(mask), true), [], o.bytes);
               && read.Some? && |read.value.0| == 10
               && read.value.0[9] == Pointer(Record([
                    Inline(Number(1, Extent(ops))),
                    Inline(Numbers(4, seq(Extent(ops), i requires 0 <= i => LastValue(ops, i))))]))
  {
    SliceRefinesMap(ops);
    ExtentIsMaximum(ops);
    assert q.metrics == seq(Extent(ops), i requires 0 <= i => LastValue(ops, i));
    SqpAnswered(cfg, s, e, challenge, 2, mask, after);
  }
}
