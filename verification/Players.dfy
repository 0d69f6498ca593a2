/** The player counter: joins and leaves on a 32-bit number that saturates at zero. */
module Players {
  import opened Bytes
  import opened Wire
  import opened Game
  import opened Challenges
  import opened Responder
  import opened Handshake
  import opened Answers
  import Sqp
  import A2s

  datatype Op = Join | Leave | Assign(players: int32)

  /** 32-bit addition of one wraps at the top. */
  function Wrap(x: int): int32 {
    (x + 0x8000_0000) % 0x1_0000_0000 - 0x8000_0000
  }

  function Step(count: int32, op: Op): int32 {
    match op
    case Join => Wrap(count + 1)
    case Leave => if count > 0 then count - 1 else count
    case Assign(players) => if players < 0 then 0 else players
  }

  function Count(start: int32, ops: seq<Op>): int32 {
    if ops == [] then start else Step(Count(start, ops[..|ops| - 1]), ops[|ops| - 1])
  }

  // ---------------------------------------------------------------- the reflected walk

  predicate Walks(ops: seq<Op>) {
    forall op :: op in ops ==> !op.Assign?
  }

  function Delta(op: Op): int {
    if op.Join? then 1 else -1
  }

  /** Joins less leaves. */
  function Net(ops: seq<Op>): int {
    if ops == [] then 0 else Net(ops[..|ops| - 1]) + Delta(ops[|ops| - 1])
  }

  function Min(x: int, y: int): int {
    if x < y then x else y
  }

  /** The smallest net over all prefixes, the empty one included. */
  function Lowest(ops: seq<Op>): (low: int)
    ensures low <= 0
  {
    if ops == [] then 0 else Min(Lowest(ops[..|ops| - 1]), Net(ops))
  }

  lemma {:induction false} LowestIsMinimum(ops: seq<Op>)
    ensures forall k :: 0 <= k <= |ops| ==> Lowest(ops) <= Net(ops[..k])
    ensures exists k :: 0 <= k <= |ops| && Lowest(ops) == Net(ops[..k])
  {
    assert ops[..|ops|] == ops;
    if ops != [] {
      var init := ops[..|ops| - 1];
      LowestIsMinimum(init);
      assert forall k :: 0 <= k <= |init| ==> init[..k] == ops[..k];
    }
  }

  /** The walk reflected at zero: the net, lifted by as much as it would have gone below zero. */
  function Reflected(start: int32, ops: seq<Op>): int {
    start + Net(ops) - Min(0, start + Lowest(ops))
  }

  function Joins(ops: seq<Op>): nat {
    if ops == [] then 0 else Joins(ops[..|ops| - 1]) + if ops[|ops| - 1].Join? then 1 else 0
  }

  /** Leaves that found somebody to leave. */
  function EffectiveLeaves(start: int32, ops: seq<Op>): nat {
    if ops == [] then 0 else
      var init := ops[..|ops| - 1];
      EffectiveLeaves(start, init) + if ops[|ops| - 1].Leave? && Count(start, init) > 0 then 1 else 0
  }

  /** Below 2^31 joins the counter is the reflected walk, and every join is a player present or one who left. */
  lemma {:induction false} CounterIsReflectedWalk(start: int32, ops: seq<Op>)
    requires Walks(ops) && start >= 0 && start + Joins(ops) < 0x8000_0000
    ensures 0 <= Count(start, ops) == Reflected(start, ops) <= start + Joins(ops)
    ensures start + Joins(ops) == Count(start, ops) + EffectiveLeaves(start, ops)
  {
    if ops != [] {
      var init := ops[..|ops| - 1];
      assert ops[|ops| - 1] in ops;
      CounterIsReflectedWalk(start, init);
    }
  }

  /** At every moment of the walk. */
  predicate Follows(start: int32, ops: seq<Op>) {
    forall k :: 0 <= k <= |ops| ==> Count(start, ops[..k]) == Reflected(start, ops[..k])
  }

  predicate StaysBelow(start: int32, ops: seq<Op>) {
    forall k :: 0 <= k <= |ops| ==> Reflected(start, ops[..k]) < 0x8000_0000
  }

  /** The counter follows the reflected walk at every moment exactly as long as the walk stays below 2^31. */
  lemma {:induction false} FollowsUntilOverflow(start: int32, ops: seq<Op>)
    requires Walks(ops) && start >= 0
    ensures Follows(start, ops) <==> StaysBelow(start, ops)
    ensures Reflected(start, ops) >= 0
  {
    assert ops[..|ops|] == ops;
    if ops != [] {
      var init := ops[..|ops| - 1];
      assert ops[|ops| - 1] in ops;
      FollowsUntilOverflow(start, init);
      MomentsSplit(start, ops);
      assert init[..|init|] == init;
      WalkStep(start, ops);
    }
  }

  lemma MomentsSplit(start: int32, ops: seq<Op>)
    requires ops != []
    ensures var init := ops[..|ops| - 1];
            && (Follows(start, ops) <==> Follows(start, init) && Count(start, ops) == Reflected(start, ops))
            && (StaysBelow(start, ops) <==> StaysBelow(start, init) && Reflected(start, ops) < 0x8000_0000)
  {
    var init := ops[..|ops| - 1];
    assert ops[..|ops|] == ops;
    assert forall k :: 0 <= k <= |init| ==> init[..k] == ops[..k];
  }

  lemma WalkStep(start: int32, ops: seq<Op>)
    requires Walks(ops) && ops != []
    ensures var init := ops[..|ops| - 1];
            Reflected(start, init) >= 0 ==>
              && Reflected(start, ops) == (if ops[|ops| - 1].Join? then Reflected(start, init) + 1
                                           else if Reflected(start, init) > 0 then Reflected(start, init) - 1 else 0)
  {
    assert ops[|ops| - 1] in ops;
  }

  /** An overflowed count climbs back join by join, and leaves do nothing to it until it is above zero again. */
  lemma {:induction false} NegativeIgnoresLeaves(start: int32, ops: seq<Op>)
    requires Walks(ops) && start + Joins(ops) <= 0
    ensures Count(start, ops) == start + Joins(ops)
  {
    if ops != [] {
      assert ops[|ops| - 1] in ops;
      NegativeIgnoresLeaves(start, ops[..|ops| - 1]);
    }
  }

  // ---------------------------------------------------------------- assignments

  /** What the count restarts from: the last number assigned, a negative one counting as zero, or the start. */
  function Base(start: int32, ops: seq<Op>): int32 {
    if ops == [] then start else
      match ops[|ops| - 1]
      case Assign(players) => if players < 0 then 0 else players
      case _ => Base(start, ops[..|ops| - 1])
  }

  /** The joins and leaves since the last assignment. */
  function Since(ops: seq<Op>): seq<Op> {
    if ops == [] || ops[|ops| - 1].Assign? then [] else Since(ops[..|ops| - 1]) + [ops[|ops| - 1]]
  }

  lemma {:induction false} CountSince(start: int32, ops: seq<Op>)
    ensures Walks(Since(ops))
    ensures Count(start, ops) == Count(Base(start, ops), Since(ops))
    ensures start >= 0 ==> Base(start, ops) >= 0
  {
    if ops != [] {
      var init, op := ops[..|ops| - 1], ops[|ops| - 1];
      CountSince(start, init);
      if !op.Assign? {
        assert (Since(init) + [op])[..|Since(init)|] == Since(init);
      }
    }
  }

  lemma {:induction false} SinceAssignment(start: int32, before: seq<Op>, players: int32, walk: seq<Op>)
    requires Walks(walk)
    ensures var ops := before + [Assign(players)] + walk;
            Base(start, ops) == (if players < 0 then 0 else players) && Since(ops) == walk
    decreases |walk|
  {
    var ops := before + [Assign(players)] + walk;
    if walk != [] {
      var n := |walk| - 1;
      assert walk[n] in walk;
      SinceAssignment(start, before, players, walk[..n]);
      assert ops[..|ops| - 1] == before + [Assign(players)] + walk[..n];
    }
  }

  /**
   * An assignment forgets all that came before, an overflow included: from then on the count is the walk reflected
   * from the number assigned, as long as that stays below 2^31.
   */
  lemma {:induction false} AssignmentRestarts(start: int32, before: seq<Op>, players: int32, walk: seq<Op>)
    requires Walks(walk) && StaysBelow(if players < 0 then 0 else players, walk)
    ensures Count(start, before + [Assign(players)] + walk) == Reflected(if players < 0 then 0 else players, walk)
    ensures Reflected(if players < 0 then 0 else players, walk) >= 0
  {
    SinceAssignment(start, before, players, walk);
    CountSince(start, before + [Assign(players)] + walk);
    FollowsUntilOverflow(if players < 0 then 0 else players, walk);
    assert walk[..|walk|] == walk;
  }

  /** The count after any calls, had the counter no upper end. */
  function Expected(start: nat, ops: seq<Op>): nat {
    if ops == [] then start else
      var before := Expected(start, ops[..|ops| - 1]);
      match ops[|ops| - 1]
      case Join => before + 1
      case Leave => if before > 0 then before - 1 else 0
      case Assign(players) => if players < 0 then 0 else players
  }

  /** It is the walk since the last assignment, reflected from the number assigned. */
  lemma {:induction false} ExpectedIsReflected(start: int32, ops: seq<Op>)
    requires start >= 0
    ensures Expected(start, ops) == Reflected(Base(start, ops), Since(ops))
  {
    if ops != [] {
      var init, op := ops[..|ops| - 1], ops[|ops| - 1];
      ExpectedIsReflected(start, init);
      CountSince(start, init);
      if !op.Assign? {
        var walk := Since(init) + [op];
        assert walk[..|walk| - 1] == Since(init);
        WalkStep(Base(start, init), walk);
      }
    }
  }

  predicate AtEveryMoment(ops: seq<Op>, holds: seq<Op> -> bool) {
    forall k :: 0 <= k <= |ops| ==> holds(ops[..k])
  }

  lemma EveryMomentSplit(ops: seq<Op>, holds: seq<Op> -> bool)
    requires ops != []
    ensures AtEveryMoment(ops, holds) <==> AtEveryMoment(ops[..|ops| - 1], holds) && holds(ops)
  {
    var init := ops[..|ops| - 1];
    assert ops[..|ops|] == ops;
    assert forall k :: 0 <= k <= |init| ==> init[..k] == ops[..k];
  }

  function CountNotNegative(start: int32): seq<Op> -> bool {
    (ops: seq<Op>) => Count(start, ops) >= 0
  }

  function NoOverflow(start: nat): seq<Op> -> bool {
    (ops: seq<Op>) => Expected(start, ops) < 0x8000_0000
  }

  /** From a start that is not negative, over any calls, the count is never negative exactly if it never overflows. */
  lemma {:induction false} NegativeOnlyByOverflow(start: int32, ops: seq<Op>)
    requires start >= 0
    ensures AtEveryMoment(ops, CountNotNegative(start)) <==> AtEveryMoment(ops, NoOverflow(start))
    ensures AtEveryMoment(ops, NoOverflow(start)) ==> Count(start, ops) == Expected(start, ops)
  {
    if ops == [] {
      assert ops[..0] == ops;
    } else {
      NegativeOnlyByOverflow(start, ops[..|ops| - 1]);
      EveryMomentSplit(ops, CountNotNegative(start));
      EveryMomentSplit(ops, NoOverflow(start));
    }
  }

  // ---------------------------------------------------------------- what queries report

  /** The state holds the count reached from zero players, and the walk since the last assignment stays below 2^31. */
  predicate Reports(q: QueryState, ops: seq<Op>) {
    StaysBelow(Base(0, ops), Since(ops)) && q.currentPlayers == Count(0, ops)
  }

  lemma ReportedCount(q: QueryState, ops: seq<Op>)
    requires Reports(q, ops)
    ensures q.currentPlayers == Expected(0, ops)
  {
    CountSince(0, ops);
    ExpectedIsReflected(0, ops);
    FollowsUntilOverflow(Base(0, ops), Since(ops));
    assert Since(ops)[..|Since(ops)|] == Since(ops);
  }

  /** End to end: an SQP client that echoes its challenge and asks for server information reads the count modulo 2^16. */
  lemma CountReachesSqp(ops: seq<Op>, q: QueryState, cfg: Setting, s: Store, e: Event, challenge: u32, version: u16,
                        mask: byte, after: seq<byte>)
    requires Reports(q, ops) && Sqp.Short(q) && Sqp.WantsServerInfo(mask) && version <= 2
    requires cfg.protocol == SQP && e.Request? && e.qs == Some(q) && e.buf == SqpQuery(challenge, version, mask, after)
    requires Holds(s, e.a, challenge)
    ensures Reply(cfg, s, e).Informed?
    ensures TellsSqp(DecodeFields(SqpEncoder, Sqp.ReplySchema(true, Sqp.WantsMetrics(version, mask)), [],
                                  Reply(cfg, s, e).bytes), Expected(0, ops) % 0x1_0000)
  {
    ReportedCount(q, ops);
    SqpAnswered(cfg, s, e, challenge, version, mask, after);
    var o := Reply(cfg, s, e);
    ReportedSqpCount(challenge, |o.bytes| - 11, q, Sqp.WantsMetrics(version, mask));
  }

  /** The server-info chunk, the eighth of ten fields, begins with this count. */
  predicate TellsSqp(read: Option<(seq<Field>, seq<byte>)>, count: nat) {
    && read.Some? && |read.value.0| == 10 && read.value.1 == []
    && read.value.0[7].Pointer? && read.value.0[7].target.Record?
    && read.value.0[7].target.fields != []
    && read.value.0[7].target.fields[0] == Inline(Number(2, count))
  }

  lemma ReportedSqpCount(challenge: u32, length: nat, q: QueryState, metrics: bool)
    ensures TellsSqp(Some((Sqp.ReportedFields(challenge, length, q, true, metrics), [])), q.currentPlayers % 0x1_0000)
  {
  }

  lemma ReportedA2sCount(platform: A2s.Platform, q: QueryState)
    ensures |A2s.ReportedFields(platform, q)| == 15
    ensures A2s.ReportedFields(platform, q)[7] == Inline(Number(1, q.currentPlayers % 256))
  {
  }

  /** An A2S client that echoes its challenge reads it modulo 2^8. */
  lemma CountReachesA2s(ops: seq<Op>, q: QueryState, cfg: Setting, s: Store, e: Event, payload: seq<byte>,
                        challenge: u32, after: seq<byte>)
    requires Reports(q, ops) && A2s.NulFree(q)
    requires cfg.protocol == A2S && e.Request? && e.qs == Some(q)
    requires e.buf == A2s.PrintRequest(payload, challenge) + after && 0 !in payload && challenge != 0
    requires Holds(s, e.a, challenge)
    ensures var o := Reply(cfg, s, e);
            && o.Informed?
            && var read := DecodeFields(A2sEncoder, A2s.INFO_SCHEMA, [], o.bytes);
               && read.Some? && |read.value.0| == 15 && read.value.1 == []
               && read.value.0[7] == Inline(Number(1, Expected(0, ops) % 256))
  {
    ReportedCount(q, ops);
    ReportedA2sCount(cfg.platform, q);
    A2sAnswered(cfg, s, e, payload, challenge, after);
  }
}
