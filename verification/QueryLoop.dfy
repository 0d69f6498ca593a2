/**
 * The UDP loop: one zero-filled buffer, cleared and refilled for every read, always handed whole to the responder.
 * A read is a datagram, or a failure that may have left anything in the buffer. Purges in flight move beside it.
 */
module QueryLoop {
  import opened Bytes
  import opened Game
  import opened Challenges
  import opened Responder
  import opened Handshake
  import A2s

  datatype WriteResult = Written | WriteFailed | WriteClosed

  datatype ReadFailure = Closed | Timeout | SocketError

  /** `during` are the steps purges take while the loop is blocked in the read, or anywhere before its next one. */
  datatype Read =
    | Datagram(during: seq<PurgeStep>, from: Address, payload: seq<byte>, r: Readings, qs: Option<QueryState>,
               write: WriteResult)
    | Broken(during: seq<PurgeStep>, scribble: seq<byte>, failure: ReadFailure)

  /** What the loop does to the outside: replies sent, errors pushed, or the crash of the responder. */
  datatype Effect =
    | Replied(to: Address, reply: Outcome)
    | ReadErrorPushed
    | ResponseErrorPushed(error: Error)
    | WriteErrorPushed(to: Address)
    | Died

  function Cut(data: seq<byte>, size: nat): seq<byte> {
    if |data| <= size then data else data[..size]
  }

  /** The datagram, cut to the buffer, followed by zeros and nothing else. */
  function Padded(data: seq<byte>, size: nat): (b: seq<byte>)
    ensures |b| == size
    ensures forall i :: 0 <= i < size ==> b[i] == if i < |data| then data[i] else 0
  {
    Cut(data, size) + A2s.Zeros(size - |Cut(data, size)|)
  }

  // ---------------------------------------------------------------- the loop as a fold over reads

  datatype Served = Served(store: Store, trace: seq<Effect>)

  function Prefix(effects: seq<Effect>, s: Served): Served {
    Served(s.store, effects + s.trace)
  }

  /** The effect of an outcome on the outside, and whether the loop goes on. */
  function EffectOf(to: Address, o: Outcome, w: WriteResult): (seq<Effect>, bool) {
    match o
    case Failed(e) => ([ResponseErrorPushed(e)], true)
    case Crashed => ([Died], false)
    case _ =>
      match w
      case Written => ([Replied(to, o)], true)
      case WriteFailed => ([WriteErrorPushed(to)], true)
      case WriteClosed => ([], false)
  }

  function FailureEffect(f: ReadFailure): (seq<Effect>, bool) {
    match f
    case Closed => ([], false)
    case Timeout => ([], true)
    case SocketError => ([ReadErrorPushed], true)
  }

  /** One turn of the loop: the store it leaves, its effects, and whether the loop goes on. */
  datatype Turn = Turn(store: Store, effects: seq<Effect>, more: bool)

  function ServeRead(cfg: Setting, s: Store, size: nat, input: Read): Turn
    requires size >= 5
  {
    match input
    case Datagram(during, from, payload, r, qs, write) =>
      var (t, o) := Responded(cfg, Moves(s, during), from, Padded(payload, size), r, qs);
      Turn(t, EffectOf(from, o, write).0, EffectOf(from, o, write).1)
    case Broken(during, _, failure) => Turn(Moves(s, during), FailureEffect(failure).0, FailureEffect(failure).1)
  }

  function Serve(cfg: Setting, s: Store, size: nat, inputs: seq<Read>): Served
    requires size >= 5
    decreases |inputs|
  {
    if inputs == [] then Served(s, []) else
      var turn := ServeRead(cfg, s, size, inputs[0]);
      if turn.more then Prefix(turn.effects, Serve(cfg, turn.store, size, inputs[1..]))
      else Served(turn.store, turn.effects)
  }

  // ---------------------------------------------------------------- the loop over its buffer

  method Clear(buf: array<byte>)
    modifies buf
    ensures buf[..] == A2s.Zeros(buf.Length)
  {
    for i := 0 to buf.Length
      invariant forall k :: 0 <= k < i ==> buf[k] == 0
    {
      buf[i] := 0;
    }
  }

  /** What the socket does to the buffer: it overwrites a prefix and leaves the rest. */
  method ReadInto(buf: array<byte>, data: seq<byte>)
    modifies buf
    ensures buf[..] == Cut(data, buf.Length) + old(buf[..])[|Cut(data, buf.Length)|..]
  {
    var d := Cut(data, buf.Length);
    for i := 0 to |d|
      invariant forall k :: 0 <= k < i ==> buf[k] == d[k]
      invariant forall k :: i <= k < buf.Length ==> buf[k] == old(buf[k])
    {
      buf[i] := d[i];
    }
  }

  /** The body of the loop. */
  method HandleRead(responder: QueryResponder, buf: array<byte>, input: Read) returns (effects: seq<Effect>, more: bool)
    requires buf.Length >= 5
    modifies responder.base, buf
    ensures Turn(responder.base.Abs(), effects, more)
         == ServeRead(responder.cfg, old(responder.base.Abs()), buf.Length, input)
  {
    Clear(buf);
    responder.base.PurgesRun(input.during);
    match input {
      case Broken(_, scribble, failure) =>
        ReadInto(buf, scribble);
        if failure.Closed? {
          return [], false;
        }
        if failure.Timeout? {
          return [], true;
        }
        return [ReadErrorPushed], true;
      case Datagram(_, from, payload, r, qs, write) =>
        ReadInto(buf, payload);
        ClearedThenRead(payload, buf.Length);
        var o := responder.Respond(from, buf[..], r, qs);
        if o.Crashed? {
          return [Died], false;
        }
        if o.Failed? {
          return [ResponseErrorPushed(o.error)], true;
        }
        if write.Written? {
          return [Replied(from, o)], true;
        }
        if write.WriteClosed? {
          return [], false;
        }
        return [WriteErrorPushed(from)], true;
    }
  }

  /**
   * The query handler over a finite run of reads. Its trace and its effect on the store are those of the fold:
   * each call of the responder sees the current datagram and zeros, never a byte of an earlier read.
   */
  method HandleQuery(responder: QueryResponder, size: nat, inputs: seq<Read>) returns (trace: seq<Effect>)
    requires size >= 5
    modifies responder.base
    ensures Served(responder.base.Abs(), trace) == Serve(responder.cfg, old(responder.base.Abs()), size, inputs)
  {
    var buf := new byte[size];
    trace := [];
    var i := 0;
    while i < |inputs|
      invariant 0 <= i <= |inputs| && buf.Length == size
      invariant Serve(responder.cfg, old(responder.base.Abs()), size, inputs)
             == Prefix(trace, Serve(responder.cfg, responder.base.Abs(), size, inputs[i..]))
    {
      assert inputs[i..][0] == inputs[i] && inputs[i..][1..] == inputs[i + 1..];
      var effects, more := HandleRead(responder, buf, inputs[i]);
      PrefixPrefix(trace, effects, Serve(responder.cfg, responder.base.Abs(), size, inputs[i + 1..]));
      trace := trace + effects;
      if !more {
        return;
      }
      i := i + 1;
    }
  }

  lemma ClearedThenRead(data: seq<byte>, size: nat)
    ensures Cut(data, size) + A2s.Zeros(size)[|Cut(data, size)|..] == Padded(data, size)
  {
  }

  lemma PrefixPrefix(a: seq<Effect>, b: seq<Effect>, s: Served)
    ensures Prefix(a, Prefix(b, s)) == Prefix(a + b, s)
  {
    Associative(a, b, s.trace);
  }

  // ---------------------------------------------------------------- what padding changes

  /** No store, readings or state make the responder treat the two packets differently. */
  ghost predicate Alike(cfg: Setting, b1: Packet, b2: Packet) {
    forall s: Store, a: Address, r: Readings, qs: Option<QueryState> ::
      Responded(cfg, s, a, b1, r, qs) == Responded(cfg, s, a, b2, r, qs)
  }

  /** Packets of different intent are told apart by some store. */
  lemma {:induction false} IntentsDiffer(cfg: Setting, b1: Packet, b2: Packet)
    requires IntentOf(cfg, b1) != IntentOf(cfg, b2)
    ensures !Alike(cfg, b1, b2)
  {
    var stored := match IntentOf(cfg, b1) case Redeems(c) => c case _ => 0;
    var s := Store(map["" := Entry(stored, 0)], 0, []);
    var r := Readings(0, 0, 0, [], Some(0), 0);
    TellsApart(cfg, b1, b2, s, r);
    assert Responded(cfg, s, "", b1, r, None) != Responded(cfg, s, "", b2, r, None);
  }

  lemma TellsApart(cfg: Setting, b1: Packet, b2: Packet, s: Store, r: Readings)
    requires IntentOf(cfg, b1) != IntentOf(cfg, b2)
    requires r.draw.Some? && r.beside == [] && "" in s.entries
    requires IntentOf(cfg, b1).Redeems? ==> s.entries[""].value == IntentOf(cfg, b1).challenge
    ensures Responded(cfg, s, "", b1, r, None) != Responded(cfg, s, "", b2, r, None)
  {
  }

  /**
   * SQP: the packet is no query, or already has its eight bytes, or the buffer has fewer. A2S: the tail from the NUL on
   * has 2 to 4 bytes, a cut challenge, both before and after the padding or neither.
   */
  predicate PaddingSafe(cfg: Setting, d: Packet, size: nat)
    requires |d| <= size
  {
    match cfg.protocol
    case SQP => d[0] != 1 || |d| >= 8 || size < 8
    case A2S => A2s.HasHeader(d) ==>
                  var t := A2s.TailLength(d);
                  2 <= t <= 4 <==> 2 <= t + (size - |d|) <= 4
  }

  /** Handing over the whole buffer changes nothing, for any store, readings and state, exactly for these packets. */
  lemma PaddedMeansTheSame(cfg: Setting, d: Packet, size: nat)
    requires |d| <= size
    ensures Alike(cfg, Padded(d, size), d) <==> PaddingSafe(cfg, d, size)
  {
    if cfg.protocol == SQP {
      SqpPaddedIntent(cfg, d, size);
    } else {
      A2sPaddedIntent(cfg, d, size);
    }
    if IntentOf(cfg, Padded(d, size)) != IntentOf(cfg, d) {
      IntentsDiffer(cfg, Padded(d, size), d);
    } else {
      SameIntentAlike(cfg, Padded(d, size), d);
    }
  }

  /** Packets of the same intent are treated alike if SQP finds the same version and mask in them. */
  lemma SameIntentAlike(cfg: Setting, b1: Packet, b2: Packet)
    requires IntentOf(cfg, b1) == IntentOf(cfg, b2)
    requires cfg.protocol == SQP && IntentOf(cfg, b1).Redeems? ==> b1[5..7] == b2[5..7] && b1[7] == b2[7]
    ensures Alike(cfg, b1, b2)
  {
  }

  lemma A2sPaddedIntent(cfg: Setting, d: Packet, size: nat)
    requires cfg.protocol == A2S && |d| <= size
    ensures IntentOf(cfg, Padded(d, size)) == IntentOf(cfg, d) <==> PaddingSafe(cfg, d, size)
  {
    A2sIntentKept(d, size - |d|, Padded(d, size));
  }

  lemma A2sIntentKept(d: Packet, k: nat, padded: Packet)
    requires padded == d + A2s.Zeros(k)
    ensures A2sIntent(padded) == A2sIntent(d) <==>
            (A2s.HasHeader(d) ==> (2 <= A2s.TailLength(d) <= 4 <==> 2 <= A2s.TailLength(d) + k <= 4))
  {
    A2s.PaddingKeepsMeaningExactly(d, k);
    A2s.PaddedSlice(d, k, 0, 5);
    SameRefusal(d, padded);
  }

  /** The intent tells apart accepted from rejected packets, and depends on their meaning and header alone. */
  lemma SameRefusal(b1: Packet, b2: Packet)
    requires b1[..5] == b2[..5]
    requires A2s.Meaning(b1) == A2s.Meaning(b2) || A2s.Meaning(b1).Ok? != A2s.Meaning(b2).Ok?
    ensures A2sIntent(b2) == A2sIntent(b1) <==> A2s.Meaning(b2) == A2s.Meaning(b1)
  {
  }

  lemma SqpPaddedIntent(cfg: Setting, d: Packet, size: nat)
    requires cfg.protocol == SQP && |d| <= size
    ensures IntentOf(cfg, Padded(d, size)) == IntentOf(cfg, d) <==> PaddingSafe(cfg, d, size)
    ensures IntentOf(cfg, d).Redeems? ==> Padded(d, size)[5..7] == d[5..7] && Padded(d, size)[7] == d[7]
  {
    var padded := Padded(d, size);
    assert padded[..5] == d[..5] && d[..5][0] == d[0] == padded[0];
    if |d| >= 8 {
      assert padded[1..5] == d[1..5] && padded[5..7] == d[5..7];
    }
  }

  /**
   * What padding hides: with a buffer of at least eight bytes the length check of the SQP query handler never fails,
   * and a datagram of fewer than five zero bytes, even an empty one, asks for a challenge.
   */
  lemma {:induction false} ShortSqpDatagrams(cfg: Setting, d: seq<byte>, size: nat)
    requires cfg.protocol == SQP && size >= 8
    ensures IntentOf(cfg, Padded(d, size)) != Refuse(InvalidPacketLength)
    ensures |d| < 5 && (forall i :: 0 <= i < |d| ==> d[i] == 0) ==> IntentOf(cfg, Padded(d, size)) == Ask
  {
    if |d| < 5 && (forall i :: 0 <= i < |d| ==> d[i] == 0) {
      assert Padded(d, size)[..5] == [0, 0, 0, 0, 0];
    }
  }

  // ---------------------------------------------------------------- failed reads

  /** The same reads, with nothing scribbled and no socket error: every failure the loop survives is a plain timeout. */
  function Quiet(inputs: seq<Read>): seq<Read> {
    if inputs == [] then [] else
      [if inputs[0].Broken? && !inputs[0].failure.Closed? then Broken(inputs[0].during, [], Timeout) else inputs[0]]
      + Quiet(inputs[1..])
  }

  function WithoutReadErrors(trace: seq<Effect>): seq<Effect> {
    if trace == [] then [] else
      (if trace[0].ReadErrorPushed? then [] else [trace[0]]) + WithoutReadErrors(trace[1..])
  }

  lemma {:induction false} ReadErrorsSplit(a: seq<Effect>, b: seq<Effect>)
    ensures WithoutReadErrors(a + b) == WithoutReadErrors(a) + WithoutReadErrors(b)
  {
    if a == [] {
      assert a + b == b;
    } else {
      ReadErrorsSplit(a[1..], b);
      ReadErrorsHead(a[0], a[1..], a);
      ReadErrorsHead(a[0], a[1..] + b, a + b);
      Associative(WithoutReadErrors([a[0]]), WithoutReadErrors(a[1..]), WithoutReadErrors(b));
    }
  }

  lemma ReadErrorsHead(e: Effect, rest: seq<Effect>, trace: seq<Effect>)
    requires trace == [e] + rest
    ensures WithoutReadErrors(trace) == WithoutReadErrors([e]) + WithoutReadErrors(rest)
  {
    assert trace[1..] == rest && [e][1..] == [];
  }

  lemma Associative(a: seq<Effect>, b: seq<Effect>, c: seq<Effect>)
    ensures a + (b + c) == a + b + c
  {
  }

  /**
   * Timeouts and socket errors, whatever they scribble, leave every reply, response error and the store alone; only
   * the purges that move meanwhile do not.
   */
  lemma {:induction false} FailedReadsInvisible(cfg: Setting, s: Store, size: nat, inputs: seq<Read>)
    requires size >= 5
    ensures Serve(cfg, s, size, Quiet(inputs)).store == Serve(cfg, s, size, inputs).store
    ensures Serve(cfg, s, size, Quiet(inputs)).trace == WithoutReadErrors(Serve(cfg, s, size, inputs).trace)
    decreases |inputs|
  {
    if inputs != [] {
      var quiet := Quiet(inputs);
      assert quiet[1..] == Quiet(inputs[1..]);
      var turn := ServeRead(cfg, s, size, inputs[0]);
      QuietTurn(cfg, s, size, inputs[0], quiet[0]);
      if turn.more {
        FailedReadsInvisible(cfg, turn.store, size, inputs[1..]);
        ReadErrorsSplit(turn.effects, Serve(cfg, turn.store, size, inputs[1..]).trace);
      }
    }
  }

  lemma QuietTurn(cfg: Setting, s: Store, size: nat, input: Read, quiet: Read)
    requires size >= 5
    requires quiet == if input.Broken? && !input.failure.Closed? then Broken(input.during, [], Timeout) else input
    ensures var turn, turn' := ServeRead(cfg, s, size, input), ServeRead(cfg, s, size, quiet);
            turn'.store == turn.store && turn'.more == turn.more && turn'.effects == WithoutReadErrors(turn.effects)
  {
    if input.Datagram? {
      var effects := ServeRead(cfg, s, size, input).effects;
      OneNotReadError(input.from, Responded(cfg, Moves(s, input.during), input.from, Padded(input.payload, size),
                                            input.r, input.qs).1, input.write);
      assert WithoutReadErrors(effects) == effects;
    }
  }

  lemma OneNotReadError(to: Address, o: Outcome, w: WriteResult)
    ensures WithoutReadErrors(EffectOf(to, o, w).0) == EffectOf(to, o, w).0
  {
    if EffectOf(to, o, w).0 != [] {
      assert EffectOf(to, o, w).0[1..] == [];
    }
  }

  // ---------------------------------------------------------------- the loop is a run of the handshake

  /** The handshake events of one turn, and of the loop. */
  function TurnEvents(cfg: Setting, size: nat, input: Read): seq<Event>
    requires size >= 5
  {
    PurgeEvents(input.during) + (
      if input.Datagram? then RequestEvents(cfg, input.from, Padded(input.payload, size), input.r, input.qs) else [])
  }

  function LoopEvents(cfg: Setting, s: Store, size: nat, inputs: seq<Read>): seq<Event>
    requires size >= 5
    decreases |inputs|
  {
    if inputs == [] then [] else
      var turn := ServeRead(cfg, s, size, inputs[0]);
      TurnEvents(cfg, size, inputs[0]) + (if turn.more then LoopEvents(cfg, turn.store, size, inputs[1..]) else [])
  }

  /** What the outside sees of the machine's replies: each datagram takes the next one. */
  function Render(inputs: seq<Read>, replies: seq<Addressed>): seq<Effect>
    decreases |inputs|
  {
    if inputs == [] || (inputs[0].Datagram? && replies == []) then [] else
      var (effects, more) := RenderOne(inputs[0], replies);
      effects + (if more then Render(inputs[1..], Remaining(inputs[0], replies)) else [])
  }

  function RenderOne(input: Read, replies: seq<Addressed>): (seq<Effect>, bool)
    requires input.Datagram? ==> replies != []
  {
    if input.Broken? then FailureEffect(input.failure) else EffectOf(replies[0].to, replies[0].outcome, input.write)
  }

  function Remaining(input: Read, replies: seq<Addressed>): seq<Addressed>
    requires input.Datagram? ==> replies != []
  {
    if input.Broken? then replies else replies[1..]
  }

  lemma TurnIsRun(cfg: Setting, s: Store, size: nat, input: Read)
    requires size >= 5
    ensures var events, turn := TurnEvents(cfg, size, input), ServeRead(cfg, s, size, input);
            var replies := MachineReplies(cfg, s, events);
            && Resume(cfg, s, events) == turn.store
            && |replies| == (if input.Datagram? then 1 else 0)
            && RenderOne(input, replies) == (turn.effects, turn.more)
  {
    var purges := PurgeEvents(input.during);
    PurgesAreRun(cfg, s, input.during);
    if input.Datagram? {
      var s', buf := Moves(s, input.during), Padded(input.payload, size);
      var events := RequestEvents(cfg, input.from, buf, input.r, input.qs);
      RequestIsRun(cfg, s', input.from, buf, input.r, input.qs);
      ResumeConcat(cfg, s, purges, events);
      RepliesConcat(cfg, s, purges, events);
      var o := Responded(cfg, s', input.from, buf, input.r, input.qs).1;
      assert MachineReplies(cfg, s, purges + events) == [Addressed(input.from, o)];
    } else {
      assert purges + [] == purges;
    }
  }

  /** The loop performs a run of the machine: it reaches the run's store, and its trace shows the run's replies. */
  lemma {:induction false} LoopIsRun(cfg: Setting, s: Store, size: nat, inputs: seq<Read>)
    requires size >= 5
    ensures var events := LoopEvents(cfg, s, size, inputs);
            Serve(cfg, s, size, inputs) == Served(Resume(cfg, s, events), Render(inputs, MachineReplies(cfg, s, events)))
    decreases |inputs|
  {
    if inputs != [] {
      var turn, events := ServeRead(cfg, s, size, inputs[0]), TurnEvents(cfg, size, inputs[0]);
      TurnIsRun(cfg, s, size, inputs[0]);
      if turn.more {
        var rest := LoopEvents(cfg, turn.store, size, inputs[1..]);
        LoopIsRun(cfg, turn.store, size, inputs[1..]);
        ResumeConcat(cfg, s, events, rest);
        RepliesConcat(cfg, s, events, rest);
        RenderTurn(inputs, MachineReplies(cfg, s, events), MachineReplies(cfg, turn.store, rest));
      } else {
        assert events + [] == events;
      }
    }
  }

  lemma RenderTurn(inputs: seq<Read>, now: seq<Addressed>, later: seq<Addressed>)
    requires inputs != [] && |now| == if inputs[0].Datagram? then 1 else 0
    ensures var (effects, more) := RenderOne(inputs[0], now);
            Render(inputs, now + later) == effects + (if more then Render(inputs[1..], later) else [])
  {
    if inputs[0].Broken? {
      assert now + later == later;
    } else {
      assert (now + later)[1..] == later;
    }
  }

  /**
   * From a fresh store the loop's store is that of a run of the handshake machine from the start, so what holds of
   * every run, conservation and the bound on the age of entries among it, holds of the loop.
   */
  lemma LoopReachesRun(cfg: Setting, size: nat, inputs: seq<Read>)
    requires size >= 5
    ensures Serve(cfg, FRESH, size, inputs).store == After(cfg, LoopEvents(cfg, FRESH, size, inputs))
  {
    LoopIsRun(cfg, FRESH, size, inputs);
    AfterResumes(cfg, LoopEvents(cfg, FRESH, size, inputs));
  }

  // ---------------------------------------------------------------- safety at the socket

  /** The effect is the answer to a request: a reply sent, a response error, or the crash. */
  predicate IsAnswer(e: Effect) {
    e.Replied? || e.ResponseErrorPushed? || e.Died?
  }

  /** The effects after those of the first turn are rendered from the remaining reads and replies. */
  lemma RenderLater(inputs: seq<Read>, replies: seq<Addressed>, trace: seq<Effect>) returns (tail: seq<Effect>)
    requires trace == Render(inputs, replies) && trace != []
    ensures inputs != [] && (inputs[0].Datagram? ==> replies != [])
    ensures RenderOne(inputs[0], replies).0 != [] ==> RenderOne(inputs[0], replies).0[0] == trace[0]
    ensures |trace| == |RenderOne(inputs[0], replies).0| + |tail|
    ensures forall k :: |RenderOne(inputs[0], replies).0| <= k < |trace| ==>
                          trace[k] == tail[k - |RenderOne(inputs[0], replies).0|]
    ensures tail != [] ==> tail == Render(inputs[1..], Remaining(inputs[0], replies))
  {
    tail := trace[|RenderOne(inputs[0], replies).0|..];
  }

  /** Reply r, once written, shows as this effect. */
  predicate ShownBy(replies: seq<Addressed>, r: nat, e: Effect) {
    r < |replies| && EffectOf(replies[r].to, replies[r].outcome, Written).0 == [e]
  }

  function Taken(input: Read): nat {
    if input.Datagram? then 1 else 0
  }

  /** A turn has at most one effect; if it is an answer, it shows the next reply. */
  lemma OneAnswer(input: Read, replies: seq<Addressed>)
    requires input.Datagram? ==> replies != []
    ensures var effects := RenderOne(input, replies).0;
            && |effects| <= 1
            && (effects != [] && IsAnswer(effects[0]) ==> Taken(input) == 1 && ShownBy(replies, 0, effects[0]))
  {
  }

  lemma ShownLater(input: Read, replies: seq<Addressed>, r: nat, e: Effect)
    requires input.Datagram? ==> replies != []
    requires ShownBy(Remaining(input, replies), r, e)
    ensures ShownBy(replies, Taken(input) + r, e)
  {
  }

  /** Every answer rendered is one of the replies, to the address it is for. */
  lemma {:induction false} AnswerIsReply(inputs: seq<Read>, replies: seq<Addressed>, trace: seq<Effect>, n: nat)
    returns (r: nat)
    requires trace == Render(inputs, replies) && n < |trace| && IsAnswer(trace[n])
    ensures ShownBy(replies, r, trace[n])
    decreases |inputs|
  {
    var tail := RenderLater(inputs, replies, trace);
    OneAnswer(inputs[0], replies);
    var shown := |RenderOne(inputs[0], replies).0|;
    if n < shown {
      r := 0;
    } else {
      var late := AnswerIsReply(inputs[1..], Remaining(inputs[0], replies), tail, n - shown);
      ShownLater(inputs[0], replies, late, trace[n]);
      r := Taken(inputs[0]) + late;
    }
  }

  /** The effect shows that a challenge was redeemed. */
  predicate Redeemed(e: Effect) {
    (e.Replied? && e.reply.Informed?) || e.Died? || (e.ResponseErrorPushed? && e.error.UnsupportedVersion?)
  }

  /**
   * Safety at the socket: whatever datagrams, failed reads and purge steps, information that the loop sends to an
   * address is the machine's reply to a request j from that address that presents the latest challenge issued to it,
   * by event i, not attempted in between; the same goes for any other outcome past the challenge check.
   */
  lemma {:induction false} LoopRepliesAuthorised(cfg: Setting, size: nat, inputs: seq<Read>, n: nat)
    returns (i: nat, j: nat)
    requires size >= 5 && n < |Serve(cfg, FRESH, size, inputs).trace|
    requires Redeemed(Serve(cfg, FRESH, size, inputs).trace[n])
    ensures var run, e := LoopEvents(cfg, FRESH, size, inputs), Serve(cfg, FRESH, size, inputs).trace[n];
            && Authorises(cfg, run, i, j)
            && (e.Replied? ==> e.to == run[j].a && e.reply == ReplyAt(cfg, run, j))
            && (e.ResponseErrorPushed? ==> ReplyAt(cfg, run, j) == Failed(e.error))
            && (e.Died? ==> ReplyAt(cfg, run, j) == Crashed)
  {
    var run, trace := LoopEvents(cfg, FRESH, size, inputs), Serve(cfg, FRESH, size, inputs).trace;
    LoopIsRun(cfg, FRESH, size, inputs);
    var r := AnswerIsReply(inputs, MachineReplies(cfg, FRESH, run), trace, n);
    j := ShownRequest(cfg, run, r, trace[n]);
    ShowsOutcome(run[j].a, ReplyAt(cfg, run, j), trace[n]);
    i := EveryReplyAuthorised(cfg, run, j);
  }

  /** The effect of a written outcome tells the outcome and the address. */
  lemma ShowsOutcome(to: Address, o: Outcome, e: Effect)
    requires EffectOf(to, o, Written).0 == [e]
    ensures e.Replied? ==> e.to == to && e.reply == o
    ensures e.ResponseErrorPushed? ==> o == Failed(e.error)
    ensures e.Died? ==> o == Crashed
    ensures Redeemed(e) ==> Accepted(o)
  {
  }

  lemma ShownRequest(cfg: Setting, run: seq<Event>, r: nat, e: Effect) returns (j: nat)
    requires ShownBy(MachineReplies(cfg, FRESH, run), r, e)
    ensures j < |run| && run[j].Request? && EffectOf(run[j].a, ReplyAt(cfg, run, j), Written).0 == [e]
  {
    j := ReplyOrigin(cfg, FRESH, run, r);
    AfterResumes(cfg, run[..j]);
    assert ReplyTo(cfg, After(cfg, run[..j]), run[j]) == [MachineReplies(cfg, FRESH, run)[r]];
  }

  // ---------------------------------------------------------------- conservation at the socket

  /** How often information was sent to the address. */
  function InfoSent(trace: seq<Effect>, a: Address): nat {
    if trace == [] then 0 else InfoIn(trace[0], a) + InfoSent(trace[1..], a)
  }

  function InfoIn(e: Effect, a: Address): nat {
    if e.Replied? && e.to == a && e.reply.Informed? then 1 else 0
  }

  /** How many of the replies are information for the address. */
  function InfoReplies(replies: seq<Addressed>, a: Address): nat {
    if replies == [] then 0 else InfoOf(replies[0], a) + InfoReplies(replies[1..], a)
  }

  function InfoOf(r: Addressed, a: Address): nat {
    if r.to == a && r.outcome.Informed? then 1 else 0
  }

  lemma {:induction false} InfoSentSplit(xs: seq<Effect>, ys: seq<Effect>, a: Address)
    ensures InfoSent(xs + ys, a) == InfoSent(xs, a) + InfoSent(ys, a)
  {
    if xs == [] {
      assert xs + ys == ys;
    } else {
      assert (xs + ys)[1..] == xs[1..] + ys;
      InfoSentSplit(xs[1..], ys, a);
    }
  }

  lemma {:induction false} InfoRepliesSplit(xs: seq<Addressed>, ys: seq<Addressed>, a: Address)
    ensures InfoReplies(xs + ys, a) == InfoReplies(xs, a) + InfoReplies(ys, a)
  {
    if xs == [] {
      assert xs + ys == ys;
    } else {
      assert (xs + ys)[1..] == xs[1..] + ys;
      InfoRepliesSplit(xs[1..], ys, a);
    }
  }

  lemma InfoInTurn(input: Read, replies: seq<Addressed>, a: Address)
    requires input.Datagram? ==> replies != []
    ensures InfoSent(RenderOne(input, replies).0, a) + InfoReplies(Remaining(input, replies), a) <= InfoReplies(replies, a)
  {
  }

  /** Rendering shows no information that is not in the replies, and each reply at most once. */
  lemma {:induction false} InfoRendered(inputs: seq<Read>, replies: seq<Addressed>, a: Address)
    ensures InfoSent(Render(inputs, replies), a) <= InfoReplies(replies, a)
    decreases |inputs|
  {
    if !(inputs == [] || (inputs[0].Datagram? && replies == [])) {
      var (effects, more) := RenderOne(inputs[0], replies);
      var later := if more then Render(inputs[1..], Remaining(inputs[0], replies)) else [];
      InfoRendered(inputs[1..], Remaining(inputs[0], replies), a);
      InfoInTurn(inputs[0], replies, a);
      InfoSentSplit(effects, later, a);
    }
  }

  lemma {:induction false} InfoAccepted(cfg: Setting, run: seq<Event>, a: Address)
    ensures InfoReplies(MachineReplies(cfg, FRESH, run), a) <= TallyOf(cfg, run, Some(a)).accepted
  {
    if run != [] {
      var init, e := run[..|run| - 1], run[|run| - 1];
      InfoAccepted(cfg, init, a);
      AfterResumes(cfg, init);
      InfoRepliesSplit(MachineReplies(cfg, FRESH, init), ReplyTo(cfg, After(cfg, init), e), a);
      AcceptedOnce(cfg, After(cfg, init), e, a, TallyOf(cfg, init, Some(a)));
    }
  }

  lemma AcceptedOnce(cfg: Setting, s: Store, e: Event, a: Address, t: Tally)
    ensures t.accepted + InfoReplies(ReplyTo(cfg, s, e), a) <= Count(cfg, s, e, Some(a), t).accepted
  {
  }

  /**
   * Conservation at the socket: after any reads, the number of times information was sent to an address, and its
   * pending challenge if it has one, never exceed the challenges issued to it.
   */
  lemma {:induction false} InfoCostsChallenges(cfg: Setting, size: nat, inputs: seq<Read>, a: Address)
    requires size >= 5
    ensures var served := Serve(cfg, FRESH, size, inputs);
            var issued := TallyOf(cfg, LoopEvents(cfg, FRESH, size, inputs), Some(a)).issued;
            InfoSent(served.trace, a) + One(a in served.store.entries) <= issued
  {
    var run := LoopEvents(cfg, FRESH, size, inputs);
    LoopIsRun(cfg, FRESH, size, inputs);
    LoopReachesRun(cfg, size, inputs);
    InfoRendered(inputs, MachineReplies(cfg, FRESH, run), a);
    InfoAccepted(cfg, run, a);
    NeverMoreThanIssued(cfg, run, a);
  }
}
