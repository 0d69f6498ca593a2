/**
 * What a client sees of the loop, read by read: every reply the machine gives to a datagram is sent, errors are pushed,
 * and the loop ends for the reasons given and no others. From there, that an echoed challenge is answered.
 */
module Socket {
  import opened Bytes
  import opened Game
  import opened Challenges
  import opened Responder
  import opened Handshake
  import opened Answers
  import opened Echoes
  import opened QueryLoop
  import A2s
  import Sqp

  // ---------------------------------------------------------------- the machine, read by read

  /** The machine's events of a read up to, and without, the store access of its request. */
  function Preceding(cfg: Setting, size: nat, input: Read): seq<Event>
    requires size >= 5
  {
    PurgeEvents(input.during) + (if input.Datagram? then BeforeAccess(cfg, Padded(input.payload, size), input.r) else [])
  }

  function RequestOf(size: nat, input: Read): Event
    requires size >= 5 && input.Datagram?
  {
    Request(input.from, Padded(input.payload, size), input.r.draw, input.r.now, input.qs)
  }

  /** The machine's reply to a datagram read on this store. */
  function OutcomeOfRead(cfg: Setting, s: Store, size: nat, input: Read): Outcome
    requires size >= 5 && input.Datagram?
  {
    Reply(cfg, Resume(cfg, s, Preceding(cfg, size, input)), RequestOf(size, input))
  }

  /** The events of all the reads, one after the other. */
  function EventsOf(cfg: Setting, size: nat, inputs: seq<Read>): seq<Event>
    requires size >= 5
  {
    if inputs == [] then [] else TurnEvents(cfg, size, inputs[0]) + EventsOf(cfg, size, inputs[1..])
  }

  /** The store on which read k is made. */
  function StoreAt(cfg: Setting, s: Store, size: nat, inputs: seq<Read>, k: nat): Store
    requires size >= 5 && k <= |inputs|
    decreases k
  {
    if k == 0 then s else
      StoreAt(cfg, Resume(cfg, s, TurnEvents(cfg, size, inputs[0])), size, inputs[1..], k - 1)
  }

  lemma TurnSplits(cfg: Setting, size: nat, input: Read)
    requires size >= 5
    ensures TurnEvents(cfg, size, input)
         == Preceding(cfg, size, input) + (if input.Datagram? then [RequestOf(size, input)] else [])
  {
  }

  lemma {:induction false} EventsOfConcat(cfg: Setting, size: nat, xs: seq<Read>, ys: seq<Read>)
    requires size >= 5
    ensures EventsOf(cfg, size, xs + ys) == EventsOf(cfg, size, xs) + EventsOf(cfg, size, ys)
  {
    if xs == [] {
      assert xs + ys == ys;
    } else {
      EventsOfConcat(cfg, size, xs[1..], ys);
      EventsOfCons(cfg, size, xs + ys, xs[0], xs[1..] + ys);
      AppendAssociative(TurnEvents(cfg, size, xs[0]), EventsOf(cfg, size, xs[1..]), EventsOf(cfg, size, ys));
    }
  }

  lemma AppendAssociative(a: seq<Event>, b: seq<Event>, c: seq<Event>)
    ensures a + (b + c) == a + b + c
  {
  }

  /** That store is the one the machine reaches by the events of the reads before. */
  lemma {:induction false} StoreAtIsRun(cfg: Setting, s: Store, size: nat, inputs: seq<Read>, k: nat)
    requires size >= 5 && k <= |inputs|
    ensures StoreAt(cfg, s, size, inputs, k) == Resume(cfg, s, EventsOf(cfg, size, inputs[..k]))
    decreases k
  {
    if k > 0 {
      StoreAtIsRun(cfg, Resume(cfg, s, TurnEvents(cfg, size, inputs[0])), size, inputs[1..], k - 1);
      ResumeTake(cfg, s, size, inputs, k);
    }
  }

  lemma ResumeTake(cfg: Setting, s: Store, size: nat, inputs: seq<Read>, k: nat)
    requires size >= 5 && 1 <= k <= |inputs|
    ensures Resume(cfg, s, EventsOf(cfg, size, inputs[..k]))
         == Resume(cfg, Resume(cfg, s, TurnEvents(cfg, size, inputs[0])), EventsOf(cfg, size, inputs[1..][..k - 1]))
  {
    EventsOfTake(cfg, size, inputs, k);
    ResumeConcat(cfg, s, TurnEvents(cfg, size, inputs[0]), EventsOf(cfg, size, inputs[1..][..k - 1]));
  }

  lemma EventsOfTake(cfg: Setting, size: nat, inputs: seq<Read>, n: nat)
    requires size >= 5 && 1 <= n <= |inputs|
    ensures EventsOf(cfg, size, inputs[..n])
         == TurnEvents(cfg, size, inputs[0]) + EventsOf(cfg, size, inputs[1..][..n - 1])
  {
    EventsOfCons(cfg, size, inputs[..n], inputs[0], inputs[1..][..n - 1]);
  }

  lemma EventsOfCons(cfg: Setting, size: nat, inputs: seq<Read>, first: Read, rest: seq<Read>)
    requires size >= 5 && inputs == [first] + rest
    ensures EventsOf(cfg, size, inputs) == TurnEvents(cfg, size, first) + EventsOf(cfg, size, rest)
  {
    assert inputs[1..] == rest;
  }

  // ---------------------------------------------------------------- what one read does to the outside

  /** The outcomes that are bytes to send. */
  predicate Sendable(o: Outcome) {
    o.Challenged? || o.Informed?
  }

  /** The loop ends when it finds the binding closed, in a read or in writing a reply, and when the responder crashes. */
  predicate Stops(cfg: Setting, s: Store, size: nat, input: Read)
    requires size >= 5
  {
    match input
    case Broken(_, _, failure) => failure.Closed?
    case Datagram(_, _, _, _, _, write) =>
      var o := OutcomeOfRead(cfg, s, size, input);
      o.Crashed? || (Sendable(o) && write.WriteClosed?)
  }

  /** A datagram: its reply is sent, or else the error of the write is pushed; a response error is pushed. */
  predicate DatagramSays(from: Address, o: Outcome, write: WriteResult, effects: seq<Effect>) {
    && (Sendable(o) && write.Written? ==> effects == [Replied(from, o)])
    && (Sendable(o) && write.WriteFailed? ==> effects == [WriteErrorPushed(from)])
    && (Sendable(o) && write.WriteClosed? ==> effects == [])
    && (o.Failed? ==> effects == [ResponseErrorPushed(o.error)])
    && (o.Crashed? ==> effects == [Died])
  }

  /** A failed read: a socket error is pushed, a timeout and the closed binding are silent. */
  predicate Says(cfg: Setting, s: Store, size: nat, input: Read, effects: seq<Effect>)
    requires size >= 5
  {
    match input
    case Broken(_, _, failure) => effects == if failure.SocketError? then [ReadErrorPushed] else []
    case Datagram(_, from, _, _, _, write) => DatagramSays(from, OutcomeOfRead(cfg, s, size, input), write, effects)
  }

  lemma TurnReply(cfg: Setting, s: Store, size: nat, input: Read)
    requires size >= 5 && input.Datagram?
    ensures MachineReplies(cfg, s, TurnEvents(cfg, size, input))
         == [Addressed(input.from, OutcomeOfRead(cfg, s, size, input))]
  {
    var before, request := Preceding(cfg, size, input), RequestOf(size, input);
    TurnIsRun(cfg, s, size, input);
    TurnSplits(cfg, size, input);
    assert (before + [request])[..|before|] == before;
    RepliesLast(cfg, s, before + [request], before);
  }

  lemma TurnSays(cfg: Setting, s: Store, size: nat, input: Read)
    requires size >= 5
    ensures var turn := ServeRead(cfg, s, size, input);
            && turn.store == Resume(cfg, s, TurnEvents(cfg, size, input))
            && Says(cfg, s, size, input, turn.effects)
            && (turn.more <==> !Stops(cfg, s, size, input))
  {
    TurnIsRun(cfg, s, size, input);
    if input.Datagram? {
      TurnReply(cfg, s, size, input);
      EffectSays(input.from, OutcomeOfRead(cfg, s, size, input), input.write);
    }
  }

  lemma EffectSays(from: Address, o: Outcome, write: WriteResult)
    ensures DatagramSays(from, o, write, EffectOf(from, o, write).0)
    ensures EffectOf(from, o, write).1 <==> !(o.Crashed? || (Sendable(o) && write.WriteClosed?))
  {
  }

  // ---------------------------------------------------------------- what the loop does to the outside

  function Flatten(parts: seq<seq<Effect>>): seq<Effect> {
    if parts == [] then [] else parts[0] + Flatten(parts[1..])
  }

  /** How many reads the loop makes: up to and with the first that stops it. */
  function ReadsMade(cfg: Setting, s: Store, size: nat, inputs: seq<Read>): (n: nat)
    requires size >= 5
    ensures n <= |inputs|
    decreases |inputs|
  {
    if inputs == [] then 0
    else if Stops(cfg, s, size, inputs[0]) then 1
    else 1 + ReadsMade(cfg, Resume(cfg, s, TurnEvents(cfg, size, inputs[0])), size, inputs[1..])
  }

  /** The loop makes these reads and no more: it stops where it must, and nowhere else. */
  predicate Reaches(cfg: Setting, s: Store, size: nat, inputs: seq<Read>, n: nat)
    requires size >= 5
  {
    && n <= |inputs|
    && (forall k :: 0 <= k < n - 1 ==> !Stops(cfg, StoreAt(cfg, s, size, inputs, k), size, inputs[k]))
    && (n < |inputs| ==> n > 0 && Stops(cfg, StoreAt(cfg, s, size, inputs, n - 1), size, inputs[n - 1]))
  }

  /** Each part of the trace is what its read does to the outside. */
  predicate Told(cfg: Setting, s: Store, size: nat, inputs: seq<Read>, parts: seq<seq<Effect>>)
    requires size >= 5 && |parts| <= |inputs|
  {
    forall k :: 0 <= k < |parts| ==> Says(cfg, StoreAt(cfg, s, size, inputs, k), size, inputs[k], parts[k])
  }

  /**
   * Over any reads the trace is, read by read, exactly what the machine's reply and the result of the write, or the
   * failure of the read, call for, up to the first read that stops the loop; and the store is that of the machine.
   */
  lemma {:induction false} LoopTurns(cfg: Setting, s: Store, size: nat, inputs: seq<Read>)
    returns (parts: seq<seq<Effect>>)
    requires size >= 5
    ensures |parts| == ReadsMade(cfg, s, size, inputs)
    ensures Reaches(cfg, s, size, inputs, |parts|) && Told(cfg, s, size, inputs, parts)
    ensures Serve(cfg, s, size, inputs).trace == Flatten(parts)
    ensures Serve(cfg, s, size, inputs).store == StoreAt(cfg, s, size, inputs, |parts|)
    decreases |inputs|
  {
    if inputs == [] {
      parts := [];
    } else {
      var turn := ServeRead(cfg, s, size, inputs[0]);
      TurnSays(cfg, s, size, inputs[0]);
      if turn.more {
        var rest := LoopTurns(cfg, turn.store, size, inputs[1..]);
        parts := [turn.effects] + rest;
        FirstTurnGoesOn(cfg, s, turn.store, size, inputs, turn.effects, rest);
      } else {
        parts := [turn.effects];
        assert parts[1..] == [];
      }
    }
  }

  lemma FirstTurnGoesOn(cfg: Setting, s: Store, t: Store, size: nat, inputs: seq<Read>, first: seq<Effect>,
                        rest: seq<seq<Effect>>)
    requires size >= 5 && inputs != []
    requires t == Resume(cfg, s, TurnEvents(cfg, size, inputs[0]))
    requires Says(cfg, s, size, inputs[0], first) && !Stops(cfg, s, size, inputs[0])
    requires Reaches(cfg, t, size, inputs[1..], |rest|) && Told(cfg, t, size, inputs[1..], rest)
    ensures Reaches(cfg, s, size, inputs, |rest| + 1) && Told(cfg, s, size, inputs, [first] + rest)
    ensures StoreAt(cfg, s, size, inputs, |rest| + 1) == StoreAt(cfg, t, size, inputs[1..], |rest|)
    ensures Flatten([first] + rest) == first + Flatten(rest)
  {
    forall k | 1 <= k <= |inputs| ensures StoreAt(cfg, s, size, inputs, k) == StoreAt(cfg, t, size, inputs[1..], k - 1) {
    }
    assert ([first] + rest)[1..] == rest;
  }

  /** The run that the loop performs is that of the reads it makes. */
  lemma {:induction false} LoopEventsReached(cfg: Setting, s: Store, size: nat, inputs: seq<Read>)
    requires size >= 5
    ensures LoopEvents(cfg, s, size, inputs) == EventsOf(cfg, size, inputs[..ReadsMade(cfg, s, size, inputs)])
    decreases |inputs|
  {
    if inputs != [] {
      LoopEventsCons(cfg, s, size, inputs);
      EventsOfTake(cfg, size, inputs, ReadsMade(cfg, s, size, inputs));
      if !Stops(cfg, s, size, inputs[0]) {
        LoopEventsReached(cfg, Resume(cfg, s, TurnEvents(cfg, size, inputs[0])), size, inputs[1..]);
      }
    }
  }

  lemma LoopEventsCons(cfg: Setting, s: Store, size: nat, inputs: seq<Read>)
    requires size >= 5 && inputs != []
    ensures LoopEvents(cfg, s, size, inputs)
         == TurnEvents(cfg, size, inputs[0]) + (
              if Stops(cfg, s, size, inputs[0]) then []
              else LoopEvents(cfg, Resume(cfg, s, TurnEvents(cfg, size, inputs[0])), size, inputs[1..]))
  {
    TurnSays(cfg, s, size, inputs[0]);
  }

  // ---------------------------------------------------------------- the replies sent

  /** The replies in a trace, in order. */
  function Sent(trace: seq<Effect>): seq<Addressed> {
    if trace == [] then [] else
      (if trace[0].Replied? then [Addressed(trace[0].to, trace[0].reply)] else []) + Sent(trace[1..])
  }

  /** The challenges and information that the machine has for the first n reads and that are written, in order. */
  function Deliverable(cfg: Setting, s: Store, size: nat, inputs: seq<Read>, n: nat): seq<Addressed>
    requires size >= 5 && n <= |inputs|
  {
    Join(seq(n, k requires 0 <= k < n => DeliverableOne(cfg, StoreAt(cfg, s, size, inputs, k), size, inputs[k])))
  }

  function Join(replies: seq<seq<Addressed>>): seq<Addressed> {
    if replies == [] then [] else replies[0] + Join(replies[1..])
  }

  function DeliverableOne(cfg: Setting, s: Store, size: nat, input: Read): seq<Addressed>
    requires size >= 5
  {
    if input.Datagram? && input.write.Written? && Sendable(OutcomeOfRead(cfg, s, size, input))
    then [Addressed(input.from, OutcomeOfRead(cfg, s, size, input))]
    else []
  }

  lemma {:induction false} SentConcat(xs: seq<Effect>, ys: seq<Effect>)
    ensures Sent(xs + ys) == Sent(xs) + Sent(ys)
  {
    if xs == [] {
      assert xs + ys == ys;
    } else {
      SentConcat(xs[1..], ys);
      SentHead(xs[0], xs[1..], xs);
      SentHead(xs[0], xs[1..] + ys, xs + ys);
      Handshake.Associative(Sent([xs[0]]), Sent(xs[1..]), Sent(ys));
    }
  }

  lemma SentHead(e: Effect, rest: seq<Effect>, trace: seq<Effect>)
    requires trace == [e] + rest
    ensures Sent(trace) == Sent([e]) + Sent(rest)
  {
    assert trace[1..] == rest && [e][1..] == [];
  }

  lemma {:induction false} SentParts(parts: seq<seq<Effect>>, replies: seq<seq<Addressed>>)
    requires |parts| == |replies| && forall k :: 0 <= k < |parts| ==> Sent(parts[k]) == replies[k]
    ensures Sent(Flatten(parts)) == Join(replies)
  {
    if parts != [] {
      SentParts(parts[1..], replies[1..]);
      SentConcat(parts[0], Flatten(parts[1..]));
    }
  }

  lemma {:induction false} FlattenSnoc(parts: seq<seq<Effect>>, last: seq<Effect>)
    ensures Flatten(parts + [last]) == Flatten(parts) + last
  {
    if parts == [] {
      assert [last][1..] == [] && parts + [last] == [last];
    } else {
      assert (parts + [last])[1..] == parts[1..] + [last];
      FlattenSnoc(parts[1..], last);
    }
  }

  lemma SaysSent(cfg: Setting, s: Store, size: nat, input: Read, effects: seq<Effect>)
    requires size >= 5 && Says(cfg, s, size, input, effects)
    ensures Sent(effects) == DeliverableOne(cfg, s, size, input)
  {
    assert effects != [] ==> effects[1..] == [];
  }

  /** What the loop sends is exactly what the machine replies to the reads it makes, where it can be written, in order. */
  lemma {:induction false} LoopSendsExactly(cfg: Setting, s: Store, size: nat, inputs: seq<Read>)
    requires size >= 5
    ensures Reaches(cfg, s, size, inputs, ReadsMade(cfg, s, size, inputs))
    ensures Sent(Serve(cfg, s, size, inputs).trace)
         == Deliverable(cfg, s, size, inputs, ReadsMade(cfg, s, size, inputs))
  {
    var parts := LoopTurns(cfg, s, size, inputs);
    var n := |parts|;
    var replies := seq(n, k requires 0 <= k < n => DeliverableOne(cfg, StoreAt(cfg, s, size, inputs, k), size, inputs[k]));
    forall k | 0 <= k < n ensures Sent(parts[k]) == replies[k] {
      SaysSent(cfg, StoreAt(cfg, s, size, inputs, k), size, inputs[k], parts[k]);
    }
    SentParts(parts, replies);
  }

  // ---------------------------------------------------------------- an echoed challenge is answered

  /** The one effect of a read has its place in the trace, before those of later reads. */
  lemma {:induction false} PlaceOf(parts: seq<seq<Effect>>, k: nat) returns (p: nat)
    requires k < |parts| && |parts[k]| == 1
    ensures p < |Flatten(parts)| && Flatten(parts)[p] == parts[k][0] && p == |Flatten(parts[..k])|
    decreases k
  {
    if k == 0 {
      p := 0;
    } else {
      var q := PlaceOf(parts[1..], k - 1);
      p := |parts[0]| + q;
      assert parts[..k][1..] == parts[1..][..k - 1];
    }
  }

  lemma {:induction false} PlacesGrow(parts: seq<seq<Effect>>, k: nat, l: nat)
    requires k < l <= |parts| && |parts[k]| == 1
    ensures |Flatten(parts[..k])| < |Flatten(parts[..l])|
    decreases l
  {
    assert parts[..l] == parts[..l - 1] + [parts[l - 1]];
    FlattenSnoc(parts[..l - 1], parts[l - 1]);
    if k < l - 1 {
      PlacesGrow(parts, k, l - 1);
    }
  }

  /** A datagram that fits the buffer and is an echo is an echo still when padded. */
  lemma EchoPadded(cfg: Setting, reply: seq<byte>, payload: seq<byte>, version: u16, mask: byte, size: nat)
    returns (after: seq<byte>)
    requires |reply| == if cfg.protocol == SQP then 5 else 9
    requires |Echo(cfg, reply, payload, version, mask, [])| <= size
    ensures Padded(Echo(cfg, reply, payload, version, mask, []), size) == Echo(cfg, reply, payload, version, mask, after)
  {
    var echo := Echo(cfg, reply, payload, version, mask, []);
    after := A2s.Zeros(size - |echo|);
    assert echo + after == Echo(cfg, reply, payload, version, mask, after);
  }

  predicate SilentFrom(inputs: seq<Read>, a: Address) {
    forall k :: 0 <= k < |inputs| ==> !(inputs[k].Datagram? && inputs[k].from == a)
  }

  lemma PrecedingIsSilent(cfg: Setting, size: nat, input: Read, a: Address)
    requires size >= 5
    ensures NoRequestFrom(Preceding(cfg, size, input), a)
    ensures !(input.Datagram? && input.from == a) ==> NoRequestFrom(TurnEvents(cfg, size, input), a)
  {
    var before := Preceding(cfg, size, input);
    assert NoRequestFrom(before, a);
    TurnSplits(cfg, size, input);
    if input.Datagram? {
      SilentSnoc(before, RequestOf(size, input), a);
    } else {
      assert before + [] == before;
    }
  }

  lemma SilentSnoc(events: seq<Event>, e: Event, a: Address)
    requires NoRequestFrom(events, a) && e.Request?
    ensures e.a != a ==> NoRequestFrom(events + [e], a)
  {
  }

  lemma {:induction false} NoRequests(cfg: Setting, size: nat, inputs: seq<Read>, a: Address)
    requires size >= 5 && SilentFrom(inputs, a)
    ensures NoRequestFrom(EventsOf(cfg, size, inputs), a)
  {
    if inputs != [] {
      PrecedingIsSilent(cfg, size, inputs[0], a);
      NoRequests(cfg, size, inputs[1..], a);
    }
  }

  /** No request for a challenge among the reads launches a purge with a later epoch. */
  predicate EpochsUpTo(cfg: Setting, size: nat, inputs: seq<Read>, bound: nat)
    requires size >= 5
  {
    forall k :: 0 <= k < |inputs| ==> EpochUpTo(cfg, size, inputs[k], bound)
  }

  predicate EpochUpTo(cfg: Setting, size: nat, input: Read, bound: nat)
    requires size >= 5
  {
    input.Datagram? && IntentOf(cfg, Padded(input.payload, size)).Ask? ==> input.r.epoch <= bound
  }

  predicate Begun(events: seq<Event>, bound: nat) {
    forall k :: 0 <= k < |events| && events[k].Begin? ==> events[k].epoch <= bound
  }

  lemma PrecedingBegins(cfg: Setting, size: nat, input: Read, bound: nat)
    requires size >= 5 && EpochUpTo(cfg, size, input, bound)
    ensures Begun(Preceding(cfg, size, input), bound)
  {
  }

  lemma TurnBegins(cfg: Setting, size: nat, input: Read, bound: nat)
    requires size >= 5 && EpochUpTo(cfg, size, input, bound)
    ensures Begun(TurnEvents(cfg, size, input), bound)
  {
    PrecedingBegins(cfg, size, input, bound);
    TurnSplits(cfg, size, input);
    if input.Datagram? {
      BegunSnoc(Preceding(cfg, size, input), RequestOf(size, input), bound);
    } else {
      assert Preceding(cfg, size, input) + [] == Preceding(cfg, size, input);
    }
  }

  lemma BegunSnoc(events: seq<Event>, e: Event, bound: nat)
    requires Begun(events, bound) && !e.Begin?
    ensures Begun(events + [e], bound)
  {
  }

  lemma {:induction false} EventsBegin(cfg: Setting, size: nat, inputs: seq<Read>, bound: nat)
    requires size >= 5 && EpochsUpTo(cfg, size, inputs, bound)
    ensures Begun(EventsOf(cfg, size, inputs), bound)
  {
    if inputs != [] {
      TurnBegins(cfg, size, inputs[0], bound);
      EventsBegin(cfg, size, inputs[1..], bound);
    }
  }

  /** A datagram that asks for a challenge, gets one and has its reply written. */
  predicate AskRead(cfg: Setting, size: nat, ask: Read)
    requires size >= 5
  {
    && ask.Datagram? && ask.r.draw.Some? && ask.write.Written?
    && IntentOf(cfg, Padded(ask.payload, size)).Ask?
  }

  /** A datagram that echoes the reply to it, whole, and has its own reply written. */
  predicate EchoRead(cfg: Setting, size: nat, ask: Read, echo: Read, payload: seq<byte>, version: u16, mask: byte)
    requires size >= 5 && AskRead(cfg, size, ask)
  {
    && echo.Datagram? && echo.from == ask.from && echo.write.Written?
    && 0 !in payload && |echo.payload| <= size
    && echo.payload == Echo(cfg, ChallengeReply(cfg, ask.r.draw.value), payload, version, mask, [])
  }

  /** What the echo needs besides its challenge: one that A2S can carry, and for SQP a version and a state to serve it. */
  predicate Servable(cfg: Setting, challenge: u32, version: u16, mask: byte, qs: Option<QueryState>) {
    match cfg.protocol
    case A2S => challenge != 0
    case SQP => version <= 2 && (Sqp.WantsMetrics(version, mask) ==> qs.Some?)
  }

  /** The run of the machine up to the issue of read m, and from there up to the request of read j. */
  function RunBefore(cfg: Setting, size: nat, inputs: seq<Read>, m: nat): seq<Event>
    requires size >= 5 && m < |inputs|
  {
    EventsOf(cfg, size, inputs[..m]) + Preceding(cfg, size, inputs[m])
  }

  function RunBetween(cfg: Setting, size: nat, inputs: seq<Read>, m: nat, j: nat): seq<Event>
    requires size >= 5 && m < j < |inputs|
  {
    EventsOf(cfg, size, inputs[m + 1..j]) + Preceding(cfg, size, inputs[j])
  }

  lemma RunsJoin(cfg: Setting, size: nat, inputs: seq<Read>, m: nat, j: nat)
    requires size >= 5 && m < j < |inputs| && inputs[m].Datagram?
    ensures RunBefore(cfg, size, inputs, j)
         == RunBefore(cfg, size, inputs, m) + [RequestOf(size, inputs[m])] + RunBetween(cfg, size, inputs, m, j)
  {
    var first, rest := inputs[..m], inputs[m + 1..j];
    assert inputs[..j] == first + ([inputs[m]] + rest);
    EventsOfConcat(cfg, size, first, [inputs[m]] + rest);
    assert ([inputs[m]] + rest)[1..] == rest;
    TurnSplits(cfg, size, inputs[m]);
    JoinFive(EventsOf(cfg, size, first), Preceding(cfg, size, inputs[m]), [RequestOf(size, inputs[m])],
             EventsOf(cfg, size, rest), Preceding(cfg, size, inputs[j]));
  }

  lemma JoinFive(a: seq<Event>, b: seq<Event>, c: seq<Event>, d: seq<Event>, e: seq<Event>)
    ensures (a + ((b + c) + d)) + e == (a + b) + c + (d + e)
  {
  }

  lemma OutcomeInRun(cfg: Setting, size: nat, inputs: seq<Read>, k: nat)
    requires size >= 5 && k < |inputs| && inputs[k].Datagram?
    ensures OutcomeOfRead(cfg, StoreAt(cfg, FRESH, size, inputs, k), size, inputs[k])
         == Reply(cfg, After(cfg, RunBefore(cfg, size, inputs, k)), RequestOf(size, inputs[k]))
  {
    StoreAtIsRun(cfg, FRESH, size, inputs, k);
    ResumeConcat(cfg, FRESH, EventsOf(cfg, size, inputs[..k]), Preceding(cfg, size, inputs[k]));
    AfterResumes(cfg, RunBefore(cfg, size, inputs, k));
  }

  /** Nobody else uses the address between reads m and j, and no purge can take the challenge of read m. */
  predicate Undisturbed(cfg: Setting, size: nat, inputs: seq<Read>, m: nat, j: nat)
    requires size >= 5 && m < j < |inputs| && inputs[m].Datagram?
  {
    && SilentFrom(inputs[m + 1..j], inputs[m].from)
    && EpochsUpTo(cfg, size, inputs[..j + 1], inputs[m].r.now + 60_000_000_000)
    && var purges := After(cfg, RunBefore(cfg, size, inputs, m)).purges;
       forall p :: 0 <= p < |purges| ==> purges[p].marked != Some(inputs[m].from)
  }

  /** The machine hands out the challenge, and answers the echo. */
  lemma MachineAnswersEcho(cfg: Setting, size: nat, inputs: seq<Read>, m: nat, j: nat, payload: seq<byte>,
                           version: u16, mask: byte)
    requires size >= 5 && m < j < |inputs|
    requires AskRead(cfg, size, inputs[m]) && EchoRead(cfg, size, inputs[m], inputs[j], payload, version, mask)
    requires Servable(cfg, inputs[m].r.draw.value, version, mask, inputs[j].qs) && Undisturbed(cfg, size, inputs, m, j)
    ensures OutcomeOfRead(cfg, StoreAt(cfg, FRESH, size, inputs, m), size, inputs[m])
         == Challenged(ChallengeReply(cfg, inputs[m].r.draw.value))
    ensures var o := OutcomeOfRead(cfg, StoreAt(cfg, FRESH, size, inputs, j), size, inputs[j]);
            o.Informed? && AnsweredAs(cfg, o, inputs[m].r.draw.value, version, mask, inputs[j].qs)
  {
    var ask, echo := RequestOf(size, inputs[m]), RequestOf(size, inputs[j]);
    var run, mid := RunBefore(cfg, size, inputs, m), RunBetween(cfg, size, inputs, m, j);
    OutcomeInRun(cfg, size, inputs, m);
    OutcomeInRun(cfg, size, inputs, j);
    RunsJoin(cfg, size, inputs, m, j);
    OtherOutcome(cfg, After(cfg, run), ask);
    BetweenIsSilent(cfg, size, inputs, m, j);
    RunsBegin(cfg, size, inputs, m, j, ask.now + MINUTE);
    var after := EchoPadded(cfg, ChallengeReply(cfg, ask.draw.value), payload, version, mask, size);
    EchoAnswered(cfg, run, ask, mid, echo, payload, version, mask, after);
  }

  lemma BetweenIsSilent(cfg: Setting, size: nat, inputs: seq<Read>, m: nat, j: nat)
    requires size >= 5 && m < j < |inputs| && inputs[m].Datagram? && SilentFrom(inputs[m + 1..j], inputs[m].from)
    ensures NoRequestFrom(RunBetween(cfg, size, inputs, m, j), inputs[m].from)
  {
    NoRequests(cfg, size, inputs[m + 1..j], inputs[m].from);
    PrecedingIsSilent(cfg, size, inputs[j], inputs[m].from);
  }

  lemma RunsBegin(cfg: Setting, size: nat, inputs: seq<Read>, m: nat, j: nat, bound: nat)
    requires size >= 5 && m < j < |inputs| && EpochsUpTo(cfg, size, inputs[..j + 1], bound)
    ensures forall e :: e in RunBefore(cfg, size, inputs, m) + RunBetween(cfg, size, inputs, m, j) && e.Begin? ==>
                          e.epoch <= bound
  {
    var all := inputs[..j + 1];
    assert all[m] == inputs[m] && all[j] == inputs[j];
    assert all[..m] == inputs[..m] && all[m + 1..j] == inputs[m + 1..j];
    EventsBegin(cfg, size, inputs[..m], bound);
    PrecedingBegins(cfg, size, inputs[m], bound);
    EventsBegin(cfg, size, inputs[m + 1..j], bound);
    PrecedingBegins(cfg, size, inputs[j], bound);
  }

  lemma SaysReply(cfg: Setting, s: Store, size: nat, inputs: seq<Read>, parts: seq<seq<Effect>>, k: nat)
    requires size >= 5 && k < |parts| <= |inputs| && Told(cfg, s, size, inputs, parts)
    requires inputs[k].Datagram? && inputs[k].write.Written?
    requires Sendable(OutcomeOfRead(cfg, StoreAt(cfg, s, size, inputs, k), size, inputs[k]))
    ensures parts[k]
         == [Replied(inputs[k].from, OutcomeOfRead(cfg, StoreAt(cfg, s, size, inputs, k), size, inputs[k]))]
  {
    assert Says(cfg, StoreAt(cfg, s, size, inputs, k), size, inputs[k], parts[k]);
  }

  /**
   * Completeness at the socket: if a client asks, is sent its challenge and echoes it, undisturbed, and the loop gets
   * as far as reading the echo, then both replies are in the trace, the information after the challenge, and the
   * information is that of the state the server then reports.
   */
  lemma {:induction false} EchoReachesClient(cfg: Setting, size: nat, inputs: seq<Read>, m: nat, j: nat,
                                             payload: seq<byte>, version: u16, mask: byte)
    returns (p: nat, q: nat)
    requires size >= 5 && m < j < |inputs|
    requires AskRead(cfg, size, inputs[m]) && EchoRead(cfg, size, inputs[m], inputs[j], payload, version, mask)
    requires Servable(cfg, inputs[m].r.draw.value, version, mask, inputs[j].qs) && Undisturbed(cfg, size, inputs, m, j)
    requires forall k :: 0 <= k < j ==> !Stops(cfg, StoreAt(cfg, FRESH, size, inputs, k), size, inputs[k])
    ensures var trace, v := Serve(cfg, FRESH, size, inputs).trace, inputs[m].r.draw.value;
            && p < q < |trace|
            && trace[p] == Replied(inputs[m].from, Challenged(ChallengeReply(cfg, v)))
            && trace[q].Replied? && trace[q].to == inputs[m].from && trace[q].reply.Informed?
            && AnsweredAs(cfg, trace[q].reply, v, version, mask, inputs[j].qs)
  {
    var parts := LoopTurns(cfg, FRESH, size, inputs);
    assert |parts| > j;
    MachineAnswersEcho(cfg, size, inputs, m, j, payload, version, mask);
    SaysReply(cfg, FRESH, size, inputs, parts, m);
    SaysReply(cfg, FRESH, size, inputs, parts, j);
    p := PlaceOf(parts, m);
    q := PlaceOf(parts, j);
    PlacesGrow(parts, m, j);
  }
}
