/** When the echo of a challenge is answered: exactly, and under conditions a client or an operator could check. */
module Echoes {
  import opened Bytes
  import opened Game
  import opened Challenges
  import opened Responder
  import opened Handshake
  import opened PurgeRuns
  import opened Answers
  import A2s
  import Sqp

  /**
   * A well-formed request that echoes the challenge bytes of a challenge reply. SQP: a one, bytes 1 to 4 of the
   * reply, a version, a chunk mask. A2S: the header, a NUL-free payload, a NUL, bytes 5 to 8. Anything may follow.
   */
  function Echo(cfg: Setting, reply: seq<byte>, payload: seq<byte>, version: u16, mask: byte, after: seq<byte>): Packet
    requires |reply| == if cfg.protocol == SQP then 5 else 9
  {
    match cfg.protocol
    case SQP => [1] + reply[1..5] + BigEndian(version, 2) + [mask] + after
    case A2S => [0xFF, 0xFF, 0xFF, 0xFF, 0x54] + payload + [0] + reply[5..9] + after
  }

  /** The echo asks to redeem exactly the challenge it was given; except that A2S reads 0 as no challenge at all. */
  lemma EchoIntent(cfg: Setting, v: u32, payload: seq<byte>, version: u16, mask: byte, after: seq<byte>)
    requires 0 !in payload
    ensures var buf := Echo(cfg, ChallengeReply(cfg, v), payload, version, mask, after);
            && IntentOf(cfg, buf) == (if cfg.protocol == A2S && v == 0 then Ask else Redeems(v))
            && (cfg.protocol == SQP ==> |buf| >= 8 && ReadU16(buf[5..7]) == version && buf[7] == mask)
  {
    match cfg.protocol {
      case SQP =>
        assert ChallengeReply(cfg, v)[1..5] == BigEndian(v, 4);
        SqpQueryParts(v, version, mask, after);
      case A2S =>
        assert ChallengeReply(cfg, v)[5..9] == LittleEndian(v, 4);
        A2s.ParseInvertsPrint(payload, v, after);
    }
  }

  /** Whenever the challenge is stored, its echo is answered as its version, mask and state say. */
  lemma {:induction false} EchoOutcome(cfg: Setting, s: Store, echo: Event, v: u32, payload: seq<byte>, version: u16,
                                       mask: byte, after: seq<byte>)
    requires echo.Request? && echo.buf == Echo(cfg, ChallengeReply(cfg, v), payload, version, mask, after)
    requires 0 !in payload && Holds(s, echo.a, v) && (cfg.protocol == A2S ==> v != 0)
    ensures AnsweredAs(cfg, Reply(cfg, s, echo), v, version, mask, echo.qs)
  {
    match cfg.protocol {
      case SQP =>
        assert ChallengeReply(cfg, v)[1..5] == BigEndian(v, 4);
        SqpAnswered(cfg, s, echo, v, version, mask, after);
      case A2S =>
        assert ChallengeReply(cfg, v)[5..9] == LittleEndian(v, 4);
        A2sAnswered(cfg, s, echo, payload, v, after);
    }
  }

  predicate NoRequestFrom(events: seq<Event>, a: Address) {
    forall k :: 0 <= k < |events| ==> !(events[k].Request? && events[k].a == a)
  }

  /** Event k of `mid` deletes the stored entry of `a`. */
  predicate DeletesAt(cfg: Setting, run: seq<Event>, mid: seq<Event>, k: nat, a: Address) {
    k < |mid| && Deletes(After(cfg, run + mid[..k]), mid[k], a)
  }

  lemma DeletesPrefix(cfg: Setting, run: seq<Event>, mid: seq<Event>, k: nat, a: Address)
    requires k + 1 < |mid|
    ensures DeletesAt(cfg, run, mid, k, a) <==> DeletesAt(cfg, run, mid[..|mid| - 1], k, a)
  {
    assert mid[..|mid| - 1][..k] == mid[..k];
  }

  /** With no request from `a`, its entry survives exactly if no purge step deletes it. */
  lemma {:induction false} SurvivesExactly(cfg: Setting, run: seq<Event>, mid: seq<Event>, a: Address)
    requires a in After(cfg, run).entries && NoRequestFrom(mid, a)
    ensures a in After(cfg, run + mid).entries <==> !exists k: nat :: DeletesAt(cfg, run, mid, k, a)
    ensures a in After(cfg, run + mid).entries ==> After(cfg, run + mid).entries[a] == After(cfg, run).entries[a]
  {
    if mid == [] {
      assert run + mid == run;
    } else {
      var n := |mid| - 1;
      var init, e := mid[..n], mid[n];
      SurvivesExactly(cfg, run, init, a);
      assert run + mid == (run + init) + [e];
      AfterSnoc(cfg, run + init, e);
      forall k: nat | k < n ensures DeletesAt(cfg, run, mid, k, a) <==> DeletesAt(cfg, run, init, k, a) {
        DeletesPrefix(cfg, run, mid, k, a);
      }
      EntryStep(cfg, After(cfg, run + init), e, a);
      if a in After(cfg, run + mid).entries {
        assert !DeletesAt(cfg, run, mid, n, a);
      } else if a in After(cfg, run + init).entries {
        assert DeletesAt(cfg, run, mid, n, a);
      } else {
        var k: nat :| DeletesAt(cfg, run, init, k, a);
        assert DeletesAt(cfg, run, mid, k, a);
      }
    }
  }

  /**
   * A purge dooms the entry that event n stored for `a`: at v it visited the key, finding an older entry stale, or
   * after n with an epoch later than the expiry of the new one; and its next step, the delete at j, comes after n.
   */
  predicate Doomed(cfg: Setting, run: seq<Event>, n: nat, v: nat, j: nat, a: Address) {
    && v < j < |run| && n < j && v != n && run[n].Request?
    && run[j].Purging? && run[j].step.DeleteMarked?
    && run[v] == Purging(VisitKey(run[j].step.p, a))
    && (forall m :: v < m < j ==> !StepOf(run[m], run[j].step.p))
    && var s := After(cfg, run[..v]);
       && run[j].step.p < |s.purges|
       && var epoch := s.purges[run[j].step.p].epoch;
          if v < n then a in s.entries && Stale(epoch, s.entries[a]) else epoch > run[n].now + MINUTE
  }

  ghost predicate Lost(cfg: Setting, run: seq<Event>, n: nat, a: Address) {
    exists v: nat, j: nat :: Doomed(cfg, run, n, v, j, a)
  }

  lemma DeletionIsDoomed(cfg: Setting, run: seq<Event>, ask: Event, mid: seq<Event>, k: nat)
    requires ask.Request? && Issues(cfg, ask, ask.a) && NoRequestFrom(mid, ask.a)
    requires DeletesAt(cfg, run + [ask], mid, k, ask.a)
    ensures Lost(cfg, run + [ask] + mid, |run|, ask.a)
  {
    var a, n := ask.a, |run|;
    var whole, j := run + [ask] + mid, n + 1 + k;
    assert whole[..j] == run + [ask] + mid[..k] && whole[j] == mid[k] && whole[n] == ask;
    var p := mid[k].step.p;
    var v := MarkOrigin(cfg, whole[..j], p, a);
    assert forall m :: 0 <= m < j ==> whole[..j][m] == whole[m];
    assert whole[..j][..v] == whole[..v];
    if v > n {
      StoredByAsk(cfg, run, ask, mid, v);
    }
    assert Doomed(cfg, whole, n, v, j, a);
  }

  /** Between the ask and the end, the entry is the one the ask stored, or gone. */
  lemma StoredByAsk(cfg: Setting, run: seq<Event>, ask: Event, mid: seq<Event>, v: nat)
    requires ask.Request? && Issues(cfg, ask, ask.a) && NoRequestFrom(mid, ask.a)
    requires |run| < v <= |run| + 1 + |mid|
    ensures var s := After(cfg, (run + [ask] + mid)[..v]);
            if ask.a in s.entries then s.entries[ask.a].expiry == ask.now + MINUTE
            else exists k: nat :: DeletesAt(cfg, run + [ask], mid, k, ask.a)
  {
    var m := v - |run| - 1;
    AfterSnoc(cfg, run, ask);
    assert (run + [ask] + mid)[..v] == run + [ask] + mid[..m];
    SurvivesExactly(cfg, run + [ask], mid[..m], ask.a);
    forall k: nat | DeletesAt(cfg, run + [ask], mid[..m], k, ask.a) ensures DeletesAt(cfg, run + [ask], mid, k, ask.a) {
      assert mid[..m][..k] == mid[..k];
    }
  }

  lemma DoomedIsDeletion(cfg: Setting, run: seq<Event>, ask: Event, mid: seq<Event>, v: nat, j: nat)
    requires ask.Request? && Issues(cfg, ask, ask.a) && NoRequestFrom(mid, ask.a)
    requires Doomed(cfg, run + [ask] + mid, |run|, v, j, ask.a)
    ensures exists k: nat :: DeletesAt(cfg, run + [ask], mid, k, ask.a)
  {
    var a, n := ask.a, |run|;
    var whole, k := run + [ask] + mid, j - |run| - 1;
    assert whole[..j] == run + [ask] + mid[..k] && whole[j] == mid[k] && whole[n] == ask;
    if v > n {
      StoredByAsk(cfg, run, ask, mid, v);
    }
    if v < n || a in After(cfg, whole[..v]).entries {
      assert whole[..j][..v] == whole[..v];
      MarkStays(cfg, whole[..j], v, whole[j].step.p, a);
      assert DeletesAt(cfg, run + [ask], mid, k, a);
    }
  }

  /**
   * The echo of a challenge, with no other request from its address in between, is accepted exactly if no purge doomed
   * the entry and the challenge is one the protocol can carry: A2S cannot carry 0.
   */
  lemma EchoAcceptedExactly(cfg: Setting, run: seq<Event>, ask: Event, mid: seq<Event>, echo: Event,
                            payload: seq<byte>, version: u16, mask: byte, after: seq<byte>)
    requires ask.Request? && Issues(cfg, ask, ask.a) && NoRequestFrom(mid, ask.a) && 0 !in payload
    requires echo.Request? && echo.a == ask.a
    requires echo.buf == Echo(cfg, ChallengeReply(cfg, ask.draw.value), payload, version, mask, after)
    ensures Reply(cfg, After(cfg, run), ask) == Challenged(ChallengeReply(cfg, ask.draw.value))
    ensures var o := Reply(cfg, After(cfg, run + [ask] + mid), echo);
            && (Accepted(o) <==>
                  && !Lost(cfg, run + [ask] + mid, |run|, ask.a)
                  && !(cfg.protocol == A2S && ask.draw.value == 0))
            && (Accepted(o) ==> AnsweredAs(cfg, o, ask.draw.value, version, mask, echo.qs))
  {
    AfterSnoc(cfg, run, ask);
    EchoIntent(cfg, ask.draw.value, payload, version, mask, after);
    SurvivesExactly(cfg, run + [ask], mid, ask.a);
    var s := After(cfg, run + [ask] + mid);
    RedeemOutcome(cfg, s, echo);
    LostExactly(cfg, run, ask, mid);
    if Accepted(Reply(cfg, s, echo)) {
      EchoOutcome(cfg, s, echo, ask.draw.value, payload, version, mask, after);
    }
  }

  lemma LostExactly(cfg: Setting, run: seq<Event>, ask: Event, mid: seq<Event>)
    requires ask.Request? && Issues(cfg, ask, ask.a) && NoRequestFrom(mid, ask.a)
    ensures Lost(cfg, run + [ask] + mid, |run|, ask.a)
       <==> exists k: nat :: DeletesAt(cfg, run + [ask], mid, k, ask.a)
  {
    if Lost(cfg, run + [ask] + mid, |run|, ask.a) {
      var v: nat, j: nat :| Doomed(cfg, run + [ask] + mid, |run|, v, j, ask.a);
      DoomedIsDeletion(cfg, run, ask, mid, v, j);
    }
    if k: nat :| DeletesAt(cfg, run + [ask], mid, k, ask.a) {
      DeletionIsDoomed(cfg, run, ask, mid, k);
    }
  }

  /** No purge can delete an entry it would not judge stale, unless it had marked the key before. */
  lemma {:induction false} NoDeletion(cfg: Setting, run: seq<Event>, mid: seq<Event>, a: Address, expiry: nat)
    requires a in After(cfg, run).entries && After(cfg, run).entries[a].expiry == expiry && NoRequestFrom(mid, a)
    requires forall p :: 0 <= p < |After(cfg, run).purges| ==> After(cfg, run).purges[p].marked != Some(a)
    requires forall e :: e in run + mid && e.Begin? ==> e.epoch <= expiry
    ensures forall k: nat :: !DeletesAt(cfg, run, mid, k, a)
    ensures forall p :: 0 <= p < |After(cfg, run + mid).purges| ==> After(cfg, run + mid).purges[p].marked != Some(a)
  {
    if mid == [] {
      assert run + mid == run;
    } else {
      var n := |mid| - 1;
      var init, e := mid[..n], mid[n];
      assert run + mid == (run + init) + [e];
      NoDeletion(cfg, run, init, a, expiry);
      SurvivesExactly(cfg, run, init, a);
      AfterSnoc(cfg, run + init, e);
      EpochsBegun(cfg, run + init, expiry);
      NoNewMark(cfg, After(cfg, run + init), e, a);
      forall k: nat ensures !DeletesAt(cfg, run, mid, k, a) {
        if k < n {
          DeletesPrefix(cfg, run, mid, k, a);
        }
      }
    }
  }

  /** A step cannot mark a key whose entry is fresh for every purge. */
  lemma NoNewMark(cfg: Setting, s: Store, e: Event, a: Address)
    requires a in s.entries
    requires forall p :: 0 <= p < |s.purges| ==>
               s.purges[p].epoch <= s.entries[a].expiry && s.purges[p].marked != Some(a)
    ensures forall p :: 0 <= p < |Next(cfg, s, e).purges| ==> Next(cfg, s, e).purges[p].marked != Some(a)
  {
    forall p | 0 <= p < |Next(cfg, s, e).purges| ensures Next(cfg, s, e).purges[p].marked != Some(a) {
      MarkStep(cfg, s, e, p);
    }
  }

  lemma {:induction false} EpochsBegun(cfg: Setting, run: seq<Event>, bound: nat)
    requires forall e :: e in run && e.Begin? ==> e.epoch <= bound
    ensures forall p :: 0 <= p < |After(cfg, run).purges| ==> After(cfg, run).purges[p].epoch <= bound
  {
    if run != [] {
      assert run[|run| - 1] in run;
      EpochsBegun(cfg, run[..|run| - 1], bound);
    }
  }

  /**
   * Completeness: echoing a challenge gets an answer however other clients and purges interleave, given no other
   * request from that address, no purge already between visit and delete on its key when the challenge is stored,
   * and no purge launched with an epoch later than the stored expiry. The answer carries information: what SQP asks
   * besides is a supported version, and a state if the mask asks for metrics.
   */
  lemma EchoAnswered(cfg: Setting, run: seq<Event>, ask: Event, mid: seq<Event>, echo: Event,
                     payload: seq<byte>, version: u16, mask: byte, after: seq<byte>)
    requires ask.Request? && Issues(cfg, ask, ask.a) && NoRequestFrom(mid, ask.a) && 0 !in payload
    requires echo.Request? && echo.a == ask.a
    requires echo.buf == Echo(cfg, ChallengeReply(cfg, ask.draw.value), payload, version, mask, after)
    requires cfg.protocol == A2S ==> ask.draw.value != 0
    requires forall p :: 0 <= p < |After(cfg, run).purges| ==> After(cfg, run).purges[p].marked != Some(ask.a)
    requires forall e :: e in run + mid && e.Begin? ==> e.epoch <= ask.now + MINUTE
    requires cfg.protocol == SQP ==> version <= 2 && (Sqp.WantsMetrics(version, mask) ==> echo.qs.Some?)
    ensures var o := Reply(cfg, After(cfg, run + [ask] + mid), echo);
            o.Informed? && AnsweredAs(cfg, o, ask.draw.value, version, mask, echo.qs)
  {
    AfterSnoc(cfg, run, ask);
    forall e | e in run + [ask] + mid && e.Begin? ensures e.epoch <= ask.now + MINUTE {
      assert e in run + mid;
    }
    NoDeletion(cfg, run + [ask], mid, ask.a, ask.now + MINUTE);
    LostExactly(cfg, run, ask, mid);
    EchoAcceptedExactly(cfg, run, ask, mid, echo, payload, version, mask, after);
  }
}
