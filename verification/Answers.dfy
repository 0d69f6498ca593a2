/**
 * What a request that presents the stored challenge is answered with, told by the bytes of its packet and by what a
 * client reads back, and how an attempt with no or another challenge stored fails.
 */
module Answers {
  import opened Bytes
  import opened Wire
  import opened Game
  import opened Challenges
  import opened Responder
  import opened Handshake
  import A2s
  import Sqp

  /** The challenge is stored for the address. */
  predicate Holds(s: Store, a: Address, challenge: u32) {
    a in s.entries && s.entries[a].value == challenge
  }

  /** An SQP query: a one, the challenge, the version, the mask of requested chunks; anything may follow. */
  function SqpQuery(challenge: u32, version: u16, mask: byte, after: seq<byte>): Packet {
    [1] + BigEndian(challenge, 4) + BigEndian(version, 2) + [mask] + after
  }

  lemma SqpQueryParts(challenge: u32, version: u16, mask: byte, after: seq<byte>)
    ensures var buf := SqpQuery(challenge, version, mask, after);
            && |buf| >= 8 && SqpIntent(buf) == Redeems(challenge)
            && ReadU16(buf[5..7]) == version && buf[7] == mask
  {
    Widths();
    FittingRoundTrip(version, 2);
    var buf := SqpQuery(challenge, version, mask, after);
    QuerySlices(BigEndian(challenge, 4), BigEndian(version, 2), mask, after);
    SqpRedeemsExactly(buf, challenge);
  }

  lemma QuerySlices(challenge: seq<byte>, version: seq<byte>, mask: byte, after: seq<byte>)
    requires |challenge| == 4 && |version| == 2
    ensures var buf := [1] + challenge + version + [mask] + after;
            |buf| >= 8 && buf[0] == 1 && buf[1..5] == challenge && buf[5..7] == version && buf[7] == mask
  {
  }

  // ---------------------------------------------------------------- SQP

  /** The reply is information that decodes to this state, each chunk there if it was asked for. */
  predicate SqpReports(o: Outcome, challenge: u32, version: u16, mask: byte, q: QueryState) {
    && o.Informed? && |o.bytes| >= 11
    && var info, metrics := Sqp.WantsServerInfo(mask), Sqp.WantsMetrics(version, mask);
       DecodeFields(SqpEncoder, Sqp.ReplySchema(info, metrics), [], o.bytes)
       == Some((Sqp.ReportedFields(challenge, |o.bytes| - 11, q, info, metrics), []))
  }

  /**
   * A query that presents the stored challenge is refused exactly for a version above 2, crashes exactly if metrics
   * are asked of a missing state, and is otherwise answered: byte by byte, and for strings of at most 255 bytes by a
   * reply that decodes to the challenge, exact lengths, and of the requested chunks what the state holds.
   */
  lemma {:induction false} SqpAnswered(cfg: Setting, s: Store, e: Event, challenge: u32, version: u16, mask: byte,
                                       after: seq<byte>)
    requires cfg.protocol == SQP && e.Request? && e.buf == SqpQuery(challenge, version, mask, after)
    requires Holds(s, e.a, challenge)
    ensures var o := Reply(cfg, s, e);
            && (o == Failed(UnsupportedVersion(version)) <==> version > 2)
            && (o == Crashed <==> version == 2 && Sqp.WantsMetrics(version, mask) && e.qs.None?)
            && (version <= 2 && o != Crashed ==>
                  && o == Informed(Sqp.ReplyBytes(challenge, Sqp.ChunkBytes(Known(e.qs), Sqp.WantsServerInfo(mask),
                                                                            Sqp.WantsMetrics(version, mask))))
                  && (Sqp.Short(Known(e.qs)) ==> SqpReports(o, challenge, version, mask, Known(e.qs))))
  {
    SqpQueryParts(challenge, version, mask, after);
    SqpCases(cfg, s, e, challenge, version, mask);
    if version <= 2 && (Sqp.WantsMetrics(version, mask) ==> e.qs.Some?) {
      Sqp.ReplyIsBytes(challenge, e.qs, version, mask);
      if Sqp.Short(Known(e.qs)) {
        Sqp.ReplyReports(challenge, e.qs, version, mask);
      }
    }
  }

  lemma SqpCases(cfg: Setting, s: Store, e: Event, challenge: u32, version: u16, mask: byte)
    requires cfg.protocol == SQP && e.Request? && |e.buf| >= 8 && SqpIntent(e.buf) == Redeems(challenge)
    requires ReadU16(e.buf[5..7]) == version && e.buf[7] == mask && Holds(s, e.a, challenge)
    ensures Reply(cfg, s, e) == (
              if version > 2 then Failed(UnsupportedVersion(version))
              else if Sqp.WantsMetrics(version, mask) && e.qs.None? then Crashed
              else Informed(Sqp.QueryReply(challenge, Sqp.ChunksFor(e.qs, version, mask).value)))
  {
  }

  // ---------------------------------------------------------------- A2S

  predicate A2sReports(o: Outcome, platform: A2s.Platform, q: QueryState) {
    && o.Informed?
    && DecodeFields(A2sEncoder, A2s.INFO_SCHEMA, [], o.bytes) == Some((A2s.ReportedFields(platform, q), []))
  }

  /**
   * An A2S request that presents the stored challenge is always answered: byte by byte, and for strings without a NUL
   * by a reply that decodes to what the state holds, the counts modulo 2^8.
   */
  lemma {:induction false} A2sAnswered(cfg: Setting, s: Store, e: Event, payload: seq<byte>, challenge: u32,
                                       after: seq<byte>)
    requires cfg.protocol == A2S && e.Request? && e.buf == A2s.PrintRequest(payload, challenge) + after
    requires 0 !in payload && challenge != 0 && Holds(s, e.a, challenge)
    ensures var o := Reply(cfg, s, e);
            && o == Informed(A2s.ReplyBytes(cfg.platform, Known(e.qs)))
            && (A2s.NulFree(Known(e.qs)) ==> A2sReports(o, cfg.platform, Known(e.qs)))
  {
    A2s.ParseInvertsPrint(payload, challenge, after);
    assert IntentOf(cfg, e.buf) == Redeems(challenge);
    assert Reply(cfg, s, e) == Informed(A2s.InfoReply(cfg.platform, e.qs));
    A2s.ReplyIsBytes(cfg.platform, e.qs);
    if A2s.NulFree(Known(e.qs)) {
      A2s.InfoReplyReports(cfg.platform, e.qs);
    }
  }

  // ---------------------------------------------------------------- either protocol

  /**
   * The outcome of a request that presents the stored challenge, told by its version, mask and state: for SQP a
   * refusal above version 2, the crash if metrics are asked of a missing state; otherwise these bytes, which, strings
   * permitting, a client reads back as the state.
   */
  predicate AnsweredAs(cfg: Setting, o: Outcome, challenge: u32, version: u16, mask: byte, qs: Option<QueryState>) {
    var q := Known(qs);
    var info, metrics := Sqp.WantsServerInfo(mask), Sqp.WantsMetrics(version, mask);
    if cfg.protocol == A2S then
      && o == Informed(A2s.ReplyBytes(cfg.platform, q))
      && (A2s.NulFree(q) ==> A2sReports(o, cfg.platform, q))
    else if version > 2 then o == Failed(UnsupportedVersion(version))
    else if metrics && qs.None? then o == Crashed
    else
      && o == Informed(Sqp.ReplyBytes(challenge, Sqp.ChunkBytes(q, info, metrics)))
      && (Sqp.Short(q) ==> SqpReports(o, challenge, version, mask, q))
  }
}
