/**
 * The two query responders as state machines over the challenge store: what a packet asks for, what the store
 * does with it, and the bytes or the error that come back.
 */
module Responder {
  import opened Bytes
  import opened Wire
  import opened Game
  import opened Challenges
  import Sqp
  import A2s

  datatype Protocol = SQP | A2S

  datatype Setting = Setting(protocol: Protocol, platform: A2s.Platform)

  datatype Error =
    | UnsupportedQuery(header: seq<byte>)
    | InvalidPacketLength
    | CutChallenge
    | NoChallengeStored
    | ChallengeMismatch
    | UnsupportedVersion(version: u16)
    | RandomUnavailable

  /** `Crashed` is the nil dereference of asking for metrics when the responder has no state. */
  datatype Outcome = Challenged(bytes: seq<byte>) | Informed(bytes: seq<byte>) | Failed(error: Error) | Crashed

  /** What a packet asks for: a challenge, to redeem one, or nothing the protocol knows. */
  datatype Intent = Ask | Redeems(challenge: u32) | Refuse(error: Error)

  /**
   * The outside world during one request: clock readings in program order, the random draw, and the steps purges
   * take between the launch of a purge and the storing of the challenge.
   */
  datatype Readings = Readings(check: nat, stamp: nat, epoch: nat, beside: seq<PurgeStep>, draw: Option<u32>, now: nat)

  // ---------------------------------------------------------------- the responder as a function

  function ReadU32(b: seq<byte>): u32
    requires |b| == 4
  {
    Widths();
    FromBigEndian(b)
  }

  function ReadU16(b: seq<byte>): u16
    requires |b| == 2
  {
    Widths();
    FromBigEndian(b)
  }

  function SqpIntent(buf: seq<byte>): Intent
    requires |buf| >= 5
  {
    if buf[..5] == [0, 0, 0, 0, 0] then Ask
    else if buf[0] != 1 then Refuse(UnsupportedQuery([]))
    else if |buf| < 8 then Refuse(InvalidPacketLength)
    else Redeems(ReadU32(buf[1..5]))
  }

  /** An SQP packet redeems c exactly if it is a query of full length whose bytes 1 to 4 are c in big-endian order. */
  lemma SqpRedeemsExactly(buf: seq<byte>, c: u32)
    requires |buf| >= 5
    ensures SqpIntent(buf) == Redeems(c) <==> |buf| >= 8 && buf[0] == 1 && buf[1..5] == BigEndian(c, 4)
  {
    Widths();
    FittingRoundTrip(c, 4);
    BytesRoundTrip(buf[1..5]);
    assert buf[..5][0] == buf[0];
  }

  /**
   * An SQP packet asks for a challenge exactly if its first five bytes are zero. One that does not is refused as
   * unsupported exactly if it does not begin with a one, and for its length exactly if it does and has under 8 bytes.
   */
  lemma {:induction false} SqpIntentExactly(buf: seq<byte>)
    requires |buf| >= 5
    ensures var zeros := forall i :: 0 <= i < 5 ==> buf[i] == 0;
            && (SqpIntent(buf) == Ask <==> zeros)
            && (SqpIntent(buf) == Refuse(UnsupportedQuery([])) <==> !zeros && buf[0] != 1)
            && (SqpIntent(buf) == Refuse(InvalidPacketLength) <==> buf[0] == 1 && |buf| < 8)
  {
    assert forall i :: 0 <= i < 5 ==> buf[..5][i] == buf[i];
  }

  function A2sIntent(buf: seq<byte>): Intent
    requires |buf| >= 5
  {
    match A2s.Meaning(buf)
    case Bad(NotAnInfoRequest) => Refuse(UnsupportedQuery(buf[..5]))
    case Bad(UnexpectedEof) => Refuse(CutChallenge)
    case Ok(info) => if info.challenge == 0 then Ask else Redeems(info.challenge)
  }

  /**
   * An A2S packet asks for a challenge exactly if, after the header and a NUL-free payload, it ends, ends in a lone
   * NUL, or holds the challenge 0; it redeems any other challenge it holds; else it is refused.
   */
  lemma {:induction false} A2sIntentExactly(buf: seq<byte>, payload: seq<byte>, c: u32)
    requires |buf| >= 5 && 0 !in payload
    ensures var header := [0xFF, 0xFF, 0xFF, 0xFF, 0x54];
            && (A2sIntent(buf) == Refuse(UnsupportedQuery(buf[..5])) <==> buf[..5] != header)
            && (buf == header + payload || buf == header + payload + [0] ==> A2sIntent(buf) == Ask)
            && (header + payload + [0] + LittleEndian(c, 4) <= buf ==>
                  A2sIntent(buf) == if c == 0 then Ask else Redeems(c))
            && (A2sIntent(buf) == Refuse(CutChallenge) <==>
                  exists p: seq<byte>, cut: seq<byte> :: A2s.IsCut(buf, p, cut))
  {
    A2s.AcceptsExactly(buf, A2s.InfoRequest(payload, 0));
    A2s.AcceptsExactly(buf, A2s.InfoRequest(payload, c));
    forall p: seq<byte>, cut: seq<byte> | A2s.IsCut(buf, p, cut) ensures A2s.HasHeader(buf) {
      A2s.CutHasHeader(buf, p, cut);
    }
    if A2s.HasHeader(buf) {
      A2s.RejectsExactly(buf);
    }
  }

  function IntentOf(cfg: Setting, buf: seq<byte>): Intent
    requires |buf| >= 5
  {
    match cfg.protocol
    case SQP => SqpIntent(buf)
    case A2S => A2sIntent(buf)
  }

  function ChallengeReply(cfg: Setting, v: u32): (reply: seq<byte>)
    ensures |reply| == if cfg.protocol == SQP then 5 else 9
  {
    match cfg.protocol
    case SQP => Sqp.ChallengeReply(v)
    case A2S => A2s.ChallengeReply(v)
  }

  function SqpAnswer(qs: Option<QueryState>, buf: seq<byte>, challenge: u32): Outcome
    requires |buf| >= 8
  {
    var version := ReadU16(buf[5..7]);
    if version > 2 then Failed(UnsupportedVersion(version)) else
      match Sqp.ChunksFor(qs, version, buf[7])
      case None => Crashed
      case Some(chunks) => Informed(Sqp.QueryReply(challenge, chunks))
  }

  /** The answer to a redeemed challenge. */
  function Answer(cfg: Setting, qs: Option<QueryState>, buf: seq<byte>): Outcome
    requires |buf| >= 5 && IntentOf(cfg, buf).Redeems?
  {
    match cfg.protocol
    case SQP => SqpAnswer(qs, buf, IntentOf(cfg, buf).challenge)
    case A2S => Informed(A2s.InfoReply(cfg.platform, qs))
  }

  /** The one access a request makes to the challenge store. */
  function StoreAfter(cfg: Setting, s: Store, a: Address, buf: seq<byte>, draw: Option<u32>, now: nat): Store
    requires |buf| >= 5
  {
    match IntentOf(cfg, buf)
    case Refuse(e) => s
    case Ask => if draw.None? then s else Issue(s, a, draw.value, now)
    case Redeems(c) => Redeem(s, a, c).0
  }

  /** What comes back, given the store the request found. */
  function OutcomeOf(cfg: Setting, s: Store, a: Address, buf: seq<byte>, draw: Option<u32>, qs: Option<QueryState>): Outcome
    requires |buf| >= 5
  {
    match IntentOf(cfg, buf)
    case Refuse(e) => Failed(e)
    case Ask => if draw.None? then Failed(RandomUnavailable) else Challenged(ChallengeReply(cfg, draw.value))
    case Redeems(c) =>
      match Redeem(s, a, c).1
      case NoChallenge => Failed(NoChallengeStored)
      case Mismatch => Failed(ChallengeMismatch)
      case Matched => Answer(cfg, qs, buf)
  }

  /**
   * A whole request: only a request for a challenge may launch a purge, before anything else; purges in flight may
   * move before its challenge is stored. A request that redeems one has a single access to the store.
   */
  function Responded(cfg: Setting, s: Store, a: Address, buf: seq<byte>, r: Readings, qs: Option<QueryState>)
    : (Store, Outcome)
    requires |buf| >= 5
  {
    var s' := if IntentOf(cfg, buf).Ask? then Moves(LaunchPurge(s, r.check, r.stamp, r.epoch), r.beside) else s;
    (StoreAfter(cfg, s', a, buf, r.draw, r.now), OutcomeOf(cfg, s', a, buf, r.draw, qs))
  }

  /**
   * A request for a challenge launches a purge exactly if the clock has moved since the last launch, and does so even
   * if its draw then fails; any other request launches none.
   */
  lemma {:induction false} AskLaunchesPurge(cfg: Setting, s: Store, a: Address, buf: seq<byte>, r: Readings,
                                            qs: Option<QueryState>)
    requires |buf| >= 5 && r.beside == []
    ensures var t := Responded(cfg, s, a, buf, r, qs).0;
            if IntentOf(cfg, buf).Ask? && r.check > s.lastPurged
            then t.lastPurged == r.stamp && t.purges == s.purges + [Purge(r.epoch, None)]
            else t.lastPurged == s.lastPurged && t.purges == s.purges
  {
  }

  // ---------------------------------------------------------------- the responder as the program runs it

  class QueryResponder {
    const cfg: Setting
    const base: QueryBase

    constructor (cfg: Setting)
      ensures this.cfg == cfg && fresh(base) && base.Abs() == FRESH
    {
      this.cfg := cfg;
      base := new QueryBase();
    }

    /** Responds to one packet. The buffer holds at least the five bytes both protocols look at first. */
    method Respond(a: Address, buf: seq<byte>, r: Readings, qs: Option<QueryState>) returns (o: Outcome)
      requires |buf| >= 5
      modifies base
      ensures (base.Abs(), o) == Responded(cfg, old(base.Abs()), a, buf, r, qs)
    {
      match cfg.protocol {
        case SQP =>
          if buf[..5] == [0, 0, 0, 0, 0] {
            o := HandleChallenge(a, r);
          } else if buf[0] == 1 {
            o := HandleQuery(a, buf, qs);
          } else {
            o := Failed(UnsupportedQuery([]));
          }
        case A2S =>
          if buf[..5] == A2s.INFO_REQUEST {
            o := HandleInfoRequest(a, buf, r, qs);
          } else {
            o := Failed(UnsupportedQuery(buf[..5]));
          }
      }
    }

    method HandleChallenge(a: Address, r: Readings) returns (o: Outcome)
      requires cfg.protocol == SQP
      modifies base
      ensures var s := Moves(LaunchPurge(old(base.Abs()), r.check, r.stamp, r.epoch), r.beside);
              && base.Abs() == (if r.draw.None? then s else Issue(s, a, r.draw.value, r.now))
              && o == (if r.draw.None? then Failed(RandomUnavailable) else Challenged(Sqp.ChallengeReply(r.draw.value)))
    {
      var v := base.GenerateChallenge(a, r.check, r.stamp, r.epoch, r.beside, r.draw, r.now);
      if v.None? {
        return Failed(RandomUnavailable);
      }
      Sqp.ChallengeLayout(v.value);
      var resp := new ByteBuffer();
      var ok := WireWrite(resp, SqpEncoder, Sqp.ChallengeFields(v.value));
      assert ok && resp.bytes == Sqp.ChallengeReply(v.value);
      return Challenged(resp.bytes);
    }

    method HandleQuery(a: Address, buf: seq<byte>, qs: Option<QueryState>) returns (o: Outcome)
      requires cfg.protocol == SQP && |buf| >= 5 && buf[0] == 1
      modifies base
      ensures base.Abs() == StoreAfter(cfg, old(base.Abs()), a, buf, None, 0)
      ensures o == OutcomeOf(cfg, old(base.Abs()), a, buf, None, qs)
    {
      assert buf[..5][0] == 1;
      if |buf| < 8 {
        return Failed(InvalidPacketLength);
      }
      var challenge := ReadU32(buf[1..5]);
      var m := base.ChallengeMatchesForClient(a, challenge);
      if m.NoChallenge? {
        return Failed(NoChallengeStored);
      }
      if m.Mismatch? {
        return Failed(ChallengeMismatch);
      }
      var protocolVersion := ReadU16(buf[5..7]);
      if protocolVersion > 2 {
        return Failed(UnsupportedVersion(protocolVersion));
      }
      o := BuildReply(challenge, protocolVersion, buf[7], qs);
    }

    /** The second half of the query handler: fills the record, summing 16-bit chunk lengths, and writes it. */
    method BuildReply(challenge: u32, protocolVersion: u16, requestedChunks: byte, qs: Option<QueryState>)
      returns (o: Outcome)
      ensures var chunks := Sqp.ChunksFor(qs, protocolVersion, requestedChunks);
              o == if chunks.None? then Crashed else Informed(Sqp.QueryReply(challenge, chunks.value))
    {
      var wantsServerInfo := requestedChunks % 2 == 1;
      var wantsMetrics := (requestedChunks / 16) % 2 == 1;
      var payloadLength: u16 := 0;
      var infoFields: seq<Field> := [Nil, Nil];
      var metricsFields: seq<Field> := [Nil, Nil];
      if wantsServerInfo {
        var info := Sqp.QueryStateToServerInfo(qs);
        var size := info.Size();
        infoFields := [Pointer(Number(4, size)), Pointer(Record(info.Fields()))];
        payloadLength := Sqp.AddChunk(payloadLength, size);
      }
      if protocolVersion >= 2 {
        if wantsMetrics {
          if qs.None? {
            return Crashed;
          }
          var metrics := Sqp.QueryStateToMetrics(qs.value);
          var size := metrics.Size();
          metricsFields := [Pointer(Number(4, size)), Pointer(Record(metrics.Fields()))];
          payloadLength := Sqp.AddChunk(payloadLength, size);
        }
      }
      ghost var chunks := Sqp.ChunksFor(qs, protocolVersion, requestedChunks).value;
      assert infoFields == chunks.InfoFields() && metricsFields == chunks.MetricsFields();
      assert payloadLength == chunks.PayloadLength();
      o := WriteReply(challenge, payloadLength, infoFields, metricsFields, chunks);
    }

    method WriteReply(challenge: u32, payloadLength: u16, infoFields: seq<Field>, metricsFields: seq<Field>,
                      ghost chunks: Sqp.Chunks)
      returns (o: Outcome)
      requires payloadLength == chunks.PayloadLength()
      requires infoFields == chunks.InfoFields() && metricsFields == chunks.MetricsFields()
      ensures o == Informed(Sqp.QueryReply(challenge, chunks))
    {
      Sqp.QueryReplyLayout(challenge, chunks);
      var resp := new ByteBuffer();
      var ok := WireWrite(resp, SqpEncoder, Sqp.HeadFields(challenge, payloadLength) + infoFields + metricsFields);
      assert ok && resp.bytes == Sqp.QueryReply(challenge, chunks);
      return Informed(resp.bytes);
    }

    method HandleInfoRequest(a: Address, buf: seq<byte>, r: Readings, qs: Option<QueryState>) returns (o: Outcome)
      requires cfg.protocol == A2S && |buf| >= 5 && buf[..5] == A2s.INFO_REQUEST
      modifies base
      ensures (base.Abs(), o) == Responded(cfg, old(base.Abs()), a, buf, r, qs)
    {
      var parsed := A2s.ParseInfoRequest(buf);
      if parsed.Bad? {
        return Failed(CutChallenge);
      }
      var fields: seq<Field>;
      var asked := parsed.info.challenge == 0;
      if asked {
        var v := base.GenerateChallenge(a, r.check, r.stamp, r.epoch, r.beside, r.draw, r.now);
        if v.None? {
          return Failed(RandomUnavailable);
        }
        fields := A2s.ChallengeFields(v.value);
        A2s.ChallengeLayout(v.value);
      } else {
        var m := base.ChallengeMatchesForClient(a, parsed.info.challenge);
        if m.NoChallenge? {
          return Failed(NoChallengeStored);
        }
        if m.Mismatch? {
          return Failed(ChallengeMismatch);
        }
        fields := A2s.InfoFields(cfg.platform, A2s.QueryStateToInfo(qs));
        A2s.InfoWritable(cfg.platform, A2s.QueryStateToInfo(qs));
      }
      var resp := new ByteBuffer();
      var ok := WireWrite(resp, A2sEncoder, fields);
      assert ok && resp.bytes == EmitFields(A2sEncoder, fields).bytes;
      return if asked then Challenged(resp.bytes) else Informed(resp.bytes);
    }
  }
}
