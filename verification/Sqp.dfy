/** The records an SQP responder sends, and the lengths it announces for them. */
module Sqp {
  import opened Bytes
  import opened Wire
  import opened Game

  const MAX_METRICS: nat := 10

  datatype ServerInfo = ServerInfo(
    currentPlayers: u16,
    maxPlayers: u16,
    serverName: seq<byte>,
    gameType: seq<byte>,
    buildID: seq<byte>,
    gameMap: seq<byte>,
    port: u16)
  {
    function Fields(): seq<Field> {
      [Inline(Number(2, currentPlayers)), Inline(Number(2, maxPlayers)),
       Inline(Text(serverName)), Inline(Text(gameType)), Inline(Text(buildID)), Inline(Text(gameMap)),
       Inline(Number(2, port))]
    }

    /** The length announced for this chunk: computed from the strings, as a 32-bit number. */
    function Size(): u32 {
      (2 + 2 + |serverName| + 1 + |gameType| + 1 + |buildID| + 1 + |gameMap| + 1 + 2) % 0x1_0000_0000
    }

    predicate Sendable() {
      |serverName| <= 255 && |gameType| <= 255 && |buildID| <= 255 && |gameMap| <= 255
    }
  }

  datatype MetricsInfo = MetricsInfo(count: byte, values: seq<u32>) {
    function Fields(): seq<Field> {
      [Inline(Number(1, count)), Inline(Numbers(4, values))]
    }

    function Size(): u32 {
      (1 + |values| * 4) % 0x1_0000_0000
    }
  }

  function QueryStateToServerInfo(qs: Option<QueryState>): ServerInfo {
    match qs
    case None => ServerInfo(0, 0, NOT_AVAILABLE, NOT_AVAILABLE, [], NOT_AVAILABLE, 0)
    case Some(q) =>
      ServerInfo(Truncate(q.currentPlayers, 0x1_0000), Truncate(q.maxPlayers, 0x1_0000),
                 q.serverName, q.gameType, [], q.gameMap, q.port)
  }

  function QueryStateToMetrics(q: QueryState): (m: MetricsInfo)
    ensures |m.values| == m.count <= MAX_METRICS
    ensures m.values <= q.metrics
    ensures m.count < MAX_METRICS ==> m.values == q.metrics
  {
    var l := if |q.metrics| < MAX_METRICS then |q.metrics| else MAX_METRICS;
    MetricsInfo(l, q.metrics[..l])
  }

  function ChallengeFields(challenge: u32): seq<Field> {
    [Inline(Number(1, 0)), Inline(Number(4, challenge))]
  }

  /** Counts one more chunk, and the four bytes of its length, in 16-bit arithmetic. */
  function AddChunk(payloadLength: u16, size: u32): u16 {
    (payloadLength + (size % 0x1_0000 + 4) % 0x1_0000) % 0x1_0000
  }

  /** The optional chunks of a reply; an absent chunk is a nil pointer, and so is its length. */
  datatype Chunks = Chunks(info: Option<ServerInfo>, metrics: Option<MetricsInfo>) {
    function PayloadLength(): u16 {
      var afterInfo := if info.Some? then AddChunk(0, info.value.Size()) else 0;
      if metrics.Some? then AddChunk(afterInfo, metrics.value.Size()) else afterInfo
    }

    function InfoFields(): seq<Field> {
      match info
      case None => [Nil, Nil]
      case Some(i) => [Pointer(Number(4, i.Size())), Pointer(Record(i.Fields()))]
    }

    function MetricsFields(): seq<Field> {
      match metrics
      case None => [Nil, Nil]
      case Some(m) => [Pointer(Number(4, m.Size())), Pointer(Record(m.Fields()))]
    }

    /** Every chunk can be read back: strings fit their length byte, the metric count is the number of metrics. */
    predicate Sendable() {
      && (info.Some? ==> info.value.Sendable())
      && (metrics.Some? ==> |metrics.value.values| == metrics.value.count <= MAX_METRICS)
    }
  }

  function HeadFields(challenge: u32, payloadLength: u16): seq<Field> {
    [Inline(Number(1, 1)), Inline(Number(4, challenge)), Inline(Number(2, 1)),
     Inline(Number(1, 0)), Inline(Number(1, 0)), Inline(Number(2, payloadLength))]
  }

  function QueryFields(challenge: u32, chunks: Chunks): seq<Field> {
    HeadFields(challenge, chunks.PayloadLength()) + chunks.InfoFields() + chunks.MetricsFields()
  }

  function WantsServerInfo(mask: byte): bool {
    mask % 2 == 1
  }

  function WantsMetrics(version: u16, mask: byte): bool {
    version >= 2 && (mask / 16) % 2 == 1
  }

  /** The two tests are those of bits 0 and 4 of the mask; metrics need version 2 besides. */
  lemma MaskBits(version: u16, mask: byte)
    ensures WantsServerInfo(mask) <==> (mask as bv8) & 1 == 1
    ensures WantsMetrics(version, mask) <==> version >= 2 && (mask as bv8) & 0x10 == 16
  {
    var b := mask as bv8;
    assert b & 1 == b % 2 && (b & 0x10 == 16 <==> (b / 16) % 2 == 1);
  }

  /** The chunks of a reply; reading the metrics of a missing state is a nil dereference, here None. */
  function ChunksFor(qs: Option<QueryState>, version: u16, mask: byte): Option<Chunks> {
    if WantsMetrics(version, mask) && qs.None? then None
    else Some(Chunks(
      if WantsServerInfo(mask) then Some(QueryStateToServerInfo(qs)) else None,
      if WantsMetrics(version, mask) then Some(QueryStateToMetrics(qs.value)) else None))
  }

  function QueryReply(challenge: u32, chunks: Chunks): seq<byte> {
    EmitFields(SqpEncoder, QueryFields(challenge, chunks)).bytes
  }

  // ---------------------------------------------------------------- layout and lengths

  lemma ChallengeLayout(challenge: u32)
    ensures EmitFields(SqpEncoder, ChallengeFields(challenge)) == Emission([0] + BigEndian(challenge, 4), true)
  {
    EmitPair(SqpEncoder, Inline(Number(1, 0)), Inline(Number(4, challenge)));
    SmallNumbers();
  }

  /** A challenge reply is a zero byte and the challenge. */
  function ChallengeReply(challenge: u32): (reply: seq<byte>)
    ensures reply == [0] + BigEndian(challenge, 4)
  {
    ChallengeLayout(challenge);
    EmitFields(SqpEncoder, ChallengeFields(challenge)).bytes
  }

  lemma HeadLayout(challenge: u32, payloadLength: u16)
    ensures EmitFields(SqpEncoder, HeadFields(challenge, payloadLength)).ok
    ensures EmitFields(SqpEncoder, HeadFields(challenge, payloadLength)).bytes
         == [1] + BigEndian(challenge, 4) + [0, 1, 0, 0] + BigEndian(payloadLength, 2)
  {
    var a, b := Inline(Number(1, 1)), Inline(Number(4, challenge));
    var c, d := Inline(Number(2, 1)), Inline(Number(1, 0));
    var e, f := Inline(Number(1, 0)), Inline(Number(2, payloadLength));
    EmitPair(SqpEncoder, a, b);
    EmitPair(SqpEncoder, c, d);
    EmitPair(SqpEncoder, e, f);
    EmitSplit(SqpEncoder, [a, b], [c, d]);
    EmitSplit(SqpEncoder, [a, b] + [c, d], [e, f]);
    assert HeadFields(challenge, payloadLength) == [a, b] + [c, d] + [e, f];
    SmallNumbers();
    HeadBytes(BigEndian(challenge, 4), BigEndian(payloadLength, 2));
  }

  lemma SmallNumbers()
    ensures BigEndian(1, 1) == [1] && BigEndian(0, 1) == [0] && BigEndian(1, 2) == [0, 1]
  {
  }

  lemma HeadBytes(challenge: seq<byte>, length: seq<byte>)
    ensures ([1] + challenge) + ([0, 1] + [0]) + ([0] + length) == [1] + challenge + [0, 1, 0, 0] + length
  {
  }

  /** The server-info chunk on the wire, string by string. */
  lemma ServerInfoLayout(i: ServerInfo)
    ensures EmitFields(SqpEncoder, i.Fields()).ok
    ensures EmitFields(SqpEncoder, i.Fields()).bytes
         == BigEndian(i.currentPlayers, 2) + BigEndian(i.maxPlayers, 2)
            + EncodeText(SqpEncoder, i.serverName) + EncodeText(SqpEncoder, i.gameType)
            + EncodeText(SqpEncoder, i.buildID) + EncodeText(SqpEncoder, i.gameMap) + BigEndian(i.port, 2)
  {
    var fs := i.Fields();
    EmitPair(SqpEncoder, fs[0], fs[1]);
    EmitPair(SqpEncoder, fs[2], fs[3]);
    EmitPair(SqpEncoder, fs[4], fs[5]);
    EmitOne(SqpEncoder, fs[6]);
    EmitSplit(SqpEncoder, [fs[0], fs[1]], [fs[2], fs[3]]);
    EmitSplit(SqpEncoder, [fs[0], fs[1]] + [fs[2], fs[3]], [fs[4], fs[5]]);
    EmitSplit(SqpEncoder, [fs[0], fs[1]] + [fs[2], fs[3]] + [fs[4], fs[5]], [fs[6]]);
    assert fs == [fs[0], fs[1]] + [fs[2], fs[3]] + [fs[4], fs[5]] + [fs[6]];
  }

  lemma {:induction false} FloatsLength(ns: seq<nat>)
    ensures |EncodeNumbers(SqpEncoder, ns, 4)| == 4 * |ns|
  {
    if ns != [] {
      FloatsLength(ns[1..]);
    }
  }

  lemma MetricsLayout(m: MetricsInfo)
    ensures EmitFields(SqpEncoder, m.Fields())
         == Emission(BigEndian(m.count, 1) + EncodeNumbers(SqpEncoder, m.values, 4), true)
    ensures |EmitFields(SqpEncoder, m.Fields()).bytes| == 1 + 4 * |m.values|
  {
    FloatsLength(m.values);
    EmitPair(SqpEncoder, m.Fields()[0], m.Fields()[1]);
  }

  /** The announced chunk lengths are the lengths on the wire, modulo 2^32, whatever the strings and metrics. */
  lemma ChunkLengthAgrees(i: ServerInfo, m: MetricsInfo)
    ensures |EmitFields(SqpEncoder, i.Fields()).bytes| % 0x1_0000_0000 == i.Size()
    ensures |EmitFields(SqpEncoder, m.Fields()).bytes| % 0x1_0000_0000 == m.Size()
  {
    ServerInfoLayout(i);
    MetricsLayout(m);
  }

  function ChunkPart(size: u32, chunk: seq<Field>): seq<byte> {
    BigEndian(size, 4) + EmitFields(SqpEncoder, chunk).bytes
  }

  function InfoPart(c: Chunks): seq<byte> {
    if c.info.None? then [] else ChunkPart(c.info.value.Size(), c.info.value.Fields())
  }

  function MetricsPart(c: Chunks): seq<byte> {
    if c.metrics.None? then [] else ChunkPart(c.metrics.value.Size(), c.metrics.value.Fields())
  }

  lemma PartsLayout(c: Chunks)
    ensures EmitFields(SqpEncoder, c.InfoFields()) == Emission(InfoPart(c), true)
    ensures EmitFields(SqpEncoder, c.MetricsFields()) == Emission(MetricsPart(c), true)
  {
    if c.info.Some? {
      ServerInfoLayout(c.info.value);
    }
    if c.metrics.Some? {
      MetricsLayout(c.metrics.value);
    }
    EmitPair(SqpEncoder, c.InfoFields()[0], c.InfoFields()[1]);
    EmitPair(SqpEncoder, c.MetricsFields()[0], c.MetricsFields()[1]);
  }

  /** A reply is an 11-byte head carrying the payload length, then each requested chunk behind its length. */
  lemma QueryReplyLayout(challenge: u32, c: Chunks)
    ensures EmitFields(SqpEncoder, QueryFields(challenge, c)).ok
    ensures QueryReply(challenge, c)
         == [1] + BigEndian(challenge, 4) + [0, 1, 0, 0] + BigEndian(c.PayloadLength(), 2) + InfoPart(c) + MetricsPart(c)
  {
    HeadLayout(challenge, c.PayloadLength());
    PartsLayout(c);
    EmitSplit(SqpEncoder, HeadFields(challenge, c.PayloadLength()), c.InfoFields());
    EmitSplit(SqpEncoder, HeadFields(challenge, c.PayloadLength()) + c.InfoFields(), c.MetricsFields());
  }

  /** Counting a chunk by its 32-bit length, in 16-bit arithmetic, adds what is really there, modulo 2^16. */
  lemma AddChunkCounts(total: nat, length: nat)
    ensures AddChunk(total % 0x1_0000, length % 0x1_0000_0000) == (total + (4 + length)) % 0x1_0000
  {
    var low := length % 0x1_0000_0000 % 0x1_0000;
    assert (low + 4) % 0x1_0000 == (length + 4) % 0x1_0000 by {
      LowBits(length);
      Absorb(length, 4);
    }
    SumModulo(total, length + 4);
  }

  lemma SumModulo(a: nat, b: nat)
    ensures (a % 0x1_0000 + b % 0x1_0000) % 0x1_0000 == (a + b) % 0x1_0000
  {
    Absorb(a, b % 0x1_0000);
    Absorb(b, a);
  }

  lemma LowBits(n: nat)
    ensures n % 0x1_0000_0000 % 0x1_0000 == n % 0x1_0000
  {
  }

  lemma Absorb(a: nat, b: nat)
    ensures (a % 0x1_0000 + b) % 0x1_0000 == (a + b) % 0x1_0000
  {
  }

  lemma InfoPartLength(i: ServerInfo)
    ensures |ChunkPart(i.Size(), i.Fields())| == 4 + |EmitFields(SqpEncoder, i.Fields()).bytes|
    ensures i.Sendable() && i.buildID == [] ==> |ChunkPart(i.Size(), i.Fields())| <= 779
  {
    ServerInfoLayout(i);
  }

  lemma MetricsPartLength(m: MetricsInfo)
    ensures |ChunkPart(m.Size(), m.Fields())| == 4 + |EmitFields(SqpEncoder, m.Fields()).bytes|
    ensures |m.values| <= MAX_METRICS ==> |ChunkPart(m.Size(), m.Fields())| <= 45
  {
    MetricsLayout(m);
  }

  /**
   * The announced payload length is the reply length less the head, modulo 2^16, for every state; it is exact
   * just when that fits 16 bits, and for strings of at most 255 bytes the whole reply stays within 835 bytes.
   */
  lemma PayloadLengthAgrees(challenge: u32, qs: Option<QueryState>, version: u16, mask: byte)
    requires ChunksFor(qs, version, mask).Some?
    ensures var c := ChunksFor(qs, version, mask).value;
            var reply := QueryReply(challenge, c);
            && |reply| >= 11
            && c.PayloadLength() == (|reply| - 11) % 0x1_0000
            && FromBigEndian(reply[9..11]) == c.PayloadLength()
            && (c.PayloadLength() == |reply| - 11 <==> |reply| - 11 < 0x1_0000)
            && (c.Sendable() ==> |reply| <= 835)
  {
    var c := ChunksFor(qs, version, mask).value;
    PayloadLengthOf(challenge, c);
    PartsFit(c);
  }

  lemma {:induction false} PayloadLengthOf(challenge: u32, c: Chunks)
    ensures var length := |QueryReply(challenge, c)| - 11;
            && length == |InfoPart(c)| + |MetricsPart(c)|
            && c.PayloadLength() == length % 0x1_0000
            && FromBigEndian(QueryReply(challenge, c)[9..11]) == c.PayloadLength()
            && (c.PayloadLength() == length <==> length < 0x1_0000)
  {
    PayloadLengthField(challenge, c);
    PayloadIsSum(c);
    SmallModulo(|InfoPart(c)| + |MetricsPart(c)|);
  }

  lemma SmallModulo(n: nat)
    ensures n % 0x1_0000 == n <==> n < 0x1_0000
  {
  }

  /** Bytes 9 and 10 of a reply are the payload length, and the chunks are all that follows the head. */
  lemma PayloadLengthField(challenge: u32, c: Chunks)
    ensures var reply := QueryReply(challenge, c);
            && |reply| == 11 + (|InfoPart(c)| + |MetricsPart(c)|)
            && FromBigEndian(reply[9..11]) == c.PayloadLength()
  {
    QueryReplyLayout(challenge, c);
    Widths();
    FittingRoundTrip(c.PayloadLength(), 2);
    var head := [1] + BigEndian(challenge, 4) + [0, 1, 0, 0];
    HeadSlice(head, BigEndian(c.PayloadLength(), 2), InfoPart(c), MetricsPart(c));
  }

  lemma HeadSlice(a: seq<byte>, b: seq<byte>, c: seq<byte>, d: seq<byte>)
    requires |a| == 9 && |b| == 2
    ensures |a + b + c + d| == 11 + (|c| + |d|)
    ensures (a + b + c + d)[9..11] == b
  {
  }

  lemma PayloadIsSum(c: Chunks)
    ensures c.PayloadLength() == (|InfoPart(c)| + |MetricsPart(c)|) % 0x1_0000
  {
    if c.info.Some? {
      var i := c.info.value;
      ChunkLengthAgrees(i, MetricsInfo(0, []));
      AddChunkCounts(0, |EmitFields(SqpEncoder, i.Fields()).bytes|);
    }
    if c.metrics.Some? {
      var m := c.metrics.value;
      ChunkLengthAgrees(ServerInfo(0, 0, [], [], [], [], 0), m);
      AddChunkCounts(|InfoPart(c)|, |EmitFields(SqpEncoder, m.Fields()).bytes|);
    }
  }

  lemma PartsFit(c: Chunks)
    requires c.info.Some? ==> c.info.value.buildID == []
    ensures c.Sendable() ==> |InfoPart(c)| + |MetricsPart(c)| <= 824
  {
    if c.info.Some? {
      InfoPartLength(c.info.value);
    }
    if c.metrics.Some? {
      MetricsPartLength(c.metrics.value);
    }
  }

  // ---------------------------------------------------------------- reading a reply back

  const SERVER_INFO_SCHEMA :=
    RecordS([InlineS(NumberS(2)), InlineS(NumberS(2)), InlineS(TextS), InlineS(TextS), InlineS(TextS), InlineS(TextS),
             InlineS(NumberS(2))])

  const METRICS_SCHEMA := RecordS([InlineS(NumberS(1)), InlineS(CountedS(4, 0))])

  function ReplySchema(info: bool, metrics: bool): seq<FieldSchema> {
    [InlineS(NumberS(1)), InlineS(NumberS(4)), InlineS(NumberS(2)),
     InlineS(NumberS(1)), InlineS(NumberS(1)), InlineS(NumberS(2)),
     OptionalS(NumberS(4), info), OptionalS(SERVER_INFO_SCHEMA, info),
     OptionalS(NumberS(4), metrics), OptionalS(METRICS_SCHEMA, metrics)]
  }

  lemma ServerInfoConforms(i: ServerInfo, prior: seq<Field>)
    requires i.Sendable()
    ensures Conforms(SqpEncoder, SERVER_INFO_SCHEMA, prior, Record(i.Fields()))
  {
    Widths();
    ConformsByIndex(SqpEncoder, SERVER_INFO_SCHEMA.fields, [], i.Fields());
  }

  lemma MetricsConform(m: MetricsInfo, prior: seq<Field>)
    requires |m.values| == m.count
    ensures Conforms(SqpEncoder, METRICS_SCHEMA, prior, Record(m.Fields()))
  {
    Widths();
    var fs := m.Fields();
    assert ([] + fs[..1])[0] == fs[0];
    assert Fits(m.values, 4);
    ConformsByIndex(SqpEncoder, METRICS_SCHEMA.fields, [], fs);
  }

  /** A client that knows which chunks it asked for reads back exactly the record the responder built. */
  lemma QueryReplyDecodes(challenge: u32, c: Chunks)
    requires c.Sendable()
    ensures DecodeFields(SqpEncoder, ReplySchema(c.info.Some?, c.metrics.Some?), [], QueryReply(challenge, c))
         == Some((QueryFields(challenge, c), []))
  {
    var fss, fs := ReplySchema(c.info.Some?, c.metrics.Some?), QueryFields(challenge, c);
    assert FieldsConform(SqpEncoder, fss, [], fs) by {
      forall i | 0 <= i < 10
        ensures FieldConforms(SqpEncoder, fss[i], [] + fs[..i], fs[i])
      {
        FieldOfReplyConforms(challenge, c, i, [] + fs[..i]);
      }
      ConformsByIndex(SqpEncoder, fss, [], fs);
    }
    FieldsRoundTrip(SqpEncoder, fss, [], fs, []);
    assert QueryReply(challenge, c) + [] == QueryReply(challenge, c);
  }

  lemma FieldOfReplyConforms(challenge: u32, c: Chunks, i: nat, prior: seq<Field>)
    requires c.Sendable() && i < 10
    ensures FieldConforms(SqpEncoder, ReplySchema(c.info.Some?, c.metrics.Some?)[i], prior, QueryFields(challenge, c)[i])
  {
    if i < 6 {
      Widths();
      assert QueryFields(challenge, c)[i] == HeadFields(challenge, c.PayloadLength())[i];
    } else if i < 8 {
      InfoFieldConforms(c, i - 6, prior);
      assert QueryFields(challenge, c)[i] == c.InfoFields()[i - 6];
    } else {
      MetricsFieldConforms(c, i - 8, prior);
      assert QueryFields(challenge, c)[i] == c.MetricsFields()[i - 8];
    }
  }

  lemma InfoFieldConforms(c: Chunks, i: nat, prior: seq<Field>)
    requires c.Sendable() && i < 2
    ensures FieldConforms(SqpEncoder, ReplySchema(c.info.Some?, c.metrics.Some?)[i + 6], prior, c.InfoFields()[i])
  {
    if c.info.Some? {
      SizesFit(c.info.value.Size());
      ServerInfoConforms(c.info.value, prior);
    }
  }

  lemma SizesFit(size: u32)
    ensures size < Range(4)
  {
    Widths();
  }

  lemma MetricsFieldConforms(c: Chunks, i: nat, prior: seq<Field>)
    requires c.Sendable() && i < 2
    ensures FieldConforms(SqpEncoder, ReplySchema(c.info.Some?, c.metrics.Some?)[i + 8], prior, c.MetricsFields()[i])
  {
    if c.metrics.Some? {
      SizesFit(c.metrics.value.Size());
      MetricsConform(c.metrics.value, prior);
    }
  }

  /** Every string fits its length byte. */
  predicate Short(q: QueryState) {
    |q.serverName| <= 255 && |q.gameType| <= 255 && |q.gameMap| <= 255
  }

  /** The server information a client should find in a reply: the counts modulo 2^16, no build ID, the rest as kept. */
  function ReportedInfo(q: QueryState): Plain {
    Record([Inline(Number(2, q.currentPlayers % 0x1_0000)), Inline(Number(2, q.maxPlayers % 0x1_0000)),
            Inline(Text(q.serverName)), Inline(Text(q.gameType)), Inline(Text([])), Inline(Text(q.gameMap)),
            Inline(Number(2, q.port))])
  }

  /** The first ten metrics. */
  function ReportedMetrics(q: QueryState): seq<u32> {
    if |q.metrics| <= 10 then q.metrics else q.metrics[..10]
  }

  /** The whole record a client should decode, written out from the state. */
  function ReportedFields(challenge: u32, payloadLength: nat, q: QueryState, info: bool, metrics: bool): seq<Field> {
    var values := ReportedMetrics(q);
    [Inline(Number(1, 1)), Inline(Number(4, challenge)), Inline(Number(2, 1)),
     Inline(Number(1, 0)), Inline(Number(1, 0)), Inline(Number(2, payloadLength)),
     if info then Pointer(Number(4, 10 + |q.serverName| + |q.gameType| + |q.gameMap|)) else Nil,
     if info then Pointer(ReportedInfo(q)) else Nil,
     if metrics then Pointer(Number(4, 1 + 4 * |values|)) else Nil,
     if metrics then Pointer(Record([Inline(Number(1, |values|)), Inline(Numbers(4, values))])) else Nil]
  }

  /**
   * End to end: for strings of at most 255 bytes a client decodes from the reply the echoed challenge, every length
   * exact, and of the chunks it asked for precisely what the state holds.
   */
  lemma ReplyReports(challenge: u32, qs: Option<QueryState>, version: u16, mask: byte)
    requires Short(Known(qs)) && (WantsMetrics(version, mask) ==> qs.Some?)
    ensures var reply := QueryReply(challenge, ChunksFor(qs, version, mask).value);
            var info, metrics := WantsServerInfo(mask), WantsMetrics(version, mask);
            && |reply| >= 11
            && DecodeFields(SqpEncoder, ReplySchema(info, metrics), [], reply)
            == Some((ReportedFields(challenge, |reply| - 11, Known(qs), info, metrics), []))
  {
    var c := ChunksFor(qs, version, mask).value;
    PayloadLengthExact(challenge, qs, version, mask);
    ReportedRecord(challenge, qs, version, mask, c);
    QueryReplyDecodes(challenge, c);
  }

  lemma PayloadLengthExact(challenge: u32, qs: Option<QueryState>, version: u16, mask: byte)
    requires Short(Known(qs)) && (WantsMetrics(version, mask) ==> qs.Some?)
    ensures var c := ChunksFor(qs, version, mask).value;
            |QueryReply(challenge, c)| >= 11 && c.PayloadLength() == |QueryReply(challenge, c)| - 11
  {
    PayloadLengthAgrees(challenge, qs, version, mask);
  }

  lemma ReportedRecord(challenge: u32, qs: Option<QueryState>, version: u16, mask: byte, c: Chunks)
    requires Short(Known(qs)) && ChunksFor(qs, version, mask) == Some(c)
    ensures c.Sendable() && c.info.Some? == WantsServerInfo(mask) && c.metrics.Some? == WantsMetrics(version, mask)
    ensures QueryFields(challenge, c)
         == ReportedFields(challenge, c.PayloadLength(), Known(qs), WantsServerInfo(mask), WantsMetrics(version, mask))
  {
    ReportedChunks(qs, version, mask);
  }

  lemma ReportedChunks(qs: Option<QueryState>, version: u16, mask: byte)
    requires Short(Known(qs)) && (WantsMetrics(version, mask) ==> qs.Some?)
    ensures var c, q := ChunksFor(qs, version, mask).value, Known(qs);
            var values := ReportedMetrics(q);
            && c.InfoFields() == (
                 if WantsServerInfo(mask)
                 then [Pointer(Number(4, 10 + |q.serverName| + |q.gameType| + |q.gameMap|)), Pointer(ReportedInfo(q))]
                 else [Nil, Nil])
            && c.MetricsFields() == (
                 if WantsMetrics(version, mask)
                 then [Pointer(Number(4, 1 + 4 * |values|)),
                       Pointer(Record([Inline(Number(1, |values|)), Inline(Numbers(4, values))]))]
                 else [Nil, Nil])
  {
    if qs.Some? && |qs.value.metrics| <= MAX_METRICS {
      assert qs.value.metrics[..|qs.value.metrics|] == qs.value.metrics;
    }
  }

  // ---------------------------------------------------------------- the bytes of a reply

  /** A string on the wire: its length modulo 2^8, and then all of it. */
  function TextBytes(s: seq<byte>): seq<byte> {
    [|s| % 256] + s
  }

  function FloatBytes(values: seq<u32>): seq<byte> {
    if values == [] then [] else BigEndian(values[0], 4) + FloatBytes(values[1..])
  }

  /** The chunks of a reply, byte by byte, whatever the strings. */
  function InfoBytes(q: QueryState): seq<byte> {
    BigEndian((10 + |q.serverName| + |q.gameType| + |q.gameMap|) % 0x1_0000_0000, 4)
    + BigEndian(q.currentPlayers % 0x1_0000, 2) + BigEndian(q.maxPlayers % 0x1_0000, 2)
    + TextBytes(q.serverName) + TextBytes(q.gameType) + [0] + TextBytes(q.gameMap) + BigEndian(q.port, 2)
  }

  function MetricsBytes(q: QueryState): seq<byte> {
    BigEndian(1 + 4 * |ReportedMetrics(q)|, 4) + [|ReportedMetrics(q)|] + FloatBytes(ReportedMetrics(q))
  }

  function ChunkBytes(q: QueryState, info: bool, metrics: bool): seq<byte> {
    (if info then InfoBytes(q) else []) + (if metrics then MetricsBytes(q) else [])
  }

  function ReplyBytes(challenge: u32, chunks: seq<byte>): seq<byte> {
    [1] + BigEndian(challenge, 4) + [0, 1, 0, 0] + BigEndian(|chunks| % 0x1_0000, 2) + chunks
  }

  /** Every reply, of any state and with strings of any length, is these bytes. */
  lemma ReplyIsBytes(challenge: u32, qs: Option<QueryState>, version: u16, mask: byte)
    requires WantsMetrics(version, mask) ==> qs.Some?
    ensures QueryReply(challenge, ChunksFor(qs, version, mask).value)
         == ReplyBytes(challenge, ChunkBytes(Known(qs), WantsServerInfo(mask), WantsMetrics(version, mask)))
  {
    var c := ChunksFor(qs, version, mask).value;
    PartsAreBytes(qs, version, mask, c);
    LayoutIsBytes(challenge, c);
  }

  lemma PartsAreBytes(qs: Option<QueryState>, version: u16, mask: byte, c: Chunks)
    requires ChunksFor(qs, version, mask) == Some(c)
    ensures InfoPart(c) + MetricsPart(c) == ChunkBytes(Known(qs), WantsServerInfo(mask), WantsMetrics(version, mask))
  {
    if WantsServerInfo(mask) {
      InfoPartBytes(qs);
    }
    if WantsMetrics(version, mask) {
      MetricsPartBytes(qs.value);
    }
  }

  lemma LayoutIsBytes(challenge: u32, c: Chunks)
    ensures QueryReply(challenge, c) == ReplyBytes(challenge, InfoPart(c) + MetricsPart(c))
  {
    QueryReplyLayout(challenge, c);
    PayloadIsSum(c);
    var head := [1] + BigEndian(challenge, 4) + [0, 1, 0, 0] + BigEndian(c.PayloadLength(), 2);
    Prefixed(head, InfoPart(c), MetricsPart(c));
  }

  lemma InfoPartBytes(qs: Option<QueryState>)
    ensures var i := QueryStateToServerInfo(qs); ChunkPart(i.Size(), i.Fields()) == InfoBytes(Known(qs))
  {
    StateInInfo(qs);
    InfoPartBytesOf(QueryStateToServerInfo(qs), Known(qs));
  }

  predicate Tells(i: ServerInfo, q: QueryState) {
    && i.serverName == q.serverName && i.gameMap == q.gameMap && i.gameType == q.gameType && i.buildID == []
    && i.currentPlayers == q.currentPlayers % 0x1_0000 && i.maxPlayers == q.maxPlayers % 0x1_0000 && i.port == q.port
  }

  lemma StateInInfo(qs: Option<QueryState>)
    ensures Tells(QueryStateToServerInfo(qs), Known(qs))
  {
  }

  lemma InfoPartBytesOf(i: ServerInfo, q: QueryState)
    requires Tells(i, q)
    ensures ChunkPart(i.Size(), i.Fields()) == InfoBytes(q)
  {
    InfoChunkBytes(i, BigEndian(i.Size(), 4));
  }

  lemma InfoChunkBytes(i: ServerInfo, size: seq<byte>)
    requires i.buildID == []
    ensures size + EmitFields(SqpEncoder, i.Fields()).bytes
         == size + BigEndian(i.currentPlayers, 2) + BigEndian(i.maxPlayers, 2)
            + TextBytes(i.serverName) + TextBytes(i.gameType) + [0] + TextBytes(i.gameMap) + BigEndian(i.port, 2)
  {
    ServerInfoLayout(i);
    TextsAreBytes(i.serverName);
    TextsAreBytes(i.gameType);
    TextsAreBytes([]);
    TextsAreBytes(i.gameMap);
    Regroup(size, BigEndian(i.currentPlayers, 2), BigEndian(i.maxPlayers, 2),
            TextBytes(i.serverName), TextBytes(i.gameType), [0], TextBytes(i.gameMap), BigEndian(i.port, 2));
  }

  lemma TextsAreBytes(s: seq<byte>)
    ensures EncodeText(SqpEncoder, s) == TextBytes(s)
    ensures s == [] ==> TextBytes(s) == [0]
  {
  }

  lemma Regroup(s: seq<byte>, a: seq<byte>, b: seq<byte>, c: seq<byte>, d: seq<byte>, e: seq<byte>, f: seq<byte>,
                g: seq<byte>)
    ensures s + (a + b + c + d + e + f + g) == s + a + b + c + d + e + f + g
  {
  }

  lemma MetricsPartBytes(q: QueryState)
    ensures var m := QueryStateToMetrics(q); ChunkPart(m.Size(), m.Fields()) == MetricsBytes(q)
  {
    var m := QueryStateToMetrics(q);
    if |q.metrics| <= MAX_METRICS {
      assert q.metrics[..|q.metrics|] == q.metrics;
    }
    MetricsLayout(m);
    FloatsAreBytes(m.values);
    SmallNumber(m.count);
    Prefixed(BigEndian(m.Size(), 4), [m.count], FloatBytes(m.values));
  }

  lemma SmallNumber(n: byte)
    ensures BigEndian(n, 1) == [n]
  {
    assert BigEndian(n / 256, 0) == [];
  }

  lemma {:induction false} FloatsAreBytes(values: seq<u32>)
    ensures EncodeNumbers(SqpEncoder, values, 4) == FloatBytes(values)
  {
    if values != [] {
      FloatsAreBytes(values[1..]);
    }
  }
}
