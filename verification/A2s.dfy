/** The A2S information exchange: the records a responder sends, and the request parser. */
module A2s {
  import opened Bytes
  import opened Wire
  import opened Game

  const INFO_REQUEST: seq<byte> := [0xFF, 0xFF, 0xFF, 0xFF, 0x54]
  const INFO_RESPONSE: seq<byte> := [0xFF, 0xFF, 0xFF, 0xFF, 0x49]
  const CHALLENGE_RESPONSE: seq<byte> := [0xFF, 0xFF, 0xFF, 0xFF, 0x41]

  // ---------------------------------------------------------------- parsing requests

  datatype InfoRequest = InfoRequest(payload: seq<byte>, challenge: u32)

  datatype ParseError = NotAnInfoRequest | UnexpectedEof

  datatype Parsed = Ok(info: InfoRequest) | Bad(error: ParseError)

  predicate HasHeader(buf: seq<byte>) {
    |buf| >= 5 && buf[..5] == INFO_REQUEST
  }

  /**
   * What a request means: after the header, the bytes before the first NUL are the payload; the four bytes
   * after the NUL are the challenge, 0 if nothing follows it; one to three bytes there are an error.
   */
  function Meaning(buf: seq<byte>): (r: Parsed)
    requires |buf| >= 5
    ensures r.Bad? && r.error == UnexpectedEof ==> 1 <= |buf| - (5 + FirstNul(buf[5..]) + 1) <= 3
  {
    if !HasHeader(buf) then Bad(NotAnInfoRequest) else
      var end := 5 + FirstNul(buf[5..]);
      var payload := buf[5..end];
      if end + 1 >= |buf| then Ok(InfoRequest(payload, 0))
      else if end + 5 > |buf| then Bad(UnexpectedEof)
      else Ok(InfoRequest(payload, ReadChallenge(buf[end + 1..end + 5])))
  }

  function ReadChallenge(b: seq<byte>): u32
    requires |b| == 4
  {
    Widths();
    FromLittleEndian(b)
  }

  /** The read cursor of a byte buffer that the parser consumes. */
  class Reader {
    const data: seq<byte>
    var at: nat

    ghost predicate Valid()
      reads this
    {
      at <= |data|
    }

    constructor (data: seq<byte>)
      ensures Valid() && this.data == data && at == 0
    {
      this.data := data;
      at := 0;
    }

    /** Reads exactly n bytes or fails; a failed read has drained the buffer. */
    method ReadFull(n: nat) returns (b: Option<seq<byte>>)
      requires Valid()
      modifies this
      ensures Valid()
      ensures old(at) + n <= |data| ==> b == Some(data[old(at)..old(at) + n]) && at == old(at) + n
      ensures old(at) + n > |data| ==> b == None && at == |data|
    {
      if at + n <= |data| {
        b := Some(data[at..at + n]);
        at := at + n;
      } else {
        b := None;
        at := |data|;
      }
    }

    method Next(n: nat)
      requires Valid()
      modifies this
      ensures Valid()
      ensures at == if old(at) + n <= |data| then old(at) + n else |data|
    {
      at := if at + n <= |data| then at + n else |data|;
    }
  }

  /** The scanning parser: one index looks for the NUL, one cursor reads. No access is out of range. */
  method ParseInfoRequest(buf: seq<byte>) returns (r: Parsed)
    requires |buf| >= 5
    ensures r == Meaning(buf)
  {
    if buf[..5] != INFO_REQUEST {
      return Bad(NotAnInfoRequest);
    }
    var payload: seq<byte> := [];
    var reader := new Reader(buf[5..]);
    var n := 5;
    while n < |buf|
      invariant 5 <= n <= |buf|
      invariant forall i :: 5 <= i < n ==> buf[i] != 0
    {
      if buf[n] == 0 {
        break;
      }
      n := n + 1;
    }
    NulPosition(buf, n);
    var l := n - 5;
    if l > 0 {
      var d := reader.ReadFull(l);
      if d.None? {
        return Bad(UnexpectedEof);
      }
      payload := d.value;
      AfterHeader(buf, 0, l);
    }
    reader.Next(1);
    n := n + 1;
    if n >= |buf| {
      return Ok(InfoRequest(payload, 0));
    }
    var c := reader.ReadFull(4);
    if c.None? {
      return Bad(UnexpectedEof);
    }
    AfterHeader(buf, n - 5, n - 1);
    return Ok(InfoRequest(payload, ReadChallenge(c.value)));
  }

  lemma AfterHeader(buf: seq<byte>, i: nat, j: nat)
    requires i <= j <= |buf| - 5
    ensures buf[5..][i..j] == buf[5 + i..5 + j]
  {
  }

  lemma NulPosition(buf: seq<byte>, n: nat)
    requires 5 <= n <= |buf|
    requires forall i :: 5 <= i < n ==> buf[i] != 0
    requires n < |buf| ==> buf[n] == 0
    ensures 5 + FirstNul(buf[5..]) == n
  {
    assert forall i :: 0 <= i < |buf| - 5 ==> buf[5..][i] == buf[5 + i];
  }

  // ---------------------------------------------------------------- what the parser accepts

  /** The request a client sends: any NUL-free payload, and a challenge if it holds one. */
  function PrintRequest(payload: seq<byte>, challenge: u32): seq<byte> {
    [0xFF, 0xFF, 0xFF, 0xFF, 0x54] + payload + [0] + LittleEndian(challenge, 4)
  }

  lemma NulAfter(head: seq<byte>, payload: seq<byte>, tail: seq<byte>)
    requires |head| == 5 && 0 !in payload
    ensures var buf := head + payload + [0] + tail; 5 + FirstNul(buf[5..]) == 5 + |payload|
  {
    var buf := head + payload + [0] + tail;
    assert forall i :: 5 <= i < 5 + |payload| ==> buf[i] == payload[i - 5] && payload[i - 5] in payload;
    NulPosition(buf, 5 + |payload|);
  }

  /** Parsing inverts printing, whatever follows the request in the buffer. */
  lemma ParseInvertsPrint(payload: seq<byte>, challenge: u32, after: seq<byte>)
    requires 0 !in payload
    ensures Meaning(PrintRequest(payload, challenge) + after) == Ok(InfoRequest(payload, challenge))
  {
    var tail := LittleEndian(challenge, 4) + after;
    var buf := INFO_REQUEST + payload + [0] + tail;
    assert PrintRequest(payload, challenge) + after == buf;
    NulAfter(INFO_REQUEST, payload, tail);
    Widths();
    FittingRoundTrip(challenge, 4);
    var end := 5 + |payload|;
    assert buf[end + 1..end + 5] == LittleEndian(challenge, 4);
    assert buf[5..end] == payload;
    assert buf[..5] == INFO_REQUEST;
  }

  /**
   * Exactness: every accepted buffer is the header, a NUL-free payload, and then nothing, a lone NUL (both
   * meaning challenge 0), or a NUL, the challenge, and whatever follows. Nothing else is accepted.
   */
  lemma AcceptsExactly(buf: seq<byte>, info: InfoRequest)
    requires |buf| >= 5
    ensures Meaning(buf) == Ok(info) <==>
            && 0 !in info.payload
            && (|| (info.challenge == 0 && buf == INFO_REQUEST + info.payload)
                || (info.challenge == 0 && buf == INFO_REQUEST + info.payload + [0])
                || (PrintRequest(info.payload, info.challenge) <= buf))
  {
    if Meaning(buf) == Ok(info) {
      AcceptedShape(buf);
    }
    if 0 !in info.payload {
      ShapeAccepted(buf, info);
    }
  }

  lemma AcceptedShape(buf: seq<byte>)
    requires |buf| >= 5 && Meaning(buf).Ok?
    ensures var info := Meaning(buf).info;
            && 0 !in info.payload
            && (|| (info.challenge == 0 && buf == INFO_REQUEST + info.payload)
                || (info.challenge == 0 && buf == INFO_REQUEST + info.payload + [0])
                || (PrintRequest(info.payload, info.challenge) <= buf))
  {
    var end := 5 + FirstNul(buf[5..]);
    assert forall i :: 5 <= i < end ==> buf[i] == buf[5..][i - 5];
    assert buf[..end] == INFO_REQUEST + buf[5..end] by {
      assert buf[..end] == buf[..5] + buf[5..end];
    }
    if end < |buf| {
      assert buf[5..][end - 5] == 0;
      assert buf[..end + 1] == INFO_REQUEST + buf[5..end] + [0];
      if end + 5 <= |buf| {
        BytesRoundTrip(buf[end + 1..end + 5]);
        assert buf[..end + 5] == buf[..end + 1] + buf[end + 1..end + 5];
      } else {
        assert buf == buf[..end + 1];
      }
    } else {
      assert buf == buf[..end];
    }
  }

  lemma ShapeAccepted(buf: seq<byte>, info: InfoRequest)
    requires |buf| >= 5 && 0 !in info.payload
    ensures info.challenge == 0 && buf == INFO_REQUEST + info.payload ==> Meaning(buf) == Ok(info)
    ensures info.challenge == 0 && buf == INFO_REQUEST + info.payload + [0] ==> Meaning(buf) == Ok(info)
    ensures PrintRequest(info.payload, info.challenge) <= buf ==> Meaning(buf) == Ok(info)
  {
    var payload := info.payload;
    if buf == INFO_REQUEST + payload {
      assert forall i :: 5 <= i < |buf| ==> buf[i] == payload[i - 5] && payload[i - 5] in payload;
      NulPosition(buf, |buf|);
      assert buf[..5] == INFO_REQUEST && buf[5..] == payload;
    }
    if buf == INFO_REQUEST + payload + [0] {
      NulAfter(INFO_REQUEST, payload, []);
      assert buf == INFO_REQUEST + payload + [0] + [];
      assert buf[..5] == INFO_REQUEST && buf[5..5 + |payload|] == payload;
    }
    var printed := PrintRequest(payload, info.challenge);
    if printed <= buf {
      assert buf == printed + buf[|printed|..];
      ParseInvertsPrint(payload, info.challenge, buf[|printed|..]);
    }
  }

  /** With the header in place, the only failure is a challenge cut to one, two or three bytes. */
  lemma RejectsExactly(buf: seq<byte>)
    requires HasHeader(buf)
    ensures Meaning(buf).Bad? <==> exists payload: seq<byte>, cut: seq<byte> :: IsCut(buf, payload, cut)
  {
    if Meaning(buf).Bad? {
      RejectedShape(buf);
    }
    forall payload: seq<byte>, cut: seq<byte> | IsCut(buf, payload, cut) ensures Meaning(buf).Bad? {
      NulAfter(INFO_REQUEST, payload, cut);
    }
  }

  predicate IsCut(buf: seq<byte>, payload: seq<byte>, cut: seq<byte>) {
    0 !in payload && 1 <= |cut| <= 3 && buf == INFO_REQUEST + payload + [0] + cut
  }

  lemma CutHasHeader(buf: seq<byte>, payload: seq<byte>, cut: seq<byte>)
    requires IsCut(buf, payload, cut)
    ensures HasHeader(buf)
  {
    assert buf[..5] == INFO_REQUEST;
  }

  lemma RejectedShape(buf: seq<byte>)
    requires HasHeader(buf) && Meaning(buf).Bad?
    ensures var end := 5 + FirstNul(buf[5..]); end < |buf| && IsCut(buf, buf[5..end], buf[end + 1..])
  {
    var end := 5 + FirstNul(buf[5..]);
    assert buf[5..][end - 5] == 0;
    assert forall i :: 5 <= i < end ==> buf[i] == buf[5..][i - 5];
    SplitAt(buf, end);
  }

  lemma SplitAt(buf: seq<byte>, end: nat)
    requires 5 <= end < |buf|
    ensures buf == buf[..5] + buf[5..end] + [buf[end]] + buf[end + 1..]
  {
  }

  // ---------------------------------------------------------------- zero padding

  function Zeros(k: nat): seq<byte> {
    seq(k, _ => 0)
  }

  /** How many bytes an accepted request has from its NUL on: 0 (no NUL), 1 (a lone NUL), or at least 5. */
  function TailLength(buf: seq<byte>): nat
    requires |buf| >= 5
  {
    |buf| - 5 - FirstNul(buf[5..])
  }

  lemma PaddedNul(buf: seq<byte>, k: nat)
    requires |buf| >= 5
    ensures FirstNul((buf + Zeros(k))[5..]) == FirstNul(buf[5..])
  {
    var n := 5 + FirstNul(buf[5..]);
    var padded := buf + Zeros(k);
    assert forall i :: 5 <= i < n ==> padded[i] == buf[5..][i - 5];
    assert n < |buf| ==> padded[n] == buf[5..][n - 5];
    NulPosition(padded, n);
  }

  /**
   * Padding an accepted request with k zero bytes keeps its payload and challenge, except where the zeros form a
   * cut challenge: they complete the tail to 2, 3 or 4 bytes.
   */
  lemma PaddingTransparentExactly(buf: seq<byte>, k: nat)
    requires |buf| >= 5 && Meaning(buf).Ok?
    ensures Meaning(buf + Zeros(k)) == Meaning(buf) <==> !(2 <= TailLength(buf) + k <= 4)
  {
    PaddedNul(buf, k);
    var padded := buf + Zeros(k);
    var end := 5 + FirstNul(buf[5..]);
    PaddedSlice(buf, k, 0, 5);
    PaddedSlice(buf, k, 5, end);
    if TailLength(buf) >= 5 {
      PaddedSlice(buf, k, end + 1, end + 5);
    } else if TailLength(buf) + k >= 5 {
      PaddingSlice(buf, k, end + 1, end + 5);
      ZeroChallenge();
    }
  }

  lemma PaddedSlice(buf: seq<byte>, k: nat, i: nat, j: nat)
    requires i <= j <= |buf|
    ensures (buf + Zeros(k))[i..j] == buf[i..j]
  {
  }

  lemma PaddingSlice(buf: seq<byte>, k: nat, i: nat, j: nat)
    requires |buf| <= i <= j <= |buf| + k
    ensures (buf + Zeros(k))[i..j] == Zeros(j - i)
  {
  }

  lemma ZeroChallenge()
    ensures FromLittleEndian(Zeros(4)) == 0
  {
    assert Zeros(4) == LittleEndian(0, 4) by {
      assert LittleEndian(0, 2) == [0, 0];
      assert LittleEndian(0, 4) == [0, 0] + LittleEndian(0, 2);
    }
    Widths();
    FittingRoundTrip(0, 4);
  }

  /** For any packet: padding keeps its meaning unless the tail is cut to 2, 3 or 4 bytes only before, or only after. */
  lemma PaddingKeepsMeaningExactly(buf: seq<byte>, k: nat)
    requires |buf| >= 5
    ensures Meaning(buf + Zeros(k)) == Meaning(buf) <==>
            (HasHeader(buf) ==> (2 <= TailLength(buf) <= 4 <==> 2 <= TailLength(buf) + k <= 4))
    ensures Meaning(buf + Zeros(k)) != Meaning(buf) ==> Meaning(buf + Zeros(k)).Ok? != Meaning(buf).Ok?
  {
    assert (buf + Zeros(k))[..5] == buf[..5];
    PaddedNul(buf, k);
    if Meaning(buf).Ok? {
      PaddingTransparentExactly(buf, k);
    }
  }

  /** No padding, or five zeros and more, is transparent for every accepted request. */
  lemma PaddingTransparent(buf: seq<byte>, k: nat)
    requires |buf| >= 5 && Meaning(buf).Ok?
    requires k == 0 || k >= 5
    ensures Meaning(buf + Zeros(k)) == Meaning(buf)
  {
    if TailLength(buf) + k >= 5 || k == 0 {
      PaddingTransparentExactly(buf, k);
    }
  }

  /** A request cut inside its challenge is rejected alone but accepted, zero-extended, once padded to full length. */
  lemma PaddingRescuesCutChallenge(payload: seq<byte>, cut: seq<byte>, k: nat)
    requires 0 !in payload && 1 <= |cut| <= 3 && k >= 4 - |cut|
    ensures var buf := INFO_REQUEST + payload + [0] + cut;
            && Meaning(buf) == Bad(UnexpectedEof)
            && Meaning(buf + Zeros(k)) == Ok(InfoRequest(payload, ReadChallenge(cut + Zeros(4 - |cut|))))
  {
    var buf := INFO_REQUEST + payload + [0] + cut;
    NulAfter(INFO_REQUEST, payload, cut);
    PaddedNul(buf, k);
    var padded := buf + Zeros(k);
    var end := 5 + |payload|;
    assert buf[..5] == INFO_REQUEST && buf[5..end] == payload;
    PaddedSlice(buf, k, 0, 5);
    PaddedSlice(buf, k, 5, end);
    CutExtended(INFO_REQUEST + payload + [0], cut, k);
  }

  lemma CutExtended(head: seq<byte>, cut: seq<byte>, k: nat)
    requires |cut| <= 4 && k >= 4 - |cut|
    ensures (head + cut + Zeros(k))[|head|..|head| + 4] == cut + Zeros(4 - |cut|)
  {
  }

  // ---------------------------------------------------------------- replies

  datatype Platform = Darwin | Windows | OtherPlatform

  /** 'm', 'w' or 'l' for the operating system the server runs on. */
  function EnvironmentFromRuntime(platform: Platform): byte {
    match platform
    case Darwin => 109
    case Windows => 119
    case OtherPlatform => 108
  }

  function ChallengeFields(challenge: u32): seq<Field> {
    [Inline(Numbers(1, CHALLENGE_RESPONSE)), Inline(Number(4, challenge))]
  }

  datatype Info = Info(serverName: seq<byte>, gameMap: seq<byte>, gameName: seq<byte>, playerCount: byte, maxPlayers: byte)

  function QueryStateToInfo(qs: Option<QueryState>): Info {
    match qs
    case None => Info(NOT_AVAILABLE, NOT_AVAILABLE, NOT_AVAILABLE, 0, 0)
    case Some(q) =>
      Info(q.serverName, q.gameMap, q.gameType, Truncate(q.currentPlayers, 256), Truncate(q.maxPlayers, 256))
  }

  /** Header, protocol 1, names, application 0, counts, no bots, 'd' for dedicated, platform, flags, version. */
  function InfoFields(platform: Platform, i: Info): seq<Field> {
    [Inline(Numbers(1, INFO_RESPONSE)), Inline(Number(1, 1)),
     Inline(Text(i.serverName)), Inline(Text(i.gameMap)), Inline(Text(NOT_AVAILABLE)), Inline(Text(i.gameName)),
     Inline(Number(2, 0)), Inline(Number(1, i.playerCount)), Inline(Number(1, i.maxPlayers)), Inline(Number(1, 0)),
     Inline(Number(1, 100)), Inline(Number(1, EnvironmentFromRuntime(platform))),
     Inline(Number(1, 0)), Inline(Number(1, 0)), Inline(Text([]))]
  }

  function InfoReply(platform: Platform, qs: Option<QueryState>): seq<byte> {
    EmitFields(A2sEncoder, InfoFields(platform, QueryStateToInfo(qs))).bytes
  }

  lemma {:induction false} RawBytes(b: seq<byte>)
    ensures EncodeNumbers(A2sEncoder, b, 1) == b
  {
    if b != [] {
      RawBytes(b[1..]);
      assert LittleEndian(b[0], 1) == [b[0]];
    }
  }

  lemma ChallengeLayout(challenge: u32)
    ensures EmitFields(A2sEncoder, ChallengeFields(challenge))
         == Emission(CHALLENGE_RESPONSE + LittleEndian(challenge, 4), true)
  {
    RawBytes(CHALLENGE_RESPONSE);
    EmitPair(A2sEncoder, Inline(Numbers(1, CHALLENGE_RESPONSE)), Inline(Number(4, challenge)));
  }

  /** A challenge reply is the 5-byte header and the challenge. */
  function ChallengeReply(challenge: u32): (reply: seq<byte>)
    ensures reply == [0xFF, 0xFF, 0xFF, 0xFF, 0x41] + LittleEndian(challenge, 4)
  {
    ChallengeLayout(challenge);
    EmitFields(A2sEncoder, ChallengeFields(challenge)).bytes
  }

  const INFO_SCHEMA: seq<FieldSchema> :=
    [InlineS(FixedS(1, 5)), InlineS(NumberS(1)),
     InlineS(TextS), InlineS(TextS), InlineS(TextS), InlineS(TextS),
     InlineS(NumberS(2)), InlineS(NumberS(1)), InlineS(NumberS(1)), InlineS(NumberS(1)),
     InlineS(NumberS(1)), InlineS(NumberS(1)), InlineS(NumberS(1)), InlineS(NumberS(1)), InlineS(TextS)]

  lemma InfoFieldConforms(platform: Platform, i: Info, k: nat, prior: seq<Field>)
    requires 0 !in i.serverName && 0 !in i.gameMap && 0 !in i.gameName
    requires k < 15
    ensures FieldConforms(A2sEncoder, INFO_SCHEMA[k], prior, InfoFields(platform, i)[k])
  {
    Widths();
  }

  /** Building an information record never fails to be written, whatever the strings. */
  lemma InfoWritable(platform: Platform, i: Info)
    ensures EmitFields(A2sEncoder, InfoFields(platform, i)).ok
  {
    var fs := InfoFields(platform, i);
    WriteFailsExactly(A2sEncoder, fs);
    forall f | f in fs ensures FieldWritable(f) {
      var k :| 0 <= k < |fs| && fs[k] == f;
      FlatWritable(platform, i, k);
    }
  }

  lemma FlatWritable(platform: Platform, i: Info, k: nat)
    requires k < 15
    ensures FieldWritable(InfoFields(platform, i)[k])
  {
  }

  /** The record a client should decode, written out from the state. */
  function ReportedFields(platform: Platform, q: QueryState): seq<Field> {
    [Inline(Numbers(1, [0xFF, 0xFF, 0xFF, 0xFF, 0x49])), Inline(Number(1, 1)),
     Inline(Text(q.serverName)), Inline(Text(q.gameMap)), Inline(Text([110, 47, 97])), Inline(Text(q.gameType)),
     Inline(Number(2, 0)), Inline(Number(1, q.currentPlayers % 256)), Inline(Number(1, q.maxPlayers % 256)),
     Inline(Number(1, 0)), Inline(Number(1, 'd' as int)), Inline(Number(1, PlatformLetter(platform) as int)),
     Inline(Number(1, 0)), Inline(Number(1, 0)), Inline(Text([]))]
  }

  function PlatformLetter(platform: Platform): char {
    match platform
    case Darwin => 'm'
    case Windows => 'w'
    case OtherPlatform => 'l'
  }

  /** No string holds a NUL. */
  predicate NulFree(q: QueryState) {
    0 !in q.serverName && 0 !in q.gameMap && 0 !in q.gameType
  }

  /**
   * End to end: when no string holds a NUL, a client decodes from the reply precisely what the state holds, the two
   * counts modulo 2^8.
   */
  lemma InfoReplyReports(platform: Platform, qs: Option<QueryState>)
    requires NulFree(Known(qs))
    ensures DecodeFields(A2sEncoder, INFO_SCHEMA, [], InfoReply(platform, qs))
         == Some((ReportedFields(platform, Known(qs)), []))
  {
    RecordDecodes(platform, QueryStateToInfo(qs));
    assert NOT_AVAILABLE == [110, 47, 97];
    RecordReports(platform, qs);
  }

  lemma RecordReports(platform: Platform, qs: Option<QueryState>)
    ensures InfoFields(platform, QueryStateToInfo(qs)) == ReportedFields(platform, Known(qs))
  {
  }

  lemma RecordDecodes(platform: Platform, i: Info)
    requires 0 !in i.serverName && 0 !in i.gameMap && 0 !in i.gameName
    ensures var fs := InfoFields(platform, i);
            DecodeFields(A2sEncoder, INFO_SCHEMA, [], EmitFields(A2sEncoder, fs).bytes) == Some((fs, []))
  {
    var fs := InfoFields(platform, i);
    forall k | 0 <= k < 15
      ensures FieldConforms(A2sEncoder, INFO_SCHEMA[k], [] + fs[..k], fs[k])
    {
      InfoFieldConforms(platform, i, k, [] + fs[..k]);
    }
    ConformsByIndex(A2sEncoder, INFO_SCHEMA, [], fs);
    FieldsRoundTrip(A2sEncoder, INFO_SCHEMA, [], fs, []);
    assert EmitFields(A2sEncoder, fs).bytes + [] == EmitFields(A2sEncoder, fs).bytes;
  }

  // ---------------------------------------------------------------- the bytes of a reply

  /** An information reply, byte by byte, whatever the strings: each ends in a NUL, and the game folder is "n/a". */
  function ReplyBytes(platform: Platform, q: QueryState): seq<byte> {
    [0xFF, 0xFF, 0xFF, 0xFF, 0x49, 1]
    + q.serverName + [0] + q.gameMap + [0] + [110, 47, 97, 0] + q.gameType + [0]
    + [0, 0, q.currentPlayers % 256, q.maxPlayers % 256, 0, 'd' as int, PlatformLetter(platform) as int, 0, 0, 0]
  }

  lemma ReplyIsBytes(platform: Platform, qs: Option<QueryState>)
    ensures InfoReply(platform, qs) == ReplyBytes(platform, Known(qs))
  {
    StateInInfo(qs);
    RecordBytes(platform, QueryStateToInfo(qs), Known(qs));
  }

  predicate Tells(i: Info, q: QueryState) {
    && i.serverName == q.serverName && i.gameMap == q.gameMap && i.gameName == q.gameType
    && i.playerCount == q.currentPlayers % 256 && i.maxPlayers == q.maxPlayers % 256
  }

  lemma StateInInfo(qs: Option<QueryState>)
    ensures Tells(QueryStateToInfo(qs), Known(qs))
  {
  }

  lemma RecordBytes(platform: Platform, i: Info, q: QueryState)
    requires Tells(i, q)
    ensures EmitFields(A2sEncoder, InfoFields(platform, i)).bytes == ReplyBytes(platform, q)
  {
    var head, names := [Inline(Numbers(1, INFO_RESPONSE)), Inline(Number(1, 1))], NameFields(i);
    var tail := [i.playerCount, i.maxPlayers, 0, 100, EnvironmentFromRuntime(platform), 0, 0];
    HeadBytes();
    NameBytes(i);
    TailBytes(tail);
    EmitSplit(A2sEncoder, head, names);
    EmitSplit(A2sEncoder, head + names, TailFields(tail));
    RecordSplits(platform, i);
    var last := [0, 0, i.playerCount, i.maxPlayers, 0, 100, EnvironmentFromRuntime(platform), 0, 0, 0];
    assert [0, 0] + tail + [0] == last;
    Regroup([0xFF, 0xFF, 0xFF, 0xFF, 0x49, 1], i.serverName, i.gameMap, i.gameName, last);
  }

  lemma Regroup(h: seq<byte>, a: seq<byte>, b: seq<byte>, c: seq<byte>, t: seq<byte>)
    ensures h + (a + [0] + b + [0] + [110, 47, 97, 0] + c + [0]) + t
         == h + a + [0] + b + [0] + [110, 47, 97, 0] + c + [0] + t
  {
  }

  function NameFields(i: Info): seq<Field> {
    [Inline(Text(i.serverName)), Inline(Text(i.gameMap)), Inline(Text(NOT_AVAILABLE)), Inline(Text(i.gameName))]
  }

  function ByteFields(bs: seq<byte>): seq<Field> {
    if bs == [] then [] else [Inline(Number(1, bs[0]))] + ByteFields(bs[1..])
  }

  function TailFields(bs: seq<byte>): seq<Field> {
    [Inline(Number(2, 0))] + ByteFields(bs) + [Inline(Text([]))]
  }

  lemma RecordSplits(platform: Platform, i: Info)
    ensures InfoFields(platform, i)
         == [Inline(Numbers(1, INFO_RESPONSE)), Inline(Number(1, 1))] + NameFields(i)
            + TailFields([i.playerCount, i.maxPlayers, 0, 100, EnvironmentFromRuntime(platform), 0, 0])
  {
    SevenFields([i.playerCount, i.maxPlayers, 0, 100, EnvironmentFromRuntime(platform), 0, 0]);
  }

  lemma SevenFields(bs: seq<byte>)
    requires |bs| == 7
    ensures ByteFields(bs)
         == [Inline(Number(1, bs[0])), Inline(Number(1, bs[1])), Inline(Number(1, bs[2])), Inline(Number(1, bs[3])),
             Inline(Number(1, bs[4])), Inline(Number(1, bs[5])), Inline(Number(1, bs[6]))]
  {
    FieldsOfBytes(bs);
  }

  lemma {:induction false} FieldsOfBytes(bs: seq<byte>)
    ensures |ByteFields(bs)| == |bs|
    ensures forall k :: 0 <= k < |bs| ==> ByteFields(bs)[k] == Inline(Number(1, bs[k]))
  {
    if bs != [] {
      FieldsOfBytes(bs[1..]);
    }
  }

  lemma {:induction false} BytesEmitted(bs: seq<byte>)
    ensures EmitFields(A2sEncoder, ByteFields(bs)) == Emission(bs, true)
  {
    if bs != [] {
      BytesEmitted(bs[1..]);
      SmallNumber(bs[0]);
      EmitOne(A2sEncoder, Inline(Number(1, bs[0])));
      EmitSplit(A2sEncoder, [Inline(Number(1, bs[0]))], ByteFields(bs[1..]));
    }
  }

  lemma SmallNumber(n: byte)
    ensures LittleEndian(n, 1) == [n]
  {
    assert LittleEndian(n / 256, 0) == [];
  }

  lemma HeadBytes()
    ensures EmitFields(A2sEncoder, [Inline(Numbers(1, INFO_RESPONSE)), Inline(Number(1, 1))])
         == Emission([0xFF, 0xFF, 0xFF, 0xFF, 0x49, 1], true)
  {
    RawBytes(INFO_RESPONSE);
    SmallNumber(1);
    EmitPair(A2sEncoder, Inline(Numbers(1, INFO_RESPONSE)), Inline(Number(1, 1)));
  }

  lemma NameBytes(i: Info)
    ensures EmitFields(A2sEncoder, NameFields(i))
         == Emission(i.serverName + [0] + i.gameMap + [0] + [110, 47, 97, 0] + i.gameName + [0], true)
  {
    var a, b, c, d := Inline(Text(i.serverName)), Inline(Text(i.gameMap)), Inline(Text(NOT_AVAILABLE)), Inline(Text(i.gameName));
    EmitPair(A2sEncoder, a, b);
    EmitPair(A2sEncoder, c, d);
    EmitSplit(A2sEncoder, [a, b], [c, d]);
    assert NameFields(i) == [a, b] + [c, d];
    FourTexts(i.serverName, i.gameMap, i.gameName);
  }

  lemma FourTexts(a: seq<byte>, b: seq<byte>, c: seq<byte>)
    ensures ((a + [0]) + (b + [0])) + ((NOT_AVAILABLE + [0]) + (c + [0]))
         == a + [0] + b + [0] + [110, 47, 97, 0] + c + [0]
  {
  }

  lemma TailBytes(bs: seq<byte>)
    ensures EmitFields(A2sEncoder, TailFields(bs)) == Emission([0, 0] + bs + [0], true)
  {
    var first, last := Inline(Number(2, 0)), Inline(Text([]));
    EmitOne(A2sEncoder, first);
    EmitOne(A2sEncoder, last);
    BytesEmitted(bs);
    EmitSplit(A2sEncoder, [first], ByteFields(bs));
    EmitSplit(A2sEncoder, [first] + ByteFields(bs), [last]);
    assert LittleEndian(0, 2) == [0, 0] by {
      assert LittleEndian(0, 2) == [0] + LittleEndian(0, 1);
    }
  }
}
