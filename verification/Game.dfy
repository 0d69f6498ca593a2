/** The game state that query replies report: a consistent snapshot of what the server keeps. */
module Game {
  import opened Bytes

  /** Strings are byte sequences; metrics are the bit patterns of 32-bit floats. */
  datatype QueryState = QueryState(
    currentPlayers: int32,
    maxPlayers: int32,
    serverName: seq<byte>,
    gameType: seq<byte>,
    gameMap: seq<byte>,
    port: u16,
    metrics: seq<u32>)

  /** The bytes of "n/a". */
  const NOT_AVAILABLE: seq<byte> := [110, 47, 97]

  /** What replies tell of a state that may be missing: then no players, and "n/a" for the names. */
  function Known(qs: Option<QueryState>): QueryState {
    match qs
    case Some(q) => q
    case None => QueryState(0, 0, [110, 47, 97], [110, 47, 97], [110, 47, 97], 0, [])
  }

  /** Conversion of a signed number to an unsigned one of `bits` values keeps the low bits. */
  function Truncate(x: int, bits: nat): (r: nat)
    requires bits > 0
    ensures r < bits
    ensures 0 <= x < bits ==> r == x
  {
    x % bits
  }
}
