/** The server's acceptance window for client timestamps (server/parsec/ballpark.py). */
module Ballpark {
  import opened Basics

  const BALLPARK_CLIENT_EARLY_OFFSET: int := 300_000_000
  const BALLPARK_CLIENT_LATE_OFFSET: int := 320_000_000

  datatype Verdict = InTheBallpark | OutOfBallpark(clientTimestamp: DateTime, serverTimestamp: DateTime)

  function TimestampsInTheBallpark(client: DateTime, server: DateTime): Verdict
  {
    var elapsed := server - client;
    if -BALLPARK_CLIENT_EARLY_OFFSET < elapsed < BALLPARK_CLIENT_LATE_OFFSET then
      InTheBallpark
    else
      OutOfBallpark(client, server)
  }

  /** Latest snapshot an export started at `now` may ask for. */
  function EarliestAllowedSnapshotTimestamp(now: DateTime): DateTime
  {
    now - BALLPARK_CLIENT_LATE_OFFSET
  }

  /** A client may be less than 300 s ahead of the server, and less than 320 s behind. */
  lemma WindowIs(client: DateTime, server: DateTime)
    ensures TimestampsInTheBallpark(client, server).InTheBallpark?
       <==> server - 320 * 1_000_000 < client < server + 300 * 1_000_000
    ensures TimestampsInTheBallpark(client, server).OutOfBallpark? ==>
              TimestampsInTheBallpark(client, server) == OutOfBallpark(client, server)
  {
  }
}
