/** What the Redis and the Memcached session storage share. */
module Servers {
  import opened Expiring
  import opened SessionModel

  type Entries = map<string, Entry<SessionData>>

  /** A user's index outlives the sessions in it by an hour. */
  const INDEX_GRACE := 3600
}
