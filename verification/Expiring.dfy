/** What Redis and Memcached are taken to be: maps of entries that are alive strictly before a deadline. */
module Expiring {
  import opened Wrappers

  datatype Entry<+T> = Entry(data: T, deadline: int)

  predicate Alive<T>(es: map<string, Entry<T>>, k: string, now: int) {
    k in es && now < es[k].deadline
  }

  function Fetched<T>(es: map<string, Entry<T>>, k: string, now: int): Option<T> {
    if Alive(es, k, now) then Some(es[k].data) else None
  }
}
