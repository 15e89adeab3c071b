/**
 What the three session storages give back, said from the calls alone: each entry lives by the
 lifetimes it was given, whatever happens to other entries, to the index or to expired ones.
 */
module StorageHistory {
  import opened Wrappers
  import opened Dicts
  import opened Expiring
  import opened Servers
  import opened SessionModel
  import MemoryStorage
  import RedisStorage
  import MemcachedStorage

  /** `life` is the lifetime given or the storage's own. */
  datatype Op =
    | Store(id: string, data: SessionData, life: int, now: int)
    | Update(id: string, data: SessionData, reset: bool, life: int, now: int)
    | Delete(id: string, now: int)
    | Extend(id: string, life: int, now: int)
    | Look(id: string, now: int)
    | Scan(now: int)

  /**
   How storages differ: in memory an entry is still there at its deadline, that is one instant longer,
   and Memcached renews an entry at every update.
   */
  datatype Kind = Kind(extra: int, renews: bool)

  const IN_MEMORY := Kind(1, false)
  const ON_REDIS := Kind(0, false)
  const ON_MEMCACHED := Kind(0, true)

  function Readable(e: Option<Entry<SessionData>>, now: int): Option<SessionData> {
    if e.Some? && now < e.value.deadline then Some(e.value.data) else None
  }

  /** What a call makes of the entry under the id it names. */
  function Next(e: Option<Entry<SessionData>>, op: Op, kind: Kind): Option<Entry<SessionData>> {
    match op
    case Store(_, data, life, now) => Some(Entry(data, now + life + kind.extra))
    case Update(_, data, reset, life, now) =>
      if Readable(e, now).None? then e
      else if reset || kind.renews then Some(Entry(data, now + life + kind.extra))
      else Some(e.value.(data := data))
    case Delete(_, _) => None
    case Extend(_, life, now) =>
      if Readable(e, now).None? then e else Some(e.value.(deadline := now + life + kind.extra))
    case _ => e
  }

  /** The entry under `id` after the calls on it. */
  function Kept(ops: seq<Op>, id: string, kind: Kind): Option<Entry<SessionData>> {
    if ops == [] then None
    else
      var e, op := Kept(ops[..|ops| - 1], id, kind), ops[|ops| - 1];
      if op.Scan? || op.id != id then e else Next(e, op, kind)
  }

  ghost predicate Ordered(ops: seq<Op>, now: int) {
    && (forall i, j | 0 <= i <= j < |ops| :: ops[i].now <= ops[j].now)
    && forall i | 0 <= i < |ops| :: ops[i].now <= now
  }

  // ------------------------------------------------------------- in memory

  type Memory = MemoryStorage.Store<SessionData>

  function InMemory(st: Memory, op: Op): Memory {
    match op
    case Store(id, data, life, now) => MemoryStorage.Write(st, id, data, now + life)
    case Update(id, data, reset, life, now) =>
      MemoryStorage.Rewritten(st, id, data, now, if reset || id !in st.expiry then now + life else st.expiry[id])
    case Delete(id, _) => if id in st.data.at then MemoryStorage.Drop(st, id) else st
    case Extend(id, life, now) =>
      if MemoryStorage.Lookup(st, id, now).Some? then MemoryStorage.Write(st, id, st.data.at[id], now + life)
      else MemoryStorage.Checked(st, id, now)
    case Look(id, now) => MemoryStorage.Checked(st, id, now)
    case Scan(now) => MemoryStorage.View(st, now)
  }

  function MemoryAfter(ops: seq<Op>): Memory {
    if ops == [] then MemoryStorage.Store(Empty(), map[])
    else InMemory(MemoryAfter(ops[..|ops| - 1]), ops[|ops| - 1])
  }

  /** `st'` has under `id` what `st` has. */
  ghost predicate Same(st: Memory, st': Memory, id: string) {
    && (id in st'.data.at <==> id in st.data.at) && (id in st'.expiry <==> id in st.expiry)
    && (id in st.data.at ==> st'.data.at[id] == st.data.at[id])
    && (id in st.expiry ==> st'.expiry[id] == st.expiry[id])
  }

  lemma {:induction false} OtherWritten(st: Memory, k: string, data: SessionData, deadline: int, id: string)
    requires MemoryStorage.Sound(st) && k != id
    ensures var st' := MemoryStorage.Write(st, k, data, deadline); MemoryStorage.Sound(st') && Same(st, st', id)
  {
    PutProper(st.data, k, data);
  }

  lemma {:induction false} OtherDropped(st: Memory, k: string, now: int, id: string)
    requires MemoryStorage.Sound(st) && k != id
    ensures var st' := MemoryStorage.Drop(st, k); MemoryStorage.Sound(st') && Same(st, st', id)
    ensures var st' := MemoryStorage.Checked(st, k, now); MemoryStorage.Sound(st') && Same(st, st', id)
  {
    MemoryStorage.CheckedSound(st, k, now);
  }

  ghost predicate MemoryKeeps(st: Memory, id: string, e: Option<Entry<SessionData>>, now: int) {
    && MemoryStorage.Sound(st)
    && if Readable(e, now).Some?
       then id in st.data.at && st.data.at[id] == e.value.data && st.expiry[id] + 1 == e.value.deadline
       else id in st.data.at ==> st.expiry[id] < now
  }

  lemma {:induction false} SameKeeps(st: Memory, st': Memory, id: string, e: Option<Entry<SessionData>>, now: int)
    requires MemoryKeeps(st, id, e, now) && Same(st, st', id) && MemoryStorage.Sound(st')
    ensures MemoryKeeps(st', id, e, now)
  {
  }

  lemma {:induction false} RewriteElsewhere(st: Memory, k: string, data: SessionData, deadline: int, now: int,
        id: string)
    requires MemoryStorage.Sound(st) && k != id
    ensures var st' := MemoryStorage.Rewritten(st, k, data, now, deadline);
      MemoryStorage.Sound(st') && Same(st, st', id)
  {
    OtherDropped(st, k, now, id);
    OtherWritten(st, k, data, deadline, id);
  }

  lemma {:induction false} CallElsewhere(st: Memory, op: Op, id: string)
    requires MemoryStorage.Sound(st) && !op.Scan? && op.id != id
    ensures MemoryStorage.Sound(InMemory(st, op)) && Same(st, InMemory(st, op), id)
  {
    match op
    case Store(k, data, life, now) => OtherWritten(st, k, data, now + life, id);
    case Update(k, data, reset, life, now) =>
      RewriteElsewhere(st, k, data, if reset || k !in st.expiry then now + life else st.expiry[k], now, id);
    case Extend(k, life, now) => ExtendElsewhere(st, op, id);
    case Delete(k, now) => OtherDropped(st, k, now, id);
    case Look(k, now) => OtherDropped(st, k, now, id);
  }

  lemma {:induction false} ExtendElsewhere(st: Memory, op: Op, id: string)
    requires MemoryStorage.Sound(st) && op.Extend? && op.id != id
    ensures MemoryStorage.Sound(InMemory(st, op)) && Same(st, InMemory(st, op), id)
  {
    if MemoryStorage.Lookup(st, op.id, op.now).Some? {
      OtherWritten(st, op.id, st.data.at[op.id], op.now + op.life, id);
    } else {
      OtherDropped(st, op.id, op.now, id);
    }
  }

  lemma {:induction false} MemoryScanned(st: Memory, id: string, e: Option<Entry<SessionData>>, now: int)
    requires MemoryKeeps(st, id, e, now)
    ensures MemoryKeeps(MemoryStorage.View(st, now), id, e, now)
    ensures MemoryKeeps(MemoryStorage.Checked(st, id, now), id, e, now)
  {
    MemoryStorage.CheckedSound(st, id, now);
  }

  lemma {:induction false} MemoryWritten(st: Memory, id: string, data: SessionData, deadline: int, now: int)
    requires MemoryStorage.Sound(st)
    ensures MemoryKeeps(MemoryStorage.Write(st, id, data, deadline), id, Some(Entry(data, deadline + 1)), now)
  {
    PutProper(st.data, id, data);
  }

  lemma {:induction false} MemoryDropped(st: Memory, id: string, now: int)
    requires MemoryStorage.Sound(st)
    ensures MemoryKeeps(MemoryStorage.Drop(st, id), id, None, now)
  {
    MemoryStorage.CheckedSound(st, id, now);
  }

  lemma {:induction false} MemoryUpdated(st: Memory, op: Op, e: Option<Entry<SessionData>>)
    requires op.Update? && MemoryKeeps(st, op.id, e, op.now)
    ensures MemoryKeeps(InMemory(st, op), op.id, Next(e, op, IN_MEMORY), op.now)
  {
    if Readable(e, op.now).Some? {
      MemoryWritten(st, op.id, op.data, if op.reset then op.now + op.life else st.expiry[op.id], op.now);
    } else {
      MemoryScanned(st, op.id, e, op.now);
    }
  }

  lemma {:induction false} MemoryExtended(st: Memory, op: Op, e: Option<Entry<SessionData>>)
    requires op.Extend? && MemoryKeeps(st, op.id, e, op.now)
    ensures MemoryKeeps(InMemory(st, op), op.id, Next(e, op, IN_MEMORY), op.now)
  {
    if Readable(e, op.now).Some? {
      MemoryWritten(st, op.id, st.data.at[op.id], op.now + op.life, op.now);
    } else {
      MemoryScanned(st, op.id, e, op.now);
    }
  }

  lemma {:induction false} MemoryCalled(st: Memory, op: Op, e: Option<Entry<SessionData>>)
    requires !op.Scan? && MemoryKeeps(st, op.id, e, op.now)
    ensures MemoryKeeps(InMemory(st, op), op.id, Next(e, op, IN_MEMORY), op.now)
  {
    match op
    case Store(id, data, life, now) => MemoryWritten(st, id, data, now + life, now);
    case Update(_, _, _, _, _) => MemoryUpdated(st, op, e);
    case Delete(id, now) => MemoryDropped(st, id, now);
    case Extend(_, _, _) => MemoryExtended(st, op, e);
    case Look(id, now) => MemoryScanned(st, id, e, now);
  }

  /** In memory, looking an id up gives what the calls on it have left there. */
  lemma {:induction false} MemoryIsHistory(ops: seq<Op>, id: string, now: int)
    requires Ordered(ops, now)
    ensures MemoryStorage.Lookup(MemoryAfter(ops), id, now) == Readable(Kept(ops, id, IN_MEMORY), now)
    ensures MemoryKeeps(MemoryAfter(ops), id, Kept(ops, id, IN_MEMORY), now)
  {
    if ops != [] {
      var front, op := ops[..|ops| - 1], ops[|ops| - 1];
      MemoryIsHistory(front, id, op.now);
      if !op.Scan? && op.id != id {
        CallElsewhere(MemoryAfter(front), op, id);
        SameKeeps(MemoryAfter(front), MemoryAfter(ops), id, Kept(front, id, IN_MEMORY), op.now);
      } else if op.Scan? {
        MemoryScanned(MemoryAfter(front), id, Kept(front, id, IN_MEMORY), op.now);
      } else {
        MemoryCalled(MemoryAfter(front), op, Kept(front, id, IN_MEMORY));
      }
      MemoryLater(MemoryAfter(ops), id, Kept(ops, id, IN_MEMORY), op.now, now);
    }
  }

  lemma {:induction false} MemoryLater(st: Memory, id: string, e: Option<Entry<SessionData>>, now: int, later: int)
    requires MemoryKeeps(st, id, e, now) && now <= later
    ensures MemoryKeeps(st, id, e, later)
  {
  }

  // ------------------------------------------------------------- on the servers

  function OnRedis(s: RedisStorage.Server, op: Op): RedisStorage.Server {
    match op
    case Store(id, data, life, now) => RedisStorage.Created(s, id, data, now, life)
    case Update(id, data, reset, life, now) => RedisStorage.Updated(s, id, data, reset, now, life)
    case Delete(id, now) => RedisStorage.Deleted(s, id, now)
    case Extend(id, life, now) => RedisStorage.Extended(s, id, now, life)
    case _ => s
  }

  function RedisAfter(ops: seq<Op>): RedisStorage.Server {
    if ops == [] then RedisStorage.Server(map[], map[]) else OnRedis(RedisAfter(ops[..|ops| - 1]), ops[|ops| - 1])
  }

  function OnMemcached(s: MemcachedStorage.Server, op: Op): MemcachedStorage.Server {
    match op
    case Store(id, data, life, now) => MemcachedStorage.Created(s, id, data, now, life)
    case Update(id, data, reset, life, now) => MemcachedStorage.Updated(s, id, data, reset, now, life)
    case Delete(id, now) => MemcachedStorage.Deleted(s, id, now)
    case Extend(id, life, now) => MemcachedStorage.Extended(s, id, now, life)
    case _ => s
  }

  function MemcachedAfter(ops: seq<Op>): MemcachedStorage.Server {
    if ops == [] then MemcachedStorage.Server(map[], map[])
    else OnMemcached(MemcachedAfter(ops[..|ops| - 1]), ops[|ops| - 1])
  }

  ghost predicate ServerKeeps(es: Entries, id: string, e: Option<Entry<SessionData>>, now: int) {
    && Fetched(es, id, now) == Readable(e, now)
    && (Readable(e, now).Some? ==> es[id] == e.value)
  }

  /** On Redis as well, whatever the user's set holds. */
  lemma {:induction false} RedisIsHistory(ops: seq<Op>, id: string, now: int)
    requires Ordered(ops, now)
    ensures Fetched(RedisAfter(ops).sessions, id, now) == Readable(Kept(ops, id, ON_REDIS), now)
    ensures ServerKeeps(RedisAfter(ops).sessions, id, Kept(ops, id, ON_REDIS), now)
  {
    if ops != [] {
      RedisIsHistory(ops[..|ops| - 1], id, ops[|ops| - 1].now);
    }
  }

  /** On Memcached too, except that every update renews the entry. */
  lemma {:induction false} MemcachedIsHistory(ops: seq<Op>, id: string, now: int)
    requires Ordered(ops, now)
    ensures Fetched(MemcachedAfter(ops).sessions, id, now) == Readable(Kept(ops, id, ON_MEMCACHED), now)
    ensures ServerKeeps(MemcachedAfter(ops).sessions, id, Kept(ops, id, ON_MEMCACHED), now)
  {
    if ops != [] {
      MemcachedIsHistory(ops[..|ops| - 1], id, ops[|ops| - 1].now);
    }
  }
}
