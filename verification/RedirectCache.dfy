/**
 The redirect path: the in-process cache of each pod, Redis, and a replica that may lag behind the urls
 table. Loads and background writes are interleaved with creation, reactivation and deletion of links,
 with evictions, and with the passing of time (one clock for all).
 */
module RedirectCache {
  import opened Wrappers
  import opened Codec
  import UrlTable

  type Rows = UrlTable.Rows

  /** Nanoseconds. */
  type Time = int

  const SECOND: int := 1_000_000_000
  const L1_TTL: int := 3 * SECOND

  /** A lookup result; only what comes straight from the table carries the expiry. */
  datatype Value = Missing | Found(url: string, expires: Option<Time>)

  /**
   A resolved lookup. History: `source` is the expiry of the row the value stems from, `readAt` the time
   at which Redis or the replica answered.
   */
  datatype Lookup = Lookup(value: Value, source: Option<Time>, readAt: Time)

  datatype L1Entry = L1Entry(lookup: Lookup, insertedAt: Time)

  datatype RedisEntry = RedisEntry(url: string, deadline: Option<Time>, source: Option<Time>)

  /** The one load a pod runs for a code. */
  datatype Load = AskingRedis | AskingTable | Resolved(lookup: Lookup)

  /** A detached write to Redis that has been spawned and not run yet. */
  datatype Write = Write(code: string, url: string, expires: Option<Time>)

  type Slot = (nat, string)

  /** `history` are the successive contents of the table, `replica` the one the replica has reached. */
  datatype World = World(
    now: Time,
    db: UrlTable.Db,
    history: seq<Rows>,
    replica: nat,
    redis: map<string, RedisEntry>,
    l1: map<Slot, L1Entry>,
    loads: map<Slot, Load>,
    writes: multiset<Write>)

  const INITIAL: World := World(0, UrlTable.INITIAL, [map[]], 0, map[], map[], map[], multiset{})

  // ---------------------------------------------------------------- lookups

  predicate LiveInRedis(redis: map<string, RedisEntry>, code: string, now: Time) {
    code in redis && (redis[code].deadline.Some? ==> now < redis[code].deadline.value)
  }

  predicate LiveInL1(l1: map<Slot, L1Entry>, slot: Slot, now: Time) {
    slot in l1 && now < l1[slot].insertedAt + L1_TTL
  }

  ghost predicate HasRow(rows: Rows, id: int, code: string) {
    id in rows && rows[id].code == Some(code)
  }

  /** SELECT original_url, expires_at WHERE short_code = code. */
  ghost function RowFor(rows: Rows, code: string): (row: Option<UrlTable.Url>)
    ensures row.Some? ==> exists id :: HasRow(rows, id, code) && rows[id] == row.value
    ensures row.None? ==> forall id :: !HasRow(rows, id, code)
  {
    if exists id :: HasRow(rows, id, code) then
      var id :| HasRow(rows, id, code);
      Some(rows[id])
    else None
  }

  /** Whole seconds left, both ends truncated to whole seconds. */
  function TtlSeconds(expires: Time, now: Time): int
  {
    expires / SECOND - now / SECOND
  }

  function AfterWrite(redis: map<string, RedisEntry>, w: Write, now: Time): map<string, RedisEntry>
  {
    match w.expires
    case Some(e) =>
      var ttl := TtlSeconds(e, now);
      if ttl > 0 then redis[w.code := RedisEntry(w.url, Some(now + ttl * SECOND), Some(e))] else redis
    case None => redis[w.code := RedisEntry(w.url, None, None)]
  }

  datatype Response = RedirectTo(url: string) | Gone | NotFound

  /** The answer given for a cached value: the expiry is checked again at the moment of answering. */
  function Answer(value: Value, now: Time): Response
  {
    match value
    case Missing => NotFound
    case Found(url, expires) =>
      if expires.Some? && expires.value < now then Gone else RedirectTo(url)
  }

  // ---------------------------------------------------------------- steps

  datatype Step =
    | TableStep(step: UrlTable.Step)
    | Replicate(upTo: nat)
    | Pass(duration: nat)
    | StartLoad(slot: Slot)
    | RedisAnswers(slot: Slot)
    | RedisFails(slot: Slot)
    | TableAnswers(slot: Slot)
    | TableFails(slot: Slot)
    | FinishLoad(slot: Slot)
    | RunWrite(write: Write)
    | DropWrite(write: Write)
    | EvictRedis(code: string)
    | EvictL1(slot: Slot)

  ghost predicate Enabled(s: World, step: Step) {
    match step
    case TableStep(t) => UrlTable.Enabled(s.db, t)
    case Replicate(i) => s.replica <= i < |s.history|
    case Pass(_) => true
    case StartLoad(slot) => slot !in s.loads && !LiveInL1(s.l1, slot, s.now)
    case RedisAnswers(slot) => slot in s.loads && s.loads[slot] == AskingRedis
    case RedisFails(slot) => slot in s.loads && s.loads[slot] == AskingRedis
    case TableAnswers(slot) => slot in s.loads && s.loads[slot] == AskingTable && s.replica < |s.history|
    case TableFails(slot) => slot in s.loads && s.loads[slot] == AskingTable
    case FinishLoad(slot) => slot in s.loads && s.loads[slot].Resolved?
    case RunWrite(w) => w in s.writes
    case DropWrite(w) => w in s.writes
    case EvictRedis(_) => true
    case EvictL1(_) => true
  }

  /** A hit carries no expiry; a miss goes on to the table. */
  ghost function AfterRedis(s: World, slot: Slot): World
  {
    if LiveInRedis(s.redis, slot.1, s.now) then
      var entry := s.redis[slot.1];
      s.(loads := s.loads[slot := Resolved(Lookup(Found(entry.url, None), entry.source, s.now))])
    else s.(loads := s.loads[slot := AskingTable])
  }

  /** A row is returned and written to Redis in the background; a missing row is returned as such. */
  ghost function AfterTable(s: World, slot: Slot): World
    requires s.replica < |s.history|
  {
    match RowFor(s.history[s.replica], slot.1)
    case Some(row) =>
      s.(loads := s.loads[slot := Resolved(Lookup(Found(row.original, row.expires), row.expires, s.now))],
         writes := s.writes + multiset{Write(slot.1, row.original, row.expires)})
    case None => s.(loads := s.loads[slot := Resolved(Lookup(Missing, None, s.now))])
  }

  ghost function Apply(s: World, step: Step): World
    requires Enabled(s, step)
  {
    match step
    case TableStep(t) =>
      var db' := UrlTable.Apply(s.db, t);
      s.(db := db', history := s.history + [db'.rows])
    case Replicate(i) => s.(replica := i)
    case Pass(d) => s.(now := s.now + d)
    case StartLoad(slot) => s.(loads := s.loads[slot := AskingRedis])
    case RedisAnswers(slot) => AfterRedis(s, slot)
    case RedisFails(slot) => s.(loads := s.loads[slot := AskingTable])
    case TableAnswers(slot) => AfterTable(s, slot)
    case TableFails(slot) => s.(loads := s.loads - {slot})
    case FinishLoad(slot) =>
      s.(l1 := s.l1[slot := L1Entry(s.loads[slot].lookup, s.now)], loads := s.loads - {slot})
    case RunWrite(w) => s.(redis := AfterWrite(s.redis, w, s.now), writes := s.writes - multiset{w})
    case DropWrite(w) => s.(writes := s.writes - multiset{w})
    case EvictRedis(code) => s.(redis := s.redis - {code})
    case EvictL1(slot) => s.(l1 := s.l1 - {slot})
  }

  /** What a pod answers for a code it holds a live entry of. */
  ghost predicate Answers(s: World, slot: Slot, response: Response) {
    LiveInL1(s.l1, slot, s.now) && response == Answer(s.l1[slot].lookup.value, s.now)
  }

  // ---------------------------------------------------------------- schedules

  ghost predicate LegalFrom(s: World, steps: seq<Step>)
    decreases |steps|
  {
    steps == [] || (Enabled(s, steps[0]) && LegalFrom(Apply(s, steps[0]), steps[1..]))
  }

  ghost function After(s: World, steps: seq<Step>): World
    requires LegalFrom(s, steps)
    decreases |steps|
  {
    if steps == [] then s else After(Apply(s, steps[0]), steps[1..])
  }
}
