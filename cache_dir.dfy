/** The cache directory as CacheManager sees it: a set of named files, what
    `json.load` makes of each of them, and the expiry policy applied to the
    timestamps they carry. Everything here is a pure value; the class in
    module CacheUtils changes a directory of this kind in place. */
module CacheDir {

  import opened Wrappers

  /** A JSON value, the payload type of the cache. */
  datatype Json =
    | JNull
    | JBool(b: bool)
    | JNumber(n: int)
    | JString(s: string)
    | JArray(items: seq<Json>)
    | JObject(fields: map<string, Json>)

  /** What reading one file of the cache directory yields.
      Record:  an object with a numeric "timestamp" and a "data" field, as
               set_cache writes it (the "key" field is never read back);
      NoData:  an object with a numeric "timestamp" but no "data" field;
      Corrupt: anything on which `json.load(f)` or `cache_data["timestamp"]`
               raises: a truncated or half-written file, a foreign JSON
               document without "timestamp", a timestamp that is not a number. */
  datatype Content =
    | Record(data: Json, timestamp: int, key: string)
    | NoData(timestamp: int)
    | Corrupt

  /** The cache directory: file name to content. Foreign files (any name,
      any content) may sit beside the ones the cache writes. */
  type Dir = map<string, Content>

  /** The names `glob("*.json")` yields. */
  predicate IsJsonName(name: string) {
    |name| >= 5 && name[|name| - 5..] == ".json"
  }

  function JsonNames(dir: Dir): set<string> {
    set name | name in dir && IsJsonName(name)
  }

  /** `now - cache_data["timestamp"] > self.expire_time`; a file without a
      readable timestamp is never "expired" in this sense (reading it raises). */
  predicate Expired(c: Content, now: int, ttl: int) {
    match c
    case Record(_, t, _) => now - t > ttl
    case NoData(t) => now - t > ttl
    case Corrupt => false
  }

  /** What the two scans count as expired and cleanup_expired removes:
      expired files and unreadable ones alike. */
  predicate Stale(c: Content, now: int, ttl: int) {
    c.Corrupt? || Expired(c, now, ttl)
  }

  function StaleNames(dir: Dir, now: int, ttl: int): set<string> {
    set name | name in dir && IsJsonName(name) && Stale(dir[name], now, ttl)
  }

  function LiveNames(dir: Dir, now: int, ttl: int): set<string> {
    set name | name in dir && IsJsonName(name) && !Stale(dir[name], now, ttl)
  }

  /** The directory after set_cache wrote `name`: the file is truncated
      when it is opened, so a payload that cannot be serialised leaves a
      corrupt file where the old record was. */
  function Written(dir: Dir, name: string, key: string, data: Json, serialisable: bool, now: int): Dir {
    dir[name := if serialisable then Record(data, now, key) else Corrupt]
  }

  /** What get_cache returns for the file `name`. */
  function ReadValue(dir: Dir, name: string, now: int, ttl: int): Option<Json> {
    if name in dir && dir[name].Record? && !Expired(dir[name], now, ttl) then Some(dir[name].data) else None
  }

  /** The directory after get_cache read `name`: an expired file is
      deleted (lazy eviction), every other file stays, a corrupt one too. */
  function ReadEffect(dir: Dir, name: string, now: int, ttl: int): Dir {
    if name in dir && Expired(dir[name], now, ttl) then dir - {name} else dir
  }

  /** The directory after clear_cache. */
  function Cleared(dir: Dir): Dir {
    dir - JsonNames(dir)
  }

  /** The directory after cleanup_expired. */
  function Swept(dir: Dir, now: int, ttl: int): Dir {
    dir - StaleNames(dir, now, ttl)
  }

  // ---------------------------------------------------------------------
  // Properties of the directory operations
  // ---------------------------------------------------------------------

  /** set_cache replaces exactly one file and nothing else. */
  lemma WrittenTouchesOneFile(dir: Dir, name: string, key: string, data: Json, serialisable: bool, now: int)
    ensures Written(dir, name, key, data, serialisable, now).Keys == dir.Keys + {name}
    ensures forall n :: n in dir && n != name ==> Written(dir, name, key, data, serialisable, now)[n] == dir[n]
    ensures serialisable <==> Written(dir, name, key, data, serialisable, now)[name] == Record(data, now, key)
  {
  }

  /** Round trip: a record written at `written` is read back exactly when
      no more than `ttl` has passed, and the read then changes nothing;
      afterwards it is read as a miss and evicted. */
  lemma RoundTrip(dir: Dir, name: string, key: string, data: Json, written: int, now: int, ttl: int)
    ensures ReadValue(Written(dir, name, key, data, true, written), name, now, ttl) == Some(data) <==> now - written <= ttl
    ensures now - written <= ttl ==> ReadEffect(Written(dir, name, key, data, true, written), name, now, ttl) == Written(dir, name, key, data, true, written)
    ensures now - written > ttl ==> ReadEffect(Written(dir, name, key, data, true, written), name, now, ttl) == dir - {name}
  {
    var d := Written(dir, name, key, data, true, written);
    if now - written > ttl {
      assert d - {name} == dir - {name};
    }
  }

  /** A failed write destroys the previous record: nothing is read back. */
  lemma FailedWriteLosesRecord(dir: Dir, name: string, key: string, data: Json, now: int, later: int, ttl: int)
    ensures ReadValue(Written(dir, name, key, data, false, now), name, later, ttl) == None
    ensures ReadEffect(Written(dir, name, key, data, false, now), name, later, ttl) == Written(dir, name, key, data, false, now)
    ensures name in StaleNames(Written(dir, name, key, data, false, now), later, ttl) <==> IsJsonName(name)
  {
  }

  /** get_cache: a hit exactly for an unexpired record, an eviction exactly
      for an expired file, and no change for a missing or corrupt one. */
  lemma ReadCases(dir: Dir, name: string, now: int, ttl: int)
    ensures ReadValue(dir, name, now, ttl).Some? <==> name in dir && dir[name].Record? && now - dir[name].timestamp <= ttl
    ensures ReadEffect(dir, name, now, ttl) != dir <==> name in dir && !dir[name].Corrupt? && now - dir[name].timestamp > ttl
    ensures name !in dir || dir[name].Corrupt? ==> ReadValue(dir, name, now, ttl) == None && ReadEffect(dir, name, now, ttl) == dir
  {
    if name in dir && Expired(dir[name], now, ttl) {
      assert name !in ReadEffect(dir, name, now, ttl);
    }
  }

  /** The two classifications of a scan split the `*.json` files: every
      file is valid or expired, never both. */
  lemma {:induction false} ScanPartition(dir: Dir, now: int, ttl: int)
    ensures LiveNames(dir, now, ttl) !! StaleNames(dir, now, ttl)
    ensures LiveNames(dir, now, ttl) + StaleNames(dir, now, ttl) == JsonNames(dir)
    ensures |JsonNames(dir)| == |LiveNames(dir, now, ttl)| + |StaleNames(dir, now, ttl)|
  {
    var live, stale := LiveNames(dir, now, ttl), StaleNames(dir, now, ttl);
    assert live + stale == JsonNames(dir);
    assert |live + stale| == |live| + |stale| - |live * stale|;
    assert live * stale == {};
  }

  /** cleanup_expired removes exactly the stale `*.json` files: the valid
      ones and every file with another name stay as they were, and what is
      left contains no stale file. */
  lemma SweptKeepsValid(dir: Dir, now: int, ttl: int)
    ensures Swept(dir, now, ttl).Keys == dir.Keys - StaleNames(dir, now, ttl)
    ensures forall n :: n in Swept(dir, now, ttl) ==> Swept(dir, now, ttl)[n] == dir[n]
    ensures JsonNames(Swept(dir, now, ttl)) == LiveNames(dir, now, ttl)
    ensures StaleNames(Swept(dir, now, ttl), now, ttl) == {}
    ensures LiveNames(Swept(dir, now, ttl), now, ttl) == LiveNames(dir, now, ttl)
  {
    var swept := Swept(dir, now, ttl);
    assert forall n :: n in StaleNames(swept, now, ttl) ==> n in StaleNames(dir, now, ttl) && n in swept;
  }

  /** The number cleanup_expired removes is the difference between the
      file totals before and after, which equals the number of expired
      files a get_cache_info scan at the same time reports. */
  lemma {:induction false} SweptCount(dir: Dir, now: int, ttl: int)
    ensures |JsonNames(Swept(dir, now, ttl))| + |StaleNames(dir, now, ttl)| == |JsonNames(dir)|
  {
    ScanPartition(dir, now, ttl);
    SweptKeepsValid(dir, now, ttl);
  }

  /** A second sweep at the same time removes nothing. */
  lemma SweptIdempotent(dir: Dir, now: int, ttl: int)
    ensures Swept(Swept(dir, now, ttl), now, ttl) == Swept(dir, now, ttl)
  {
    SweptKeepsValid(dir, now, ttl);
  }

  /** clear_cache leaves no `*.json` file and does not touch other files. */
  lemma ClearedKeepsForeign(dir: Dir)
    ensures JsonNames(Cleared(dir)) == {}
    ensures forall n :: n in dir && !IsJsonName(n) ==> n in Cleared(dir) && Cleared(dir)[n] == dir[n]
    ensures forall n :: n in Cleared(dir) ==> n in dir && !IsJsonName(n)
  {
  }

  /** Counting step of a scan over `pending`: taking `name` out of the
      pending set adds one to the number of done members of `counted`
      exactly when `name` is one of them. */
  lemma {:induction false} ScanStep(counted: set<string>, pending: set<string>, name: string)
    requires name in pending
    ensures |counted - (pending - {name})| == |counted - pending| + (if name in counted then 1 else 0)
  {
    if name in counted {
      assert counted - (pending - {name}) == (counted - pending) + {name};
    } else {
      assert counted - (pending - {name}) == counted - pending;
    }
  }

  /** Deletion step of a sweep over `pending`: the files already removed
      are the members of `removing` that are no longer pending. */
  lemma SweepStep(dir: Dir, removing: set<string>, pending: set<string>, name: string)
    requires name in pending
    ensures name in removing ==> dir - (removing - (pending - {name})) == (dir - (removing - pending)) - {name}
    ensures name !in removing ==> dir - (removing - (pending - {name})) == dir - (removing - pending)
  {
  }
}
