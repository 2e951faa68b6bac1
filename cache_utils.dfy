/** The file-backed TTL cache. The cache directory is the object's state and
    is changed in place; the clock is the `now` argument of each operation;
    the MD5 key digest is a function fixed at construction. */
module CacheUtils {

  import opened Wrappers
  import opened CacheDir

  /** `expire_time or CACHE_EXPIRE_TIME`: Python's `or` falls back to the
      default both for a missing argument and for an explicit 0. */
  function EffectiveExpireTime(expireTime: Option<int>, defaultExpireTime: int): (ttl: int)
    requires defaultExpireTime > 0
    ensures ttl != 0
    ensures expireTime.Some? && expireTime.value != 0 ==> ttl == expireTime.value
    ensures expireTime == None || expireTime == Some(0) ==> ttl == defaultExpireTime
  {
    match expireTime
    case Some(t) => if t != 0 then t else defaultExpireTime
    case None => defaultExpireTime
  }

  predicate IsHexDigit(c: char) {
    '0' <= c <= '9' || 'a' <= c <= 'f'
  }

  /** What `hexdigest()` of an MD5 hash returns: 32 lower-case hex digits. */
  type HexDigest = s: string | |s| == 32 && forall i :: 0 <= i < |s| ==> IsHexDigit(s[i])
    witness "00000000000000000000000000000000"

  /** The three counters of get_cache_info. */
  datatype CacheInfo = CacheInfo(totalFiles: nat, validCount: nat, expiredCount: nat)

  class CacheManager {
    /** The MD5 hex digest of a key; deterministic, not assumed injective. */
    const hash: string -> HexDigest
    const expireTime: int
    /** The contents of the cache directory. */
    var files: Dir

    constructor (hash: string -> HexDigest, dir: Dir, expireTime: Option<int>, defaultExpireTime: int)
      requires defaultExpireTime > 0
      ensures this.hash == hash && files == dir
      ensures this.expireTime == EffectiveExpireTime(expireTime, defaultExpireTime)
    {
      this.hash := hash;
      this.expireTime := EffectiveExpireTime(expireTime, defaultExpireTime);
      files := dir;
    }

    /** `_get_cache_key`: a name made only of hex digits, whatever the key
        holds, so it is safe as a file name. */
    function CacheKey(key: string): (k: string)
      ensures |k| == 32 && forall i :: 0 <= i < |k| ==> IsHexDigit(k[i])
    {
      hash(key)
    }

    /** `_get_cache_path`: the digest with a ".json" suffix, so every file
        the cache writes is one the scans see, and it stays inside the
        cache directory. */
    function CachePath(key: string): (name: string)
      ensures IsJsonName(name)
      ensures name == CacheKey(key) + ".json"
      ensures forall i :: 0 <= i < |name| ==> name[i] != '/'
    {
      CacheKey(key) + ".json"
    }

    method SetCache(key: string, data: Json, serialisable: bool, now: int) returns (ok: bool)
      modifies this
      ensures ok == serialisable
      ensures files == Written(old(files), CachePath(key), key, data, serialisable, now)
    {
      var path := CachePath(key);
      // open(path, 'w') truncates the file before json.dump writes anything
      files := files[path := Corrupt];
      if serialisable {
        files := files[path := Record(data, now, key)];
        ok := true;
      } else {
        ok := false;
      }
    }

    method GetCache(key: string, now: int) returns (r: Option<Json>)
      modifies this
      ensures r == ReadValue(old(files), CachePath(key), now, expireTime)
      ensures files == ReadEffect(old(files), CachePath(key), now, expireTime)
    {
      var path := CachePath(key);
      if path !in files {
        return None;
      }
      match files[path]
      case Corrupt =>
        // the exception handler returns None and deletes nothing
        r := None;
      case NoData(t) =>
        if now - t > expireTime {
          var _ := DeleteCache(key);
        }
        // cache_data["data"] raises
        r := None;
      case Record(data, t, _) =>
        if now - t > expireTime {
          var _ := DeleteCache(key);
          r := None;
        } else {
          r := Some(data);
        }
    }

    method DeleteCache(key: string) returns (ok: bool)
      modifies this
      ensures ok
      ensures files == old(files) - {CachePath(key)}
    {
      var path := CachePath(key);
      if path in files {
        files := files - {path};
      }
      ok := true;
    }

    method ClearCache() returns (ok: bool)
      modifies this
      ensures ok
      ensures files == Cleared(old(files))
    {
      ghost var start := files;
      var pending := JsonNames(files);
      while pending != {}
        invariant pending <= JsonNames(start)
        invariant files == start - (JsonNames(start) - pending)
        decreases pending
      {
        var name :| name in pending;
        files := files - {name};
        pending := pending - {name};
      }
      ok := true;
    }

    /** A read-only scan: no `modifies`, so the directory is unchanged. */
    method GetCacheInfo(now: int) returns (info: CacheInfo)
      ensures info.totalFiles == |JsonNames(files)|
      ensures info.validCount == |LiveNames(files, now, expireTime)|
      ensures info.expiredCount == |StaleNames(files, now, expireTime)|
      ensures info.totalFiles == info.validCount + info.expiredCount
    {
      var pending := JsonNames(files);
      var total := |pending|;
      var valid, expired := 0, 0;
      while pending != {}
        invariant pending <= JsonNames(files)
        invariant valid == |LiveNames(files, now, expireTime) - pending|
        invariant expired == |StaleNames(files, now, expireTime) - pending|
        decreases pending
      {
        var name :| name in pending;
        ScanStep(LiveNames(files, now, expireTime), pending, name);
        ScanStep(StaleNames(files, now, expireTime), pending, name);
        match files[name] {
          case Corrupt =>
            expired := expired + 1;
          case Record(_, t, _) =>
            if now - t > expireTime { expired := expired + 1; } else { valid := valid + 1; }
          case NoData(t) =>
            if now - t > expireTime { expired := expired + 1; } else { valid := valid + 1; }
        }
        pending := pending - {name};
      }
      ScanPartition(files, now, expireTime);
      info := CacheInfo(total, valid, expired);
    }

    method CleanupExpired(now: int) returns (cleaned: nat)
      modifies this
      ensures files == Swept(old(files), now, expireTime)
      ensures cleaned == |StaleNames(old(files), now, expireTime)|
    {
      ghost var start := files;
      ghost var stale := StaleNames(start, now, expireTime);
      var pending := JsonNames(files);
      cleaned := 0;
      while pending != {}
        invariant pending <= JsonNames(start)
        invariant files == start - (stale - pending)
        invariant cleaned == |stale - pending|
        decreases pending
      {
        var name :| name in pending;
        ScanStep(stale, pending, name);
        SweepStep(start, stale, pending, name);
        assert name in files && files[name] == start[name];
        // an expired timestamp and a file that fails to load are both unlinked
        if Stale(files[name], now, expireTime) {
          files := files - {name};
          cleaned := cleaned + 1;
        }
        pending := pending - {name};
      }
    }
  }

  // -----------------------------------------------------------------------
  // Scenarios: what a caller of one CacheManager can rely on
  // -----------------------------------------------------------------------

  /** A successful set followed by a get no later than the TTL returns the
      payload; the entry survives the read. */
  method SetThenGet(m: CacheManager, key: string, data: Json, written: int, now: int) returns (r: Option<Json>)
    requires now - written <= m.expireTime
    modifies m
    ensures r == Some(data)
    ensures m.files == Written(old(m.files), m.CachePath(key), key, data, true, written)
  {
    var ok := m.SetCache(key, data, true, written);
    r := m.GetCache(key, now);
  }

  /** A get later than the TTL misses and removes the entry. */
  method SetThenGetExpired(m: CacheManager, key: string, data: Json, written: int, now: int) returns (r: Option<Json>)
    requires now - written > m.expireTime
    modifies m
    ensures r == None
    ensures m.files == old(m.files) - {m.CachePath(key)}
  {
    var ok := m.SetCache(key, data, true, written);
    r := m.GetCache(key, now);
    RoundTrip(old(m.files), m.CachePath(key), key, data, written, now, m.expireTime);
  }

  /** Deleting twice succeeds twice and leaves the entry absent. */
  method DeleteTwice(m: CacheManager, key: string) returns (first: bool, second: bool)
    modifies m
    ensures first && second
    ensures m.CachePath(key) !in m.files
    ensures m.files == old(m.files) - {m.CachePath(key)}
  {
    first := m.DeleteCache(key);
    second := m.DeleteCache(key);
  }

  /** cleanup_expired removes as many files as get_cache_info counted as
      expired just before; afterwards a scan finds no expired file and
      only the valid ones remain. */
  method CleanupMatchesInfo(m: CacheManager, now: int) returns (before: CacheInfo, cleaned: nat, after: CacheInfo)
    modifies m
    ensures cleaned == before.expiredCount
    ensures after.expiredCount == 0
    ensures after.totalFiles == after.validCount == before.validCount
  {
    before := m.GetCacheInfo(now);
    cleaned := m.CleanupExpired(now);
    SweptKeepsValid(old(m.files), now, m.expireTime);
    after := m.GetCacheInfo(now);
  }

  /** After clear_cache a scan finds no file and no key is found. */
  method ClearThenGet(m: CacheManager, key: string, now: int) returns (info: CacheInfo, r: Option<Json>)
    modifies m
    ensures info.totalFiles == 0
    ensures r == None
  {
    var ok := m.ClearCache();
    ClearedKeepsForeign(old(m.files));
    info := m.GetCacheInfo(now);
    r := m.GetCache(key, now);
  }
}
