/**
 * One cache entry: its head file, its body file and its row in the metadata
 * table, with the metadata loaded lazily and kept in memory for the
 * lifetime of the handle.
 */
module CacheHandles {
  import opened Wrappers
  import opened Text

  /**
   * Times are Unix milliseconds. `lastModified` is the parsed Last-Modified
   * date; `size` is the size of both files in bytes.
   */
  datatype CacheMetadata = CacheMetadata(
    lastAccess: int, nextRefresh: Option<int>, expires: int,
    etag: Option<string>, lastModified: Option<int>, size: int)

  /** The metadata of an entry without a row. */
  const DEFAULT_METADATA: CacheMetadata := CacheMetadata(-1, None, -1, None, None, -1)

  /** A row of the metadata table; the table is keyed by cache tag. */
  datatype Row = Row(url: string, metadata: CacheMetadata)

  /** A head file is written as text, a body file as bytes. */
  datatype FileData = TextFile(text: string) | BinaryFile(bytes: seq<bv8>)

  /** The number of bytes UTF-8 uses for one character. */
  function Utf8CharLength(c: char): nat {
    var n := c as int;
    if n < 0x80 then 1 else if n < 0x800 then 2 else if n < 0x1_0000 then 3 else 4
  }

  /** The size in bytes of a text written as UTF-8. */
  function Utf8Length(s: string): (n: nat)
    ensures |s| <= n <= 4 * |s|
    ensures (forall i :: 0 <= i < |s| ==> s[i] as int < 0x80) ==> n == |s|
    ensures (exists i :: 0 <= i < |s| && s[i] as int >= 0x80) ==> n > |s|
  {
    if s == [] then 0 else Utf8Length(s[..|s| - 1]) + Utf8CharLength(s[|s| - 1])
  }

  /** Text written one part after the other takes the sizes of the parts together. */
  lemma {:induction false} Utf8LengthAppend(a: string, b: string)
    ensures Utf8Length(a + b) == Utf8Length(a) + Utf8Length(b)
    decreases |b|
  {
    if b != [] {
      var b' := b[..|b| - 1];
      assert (a + b)[..|a + b| - 1] == a + b';
      assert (a + b)[|a + b| - 1] == b[|b| - 1];
      Utf8LengthAppend(a, b');
    } else {
      assert a + b == a;
    }
  }

  function FileSize(f: FileData): nat {
    match f
    case TextFile(text) => Utf8Length(text)
    case BinaryFile(bytes) => |bytes|
  }

  /** `CacheData`: the head file's lines and the body's bytes. */
  datatype CacheData = CacheData(head: seq<string>, body: seq<bv8>)

  /** `isExpired`: the expiry lies strictly before `now`. */
  predicate Expired(m: CacheMetadata, now: int) {
    m.expires < now
  }

  /** `shouldBeRefreshedButIsNotExpired`: a positive refresh time is due while the entry is still unexpired. */
  predicate RefreshDue(m: CacheMetadata, now: int) {
    m.nextRefresh.Some? && 1 <= m.nextRefresh.value <= now && now < m.expires
  }

  /**
   * The table after `updateLastAccessed()` on the entry `tag`: its row, if
   * there is one, takes the access time `now`; nothing else changes.
   */
  function TouchedRows(rows: map<string, Row>, tag: string, now: int): (r: map<string, Row>)
    ensures r.Keys == rows.Keys
    ensures forall t :: t in rows && t != tag ==> r[t] == rows[t]
    ensures tag in rows ==> r[tag] == rows[tag].(metadata := rows[tag].metadata.(lastAccess := now))
  {
    if tag in rows then rows[tag := rows[tag].(metadata := rows[tag].metadata.(lastAccess := now))] else rows
  }

  /** An entry due for a refresh is never expired. */
  lemma RefreshDueIsNotExpired(m: CacheMetadata, now: int)
    requires RefreshDue(m, now)
    ensures !Expired(m, now)
  {
  }

  /** An entry without a row is expired at every time from the epoch on, and never due for a refresh. */
  lemma DefaultsExpired(now: int)
    requires now >= 0
    ensures Expired(DEFAULT_METADATA, now) && !RefreshDue(DEFAULT_METADATA, now)
  {
  }

  /**
   * The metadata a successful store records: the access time is `now`, the
   * size that of both files, the rest copied from the caller's metadata.
   */
  function StoredMetadata(m: CacheMetadata, now: int, size: int): (r: CacheMetadata)
    ensures r.nextRefresh == m.nextRefresh && r.expires == m.expires
    ensures r.etag == m.etag && r.lastModified == m.lastModified
    ensures r.lastAccess == now && r.size == size
  {
    m.(lastAccess := now, size := size)
  }

  /** Storing keeps the freshness the caller computed. */
  lemma StoredMetadataKeepsFreshness(m: CacheMetadata, now: int, size: int, t: int)
    ensures Expired(StoredMetadata(m, now, size), t) == Expired(m, t)
    ensures RefreshDue(StoredMetadata(m, now, size), t) == RefreshDue(m, t)
  {
  }

  /** `db.update`: the five freshness and validator columns of a row; its url and size stay. */
  function UpdatedRow(row: Row, m: CacheMetadata): (r: Row)
    ensures r.url == row.url && r.metadata.size == row.metadata.size
    ensures r.metadata.lastAccess == m.lastAccess && r.metadata.nextRefresh == m.nextRefresh
    ensures r.metadata.expires == m.expires && r.metadata.etag == m.etag && r.metadata.lastModified == m.lastModified
  {
    row.(metadata := m.(size := row.metadata.size))
  }

  /** File names of an entry: `<tag>.head` and `<tag>.body`. */
  const HEAD_SUFFIX: string := ".head"
  const BODY_SUFFIX: string := ".body"

  /** No path is both a head file and a body file. */
  lemma HeadIsNotBody(p: string)
    ensures !(EndsWith(p, HEAD_SUFFIX) && EndsWith(p, BODY_SUFFIX))
  {
    if EndsWith(p, HEAD_SUFFIX) {
      EndsWithLast(p, HEAD_SUFFIX);
    }
    if EndsWith(p, BODY_SUFFIX) {
      EndsWithLast(p, BODY_SUFFIX);
    }
  }

  /** The abstract file system and metadata table the cache writes to. */
  class CacheStore {
    var files: map<string, FileData>
    var rows: map<string, Row>

    /** Head files hold text and body files hold bytes. */
    ghost predicate Valid()
      reads this
    {
      forall p :: p in files ==>
        && (EndsWith(p, HEAD_SUFFIX) ==> files[p].TextFile?)
        && (EndsWith(p, BODY_SUFFIX) ==> files[p].BinaryFile?)
    }

    constructor ()
      ensures files == map[] && rows == map[] && Valid()
    {
      files := map[];
      rows := map[];
    }

    /** Writing a file of the kind its name calls for keeps the store valid. */
    method WriteFile(p: string, f: FileData)
      requires Valid()
      requires EndsWith(p, HEAD_SUFFIX) ==> f.TextFile?
      requires EndsWith(p, BODY_SUFFIX) ==> f.BinaryFile?
      modifies this
      ensures Valid() && files == old(files)[p := f] && rows == old(rows)
    {
      files := files[p := f];
    }

    method DeleteFiles(ps: set<string>)
      requires Valid()
      modifies this
      ensures Valid() && files == old(files) - ps && rows == old(rows)
    {
      files := files - ps;
    }
  }

  /** Deleting a key undoes any write to it. */
  lemma WriteThenDelete<K, V>(f: map<K, V>, k: K, v: V, ks: set<K>)
    requires k in ks
    ensures f[k := v] - ks == f - ks
  {
  }

  /** The step of `storeCachedData` that throws. */
  datatype StoreStep = WriteHead | WriteBody | ReadSizes | LoadMetadata | SaveRow

  datatype Fault = Fault(step: StoreStep, error: string)

  class CacheHandle {
    const tag: string
    const url: string
    const headPath: string
    const bodyPath: string
    const store: CacheStore
    /** `_liveCacheMetadata`: the metadata once loaded, until it is dropped. */
    var live: Option<CacheMetadata>

    /** The head path names a head file, the body path a body file, in a valid store. */
    ghost predicate Valid()
      reads this, store
    {
      EndsWith(headPath, HEAD_SUFFIX) && EndsWith(bodyPath, BODY_SUFFIX) && store.Valid()
    }

    lemma PathsDistinct()
      requires Valid()
      ensures headPath != bodyPath
      ensures headPath in store.files ==> store.files[headPath].TextFile?
      ensures bodyPath in store.files ==> store.files[bodyPath].BinaryFile?
    {
      HeadIsNotBody(headPath);
    }

    constructor (tag: string, url: string, headPath: string, bodyPath: string, store: CacheStore)
      requires EndsWith(headPath, HEAD_SUFFIX) && EndsWith(bodyPath, BODY_SUFFIX)
      ensures this.tag == tag && this.url == url && this.store == store
      ensures this.headPath == headPath && this.bodyPath == bodyPath
      ensures live.None?
    {
      this.tag := tag;
      this.url := url;
      this.headPath := headPath;
      this.bodyPath := bodyPath;
      this.store := store;
      live := None;
    }

    /** `getCacheMetaData()`: the row's metadata, or the defaults without a row. */
    function RowMetadata(): CacheMetadata
      reads this, store
    {
      if tag in store.rows then store.rows[tag].metadata else DEFAULT_METADATA
    }

    /** The metadata every query answers from: the loaded copy, or what loading would give. */
    function Metadata(): CacheMetadata
      reads this, store
    {
      if live.Some? then live.value else RowMetadata()
    }

    /** The `liveCacheMetadata` getter: loads the row on first use and keeps it. */
    method LiveMetadata() returns (m: CacheMetadata)
      modifies this
      ensures m == old(Metadata()) && live == Some(m)
    {
      if live.None? {
        live := Some(RowMetadata());
      }
      m := live.value;
    }

    /** `cachedFilesExist()`. */
    predicate CachedFilesExist()
      reads this, store
    {
      headPath in store.files && bodyPath in store.files
    }

    /** `getCachedData()`: the lines of the head file and the body, or `None` when a file is missing. */
    function GetCachedData(): (d: Option<CacheData>)
      requires Valid()
      reads this, store
      ensures d.None? <==> !CachedFilesExist()
      ensures d.Some? ==> d.value.head == ReadLines(store.files[headPath].text)
      ensures d.Some? ==> d.value.body == store.files[bodyPath].bytes
    {
      PathsDistinct();
      if !CachedFilesExist() then None
      else Some(CacheData(ReadLines(store.files[headPath].text), store.files[bodyPath].bytes))
    }

    /** `isExpired()`. */
    method IsExpired(now: int) returns (expired: bool)
      modifies this
      ensures expired == Expired(old(Metadata()), now) && live == Some(old(Metadata()))
    {
      var m := LiveMetadata();
      expired := m.expires < now;
    }

    /** `hasValidCachedResource()`: unexpired and both files present. */
    method HasValidCachedResource(now: int) returns (valid: bool)
      modifies this
      ensures valid <==> !Expired(old(Metadata()), now) && CachedFilesExist()
      ensures live == Some(old(Metadata()))
    {
      var expired := IsExpired(now);
      valid := !expired && CachedFilesExist();
    }

    /** `shouldBeRefreshedButIsNotExpired()`. */
    method ShouldBeRefreshedButIsNotExpired(now: int) returns (due: bool)
      modifies this
      ensures due == RefreshDue(old(Metadata()), now) && live == Some(old(Metadata()))
    {
      var m := LiveMetadata();
      match m.nextRefresh {
        case None => due := false;
        case Some(nextRefresh) => due := 1 <= nextRefresh <= now && now < m.expires;
      }
    }

    /** `getETag()`. */
    method GetETag() returns (etag: Option<string>)
      modifies this
      ensures etag == old(Metadata()).etag && live == Some(old(Metadata()))
    {
      var m := LiveMetadata();
      etag := m.etag;
    }

    /** `getLastModified()`: the stored Last-Modified time, or -1. */
    method GetLastModified() returns (lastModified: int)
      modifies this
      ensures lastModified == old(Metadata()).lastModified.GetOr(-1) && live == Some(old(Metadata()))
    {
      var m := LiveMetadata();
      lastModified := if m.lastModified.Some? then m.lastModified.value else -1;
    }

    /** Deletes both files, as the rollback and `removeFromCache` do. */
    method DeleteFiles()
      requires Valid()
      modifies store
      ensures store.files == old(store.files) - {headPath, bodyPath}
      ensures store.rows == old(store.rows) && Valid()
    {
      store.DeleteFiles({headPath, bodyPath});
    }

    /**
     * `storeCachedData(head, body, metadata)`. Writes the head text and the
     * body, reads back their sizes, and saves the new metadata in memory and
     * in the row. `fault` names the step that throws, if one does: then both
     * files are deleted, the loaded metadata is dropped, the row is as it
     * was, and the same exception is returned.
     */
    method StoreCachedData(head: string, body: seq<bv8>, m: CacheMetadata, now: int, fault: Option<Fault>)
      returns (failure: Option<string>)
      requires Valid()
      modifies this, store
      ensures Valid()
      ensures fault.None? ==>
        var stored := StoredMetadata(m, now, Utf8Length(head) + |body|);
        && failure.None?
        && store.files == old(store.files)[headPath := TextFile(head)][bodyPath := BinaryFile(body)]
        && store.rows == old(store.rows)[tag := Row(url, stored)]
        && live == Some(stored)
      ensures fault.Some? ==>
        && failure == Some(fault.value.error)
        && store.files == old(store.files) - {headPath, bodyPath}
        && store.rows == old(store.rows)
        && live.None?
    {
      PathsDistinct();
      HeadIsNotBody(headPath);
      HeadIsNotBody(bodyPath);
      var original := store.files;
      if fault.Some? && fault.value.step == WriteHead {
        failure := Rollback(fault.value.error);
        return;
      }
      store.WriteFile(headPath, TextFile(head));
      WriteThenDelete(original, headPath, TextFile(head), {headPath, bodyPath});
      if fault.Some? && fault.value.step == WriteBody {
        failure := Rollback(fault.value.error);
        return;
      }
      store.WriteFile(bodyPath, BinaryFile(body));
      WriteThenDelete(original[headPath := TextFile(head)], bodyPath, BinaryFile(body), {headPath, bodyPath});
      if fault.Some? && fault.value.step == ReadSizes {
        failure := Rollback(fault.value.error);
        return;
      }
      var fileSize := FileSize(store.files[headPath]) + FileSize(store.files[bodyPath]);
      if fault.Some? && fault.value.step == LoadMetadata {
        failure := Rollback(fault.value.error);
        return;
      }
      var loaded := LiveMetadata();
      var updated := loaded.(lastAccess := now, nextRefresh := m.nextRefresh, expires := m.expires,
                             etag := m.etag, lastModified := m.lastModified, size := fileSize);
      live := Some(updated);
      if fault.Some? {
        failure := Rollback(fault.value.error);
        return;
      }
      store.rows := store.rows[tag := Row(url, updated)];
      failure := None;
    }

    /** The `catch` of `storeCachedData`: delete both files, drop the loaded metadata, rethrow. */
    method Rollback(error: string) returns (failure: Option<string>)
      requires Valid()
      modifies this, store
      ensures Valid() && failure == Some(error) && live.None?
      ensures store.files == old(store.files) - {headPath, bodyPath} && store.rows == old(store.rows)
    {
      DeleteFiles();
      live := None;
      failure := Some(error);
    }

    /**
     * `updateCacheMetadata(metadata)`: updates an existing row's freshness
     * and validators; the loaded copy, if any, stays as it was.
     */
    method UpdateCacheMetadata(m: CacheMetadata)
      requires Valid()
      modifies store
      ensures Valid()
      ensures tag in old(store.rows) ==> store.rows == old(store.rows)[tag := UpdatedRow(old(store.rows)[tag], m)]
      ensures tag !in old(store.rows) ==> store.rows == old(store.rows)
      ensures store.files == old(store.files)
    {
      if tag in store.rows {
        store.rows := store.rows[tag := UpdatedRow(store.rows[tag], m)];
      }
    }

    /** `updateLastAccessed()`: only the access time changes, in memory and in the row. */
    method UpdateLastAccessed(now: int)
      requires Valid()
      modifies this, store
      ensures Valid()
      ensures live == Some(old(Metadata()).(lastAccess := now))
      ensures store.rows == TouchedRows(old(store.rows), tag, now)
      ensures store.files == old(store.files)
    {
      var m := LiveMetadata();
      live := Some(m.(lastAccess := now));
      if tag in store.rows {
        var row := store.rows[tag];
        store.rows := store.rows[tag := row.(metadata := row.metadata.(lastAccess := now))];
      }
    }

    /** `removeFromCache()`: deletes both files and the row, and forgets the loaded metadata. */
    method RemoveFromCache()
      requires Valid()
      modifies this, store
      ensures store.files == old(store.files) - {headPath, bodyPath}
      ensures store.rows == old(store.rows) - {tag}
      ensures live.None? && Metadata() == DEFAULT_METADATA && !CachedFilesExist()
      ensures Valid()
    {
      DeleteFiles();
      store.rows := store.rows - {tag};
      live := None;
    }
  }
}
