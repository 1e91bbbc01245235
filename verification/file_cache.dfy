/** The middle cache: a map into a recency list, filled from build files on disk. */
module FileCache {
  import opened Wrappers
  import opened Recency

  /** A list element; the map and the list share it by reference. */
  class Element {
    const value: CachedFile

    constructor (value: CachedFile)
      ensures this.value == value
    {
      this.value := value;
    }
  }

  ghost function Values(elements: seq<Element>): seq<CachedFile> {
    seq(|elements|, i requires 0 <= i < |elements| => elements[i].value)
  }

  ghost predicate Distinct(elements: seq<Element>) {
    forall i, j :: 0 <= i < j < |elements| ==> elements[i] != elements[j]
  }

  /** Map keys and list elements correspond one to one. */
  ghost predicate InBijection(entries: map<string, Element>, lru: seq<Element>) {
    && Distinct(lru)
    && (forall i :: 0 <= i < |lru| ==> lru[i].value.id in entries && entries[lru[i].value.id] == lru[i])
    && (forall id :: id in entries ==> entries[id] in lru && entries[id].value.id == id)
  }

  class Cache {
    var entries: map<string, Element>
    var lru: seq<Element>
    var size: int

    ghost predicate Valid()
      reads this
    {
      && InBijection(entries, lru)
      && size == Size(Files())
      && WithinBounds(Files())
    }

    /** The cached files, most recently used first. */
    ghost function Files(): seq<CachedFile>
      reads this
    {
      Values(lru)
    }

    constructor ()
      ensures Valid() && Files() == []
    {
      entries := map[];
      lru := [];
      size := 0;
    }

    method MoveToFront(e: Element)
      requires e in lru
      modifies this`lru
      ensures exists i :: 0 <= i < |old(lru)| && old(lru)[i] == e
                          && lru == [e] + old(lru)[..i] + old(lru)[i + 1..]
    {
      var i :| 0 <= i < |lru| && lru[i] == e;
      lru := [e] + lru[..i] + lru[i + 1..];
    }

    method Get(id: string) returns (hit: Option<CachedFile>)
      requires Valid()
      modifies this`lru
      ensures Valid()
      ensures hit.Some? <==> Holds(old(Files()), id)
      ensures hit.None? ==> Files() == old(Files())
      ensures hit.Some? ==>
                exists i :: 0 <= i < |old(Files())| && old(Files())[i] == hit.value && hit.value.id == id
                            && Files() == Touch(old(Files()), i)
    {
      hide InBijection, Size, Touch, Holds;
      HeldIffKeyed(entries, lru, id);
      if id in entries {
        KeyedIsListed(entries, lru, id);
        var e := entries[id];
        MoveToFront(e);
        ghost var i :| 0 <= i < |old(lru)| && old(lru)[i] == e
                       && lru == [e] + old(lru)[..i] + old(lru)[i + 1..];
        MoveKeepsBijection(entries, old(lru), i);
        ValuesOfMove(old(lru), i);
        TouchKeepsSize(Values(old(lru)), i);
        assert Files() == Touch(old(Files()), i) && old(Files())[i] == e.value;
        return Some(e.value);
      }
      return None;
    }

    method RemoveBack()
      requires InBijection(entries, lru) && size == Size(Files()) && |lru| > 0
      modifies this
      ensures InBijection(entries, lru) && size == Size(Files())
      ensures lru == old(lru)[..|old(lru)| - 1]
      ensures Files() == old(Files())[..|old(Files())| - 1]
      ensures entries.Keys == old(entries).Keys - {old(lru)[|old(lru)| - 1].value.id}
    {
      var e := lru[|lru| - 1];
      BackRemoved(entries, lru);
      assert Values(lru)[..|lru| - 1] == Values(lru[..|lru| - 1]);
      entries := entries - {e.value.id};
      size := size - |e.value.data|;
      lru := lru[..|lru| - 1];
    }

    method PushFront(f: CachedFile)
      requires InBijection(entries, lru) && size == Size(Files()) && f.id !in entries
      modifies this
      ensures InBijection(entries, lru) && size == Size(Files())
      ensures Files() == [f] + old(Files())
    {
      var e := new Element(f);
      assert forall i :: 0 <= i < |lru| ==> lru[i] != e;
      FrontAdded(entries, lru, e);
      assert Values([e] + lru) == [f] + Values(lru);
      SizeConcat([f], Values(lru));
      SizeOne(f);
      entries := entries[f.id := e];
      lru := [e] + lru;
      size := size + |f.data|;
    }

    /** A file of any size the cache as a whole can hold; the program caches at most 1 MiB. */
    method Put(f: CachedFile)
      requires Valid() && |f.data| <= MAX_CACHE_BYTES
      modifies this
      ensures Valid()
      ensures Files() == Insert(old(Files()), f)
    {
      HeldIffKeyed(entries, lru, f.id);
      ValuesDistinct(entries, lru);
      InsertWithinBounds(Files(), f);
      if f.id in entries {
        return;
      }
      while size + |f.data| > MAX_CACHE_BYTES || |lru| >= MAX_ENTRIES
        invariant InBijection(entries, lru) && size == Size(Files())
        invariant f.id !in entries
        invariant Evict(Files(), |f.data|) == Evict(old(Files()), |f.data|)
        decreases |lru|
      {
        assert |lru| > 0 by {
          assert Size([]) == 0;
        }
        RemoveBack();
      }
      PushFront(f);
    }
  }

  lemma HeldIffKeyed(entries: map<string, Element>, lru: seq<Element>, id: string)
    requires InBijection(entries, lru)
    ensures id in entries <==> Holds(Values(lru), id)
  {
    if id in entries {
      var i :| 0 <= i < |lru| && lru[i] == entries[id];
      assert Values(lru)[i].id == id;
    }
    if i :| 0 <= i < |lru| && Values(lru)[i].id == id {
      assert lru[i].value.id in entries;
    }
  }

  lemma KeyedIsListed(entries: map<string, Element>, lru: seq<Element>, id: string)
    requires InBijection(entries, lru) && id in entries
    ensures entries[id] in lru && entries[id].value.id == id
  {
  }

  lemma ValuesOfMove(lru: seq<Element>, i: nat)
    requires i < |lru|
    ensures Values([lru[i]] + lru[..i] + lru[i + 1..]) == Touch(Values(lru), i)
  {
  }

  lemma ValuesDistinct(entries: map<string, Element>, lru: seq<Element>)
    requires InBijection(entries, lru)
    ensures DistinctIds(Values(lru))
  {
    forall i, j | 0 <= i < j < |lru| ensures lru[i].value.id != lru[j].value.id {
      assert entries[lru[i].value.id] == lru[i] && entries[lru[j].value.id] == lru[j];
    }
  }

  lemma MoveKeepsBijection(entries: map<string, Element>, lru: seq<Element>, i: nat)
    requires InBijection(entries, lru) && i < |lru|
    ensures InBijection(entries, [lru[i]] + lru[..i] + lru[i + 1..])
  {
    var moved := [lru[i]] + lru[..i] + lru[i + 1..];
    forall id | id in entries ensures entries[id] in moved {
      var k :| 0 <= k < |lru| && lru[k] == entries[id];
      assert lru[k] == moved[if k == i then 0 else if k < i then k + 1 else k];
    }
  }

  lemma BackRemoved(entries: map<string, Element>, lru: seq<Element>)
    requires InBijection(entries, lru) && |lru| > 0
    ensures InBijection(entries - {lru[|lru| - 1].value.id}, lru[..|lru| - 1])
  {
    var rest := lru[..|lru| - 1];
    var gone := lru[|lru| - 1].value.id;
    ValuesDistinct(entries, lru);
    forall i | 0 <= i < |rest| ensures rest[i].value.id != gone {
      assert Values(lru)[i].id != Values(lru)[|lru| - 1].id;
    }
    forall id | id in entries && id != gone ensures entries[id] in rest {
      var k :| 0 <= k < |lru| && lru[k] == entries[id];
      assert rest[k] == entries[id];
    }
  }

  lemma FrontAdded(entries: map<string, Element>, lru: seq<Element>, e: Element)
    requires InBijection(entries, lru) && e.value.id !in entries
    requires forall i :: 0 <= i < |lru| ==> lru[i] != e
    ensures InBijection(entries[e.value.id := e], [e] + lru)
  {
    var all := [e] + lru;
    forall id | id in entries ensures entries[id] in all {
      var k :| 0 <= k < |lru| && lru[k] == entries[id];
      assert all[k + 1] == entries[id];
    }
    assert all[0] == e;
  }

  // ---------------------------------------------------------------- serving

  datatype DiskEntry = Regular(bytes: string) | Irregular

  /** The build's files, and the digest an ETag is made of; neither changes while the image runs. */
  datatype Disk = Disk(assets: map<string, string>, files: map<string, DiskEntry>, etagOf: string -> string)

  /** What may happen on one request besides the content: tokens, and I/O errors. */
  datatype Chance = Chance(
    serveToken: bool, opens: bool, readToken: bool, readFails: bool, firstSeekFails: bool, seekFails: bool)

  /** An absent ETag is the empty string, as in the program. */
  datatype Response = Exhausted | AssetError | Served(bytes: string, etag: string)

  function ContentOf(disk: Disk, id: string): Option<string> {
    if id in disk.assets && disk.assets[id] in disk.files && disk.files[disk.assets[id]].Regular? then
      Some(disk.files[disk.assets[id]].bytes)
    else None
  }

  /** A file is found for an id exactly when the inventory names a regular file for it. */
  lemma ContentIff(disk: Disk, id: string, bytes: string)
    ensures ContentOf(disk, id) == Some(bytes)
       <==> id in disk.assets && disk.assets[id] in disk.files && disk.files[disk.assets[id]] == Regular(bytes)
  {
  }

  /** Every cached file is what the disk holds for its id, with its own ETag. */
  ghost predicate FilledFrom(files: seq<CachedFile>, disk: Disk) {
    forall i :: 0 <= i < |files| ==> IsFillOf(files[i], disk)
  }

  ghost predicate IsFillOf(f: CachedFile, disk: Disk) {
    ContentOf(disk, f.id) == Some(f.data) && f.etag == disk.etagOf(f.data)
  }

  function FillOf(disk: Disk, id: string): (file: CachedFile)
    requires ContentOf(disk, id).Some?
    ensures IsFillOf(file, disk) && file.id == id
  {
    var content := ContentOf(disk, id).value;
    CachedFile(id, content, disk.etagOf(content))
  }

  lemma TouchKeepsFill(files: seq<CachedFile>, i: nat, disk: Disk)
    requires i < |files| && FilledFrom(files, disk)
    ensures FilledFrom(Touch(files, i), disk)
  {
  }

  lemma InsertKeepsFill(files: seq<CachedFile>, f: CachedFile, disk: Disk)
    requires FilledFrom(files, disk) && IsFillOf(f, disk) && |f.data| <= MAX_CACHE_BYTES
    ensures FilledFrom(Insert(files, f), disk)
  {
    EvictKeepsLongestPrefix(files, |f.data|);
    forall i | 0 <= i < |Insert(files, f)| ensures IsFillOf(Insert(files, f)[i], disk) {
      if !Holds(files, f.id) && i > 0 {
        assert Insert(files, f)[i] == files[i - 1];
      }
    }
  }

  /**
   One request. Over an unchanging disk whatever is served is the file's bytes, under its own
   ETag or none; a cached file is served with its ETag whatever the disk does meanwhile.
   */
  method Serve(cache: Cache, id: string, disk: Disk, chance: Chance) returns (response: Response)
    requires cache.Valid() && FilledFrom(cache.Files(), disk)
    modifies cache
    ensures cache.Valid() && FilledFrom(cache.Files(), disk)
    ensures response.Served? ==>
              && ContentOf(disk, id) == Some(response.bytes)
              && (response.etag == "" || response.etag == disk.etagOf(response.bytes))
    ensures response == Exhausted <==> !chance.serveToken
    ensures chance.serveToken && id in disk.assets && Holds(old(cache.Files()), id) ==>
              && ContentOf(disk, id).Some?
              && response == Served(ContentOf(disk, id).value, disk.etagOf(ContentOf(disk, id).value))
              && exists i :: 0 <= i < |old(cache.Files())| && old(cache.Files())[i].id == id && cache.Files() == Touch(old(cache.Files()), i)
    ensures chance.serveToken && chance.opens && chance.readToken && !chance.readFails
            && ContentOf(disk, id).Some? && |ContentOf(disk, id).value| <= MAX_FILE_BYTES ==>
              Holds(cache.Files(), id)
              && response == Served(ContentOf(disk, id).value, disk.etagOf(ContentOf(disk, id).value))
    ensures chance.serveToken && id in disk.assets && !Holds(old(cache.Files()), id) ==>
              var found := chance.opens && ContentOf(disk, id).Some?;
              var read := found && chance.readToken && !chance.readFails;
              && (response == AssetError <==>
                    || !found
                    || (chance.readToken && chance.readFails && chance.seekFails)
                    || (read && |ContentOf(disk, id).value| > MAX_FILE_BYTES && chance.firstSeekFails && chance.seekFails))
              && (read && (|ContentOf(disk, id).value| <= MAX_FILE_BYTES || !chance.firstSeekFails) ==>
                    response == Served(ContentOf(disk, id).value, disk.etagOf(ContentOf(disk, id).value)))
              && (found && response != AssetError
                  && !(read && (|ContentOf(disk, id).value| <= MAX_FILE_BYTES || !chance.firstSeekFails)) ==>
                    response == Served(ContentOf(disk, id).value, ""))
              && cache.Files() == if read && |ContentOf(disk, id).value| <= 1048576
                                  then Insert(old(cache.Files()), FillOf(disk, id)) else old(cache.Files())
    ensures chance.serveToken && id !in disk.assets ==> response == AssetError && cache.Files() == old(cache.Files())
    ensures !chance.serveToken ==> cache.Files() == old(cache.Files())
  {
    if !chance.serveToken {
      return Exhausted;
    }
    if id !in disk.assets {
      return AssetError;
    }
    var hit := cache.Get(id);
    if hit.Some? {
      ghost var i :| 0 <= i < |old(cache.Files())| && old(cache.Files())[i] == hit.value
                     && hit.value.id == id && cache.Files() == Touch(old(cache.Files()), i);
      TouchKeepsFill(old(cache.Files()), i, disk);
      assert IsFillOf(hit.value, disk);
      assert cache.Files()[0] == hit.value;
      return Served(hit.value.data, hit.value.etag);
    }
    if !chance.opens || ContentOf(disk, id).None? {
      return AssetError;
    }
    var bytes := ContentOf(disk, id).value;
    if chance.readToken {
      if !chance.readFails {
        var etag := disk.etagOf(bytes);
        if |bytes| <= MAX_FILE_BYTES {
          var f := CachedFile(id, bytes, etag);
          InsertKeepsFill(cache.Files(), f, disk);
          ValuesDistinct(cache.entries, cache.lru);
          InsertWithinBounds(cache.Files(), f);
          cache.Put(f);
          return Served(bytes, etag);
        }
        if !chance.firstSeekFails {
          return Served(bytes, etag);
        }
      }
      if chance.seekFails {
        return AssetError;
      }
    }
    return Served(bytes, "");
  }
}
