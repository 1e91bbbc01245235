/** The cache as a value: files from most to least recently used, under two bounds. */
module Recency {
  const MAX_CACHE_BYTES: nat := 64 * 1024 * 1024
  const MAX_FILE_BYTES: nat := 1024 * 1024
  const MAX_ENTRIES: nat := 4096

  datatype CachedFile = CachedFile(id: string, data: string, etag: string)

  function Size(files: seq<CachedFile>): nat {
    if |files| == 0 then 0 else Size(files[..|files| - 1]) + |files[|files| - 1].data|
  }

  predicate Holds(files: seq<CachedFile>, id: string) {
    exists i :: 0 <= i < |files| && files[i].id == id
  }

  ghost predicate DistinctIds(files: seq<CachedFile>) {
    forall i, j :: 0 <= i < j < |files| ==> files[i].id != files[j].id
  }

  /** Room for `n` more bytes and one more entry. */
  predicate HasRoom(files: seq<CachedFile>, n: nat) {
    Size(files) + n <= MAX_CACHE_BYTES && |files| < MAX_ENTRIES
  }

  ghost predicate WithinBounds(files: seq<CachedFile>) {
    Size(files) <= MAX_CACHE_BYTES && |files| <= MAX_ENTRIES
  }

  /** The bounds in numbers: 64 MiB and 4096 entries, and room for a file is what is left of them. */
  lemma BoundsInNumbers(files: seq<CachedFile>, n: nat)
    ensures WithinBounds(files) <==> Size(files) <= 67108864 && |files| <= 4096
    ensures HasRoom(files, n) <==> Size(files) + n <= 67108864 && |files| + 1 <= 4096
    ensures MAX_FILE_BYTES == 1048576
  {
  }

  /** Drop least recent files until there is room or nothing is left. */
  function Evict(files: seq<CachedFile>, n: nat): seq<CachedFile> {
    if HasRoom(files, n) || |files| == 0 then files else Evict(files[..|files| - 1], n)
  }

  /** `get`: a hit moves to the front. */
  function Touch(files: seq<CachedFile>, i: nat): seq<CachedFile>
    requires i < |files|
  {
    [files[i]] + files[..i] + files[i + 1..]
  }

  /** `put`: an id already held is left as it is. */
  function Insert(files: seq<CachedFile>, f: CachedFile): seq<CachedFile> {
    if Holds(files, f.id) then files else [f] + Evict(files, |f.data|)
  }

  lemma {:induction false} SizeConcat(a: seq<CachedFile>, b: seq<CachedFile>)
    ensures Size(a + b) == Size(a) + Size(b)
  {
    if |b| == 0 {
      assert a + b == a;
    } else {
      SizeConcat(a, b[..|b| - 1]);
      assert (a + b)[..|a + b| - 1] == a + b[..|b| - 1];
    }
  }

  lemma SizeOne(f: CachedFile)
    ensures Size([f]) == |f.data|
  {
    assert [f][..0] == [];
  }

  /** Eviction keeps the longest most-recent prefix that leaves room. */
  lemma {:induction false} EvictKeepsLongestPrefix(files: seq<CachedFile>, n: nat)
    requires n <= MAX_CACHE_BYTES
    ensures Evict(files, n) <= files && HasRoom(Evict(files, n), n)
    ensures forall k :: |Evict(files, n)| < k <= |files| ==> !HasRoom(files[..k], n)
  {
    if HasRoom(files, n) || |files| == 0 {
      assert Size([]) == 0;
    } else {
      var shorter := files[..|files| - 1];
      EvictKeepsLongestPrefix(shorter, n);
      forall k | |Evict(files, n)| < k <= |files| ensures !HasRoom(files[..k], n) {
        if k == |files| {
          assert files[..k] == files;
        } else {
          assert files[..k] == shorter[..k];
        }
      }
    }
  }

  /** The eviction loop empties the list without making room exactly when the file alone is too big. */
  lemma {:induction false} BackIsNeverCalledOnEmpty(files: seq<CachedFile>, n: nat)
    ensures HasRoom(Evict(files, n), n) <==> n <= MAX_CACHE_BYTES
  {
    if n <= MAX_CACHE_BYTES {
      EvictKeepsLongestPrefix(files, n);
    }
  }

  lemma InsertWithinBounds(files: seq<CachedFile>, f: CachedFile)
    requires WithinBounds(files) && DistinctIds(files) && |f.data| <= MAX_CACHE_BYTES
    ensures WithinBounds(Insert(files, f)) && DistinctIds(Insert(files, f))
    ensures Holds(Insert(files, f), f.id)
    ensures !Holds(files, f.id) ==> Insert(files, f)[0] == f
  {
    if !Holds(files, f.id) {
      var kept := Evict(files, |f.data|);
      EvictKeepsLongestPrefix(files, |f.data|);
      SizeConcat([f], kept);
      SizeOne(f);
      forall j | 0 <= j < |kept| ensures kept[j].id != f.id {
        assert kept[j] == files[j];
      }
      assert ([f] + kept)[0].id == f.id;
    }
  }

  lemma TouchKeepsSize(files: seq<CachedFile>, i: nat)
    requires i < |files|
    ensures |Touch(files, i)| == |files| && Size(Touch(files, i)) == Size(files)
  {
    var front, back := files[..i], files[i + 1..];
    assert files == front + ([files[i]] + back);
    hide Size;
    SizeConcat(front, [files[i]] + back);
    SizeConcat([files[i]], back);
    SizeConcat([files[i]] + front, back);
    SizeConcat([files[i]], front);
  }

  /** A hit only reorders: the same files, distinct as before. */
  lemma TouchPermutes(files: seq<CachedFile>, i: nat)
    requires i < |files|
    ensures multiset(Touch(files, i)) == multiset(files)
  {
    var front, back := files[..i], files[i + 1..];
    assert files == front + ([files[i]] + back);
  }
}
