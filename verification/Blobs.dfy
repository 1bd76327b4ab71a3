/** `hx.store.blobs.BlobStore`, as a map from digests to what their file holds. */
module Blobs {
  import opened Options
  import opened Tables

  predicate IsHex64(d: string) {
    |d| == 64 && forall i :: 0 <= i < 64 ==> '0' <= d[i] <= '9' || 'a' <= d[i] <= 'f'
  }

  /** Where a blob is, below the root. */
  function PathFor(d: string): Option<seq<string>> {
    if IsHex64(d) then Some([d[..2], d[2..4], d]) else None
  }

  /** No digest, whoever sent it, names a file outside the root, and no two name one
      file. */
  lemma PathStaysInside(d: string, e: string)
    ensures PathFor(d).Some? ==>
      forall part <- PathFor(d).value :: part != "" && forall c <- part :: '0' <= c <= '9' || 'a' <= c <= 'f'
    ensures PathFor(d).Some? && PathFor(d) == PathFor(e) ==> d == e
    ensures |d| == 64 && (forall c <- d :: '0' <= c <= '9' || 'a' <= c <= 'f') ==> PathFor(d).Some?
  {
    assert forall i :: 0 <= i < |d| ==> d[i] in d;
    if PathFor(d).Some? {
      forall part, c | part in PathFor(d).value && c in part ensures '0' <= c <= '9' || 'a' <= c <= 'f' {
        var i :| 0 <= i < |part| && part[i] == c;
        assert c == d[i] || c == d[i + 2];
      }
      assert PathFor(d).value[2] == d;
      if PathFor(d) == PathFor(e) {
        assert PathFor(e).value[2] == e;
      }
    }
  }

  /** What the file system does to one `put`: whether a file already there can be
      read, what is read back of the staging file, if it could be written, and
      whether the rename and the chmod after it succeed. */
  datatype Way = Way(readable: bool, staged: Option<seq<int>>, renames: bool, chmods: bool)

  /** The bytes are there already and can be read. */
  predicate Held(digest: seq<int> -> string, way: Way, files: Files, data: seq<int>) {
    digest(data) in files && way.readable && digest(files[digest(data)]) == digest(data)
  }

  /** The staging file reads back as what was to be written, and is renamed. */
  predicate Placed(digest: seq<int> -> string, way: Way, data: seq<int>) {
    way.staged.Some? && digest(way.staged.value) == digest(data) && way.renames
  }

  /** A put that returns: the bytes are held, or are placed and made private. */
  predicate Stores(digest: seq<int> -> string, way: Way, files: Files, data: seq<int>) {
    Held(digest, way, files, data) || (Placed(digest, way, data) && way.chmods)
  }

  /** The files after a put, whether it returns or raises. */
  function Shelved(digest: seq<int> -> string, way: Way, files: Files, data: seq<int>): Files {
    if !Held(digest, way, files, data) && Placed(digest, way, data)
    then files[digest(data) := way.staged.value] else files
  }

  class BlobStore {
    const digest: seq<int> -> string
    const ways: nat -> Way
    var files: Files
    var puts: nat

    constructor (digest: seq<int> -> string, ways: nat -> Way, files: Files)
      ensures this.digest == digest && this.ways == ways && this.files == files && puts == 0
    {
      this.digest, this.ways, this.files, puts := digest, ways, files, 0;
    }

    /** A digest is returned exactly where the file system lets the bytes be there
        under it, a file that had gone bad is repaired, and no way of failing harms
        a blob: at worst the good bytes are in place and their caller was told
        otherwise. */
    method Put(data: seq<int>) returns (r: Option<string>)
      modifies this
      ensures r.Some? <==> Stores(digest, ways(old(puts)), old(files), data)
      ensures files == Shelved(digest, ways(old(puts)), old(files), data) && puts == old(puts) + 1
      ensures r.Some? ==>
        r.value == digest(data) && digest(data) in files && digest(files[digest(data)]) == digest(data)
      // a blob that is there and good is not written again; else the staging file is renamed over whatever is
      ensures var d, way := digest(data), ways(old(puts));
        if d in old(files) && way.readable && digest(old(files)[d]) == d then r.Some? && files == old(files)
        else if way.staged.Some? && digest(way.staged.value) == d && way.renames then
          files == old(files)[d := way.staged.value] && (r.Some? <==> way.chmods)
        else r.None? && files == old(files)
      ensures files == old(files)
              || (digest(data) in files && digest(files[digest(data)]) == digest(data)
                  && files == old(files)[digest(data) := files[digest(data)]])
    {
      var d := digest(data);
      var way := ways(puts);
      puts := puts + 1;
      if d in files && way.readable && digest(files[d]) == d {
        return Some(d);
      }
      if way.staged.None? {
        return None;
      }
      var written := way.staged.value;
      if digest(written) != d || !way.renames {
        return None;
      }
      files := files[d := written];
      r := if way.chmods then Some(d) else None;
    }

    /** `get` hands back a file's bytes exactly when they are what their name says. */
    method Get(d: string, expectedLen: Option<nat>) returns (r: Option<seq<int>>)
      ensures r.Some? <==> IsHex64(d) && d in files && digest(files[d]) == d
                           && (expectedLen.Some? ==> |files[d]| == expectedLen.value)
      ensures r.Some? ==> digest(r.value) == d
    {
      if PathFor(d).None? || d !in files {
        return None;
      }
      var data := files[d];
      if expectedLen.Some? && |data| != expectedLen.value {
        return None;
      }
      r := if digest(data) == d then Some(data) else None;
    }

    /** With no collisions, what was put is what is got, however the put came by
        the file. */
    method PutThenGet(data: seq<int>) returns (r: Option<seq<int>>, d: Option<string>)
      requires IsHex64(digest(data))
      requires forall other :: digest(other) == digest(data) ==> other == data
      modifies this
      ensures d.Some? <==> Stores(digest, ways(old(puts)), old(files), data)
      ensures if d.Some? then r == Some(data) else r.None?
    {
      d := Put(data);
      if d.Some? {
        r := Get(d.value, Some(|data|));
      } else {
        r := None;
      }
    }
  }
}
