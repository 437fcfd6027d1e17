/** The optional value of Swift's `T?`. */
module Optional {
  datatype Option<T> = None | Some(value: T)
}

/** The part of Foundation's FileManager that the restore pipeline and the
    chat-directory cleanup use: a flat store of files keyed by path. Directories
    are implicit (a directory exists as the common prefix of its files). */
module FileSystem {

  type Bytes = seq<bv8>

  /** A file URL as its list of path components. */
  type Path = seq<string>

  datatype IOError =
    | NoSuchFile(path: Path)
    | AlreadyExists(path: Path)
    | WriteFailed(path: Path)
    | RemoveFailed(path: Path)

  datatype Outcome = Success | Failure(error: IOError)

  /** True when `dir` is a proper ancestor of `p`. */
  predicate Under(dir: Path, p: Path) {
    |dir| < |p| && p[..|dir|] == dir
  }

  /** Neither path lies inside the other. */
  predicate Disjoint(a: Path, b: Path) {
    !(a <= b) && !(b <= a)
  }

  /** `removeItem(at:)`: fails when nothing is at `p`, or when the file
      there cannot be deleted (`undeletable`: a permission or a lock the model
      does not look into). A failed removal changes nothing. */
  function Remove(files: map<Path, Bytes>, undeletable: set<Path>, p: Path): (r: (Outcome, map<Path, Bytes>))
    ensures r.0.Success? <==> p in files && p !in undeletable
    ensures r.0.Failure? ==> r.1 == files
    ensures p !in r.1 <==> p !in files || p !in undeletable
    ensures forall q :: q != p ==> (q in r.1 <==> q in files) && (q in files ==> r.1[q] == files[q])
  {
    if p !in files then (Failure(NoSuchFile(p)), files)
    else if p in undeletable then (Failure(RemoveFailed(p)), files)
    else (Success, files - {p})
  }

  /** The files at `p` or anywhere below it. */
  function Subtree(files: map<Path, Bytes>, p: Path): (r: set<Path>)
    ensures forall q :: q in r <==> q in files && p <= q
  {
    set q | q in files && p <= q
  }

  /** `removeItem(at:)` on a path that may name a directory: it deletes `p`
      and everything below it. It fails when nothing is there; a file below
      `p` that cannot be deleted stays and makes the removal fail, while the
      other files go. */
  function RemoveTree(files: map<Path, Bytes>, undeletable: set<Path>, p: Path): (r: (Outcome, map<Path, Bytes>))
    ensures r.0.Success? <==>
              (exists q :: q in files && p <= q) && (forall q :: q in files && p <= q ==> q !in undeletable)
    ensures forall q :: q in r.1 <==> q in files && (!(p <= q) || q in undeletable)
    ensures forall q :: q in r.1 ==> r.1[q] == files[q]
  {
    var gone := Subtree(files, p);
    if gone == {} then (Failure(NoSuchFile(p)), files)
    else if gone * undeletable != {} then
      (Failure(RemoveFailed(p)), files - (gone - undeletable))
    else
      assert forall q :: q in gone ==> q !in gone * undeletable;
      (Success, files - gone)
  }

  /** On a path with nothing below it, the recursive removal is `Remove`. */
  lemma RemoveTreeOfFile(files: map<Path, Bytes>, undeletable: set<Path>, p: Path)
    requires forall q :: q in files ==> !Under(p, q)
    ensures RemoveTree(files, undeletable, p) == Remove(files, undeletable, p)
  {
    var gone := Subtree(files, p);
    forall q | q in gone ensures q == p {
      assert q[..|p|] == p && |q| == |p|;
    }
    assert gone == if p in files then {p} else {};
    if p in files {
      assert gone * undeletable == (if p in undeletable then {p} else {});
      if p in undeletable {
        assert files - (gone - undeletable) == files;
      }
    }
  }

  /** `copyItem(at:to:)`: fails when the source is missing, when the
      destination already exists, or when the destination cannot be written;
      a failed copy writes nothing. */
  function Copy(files: map<Path, Bytes>, unwritable: set<Path>, src: Path, dst: Path): (r: (Outcome, map<Path, Bytes>))
    ensures r.0.Success? <==> src in files && dst !in files && dst !in unwritable
    ensures r.0.Failure? ==> r.1 == files
    ensures r.0.Success? ==> dst in r.1 && r.1[dst] == files[src]
    ensures forall q :: q != dst ==> (q in r.1 <==> q in files) && (q in files ==> r.1[q] == files[q])
  {
    if src !in files then (Failure(NoSuchFile(src)), files)
    else if dst in files then (Failure(AlreadyExists(dst)), files)
    else if dst in unwritable then (Failure(WriteFailed(dst)), files)
    else (Success, files[dst := files[src]])
  }

  /** The files `entries` placed directly inside directory `dir`. */
  function PlaceUnder(dir: Path, entries: map<string, Bytes>): (m: map<Path, Bytes>)
    ensures forall n :: n in entries ==> dir + [n] in m && m[dir + [n]] == entries[n]
    ensures forall p :: p in m ==> |p| == |dir| + 1 && Under(dir, p) && p[|dir|] in entries
  {
    var paths := set n | n in entries :: dir + [n];
    assert forall p :: p in paths ==> |p| == |dir| + 1 && p[..|dir|] == dir && p[|dir|] in entries by {
      forall p | p in paths ensures |p| == |dir| + 1 && p[..|dir|] == dir && p[|dir|] in entries {
        var n :| n in entries && p == dir + [n];
        assert p[|dir|] == n;
      }
    }
    var m := map p | p in paths :: entries[p[|dir|]];
    assert forall n :: n in entries ==> dir + [n] in paths && (dir + [n])[|dir|] == n;
    m
  }

  /** The process-wide `FileManager.default`, reduced to the files it holds. */
  class FileStore {
    var files: map<Path, Bytes>
    /** Destinations a copy cannot be written to (a full disk, a missing
        parent directory): the I/O failures the model lets `copyItem` raise. */
    const unwritable: set<Path>
    /** Files `removeItem` cannot delete: the I/O failures it may raise on a
        file that exists. */
    const undeletable: set<Path>

    constructor (initial: map<Path, Bytes>, readOnly: set<Path>, locked: set<Path>)
      ensures files == initial && unwritable == readOnly && undeletable == locked
    {
      files := initial;
      unwritable := readOnly;
      undeletable := locked;
    }

    /** `fileExists(atPath:)` on a file path. */
    function FileExists(p: Path): (b: bool)
      reads this
      ensures b <==> p in files
    {
      p in files
    }

    /** `fileSize(_:)`: the length of the file, 0 when nothing is there, so
        a positive size means the file exists. */
    function FileSize(p: Path): (n: nat)
      reads this
      ensures n > 0 ==> FileExists(p)
      ensures !FileExists(p) ==> n == 0
      ensures FileExists(p) ==> n == |files[p]|
    {
      if p in files then |files[p]| else 0
    }

    method RemoveItem(p: Path) returns (r: Outcome)
      modifies this
      ensures (r, files) == Remove(old(files), undeletable, p)
    {
      if p !in files {
        r := Failure(NoSuchFile(p));
      } else if p in undeletable {
        r := Failure(RemoveFailed(p));
      } else {
        files := files - {p};
        r := Success;
      }
    }

    /** `removeItem(at:)` on an entry that may be a directory. */
    method RemoveTreeItem(p: Path) returns (r: Outcome)
      modifies this
      ensures (r, files) == RemoveTree(old(files), undeletable, p)
    {
      var gone := Subtree(files, p);
      if gone == {} {
        r := Failure(NoSuchFile(p));
      } else if gone * undeletable != {} {
        files := files - (gone - undeletable);
        r := Failure(RemoveFailed(p));
      } else {
        files := files - gone;
        r := Success;
      }
    }

    method CopyItem(src: Path, dst: Path) returns (r: Outcome)
      modifies this
      ensures (r, files) == Copy(old(files), unwritable, src, dst)
    {
      if src !in files {
        r := Failure(NoSuchFile(src));
      } else if dst in files {
        r := Failure(AlreadyExists(dst));
      } else if dst in unwritable {
        r := Failure(WriteFailed(dst));
      } else {
        files := files[dst := files[src]];
        r := Success;
      }
    }

    /** Writes `bytes` at `p`, replacing whatever was there (what the cloud
        daemon and the archive extractor do). */
    method Write(p: Path, bytes: Bytes)
      modifies this
      ensures files == old(files)[p := bytes]
    {
      files := files[p := bytes];
    }

    /** Writes every entry of `entries` inside `dir`, overwriting. */
    method WriteAll(dir: Path, entries: map<string, Bytes>)
      modifies this
      ensures files == old(files) + PlaceUnder(dir, entries)
    {
      files := files + PlaceUnder(dir, entries);
    }
  }
}
