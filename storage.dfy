/**
 * The two stores the sync layer moves data between, as abstract state:
 * the local filesystem (directories and files) and the remote bucket
 * (objects by key, plus the order in which the bucket lists them).
 * Each `os` or bucket call the code makes is one operation here; which
 * transfers fail is fixed up front by sets of keys or paths, so every
 * outcome is determined by the state.
 */
module Storage {
  import opened Wrappers
  import opened Paths

  /** File and object contents, copied as opaque values. */
  type Blob = seq<bv8>

  /** A snapshot of the local filesystem. */
  datatype Disk = Disk(
    dirs: set<Path>,          // paths that are directories
    files: map<Path, Blob>,   // paths that are regular files, with their contents
    unwritable: set<Path>     // paths where opening for writing raises
  ) {
    /** `os.path.exists`: a directory or a file is at `p`. */
    predicate Exists(p: Path) {
      p in dirs || p in files
    }

    /** `os.path.isfile`. */
    predicate IsFile(p: Path) {
      p in files
    }

    /**
     * Whether writing a file at `p` succeeds: its parent is a directory,
     * `p` names a file (it does not end in '/', where `open` raises
     * IsADirectoryError) and is not a directory, and no fault is set at `p`.
     */
    predicate Writable(p: Path): (w: bool)
      ensures w ==> Basename(p) != [] && Dirname(p) in dirs
    {
      Dirname(p) in dirs && p != [] && p[|p| - 1] != '/' && p !in dirs && p !in unwritable
    }

    /**
     * `os.makedirs(name)`: first the missing ancestors (recursively, while
     * the head is non-empty and does not exist), then `name` itself.
     */
    function MakeDirs(name: Path): (d: Disk)
      decreases |name|
      ensures name in d.dirs && dirs <= d.dirs
      ensures d.files == files && d.unwritable == unwritable
    {
      var head := Dirname(name);
      DirnameIsPrefix(name);
      var d := if head != [] && Basename(name) != [] && !Exists(head) then MakeDirs(head) else this;
      d.(dirs := d.dirs + {name})
    }

    /** `os.makedirs(name)` creates only `name` and ancestors of it: every new directory is a prefix of `name`. */
    lemma {:induction false} MakeDirsOnlyAncestors(name: Path)
      decreases |name|
      ensures forall q :: q in MakeDirs(name).dirs && q !in dirs ==> q <= name
    {
      var head := Dirname(name);
      DirnameIsPrefix(name);
      if head != [] && Basename(name) != [] && !Exists(head) {
        MakeDirsOnlyAncestors(head);
      }
    }

    /** The filesystem after `content` is written at `p`. */
    function Write(p: Path, content: Blob): Disk {
      this.(files := files[p := content])
    }
  }

  /**
   * A snapshot of the remote bucket. The listing and the objects are
   * deliberately independent: a listed key may have no readable object
   * (a download of it fails) and an object need not be listed (no
   * `download_data` loop ever sees it).
   */
  datatype Store = Store(
    objects: map<Key, Blob>,  // stored objects
    listing: seq<Key>,        // the keys in the order the bucket enumerates them
    unreadable: set<Key>,     // keys whose download raises
    unwritable: set<Key>      // keys whose upload raises
  ) {
    /** Whether downloading `key` can succeed on the remote side. */
    predicate CanGet(key: Key) {
      key in objects && key !in unreadable
    }

    /**
     * The bucket after `content` is stored under `key`: the key now holds
     * the content, the listing gains the key at its end if it was not
     * listed yet and keeps its order otherwise, and the fault sets stay.
     */
    function Put(key: Key, content: Blob): (t: Store)
      ensures t.objects == objects[key := content] && t.unreadable == unreadable && t.unwritable == unwritable
      ensures listing <= t.listing && |t.listing| <= |listing| + 1
      ensures forall k :: k in t.listing <==> k in listing || k == key
    {
      this.(objects := objects[key := content],
            listing := if key in listing then listing else listing + [key])
    }
  }

  /**
   * `bucket.objects.filter(Prefix=prefix)`: the listed keys that begin
   * with `prefix`, in listing order.
   */
  function Prefixed(listing: seq<Key>, prefix: string): (keys: seq<Key>)
    ensures forall k :: k in keys <==> k in listing && prefix <= k
    ensures |keys| <= |listing|
  {
    if listing == [] then []
    else (if prefix <= listing[0] then [listing[0]] else []) + Prefixed(listing[1..], prefix)
  }

  /** Filtering keeps the listing order: it distributes over concatenation. */
  lemma {:induction false} PrefixedAppend(a: seq<Key>, b: seq<Key>, prefix: string)
    ensures Prefixed(a + b, prefix) == Prefixed(a, prefix) + Prefixed(b, prefix)
  {
    if a != [] {
      assert (a + b)[1..] == a[1..] + b;
      PrefixedAppend(a[1..], b, prefix);
    } else {
      assert a + b == b;
    }
  }

  /** The local filesystem, changed in place by `os.makedirs` and file writes. */
  class LocalDisk {
    var dirs: set<Path>
    var files: map<Path, Blob>
    const unwritable: set<Path>

    constructor (dirs: set<Path>, files: map<Path, Blob>, unwritable: set<Path>)
      ensures Snapshot() == Disk(dirs, files, unwritable)
    {
      this.dirs := dirs;
      this.files := files;
      this.unwritable := unwritable;
    }

    function Snapshot(): Disk
      reads this
    {
      Disk(dirs, files, unwritable)
    }

    /** `os.path.exists`. */
    predicate Exists(p: Path)
      reads this
    {
      Snapshot().Exists(p)
    }

    /** `os.path.isfile`. */
    predicate IsFile(p: Path)
      reads this
    {
      Snapshot().IsFile(p)
    }

    /** `os.makedirs(name)`, creating missing ancestors first. */
    method MakeDirs(name: Path)
      modifies this
      decreases |name|
      ensures Snapshot() == old(Snapshot()).MakeDirs(name)
    {
      var head, tail := Dirname(name), Basename(name);
      DirnameIsPrefix(name);
      if head != [] && tail != [] && !Exists(head) {
        MakeDirs(head);
      }
      dirs := dirs + {name};
    }

    /** `open(p, "wb").write(content)`; `ok` is false where that raises, and then nothing changes. */
    method Write(p: Path, content: Blob) returns (ok: bool)
      modifies this
      ensures ok == old(Snapshot()).Writable(p)
      ensures Snapshot() == if ok then old(Snapshot()).Write(p, content) else old(Snapshot())
    {
      ok := Snapshot().Writable(p);
      if ok {
        files := files[p := content];
      }
    }
  }

  /** The bucket's contents on the server, changed in place by uploads. */
  class RemoteStore {
    var objects: map<Key, Blob>
    var listing: seq<Key>
    const unreadable: set<Key>
    const unwritable: set<Key>

    constructor (objects: map<Key, Blob>, listing: seq<Key>, unreadable: set<Key>, unwritable: set<Key>)
      ensures Snapshot() == Store(objects, listing, unreadable, unwritable)
    {
      this.objects := objects;
      this.listing := listing;
      this.unreadable := unreadable;
      this.unwritable := unwritable;
    }

    function Snapshot(): Store
      reads this
    {
      Store(objects, listing, unreadable, unwritable)
    }
  }

  /** A boto3 handle on the one bucket; it holds no state of its own. */
  class Client {
    const store: RemoteStore

    constructor (store: RemoteStore)
      ensures this.store == store
    {
      this.store := store;
    }

    /** `bucket.objects.filter(Prefix=prefix)`: the listed keys starting with `prefix`, in listing order. */
    function Filter(prefix: string): (keys: seq<Key>)
      reads this, store
      ensures forall k :: k in keys <==> k in store.listing && prefix <= k
      ensures |keys| <= |store.listing|
    {
      Prefixed(store.listing, prefix)
    }

    /**
     * `bucket.download_file(key, path)`: copies the object to `path`;
     * `ok` is false where that raises (no such object, a read fault, or
     * `path` not writable), and then the disk is unchanged.
     */
    method DownloadFile(key: Key, disk: LocalDisk, path: Path) returns (ok: bool)
      modifies disk
      ensures ok == (store.Snapshot().CanGet(key) && old(disk.Snapshot()).Writable(path))
      ensures disk.Snapshot() == if ok then old(disk.Snapshot()).Write(path, store.objects[key]) else old(disk.Snapshot())
    {
      if key in store.objects && key !in store.unreadable {
        ok := disk.Write(path, store.objects[key]);
      } else {
        ok := false;
      }
    }

    /**
     * `bucket.upload_file(path, key)`: stores the local file under `key`;
     * `ok` is false where that raises (a `None` key, no file at `path`, or
     * a write fault on `key`), and then the bucket is unchanged.
     */
    method UploadFile(disk: LocalDisk, path: Path, key: Option<Key>) returns (ok: bool)
      modifies store
      ensures ok == (key.Some? && disk.IsFile(path) && key.value !in store.unwritable)
      ensures store.Snapshot() == if ok then old(store.Snapshot()).Put(key.value, disk.files[path]) else old(store.Snapshot())
    {
      ok := key.Some? && path in disk.files && key.value !in store.unwritable;
      if ok {
        store.objects := store.objects[key.value := disk.files[path]];
        if key.value !in store.listing {
          store.listing := store.listing + [key.value];
        }
      }
    }
  }
}
