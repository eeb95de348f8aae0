/**
 * What the three sync operations do, as functions of the state they run
 * on, and the properties proved about them. `download_data` is stated
 * declaratively: the loop's dir-creating pass (Walk), the first listed
 * object that reaches the download call (FirstAttempt), and what that
 * one download does (Sweep).
 */
module Sync {
  import opened Wrappers
  import opened Paths
  import opened Storage

  /** The closed set of data categories. */
  const DATA_TYPE: seq<string> := ["drone", "meteor", "model", "parcel", "planet"]

  /** The results of `download_data`: Python's `True`, `False` and `None`. */
  datatype DownloadResult = Fetched | Failed | FellThrough

  /** A user upload: its file name and its buffer. */
  datatype UploadedFile = UploadedFile(name: string, buffer: Blob)

  /** The results of `save_upload`: the path (a `str`), `False`, and `None`. */
  datatype SaveResult = Stored(path: Path) | WriteFailed | DirCreated

  // ---------------------------------------------------------------------
  // download_data
  // ---------------------------------------------------------------------

  /**
   * Whether the loop, meeting `key` on disk `d`, gets to the download
   * call: the object's directory exists and its path is not a file.
   */
  predicate ReachesFetch(d: Disk, key: Key) {
    d.Exists(LocalDir(key)) && !d.IsFile(LocalPath(key))
  }

  /**
   * An iteration that does not get to the download call: it creates the
   * object's directory when missing, and otherwise does nothing.
   */
  function Visit(d: Disk, key: Key): Disk {
    if !d.Exists(LocalDir(key)) then d.MakeDirs(LocalDir(key)) else d
  }

  /**
   * A turn that does not download leaves the object's directory present,
   * keeps every file and directory, and changes nothing when the
   * directory was already there.
   */
  lemma VisitEffect(d: Disk, key: Key)
    ensures Visit(d, key).Exists(LocalDir(key))
    ensures Visit(d, key).files == d.files && Visit(d, key).unwritable == d.unwritable && d.dirs <= Visit(d, key).dirs
    ensures d.Exists(LocalDir(key)) ==> Visit(d, key) == d
  {
  }

  /**
   * The disk once the loop has made its first `n` turns without reaching
   * a download: only directories are created.
   */
  function Walk(d0: Disk, keys: seq<Key>, n: nat): (d: Disk)
    requires n <= |keys|
    ensures d.files == d0.files && d.unwritable == d0.unwritable && d0.dirs <= d.dirs
  {
    if n == 0 then d0 else Visit(Walk(d0, keys, n - 1), keys[n - 1])
  }

  /**
   * The index, from `from` on, of the first listed object whose turn
   * reaches the download call, if any.
   */
  function FirstAttempt(d0: Disk, keys: seq<Key>, from: nat): (r: Option<nat>)
    requires from <= |keys|
    decreases |keys| - from
    ensures r.Some? ==> from <= r.value < |keys| && ReachesFetch(Walk(d0, keys, r.value), keys[r.value])
  {
    if from == |keys| then None
    else if ReachesFetch(Walk(d0, keys, from), keys[from]) then Some(from)
    else FirstAttempt(d0, keys, from + 1)
  }

  /** Whether downloading `key` into the cache succeeds on disk `d`. */
  predicate FetchOk(d: Disk, s: Store, key: Key) {
    s.CanGet(key) && d.Writable(LocalPath(key))
  }

  /**
   * The loop of `download_data` over the filtered keys: the first object
   * that reaches the download call ends the call, with `Fetched` if the
   * download succeeds and `Failed` if it raises; if none does, the loop
   * runs out and the call returns `None` (FellThrough).
   */
  function Sweep(d0: Disk, s: Store, keys: seq<Key>): (r: (DownloadResult, Disk))
    ensures r.0 == FellThrough <==> FirstAttempt(d0, keys, 0).None?
    ensures r.0 != Fetched ==> r.1.files == d0.files
    ensures r.1.unwritable == d0.unwritable && d0.dirs <= r.1.dirs
  {
    match FirstAttempt(d0, keys, 0)
    case None => (FellThrough, Walk(d0, keys, |keys|))
    case Some(i) =>
      var d := Walk(d0, keys, i);
      if FetchOk(d, s, keys[i]) then (Fetched, d.Write(LocalPath(keys[i]), s.objects[keys[i]]))
      else (Failed, d)
  }

  /** `download_data(category)`: the result and the local disk afterwards. */
  function Download(d0: Disk, s: Store, category: string): (r: (DownloadResult, Disk))
    ensures category !in DATA_TYPE ==> r == (Failed, d0)
  {
    if category in DATA_TYPE then Sweep(d0, s, Prefixed(s.listing, category)) else (Failed, d0)
  }

  /** No turn between `from` and the one FirstAttempt finds reaches a download. */
  lemma {:induction false} FirstAttemptIsFirst(d0: Disk, keys: seq<Key>, from: nat)
    requires from <= |keys|
    decreases |keys| - from
    ensures forall j :: from <= j < |keys| && (FirstAttempt(d0, keys, from).None? || j < FirstAttempt(d0, keys, from).value)
              ==> !ReachesFetch(Walk(d0, keys, j), keys[j])
  {
    if from < |keys| && !ReachesFetch(Walk(d0, keys, from), keys[from]) {
      FirstAttemptIsFirst(d0, keys, from + 1);
    }
  }

  /** Whether turn `j` of the loop over `keys` reaches the download call. */
  predicate Hits(d0: Disk, keys: seq<Key>, j: nat)
    requires j < |keys|
  {
    ReachesFetch(Walk(d0, keys, j), keys[j])
  }

  /** FirstAttempt from `from` finds `i` when `i` reaches a download and no index from `from` up to it does. */
  lemma {:induction false} FirstAttemptIs(d0: Disk, keys: seq<Key>, from: nat, i: nat)
    requires from <= i < |keys| && ReachesFetch(Walk(d0, keys, i), keys[i])
    requires forall j :: from <= j < i ==> !Hits(d0, keys, j)
    decreases i - from
    ensures FirstAttempt(d0, keys, from) == Some(i)
  {
    if from < i {
      assert !Hits(d0, keys, from);
      FirstAttemptIs(d0, keys, from + 1, i);
    }
  }

  /**
   * One turn of the `download_data` loop at index `i`, as the
   * specification sees it: either it reaches the download, and the whole
   * call's outcome is that download's, or it only visits the object and
   * the search for the first download goes on at `i + 1`.
   */
  lemma SweepAt(d0: Disk, s: Store, keys: seq<Key>, i: nat)
    requires i < |keys| && FirstAttempt(d0, keys, 0) == FirstAttempt(d0, keys, i)
    ensures var d := Walk(d0, keys, i);
            && (ReachesFetch(d, keys[i]) ==>
                  Sweep(d0, s, keys) == if FetchOk(d, s, keys[i]) then (Fetched, d.Write(LocalPath(keys[i]), s.objects[keys[i]]))
                                        else (Failed, d))
            && (!ReachesFetch(d, keys[i]) ==>
                  FirstAttempt(d0, keys, 0) == FirstAttempt(d0, keys, i + 1) && Walk(d0, keys, i + 1) == Visit(d, keys[i]))
  {
  }

  /**
   * The loop of `download_data` run step by step from the turn at `i` on
   * disk `d`: the operational reading of the same code, one turn at a
   * time, which the loop in both copies follows.
   */
  function Run(d: Disk, s: Store, keys: seq<Key>, i: nat): (DownloadResult, Disk)
    requires i <= |keys|
    decreases |keys| - i
  {
    if i == |keys| then (FellThrough, d)
    else if !d.Exists(LocalDir(keys[i])) then Run(d.MakeDirs(LocalDir(keys[i])), s, keys, i + 1)
    else if !d.IsFile(LocalPath(keys[i])) then
      if FetchOk(d, s, keys[i]) then (Fetched, d.Write(LocalPath(keys[i]), s.objects[keys[i]])) else (Failed, d)
    else Run(d, s, keys, i + 1)
  }

  /**
   * The step-by-step loop and the declarative Sweep agree: run from the
   * disk the first `i` turns leave, with no download among them, the loop
   * ends as Sweep says.
   */
  lemma {:induction false} RunFrom(d0: Disk, s: Store, keys: seq<Key>, i: nat)
    requires i <= |keys| && FirstAttempt(d0, keys, 0) == FirstAttempt(d0, keys, i)
    decreases |keys| - i
    ensures Run(Walk(d0, keys, i), s, keys, i) == Sweep(d0, s, keys)
  {
    if i < |keys| {
      SweepAt(d0, s, keys, i);
      if !ReachesFetch(Walk(d0, keys, i), keys[i]) {
        RunFrom(d0, s, keys, i + 1);
      }
    }
  }

  /** For a known category, `download_data` is the step-by-step loop over the filtered listing from the start. */
  lemma DownloadRuns(d0: Disk, s: Store, category: string)
    requires category in DATA_TYPE
    ensures Download(d0, s, category) == Run(d0, s, Prefixed(s.listing, category), 0)
  {
    RunFrom(d0, s, Prefixed(s.listing, category), 0);
  }

  /** The walk up to `n` depends only on the first `n` keys. */
  lemma {:induction false} WalkPrefix(d0: Disk, a: seq<Key>, b: seq<Key>, n: nat)
    requires n <= |a| && n <= |b| && a[..n] == b[..n]
    ensures Walk(d0, a, n) == Walk(d0, b, n)
  {
    if n > 0 {
      assert a[..n - 1] == a[..n][..n - 1] == b[..n][..n - 1] == b[..n - 1];
      assert a[n - 1] == a[..n][n - 1] == b[n - 1];
      WalkPrefix(d0, a, b, n - 1);
    }
  }

  /** The directories the first `n` turns create all lie along the cache paths of the keys they visit. */
  lemma {:induction false} WalkDirsAlongKeys(d0: Disk, keys: seq<Key>, n: nat)
    requires n <= |keys|
    ensures forall q :: q in Walk(d0, keys, n).dirs && q !in d0.dirs ==> exists j :: 0 <= j < n && q <= LocalPath(keys[j])
  {
    if n > 0 {
      WalkDirsAlongKeys(d0, keys, n - 1);
      forall q | q in Walk(d0, keys, n).dirs && q !in d0.dirs
        ensures exists j :: 0 <= j < n && q <= LocalPath(keys[j])
      {
        if q !in Walk(d0, keys, n - 1).dirs {
          Walk(d0, keys, n - 1).MakeDirsOnlyAncestors(LocalDir(keys[n - 1]));
          DirnameIsPrefix(LocalPath(keys[n - 1]));
          assert q <= LocalDir(keys[n - 1]) <= LocalPath(keys[n - 1]);
        }
      }
    }
  }

  /** Directories created by the first `m` turns are still there after `n >= m` turns. */
  lemma {:induction false} WalkDirsGrow(d0: Disk, keys: seq<Key>, m: nat, n: nat)
    requires m <= n <= |keys|
    decreases n - m
    ensures Walk(d0, keys, m).dirs <= Walk(d0, keys, n).dirs
  {
    if m < n {
      WalkDirsGrow(d0, keys, m, n - 1);
    }
  }

  /** After the first `n` turns, every visited object's directory exists. */
  lemma {:induction false} WalkCreatesDirs(d0: Disk, keys: seq<Key>, n: nat)
    requires n <= |keys|
    ensures forall j :: 0 <= j < n ==> Walk(d0, keys, n).Exists(LocalDir(keys[j]))
  {
    forall j | 0 <= j < n
      ensures Walk(d0, keys, n).Exists(LocalDir(keys[j]))
    {
      assert Walk(d0, keys, j + 1).Exists(LocalDir(keys[j]));
      WalkDirsGrow(d0, keys, j + 1, n);
    }
  }

  /** Where every visited object's directory already exists, the dir-creating turns change nothing. */
  lemma {:induction false} WalkIdle(d0: Disk, keys: seq<Key>, n: nat)
    requires n <= |keys|
    requires forall j :: 0 <= j < n ==> d0.Exists(LocalDir(keys[j]))
    ensures Walk(d0, keys, n) == d0
  {
    if n > 0 {
      WalkIdle(d0, keys, n - 1);
    }
  }

  /**
   * The effect of the loop: directories are created only along the local
   * paths of listed keys; a file changes only on `Fetched`, and then
   * exactly one, a listed object copied to its cache path where no file
   * was before.
   */
  lemma SweepEffect(d0: Disk, s: Store, keys: seq<Key>)
    ensures Sweep(d0, s, keys).1.unwritable == d0.unwritable
    ensures d0.dirs <= Sweep(d0, s, keys).1.dirs
    ensures forall q :: q in Sweep(d0, s, keys).1.dirs && q !in d0.dirs ==> exists k :: k in keys && q <= LocalPath(k)
    ensures Sweep(d0, s, keys).0 != Fetched ==> Sweep(d0, s, keys).1.files == d0.files
    ensures Sweep(d0, s, keys).0 == Fetched ==>
              exists k :: k in keys && k in s.objects && !d0.IsFile(LocalPath(k))
                          && Sweep(d0, s, keys).1.files == d0.files[LocalPath(k) := s.objects[k]]
  {
    var n := match FirstAttempt(d0, keys, 0) case None => |keys| case Some(i) => i;
    WalkDirsAlongKeys(d0, keys, n);
    forall q | q in Walk(d0, keys, n).dirs && q !in d0.dirs
      ensures exists k :: k in keys && q <= LocalPath(k)
    {
      var j :| 0 <= j < n && q <= LocalPath(keys[j]);
      assert keys[j] in keys;
    }
    if FirstAttempt(d0, keys, 0).Some? {
      assert keys[n] in keys;
    }
  }

  /**
   * Only listed keys that begin with the category string are acted on,
   * each at its cache path `"data/" + key`: every directory created lies
   * along such a path, and a fetch writes exactly one such path.
   */
  lemma DownloadTouchesOnlyPrefixedKeys(d0: Disk, s: Store, category: string)
    ensures forall q :: q in Download(d0, s, category).1.dirs && q !in d0.dirs ==>
              exists k :: k in s.listing && category <= k && q <= LocalPath(k)
    ensures Download(d0, s, category).1.files == d0.files ||
              exists k :: k in s.listing && category <= k && k in s.objects && !d0.IsFile(LocalPath(k))
                          && Download(d0, s, category).1.files == d0.files[LocalPath(k) := s.objects[k]]
  {
    if category in DATA_TYPE {
      SweepEffect(d0, s, Prefixed(s.listing, category));
    }
  }

  /** A file already in the cache is never overwritten, whatever the call returns. */
  lemma DownloadNeverOverwrites(d0: Disk, s: Store, category: string)
    ensures forall p :: p in d0.files ==>
              p in Download(d0, s, category).1.files && Download(d0, s, category).1.files[p] == d0.files[p]
  {
    if category in DATA_TYPE {
      SweepEffect(d0, s, Prefixed(s.listing, category));
    }
  }

  /**
   * At most one object is fetched per call: the files change exactly
   * when the call returns `True`, and then by one new file.
   */
  lemma DownloadFetchesAtMostOnce(d0: Disk, s: Store, category: string)
    ensures Download(d0, s, category).0 == Fetched <==> Download(d0, s, category).1.files != d0.files
    ensures |Download(d0, s, category).1.files| <= |d0.files| + 1
  {
    if category in DATA_TYPE {
      var keys := Prefixed(s.listing, category);
      SweepEffect(d0, s, keys);
      if Sweep(d0, s, keys).0 == Fetched {
        var k :| k in keys && k in s.objects && !d0.IsFile(LocalPath(k))
                 && Sweep(d0, s, keys).1.files == d0.files[LocalPath(k) := s.objects[k]];
        assert LocalPath(k) in Sweep(d0, s, keys).1.files;
      }
    }
  }

  /**
   * The directory check and the file check are exclusive: an object whose
   * directory is missing when its turn comes is not downloaded in that
   * turn, and its directory exists afterwards.
   */
  lemma MissingDirectorySkipsObject(d0: Disk, keys: seq<Key>, j: nat)
    requires j < |keys|
    requires !Walk(d0, keys, j).Exists(LocalDir(keys[j]))
    ensures FirstAttempt(d0, keys, 0) != Some(j)
    ensures Walk(d0, keys, j + 1).Exists(LocalDir(keys[j]))
  {
  }

  /**
   * The first listed object of a category whose directory is missing is
   * not fetched by the call (unless it is listed a second time), though
   * the call creates its directory.
   */
  lemma FreshDirectoryFirstObjectNotFetched(d0: Disk, s: Store, category: string)
    requires category in DATA_TYPE
    requires Prefixed(s.listing, category) != []
    requires !d0.Exists(LocalDir(Prefixed(s.listing, category)[0]))
    requires Prefixed(s.listing, category)[0] !in Prefixed(s.listing, category)[1..]
    ensures Download(d0, s, category).1.Exists(LocalDir(Prefixed(s.listing, category)[0]))
    ensures Download(d0, s, category).1.IsFile(LocalPath(Prefixed(s.listing, category)[0]))
              == d0.IsFile(LocalPath(Prefixed(s.listing, category)[0]))
  {
    var keys := Prefixed(s.listing, category);
    var k0 := keys[0];
    MissingDirectorySkipsObject(d0, keys, 0);
    var first := FirstAttempt(d0, keys, 0);
    if first.Some? {
      var i := first.value;
      WalkDirsGrow(d0, keys, 1, i);
      if keys[i] != k0 && LocalPath(keys[i]) == LocalPath(k0) {
        LocalPathInjective(keys[i], k0);
      }
      assert keys[i] != k0 by {
        assert keys[i] == keys[1..][i - 1];
      }
    } else {
      WalkCreatesDirs(d0, keys, |keys|);
    }
  }

  /**
   * Once the loop reaches a download, success or failure, the call is
   * over: the objects listed after it make no difference to the result or
   * to the disk.
   */
  lemma DownloadStopsAtFirstAttempt(d0: Disk, s: Store, keys: seq<Key>, i: nat, rest: seq<Key>)
    requires FirstAttempt(d0, keys, 0) == Some(i)
    ensures Sweep(d0, s, keys[..i + 1] + rest) == Sweep(d0, s, keys)
  {
    var keys' := keys[..i + 1] + rest;
    FirstAttemptIsFirst(d0, keys, 0);
    forall j | 0 <= j <= i
      ensures Walk(d0, keys', j) == Walk(d0, keys, j) && keys'[j] == keys[j]
    {
      assert keys'[..j] == keys[..j];
      WalkPrefix(d0, keys', keys, j);
    }
    FirstAttemptIs(d0, keys', 0, i);
  }

  /**
   * A cache that already holds every listed object of a valid category,
   * with its directories, makes the call a no-op returning `None`.
   */
  lemma CompleteCacheIsNoOp(d0: Disk, s: Store, category: string)
    requires category in DATA_TYPE
    requires forall k :: k in Prefixed(s.listing, category) ==> d0.Exists(LocalDir(k)) && d0.IsFile(LocalPath(k))
    ensures Download(d0, s, category) == (FellThrough, d0)
  {
    var keys := Prefixed(s.listing, category);
    SettledDiskAttempts(d0, keys);
  }

  /**
   * On a disk where every listed object's directory exists, the loop
   * reaches a download exactly at the listed objects not yet cached.
   */
  lemma SettledDiskAttempts(d: Disk, keys: seq<Key>)
    requires forall k :: k in keys ==> d.Exists(LocalDir(k))
    ensures FirstAttempt(d, keys, 0).None? <==> forall k :: k in keys ==> d.IsFile(LocalPath(k))
    ensures FirstAttempt(d, keys, 0).None? ==> Walk(d, keys, |keys|) == d
  {
    forall n | 0 <= n <= |keys|
      ensures Walk(d, keys, n) == d
    {
      WalkIdle(d, keys, n);
    }
    FirstAttemptIsFirst(d, keys, 0);
    if exists k :: k in keys && !d.IsFile(LocalPath(k)) {
      var k :| k in keys && !d.IsFile(LocalPath(k));
      var j :| 0 <= j < |keys| && keys[j] == k;
      assert ReachesFetch(Walk(d, keys, j), keys[j]);
    }
  }

  /**
   * After a call that returned `None`, every listed object's directory
   * exists, so the next call returns `None` exactly when every listed
   * object is already cached, and then changes nothing.
   */
  lemma SecondCallAfterFallThrough(d0: Disk, s: Store, category: string)
    requires Download(d0, s, category).0 == FellThrough
    ensures var d1 := Download(d0, s, category).1;
            && (Download(d1, s, category).0 == FellThrough
                <==> (forall k :: k in Prefixed(s.listing, category) ==> d1.IsFile(LocalPath(k))))
            && (Download(d1, s, category).0 == FellThrough ==> Download(d1, s, category).1 == d1)
  {
    var keys := Prefixed(s.listing, category);
    var d1 := Walk(d0, keys, |keys|);
    assert Download(d0, s, category).1 == d1;
    WalkCreatesDirs(d0, keys, |keys|);
    forall k | k in keys
      ensures d1.Exists(LocalDir(k))
    {
      var j :| 0 <= j < |keys| && keys[j] == k;
    }
    SettledDiskAttempts(d1, keys);
  }

  /**
   * The listing filter is the bare category string, so keys of another
   * top-level folder that merely starts with it are acted on as well.
   */
  lemma LoosePrefixMatch()
    ensures Prefixed(["droneX/a.tif", "drone/b.png", "meteor/c.grib"], "drone") == ["droneX/a.tif", "drone/b.png"]
  {
    assert "drone" <= "droneX/a.tif" && "drone" <= "drone/b.png";
    assert "meteor/c.grib"[0] != "drone"[0];
    var l := ["droneX/a.tif", "drone/b.png", "meteor/c.grib"];
    assert l[1..][1..][1..] == [];
  }

  /** On an empty disk, `os.makedirs("data/<category>")` creates `data` first. */
  lemma MakeCategoryDir(category: string)
    requires category != [] && category[|category| - 1] != '/' && '/' !in category
    ensures Disk({}, map[], {}).MakeDirs(CategoryDir(category)) == Disk({CacheDir, CategoryDir(category)}, map[], {})
  {
    var empty := Disk({}, map[], {});
    SplitJoined(CacheDir, category);
    DirnameIsPrefix(CacheDir);
    assert empty.MakeDirs(CacheDir) == Disk({CacheDir}, map[], {});
  }

  /**
   * On an empty cache with two objects `<category>/a` and `<category>/b`,
   * the first call creates `data` and `data/<category>` while visiting
   * the first object, skips it, and fetches the second one.
   */
  lemma FreshCacheFetchesSecondObject(category: string, a: string, b: string, ca: Blob, cb: Blob)
    requires category in DATA_TYPE && '/' !in a && '/' !in b && b != [] && a != b
    ensures var ka, kb := category + "/" + a, category + "/" + b;
            var s := Store(map[ka := ca, kb := cb], [ka, kb], {}, {});
            Download(Disk({}, map[], {}), s, category)
              == (Fetched, Disk({CacheDir, CategoryDir(category)}, map[LocalPath(kb) := cb], {}))
  {
    CategoryIsPlainName(category);
    var ka, kb := category + "/" + a, category + "/" + b;
    assert ka != kb by {
      assert ka[|category| + 1..] == a && kb[|category| + 1..] == b;
    }
    var s := Store(map[ka := ca, kb := cb], [ka, kb], {}, {});
    var d0 := Disk({}, map[], {});
    var d1 := Disk({CacheDir, CategoryDir(category)}, map[], {});
    var keys := [ka, kb];
    assert Prefixed(s.listing, category) == keys by {
      assert category <= ka && category <= kb;
      assert s.listing[1..][1..] == [];
    }
    CategoryObjectDir(category, a);
    CategoryObjectDir(category, b);
    assert Walk(d0, keys, 1) == d1 by {
      MakeCategoryDir(category);
    }
    assert !ReachesFetch(d0, ka);
    assert LocalPath(kb) != CategoryDir(category) && LocalPath(kb) != CacheDir by {
      assert |LocalPath(kb)| > |CategoryDir(category)| > |CacheDir|;
    }
    assert ReachesFetch(d1, kb) && FetchOk(d1, s, kb);
    FirstAttemptIs(d0, keys, 0, 1);
  }
  /**
   * A folder marker `<category>/` in the listing maps to the cache path
   * `data/<category>/`, which names the category directory itself: once
   * that directory exists, the marker's turn reaches the download (the
   * path is not a file), the download raises, and the call returns `False`.
   */
  lemma FolderMarkerFetchFails(category: string, content: Blob)
    requires category in DATA_TYPE
    ensures var marker := category + "/";
            var d := Disk({CacheDir, CategoryDir(category)}, map[], {});
            Download(d, Store(map[marker := content], [marker], {}, {}), category) == (Failed, d)
  {
    CategoryIsPlainName(category);
    var marker := category + "/";
    var d := Disk({CacheDir, CategoryDir(category)}, map[], {});
    var s := Store(map[marker := content], [marker], {}, {});
    assert Prefixed(s.listing, category) == [marker] by {
      assert category <= marker;
    }
    assert LocalDir(marker) == CategoryDir(category) by {
      var dir := CategoryDir(category);
      assert LocalPath(marker) == dir + "/" + [];
      SplitJoined(dir, []);
    }
    assert ReachesFetch(d, marker);
    assert !FetchOk(d, s, marker);
    FirstAttemptIs(d, [marker], 0, 0);
  }


  // ---------------------------------------------------------------------
  // upload_data
  // ---------------------------------------------------------------------

  /**
   * The key `upload_data` puts under: an explicit `object_name` as it is;
   * otherwise `<category>/<basename>` for a known category, and `None`
   * (no key) for any other.
   */
  function UploadKey(path: Path, category: string, objectName: Option<Key>): (key: Option<Key>)
    ensures objectName.Some? ==> key == objectName
    ensures objectName.None? ==> (key.Some? <==> category in DATA_TYPE)
    ensures objectName.None? && category in DATA_TYPE ==> key == Some(category + "/" + Basename(path))
    ensures key.Some? && objectName.None? ==> category + "/" <= key.value && '/' !in key.value[|category| + 1..]
  {
    BasenameIsTail(path);
    var name := Basename(path);
    assert (category + "/" + name)[|category| + 1..] == name;
    if objectName.None? && category in DATA_TYPE then Some(category + "/" + name)
    else objectName
  }

  /**
   * `upload_data(path, category, object_name)`: whether it reports
   * success, and the bucket afterwards. It succeeds exactly when there is
   * a key, a local file at `path`, and no put fault on the key, and then
   * the bucket holds the file's content under the key; otherwise nothing
   * changes. The local disk is never changed.
   */
  function Upload(d: Disk, s: Store, path: Path, category: string, objectName: Option<Key>): (r: (bool, Store))
    ensures r.0 <==> (UploadKey(path, category, objectName).Some? && d.IsFile(path)
                      && UploadKey(path, category, objectName).value !in s.unwritable)
    ensures r.0 ==> var key := UploadKey(path, category, objectName).value;
                    && r.1.objects == s.objects[key := d.files[path]]
                    && r.1.listing == (if key in s.listing then s.listing else s.listing + [key])
                    && r.1.unreadable == s.unreadable && r.1.unwritable == s.unwritable
    ensures !r.0 ==> r.1 == s
  {
    var key := UploadKey(path, category, objectName);
    if key.Some? && d.IsFile(path) && key.value !in s.unwritable then (true, s.Put(key.value, d.files[path]))
    else (false, s)
  }

  // ---------------------------------------------------------------------
  // save_upload
  // ---------------------------------------------------------------------

  /** Where `save_upload` stages a file: `data/<category>/<name>`. */
  function SavePath(category: string, name: string): Path {
    CategoryDir(category) + "/" + name
  }

  /**
   * `save_upload(file, category)`: the result and the local disk
   * afterwards. A missing directory is created and nothing is written
   * (`None`); otherwise an absent file is written (its path, or `False`
   * if the write raises) and a present one is left alone (its path).
   * Existing files are never overwritten.
   */
  function Save(d: Disk, f: UploadedFile, category: string): (r: (SaveResult, Disk))
    ensures r.0.Stored? ==> r.0.path == SavePath(category, f.name) && r.1.IsFile(r.0.path)
    ensures r.0.Stored? && !d.IsFile(r.0.path) ==> r.1 == d.Write(r.0.path, f.buffer)
    ensures r.0.Stored? && d.IsFile(r.0.path) ==> r.1 == d
    ensures r.0 == WriteFailed ==> r.1 == d
    ensures r.0 == DirCreated ==> r.1.files == d.files && r.1.Exists(Dirname(SavePath(category, f.name)))
    ensures r.0 == DirCreated <==> !d.Exists(Dirname(SavePath(category, f.name)))
    ensures r.0 == DirCreated ==> r.1 == d.MakeDirs(Dirname(SavePath(category, f.name)))
    ensures d.Exists(Dirname(SavePath(category, f.name))) && d.IsFile(SavePath(category, f.name)) ==>
              r == (Stored(SavePath(category, f.name)), d)
    ensures r.0 == WriteFailed <==>
              (d.Exists(Dirname(SavePath(category, f.name))) && !d.IsFile(SavePath(category, f.name))
               && !d.Writable(SavePath(category, f.name)))
    ensures forall p :: p in d.files ==> p in r.1.files && r.1.files[p] == d.files[p]
  {
    var p := SavePath(category, f.name);
    var dir := Dirname(p);
    if !d.Exists(dir) then (DirCreated, d.MakeDirs(dir))
    else if !d.IsFile(p) then
      if d.Writable(p) then (Stored(p), d.Write(p, f.buffer)) else (WriteFailed, d)
    else (Stored(p), d)
  }

  /**
   * First save wins: once a file has been staged under a name, saving
   * any file of that name again returns the same path and changes
   * nothing, so the first content stays.
   */
  lemma SaveFirstWins(d: Disk, f1: UploadedFile, f2: UploadedFile, category: string)
    requires f1.name == f2.name
    requires Save(d, f1, category).0.Stored?
    ensures Save(Save(d, f1, category).1, f2, category) == Save(d, f1, category)
  {
  }

  /**
   * A call that only created the directory is never followed by another
   * such call: the second call on the same name writes or reports.
   */
  lemma SaveSecondCallPassesDirectory(d: Disk, f: UploadedFile, g: UploadedFile, category: string)
    requires f.name == g.name
    requires Save(d, f, category).0 == DirCreated
    ensures Save(Save(d, f, category).1, g, category).0 != DirCreated
  {
  }

  /**
   * `save_upload` checks no category list: for any category, with its
   * directory present and a plain file name, the file is written to
   * `data/<category>/<name>`.
   */
  lemma SaveAcceptsAnyCategory(d: Disk, f: UploadedFile, category: string)
    requires category != [] && category[|category| - 1] != '/' && '/' !in f.name
    requires CategoryDir(category) in d.dirs
    requires !d.IsFile(SavePath(category, f.name)) && d.Writable(SavePath(category, f.name))
    ensures Save(d, f, category) == (Stored(SavePath(category, f.name)), d.Write(SavePath(category, f.name), f.buffer))
  {
    SplitJoined(CategoryDir(category), f.name);
  }

  /** Every category of DATA_TYPE is a plain non-empty name. */
  lemma CategoryIsPlainName(category: string)
    requires category in DATA_TYPE
    ensures category != [] && category[|category| - 1] != '/' && '/' !in category
  {
  }

  /**
   * The key `upload_data` derives for a file staged by `save_upload`
   * under a known category is `<category>/<name>`, and the cache path of
   * that key is the staged path.
   */
  lemma SavedFileKey(category: string, name: string)
    requires category in DATA_TYPE && '/' !in name
    ensures UploadKey(SavePath(category, name), category, None) == Some(category + "/" + name)
    ensures LocalPath(category + "/" + name) == SavePath(category, name)
  {
    CategoryIsPlainName(category);
    CategoryObjectDir(category, name);
    SplitJoined(CategoryDir(category), name);
  }

  /**
   * Round trip through the cache and the bucket: a file saved under a
   * known category and then uploaded without an explicit key is stored
   * under `<category>/<name>`; that key passes the category's listing
   * filter, and its cache path is the path the file was saved at, with
   * the content that was saved there.
   */
  lemma SaveUploadRoundTrip(d0: Disk, s0: Store, f: UploadedFile, category: string)
    requires category in DATA_TYPE && '/' !in f.name
    requires Save(d0, f, category).0.Stored?
    ensures var (r, d1) := Save(d0, f, category);
            var (ok, s1) := Upload(d1, s0, r.path, category, None);
            var key := category + "/" + f.name;
            && (ok <==> key !in s0.unwritable)
            && (ok ==> && key in Prefixed(s1.listing, category)
                       && LocalPath(key) == r.path
                       && key in s1.objects && s1.objects[key] == d1.files[r.path])
  {
    SavedFileKey(category, f.name);
    var key := category + "/" + f.name;
    assert category <= key;
  }
}
