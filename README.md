# tree-tracker sync layer in Dafny

tree-tracker keeps a local cache of data files under `data/` and mirrors it
to an S3 bucket. The files are grouped by category: `drone`, `meteor`,
`model`, `parcel` and `planet`. The sync layer has three operations, and it
exists in two copies. `tree_tracker/util.py` is the typed copy, with one
bucket handle created at import. `util.py` is the untyped copy, which builds
a fresh handle on every call to `upload_data` and `download_data`.

- `upload_data(file_obj, data_type, object_name)` derives the remote key and
  pushes a local file. Without a key and with a known category, the key is
  `<data_type>/<basename(file_obj)>`.
- `download_data(data)` walks the bucket listing filtered by the category
  string. Each object's turn does one of three things:
  - if the object's local directory is missing, it creates it and moves on;
  - if the directory is there and the local file is not, it downloads the
    object and returns;
  - otherwise it skips the object.

  The call returns `True` after a successful download, `False` after a
  failed one or for an unknown category, and `None` when the loop runs out.
- `save_upload(file_obj, data_type)` stages a user upload at
  `data/<data_type>/<name>`. A missing directory is created and the call
  returns `None`. Otherwise an absent file is written and its path returned,
  or `False` if the write raises. A present file is left alone and its path
  returned.

The model has six modules:
- `Wrappers`: the `Option` type.
- `Paths`: POSIX `basename` and `dirname`, plus the map between a key and its
  cache path `data/<key>`.
- `Storage`: the two stores as values (`Disk`, `Store`) and as objects changed
  in place (`LocalDisk`, `RemoteStore`), plus the bucket handle `Client`,
  whose methods are the boto3 transfers.
- `Sync`: what each operation does, written as functions of the state, and
  the properties proved about them.
- `TreeTrackerUtil` and `RootUtil`: the two copies of the three operations,
  as imperative methods. Each is proved equal to the `Sync` function.
  `RootUtil` also runs both copies from equal states and shows they agree.

Which transfers fail is fixed in advance as data: unwritable paths on the
disk, and unreadable or unwritable keys in the bucket. Every outcome is
therefore a function of the state.

`download_data` is specified declaratively:
- `Walk` is the disk after the first `n` turns that only visit objects.
- `FirstAttempt` is the first turn that reaches the download call.
- `Sweep` is the outcome of that download, or the fall-through.

`Run` is the same loop read operationally, one turn at a time. It is
proved equal to `Sweep`. The loop in both copies keeps the invariant that
running `Run` from the current disk and turn gives the same outcome as
running it from the start.

Where the docstrings and the code disagree, the model follows the code:
- `download_data` can return `None`, not only `True` or `False`.
- `save_upload` returns `None` after creating the directory, and returns the
  path both after writing the file and when the file was already there.

Three more behaviours of the code, which no docstring mentions, are kept
and proved:
- The filter is the bare category, so `droneX/...` keys match `drone`.
- On a fresh cache, the first object of a category is not fetched: its turn
  only creates the directory.
- A call fetches at most one object.

A key ending in '/' (an S3 folder marker such as `drone/`) has the cache
path `data/drone/`. That path names a directory, so the download there
raises and the call returns `False`. The disk model's `Writable` is false
for any path ending in '/'.

## Model

| member | source | states |
|---|---|---|
| Paths.SplitPointAfterLastSlash | tree_tracker/util.py:60 | The cut point of `posixpath.split` is just after the last '/', and no '/' follows it |
| Paths.StripTrailingSlashesRemovesRun | tree_tracker/util.py:60 | Stripping the head's trailing slashes yields a prefix that does not end in '/', and removes only slashes |
| Paths.BasenameIsTail | tree_tracker/util.py:36 | `os.path.basename` is a slash-free suffix of the path. It is empty exactly when the path is empty or ends in '/'. When it is not the whole path, a '/' comes just before it. A path without '/' is its own basename |
| Paths.DirnameIsPrefix | tree_tracker/util.py:60 | `os.path.dirname` is everything before the basename, less the slashes that end it unless it is slashes only. It is a prefix of the path, strictly shorter when the basename is not empty, and empty exactly for a path without '/' |
| Paths.SplitJoined | tree_tracker/util.py:87-89 | For `dir + "/" + name`, where `dir` is non-empty without a trailing '/' and `name` has no '/', dirname gives back `dir` and basename gives back `name` |
| Paths.LocalPath | tree_tracker/util.py:60-67 | The cache path of a key is `data`, then '/', then the key itself, so the key can be read back from it |
| Paths.SlashRunJoined | tree_tracker/util.py:60 | For `dir`, then a run of one or more slashes, then a plain name, dirname gives back `dir` and basename gives back the name, so the key `drone//a.tif` is checked in `data/drone` |
| Paths.KeyOf | tree_tracker/util.py:60 | A path has a key exactly when it starts with `data/`, and the cache path of that key is the path |
| Paths.KeyPathRoundTrip | tree_tracker/util.py:60 | The key of the cache path `data/<key>` is `key` |
| Paths.LocalPathInjective | tree_tracker/util.py:64-67 | Different keys have different cache paths |
| Paths.LocalDirUnderCacheDir | tree_tracker/util.py:60-61 | The directory checked for any object lies under `data` |
| Paths.CategoryObjectDir | tree_tracker/util.py:60-61 | The object `<category>/<name>` is cached at `data/<category>/<name>`, in directory `data/<category>` |
| Storage.Disk.MakeDirs | tree_tracker/util.py:61 | `os.makedirs` leaves `name` a directory, removes no directory, and changes no file |
| Storage.Disk.MakeDirsOnlyAncestors | tree_tracker/util.py:61 | Every directory `os.makedirs` creates is a prefix of `name` |
| Storage.Disk.Writable | tree_tracker/util.py:95-101 | A path that can be opened for writing has a non-empty basename and an existing parent directory |
| Storage.LocalDisk.MakeDirs | tree_tracker/util.py:61 | The in-place `os.makedirs` leaves the disk equal to the value model's `MakeDirs` |
| Storage.LocalDisk.Write | tree_tracker/util.py:95-101 | Opening and writing succeeds exactly when the path is writable, and then stores the content; otherwise nothing changes |
| Storage.Prefixed | tree_tracker/util.py:58 | `objects.filter(Prefix=…)` keeps exactly the listed keys that start with the prefix, and is no longer than the listing |
| Storage.Store.Put | tree_tracker/util.py:40 | A put stores the content under the key and changes no fault set. It keeps every listed key and lists the new key, adding at most one entry |
| Storage.Client.Filter | tree_tracker/util.py:58 | The filtered listing holds exactly the listed keys that start with the prefix, and is no longer than the listing |
| Storage.PrefixedAppend | tree_tracker/util.py:58 | The filter keeps listing order: it distributes over concatenation |
| Storage.Client.DownloadFile | tree_tracker/util.py:67 | The download succeeds exactly when the object is readable and the path writable, and then writes the object's content there; otherwise the disk is unchanged |
| Storage.Client.UploadFile | tree_tracker/util.py:40 | The put succeeds exactly when there is a key, a local file and no put fault, and then stores the file's content under the key; otherwise the bucket is unchanged |
| Sync.VisitEffect | tree_tracker/util.py:60-62 | A turn that does not download leaves the object's directory present, keeps every file and directory, and changes nothing when the directory was already there |
| Sync.Walk | tree_tracker/util.py:58-62 | Turns that do not reach the download keep the files and add directories only |
| Sync.FirstAttempt | tree_tracker/util.py:58-66 | The index found is a turn that reaches the download call |
| Sync.FirstAttemptIsFirst | tree_tracker/util.py:58-66 | No turn before the one found reaches the download call |
| Sync.FirstAttemptIs | tree_tracker/util.py:58-66 | A turn that reaches the download, with none before it that does, is the one found |
| Sync.Sweep | tree_tracker/util.py:58-71 | The loop falls through (`None`) exactly when no turn reaches the download call. Files change only on `True`. Directories are only added, and the fault set is kept |
| Sync.RunFrom | tree_tracker/util.py:58-71 | The step-by-step loop, started at any turn before the first download, ends as `Sweep` does |
| Sync.DownloadRuns | tree_tracker/util.py:57-73 | For a known category, `download_data` equals the step-by-step loop over the filtered listing |
| Sync.WalkPrefix | tree_tracker/util.py:58-62 | The disk after `n` turns depends only on the first `n` listed keys |
| Sync.Download | tree_tracker/util.py:57-73 | A category outside DATA_TYPE gives `False` and leaves the disk as it was |
| Sync.WalkDirsAlongKeys | tree_tracker/util.py:60-61 | Every directory the turns create is a prefix of the cache path of a key they visited |
| Sync.WalkDirsGrow | tree_tracker/util.py:60-61 | Directories created in earlier turns are still there in later ones |
| Sync.WalkCreatesDirs | tree_tracker/util.py:60-61 | After the turns, every visited object's directory exists |
| Sync.WalkIdle | tree_tracker/util.py:60-62 | When every visited object's directory already exists, the turns change nothing |
| Sync.SweepEffect | tree_tracker/util.py:58-71 | New directories lie along cache paths of listed keys. Files change only on `True`, and then one listed object is written at its cache path, where no file was before |
| Sync.DownloadTouchesOnlyPrefixedKeys | tree_tracker/util.py:58-67 | Only listed keys that start with the category string are acted on, each at `data/<key>` |
| Sync.DownloadNeverOverwrites | tree_tracker/util.py:64 | Every file present before the call keeps its content, whatever the result |
| Sync.DownloadFetchesAtMostOnce | tree_tracker/util.py:66-71 | The files change exactly when the call returns `True`, and then by at most one file |
| Sync.MissingDirectorySkipsObject | tree_tracker/util.py:60-62 | An object whose directory is missing on its turn is not downloaded on that turn, and afterwards its directory exists |
| Sync.FreshDirectoryFirstObjectNotFetched | tree_tracker/util.py:60-64 | If the first filtered object's directory is missing and the object is listed once, the call creates that directory and leaves the object's file as it was |
| Sync.DownloadStopsAtFirstAttempt | tree_tracker/util.py:66-71 | After the first turn that reaches the download, whether it succeeds or fails, later listed objects change neither the result nor the disk |
| Sync.CompleteCacheIsNoOp | tree_tracker/util.py:58-71 | A cache already holding every filtered object, with its directory, makes the call return `None` and change nothing |
| Sync.SettledDiskAttempts | tree_tracker/util.py:62-64 | When every object's directory exists, the loop reaches no download exactly when every object is already cached, and then the disk is unchanged |
| Sync.SecondCallAfterFallThrough | tree_tracker/util.py:58-71 | After a call returns `None`, a second call returns `None` exactly when every filtered object is cached, and then changes nothing |
| Sync.LoosePrefixMatch | tree_tracker/util.py:58 | The filter for `drone` keeps a `droneX/…` key and drops a `meteor/…` key |
| Sync.MakeCategoryDir | tree_tracker/util.py:61 | On an empty disk, `os.makedirs("data/<category>")` creates `data` and `data/<category>` |
| Sync.FolderMarkerFetchFails | tree_tracker/util.py:60-71 | A folder-marker key `<category>/`, whose directory exists, reaches the download call. The download fails because the cache path names a directory, so the call returns `False` and changes nothing |
| Sync.FreshCacheFetchesSecondObject | tree_tracker/util.py:58-68 | On an empty cache with two objects of one category, the call creates both directories, skips the first object, downloads the second and returns `True` |
| Sync.UploadKey | tree_tracker/util.py:34-36 | An explicit key is used unchanged. Without one, there is a key exactly when the category is known, and it is `<category>/` followed by the file's basename |
| Sync.Upload | tree_tracker/util.py:34-44 | Success happens exactly when there is a key, a local file and no put fault. Success stores the file under the key. It appends the key to the listing unless the key is already listed, and keeps the fault sets. Failure changes nothing |
| Sync.Save | tree_tracker/util.py:87-103 | `None` happens exactly when the directory of `data/<category>/<name>` is missing, and then that directory is created. With the directory present, an existing file gives back its path with nothing changed. `False` happens exactly when the directory is present, the file is absent and the path is not writable, and it changes nothing. A new file is written, and no existing file is overwritten |
| Sync.SaveFirstWins | tree_tracker/util.py:93-103 | After a save that returned a path, saving any file with that name returns the same path and changes nothing |
| Sync.SaveSecondCallPassesDirectory | tree_tracker/util.py:89-93 | After a call that only created the directory, a second call with the same name does not return `None` |
| Sync.SaveAcceptsAnyCategory | tree_tracker/util.py:87-98 | For any category, known or not, whose directory is present, a writable new file is written at `data/<category>/<name>` |
| Sync.CategoryIsPlainName | tree_tracker/util.py:15 | Every category is a non-empty name without '/' |
| Sync.SavedFileKey | tree_tracker/util.py:34-36 | For a file staged under a known category, the derived key is `<category>/<name>`, and its cache path is the staged path |
| Sync.SaveUploadRoundTrip | tree_tracker/util.py:34-98 | A file saved under a known category and then uploaded without a key succeeds exactly when that key has no put fault. The key then passes the category filter, maps back to the staged path and holds the saved content |
| TreeTrackerUtil.UploadData | tree_tracker/util.py:23-44 | Result and new bucket are those of `Sync.Upload` |
| TreeTrackerUtil.DownloadData | tree_tracker/util.py:48-73 | Result and new disk are those of `Sync.Download` |
| TreeTrackerUtil.SaveUpload | tree_tracker/util.py:77-103 | Result and new disk are those of `Sync.Save` |
| RootUtil.UploadData | util.py:15-40 | With a fresh handle, result and new bucket are those of `Sync.Upload` |
| RootUtil.DownloadData | util.py:44-74 | With a fresh handle, result and new disk are those of `Sync.Download` |
| RootUtil.SaveUpload | util.py:78-104 | Result and new disk are those of `Sync.Save` |
| RootUtil.DownloadCopiesAgree | util.py:58-74 | Both copies of `download_data`, run from equal disks, give equal results and equal disks |
| RootUtil.UploadCopiesAgree | util.py:26-40 | Both copies of `upload_data`, run from equal buckets, give equal results and equal buckets |
| RootUtil.SaveCopiesAgree | util.py:88-104 | Both copies of `save_upload`, run from equal disks, give equal results and equal disks |

## Left out

- Credentials, dotenv loading, `BUCKET_NAME` and the construction of the boto3 resource and bucket (tree_tracker/util.py:9-19, util.py:6-10, 31-34, 52-55). The bucket is an abstract store, and the handle is a stateless `Client`.
- RootUtil.DownloadCopiesAgree, RootUtil.UploadCopiesAgree and RootUtil.SaveCopiesAgree assume that both handles see the same bucket with the same faults. The two copies read their credentials from different environment variables: `ACCESS_KEY`/`SECRET_KEY` in util.py:8-9 and `AWS_ACCESS_KEY_ID`/`AWS_SECRET_ACCESS_KEY` in tree_tracker/util.py:11-12. When only one pair is set, the copies authenticate differently and can fail differently on list, get or put. The model does not capture this.
- Home.py and the Streamlit pages: layout only, with no logic.
- Path normalisation: the code builds paths with `.`, `..` and repeated slashes kept as written, and so does the model. The operating system, however, resolves them, and the model's disk does not: it compares raw strings.
  - Take a disk with `data`, `data/drone` and `data/drone/sub`, and a listing whose only key is `drone//sub/a.tif`. The model sees no directory `data/drone//sub`, so it creates one and returns `None`.
  - In the program, `os.path.exists("data/drone//sub")` is true, so the call downloads the object and returns `True`.
  - `os.makedirs`'s special handling of `.` and of a trailing slash in its argument is not modelled. A path ending in '/' is never writable, which is how a folder-marker key makes the download fail.
- Storage.Disk.Writable: the disk compares paths as raw strings, and the only directory path it recognises is one ending in '/'. A path ending in `/.` or `/..` names a directory, so `open` raises there. Examples are the save path of an upload named `.`, or the cache path of a key ending in `/.` or `/..`. The model instead treats such a path as a new file name, so `save_upload` returns the path instead of `False` and `download_data` returns `True` instead of `False`.
- Exceptions from `os.makedirs`, which the code does not catch, for example a file in the way. The model's `MakeDirs` always succeeds.
- Paths.Basename and Paths.Dirname carry no `ensures` of their own. Their properties are stated in lemmas instead. Paths.BasenameIsTail and Paths.DirnameIsPrefix characterise them for every path. Paths.SplitJoined and Paths.SlashRunJoined cover joined paths.
- Sync.Download: the listing loop is outside any `try` in both copies, so a listing request that raises propagates out of `download_data`. Examples are missing credentials, a network error or a missing bucket. The model's listing always succeeds, so `Download` always returns a result.
- Storage.LocalDisk.Write: an open that succeeds followed by a write that raises would leave an empty file behind. The model's write either fully happens or changes nothing.
- Storage.Client.UploadFile: a `None` key, which happens for an unknown category without an explicit name, is taken to make the put fail. What boto3 actually does with it is library behaviour outside this code.
- Listing order: the listing is a sequence the model is given. A new key is appended, whereas S3 lists keys in lexicographic order. Pagination of the listing is hidden inside it.
- Byte fidelity of transfers and of `UploadedFile.getbuffer()`: contents are opaque values that are copied.
- Concurrent callers and races between the existence checks and the writes: the code has no synchronisation.
