/**
 * The untyped copy of the sync layer (util.py). It builds a fresh bucket
 * handle on every call to `upload_data` and `download_data`; the handle
 * is stateless. It also reads its credentials from other environment
 * variables, which the model leaves out. The copies agree when both
 * handles see the same bucket with the same faults, which the last three
 * methods show by running both copies from equal states.
 */
module RootUtil {
  import opened Wrappers
  import opened Paths
  import opened Storage
  import opened Sync
  import TreeTrackerUtil

  /** `upload_data`: derives the key, opens a fresh handle on the bucket, uploads. */
  method UploadData(store: RemoteStore, disk: LocalDisk, fileObj: Path, dataType: string, objectName: Option<Key>)
    returns (ok: bool)
    modifies store
    ensures (ok, store.Snapshot()) == Upload(disk.Snapshot(), old(store.Snapshot()), fileObj, dataType, objectName)
  {
    var name := objectName;
    if name.None? {
      if dataType in DATA_TYPE {
        name := Some(dataType + "/" + Basename(fileObj));
      }
    }
    var bucket := new Client(store);
    ok := bucket.UploadFile(disk, fileObj, name);
  }

  /** `download_data`: opens a fresh handle on the bucket, then the same listing loop. */
  method DownloadData(store: RemoteStore, disk: LocalDisk, data: string) returns (r: DownloadResult)
    modifies disk
    ensures (r, disk.Snapshot()) == Download(old(disk.Snapshot()), store.Snapshot(), data)
  {
    var bucket := new Client(store);
    if data in DATA_TYPE {
      ghost var d0, s := disk.Snapshot(), store.Snapshot();
      var keys := bucket.Filter(data);
      DownloadRuns(d0, s, data);
      var i := 0;
      while i < |keys|
        invariant 0 <= i <= |keys|
        invariant Run(disk.Snapshot(), s, keys, i) == Run(d0, s, keys, 0)
      {
        var key := keys[i];
        var path := LocalPath(key);
        if !disk.Exists(Dirname(path)) {
          disk.MakeDirs(Dirname(path));
        } else {
          if !disk.IsFile(path) {
            var ok := bucket.DownloadFile(key, disk, path);
            if ok {
              return Fetched;
            }
            return Failed;
          }
        }
        i := i + 1;
      }
      return FellThrough;
    } else {
      return Failed;
    }
  }

  /** `save_upload`: identical to the typed copy; it uses no bucket. */
  method SaveUpload(disk: LocalDisk, fileObj: UploadedFile, dataType: string) returns (r: SaveResult)
    modifies disk
    ensures (r, disk.Snapshot()) == Save(old(disk.Snapshot()), fileObj, dataType)
  {
    var filePath := CacheDir + "/" + dataType + "/" + fileObj.name;
    if !disk.Exists(Dirname(filePath)) {
      disk.MakeDirs(Dirname(filePath));
      r := DirCreated;
    } else {
      if !disk.IsFile(filePath) {
        var ok := disk.Write(filePath, fileObj.buffer);
        if ok {
          return Stored(filePath);
        }
        return WriteFailed;
      } else {
        return Stored(filePath);
      }
    }
  }

  /** Both copies of `download_data`, run on two equal disks against one bucket, agree. */
  method DownloadCopiesAgree(bucket: Client, a: LocalDisk, b: LocalDisk, data: string)
    returns (ra: DownloadResult, rb: DownloadResult)
    requires a != b && a.Snapshot() == b.Snapshot()
    modifies a, b
    ensures ra == rb && a.Snapshot() == b.Snapshot()
  {
    ra := TreeTrackerUtil.DownloadData(bucket, a, data);
    rb := DownloadData(bucket.store, b, data);
  }

  /** Both copies of `upload_data`, run on two equal buckets from one disk, agree. */
  method UploadCopiesAgree(a: Client, b: RemoteStore, disk: LocalDisk, fileObj: Path, dataType: string, objectName: Option<Key>)
    returns (oka: bool, okb: bool)
    requires a.store != b && a.store.Snapshot() == b.Snapshot()
    modifies a.store, b
    ensures oka == okb && a.store.Snapshot() == b.Snapshot()
  {
    oka := TreeTrackerUtil.UploadData(a, disk, fileObj, dataType, objectName);
    okb := UploadData(b, disk, fileObj, dataType, objectName);
  }

  /** Both copies of `save_upload`, run on two equal disks, agree. */
  method SaveCopiesAgree(a: LocalDisk, b: LocalDisk, fileObj: UploadedFile, dataType: string)
    returns (ra: SaveResult, rb: SaveResult)
    requires a != b && a.Snapshot() == b.Snapshot()
    modifies a, b
    ensures ra == rb && a.Snapshot() == b.Snapshot()
  {
    ra := TreeTrackerUtil.SaveUpload(a, fileObj, dataType);
    rb := SaveUpload(b, fileObj, dataType);
  }
}
