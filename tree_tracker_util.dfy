/**
 * The typed copy of the sync layer (tree_tracker/util.py): one bucket
 * handle, created at import, shared by every call and passed in here as
 * `bucket`. Each method is proved to do what the functions of module
 * Sync say.
 */
module TreeTrackerUtil {
  import opened Wrappers
  import opened Paths
  import opened Storage
  import opened Sync

  /**
   * `upload_data(file_obj, data_type, object_name)`: derives the key when
   * none is given and the category is known, then uploads; any failure
   * of the upload is reported as `false`. The local disk is only read.
   */
  method UploadData(bucket: Client, disk: LocalDisk, fileObj: Path, dataType: string, objectName: Option<Key>)
    returns (ok: bool)
    modifies bucket.store
    ensures (ok, bucket.store.Snapshot()) == Upload(disk.Snapshot(), old(bucket.store.Snapshot()), fileObj, dataType, objectName)
  {
    var name := objectName;
    if name.None? {
      if dataType in DATA_TYPE {
        name := Some(dataType + "/" + Basename(fileObj));
      }
    }
    ok := bucket.UploadFile(disk, fileObj, name);
  }

  /**
   * `download_data(data)`: for a known category, walks the bucket's
   * listing filtered by the bare category string; per object, either
   * creates its missing directory, or (directory present) downloads it if
   * it is not a file yet and returns at once. An unknown category returns
   * `False`; a loop that runs out returns `None`.
   */
  method DownloadData(bucket: Client, disk: LocalDisk, data: string) returns (r: DownloadResult)
    modifies disk
    ensures (r, disk.Snapshot()) == Download(old(disk.Snapshot()), bucket.store.Snapshot(), data)
  {
    if data in DATA_TYPE {
      ghost var d0, s := disk.Snapshot(), bucket.store.Snapshot();
      var keys := bucket.Filter(data);
      DownloadRuns(d0, s, data);
      var i := 0;
      while i < |keys|
        invariant 0 <= i <= |keys|
        invariant Run(disk.Snapshot(), s, keys, i) == Run(d0, s, keys, 0)
      {
        var key := keys[i];
        var path := LocalPath(key);
        if !disk.Exists(Dirname(path)) {
          disk.MakeDirs(Dirname(path));
        } else {
          if !disk.IsFile(path) {
            var ok := bucket.DownloadFile(key, disk, path);
            if ok {
              return Fetched;
            }
            return Failed;
          }
        }
        i := i + 1;
      }
      return FellThrough;
    } else {
      return Failed;
    }
  }

  /**
   * `save_upload(file_obj, data_type)`: stages the upload at
   * `data/<data_type>/<name>`. A missing directory is created and the
   * call returns `None`; otherwise a missing file is written (its path,
   * or `False` when the write raises) and an existing one is kept (its
   * path). The category is not checked.
   */
  method SaveUpload(disk: LocalDisk, fileObj: UploadedFile, dataType: string) returns (r: SaveResult)
    modifies disk
    ensures (r, disk.Snapshot()) == Save(old(disk.Snapshot()), fileObj, dataType)
  {
    var filePath := CacheDir + "/" + dataType + "/" + fileObj.name;
    if !disk.Exists(Dirname(filePath)) {
      disk.MakeDirs(Dirname(filePath));
      r := DirCreated;
    } else {
      if !disk.IsFile(filePath) {
        var ok := disk.Write(filePath, fileObj.buffer);
        if ok {
          return Stored(filePath);
        }
        return WriteFailed;
      } else {
        return Stored(filePath);
      }
    }
  }
}
