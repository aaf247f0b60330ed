/** FileUtilityService: file and folder helpers over an in-memory file
    system, the zip archive of a list of streams, and temporary file names. */
module FileUtilityService {
  import opened Common
  import opened Decimal
  import opened Paths
  import opened PageNames
  import opened StreamExtension

  const DataNull: string := "Param data can not be null."

  /** The files left after deleting folder `dir` with its contents. */
  function FilesOutside(files: map<string, Bytes>, dir: string): (r: map<string, Bytes>)
    ensures forall p :: p in r <==> p in files && !Under(p, dir)
    ensures forall p :: p in r ==> r[p] == files[p]
  {
    map p | p in files && !Under(p, dir) :: files[p]
  }

  /** The folders left after deleting folder `dir` with its sub-folders. */
  function FoldersOutside(folders: set<string>, dir: string): (r: set<string>)
    ensures forall d :: d in r <==> d in folders && d != dir && !Under(d, dir)
  {
    set d | d in folders && d != dir && !Under(d, dir)
  }

  /** One entry of a zip archive: its name and its uncompressed bytes. */
  datatype ZipEntry = ZipEntry(name: string, data: Bytes)

  /** The files and folders the service sees, and its operations on them. */
  class FileUtilityService {
    var files: map<string, Bytes>
    var folders: set<string>

    constructor (initialFiles: map<string, Bytes>, initialFolders: set<string>)
      ensures files == initialFiles && folders == initialFolders
    {
      files := initialFiles;
      folders := initialFolders;
    }

    /** CreateFileAsync(byte[], name): a null or empty array is refused; an
        existing file is left as it is; otherwise the file is written. */
    method CreateFileFromBytes(data: Option<Bytes>, fullFileName: string) returns (r: Result<()>)
      modifies this
      ensures data.None? || data.value == [] <==> r.Err?
      ensures r.Err? ==> r.error == ArgumentNull(DataNull) && files == old(files)
      ensures r.Ok? ==> files == if fullFileName in old(files) then old(files) else old(files)[fullFileName := data.value]
      ensures folders == old(folders)
    {
      if data.None? || data.value == [] {
        return Err(ArgumentNull(DataNull));
      }
      if fullFileName !in files {
        files := files[fullFileName := data.value];
      }
      return Ok(());
    }

    /** CreateFileAsync(Stream, name): only a null stream is refused, so an
        empty stream makes an empty file. The stream is copied from its
        current position, and only when the file does not exist yet. */
    method CreateFileFromStream(data: MemoryStream?, fullFileName: string) returns (r: Result<()>)
      modifies this, data
      ensures data == null <==> r.Err?
      ensures r.Err? ==> r.error == ArgumentNull(DataNull) && files == old(files)
      ensures r.Ok? && fullFileName in old(files) ==> files == old(files) && data.position == old(data.position)
      ensures r.Ok? && fullFileName !in old(files) ==> files == old(files)[fullFileName := old(data.Rest())]
      ensures data != null ==> data.data == old(data.data)
      ensures folders == old(folders)
    {
      if data == null {
        return Err(ArgumentNull(DataNull));
      }
      if fullFileName !in files {
        var bytes := data.ReadToEnd();
        files := files[fullFileName := bytes];
      }
      return Ok(());
    }

    /** CreateFolder: a null or empty name gives "" and creates nothing;
        otherwise the folder exists afterwards and its name is returned. */
    method CreateFolder(folderName: Option<string>) returns (path: string)
      modifies this
      ensures IsNullOrEmpty(folderName) ==> path == [] && folders == old(folders)
      ensures !IsNullOrEmpty(folderName) ==> path == folderName.value && folders == old(folders) + {path}
      ensures files == old(files)
    {
      path := [];
      if !IsNullOrEmpty(folderName) {
        path := folderName.value;
        if path !in folders {
          folders := folders + {path};
        }
      }
    }

    /** Image.WriteToFile and Bitmap.Save: the file is created or overwritten. */
    method WriteFile(path: string, data: Bytes)
      modifies this
      ensures files == old(files)[path := data] && folders == old(folders)
    {
      files := files[path := data];
    }

    /** Directory.Delete(path, recursive): a missing folder is an error, and
        so is a non-empty one without `recursive`; otherwise the folder goes
        with everything inside it. */
    method DeleteDirectory(directory: string, recursive: bool) returns (r: Result<()>)
      modifies this
      ensures directory !in old(folders) ==> r == Err(DirectoryNotFound)
      ensures r.Err? ==> files == old(files) && folders == old(folders)
      ensures r.Ok? ==> (directory in old(folders)
        && files == FilesOutside(old(files), directory)
        && folders == FoldersOutside(old(folders), directory))
      ensures directory in old(folders) && recursive ==> r.Ok?
    {
      if directory !in folders {
        return Err(DirectoryNotFound);
      }
      var inside := (exists p :: p in files && Under(p, directory)) || (exists d :: d in folders && Under(d, directory));
      if inside && !recursive {
        return Err(IOError);
      }
      files := FilesOutside(files, directory);
      folders := FoldersOutside(folders, directory);
      return Ok(());
    }

    /** DeleteAllAsync: deletes the folder when it exists and does nothing
        when it does not; Directory.Exists("") is false, so an empty path
        deletes nothing. */
    method DeleteAll(directory: string, recursive: bool) returns (r: Result<()>)
      modifies this
      ensures directory == [] || directory !in old(folders) ==>
        r.Ok? && files == old(files) && folders == old(folders)
      ensures directory != [] && directory in old(folders) && recursive ==> (r.Ok? && directory !in folders
        && files == FilesOutside(old(files), directory))
      ensures r.Ok? && directory != [] ==> directory !in folders
    {
      if directory != [] && directory in folders {
        r := DeleteDirectory(directory, recursive);
      } else {
        r := Ok(());
      }
    }

    /** GetZipArchive: null for a null or empty list; the method is not
        `async`, so that null is a null Task and a caller awaiting it throws
        NullReferenceException (`None` here). Otherwise entry i is
        named <guid>-<i padded to the digit count of the list's length><extension>
        and holds stream i's bytes from its current position. Cancellation is
        checked before each entry; `cancelRequested(i)` says whether it has
        been requested by the check before entry i. */
    method GetZipArchive(streams: Option<seq<MemoryStream>>, extension: string, guid: string,
                         cancelRequested: nat -> bool)
      returns (r: Option<Result<seq<ZipEntry>>>)
      modifies set s | streams.Some? && s in streams.value
      ensures streams.None? || streams.value == [] <==> r.None?
      ensures r.Some? && (exists i :: 0 <= i < |streams.value| && cancelRequested(i)) ==> r.value == Err(OperationCanceled)
      ensures r.Some? && (forall i :: 0 <= i < |streams.value| ==> !cancelRequested(i)) ==>
        r.value.Ok? && |r.value.value| == |streams.value|
        && forall i :: 0 <= i < |streams.value| ==>
             r.value.value[i].name == PagedName(guid, i, |streams.value|, extension)
      ensures r.Some? && r.value.Ok? && Distinct(streams.value) ==>
        forall i :: 0 <= i < |streams.value| ==> r.value.value[i].data == old(streams.value[i].Rest())
      ensures streams.Some? ==> forall s :: s in streams.value ==> s.data == old(s.data)
    {
      if streams.None? || streams.value == [] {
        return None;
      }
      var arrayFiles := streams.value;
      var count := |arrayFiles|;
      ghost var rests := seq(count, j requires 0 <= j < count reads arrayFiles => arrayFiles[j].Rest());
      ghost var datas := seq(count, j requires 0 <= j < count reads arrayFiles => arrayFiles[j].data);
      var entries: seq<ZipEntry> := [];
      for i := 0 to count
        invariant forall j :: 0 <= j < i ==> !cancelRequested(j)
        invariant Filled(entries, arrayFiles, i, guid, extension, rests, datas)
      {
        if cancelRequested(i) {
          return Some(Err(OperationCanceled));
        }
        entries := AddEntry(entries, arrayFiles, i, guid, extension, rests, datas);
      }
      return Some(Ok(entries));
    }
  }

  /** What GetZipArchive's loop keeps after i entries: entry j is named
      after j and, for distinct streams, holds stream j's remaining bytes
      as they were at the start, while the streams not read yet still hold
      theirs; no stream's bytes change. */
  ghost predicate Filled(entries: seq<ZipEntry>, streams: seq<MemoryStream>, i: nat, guid: string,
                         extension: string, rests: seq<Bytes>, datas: seq<Bytes>)
    reads set s | s in streams
  {
    && i <= |streams| && |rests| == |streams| && |datas| == |streams| && |entries| == i
    && (forall j :: 0 <= j < i ==> entries[j].name == PagedName(guid, j, |streams|, extension))
    && (forall j :: 0 <= j < |streams| ==> streams[j].data == datas[j])
    && (Distinct(streams) ==>
          && (forall j :: 0 <= j < i ==> entries[j].data == rests[j])
          && (forall j :: i <= j < |streams| ==> streams[j].Rest() == rests[j]))
  }

  /** One turn of GetZipArchive's loop: stream i is read to its end into
      the entry named after i. */
  method AddEntry(entries: seq<ZipEntry>, streams: seq<MemoryStream>, i: nat, guid: string,
                  extension: string, ghost rests: seq<Bytes>, ghost datas: seq<Bytes>)
    returns (next: seq<ZipEntry>)
    requires i < |streams| && Filled(entries, streams, i, guid, extension, rests, datas)
    modifies streams[i]
    ensures Filled(next, streams, i + 1, guid, extension, rests, datas)
  {
    var name := PagedName(guid, i, |streams|, extension);
    var data := streams[i].ReadToEnd();
    next := entries + [ZipEntry(name, data)];
    assert forall j :: 0 <= j < i ==> next[j] == entries[j];
    if Distinct(streams) {
      assert data == rests[i];
      forall j | i < j < |streams|
        ensures streams[j].Rest() == rests[j]
      {
        assert streams[j] != streams[i];
      }
    }
  }

  predicate Distinct<T(==)>(s: seq<T>) {
    forall i, j :: 0 <= i < j < |s| ==> s[i] != s[j]
  }

  /** NewTempFileName: a fresh GUID text inside the given folder. */
  function NewTempFileName(tempPath: string, guid: string): (r: string)
    requires IsGuidN(guid)
    ensures GetFileName(r) == guid
  {
    GetFileNameOfCombine(tempPath, guid);
    Combine(tempPath, guid)
  }

  /** The archive's entry names of one call are pairwise distinct and sort as text in entry order. */
  lemma EntryNamesDistinctAndOrdered(guid: string, extension: string, count: nat, i: nat, j: nat)
    requires i < count && j < count
    ensures i != j ==> PagedName(guid, i, count, extension) != PagedName(guid, j, count, extension)
    ensures LexLess(PagedName(guid, i, count, extension), PagedName(guid, j, count, extension)) <==> i < j
  {
    if i != j {
      PagedNamesDistinct(guid, i, j, count, extension);
    }
    PagedNamesOrdered(guid, i, j, count, extension);
  }
}
