/** The current PersistentDirectoryClient: one file per position in a named
    directory, the file name being the position, and a list of open handles.
    Writes go through `safe_write` ("w+", then "w+b"). */
module PersistentClients {
  import opened Common
  import opened PyLists
  import opened Payloads
  import opened Directories

  class PersistentDirectoryClient {
    /** The directory the client was opened on; slices share it. */
    const directory: Directory
    /** `self.__files`. */
    var files: seq<Handle>

    function State(): Disk
      reads this, directory
    {
      Disk(directory.entries, directory.store, files)
    }

    /** A new client on `directory` starts with no handles; files already in
        the directory are not discovered. */
    constructor (directory: Directory)
      ensures this.directory == directory && files == []
    {
      this.directory := directory;
      files := [];
    }

    method Get(index: int) returns (r: Result<Payload>)
      ensures r == GetSpec(State(), index)
    {
      r := ReadAt(directory, files, index);
    }

    method Set(index: int, p: Payload) returns (r: Outcome)
      modifies this, directory
      ensures Run(State(), r) == SetSpec(old(State()), index, p, true)
    {
      files, r := SetOn(directory, files, index, p, true);
    }

    method Insert(index: int, p: Payload) returns (r: Outcome)
      modifies this, directory
      ensures Run(State(), r) == InsertSpec(old(State()), index, p, true)
    {
      files, r := InsertOn(directory, files, index, p, true);
    }

    method Delete(index: int) returns (r: Outcome)
      modifies this, directory
      ensures Run(State(), r) == DeleteSpec(old(State()), index)
    {
      files, r := DeleteOn(directory, files, index);
    }

    /** `client[sl]`: a new client on the SAME directory, filled by appending
        `client[i]` for each index of the slice, read one at a time. */
    method GetSlice(sl: Slice) returns (r: Result<PersistentDirectoryClient>)
      modifies directory
      ensures files == old(files)
      ensures SliceIndices(sl, |files|).Err? ==>
        r == Err(ValueError) && directory.entries == old(directory.entries) && directory.store == old(directory.store)
      ensures SliceIndices(sl, |files|).Ok? ==>
        var run := CopyShared(old(directory.entries), old(directory.store), files, SliceIndices(sl, |files|).value, [], true);
        && directory.entries == run.disk.dir && directory.store == run.disk.store
        && (run.out.Fail? ==> r == Err(run.out.error))
        && (run.out.Done? ==> r.Ok? && fresh(r.value) && r.value.directory == directory && r.value.files == run.disk.files)
    {
      var idx := SliceIndices(sl, |files|);
      if idx.Err? {
        return Err(idx.error);
      }
      var copy := new PersistentDirectoryClient(directory);
      var j := 0;
      while j < |idx.value|
        invariant 0 <= j <= |idx.value|
        invariant fresh(copy) && copy.directory == directory && files == old(files)
        invariant CopyShared(directory.entries, directory.store, files, idx.value[j..], copy.files, true)
               == CopyShared(old(directory.entries), old(directory.store), files, idx.value, [], true)
      {
        assert idx.value[j..][1..] == idx.value[j + 1..];
        var item := Get(idx.value[j]);
        if item.Err? {
          return Err(item.error);
        }
        var out := copy.Insert(|copy.files|, item.value);
        if out.Fail? {
          return Err(out.error);
        }
        j := j + 1;
      }
      return Ok(copy);
    }
  }
}
