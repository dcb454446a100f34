/** The legacy clients (the `diskcollections.iterables.clients` module
    without `src/`). They differ from the current ones only in how they write:
    there is no mode fallback, and the temporary client's `__setitem__`
    converts the payload with `bytes(value)` first. */
module LegacyClients {
  import opened Common
  import opened PyLists
  import opened Payloads
  import opened Directories
  import opened TemporaryClients

  class TemporaryDirectoryClient {
    /** The one mode every file is written in ("w+b" by default). */
    const mode: Mode
    var files: seq<TempFile>

    /** Every file was written in the client's own mode. */
    ghost predicate Valid()
      reads this
    {
      IsWriteMode(mode) && forall i | 0 <= i < |files| :: files[i].mode == mode
    }

    function Items(): seq<Payload>
      reads this
    {
      ReadAll(files)
    }

    constructor (mode: Mode)
      requires IsWriteMode(mode)
      ensures Valid() && this.mode == mode && Items() == []
    {
      this.mode := mode;
      files := [];
    }

    method Get(index: int) returns (r: Result<Payload>)
      ensures ItemIndex(index, |Items()|).None? ==> r == Err(IndexError)
      ensures ItemIndex(index, |Items()|).Some? ==> r == Ok(Items()[ItemIndex(index, |Items()|).value])
    {
      var k := ItemIndex(index, |files|);
      if k.None? {
        return Err(IndexError);
      }
      var f := files[k.value];
      return Ok(ReadAs(f.mode, f.data));
    }

    /** `client[index] = p` writes `bytes(p)`: only a bytes payload survives
        the conversion, and only a binary file accepts the result. */
    method Set(index: int, p: Payload) returns (r: Outcome)
      requires Valid()
      modifies this
      ensures Valid()
      ensures r == if p.kind != Binary || mode != WPlusB then Fail(TypeError)
                   else if ItemIndex(index, |old(Items())|).None? then Fail(IndexError)
                   else Done
      ensures r.Fail? ==> Items() == old(Items())
      ensures r.Done? ==> Items() == old(Items())[ItemIndex(index, |old(Items())|).value := p]
    {
      if p.kind != Binary || !Accepts(mode, Binary) {
        return Fail(TypeError);
      }
      var k := ItemIndex(index, |files|);
      if k.None? {
        return Fail(IndexError);
      }
      files := files[k.value := TempFile(mode, p.data)];
      return Done;
    }

    method Delete(index: int) returns (r: Outcome)
      requires Valid()
      modifies this
      ensures Valid()
      ensures r == if ItemIndex(index, |old(Items())|).None? then Fail(IndexError) else Done
      ensures r.Fail? ==> Items() == old(Items())
      ensures r.Done? ==> Items() == Remove(old(Items()), ItemIndex(index, |old(Items())|).value)
    {
      var k := ItemIndex(index, |files|);
      if k.None? {
        return Fail(IndexError);
      }
      files := Remove(files, k.value);
      return Done;
    }

    /** `client.insert(index, p)` writes p unchanged, in the client's mode. */
    method Insert(index: int, p: Payload) returns (r: Outcome)
      requires Valid()
      modifies this
      ensures Valid()
      ensures r == if Accepts(mode, p.kind) then Done else Fail(TypeError)
      ensures r.Fail? ==> Items() == old(Items())
      ensures r.Done? ==> Items() == PyLists.Insert(old(Items()), InsertIndex(index, |old(Items())|), p)
    {
      if !Accepts(mode, p.kind) {
        return Fail(TypeError);
      }
      files := PyLists.Insert(files, InsertIndex(index, |files|), TempFile(mode, p.data));
      return Done;
    }

    /** `client[sl]`: a new client with the same mode; every payload read
        back has the kind that mode writes, so the copy never fails. */
    method GetSlice(sl: Slice) returns (r: Result<TemporaryDirectoryClient>)
      requires Valid()
      ensures r.Err? <==> sl.step == Some(0)
      ensures r.Err? ==> r.error == ValueError
      ensures r.Ok? ==> fresh(r.value) && r.value.Valid() && r.value.mode == mode
      ensures r.Ok? ==> r.value.Items() == Pick(Items(), SliceIndices(sl, |Items()|).value)
    {
      var idx := SliceIndices(sl, |files|);
      if idx.Err? {
        return Err(idx.error);
      }
      var copy := new TemporaryDirectoryClient(mode);
      var j := 0;
      while j < |idx.value|
        invariant 0 <= j <= |idx.value|
        invariant fresh(copy) && copy.Valid() && copy.mode == mode
        invariant copy.Items() == Pick(Items(), idx.value[..j])
      {
        var item := Get(idx.value[j]);
        var done := copy.Insert(|copy.files|, item.value);
        assert done.Done?;
        j := j + 1;
      }
      assert idx.value[..j] == idx.value;
      return Ok(copy);
    }
  }

  /** The legacy persistent client: the current one's rename and reopen
      loops, writing in "w+" only. */
  class PersistentDirectoryClient {
    const directory: Directory
    var files: seq<Handle>

    function State(): Disk
      reads this, directory
    {
      Disk(directory.entries, directory.store, files)
    }

    constructor (directory: Directory)
      ensures this.directory == directory && files == []
    {
      this.directory := directory;
      files := [];
    }

    method Get(index: int) returns (r: Result<Payload>)
      ensures r == GetSpec(State(), index)
    {
      r := ReadAt(directory, files, index);
    }

    method Set(index: int, p: Payload) returns (r: Outcome)
      modifies this, directory
      ensures Run(State(), r) == SetSpec(old(State()), index, p, false)
    {
      files, r := SetOn(directory, files, index, p, false);
    }

    method Insert(index: int, p: Payload) returns (r: Outcome)
      modifies this, directory
      ensures Run(State(), r) == InsertSpec(old(State()), index, p, false)
    {
      files, r := InsertOn(directory, files, index, p, false);
    }

    method Delete(index: int) returns (r: Outcome)
      modifies this, directory
      ensures Run(State(), r) == DeleteSpec(old(State()), index)
    {
      files, r := DeleteOn(directory, files, index);
    }

    method GetSlice(sl: Slice) returns (r: Result<PersistentDirectoryClient>)
      modifies directory
      ensures files == old(files)
      ensures SliceIndices(sl, |files|).Err? ==>
        r == Err(ValueError) && directory.entries == old(directory.entries) && directory.store == old(directory.store)
      ensures SliceIndices(sl, |files|).Ok? ==>
        var run := CopyShared(old(directory.entries), old(directory.store), files, SliceIndices(sl, |files|).value, [], false);
        && directory.entries == run.disk.dir && directory.store == run.disk.store
        && (run.out.Fail? ==> r == Err(run.out.error))
        && (run.out.Done? ==> r.Ok? && fresh(r.value) && r.value.directory == directory && r.value.files == run.disk.files)
    {
      var idx := SliceIndices(sl, |files|);
      if idx.Err? {
        return Err(idx.error);
      }
      var copy := new PersistentDirectoryClient(directory);
      var j := 0;
      while j < |idx.value|
        invariant 0 <= j <= |idx.value|
        invariant fresh(copy) && copy.directory == directory && files == old(files)
        invariant CopyShared(directory.entries, directory.store, files, idx.value[j..], copy.files, false)
               == CopyShared(old(directory.entries), old(directory.store), files, idx.value, [], false)
      {
        assert idx.value[j..][1..] == idx.value[j + 1..];
        var item := Get(idx.value[j]);
        if item.Err? {
          return Err(item.error);
        }
        var out := copy.Insert(|copy.files|, item.value);
        if out.Fail? {
          return Err(out.error);
        }
        j := j + 1;
      }
      return Ok(copy);
    }
  }
}
