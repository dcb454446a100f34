/** The current TemporaryDirectoryClient: one anonymous temporary file per
    position, kept in an ordered list of open handles, so every positional
    operation is the matching Python list operation on that list. */
module TemporaryClients {
  import opened Common
  import opened PyLists
  import opened Payloads

  /** An anonymous temporary file: the mode it was opened in and its content. */
  datatype TempFile = TempFile(mode: Mode, data: Blob)

  /** What `seek(0); read()` returns for each file of the list. */
  function ReadAll(fs: seq<TempFile>): (r: seq<Payload>)
    ensures |r| == |fs|
    ensures forall i :: 0 <= i < |fs| ==> r[i] == ReadAs(fs[i].mode, fs[i].data)
  {
    seq(|fs|, i requires 0 <= i < |fs| => ReadAs(fs[i].mode, fs[i].data))
  }

  /** Length of the longest prefix of `ps` that some write mode accepts:
      `extend` stops at the first payload that raises TypeError. */
  function WritablePrefix(ps: seq<Payload>): (k: nat)
    ensures k <= |ps|
    ensures forall j :: 0 <= j < k ==> ps[j].kind != Unsupported
    ensures k < |ps| ==> ps[k].kind == Unsupported
  {
    if ps == [] || ps[0].kind == Unsupported then 0 else 1 + WritablePrefix(ps[1..])
  }

  class TemporaryDirectoryClient {
    /** The configured write mode, "w+" or "w+b" ("w+b" by default). */
    const mode: Mode
    /** `self.__files`: one open temporary file per position. */
    var files: seq<TempFile>

    ghost predicate Valid()
      reads this
    {
      IsWriteMode(mode)
    }

    /** The payloads the client holds, in positional order. */
    function Items(): seq<Payload>
      reads this
    {
      ReadAll(files)
    }

    constructor (mode: Mode)
      requires IsWriteMode(mode)
      ensures Valid() && this.mode == mode && Items() == []
    {
      this.mode := mode;
      files := [];
    }

    /** `safe_write`: a new temporary file holding p, in the first mode that accepts it. */
    method SafeWrite(p: Payload) returns (r: Result<TempFile>)
      requires Valid()
      ensures r.Ok? <==> p.kind != Unsupported
      ensures r.Err? ==> r.error == TypeError
      ensures r.Ok? ==> ReadAs(r.value.mode, r.value.data) == p
    {
      var m := SafeWriteMode(mode, p.kind);
      if m.Err? {
        return Err(m.error);
      }
      return Ok(TempFile(m.value, p.data));
    }

    /** `client[index]`: the payload at a Python list index. */
    method Get(index: int) returns (r: Result<Payload>)
      ensures ItemIndex(index, |Items()|).None? ==> r == Err(IndexError)
      ensures ItemIndex(index, |Items()|).Some? ==> r == Ok(Items()[ItemIndex(index, |Items()|).value])
    {
      var k := ItemIndex(index, |files|);
      if k.None? {
        return Err(IndexError);
      }
      var f := files[k.value];
      return Ok(ReadAs(f.mode, f.data));
    }

    /** `client[index] = p`: the new file replaces exactly one slot. */
    method Set(index: int, p: Payload) returns (r: Outcome)
      requires Valid()
      modifies this
      ensures Valid()
      ensures r == if p.kind == Unsupported then Fail(TypeError)
                   else if ItemIndex(index, |old(Items())|).None? then Fail(IndexError)
                   else Done
      ensures r.Fail? ==> Items() == old(Items())
      ensures r.Done? ==> Items() == old(Items())[ItemIndex(index, |old(Items())|).value := p]
    {
      var f := SafeWrite(p);
      if f.Err? {
        return Fail(f.error);
      }
      var k := ItemIndex(index, |files|);
      if k.None? {
        return Fail(IndexError);
      }
      files := files[k.value := f.value];
      return Done;
    }

    /** `del client[index]`: exactly one slot goes, later slots shift down. */
    method Delete(index: int) returns (r: Outcome)
      requires Valid()
      modifies this
      ensures Valid()
      ensures r == if ItemIndex(index, |old(Items())|).None? then Fail(IndexError) else Done
      ensures r.Fail? ==> Items() == old(Items())
      ensures r.Done? ==> Items() == Remove(old(Items()), ItemIndex(index, |old(Items())|).value)
    {
      var k := ItemIndex(index, |files|);
      if k.None? {
        return Fail(IndexError);
      }
      files := Remove(files, k.value);
      return Done;
    }

    /** `client.insert(index, p)`: `list.insert` on the file list. */
    method Insert(index: int, p: Payload) returns (r: Outcome)
      requires Valid()
      modifies this
      ensures Valid()
      ensures r == if p.kind == Unsupported then Fail(TypeError) else Done
      ensures r.Fail? ==> Items() == old(Items())
      ensures r.Done? ==> Items() == PyLists.Insert(old(Items()), InsertIndex(index, |old(Items())|), p)
    {
      var f := SafeWrite(p);
      if f.Err? {
        return Fail(f.error);
      }
      files := PyLists.Insert(files, InsertIndex(index, |files|), f.value);
      return Done;
    }

    /** `extend`: appends each payload in turn, stopping at the first that fails. */
    method Extend(ps: seq<Payload>) returns (r: Outcome)
      requires Valid()
      modifies this
      ensures Valid()
      ensures r == if WritablePrefix(ps) == |ps| then Done else Fail(TypeError)
      ensures Items() == old(Items()) + ps[..WritablePrefix(ps)]
    {
      var i := 0;
      while i < |ps|
        invariant 0 <= i <= WritablePrefix(ps)
        invariant Valid()
        invariant Items() == old(Items()) + ps[..i]
      {
        var n := |files|;
        r := Insert(n, ps[i]);
        if r.Fail? {
          return r;
        }
        i := i + 1;
      }
      return Done;
    }

    /** `client[sl]`: a new client, in a new temporary directory with the same
        mode, holding `[client[i] for i in range(*sl.indices(len(client)))]`. */
    method GetSlice(sl: Slice) returns (r: Result<TemporaryDirectoryClient>)
      requires Valid()
      ensures r.Err? <==> sl.step == Some(0)
      ensures r.Err? ==> r.error == ValueError
      ensures r.Ok? ==> fresh(r.value) && r.value.Valid() && r.value.mode == mode
      ensures r.Ok? ==> r.value.Items() == Pick(Items(), SliceIndices(sl, |Items()|).value)
    {
      var idx := SliceIndices(sl, |files|);
      if idx.Err? {
        return Err(idx.error);
      }
      var copy := new TemporaryDirectoryClient(mode);
      var j := 0;
      while j < |idx.value|
        invariant 0 <= j <= |idx.value|
        invariant fresh(copy) && copy.Valid() && copy.mode == mode
        invariant copy.Items() == Pick(Items(), idx.value[..j])
      {
        var item := Get(idx.value[j]);
        var done := copy.Insert(|copy.files|, item.value);
        assert done.Done?;
        j := j + 1;
      }
      assert idx.value[..j] == idx.value;
      return Ok(copy);
    }
  }
}
