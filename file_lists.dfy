/** The legacy FileList: a list of keys (`__storage`) handed out by the
    shared StringGenerator under the list's own prefix, over a key/value
    TemporaryFileClient that maps each key to the encoded value. */
module FileLists {
  import opened Common
  import opened PyLists
  import opened Payloads
  import opened FileClients
  import opened Generators

  /** What reading one key gives: its decoded value, or the client's error. */
  function Load<V>(h: Serializer<V>, r: Result<Payload>): Result<V>
  {
    match r
    case Ok(p) => Ok(h.loads(p))
    case Err(e) => Err(e)
  }

  /** `[self[i] for i in range(len(self))]`, one result per key. */
  function Loaded<V>(h: Serializer<V>, st: Store, keys: seq<string>): seq<Result<V>>
  {
    seq(|keys|, i requires 0 <= i < |keys| => Load(h, Read(st, keys[i])))
  }

  function Oks<V>(vs: seq<V>): seq<Result<V>>
  {
    seq(|vs|, i requires 0 <= i < |vs| => Ok(vs[i]))
  }

  /** `insert(index, v)`: a new key goes in with `list.insert`, and the value
      is then written through `self[index]`, which on the longer key list
      names the new key only for 0 <= index <= len and index == -len - 1. */
  function InsertedContents<V>(cs: seq<Result<V>>, index: int, v: V): seq<Result<V>>
  {
    var mid := PyLists.Insert(cs, InsertIndex(index, |cs|), Err(KeyError));
    match ItemIndex(index, |mid|)
    case None => mid
    case Some(j) => mid[j := Ok(v)]
  }

  /** `insert` behaves as `list.insert` exactly for 0 <= index <= len and
      for index == -len - 1. */
  lemma {:induction false} InsertIsListInsert<V>(cs: seq<Result<V>>, index: int, v: V)
    ensures InsertedContents(cs, index, v) == PyLists.Insert(cs, InsertIndex(index, |cs|), Ok(v))
        <==> 0 <= index <= |cs| || index == -|cs| - 1
  {
    var k := InsertIndex(index, |cs|);
    var want := PyLists.Insert(cs, k, Ok(v));
    if 0 <= index <= |cs| || index == -|cs| - 1 {
      assert InsertedContents(cs, index, v) == want;
    } else {
      assert InsertedContents(cs, index, v)[k] == Err(KeyError) != want[k];
    }
  }

  /** Past the end, the key is appended but `self[index]` raises IndexError:
      the new last key has no file. With -len <= index < 0, the new key has no
      file and v overwrites the value that was at position len + index. */
  lemma {:induction false} InsertOutOfPlace<V>(cs: seq<Result<V>>, index: int, v: V)
    ensures (index > |cs| || index < -|cs| - 1) ==>
      InsertedContents(cs, index, v) == PyLists.Insert(cs, InsertIndex(index, |cs|), Err(KeyError))
    ensures -|cs| <= index < 0 ==>
      InsertedContents(cs, index, v) == PyLists.Insert(cs, index + |cs|, Err(KeyError))[index + |cs| + 1 := Ok(v)]
  {
  }

  /** `FileList([a]).insert(-1, b)` leaves `[KeyError, b]`: a is lost. */
  lemma {:induction false} InsertNegativeExample<V>(a: V, b: V)
    ensures InsertedContents([Ok(a)], -1, b) == [Err(KeyError), Ok(b)]
  {
    InsertOutOfPlace([Ok(a)], -1, b);
    assert PyLists.Insert([Ok(a)], 0, Err(KeyError)) == [Err(KeyError), Ok(a)];
  }

  lemma {:induction false} LoadedInsertFresh<V>(h: Serializer<V>, st: Store, keys: seq<string>, k: nat, key: string)
    requires k <= |keys| && key !in st.files
    ensures Loaded(h, st, PyLists.Insert(keys, k, key)) == PyLists.Insert(Loaded(h, st, keys), k, Err(KeyError))
  {
  }

  /** Inserting x and then overwriting it with y is inserting y. */
  lemma {:induction false} InsertThenSet<T>(s: seq<T>, k: nat, x: T, y: T)
    requires k <= |s|
    ensures PyLists.Insert(s, k, x)[k := y] == PyLists.Insert(s, k, y)
  {
    var a := PyLists.Insert(s, k, x)[k := y];
    var b := PyLists.Insert(s, k, y);
    assert |a| == |b|;
    forall j | 0 <= j < |a| ensures a[j] == b[j] {
      if j < k {
      } else if j > k {
      }
    }
  }

  lemma {:induction false} LoadedAfterSet<V(!new)>(h: Serializer<V>, st: Store, keys: seq<string>, k: nat, p: Payload)
    requires k < |keys| && p.kind == Binary && st.textKeys == {} && RoundTrips(h) && p == h.dumps(h.loads(p))
    requires forall i :: 0 <= i < |keys| && i != k ==> keys[i] != keys[k]
    ensures Loaded(h, AfterSet(st, keys[k], p), keys) == Loaded(h, st, keys)[k := Ok(h.loads(p))]
  {
  }

  lemma {:induction false} LoadedAfterDelete<V>(h: Serializer<V>, st: Store, keys: seq<string>, k: nat)
    requires k < |keys|
    requires forall i :: 0 <= i < |keys| && i != k ==> keys[i] != keys[k]
    ensures Loaded(h, AfterDelete(st, keys[k]), Remove(keys, k)) == Remove(Loaded(h, st, keys), k)
  {
  }

  class FileList<V(==,!new)> {
    /** `__storage`: the key of each position. */
    var storage: seq<string>
    const client: TemporaryFileClient
    /** The handler (`dumps`/`loads`); the default one produces bytes. */
    const handler: Serializer<V>
    /** The shared StringGenerator. */
    const generator: StringGenerator
    /** `id(self)`, the prefix the list draws its keys under. */
    const prefix: int

    /** Keys are distinct, were all handed out under the list's prefix, and
        every file of the client belongs to a key of the list. */
    ghost predicate Valid()
      reads this, client, generator
    {
      generator.Valid() && RoundTrips(handler) && (forall v :: handler.dumps(v).kind == Binary) &&
      client.textKeys == {} &&
      (forall i, j :: 0 <= i < j < |storage| ==> storage[i] != storage[j]) &&
      (forall i :: 0 <= i < |storage| ==> prefix in generator.issued && storage[i] in generator.issued[prefix]) &&
      (forall key :: key in client.files ==> key in storage)
    }

    /** What reading each position gives. */
    function Contents(): seq<Result<V>>
      reads this, client
    {
      Loaded(handler, client.State(), storage)
    }

    /** `FileList(iterable)`: empty storage, a new client, then `extend`. */
    constructor (vs: seq<V>, handler: Serializer<V>, generator: StringGenerator, prefix: int)
      requires generator.Valid() && RoundTrips(handler) && (forall v :: handler.dumps(v).kind == Binary)
      modifies generator
      ensures Valid() && fresh(client)
      ensures this.handler == handler && this.generator == generator && this.prefix == prefix
      ensures Contents() == Oks(vs)
      ensures forall p :: p in old(generator.issued) ==> p in generator.issued && old(generator.issued)[p] <= generator.issued[p]
    {
      storage := [];
      client := new TemporaryFileClient();
      this.handler := handler;
      this.generator := generator;
      this.prefix := prefix;
      new;
      Extend(vs);
    }

    /** `extend`, inherited from MutableSequence: `insert(len(self), v)` for each v. */
    method Extend(vs: seq<V>)
      requires Valid()
      modifies this, client, generator
      ensures Valid()
      ensures Contents() == old(Contents()) + Oks(vs)
      ensures forall p :: p in old(generator.issued) ==> p in generator.issued && old(generator.issued)[p] <= generator.issued[p]
    {
      var i := 0;
      while i < |vs|
        invariant 0 <= i <= |vs|
        invariant Valid()
        invariant Contents() == old(Contents()) + Oks(vs[..i])
        invariant forall p :: p in old(generator.issued) ==> p in generator.issued && old(generator.issued)[p] <= generator.issued[p]
      {
        var r := Insert(|storage|, vs[i]);
        InsertIsListInsert(old(Contents()) + Oks(vs[..i]), |old(Contents()) + Oks(vs[..i])|, vs[i]);
        assert Oks(vs[..i + 1]) == Oks(vs[..i]) + [Ok(vs[i])];
        i := i + 1;
      }
      assert vs[..i] == vs;
    }

    /** `self[index]`: IndexError from `__storage`, KeyError from the client. */
    method Get(index: int) returns (r: Result<V>)
      requires Valid()
      ensures ItemIndex(index, |storage|).None? ==> r == Err(IndexError)
      ensures ItemIndex(index, |storage|).Some? ==> r == Contents()[ItemIndex(index, |storage|).value]
    {
      var k := ItemIndex(index, |storage|);
      if k.None? {
        return Err(IndexError);
      }
      var p := client.Get(storage[k.value]);
      return Load(handler, p);
    }

    /** `self[index] = v`: only the file of `__storage[index]` changes. */
    method Set(index: int, v: V) returns (r: Outcome)
      requires Valid()
      modifies client
      ensures Valid()
      ensures r == if ItemIndex(index, |storage|).None? then Fail(IndexError) else Done
      ensures r.Fail? ==> Contents() == old(Contents())
      ensures r.Done? ==> Contents() == old(Contents())[ItemIndex(index, |storage|).value := Ok(v)]
    {
      var k := ItemIndex(index, |storage|);
      if k.None? {
        return Fail(IndexError);
      }
      var p := handler.dumps(v);
      LoadedAfterSet(handler, client.State(), storage, k.value, p);
      var w := client.Set(storage[k.value], p);
      return Done;
    }

    /** `del self[index]`: the key leaves `__storage` before the client is
        asked to delete its file, so a key without a file still goes. */
    method Delete(index: int) returns (r: Outcome)
      requires Valid()
      modifies this, client
      ensures Valid()
      ensures ItemIndex(index, |old(storage)|).None? ==> r == Fail(IndexError) && Contents() == old(Contents())
      ensures ItemIndex(index, |old(storage)|).Some? ==>
        var k := ItemIndex(index, |old(storage)|).value;
        Contents() == Remove(old(Contents()), k) &&
        r == if old(Contents())[k].Err? then Fail(KeyError) else Done
    {
      var k := ItemIndex(index, |storage|);
      if k.None? {
        return Fail(IndexError);
      }
      var key := storage[k.value];
      LoadedAfterDelete(handler, client.State(), storage, k.value);
      storage := Remove(storage, k.value);
      r := client.Delete(key);
    }

    /** `insert(index, v)`: a new key under the list's prefix, `list.insert`
        on `__storage`, then `self[index] = v`. */
    method Insert(index: int, v: V) returns (r: Outcome)
      requires Valid()
      modifies this, client, generator
      ensures Valid()
      ensures |storage| == |old(storage)| + 1
      ensures storage[InsertIndex(index, |old(storage)|)] !in old(storage)
      ensures Contents() == InsertedContents(old(Contents()), index, v)
      ensures r == if ItemIndex(index, |old(storage)| + 1).None? then Fail(IndexError) else Done
      ensures forall p :: p in old(generator.issued) ==> p in generator.issued && old(generator.issued)[p] <= generator.issued[p]
    {
      var key := generator.Next(prefix);
      assert key !in storage;
      LoadedInsertFresh(handler, client.State(), storage, InsertIndex(index, |storage|), key);
      storage := PyLists.Insert(storage, InsertIndex(index, |storage|), key);
      r := Set(index, v);
    }

    /** `insert` as intended: the value is written under the new key itself,
        so every index behaves as `list.insert`. */
    method InsertCorrected(index: int, v: V)
      requires Valid()
      modifies this, client, generator
      ensures Valid()
      ensures Contents() == PyLists.Insert(old(Contents()), InsertIndex(index, |old(storage)|), Ok(v))
    {
      var key := generator.Next(prefix);
      assert key !in storage;
      assert key !in client.files;
      var k := InsertIndex(index, |storage|);
      ghost var before := Contents();
      LoadedInsertFresh(handler, client.State(), storage, k, key);
      storage := PyLists.Insert(storage, k, key);
      assert Valid();
      assert Contents() == PyLists.Insert(before, k, Err(KeyError));
      InsertThenSet(before, k, Err(KeyError), Ok(v));
      var r := Set(k, v);
    }

    /** `self == other`: False on a length mismatch, else position by
        position; a key without a file raises KeyError during the scan. */
    method Equals(other: seq<V>) returns (r: Result<bool>)
      requires Valid()
      ensures |Contents()| != |other| ==> r == Ok(false)
      ensures r == Ok(true) <==> Contents() == Oks(other)
      ensures r.Err? ==> r.error == KeyError
      ensures (forall i :: 0 <= i < |Contents()| ==> Contents()[i].Ok?) ==> r.Ok?
    {
      if |storage| != |other| {
        return Ok(false);
      }
      var i := 0;
      while i < |storage|
        invariant 0 <= i <= |storage|
        invariant forall k :: 0 <= k < i ==> Contents()[k] == Ok(other[k])
      {
        var x := Get(i);
        if x.Err? {
          return Err(x.error);
        }
        if x.value != other[i] {
          return Ok(false);
        }
        i := i + 1;
      }
      return Ok(true);
    }

    /** `self[sl]`: a new FileList of `self[i]` over `range(*sl.indices(len))`,
        built with the default client and handler (`defaultHandler`) and the
        shared generator; `newPrefix` is the new list's `id`. */
    method GetSlice(sl: Slice, defaultHandler: Serializer<V>, newPrefix: int) returns (r: Result<FileList<V>>)
      requires Valid()
      requires RoundTrips(defaultHandler) && forall v :: defaultHandler.dumps(v).kind == Binary
      modifies generator
      ensures Valid()
      ensures sl.step == Some(0) ==> r == Err(ValueError)
      ensures sl.step != Some(0) ==>
        var idx := SliceIndices(sl, |storage|).value;
        (r.Ok? <==> forall k :: 0 <= k < |idx| ==> Contents()[idx[k]].Ok?) &&
        (r.Err? ==> r.error == KeyError) &&
        (r.Ok? ==> fresh(r.value) && fresh(r.value.client) && r.value.Valid() && r.value.handler == defaultHandler &&
                   r.value.Contents() == Pick(Contents(), idx))
    {
      var idx := SliceIndices(sl, |storage|);
      if idx.Err? {
        return Err(idx.error);
      }
      var vs := Collect(idx.value);
      if vs.Err? {
        return Err(vs.error);
      }
      ghost var before := generator.issued;
      if |storage| > 0 {
        ghost var first := storage[0];
        assert prefix in before;
      }
      var copy := new FileList(vs.value, defaultHandler, generator, newPrefix);
      return Ok(copy);
    }

    /** `[self[i] for i in idx]`: stops at the first key without a file. */
    method Collect(idx: seq<int>) returns (r: Result<seq<V>>)
      requires Valid()
      requires forall k :: 0 <= k < |idx| ==> 0 <= idx[k] < |storage|
      ensures r.Ok? <==> forall k :: 0 <= k < |idx| ==> Contents()[idx[k]].Ok?
      ensures r.Err? ==> r.error == KeyError
      ensures r.Ok? ==> Oks(r.value) == Pick(Contents(), idx)
    {
      var vs := [];
      var j := 0;
      while j < |idx|
        invariant 0 <= j <= |idx|
        invariant Oks(vs) == Pick(Contents(), idx[..j])
        invariant forall k :: 0 <= k < j ==> Contents()[idx[k]].Ok?
      {
        var x := Get(idx[j]);
        if x.Err? {
          return Err(x.error);
        }
        assert Oks(vs + [x.value]) == Oks(vs) + [Ok(x.value)];
        vs := vs + [x.value];
        j := j + 1;
      }
      assert idx[..j] == idx;
      return Ok(vs);
    }
  }
}
