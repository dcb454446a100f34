/** What the rename and reopen loops do to a contiguous directory: insert
    renumbers correctly, delete only when at most one position follows the
    deleted one, slicing overwrites the original's files, and handles keep
    the file they opened whatever happens to its name. */
module DirectoryLemmas {
  import opened Common
  import opened PyLists
  import opened Payloads
  import opened Directories

  // ---------------------------------------------------------------------
  // Renames and writes keep names and files apart

  lemma {:induction false} RenameLinked(dir: map<int, FileId>, store: seq<Blob>, from: int, to: int)
    requires Linked(dir, store) && Rename(dir, from, to).Ok?
    ensures Linked(Rename(dir, from, to).value, store)
  {
    var dir' := Rename(dir, from, to).value;
    forall a, b | a in dir' && b in dir' && a != b
      ensures dir'[a] != dir'[b]
    {
      if a != to && b != to {
        assert dir'[a] == dir[a] && dir'[b] == dir[b];
      } else if a == to {
        assert dir'[a] == dir[from] && b != from && dir'[b] == dir[b];
      } else {
        assert dir'[b] == dir[from] && a != from && dir'[a] == dir[a];
      }
    }
  }

  /** Pointing `name` at its target file and storing `data` there keeps
      names linked and changes what exactly that one name reads. */
  lemma {:induction false} PutLinked(dir: map<int, FileId>, store: seq<Blob>, name: int, data: Blob)
    requires Linked(dir, store)
    ensures var id := Target(dir, store, name); var dir', store' := dir[name := id], Put(store, id, data);
      && Linked(dir', store')
      && (forall n :: n in dir && n != name ==> dir[n] != id)
      && View(dir', store') == View(dir, store)[name := data]
  {
    var id := Target(dir, store, name);
    var dir', store' := dir[name := id], Put(store, id, data);
    forall n | n in dir && n != name
      ensures dir[n] != id
    {
      if name in dir {
        assert dir[name] == id;
      }
    }
    forall a, b | a in dir' && b in dir' && a != b
      ensures dir'[a] != dir'[b]
    {
      if a != name && b != name {
        assert dir'[a] == dir[a] && dir'[b] == dir[b];
      }
    }
    var v, v' := View(dir, store), View(dir', store');
    forall n | n in v'
      ensures n in v[name := data] && v'[n] == v[name := data][n]
    {
      if n != name {
        assert dir'[n] == dir[n] != id;
      }
    }
    assert forall n :: n in v[name := data] ==> n in v';
  }

  /** `open(name, "w+")` and `write`: `name` leads to the target file, which
      holds the payload (or nothing, after a TypeError); every other name
      keeps its file, no other file changes, and names stay linked. */
  lemma {:induction false} WriteEffect(dir: map<int, FileId>, store: seq<Blob>, name: int, p: Payload, fallback: bool)
    requires Linked(dir, store)
    ensures var w := WriteFile(dir, store, name, p, fallback); var id := Target(dir, store, name);
      && Linked(w.dir, w.store)
      && (name in dir ==> id == dir[name] && |w.store| == |store|)
      && (name !in dir ==> id == |store| && |w.store| == |store| + 1)
      && name in w.dir && w.dir[name] == id
      && w.store[id] == (if w.handle.Ok? then p.data else [])
      && (forall n :: n != name ==> (n in w.dir <==> n in dir))
      && (forall n :: n in dir && n != name ==> w.dir[n] == dir[n] && dir[n] != id)
      && (forall j :: 0 <= j < |store| && j != id ==> w.store[j] == store[j])
      && (w.handle.Ok? <==> PersistentWriteMode(p.kind, fallback).Ok?)
      && (w.handle.Ok? ==> w.handle.value == Handle(name, id, PersistentWriteMode(p.kind, fallback).value, true))
      && (w.handle.Err? ==> w.handle.error == TypeError)
      && View(w.dir, w.store) == View(dir, store)[name := w.store[id]]
  {
    if PersistentWriteMode(p.kind, fallback).Ok? {
      PutLinked(dir, store, name, p.data);
    } else {
      PutLinked(dir, store, name, []);
    }
  }

  // ---------------------------------------------------------------------
  // The loops one by one

  lemma {:induction false} ShiftUpSkips(d: Disk, index: int, i: int)
    requires -1 <= i < |d.files| && i < Lo(index)
    ensures ShiftUp(d, index, i) == Run(d, Done)
    decreases i + 1
  {
    if i >= 0 {
      ShiftUpSkips(d, index, i - 1);
    }
  }

  /** The descending i -> i+1 loop never renames onto a name still to be
      moved: names Lo..i all move up by one and Lo is left free. */
  lemma {:induction false} ShiftUpMoves(d: Disk, index: int, i: int)
    requires -1 <= i < |d.files| && Lo(index) - 1 <= i
    requires forall j :: Lo(index) <= j <= i ==> j in d.dir
    ensures i < Lo(index) ==> ShiftUp(d, index, i) == Run(d, Done)
    ensures var r := ShiftUp(d, index, i);
      && r.out == Done
      && (forall k :: Lo(index) < k <= i + 1 ==> k in r.disk.dir && r.disk.dir[k] == d.dir[k - 1])
      && (Lo(index) <= i ==> Lo(index) !in r.disk.dir)
      && (forall k :: k < Lo(index) || i + 1 < k ==>
            (k in r.disk.dir <==> k in d.dir) && (k in d.dir ==> r.disk.dir[k] == d.dir[k]))
      && (forall k :: 0 <= k < |d.files| ==>
            r.disk.files[k] == if Lo(index) <= k <= i then d.files[k].(open := false) else d.files[k])
    decreases i + 1
  {
    if i < Lo(index) {
      ShiftUpSkips(d, index, i);
    } else {
      var d1 := d.(dir := (d.dir - {i})[i + 1 := d.dir[i]], files := Close(d.files, i));
      assert ShiftUp(d, index, i) == ShiftUp(d1, index, i - 1);
      ShiftUpMoves(d1, index, i - 1);
    }
  }

  lemma {:induction false} ShiftDownSkips(d: Disk, index: int, i: int)
    requires -1 <= i < |d.files| && i < Lo(index)
    ensures ShiftDown(d, index, i) == Run(d, Done)
    decreases i + 1
  {
    if i >= 0 {
      ShiftDownSkips(d, index, i - 1);
    }
  }

  /** The descending i+1 -> i loop: each rename lands on the name the next
      step moves, so the top file ends at Lo and every name above Lo is gone. */
  lemma {:induction false} ShiftDownCollapses(d: Disk, index: int, i: int)
    requires Lo(index) <= i < |d.files| && i + 1 in d.dir
    ensures var r := ShiftDown(d, index, i);
      && r.out == Done
      && Lo(index) in r.disk.dir && r.disk.dir[Lo(index)] == d.dir[i + 1]
      && (forall k :: Lo(index) < k <= i + 1 ==> k !in r.disk.dir)
      && (forall k :: 0 <= k < Lo(index) ==> r.disk.files[k] == d.files[k])
      && (forall k :: k < Lo(index) || i + 1 < k ==>
            (k in r.disk.dir <==> k in d.dir) && (k in d.dir ==> r.disk.dir[k] == d.dir[k]))
    decreases i
  {
    var d1 := d.(dir := (d.dir - {i + 1})[i := d.dir[i + 1]], files := Close(d.files, i));
    assert ShiftDown(d, index, i) == ShiftDown(d1, index, i - 1);
    if i == Lo(index) {
      ShiftDownSkips(d1, index, i - 1);
    } else {
      ShiftDownCollapses(d1, index, i - 1);
    }
  }

  lemma {:induction false} ReopenAll(d: Disk, first: int, i: nat)
    requires i <= |d.files|
    requires forall j :: first <= j && i <= j < |d.files| ==> j in d.dir
    ensures var r := Reopen(d, first, i);
      && r.out == Done && r.disk.dir == d.dir
      && forall k :: 0 <= k < |d.files| ==>
           r.disk.files[k] == if i <= k && first <= k then Handle(k, d.dir[k], RPlus, true) else d.files[k]
    decreases |d.files| - i
  {
    if i < |d.files| {
      if i < first {
        ReopenAll(d, first, i + 1);
      } else {
        ReopenAll(d.(files := d.files[i := Handle(i, d.dir[i], RPlus, true)]), first, i + 1);
      }
    }
  }

  lemma {:induction false} ReopenMissing(d: Disk, first: int, i: nat, m: nat)
    requires i <= m < |d.files| && first <= m && m !in d.dir
    ensures Reopen(d, first, i).out == Fail(FileNotFoundError)
    decreases m - i
  {
    if i < m {
      if i < first {
        ReopenMissing(d, first, i + 1, m);
      } else if i in d.dir {
        ReopenMissing(d.(files := d.files[i := Handle(i, d.dir[i], RPlus, true)]), first, i + 1, m);
      }
    }
  }

  // ---------------------------------------------------------------------
  // Every operation keeps names and handles on files that exist

  /** On a sound disk a read fails only with IndexError (bad index) or
      ValueError (closed handle): the FileNotFoundError branch of ReadHandle
      never fires. */
  lemma {:induction false} GetSound(d: Disk, index: int)
    requires Sound(d)
    ensures GetSpec(d, index) != Err(FileNotFoundError)
    ensures GetSpec(d, index).Err? ==> GetSpec(d, index) == Err(IndexError) || GetSpec(d, index) == Err(ValueError)
  {
  }

  lemma {:induction false} ShiftUpSound(d: Disk, index: int, i: int)
    requires Sound(d) && -1 <= i < |d.files|
    ensures Sound(ShiftUp(d, index, i).disk)
    decreases i + 1
  {
    if i >= 0 {
      if i < index {
        ShiftUpSound(d, index, i - 1);
      } else if Rename(d.dir, i, i + 1).Ok? {
        RenameLinked(d.dir, d.store, i, i + 1);
        ShiftUpSound(d.(dir := Rename(d.dir, i, i + 1).value, files := Close(d.files, i)), index, i - 1);
      }
    }
  }

  lemma {:induction false} ShiftDownSound(d: Disk, index: int, i: int)
    requires Sound(d) && -1 <= i < |d.files|
    ensures Sound(ShiftDown(d, index, i).disk)
    decreases i + 1
  {
    if i >= 0 {
      if i < index {
        ShiftDownSound(d, index, i - 1);
      } else if Rename(d.dir, i + 1, i).Ok? {
        RenameLinked(d.dir, d.store, i + 1, i);
        ShiftDownSound(d.(dir := Rename(d.dir, i + 1, i).value, files := Close(d.files, i)), index, i - 1);
      }
    }
  }

  lemma {:induction false} ReopenSound(d: Disk, first: int, i: nat)
    requires Sound(d) && i <= |d.files|
    ensures Sound(Reopen(d, first, i).disk)
    decreases |d.files| - i
  {
    if i < |d.files| {
      if i < first {
        ReopenSound(d, first, i + 1);
      } else if i in d.dir {
        ReopenSound(d.(files := d.files[i := Handle(i, d.dir[i], RPlus, true)]), first, i + 1);
      }
    }
  }

  /** A write keeps names on existing files, only ever grows the store, and
      returns a handle on an existing file. */
  lemma {:induction false} WriteSound(dir: map<int, FileId>, store: seq<Blob>, name: int, p: Payload, fallback: bool)
    requires Linked(dir, store)
    ensures var w := WriteFile(dir, store, name, p, fallback);
      && Linked(w.dir, w.store) && |store| <= |w.store|
      && (w.handle.Ok? ==> w.handle.value.file < |w.store|)
  {
    WriteEffect(dir, store, name, p, fallback);
  }

  /** `client[index] = p` keeps the disk sound, whatever it raises. */
  lemma {:induction false} SetSound(d: Disk, index: int, p: Payload, fallback: bool)
    requires Sound(d)
    ensures Sound(SetSpec(d, index, p, fallback).disk)
  {
    WriteEffect(d.dir, d.store, index, p, fallback);
  }

  /** Adding a handle on an existing file to a sound disk keeps it sound. */
  lemma {:induction false} InsertedHandleSound(d: Disk, k: nat, h: Handle)
    requires Linked(d.dir, d.store) && k <= |d.files| && h.file < |d.store|
    requires forall i | 0 <= i < |d.files| :: d.files[i].file < |d.store|
    ensures Sound(Disk(d.dir, d.store, PyLists.Insert(d.files, k, h)))
  {
    var files := PyLists.Insert(d.files, k, h);
    forall i | 0 <= i < |files|
      ensures files[i].file < |d.store|
    {
      if i > k {
        assert files[i] == d.files[i - 1];
      }
    }
  }

  /** `client.insert(index, p)` keeps the disk sound, whatever it raises. */
  lemma {:induction false} InsertSound(d: Disk, index: int, p: Payload, fallback: bool)
    requires Sound(d)
    ensures Sound(InsertSpec(d, index, p, fallback).disk)
  {
    if index >= |d.files| {
      WriteSound(d.dir, d.store, index, p, fallback);
    } else {
      ShiftUpSound(d, index, |d.files| - 1);
      var r1 := ShiftUp(d, index, |d.files| - 1);
      if r1.out.Done? {
        WriteSound(r1.disk.dir, r1.disk.store, index, p, fallback);
        var w := WriteFile(r1.disk.dir, r1.disk.store, index, p, fallback);
        if w.handle.Ok? {
          var k := InsertIndex(index, |r1.disk.files|);
          var files := PyLists.Insert(r1.disk.files, k, w.handle.value);
          InsertedHandleSound(Disk(w.dir, w.store, r1.disk.files), k, w.handle.value);
          ReopenSound(Disk(w.dir, w.store, files), index + 1, 0);
          assert InsertSpec(d, index, p, fallback) == Reopen(Disk(w.dir, w.store, files), index + 1, 0);
        }
      }
    }
  }

  /** `del client[index]` keeps the disk sound, whatever it raises. */
  lemma {:induction false} DeleteSound(d: Disk, index: int)
    requires Sound(d)
    ensures Sound(DeleteSpec(d, index).disk)
  {
    var n := |d.files|;
    if ItemIndex(index, n).Some? {
      var k := ItemIndex(index, n).value;
      var h := d.files[k];
      var files := Remove(d.files, k);
      if h.name in d.dir {
        var d0 := Disk(d.dir - {h.name}, d.store, files);
        assert Sound(d0);
        ShiftDownSound(d0, index, |files| - 1);
        ReopenSound(ShiftDown(d0, index, |files| - 1).disk, index, 0);
      }
    }
  }

  /** Slicing keeps the shared directory and the new client's handles sound. */
  lemma {:induction false} CopySharedSound(dir: map<int, FileId>, store: seq<Blob>, src: seq<Handle>, idx: seq<int>, dst: seq<Handle>, fallback: bool)
    requires forall k :: 0 <= k < |idx| ==> 0 <= idx[k] < |src|
    requires Sound(Disk(dir, store, dst))
    ensures Sound(CopyShared(dir, store, src, idx, dst, fallback).disk)
    decreases |idx|
  {
    if idx != [] && ReadHandle(store, src[idx[0]]).Ok? {
      var p := ReadHandle(store, src[idx[0]]).value;
      InsertSound(Disk(dir, store, dst), |dst|, p, fallback);
      var r := InsertSpec(Disk(dir, store, dst), |dst|, p, fallback);
      if r.out.Done? {
        CopySharedSound(r.disk.dir, r.disk.store, src, idx[1..], r.disk.files, fallback);
      }
    }
  }

  // ---------------------------------------------------------------------
  // get, set, insert

  /** Reading position i of a contiguous client is the Python list read. */
  lemma {:induction false} GetContiguous(d: Disk, index: int)
    requires Contiguous(d)
    ensures ItemIndex(index, |d.files|).None? ==> GetSpec(d, index) == Err(IndexError)
    ensures ItemIndex(index, |d.files|).Some? ==>
      GetSpec(d, index) == Ok(Contents(d)[ItemIndex(index, |d.files|).value])
  {
    var n := |d.files|;
    if ItemIndex(index, n).Some? {
      var k := ItemIndex(index, n).value;
      assert GetSpec(d, k) == Ok(Contents(d)[k]);
    }
  }

  /** `client[index] = p` writes the file named by the raw index. In range it
      replaces exactly the payload at that position; a negative index keeps
      the content right but names the handle `index`, so positions and names
      part. Out of range, a stray file is written and IndexError raised. A
      payload no mode accepts leaves that file empty and raises TypeError. */
  lemma {:induction false} SetEffect(d: Disk, index: int, p: Payload, fallback: bool)
    requires Contiguous(d)
    ensures var r := SetSpec(d, index, p, fallback); var n := |d.files|;
      && (PersistentWriteMode(p.kind, fallback).Err? ==>
            && r.out == Fail(TypeError) && r.disk.files == d.files
            && View(r.disk.dir, r.disk.store) == View(d.dir, d.store)[index := []])
      && (PersistentWriteMode(p.kind, fallback).Ok? ==>
            && View(r.disk.dir, r.disk.store) == View(d.dir, d.store)[index := p.data]
            && (ItemIndex(index, n).None? ==> r.out == Fail(IndexError) && r.disk.files == d.files)
            && (ItemIndex(index, n).Some? ==>
                  && r.out == Done && |r.disk.files| == n
                  && (Contiguous(r.disk) <==> index >= 0)
                  && forall j :: -n <= j < n ==>
                       GetSpec(r.disk, j) == if ItemIndex(j, n) == ItemIndex(index, n) then Ok(p) else GetSpec(d, j)))
  {
    var n := |d.files|;
    WriteEffect(d.dir, d.store, index, p, fallback);
    var w := WriteFile(d.dir, d.store, index, p, fallback);
    var id := Target(d.dir, d.store, index);
    var r := SetSpec(d, index, p, fallback);
    if PersistentWriteMode(p.kind, fallback).Ok? && ItemIndex(index, n).Some? {
      var k := ItemIndex(index, n).value;
      var m := PersistentWriteMode(p.kind, fallback).value;
      assert ReadKind(m) == p.kind;
      forall j | -n <= j < n
        ensures GetSpec(r.disk, j) == if ItemIndex(j, n) == ItemIndex(index, n) then Ok(p) else GetSpec(d, j)
      {
        var i := ItemIndex(j, n).value;
        if i != k {
          assert d.files[i].file == d.dir[i] != id;
        }
      }
      if index < 0 {
        assert r.disk.files[k].name != k;
      }
    }
  }

  /** Inserting inside the list: the new payload lands at `index`, the old
      payloads from `index` on move up by one and are read back as text (they
      were reopened in "r+"), and names again match positions. */
  lemma {:induction false} InsertInside(d: Disk, index: int, p: Payload, fallback: bool)
    requires Contiguous(d) && 0 <= index < |d.files|
    requires PersistentWriteMode(p.kind, fallback).Ok?
    ensures var r := InsertSpec(d, index, p, fallback);
      && r.out == Done && Contiguous(r.disk)
      && Contents(r.disk) == PyLists.Insert(Reopened(Contents(d), index), index, p)
  {
    var before := InsertBeforeReopen(d, index, p, fallback);
    ReopenAll(before, index + 1, 0);
    var r := Reopen(before, index + 1, 0);
    assert InsertSpec(d, index, p, fallback) == r;
    InsertedContents(d, index, p, r.disk);
  }

  /** The layout a non-tail insert ends in, read back as payloads. */
  lemma {:induction false} InsertedContents(d: Disk, index: nat, p: Payload, after: Disk)
    requires Contiguous(d) && index < |d.files| && |after.files| == |d.files| + 1
    requires Linked(after.dir, after.store)
    requires forall k :: 0 <= k < index ==>
      after.files[k] == d.files[k] && k in after.dir && after.dir[k] == d.dir[k] && after.store[d.dir[k]] == d.store[d.dir[k]]
    requires index in after.dir && after.files[index] == Handle(index, after.dir[index], after.files[index].mode, true)
    requires ReadKind(after.files[index].mode) == p.kind && after.store[after.dir[index]] == p.data
    requires forall k :: index < k <= |d.files| ==>
      k in after.dir && after.files[k] == Handle(k, after.dir[k], RPlus, true) && after.store[after.dir[k]] == d.store[d.dir[k - 1]]
    ensures Contiguous(after)
    ensures Contents(after) == PyLists.Insert(Reopened(Contents(d), index), index, p)
  {
    InsertedContiguous(d, index, after);
    var want := PyLists.Insert(Reopened(Contents(d), index), index, p);
    forall k | 0 <= k < |after.files|
      ensures Contents(after)[k] == want[k]
    {
      InsertedItem(d, index, p, after, k);
    }
  }

  /** One position of an insert's result. */
  lemma {:induction false} InsertedItem(d: Disk, index: nat, p: Payload, after: Disk, k: nat)
    requires Contiguous(d) && index < |d.files| && Contiguous(after) && k < |after.files| == |d.files| + 1
    requires k < index ==> after.files[k] == d.files[k] && after.dir[k] == d.dir[k] && after.store[d.dir[k]] == d.store[d.dir[k]]
    requires k == index ==> ReadKind(after.files[index].mode) == p.kind && after.store[after.dir[index]] == p.data
    requires k > index ==> after.files[k].mode == RPlus && after.store[after.dir[k]] == d.store[d.dir[k - 1]]
    ensures Contents(after)[k] == PyLists.Insert(Reopened(Contents(d), index), index, p)[k]
  {
    var old_ := Contents(d);
    var shifted := Reopened(old_, index);
    var want := PyLists.Insert(shifted, index, p);
    var now := Contents(after);
    if k < index {
      assert now[k] == ReadAs(d.files[k].mode, d.store[d.dir[k]]) == old_[k] == shifted[k];
    } else if k == index {
      assert now[k] == ReadAs(after.files[index].mode, p.data) == p;
    } else {
      assert now[k] == ReadAs(RPlus, d.store[d.dir[k - 1]]);
      assert want[k] == shifted[k - 1] == Payload(Text, old_[k - 1].data);
    }
  }

  /** The handles of an insert's result are on their own names, in order. */
  lemma {:induction false} InsertedContiguous(d: Disk, index: nat, after: Disk)
    requires Contiguous(d) && index < |d.files| && |after.files| == |d.files| + 1
    requires Linked(after.dir, after.store)
    requires forall k :: 0 <= k < index ==> after.files[k] == d.files[k] && k in after.dir && after.dir[k] == d.dir[k]
    requires index in after.dir && after.files[index] == Handle(index, after.dir[index], after.files[index].mode, true)
    requires forall k :: index < k <= |d.files| ==> k in after.dir && after.files[k] == Handle(k, after.dir[k], RPlus, true)
    ensures Contiguous(after)
  {
    forall i | 0 <= i < |after.files|
      ensures after.files[i].name == i && after.files[i].open && i in after.dir && after.files[i].file == after.dir[i]
    {
      if i < index {
        assert d.files[i].name == i && d.files[i].open && d.files[i].file == d.dir[i];
      }
    }
  }

  /** Insert's rename loop on a contiguous client at 0 <= index < len: names
      below index stay, name index is freed, and name k+1 now leads to the
      file name k led to. */
  lemma {:induction false} ShiftUpContiguous(d: Disk, index: int)
    requires Contiguous(d) && 0 <= index < |d.files|
    ensures var r1 := ShiftUp(d, index, |d.files| - 1);
      && r1.out == Done && Linked(r1.disk.dir, r1.disk.store) && r1.disk.store == d.store
      && |r1.disk.files| == |d.files| && index !in r1.disk.dir
      && (forall k :: 0 <= k < index ==> r1.disk.files[k] == d.files[k] && k in r1.disk.dir && r1.disk.dir[k] == d.dir[k])
      && (forall k :: index < k <= |d.files| ==> k in r1.disk.dir && r1.disk.dir[k] == d.dir[k - 1])
  {
    var n := |d.files|;
    assert Lo(index) == index;
    ShiftUpMoves(d, index, n - 1);
    ShiftUpSound(d, index, n - 1);
  }

  /** The state a non-tail insert reaches just before its reopen loop: the
      payload went into a new file, so no existing file changed. */
  lemma {:induction false} InsertBeforeReopen(d: Disk, index: int, p: Payload, fallback: bool) returns (before: Disk)
    requires Contiguous(d) && 0 <= index < |d.files|
    requires PersistentWriteMode(p.kind, fallback).Ok?
    ensures var r1 := ShiftUp(d, index, |d.files| - 1);
      && r1.out == Done
      && var w := WriteFile(r1.disk.dir, r1.disk.store, index, p, fallback);
      && w.handle.Ok?
      && before == Disk(w.dir, w.store, PyLists.Insert(r1.disk.files, index, w.handle.value))
    ensures Linked(before.dir, before.store) && |before.files| == |d.files| + 1
    ensures forall k :: 0 <= k < index ==>
      before.files[k] == d.files[k] && k in before.dir && before.dir[k] == d.dir[k] && before.store[d.dir[k]] == d.store[d.dir[k]]
    ensures index in before.dir && before.files[index] == Handle(index, before.dir[index], before.files[index].mode, true)
    ensures ReadKind(before.files[index].mode) == p.kind && before.store[before.dir[index]] == p.data
    ensures forall k :: index < k <= |d.files| ==>
      k in before.dir && before.dir[k] == d.dir[k - 1] && before.store[before.dir[k]] == d.store[d.dir[k - 1]]
  {
    var n := |d.files|;
    ShiftUpContiguous(d, index);
    var r1 := ShiftUp(d, index, n - 1);
    WriteEffect(r1.disk.dir, r1.disk.store, index, p, fallback);
    var w := WriteFile(r1.disk.dir, r1.disk.store, index, p, fallback);
    before := Disk(w.dir, w.store, PyLists.Insert(r1.disk.files, index, w.handle.value));
    forall k | 0 <= k < index
      ensures before.files[k] == d.files[k] && k in before.dir && before.dir[k] == d.dir[k]
      ensures before.store[d.dir[k]] == d.store[d.dir[k]]
    {
      assert k in r1.disk.dir && r1.disk.dir[k] == d.dir[k];
    }
    forall k | index < k <= n
      ensures k in before.dir && before.dir[k] == d.dir[k - 1]
      ensures before.store[before.dir[k]] == d.store[d.dir[k - 1]]
    {
      assert k in r1.disk.dir && r1.disk.dir[k] == d.dir[k - 1];
    }
  }

  /** Inserting at or past the end writes a file named `index`, not `len`:
      names match positions again only when index == len. */
  lemma {:induction false} InsertPastEnd(d: Disk, index: int, p: Payload, fallback: bool)
    requires Contiguous(d) && index >= |d.files|
    requires PersistentWriteMode(p.kind, fallback).Ok?
    ensures var r := InsertSpec(d, index, p, fallback); var n := |d.files|;
      && r.out == Done && |r.disk.files| == n + 1 && r.disk.files[..n] == d.files
      && r.disk.files[n].name == index
      && View(r.disk.dir, r.disk.store) == View(d.dir, d.store)[index := p.data]
      && (Contiguous(r.disk) <==> index == n)
      && (index == n ==> Contents(r.disk) == Contents(d) + [p])
  {
    var n := |d.files|;
    WriteEffect(d.dir, d.store, index, p, fallback);
    if index == n {
      AppendAtEnd(d, p, fallback);
    }
  }

  /** `insert(len, p)`: the new handle is on name len, so the client stays
      contiguous and the payload is appended. */
  lemma {:induction false} AppendAtEnd(d: Disk, p: Payload, fallback: bool)
    requires Contiguous(d) && PersistentWriteMode(p.kind, fallback).Ok?
    ensures var r := InsertSpec(d, |d.files|, p, fallback);
      && Contiguous(r.disk) && Contents(r.disk) == Contents(d) + [p]
  {
    var n := |d.files|;
    WriteEffect(d.dir, d.store, n, p, fallback);
    var id := Target(d.dir, d.store, n);
    var r := InsertSpec(d, n, p, fallback);
    forall i | 0 <= i < n
      ensures r.disk.files[i] == d.files[i] && i in r.disk.dir && r.disk.dir[i] == d.dir[i] && d.dir[i] != id
    {
    }
    assert Contiguous(r.disk);
    assert ReadKind(r.disk.files[n].mode) == p.kind;
    assert Contents(r.disk) == Contents(d) + [p];
  }

  /** A negative index moves every file up, writes a file named by the
      negative index, and then finds no file named 0 to reopen. */
  lemma {:induction false} InsertNegativeFails(d: Disk, index: int, p: Payload, fallback: bool)
    requires Contiguous(d) && index < 0 && (|d.files| >= 1 || 0 !in d.dir)
    requires PersistentWriteMode(p.kind, fallback).Ok?
    ensures InsertSpec(d, index, p, fallback).out == Fail(FileNotFoundError)
  {
    var n := |d.files|;
    ShiftUpMoves(d, index, n - 1);
    var r1 := ShiftUp(d, index, n - 1);
    var w := WriteFile(r1.disk.dir, r1.disk.store, index, p, fallback);
    var files := PyLists.Insert(r1.disk.files, InsertIndex(index, n), w.handle.value);
    assert 0 !in w.dir;
    ReopenMissing(Disk(w.dir, w.store, files), index + 1, 0, 0);
  }

  /** Normalising the index as `list.insert` does before renaming makes every
      insert correct: the corrected counterpart of InsertNegativeFails. */
  lemma {:induction false} InsertNormalisedCorrect(d: Disk, index: int, p: Payload, fallback: bool)
    requires Contiguous(d) && PersistentWriteMode(p.kind, fallback).Ok?
    ensures var k := InsertIndex(index, |d.files|); var r := InsertSpec(d, k, p, fallback);
      && r.out == Done && Contiguous(r.disk)
      && Contents(r.disk) == PyLists.Insert(Reopened(Contents(d), k), k, p)
  {
    var n := |d.files|;
    var k := InsertIndex(index, n);
    if k < n {
      InsertInside(d, k, p, fallback);
    } else {
      InsertPastEnd(d, k, p, fallback);
      assert Reopened(Contents(d), k) == Contents(d);
    }
  }

  // ---------------------------------------------------------------------
  // delete

  /** `del client[index]` for 0 <= index < len, as written: with at most one
      position after `index` the result is the list without that payload
      (shifted payloads read as text); with two or more, the first rename
      overwrites a file not yet moved, every name above `index` disappears,
      only the last payload survives (at `index`), and the reopen loop raises
      FileNotFoundError. */
  lemma {:induction false} DeleteFollowers(d: Disk, index: int)
    requires Contiguous(d) && 0 <= index < |d.files|
    ensures var r := DeleteSpec(d, index); var n := |d.files|;
      && (n - index <= 2 ==>
            && r.out == Done && Contiguous(r.disk)
            && Contents(r.disk) == Reopened(Remove(Contents(d), index), index))
      && (n - index > 2 ==>
            && r.out == Fail(FileNotFoundError)
            && index in r.disk.dir && r.disk.dir[index] == d.dir[n - 1]
            && forall k :: index < k < n ==> k !in r.disk.dir)
  {
    var n := |d.files|;
    if n - 1 == index {
      DeleteLast(d, index);
    } else if n - index == 2 {
      DeleteOneFollower(d, index);
    } else {
      DeleteClobbers(d, index);
    }
  }

  /** The disk a delete at 0 <= index < len hands to its rename loop. */
  function Removed(d: Disk, index: nat): Disk
    requires index < |d.files|
  {
    Disk(d.dir - {index}, d.store, Remove(d.files, index))
  }

  lemma {:induction false} DeleteUnfolds(d: Disk, index: int)
    requires Contiguous(d) && 0 <= index < |d.files|
    ensures var r1 := ShiftDown(Removed(d, index), index, |d.files| - 2);
      DeleteSpec(d, index) == if r1.out.Fail? then r1 else Reopen(r1.disk, index, 0)
  {
    assert d.files[index].open && d.files[index].name == index;
  }

  lemma {:induction false} DeleteLast(d: Disk, index: int)
    requires Contiguous(d) && 0 <= index && index == |d.files| - 1
    ensures var r := DeleteSpec(d, index);
      && r.out == Done && Contiguous(r.disk)
      && Contents(r.disk) == Reopened(Remove(Contents(d), index), index)
  {
    var d0 := Removed(d, index);
    DeleteUnfolds(d, index);
    ShiftDownSkips(d0, index, index - 1);
    assert Sound(d0);
    AscendingReopened(d, index, d0);
  }

  lemma {:induction false} DeleteOneFollower(d: Disk, index: int)
    requires Contiguous(d) && 0 <= index && index == |d.files| - 2
    ensures var r := DeleteSpec(d, index);
      && r.out == Done && Contiguous(r.disk)
      && Contents(r.disk) == Reopened(Remove(Contents(d), index), index)
  {
    var d0 := Removed(d, index);
    DeleteUnfolds(d, index);
    ShiftDownCollapses(d0, index, index);
    ShiftDownSound(d0, index, index);
    var r1 := ShiftDown(d0, index, index);
    forall j | 0 <= j < index
      ensures j in r1.disk.dir && r1.disk.dir[j] == d.dir[j]
    {
      assert j in d0.dir;
    }
    AscendingReopened(d, index, r1.disk);
  }

  lemma {:induction false} DeleteClobbers(d: Disk, index: int)
    requires Contiguous(d) && 0 <= index && index + 2 < |d.files|
    ensures var r := DeleteSpec(d, index); var n := |d.files|;
      && r.out == Fail(FileNotFoundError)
      && index in r.disk.dir && r.disk.dir[index] == d.dir[n - 1]
      && forall k :: index < k < n ==> k !in r.disk.dir
  {
    var n := |d.files|;
    var d0 := Removed(d, index);
    var r1 := ShiftDown(d0, index, n - 2);
    ClobberedRun(d, index);
    ReopenMissing(r1.disk, index, 0, index + 1);
    DeleteUnfolds(d, index);
  }

  /** The rename loop of a delete with more than one follower. */
  lemma {:induction false} ClobberedRun(d: Disk, index: int)
    requires Contiguous(d) && 0 <= index && index + 2 < |d.files|
    ensures var r1 := ShiftDown(Removed(d, index), index, |d.files| - 2); var n := |d.files|;
      && r1.out == Done && |r1.disk.files| == n - 1
      && index in r1.disk.dir && r1.disk.dir[index] == d.dir[n - 1]
      && forall k :: index < k < n ==> k !in r1.disk.dir
  {
    var n := |d.files|;
    var d0 := Removed(d, index);
    assert n - 1 in d0.dir && d0.dir[n - 1] == d.dir[n - 1];
    ShiftDownCollapses(d0, index, n - 2);
  }

  /** `del client[index]` with a negative index: the skip test compares
      positions with the raw negative index, so every remaining file is
      renamed down, starting from the removed name when index == -1. */
  lemma {:induction false} DeleteNegativeFails(d: Disk, index: int)
    requires Contiguous(d) && -|d.files| <= index < 0
    requires |d.files| >= 3 || (index == -1 && |d.files| == 2)
    ensures DeleteSpec(d, index).out == Fail(FileNotFoundError)
  {
    var n := |d.files|;
    var k := index + n;
    var files := Remove(d.files, k);
    var d0 := Disk(d.dir - {k}, d.store, files);
    assert d.files[k].open && d.files[k].name == k && k in d.dir;
    assert Lo(index) == 0;
    var r1 := ShiftDown(d0, index, n - 2);
    if k < n - 1 {
      ShiftDownCollapses(d0, index, n - 2);
      ReopenMissing(r1.disk, index, 0, 1);
      assert DeleteSpec(d, index) == Reopen(r1.disk, index, 0);
    } else {
      assert n - 1 !in d0.dir;
      assert r1 == Run(d0.(files := Close(files, n - 2)), Fail(FileNotFoundError));
    }
  }

  /** A persistent client holding a, b, c in files 0, 1, 2 under names 0, 1, 2. */
  function ThreeFiles(a: Blob, b: Blob, c: Blob): Disk
  {
    Disk(map[0 := 0, 1 := 1, 2 := 2], [a, b, c], [Handle(0, 0, WPlus, true), Handle(1, 1, WPlus, true), Handle(2, 2, WPlus, true)])
  }

  /** `insert(-1, v)` on a, b, c closes every handle, renames every file up
      and fails in the reopen loop, leaving positions 0, 1 and 3 closed. */
  lemma {:induction false} InsertNegativeLeavesClosed(a: Blob, b: Blob, c: Blob, v: Blob)
    ensures var r := InsertSpec(ThreeFiles(a, b, c), -1, Payload(Text, v), true);
      && r.out == Fail(FileNotFoundError)
      && r.disk == Disk(map[-1 := 3, 1 := 0, 2 := 1, 3 := 2], [a, b, c, v],
                        [Handle(0, 0, WPlus, false), Handle(1, 1, WPlus, false), Handle(-1, 3, WPlus, true), Handle(2, 2, WPlus, false)])
  {
    var up := ThreeFilesShiftedUp(a, b, c);
    var dir' := map[-1 := 3, 1 := 0, 2 := 1, 3 := 2];
    assert WriteFile(up.dir, up.store, -1, Payload(Text, v), true)
      == Written(dir', [a, b, c, v], Ok(Handle(-1, 3, WPlus, true)));
  }

  /** Insert's rename loop with index -1 on ThreeFiles: every file moves up
      one name and every handle is closed. */
  lemma {:induction false} ThreeFilesShiftedUp(a: Blob, b: Blob, c: Blob) returns (up: Disk)
    ensures up == Disk(map[1 := 0, 2 := 1, 3 := 2], [a, b, c],
                       [Handle(0, 0, WPlus, false), Handle(1, 1, WPlus, false), Handle(2, 2, WPlus, false)])
    ensures ShiftUp(ThreeFiles(a, b, c), -1, 2) == Run(up, Done)
  {
    var d := ThreeFiles(a, b, c);
    up := Disk(map[1 := 0, 2 := 1, 3 := 2], [a, b, c],
               [Handle(0, 0, WPlus, false), Handle(1, 1, WPlus, false), Handle(2, 2, WPlus, false)]);
    var s1 := d.(dir := map[0 := 0, 1 := 1, 3 := 2], files := Close(d.files, 2));
    var s2 := d.(dir := map[0 := 0, 2 := 1, 3 := 2], files := Close(s1.files, 1));
    assert forall k :: k in Rename(d.dir, 2, 3).value <==> k in s1.dir;
    assert Rename(d.dir, 2, 3).value == s1.dir;
    assert Rename(d.dir, 2, 3) == Ok(s1.dir);
    assert forall k :: k in Rename(s1.dir, 1, 2).value <==> k in s2.dir;
    assert Rename(s1.dir, 1, 2).value == s2.dir;
    assert Rename(s1.dir, 1, 2) == Ok(s2.dir);
    assert forall k :: k in Rename(s2.dir, 0, 1).value <==> k in up.dir;
    assert Rename(s2.dir, 0, 1).value == up.dir;
    assert Rename(s2.dir, 0, 1) == Ok(up.dir);
  }

  /** Deleting position 1 in that state: the removed handle is closed, so the
      reopen loop's `seek(0)` on it raises ValueError after the renames. */
  lemma {:induction false} DeleteClosedRaises(a: Blob, b: Blob, c: Blob, v: Blob)
    ensures var r := InsertSpec(ThreeFiles(a, b, c), -1, Payload(Text, v), true);
      var r' := DeleteSpec(r.disk, 1);
      && r'.out == Fail(ValueError)
      && r'.disk.dir == map[-1 := 3, 1 := 2]
      && |r'.disk.files| == 3 && !r'.disk.files[1].open
  {
    InsertNegativeLeavesClosed(a, b, c, v);
    var d := InsertSpec(ThreeFiles(a, b, c), -1, Payload(Text, v), true).disk;
    var files := [Handle(0, 0, WPlus, false), Handle(-1, 3, WPlus, true), Handle(2, 2, WPlus, false)];
    assert Remove(d.files, 1) == files;
    assert d.dir - {1} == map[-1 := 3, 2 := 1, 3 := 2];
    var d2 := ClosedShiftedDown(d.store);
  }

  /** The delete rename loop at index 1 in the state InsertNegativeLeavesClosed
      leaves: name 3 moves to 2 and then to 1, and handle 1 is closed. */
  lemma {:induction false} ClosedShiftedDown(store: seq<Blob>) returns (d2: Disk)
    ensures var files := [Handle(0, 0, WPlus, false), Handle(-1, 3, WPlus, true), Handle(2, 2, WPlus, false)];
      ShiftDown(Disk(map[-1 := 3, 2 := 1, 3 := 2], store, files), 1, 2) == Run(d2, Done)
    ensures d2.dir == map[-1 := 3, 1 := 2] && d2.store == store && |d2.files| == 3 && !d2.files[1].open
  {
    var files := [Handle(0, 0, WPlus, false), Handle(-1, 3, WPlus, true), Handle(2, 2, WPlus, false)];
    var d0 := Disk(map[-1 := 3, 2 := 1, 3 := 2], store, files);
    var d1 := d0.(dir := map[-1 := 3, 2 := 2], files := Close(files, 2));
    assert forall k :: k in Rename(d0.dir, 3, 2).value <==> k in d1.dir;
    assert Rename(d0.dir, 3, 2).value == d1.dir;
    assert Rename(d0.dir, 3, 2) == Ok(d1.dir);
    d2 := d1.(dir := map[-1 := 3, 1 := 2], files := Close(d1.files, 1));
    assert forall k :: k in Rename(d1.dir, 2, 1).value <==> k in d2.dir;
    assert Rename(d1.dir, 2, 1).value == d2.dir;
    assert Rename(d1.dir, 2, 1) == Ok(d2.dir);
  }

  /** An ascending rename loop: for i from `index` upward, rename i+1 to i,
      so each follower moves down before its name is reused. */
  function ShiftDownAscending(d: Disk, index: int, i: nat): (r: Run)
    requires i <= |d.files|
    ensures |r.disk.files| == |d.files| && r.disk.store == d.store
    decreases |d.files| - i
  {
    if i == |d.files| then Run(d, Done)
    else if i < index then ShiftDownAscending(d, index, i + 1)
    else
      var files := Close(d.files, i);
      match Rename(d.dir, i + 1, i)
      case Err(e) => Run(d.(files := files), Fail(e))
      case Ok(dir) => ShiftDownAscending(d.(dir := dir, files := files), index, i + 1)
  }

  /** Delete with the index normalised and the renames ascending. */
  function DeleteAscendingSpec(d: Disk, index: int): Run
  {
    match ItemIndex(index, |d.files|)
    case None => Run(d, Fail(IndexError))
    case Some(k) =>
      var h := d.files[k];
      var files := Remove(d.files, k);
      if h.name !in d.dir then Run(d.(files := files), Fail(FileNotFoundError))
      else
        var r1 := ShiftDownAscending(Disk(d.dir - {h.name}, d.store, files), k, 0);
        if r1.out.Fail? then r1
        else if k < |files| && !h.open then Run(r1.disk, Fail(ValueError))
        else Reopen(r1.disk, k, 0)
  }

  lemma {:induction false} AscendingSkips(d: Disk, index: nat, i: nat)
    requires i <= index <= |d.files|
    ensures ShiftDownAscending(d, index, i) == ShiftDownAscending(d, index, index)
    decreases index - i
  {
    if i < index {
      AscendingSkips(d, index, i + 1);
    }
  }

  /** Ascending, each rename lands on the name just vacated. */
  lemma {:induction false} AscendingMoves(d: Disk, index: nat, i: nat)
    requires index <= i <= |d.files|
    requires forall j :: i < j <= |d.files| ==> j in d.dir
    ensures i == |d.files| ==> ShiftDownAscending(d, index, i) == Run(d, Done)
    ensures var r := ShiftDownAscending(d, index, i);
      && r.out == Done
      && (forall k :: i <= k < |d.files| ==> k in r.disk.dir && r.disk.dir[k] == d.dir[k + 1])
      && (i < |d.files| ==> |d.files| !in r.disk.dir)
      && (forall k :: 0 <= k < i ==> r.disk.files[k] == d.files[k])
      && (forall k :: k < i || |d.files| < k ==>
            (k in r.disk.dir <==> k in d.dir) && (k in d.dir ==> r.disk.dir[k] == d.dir[k]))
    decreases |d.files| - i
  {
    if i < |d.files| {
      var d1 := d.(dir := (d.dir - {i + 1})[i := d.dir[i + 1]], files := Close(d.files, i));
      assert ShiftDownAscending(d, index, i) == ShiftDownAscending(d1, index, i + 1);
      AscendingMoves(d1, index, i + 1);
    }
  }

  lemma {:induction false} AscendingSound(d: Disk, index: int, i: nat)
    requires Sound(d) && i <= |d.files|
    ensures Sound(ShiftDownAscending(d, index, i).disk)
    decreases |d.files| - i
  {
    if i < |d.files| {
      if i < index {
        AscendingSound(d, index, i + 1);
      } else if Rename(d.dir, i + 1, i).Ok? {
        RenameLinked(d.dir, d.store, i + 1, i);
        AscendingSound(d.(dir := Rename(d.dir, i + 1, i).value, files := Close(d.files, i)), index, i + 1);
      }
    }
  }

  /** The corrected delete removes exactly one payload for every valid index,
      keeps names equal to positions, and reads shifted payloads as text. */
  lemma {:induction false} DeleteAscendingCorrect(d: Disk, index: int)
    requires Contiguous(d)
    ensures var r := DeleteAscendingSpec(d, index); var n := |d.files|;
      && (ItemIndex(index, n).None? ==> r == Run(d, Fail(IndexError)))
      && (ItemIndex(index, n).Some? ==>
            var k := ItemIndex(index, n).value;
            && r.out == Done && Contiguous(r.disk)
            && Contents(r.disk) == Reopened(Remove(Contents(d), k), k))
  {
    var n := |d.files|;
    if ItemIndex(index, n).Some? {
      var k := ItemIndex(index, n).value;
      var r1 := AscendingRun(d, k);
      assert d.files[k].open && d.files[k].name == k;
      assert DeleteAscendingSpec(d, index) == Reopen(r1.disk, k, 0);
      AscendingReopened(d, k, r1.disk);
    }
  }

  /** The corrected rename loop moves every follower down by one name. */
  lemma {:induction false} AscendingRun(d: Disk, k: nat) returns (r1: Run)
    requires Contiguous(d) && k < |d.files|
    ensures r1 == ShiftDownAscending(Removed(d, k), k, 0)
    ensures r1.out == Done && Sound(r1.disk) && r1.disk.store == d.store && |r1.disk.files| == |d.files| - 1
    ensures forall j :: 0 <= j < |d.files| - 1 ==> j in r1.disk.dir && r1.disk.dir[j] == d.dir[if j < k then j else j + 1]
    ensures forall j :: 0 <= j < k ==> r1.disk.files[j] == d.files[j]
  {
    var d0 := Removed(d, k);
    assert Sound(d0);
    AscendingSkips(d0, k, 0);
    AscendingMoves(d0, k, k);
    AscendingSound(d0, k, 0);
    r1 := ShiftDownAscending(d0, k, 0);
  }

  /** Reopening from k after the corrected renames gives back the list
      without item k, later items read as text. */
  lemma {:induction false} AscendingReopened(d: Disk, k: nat, moved: Disk)
    requires Contiguous(d) && k < |d.files|
    requires Sound(moved) && moved.store == d.store && |moved.files| == |d.files| - 1
    requires forall j :: 0 <= j < |d.files| - 1 ==> j in moved.dir && moved.dir[j] == d.dir[if j < k then j else j + 1]
    requires forall j :: 0 <= j < k ==> moved.files[j] == d.files[j]
    ensures var r := Reopen(moved, k, 0);
      && r.out == Done && Contiguous(r.disk)
      && Contents(r.disk) == Reopened(Remove(Contents(d), k), k)
  {
    var n := |d.files|;
    MovedReopened(d, k, moved);
    var r := Reopen(moved, k, 0);
    var want := Reopened(Remove(Contents(d), k), k);
    forall j | 0 <= j < n - 1
      ensures Contents(r.disk)[j] == want[j]
    {
      RemovedItem(d, k, r.disk, j);
    }
  }

  /** Reopening from k after the followers moved down one name: every
      handle sits on its own name again, those from k on in "r+". */
  lemma {:induction false} MovedReopened(d: Disk, k: nat, moved: Disk)
    requires Contiguous(d) && k < |d.files|
    requires Sound(moved) && moved.store == d.store && |moved.files| == |d.files| - 1
    requires forall j :: 0 <= j < |d.files| - 1 ==> j in moved.dir && moved.dir[j] == d.dir[if j < k then j else j + 1]
    requires forall j :: 0 <= j < k ==> moved.files[j] == d.files[j]
    ensures var r := Reopen(moved, k, 0);
      && r.out == Done && Contiguous(r.disk) && r.disk.store == d.store
      && forall i :: 0 <= i < |d.files| - 1 ==>
           r.disk.dir[i] == d.dir[if i < k then i else i + 1]
           && r.disk.files[i].mode == if i < k then d.files[i].mode else RPlus
  {
    ReopenAll(moved, k, 0);
    var r := Reopen(moved, k, 0);
    forall i | 0 <= i < |d.files| - 1
      ensures r.disk.files[i].name == i && r.disk.files[i].open && i in r.disk.dir
      ensures r.disk.files[i].file == r.disk.dir[i]
      ensures r.disk.files[i].mode == if i < k then d.files[i].mode else RPlus
    {
      if i < k {
        assert r.disk.files[i] == d.files[i] && moved.dir[i] == d.dir[i];
      } else {
        assert r.disk.files[i] == Handle(i, moved.dir[i], RPlus, true);
      }
    }
  }

  /** One position of a delete's result, once the followers moved down and
      were reopened. */
  lemma {:induction false} RemovedItem(d: Disk, k: nat, after: Disk, j: nat)
    requires Contiguous(d) && Contiguous(after) && k < |d.files| && j < |after.files| == |d.files| - 1
    requires after.store == d.store && after.dir[j] == d.dir[if j < k then j else j + 1]
    requires after.files[j].mode == if j < k then d.files[j].mode else RPlus
    ensures Contents(after)[j] == Reopened(Remove(Contents(d), k), k)[j]
  {
    if j >= k {
      assert Remove(Contents(d), k)[j] == Contents(d)[j + 1];
    }
  }

  // ---------------------------------------------------------------------
  // handles and names

  /** A handle keeps the file it opened when a rename takes its name: on an
      empty client, `insert(2, a)`, `insert(1, b)`, `insert(1, c)` leave
      position 0 on the file holding a, although name 2 now leads to b. */
  lemma {:induction false} HandleKeepsFile(a: Blob, b: Blob, c: Blob)
    ensures var r1 := InsertSpec(Disk(map[], [], []), 2, Payload(Text, a), true);
      var r2 := InsertSpec(r1.disk, 1, Payload(Text, b), true);
      var r3 := InsertSpec(r2.disk, 1, Payload(Text, c), true);
      && r1.out == Done && r2.out == Done && r3.out == Done
      && |r3.disk.files| == 3
      && GetSpec(r3.disk, 0) == Ok(Payload(Text, a))
      && GetSpec(r3.disk, 1) == Ok(Payload(Text, c))
      && GetSpec(r3.disk, 2) == Ok(Payload(Text, b))
      && r3.disk.files[0].name == 2 && 2 in r3.disk.dir && View(r3.disk.dir, r3.disk.store)[2] == b
  {
    var d1 := Disk(map[2 := 0], [a], [Handle(2, 0, WPlus, true)]);
    assert InsertSpec(Disk(map[], [], []), 2, Payload(Text, a), true) == Run(d1, Done);
    var d2 := Disk(map[2 := 0, 1 := 1], [a, b], [Handle(2, 0, WPlus, true), Handle(1, 1, WPlus, true)]);
    assert InsertSpec(d1, 1, Payload(Text, b), true) == Run(d2, Done);
    var up := d2.(dir := map[2 := 1], files := [Handle(2, 0, WPlus, true), Handle(1, 1, WPlus, false)]);
    assert forall k :: k in Rename(d2.dir, 1, 2).value <==> k in up.dir;
    assert Rename(d2.dir, 1, 2).value == up.dir;
    assert ShiftUp(d2, 1, 1) == Run(up, Done);
    var w := Written(map[2 := 1, 1 := 2], [a, b, c], Ok(Handle(1, 2, WPlus, true)));
    assert WriteFile(up.dir, up.store, 1, Payload(Text, c), true) == w;
    var files := [Handle(2, 0, WPlus, true), Handle(1, 2, WPlus, true), Handle(1, 1, WPlus, false)];
    assert PyLists.Insert(up.files, 1, Handle(1, 2, WPlus, true)) == files;
    var d3 := Disk(w.dir, w.store, files[2 := Handle(2, 1, RPlus, true)]);
    var d0 := Disk(w.dir, w.store, files);
    assert Reopen(d0, 2, 0) == Reopen(d0, 2, 2);
    assert Reopen(d0, 2, 2) == Reopen(d3, 2, 3) == Run(d3, Done);
  }

  // ---------------------------------------------------------------------
  // slicing

  /** Every handle reads a kind the write path accepts, so copying never
      raises TypeError. */
  predicate Writable(d: Disk, fallback: bool)
  {
    forall i | 0 <= i < |d.files| :: PersistentWriteMode(ReadKind(d.files[i].mode), fallback).Ok?
  }

  /** A shared copy of contiguous `d` part-way through: the copy `dst` is
      contiguous on the original's names, every index still to be read lies
      at or above the name written next, and the files the original holds
      from there on are untouched. */
  predicate Ahead(d: Disk, store: seq<Blob>, idx: seq<int>, dst: seq<Handle>)
  {
    && Contiguous(d) && |store| == |d.store| && Contiguous(Disk(d.dir, store, dst))
    && |dst| + |idx| <= |d.files|
    && (forall k :: 0 <= k < |idx| ==> |dst| + k <= idx[k] < |d.files|)
    && (forall i :: |dst| <= i < |d.files| ==> store[d.files[i].file] == d.store[d.files[i].file])
  }

  lemma {:induction false} PickCons<T>(s: seq<T>, idx: seq<int>)
    requires idx != [] && forall k :: 0 <= k < |idx| ==> 0 <= idx[k] < |s|
    ensures Pick(s, idx) == [s[idx[0]]] + Pick(s, idx[1..])
  {
  }

  /** Appending to a contiguous client whose next name already exists
      empties and refills that name's file in place. */
  lemma {:induction false} AppendInPlace(dir: map<int, FileId>, store: seq<Blob>, dst: seq<Handle>, p: Payload, fallback: bool)
    requires Contiguous(Disk(dir, store, dst)) && |dst| in dir
    requires PersistentWriteMode(p.kind, fallback).Ok?
    ensures var m := |dst|; var h := Handle(m, dir[m], PersistentWriteMode(p.kind, fallback).value, true);
      && InsertSpec(Disk(dir, store, dst), m, p, fallback) == Run(Disk(dir, store[dir[m] := p.data], dst + [h]), Done)
      && Contiguous(Disk(dir, store[dir[m] := p.data], dst + [h]))
      && Contents(Disk(dir, store[dir[m] := p.data], dst + [h])) == Contents(Disk(dir, store, dst)) + [p]
  {
    var m := |dst|;
    WriteEffect(dir, store, m, p, fallback);
    var w := WriteFile(dir, store, m, p, fallback);
    assert w.dir == dir;
    var d' := Disk(dir, store[dir[m] := p.data], dst + [w.handle.value]);
    forall j | 0 <= j < m
      ensures dst[j].file == dir[j] != dir[m]
    {
    }
    assert Contiguous(d');
    assert ReadKind(w.handle.value.mode) == p.kind;
    assert Contents(d') == Contents(Disk(dir, store, dst)) + [p];
  }

  /** One read-and-append step of the shared copy: the read sees the
      original data because nothing at or above |dst| was written yet, and
      the write empties and refills the original's file |dst| in place. */
  lemma {:induction false} CopySharedStep(d: Disk, store: seq<Blob>, idx: seq<int>, dst: seq<Handle>, fallback: bool) returns (r1: Run)
    requires Ahead(d, store, idx, dst) && Writable(d, fallback) && idx != []
    ensures r1 == InsertSpec(Disk(d.dir, store, dst), |dst|, Contents(d)[idx[0]], fallback)
    ensures r1.out == Done && r1.disk.dir == d.dir && |r1.disk.files| == |dst| + 1 && r1.disk.files[..|dst|] == dst
    ensures r1.disk.store == store[d.dir[|dst|] := d.store[d.dir[idx[0]]]]
    ensures Ahead(d, r1.disk.store, idx[1..], r1.disk.files)
    ensures Contents(r1.disk) == Contents(Disk(d.dir, store, dst)) + [Contents(d)[idx[0]]]
    ensures CopyShared(d.dir, store, d.files, idx, dst, fallback)
         == CopyShared(d.dir, r1.disk.store, d.files, idx[1..], r1.disk.files, fallback)
  {
    var n, m := |d.files|, |dst|;
    var p := Contents(d)[idx[0]];
    assert d.files[idx[0]].file == d.dir[idx[0]];
    assert ReadHandle(store, d.files[idx[0]]) == Ok(p);
    assert d.files[m].name == m && d.files[m].file == d.dir[m];
    AppendInPlace(d.dir, store, dst, p, fallback);
    r1 := InsertSpec(Disk(d.dir, store, dst), m, p, fallback);
    forall i | m + 1 <= i < n
      ensures r1.disk.store[d.files[i].file] == d.store[d.files[i].file]
    {
      assert d.files[i].file == d.dir[i] != d.dir[m];
    }
    assert Ahead(d, r1.disk.store, idx[1..], r1.disk.files);
  }

  /** The slice copy as written, while every index still to be read is at or
      above the name about to be written: each read sees original data, and
      the names stay the original's. */
  lemma {:induction false} CopySharedAhead(d: Disk, store: seq<Blob>, idx: seq<int>, dst: seq<Handle>, fallback: bool)
    requires Ahead(d, store, idx, dst) && Writable(d, fallback)
    ensures var r := CopyShared(d.dir, store, d.files, idx, dst, fallback);
      && r.out == Done && Contiguous(r.disk) && r.disk.dir == d.dir
      && |r.disk.store| == |store| && |r.disk.files| == |dst| + |idx|
      && Contents(r.disk) == Contents(Disk(d.dir, store, dst)) + Pick(Contents(d), idx)
    decreases |idx|
  {
    if idx != [] {
      var r1 := CopySharedStep(d, store, idx, dst, fallback);
      CopySharedAhead(d, r1.disk.store, idx[1..], r1.disk.files, fallback);
      var rest := CopyShared(d.dir, r1.disk.store, d.files, idx[1..], r1.disk.files, fallback);
      var head, tail := Contents(Disk(d.dir, store, dst)), Pick(Contents(d), idx[1..]);
      var x := Contents(d)[idx[0]];
      PickCons(Contents(d), idx);
      assert Contents(rest.disk) == head + [x] + tail;
      SeqAssoc(head, [x], tail);
    }
  }

  /** The same copy leaves the files of the names below |dst| untouched. */
  lemma {:induction false} CopySharedKeeps(d: Disk, store: seq<Blob>, idx: seq<int>, dst: seq<Handle>, fallback: bool)
    requires Ahead(d, store, idx, dst) && Writable(d, fallback)
    ensures var r := CopyShared(d.dir, store, d.files, idx, dst, fallback);
      && |r.disk.store| == |store|
      && forall j :: 0 <= j < |dst| ==> r.disk.store[dst[j].file] == store[dst[j].file]
    decreases |idx|
  {
    if idx != [] {
      var r1 := CopySharedStep(d, store, idx, dst, fallback);
      CopySharedKeeps(d, r1.disk.store, idx[1..], r1.disk.files, fallback);
      forall j | 0 <= j < |dst|
        ensures dst[j].file != d.dir[|dst|] && r1.disk.files[j] == dst[j]
      {
        assert dst[j].file == d.dir[j];
      }
    }
  }

  /** What the same copy writes into the shared directory: the files of the
      names from |dst| on hold the selected data. */
  lemma {:induction false} CopySharedWrites(d: Disk, store: seq<Blob>, idx: seq<int>, dst: seq<Handle>, fallback: bool)
    requires Ahead(d, store, idx, dst) && Writable(d, fallback)
    ensures var r := CopyShared(d.dir, store, d.files, idx, dst, fallback);
      && |r.disk.store| == |store|
      && forall k :: 0 <= k < |idx| ==> r.disk.store[d.files[|dst| + k].file] == d.store[d.files[idx[k]].file]
    decreases |idx|
  {
    if idx != [] {
      var m := |dst|;
      var r1 := CopySharedStep(d, store, idx, dst, fallback);
      CopySharedKeeps(d, r1.disk.store, idx[1..], r1.disk.files, fallback);
      CopySharedWrites(d, r1.disk.store, idx[1..], r1.disk.files, fallback);
      var rest := CopyShared(d.dir, r1.disk.store, d.files, idx[1..], r1.disk.files, fallback);
      forall k | 0 <= k < |idx|
        ensures rest.disk.store[d.files[m + k].file] == d.store[d.files[idx[k]].file]
      {
        if k == 0 {
          assert r1.disk.files[m].file == d.dir[m] == d.files[m].file;
        } else {
          assert idx[1..][k - 1] == idx[k];
        }
      }
    }
  }

  lemma {:induction false} RangeAtLeast(start: int, stop: int, step: int, base: int)
    requires step >= 1 && start >= base
    ensures forall k :: 0 <= k < |Range(start, stop, step)| ==> Range(start, stop, step)[k] >= base + k
    decreases stop - start
  {
    if start < stop {
      RangeAtLeast(start + step, stop, step, base + 1);
    }
  }

  /** Slicing a persistent client with a positive step, as written: the new
      client holds the selected payloads, but it wrote them into the files
      the original holds, so afterwards the original's position k reads the
      data of position idx[k]. */
  lemma {:induction false} SliceForwardOverwrites(d: Disk, sl: Slice, fallback: bool)
    requires Contiguous(d) && Writable(d, fallback)
    requires sl.step.None? || sl.step.value >= 1
    ensures var idx := SliceIndices(sl, |d.files|).value;
      var r := CopyShared(d.dir, d.store, d.files, idx, [], fallback);
      && r.out == Done && Contiguous(r.disk) && r.disk.dir == d.dir
      && Contents(r.disk) == Pick(Contents(d), idx) && |idx| <= |d.files|
      && forall k :: 0 <= k < |idx| ==>
           GetSpec(d.(store := r.disk.store), k) == Ok(ReadAs(d.files[k].mode, Contents(d)[idx[k]].data))
  {
    var idx := ForwardIndices(d, sl);
    CopyFromStart(d, idx, fallback);
    var r := CopyShared(d.dir, d.store, d.files, idx, [], fallback);
    OriginalReads(d, r.disk.store, idx);
  }

  /** A shared copy into an empty client, every index ahead: the copy holds
      the selected items, and the original's file k now holds item idx[k]. */
  lemma {:induction false} CopyFromStart(d: Disk, idx: seq<int>, fallback: bool)
    requires Ahead(d, d.store, idx, []) && Writable(d, fallback)
    ensures var r := CopyShared(d.dir, d.store, d.files, idx, [], fallback);
      && r.out == Done && Contiguous(r.disk) && r.disk.dir == d.dir && |r.disk.store| == |d.store|
      && Contents(r.disk) == Pick(Contents(d), idx)
      && forall k :: 0 <= k < |idx| ==> r.disk.store[d.files[k].file] == d.store[d.files[idx[k]].file]
  {
    CopySharedAhead(d, d.store, idx, [], fallback);
    CopySharedWrites(d, d.store, idx, [], fallback);
    assert Contents(Disk(d.dir, d.store, [])) == [];
    var r := CopyShared(d.dir, d.store, d.files, idx, [], fallback);
    var empty: seq<Handle> := [];
    forall k | 0 <= k < |idx|
      ensures r.disk.store[d.files[k].file] == d.store[d.files[idx[k]].file]
    {
      assert |empty| + k == k;
    }
  }

  /** The original client reading through its own handles once a copy has
      put the data of position idx[k] into its file k. */
  lemma {:induction false} OriginalReads(d: Disk, store: seq<Blob>, idx: seq<int>)
    requires Contiguous(d) && |store| == |d.store| && |idx| <= |d.files|
    requires forall k :: 0 <= k < |idx| ==> 0 <= idx[k] < |d.files|
    requires forall k :: 0 <= k < |idx| ==> store[d.files[k].file] == d.store[d.files[idx[k]].file]
    ensures forall k :: 0 <= k < |idx| ==>
      GetSpec(d.(store := store), k) == Ok(ReadAs(d.files[k].mode, Contents(d)[idx[k]].data))
  {
    forall k | 0 <= k < |idx|
      ensures GetSpec(d.(store := store), k) == Ok(ReadAs(d.files[k].mode, Contents(d)[idx[k]].data))
    {
      assert d.files[idx[k]].file == d.dir[idx[k]];
      assert ItemIndex(k, |d.files|) == Some(k);
    }
  }

  /** A positive step selects each index at or above its own rank, which is
      where a shared copy starts. */
  lemma {:induction false} ForwardIndices(d: Disk, sl: Slice) returns (idx: seq<int>)
    requires Contiguous(d) && (sl.step.None? || sl.step.value >= 1)
    ensures SliceIndices(sl, |d.files|) == Ok(idx) && Ahead(d, d.store, idx, [])
  {
    var n := |d.files|;
    var step := if sl.step.None? then 1 else sl.step.value;
    var start := Bound(sl.start, 0, 0, n, n);
    var stop := Bound(sl.stop, n, 0, n, n);
    idx := SliceIndices(sl, n).value;
    assert idx == Range(start, stop, step);
    RangeAtLeast(start, stop, step, 0);
    if idx != [] {
      assert idx[|idx| - 1] >= |idx| - 1;
    }
  }

  lemma {:induction false} ReversedFirstStep(a: Blob, b: Blob, c: Blob)
    ensures var d := ThreeFiles(a, b, c);
      CopyShared(d.dir, d.store, d.files, [2, 1, 0], [], true)
      == CopyShared(d.dir, [c, b, c], d.files, [1, 0], [Handle(0, 0, WPlus, true)], true)
  {
    var d := ThreeFiles(a, b, c);
    assert [2, 1, 0][1..] == [1, 0];
    assert WriteFile(d.dir, d.store, 0, Payload(Text, c), true) == Written(d.dir, [c, b, c], Ok(Handle(0, 0, WPlus, true)));
  }

  lemma {:induction false} ReversedSecondStep(a: Blob, b: Blob, c: Blob)
    ensures var d := ThreeFiles(a, b, c);
      CopyShared(d.dir, [c, b, c], d.files, [1, 0], [Handle(0, 0, WPlus, true)], true)
      == CopyShared(d.dir, [c, b, c], d.files, [0], [Handle(0, 0, WPlus, true), Handle(1, 1, WPlus, true)], true)
  {
    var d := ThreeFiles(a, b, c);
    assert [1, 0][1..] == [0];
    assert WriteFile(d.dir, [c, b, c], 1, Payload(Text, b), true) == Written(d.dir, [c, b, c], Ok(Handle(1, 1, WPlus, true)));
  }

  lemma {:induction false} ReversedLastStep(a: Blob, b: Blob, c: Blob)
    ensures var d := ThreeFiles(a, b, c);
      CopyShared(d.dir, [c, b, c], d.files, [0], [Handle(0, 0, WPlus, true), Handle(1, 1, WPlus, true)], true)
      == Run(Disk(d.dir, [c, b, c], d.files), Done)
  {
    var d := ThreeFiles(a, b, c);
    assert [0][1..] == [];
    assert WriteFile(d.dir, [c, b, c], 2, Payload(Text, c), true) == Written(d.dir, [c, b, c], Ok(Handle(2, 2, WPlus, true)));
  }

  /** Any three contents under ThreeFiles' names and handles form a
      contiguous client. */
  lemma {:induction false} ThreeFilesContiguous(a: Blob, b: Blob, c: Blob, store: seq<Blob>)
    requires |store| == 3
    ensures var d := ThreeFiles(a, b, c);
      && Contiguous(d.(store := store))
      && Contents(d.(store := store)) == [Payload(Text, store[0]), Payload(Text, store[1]), Payload(Text, store[2])]
  {
    var d := ThreeFiles(a, b, c);
    assert forall name | name in d.dir :: d.dir[name] == name;
  }

  /** `client[::-1]` on a persistent client holding a, b, c (as written): the
      copy reads c, b, c instead of c, b, a, because file 0 was rewritten with
      c before it was read for the last element; the copy's handles are the
      original's files, so the original reads c, b, c as well.
      ReversedIndices gives the indices [2, 1, 0] of the slice. */
  lemma {:induction false} SliceReversedExample(a: Blob, b: Blob, c: Blob)
    requires a != c
    ensures var d := ThreeFiles(a, b, c);
      && Pick(Contents(d), [2, 1, 0]) == [Payload(Text, c), Payload(Text, b), Payload(Text, a)]
      && var r := CopyShared(d.dir, d.store, d.files, [2, 1, 0], [], true);
         && r.out == Done && Contiguous(r.disk)
         && Contents(r.disk) == [Payload(Text, c), Payload(Text, b), Payload(Text, c)]
         && Contents(r.disk) != Pick(Contents(d), [2, 1, 0])
         && r.disk == d.(store := r.disk.store)
  {
    var d := ThreeFiles(a, b, c);
    ReversedRun(a, b, c);
    ReversedPick(a, b, c);
    ThreeFilesContiguous(a, b, c, [c, b, c]);
    var r := CopyShared(d.dir, d.store, d.files, [2, 1, 0], [], true);
    assert r.disk == d.(store := [c, b, c]);
    assert Contents(r.disk)[2] != Pick(Contents(d), [2, 1, 0])[2];
  }

  /** The three steps of the reversed copy together. */
  lemma {:induction false} ReversedRun(a: Blob, b: Blob, c: Blob)
    ensures var d := ThreeFiles(a, b, c);
      CopyShared(d.dir, d.store, d.files, [2, 1, 0], [], true) == Run(d.(store := [c, b, c]), Done)
  {
    ReversedFirstStep(a, b, c);
    ReversedSecondStep(a, b, c);
    ReversedLastStep(a, b, c);
  }

  /** What the reversed slice should hold: c, b, a. */
  lemma {:induction false} ReversedPick(a: Blob, b: Blob, c: Blob)
    ensures var d := ThreeFiles(a, b, c);
      Pick(Contents(d), [2, 1, 0]) == [Payload(Text, c), Payload(Text, b), Payload(Text, a)]
  {
    var d := ThreeFiles(a, b, c);
    ThreeFilesContiguous(a, b, c, [a, b, c]);
    assert d.(store := [a, b, c]) == d;
    var want := [Payload(Text, c), Payload(Text, b), Payload(Text, a)];
    var got := Pick(Contents(d), [2, 1, 0]);
    assert got[0] == want[0] && got[1] == want[1] && got[2] == want[2];
  }

  /** The indices of `[::-1]` on three values. */
  lemma {:induction false} ReversedIndices()
    ensures SliceIndices(Slice(None, None, Some(-1)), 3) == Ok([2, 1, 0])
  {
    assert Range(2, -1, -1) == [2, 1, 0];
  }

  /** The intended slice: read from the original, write into a new,
      separate directory. */
  function CopyFresh(src: Disk, idx: seq<int>, dst: Disk, fallback: bool): Run
    requires forall k :: 0 <= k < |idx| ==> 0 <= idx[k] < |src.files|
    decreases |idx|
  {
    if idx == [] then Run(dst, Done)
    else
      match ReadHandle(src.store, src.files[idx[0]])
      case Err(e) => Run(dst, Fail(e))
      case Ok(p) =>
        var r := InsertSpec(dst, |dst.files|, p, fallback);
        if r.out.Fail? then r
        else CopyFresh(src, idx[1..], r.disk, fallback)
  }

  /** Copying into a separate directory gives exactly the selected payloads,
      for every index sequence, and cannot touch the original. */
  lemma {:induction false} CopyFreshCorrect(src: Disk, idx: seq<int>, dst: Disk, fallback: bool)
    requires Contiguous(src) && Writable(src, fallback) && Contiguous(dst)
    requires forall k :: 0 <= k < |idx| ==> 0 <= idx[k] < |src.files|
    ensures var r := CopyFresh(src, idx, dst, fallback);
      && r.out == Done && Contiguous(r.disk)
      && Contents(r.disk) == Contents(dst) + Pick(Contents(src), idx)
    decreases |idx|
  {
    if idx != [] {
      var r1 := CopyFreshStep(src, idx, dst, fallback);
      CopyFreshCorrect(src, idx[1..], r1.disk, fallback);
      var rest := CopyFresh(src, idx[1..], r1.disk, fallback);
      var head, tail := Contents(dst), Pick(Contents(src), idx[1..]);
      var x := Contents(src)[idx[0]];
      PickCons(Contents(src), idx);
      assert Contents(rest.disk) == head + [x] + tail;
      assert [x] + tail == Pick(Contents(src), idx);
      SeqAssoc(head, [x], tail);
      assert Contents(rest.disk) == head + Pick(Contents(src), idx);
    }
  }

  lemma {:induction false} SeqAssoc<T>(a: seq<T>, b: seq<T>, c: seq<T>)
    ensures a + b + c == a + (b + c)
  {
  }

  /** One read-and-append step of the fresh copy. */
  lemma {:induction false} CopyFreshStep(src: Disk, idx: seq<int>, dst: Disk, fallback: bool) returns (r1: Run)
    requires Contiguous(src) && Writable(src, fallback) && Contiguous(dst)
    requires idx != [] && forall k :: 0 <= k < |idx| ==> 0 <= idx[k] < |src.files|
    ensures r1.out == Done && Contiguous(r1.disk)
    ensures Contents(r1.disk) == Contents(dst) + [Contents(src)[idx[0]]]
    ensures CopyFresh(src, idx, dst, fallback) == CopyFresh(src, idx[1..], r1.disk, fallback)
  {
    var p := Contents(src)[idx[0]];
    assert ReadHandle(src.store, src.files[idx[0]]) == Ok(p);
    InsertPastEnd(dst, |dst.files|, p, fallback);
    r1 := InsertSpec(dst, |dst.files|, p, fallback);
  }
}
