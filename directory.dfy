/** The on-disk side of the persistent clients: a directory whose file names
    are decimal positions, the files those names lead to, the handle list a
    client keeps on them, and the rename and reopen loops that renumber the
    files on insert and delete. Each loop is specified by a recursive
    function that takes the same steps in the same order; the methods below
    are proved to compute exactly that. */
module Directories {
  import opened Common
  import opened PyLists
  import opened Payloads

  /** A file's identity, independent of the names that lead to it: an index
      into the store of file contents. */
  type FileId = nat

  /** A directory on disk. `get_file_path(i)` is `<dir>/<i>`, so a name is an
      integer; `entries` maps it to the file it currently leads to. `store`
      holds the content of every file created so far, by identity: a file
      that lost its name to `os.rename` or `os.remove` still exists for the
      handles open on it. The directory is an object because two clients
      may share it. */
  class Directory {
    var entries: map<int, FileId>
    var store: seq<Blob>

    constructor (entries: map<int, FileId>, store: seq<Blob>)
      ensures this.entries == entries && this.store == store
    {
      this.entries := entries;
      this.store := store;
    }
  }

  /** A file object: the name it was opened on, the file it holds, its mode,
      and whether it is still open. */
  datatype Handle = Handle(name: int, file: FileId, mode: Mode, open: bool)

  /** What a persistent client acts on: the directory, its files and
      `self.__files`. */
  datatype Disk = Disk(dir: map<int, FileId>, store: seq<Blob>, files: seq<Handle>)

  /** A state together with the outcome of the steps that led to it. */
  datatype Run = Run(disk: Disk, out: Outcome)

  /** The directory and files after opening a name for writing, and the handle. */
  datatype Written = Written(dir: map<int, FileId>, store: seq<Blob>, handle: Result<Handle>)

  /** `seek(0); read()` on a handle reads the file it holds, whatever name
      leads there now; a closed file raises ValueError. A handle on a file
      the store does not hold arises from no operation (see
      DirectoryLemmas.GetSound) and is reported as FileNotFoundError. */
  function ReadHandle(store: seq<Blob>, h: Handle): Result<Payload>
  {
    if !h.open then Err(ValueError)
    else if h.file >= |store| then Err(FileNotFoundError)
    else Ok(ReadAs(h.mode, store[h.file]))
  }

  /** `os.rename(from, to)`: `to` now leads to the file `from` led to, and
      the file `to` led to loses that name (POSIX). */
  function Rename(dir: map<int, FileId>, from: int, to: int): Result<map<int, FileId>>
  {
    if from !in dir then Err(FileNotFoundError)
    else Ok((dir - {from})[to := dir[from]])
  }

  function Close(files: seq<Handle>, i: nat): (r: seq<Handle>)
    requires i < |files|
    ensures |r| == |files|
  {
    files[i := files[i].(open := false)]
  }

  /** The first position a loop with skip bound `index` touches. */
  function Lo(index: int): nat
  {
    if index < 0 then 0 else index
  }

  /** The write mode of the persistent clients is "w+"; with `fallback` (the
      current `safe_write`) "w+b" is tried next, without it (the legacy
      client) the TypeError propagates at once. */
  function PersistentWriteMode(k: Kind, fallback: bool): (r: Result<Mode>)
    ensures r.Ok? <==> k == Text || (fallback && k == Binary)
    ensures r.Ok? ==> IsWriteMode(r.value) && ReadKind(r.value) == k
    ensures r.Err? ==> r.error == TypeError
  {
    if fallback then WriteModeFor(WPlus, k)
    else if Accepts(WPlus, k) then Ok(WPlus)
    else Err(TypeError)
  }

  /** The file `open(path, "w+")` writes: the one `name` already leads to, or
      a new one at the end of the store. */
  function Target(dir: map<int, FileId>, store: seq<Blob>, name: int): (id: FileId)
    ensures id <= |store|
  {
    if name in dir && dir[name] < |store| then dir[name] else |store|
  }

  /** The store with file `id`, an existing file or the next new one, holding
      `data`. */
  function Put(store: seq<Blob>, id: FileId, data: Blob): (r: seq<Blob>)
    requires id <= |store|
    ensures |r| == if id == |store| then |store| + 1 else |store|
    ensures r[id] == data
    ensures forall j :: 0 <= j < |store| && j != id ==> r[j] == store[j]
  {
    if id == |store| then store + [data] else store[id := data]
  }

  /** `open(path, mode)` truncates the file in place, so every handle on it
      sees the write, or creates it; `write` may then raise TypeError, which
      leaves the file empty. */
  function WriteFile(dir: map<int, FileId>, store: seq<Blob>, name: int, p: Payload, fallback: bool): Written
  {
    var id := Target(dir, store, name);
    match PersistentWriteMode(p.kind, fallback)
    case Err(e) => Written(dir[name := id], Put(store, id, []), Err(e))
    case Ok(m) => Written(dir[name := id], Put(store, id, p.data), Ok(Handle(name, id, m, true)))
  }

  /** Insert's rename loop: for i from len-1 down to 0, skipping i < index,
      close files[i] and rename i to i+1. */
  function ShiftUp(d: Disk, index: int, i: int): (r: Run)
    requires -1 <= i < |d.files|
    ensures |r.disk.files| == |d.files| && r.disk.store == d.store
    decreases i + 1
  {
    if i < 0 then Run(d, Done)
    else if i < index then ShiftUp(d, index, i - 1)
    else
      var files := Close(d.files, i);
      match Rename(d.dir, i, i + 1)
      case Err(e) => Run(d.(files := files), Fail(e))
      case Ok(dir) => ShiftUp(d.(dir := dir, files := files), index, i - 1)
  }

  /** Delete's rename loop: for i from len-1 down to 0, skipping i < index,
      close files[i] and rename i+1 to i (descending, as written). */
  function ShiftDown(d: Disk, index: int, i: int): (r: Run)
    requires -1 <= i < |d.files|
    ensures |r.disk.files| == |d.files| && r.disk.store == d.store
    decreases i + 1
  {
    if i < 0 then Run(d, Done)
    else if i < index then ShiftDown(d, index, i - 1)
    else
      var files := Close(d.files, i);
      match Rename(d.dir, i + 1, i)
      case Err(e) => Run(d.(files := files), Fail(e))
      case Ok(dir) => ShiftDown(d.(dir := dir, files := files), index, i - 1)
  }

  /** The reopen loop: for i from 0 up, skipping i < first, replace files[i]
      by `open(get_file_path(i), "r+")`, a handle on the file name i leads to. */
  function Reopen(d: Disk, first: int, i: nat): (r: Run)
    requires i <= |d.files|
    ensures |r.disk.files| == |d.files| && r.disk.dir == d.dir && r.disk.store == d.store
    decreases |d.files| - i
  {
    if i == |d.files| then Run(d, Done)
    else if i < first then Reopen(d, first, i + 1)
    else if i !in d.dir then Run(d, Fail(FileNotFoundError))
    else Reopen(d.(files := d.files[i := Handle(i, d.dir[i], RPlus, true)]), first, i + 1)
  }

  /** `client[index]`. */
  function GetSpec(d: Disk, index: int): Result<Payload>
  {
    match ItemIndex(index, |d.files|)
    case None => Err(IndexError)
    case Some(k) => ReadHandle(d.store, d.files[k])
  }

  /** `client[index] = p`: the file named by the raw index is written first,
      then the handle list is indexed. */
  function SetSpec(d: Disk, index: int, p: Payload, fallback: bool): Run
  {
    var w := WriteFile(d.dir, d.store, index, p, fallback);
    match w.handle
    case Err(e) => Run(Disk(w.dir, w.store, d.files), Fail(e))
    case Ok(h) =>
      match ItemIndex(index, |d.files|)
      case None => Run(Disk(w.dir, w.store, d.files), Fail(IndexError))
      case Some(k) => Run(Disk(w.dir, w.store, d.files[k := h]), Done)
  }

  /** `client.insert(index, p)`: past the end, a file named `index` is
      appended; otherwise rename up, write `index`, `list.insert` the handle
      and reopen every later position in "r+". */
  function InsertSpec(d: Disk, index: int, p: Payload, fallback: bool): Run
  {
    if index >= |d.files| then
      var w := WriteFile(d.dir, d.store, index, p, fallback);
      match w.handle
      case Err(e) => Run(Disk(w.dir, w.store, d.files), Fail(e))
      case Ok(h) => Run(Disk(w.dir, w.store, d.files + [h]), Done)
    else
      var r1 := ShiftUp(d, index, |d.files| - 1);
      if r1.out.Fail? then r1
      else
        var w := WriteFile(r1.disk.dir, r1.disk.store, index, p, fallback);
        match w.handle
        case Err(e) => Run(Disk(w.dir, w.store, r1.disk.files), Fail(e))
        case Ok(h) =>
          var files := PyLists.Insert(r1.disk.files, InsertIndex(index, |r1.disk.files|), h);
          Reopen(Disk(w.dir, w.store, files), index + 1, 0)
  }

  /** `del client[index]`: drop the handle, remove the name it was opened on,
      rename down and reopen every position from `index` in "r+". The reopen
      loop calls `seek(0)` on the removed handle before its first `open`, so
      when some position is reopened and that handle is closed, it raises
      ValueError there. */
  function DeleteSpec(d: Disk, index: int): Run
  {
    match ItemIndex(index, |d.files|)
    case None => Run(d, Fail(IndexError))
    case Some(k) =>
      var h := d.files[k];
      var files := Remove(d.files, k);
      if h.name !in d.dir then Run(d.(files := files), Fail(FileNotFoundError))
      else
        var r1 := ShiftDown(Disk(d.dir - {h.name}, d.store, files), index, |files| - 1);
        if r1.out.Fail? then r1
        else if Lo(index) < |files| && !h.open then Run(r1.disk, Fail(ValueError))
        else Reopen(r1.disk, index, 0)
  }

  /** Every name leads to a file in the store, and no two names to the same
      file. */
  predicate Linked(dir: map<int, FileId>, store: seq<Blob>)
  {
    && (forall name | name in dir :: dir[name] < |store|)
    && (forall a, b | a in dir && b in dir && a != b :: dir[a] != dir[b])
  }

  /** Linked, and every handle holds a file in the store: what every
      operation keeps (DirectoryLemmas.SetSound and its neighbours). */
  predicate Sound(d: Disk)
  {
    Linked(d.dir, d.store) && forall i | 0 <= i < |d.files| :: d.files[i].file < |d.store|
  }

  /** Every handle is open on the file its position names: the state the
      clients are meant to keep. */
  predicate Contiguous(d: Disk)
  {
    && Linked(d.dir, d.store)
    && forall i | 0 <= i < |d.files| ::
         d.files[i].name == i && d.files[i].open && i in d.dir && d.files[i].file == d.dir[i]
  }

  /** What each name reads as: the content of the file it leads to. */
  function View(dir: map<int, FileId>, store: seq<Blob>): (r: map<int, Blob>)
    ensures forall name :: name in r <==> name in dir && dir[name] < |store|
  {
    map name | name in dir && dir[name] < |store| :: store[dir[name]]
  }

  /** The payloads a contiguous client reads back, in positional order. */
  function Contents(d: Disk): (r: seq<Payload>)
    requires Contiguous(d)
    ensures |r| == |d.files|
    ensures forall i :: 0 <= i < |d.files| ==> GetSpec(d, i) == Ok(r[i])
  {
    seq(|d.files|, i requires 0 <= i < |d.files| => ReadAs(d.files[i].mode, d.store[d.dir[i]]))
  }

  /** `ps` as read after every position from `from` on was reopened in "r+". */
  function Reopened(ps: seq<Payload>, from: int): (r: seq<Payload>)
    ensures |r| == |ps|
    ensures forall i :: 0 <= i < |ps| && i < from ==> r[i] == ps[i]
    ensures forall i :: 0 <= i < |ps| && from <= i ==> r[i] == Payload(Text, ps[i].data)
  {
    seq(|ps|, i requires 0 <= i < |ps| => if i < from then ps[i] else Payload(Text, ps[i].data))
  }

  /** Slicing a persistent client: a new client on the SAME directory is
      filled by appending `src[i]` for each i of `idx`, each read happening
      just before its write; the state is the shared directory, its files
      and the new client's handles. */
  function CopyShared(dir: map<int, FileId>, store: seq<Blob>, src: seq<Handle>, idx: seq<int>, dst: seq<Handle>, fallback: bool): Run
    requires forall k :: 0 <= k < |idx| ==> 0 <= idx[k] < |src|
    decreases |idx|
  {
    if idx == [] then Run(Disk(dir, store, dst), Done)
    else
      match ReadHandle(store, src[idx[0]])
      case Err(e) => Run(Disk(dir, store, dst), Fail(e))
      case Ok(p) =>
        var r := InsertSpec(Disk(dir, store, dst), |dst|, p, fallback);
        if r.out.Fail? then r
        else CopyShared(r.disk.dir, r.disk.store, src, idx[1..], r.disk.files, fallback)
  }

  /** `safe_write` (or the legacy plain write) on the directory object:
      `open` empties or creates the file, then `write` fills it. */
  method WriteTo(dir: Directory, name: int, p: Payload, fallback: bool) returns (h: Result<Handle>)
    modifies dir
    ensures Written(dir.entries, dir.store, h) == WriteFile(old(dir.entries), old(dir.store), name, p, fallback)
  {
    var m: Result<Mode>;
    if fallback {
      m := SafeWriteMode(WPlus, p.kind);
    } else if Accepts(WPlus, p.kind) {
      m := Ok(WPlus);
    } else {
      m := Err(TypeError);
    }
    var id := |dir.store|;
    if name in dir.entries && dir.entries[name] < |dir.store| {
      id := dir.entries[name];
      dir.store := dir.store[id := []];
    } else {
      dir.store := dir.store + [[]];
    }
    dir.entries := dir.entries[name := id];
    if m.Err? {
      return Err(m.error);
    }
    dir.store := dir.store[id := p.data];
    return Ok(Handle(name, id, m.value, true));
  }

  /** Insert's descending rename loop, on the directory object. */
  method ShiftUpLoop(dir: Directory, files: seq<Handle>, index: int) returns (files': seq<Handle>, out: Outcome)
    modifies dir
    ensures Run(Disk(dir.entries, dir.store, files'), out) == ShiftUp(Disk(old(dir.entries), old(dir.store), files), index, |files| - 1)
  {
    files' := files;
    var i := |files| - 1;
    while i >= 0
      invariant -1 <= i < |files| && |files'| == |files|
      invariant ShiftUp(Disk(dir.entries, dir.store, files'), index, i) == ShiftUp(Disk(old(dir.entries), old(dir.store), files), index, |files| - 1)
    {
      if i >= index {
        files' := Close(files', i);
        var renamed := Rename(dir.entries, i, i + 1);
        if renamed.Err? {
          return files', Fail(renamed.error);
        }
        dir.entries := renamed.value;
      }
      i := i - 1;
    }
    out := Done;
  }

  /** Delete's descending rename loop, on the directory object. */
  method ShiftDownLoop(dir: Directory, files: seq<Handle>, index: int) returns (files': seq<Handle>, out: Outcome)
    modifies dir
    ensures Run(Disk(dir.entries, dir.store, files'), out) == ShiftDown(Disk(old(dir.entries), old(dir.store), files), index, |files| - 1)
  {
    files' := files;
    var i := |files| - 1;
    while i >= 0
      invariant -1 <= i < |files| && |files'| == |files|
      invariant ShiftDown(Disk(dir.entries, dir.store, files'), index, i) == ShiftDown(Disk(old(dir.entries), old(dir.store), files), index, |files| - 1)
    {
      if i >= index {
        files' := Close(files', i);
        var renamed := Rename(dir.entries, i + 1, i);
        if renamed.Err? {
          return files', Fail(renamed.error);
        }
        dir.entries := renamed.value;
      }
      i := i - 1;
    }
    out := Done;
  }

  /** The reopen loop; it only reads the directory. */
  method ReopenLoop(dir: Directory, files: seq<Handle>, first: int) returns (files': seq<Handle>, out: Outcome)
    ensures Run(Disk(dir.entries, dir.store, files'), out) == Reopen(Disk(dir.entries, dir.store, files), first, 0)
  {
    files' := files;
    var i := 0;
    while i < |files'|
      invariant 0 <= i <= |files'| == |files|
      invariant Reopen(Disk(dir.entries, dir.store, files'), first, i) == Reopen(Disk(dir.entries, dir.store, files), first, 0)
    {
      if i >= first {
        if i !in dir.entries {
          return files', Fail(FileNotFoundError);
        }
        files' := files'[i := Handle(i, dir.entries[i], RPlus, true)];
      }
      i := i + 1;
    }
    out := Done;
  }

  /** `client[index]` on a handle list over the directory object. */
  method ReadAt(dir: Directory, files: seq<Handle>, index: int) returns (r: Result<Payload>)
    ensures r == GetSpec(Disk(dir.entries, dir.store, files), index)
  {
    var k := ItemIndex(index, |files|);
    if k.None? {
      return Err(IndexError);
    }
    var h := files[k.value];
    if !h.open {
      return Err(ValueError);
    }
    if h.file >= |dir.store| {
      return Err(FileNotFoundError);
    }
    return Ok(ReadAs(h.mode, dir.store[h.file]));
  }

  /** `client[index] = p` on a handle list over the directory object. */
  method SetOn(dir: Directory, files: seq<Handle>, index: int, p: Payload, fallback: bool)
    returns (files': seq<Handle>, r: Outcome)
    modifies dir
    ensures Run(Disk(dir.entries, dir.store, files'), r) == SetSpec(Disk(old(dir.entries), old(dir.store), files), index, p, fallback)
  {
    files' := files;
    var h := WriteTo(dir, index, p, fallback);
    if h.Err? {
      return files', Fail(h.error);
    }
    var k := ItemIndex(index, |files|);
    if k.None? {
      return files', Fail(IndexError);
    }
    files' := files[k.value := h.value];
    r := Done;
  }

  /** `client.insert(index, p)` on a handle list over the directory object. */
  method InsertOn(dir: Directory, files: seq<Handle>, index: int, p: Payload, fallback: bool)
    returns (files': seq<Handle>, r: Outcome)
    modifies dir
    ensures Run(Disk(dir.entries, dir.store, files'), r) == InsertSpec(Disk(old(dir.entries), old(dir.store), files), index, p, fallback)
  {
    files' := files;
    if index >= |files| {
      var h := WriteTo(dir, index, p, fallback);
      if h.Err? {
        return files', Fail(h.error);
      }
      return files + [h.value], Done;
    }
    var out;
    files', out := ShiftUpLoop(dir, files, index);
    if out.Fail? {
      return files', out;
    }
    var h := WriteTo(dir, index, p, fallback);
    if h.Err? {
      return files', Fail(h.error);
    }
    files' := PyLists.Insert(files', InsertIndex(index, |files'|), h.value);
    files', r := ReopenLoop(dir, files', index + 1);
  }

  /** `del client[index]` on a handle list over the directory object. */
  method DeleteOn(dir: Directory, files: seq<Handle>, index: int) returns (files': seq<Handle>, r: Outcome)
    modifies dir
    ensures Run(Disk(dir.entries, dir.store, files'), r) == DeleteSpec(Disk(old(dir.entries), old(dir.store), files), index)
  {
    files' := files;
    var k := ItemIndex(index, |files|);
    if k.None? {
      return files', Fail(IndexError);
    }
    var h := files[k.value];
    files' := Remove(files, k.value);
    if h.name !in dir.entries {
      return files', Fail(FileNotFoundError);
    }
    dir.entries := dir.entries - {h.name};
    var out;
    files', out := ShiftDownLoop(dir, files', index);
    if out.Fail? {
      return files', out;
    }
    if Lo(index) < |files'| && !h.open {
      return files', Fail(ValueError);
    }
    files', r := ReopenLoop(dir, files', index);
  }
}
