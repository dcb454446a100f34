# python-disk-collections in Dafny

This project models python-disk-collections: lists and deques whose items
live in files rather than in memory. The model covers two generations of
the library.

**The current package** (`src/diskcollections/iterables`):

- *Clients* store one encoded item per file and behave as a sequence of
  payloads.
  - `TemporaryDirectoryClient` keeps anonymous temporary files in a list,
    in mode "w+b" or "w+". `safe_write` falls back to the other mode when
    the configured one rejects the payload.
  - `PersistentDirectoryClient` keeps one file per position in a named
    directory. A file's name is its position. The client renames and
    reopens files when items are inserted or deleted.
- *Containers* sit on top of a client and a serializer.
  - `List` is a `MutableSequence`.
  - `Deque` adds `maxlen`, `append`/`appendleft`, `pop`/`popleft`,
    `extend`/`extendleft`, `rotate`, `count` and pairwise comparisons.

**The legacy package** (`diskcollections`):

- the legacy temporary and persistent clients;
- `StringGenerator`, which hands out codes "a", "b", …, "Z", "aa", …
  per prefix;
- `TemporaryFileClient`, a key/value store with one file per key;
- `FileList`, a list of keys drawn from the generator, whose values live
  in that store.

## How the model is organised

| file | module | what it holds |
|---|---|---|
| `common.dfy` | `Common`, `PyLists` | error kinds and `Result`/`Option`/`Outcome`; Python list indexing, `list.insert`, `del`, reversal, `slice.indices` with `range`, and picking the items a slice selects |
| `payloads.dfy` | `Payloads` | payload kinds (`str`, bytes, other); file modes and which kinds they accept; `safe_write`'s mode choice; serializers and their round-trip law |
| `temporary_client.dfy` | `TemporaryClients` | the current `TemporaryDirectoryClient` as a class over a `seq` of temporary files |
| `directory.dfy` | `Directories` | a directory as a map from integer file name to file, and a store of file contents; the persistent client's open handles, each bound to a file; every rename, write and reopen loop as a method proved equal to a recursive function |
| `directory_lemmas.dfy` | `DirectoryLemmas` | what the persistent client's operations do to the list of items, including the places where they do not behave like a list, and corrected versions |
| `persistent_client.dfy` | `PersistentClients` | the current `PersistentDirectoryClient` as a class over a shared `Directory` object |
| `legacy_clients.dfy` | `LegacyClients` | the legacy clients |
| `deque_laws.dfy` | `DequeLaws` | the Deque operations as functions on sequences, with the `maxlen` window and rotation laws |
| `containers.dfy` | `Containers` | `List` and `Deque` as classes over a `TemporaryDirectoryClient` |
| `generators.dfy` | `Generators` | `StringGenerator`: letter and code successor, and the per-prefix code table |
| `file_clients.dfy` | `FileClients` | `TemporaryFileClient`: the key/value store with its set of text keys |
| `file_lists.dfy` | `FileLists` | `FileList` over `TemporaryFileClient` and `StringGenerator` |

**Classes and specification functions.** Every client and container is
a `class` whose fields are the ones the source mutates.

- Each method states its new state as a function of the old one. Some
  do so in closed form, for example a single-position update or
  `PyLists.Insert` of the old contents.
- Loops are proved against recursive specification functions or
  closed-form prefix invariants. The rename, reopen, rotation and Deque
  extend loops carry "what is left to do, applied to the current state,
  equals the whole operation applied to the initial state". The List and
  client extend loops and the scans (equality, slicing, counting) carry
  prefix invariants such as "the contents so far are the old contents
  plus the first i inputs".
- The lemmas are then proved about those functions.

**Payloads.** An encoded item is a `Payload`: its Python kind plus its
content as an abstract `Blob`.

- A file opened in "w+b" accepts only bytes; "w+" accepts only `str`.
- Reading a file back returns the kind of the handle's mode.

**The persistent client's state.** It is a `Disk` with three parts:

- the directory, a map from file name to file;
- the store, the content of each file;
- the list of handles.

A file is a number, an index into the store. `os.rename` moves a file to
another name and does not change its content. Writing a name that exists
empties that file in place; writing a new name creates a new file at the
end of the store.

- A handle remembers the name it was opened under, the file it reads, its
  mode, and whether it is still open.
- A Python file object keeps reading the file it opened, whatever that
  file is later renamed to. So `client[i]` reads the handle's own file,
  not whatever file now has the name.
- Reading a closed handle raises ValueError.
- An operation yields a `Run`: the new disk and an `Outcome` (`Done` or
  `Fail(error)`).
- The new disk after a failure is the one the source leaves behind when
  the exception escapes part-way through a loop.
- A disk is `Contiguous` when its handles are the files `0 … n-1`, in
  order and open. Its `Contents` are then what `client[i]` returns for
  each i.

**Where the code and its documentation disagree, the model follows the
code:**

- The persistent client's `__delitem__` docstring says a delete renames
  and reopens the files above the index. The code renames in descending
  order, which overwrites files.
- The class docstring says the client creates a new file for every new
  item. A slice builds its new client on the same directory, so the
  slice's files are the original's files 0, 1, … and writing them
  overwrites the original.
- The `StringGenerator.next` docstring says the code after "z" is "aa".
  The code's alphabet is `ascii_letters`, so the code after "z" is "A";
  "aa" follows "Z".
- `Deque.__setitem__` appends when the index is at or past the end, and
  prepends when the index is negative. An index inside the deque changes
  nothing.
- `Deque`'s `<`, `<=`, `>` and `>=` compare the common prefix item by
  item and ignore the lengths.

## Model

| member | source | states |
|---|---|---|
| PyLists.ItemIndex | src/diskcollections/iterables/clients.py:43-44 | a Python index into a list of length n is valid iff -n <= i < n, and then names position i or i+n (IndexError otherwise) |
| PyLists.InsertIndex | src/diskcollections/iterables/clients.py:64-66 | `list.insert` clamps its index into 0..n, counting negative indices from the end |
| PyLists.Insert | src/diskcollections/iterables/clients.py:64-66 | inserting x at k gives a list one longer with x at k, the prefix kept and the rest shifted up by one |
| PyLists.Remove | src/diskcollections/iterables/clients.py:43-44 | deleting position k gives a list one shorter with the prefix kept and the rest shifted down by one |
| PyLists.Reverse | src/diskcollections/iterables/iterables.py:224-226 | the reversal has the same length and item k is item n-1-k of the input |
| PyLists.SliceIndices | src/diskcollections/iterables/clients.py:47-50 | `slice.indices` then `range` fails with ValueError exactly for step 0; otherwise every index it yields is within 0..n-1 |
| PyLists.RangeWithin | src/diskcollections/iterables/clients.py:47-50 | every element of `range(start, stop, step)` lies within the bounds that `slice.indices` clamps start and stop to |
| PyLists.FullSliceIsIdentity | src/diskcollections/iterables/iterables.py:53-57 | the slice `[:]` selects 0, 1, …, n-1 in order |
| PyLists.RangeFrom | src/diskcollections/iterables/iterables.py:53-57 | `range(i, n, 1)` is the sequence i, …, n-1 |
| PyLists.Pick | src/diskcollections/iterables/clients.py:50 | the items `(self[i] for i in indices)` are one per index, item k being `s[idx[k]]` |
| Payloads.OtherModes | src/diskcollections/iterables/clients.py:8-10 | `modes - {mode}` for a write mode is the single other write mode |
| Payloads.WriteModeFor | src/diskcollections/iterables/clients.py:74-87 | `safe_write` succeeds iff the payload is `str` or bytes; it keeps the configured mode when that mode accepts the payload; the mode it picks reads the payload back with its own kind; otherwise it raises TypeError |
| Payloads.SafeWriteMode | src/diskcollections/iterables/clients.py:74-87 | the retry loop over the remaining modes computes `WriteModeFor`, re-raising TypeError when no mode accepts the payload |
| Payloads.Decode | src/diskcollections/iterables/iterables.py:61-62 | decoding a list of payloads applies `loads` to each, keeping length and order |
| TemporaryClients.ReadAll | src/diskcollections/iterables/clients.py:53-55 | reading every file back gives, per position, the file's content with the kind of the mode it was written in |
| TemporaryClients.WritablePrefix | src/diskcollections/iterables/clients.py:29 | `extend` writes exactly the payloads before the first one no mode accepts |
| TemporaryClients.TemporaryDirectoryClient.constructor | src/diskcollections/iterables/clients.py:23-29 | a new client has the given write mode and holds no items |
| TemporaryClients.TemporaryDirectoryClient.SafeWrite | src/diskcollections/iterables/clients.py:74-87 | a new file is written iff the payload is `str` or bytes, and reading it back returns that payload; otherwise TypeError |
| TemporaryClients.TemporaryDirectoryClient.Get | src/diskcollections/iterables/clients.py:53-55 | `client[i]` is the payload at the normalised index, or IndexError |
| TemporaryClients.TemporaryDirectoryClient.Set | src/diskcollections/iterables/clients.py:57-59 | TypeError for an unwritable payload (checked first), IndexError out of range, otherwise exactly that one slot is replaced; on failure nothing changes |
| TemporaryClients.TemporaryDirectoryClient.Delete | src/diskcollections/iterables/clients.py:43-44 | IndexError out of range, otherwise exactly that slot is removed |
| TemporaryClients.TemporaryDirectoryClient.Insert | src/diskcollections/iterables/clients.py:64-66 | TypeError for an unwritable payload, otherwise `list.insert` on the items with the clamped index |
| TemporaryClients.TemporaryDirectoryClient.Extend | src/diskcollections/iterables/clients.py:29 | appends the payloads in order and stops at the first unwritable one, raising TypeError; the ones before it stay appended |
| TemporaryClients.TemporaryDirectoryClient.GetSlice | src/diskcollections/iterables/clients.py:47-51 | ValueError iff the step is 0; otherwise a fresh client with the same mode holding exactly the selected items in slice order |
| Directories.Directory.constructor | src/diskcollections/iterables/clients.py:106-109 | a directory object starts with the given names and file contents |
| Directories.PersistentWriteMode | src/diskcollections/iterables/clients.py:227-241 | the persistent client writes `str` in "w+"; with the fallback (current client) bytes succeed in "w+b"; anything else raises TypeError; the mode chosen reads back the payload's kind |
| Directories.Contents | src/diskcollections/iterables/clients.py:162-165 | on a contiguous disk, item i is exactly what `client[i]` returns (the handle's file, read in its mode) |
| Directories.Reopened | src/diskcollections/iterables/clients.py:210-218 | files reopened with mode "r+" read back as text from the reopened position on; earlier items are unchanged |
| Directories.Put | src/diskcollections/iterables/clients.py:222-223 | writing a file sets its content and leaves every other file's content alone; a new file extends the store by one |
| Directories.WriteTo | src/diskcollections/iterables/clients.py:220-241 | writing a file through `safe_write` changes the directory and the store exactly as `WriteFile` says: the file is first emptied (or created), then written when the mode accepts the payload |
| Directories.ShiftUpLoop | src/diskcollections/iterables/clients.py:197-204 | the loop `for i in range(len(files))[::-1]` (close, rename i to i+1) computes `ShiftUp` |
| Directories.ShiftDownLoop | src/diskcollections/iterables/clients.py:135-142 | the loop (close, rename i+1 to i, descending) computes `ShiftDown` |
| Directories.ReopenLoop | src/diskcollections/iterables/clients.py:144-151 | the reopen loop computes `Reopen` |
| Directories.ReadAt | src/diskcollections/iterables/clients.py:162-165 | `client[i]` reads the file the handle at the normalised index holds, as `GetSpec` says: IndexError out of range, ValueError for a closed handle |
| Directories.SetOn | src/diskcollections/iterables/clients.py:167-170 | `__setitem__` computes `SetSpec` |
| Directories.InsertOn | src/diskcollections/iterables/clients.py:178-218 | `insert` computes `InsertSpec` |
| Directories.DeleteOn | src/diskcollections/iterables/clients.py:123-151 | `__delitem__` computes `DeleteSpec`, including the ValueError that `file.seek(0)` on the removed handle raises when that handle is closed and a file must be reopened |
| DirectoryLemmas.RenameLinked | src/diskcollections/iterables/clients.py:204 | `os.rename` keeps every name on an existing file and no two names on one file |
| DirectoryLemmas.WriteEffect | src/diskcollections/iterables/clients.py:220-241 | a write leaves `name` on the file it already had (or a new one), puts the payload there when the mode accepts it and empties it otherwise, changes no other name or file, and updates what the names read by exactly that one entry |
| DirectoryLemmas.ShiftUpMoves | src/diskcollections/iterables/clients.py:197-204 | when every name from the index up exists, the rename loop moves each file i >= index to name i+1, frees name index, and leaves other names and the lower handles alone |
| DirectoryLemmas.ShiftDownCollapses | src/diskcollections/iterables/clients.py:135-142 | renaming i+1 to i, top first, collapses every file above the index into name index, which ends up holding the top file's content |
| DirectoryLemmas.ReopenAll | src/diskcollections/iterables/clients.py:144-151 | when every file to reopen exists, each handle from `first` on becomes an open "r+" handle on its own name and the directory is unchanged |
| DirectoryLemmas.ReopenMissing | src/diskcollections/iterables/clients.py:144-151 | reopening fails with FileNotFoundError when a file it must reopen is missing |
| DirectoryLemmas.GetSound | src/diskcollections/iterables/clients.py:163-165 | while every handle's file exists, `client[i]` fails only with IndexError or ValueError |
| DirectoryLemmas.ShiftUpSound | src/diskcollections/iterables/clients.py:197-204 | the insert rename loop keeps every name and handle on an existing file |
| DirectoryLemmas.ShiftDownSound | src/diskcollections/iterables/clients.py:135-142 | the delete rename loop keeps every name and handle on an existing file |
| DirectoryLemmas.ReopenSound | src/diskcollections/iterables/clients.py:144-151 | the reopen loop keeps every name and handle on an existing file |
| DirectoryLemmas.SetSound | src/diskcollections/iterables/clients.py:167-170 | `__setitem__`, successful or not, keeps every name and handle on an existing file |
| DirectoryLemmas.InsertSound | src/diskcollections/iterables/clients.py:178-218 | `insert`, successful or not, keeps every name and handle on an existing file |
| DirectoryLemmas.DeleteSound | src/diskcollections/iterables/clients.py:123-151 | `__delitem__`, successful or not, keeps every name and handle on an existing file |
| DirectoryLemmas.CopySharedSound | src/diskcollections/iterables/clients.py:153-161 | copying a slice into the shared directory keeps every name and handle on an existing file |
| DirectoryLemmas.GetContiguous | src/diskcollections/iterables/clients.py:162-165 | on a contiguous disk `client[i]` is the item at the normalised index or IndexError, as for a list |
| DirectoryLemmas.SetEffect | src/diskcollections/iterables/clients.py:167-170 | `client[i] = v` writes file name i (the raw index) before indexing the handles: an unwritable payload raises TypeError but leaves name i empty; an out-of-range index raises IndexError but still writes the file; otherwise exactly the slot i reads v, and the disk stays contiguous iff i >= 0 |
| DirectoryLemmas.InsertInside | src/diskcollections/iterables/clients.py:197-218 | an insert at 0 <= i < n succeeds and is `list.insert` of the items, except that the items after i now read back as text (reopened in "r+") |
| DirectoryLemmas.InsertedContents | src/diskcollections/iterables/clients.py:206-218 | after the rename and write steps, reopening the followers yields exactly the inserted list |
| DirectoryLemmas.InsertBeforeReopen | src/diskcollections/iterables/clients.py:197-208 | the rename loop and the write leave names below i intact, the new payload under name i, and the old file k under name k+1 |
| DirectoryLemmas.InsertPastEnd | src/diskcollections/iterables/clients.py:191-195 | an insert at i >= n keeps the old handles, appends a handle opened under name i, and makes name i read the payload; the disk stays contiguous iff i == n, in which case the payload is appended |
| DirectoryLemmas.InsertNegativeFails | src/diskcollections/iterables/clients.py:191-218 | an insert with a negative index fails with FileNotFoundError whenever the client holds an item or file 0 is absent |
| DirectoryLemmas.InsertNormalisedCorrect | src/diskcollections/iterables/clients.py:178-218 | inserting at the clamped index (corrected) always succeeds and is `list.insert` with the followers reopened |
| DirectoryLemmas.DeleteFollowers | src/diskcollections/iterables/clients.py:123-151 | `del client[i]` behaves like a list delete when at most one item follows i; with two or more followers the rename loop clobbers them and the reopen fails with FileNotFoundError, leaving the top file's content under name i |
| DirectoryLemmas.DeleteLast | src/diskcollections/iterables/clients.py:123-151 | deleting the last item removes it |
| DirectoryLemmas.DeleteOneFollower | src/diskcollections/iterables/clients.py:123-151 | deleting with exactly one follower moves it down and reopens it |
| DirectoryLemmas.DeleteClobbers | src/diskcollections/iterables/clients.py:135-151 | with at least two followers, delete fails with FileNotFoundError and only the top file survives, under name i |
| DirectoryLemmas.ClobberedRun | src/diskcollections/iterables/clients.py:135-142 | the descending rename loop after removing item i leaves only name i, holding the top file |
| DirectoryLemmas.DeleteNegativeFails | src/diskcollections/iterables/clients.py:130-151 | deleting with a negative in-range index fails with FileNotFoundError (for n >= 3, or i = -1 with n = 2) |
| DirectoryLemmas.InsertNegativeLeavesClosed | src/diskcollections/iterables/clients.py:197-218 | `insert(-1, v)` on a, b, c renames every file up one name, writes v under "-1", then fails reopening name 0, leaving the three old handles closed |
| DirectoryLemmas.DeleteClosedRaises | src/diskcollections/iterables/clients.py:131-151 | after that failed insert, `del client[1]` removes a closed handle; the reopen loop's `file.seek(0)` on it raises ValueError once the renames are done |
| DirectoryLemmas.HandleKeepsFile | src/diskcollections/iterables/clients.py:163-218 | `insert(2, a)`, `insert(1, b)`, `insert(1, c)` on an empty client all succeed and read back a, c, b: the first handle still reads a, under its old name 2, while name 2 now holds b |
| DirectoryLemmas.AscendingMoves | src/diskcollections/iterables/clients.py:135-142 | renaming in ascending order moves each file k+1 to k without loss |
| DirectoryLemmas.DeleteAscendingCorrect | src/diskcollections/iterables/clients.py:123-151 | with an ascending rename loop (corrected), delete is IndexError out of range and otherwise a list delete with the followers reopened |
| DirectoryLemmas.CopySharedAhead | src/diskcollections/iterables/clients.py:154-161 | when every index to read lies ahead of the name being written, slicing into the same directory still appends exactly the selected items |
| DirectoryLemmas.CopySharedKeeps | src/diskcollections/iterables/clients.py:154-161 | copying into the shared directory leaves the names below the copy's length alone |
| DirectoryLemmas.CopySharedWrites | src/diskcollections/iterables/clients.py:154-161 | the original's files 0, 1, … now hold the selected items' data |
| DirectoryLemmas.CopySharedStep | src/diskcollections/iterables/clients.py:154-161 | a copy step is an append (`insert` at the copy's length) of the item read; it overwrites the original's file at that position with the item and keeps the read-ahead conditions |
| DirectoryLemmas.SliceForwardOverwrites | src/diskcollections/iterables/clients.py:153-161 | a forward slice of a persistent client yields the selected items, but the original's `client[k]` now reads the k-th selected item, for every k below the slice's length |
| DirectoryLemmas.ReversedIndices | src/diskcollections/iterables/clients.py:154-157 | `[::-1]` on three items selects 2, 1, 0 |
| DirectoryLemmas.SliceReversedExample | src/diskcollections/iterables/clients.py:153-161 | `client[::-1]` on files a, b, c (a ≠ c) produces c, b, c instead of c, b, a, because file 0 is overwritten before it is read; the original then reads c, b, c too |
| DirectoryLemmas.CopyFreshCorrect | src/diskcollections/iterables/clients.py:153-161 | copying into a separate directory (corrected) always succeeds and appends exactly the selected items |
| PersistentClients.PersistentDirectoryClient.constructor | src/diskcollections/iterables/clients.py:100-110 | a new client is bound to the given directory and holds no handles |
| PersistentClients.PersistentDirectoryClient.Get | src/diskcollections/iterables/clients.py:162-165 | `client[i]` is `GetSpec` of the client's disk |
| PersistentClients.PersistentDirectoryClient.Set | src/diskcollections/iterables/clients.py:167-170 | the new disk and outcome are `SetSpec` of the old disk, with the mode fallback |
| PersistentClients.PersistentDirectoryClient.Insert | src/diskcollections/iterables/clients.py:178-218 | the new disk and outcome are `InsertSpec` of the old disk, with the mode fallback |
| PersistentClients.PersistentDirectoryClient.Delete | src/diskcollections/iterables/clients.py:123-151 | the new disk and outcome are `DeleteSpec` of the old disk |
| PersistentClients.PersistentDirectoryClient.GetSlice | src/diskcollections/iterables/clients.py:153-161 | ValueError for step 0; otherwise the shared directory ends as `CopyShared` leaves it, the original's handles are untouched, and the result is a fresh client on the same directory or the first error raised |
| LegacyClients.TemporaryDirectoryClient.constructor | diskcollections/iterables/clients.py:18-23 | a new client has the given mode and no items |
| LegacyClients.TemporaryDirectoryClient.Get | diskcollections/iterables/clients.py:47-49 | `client[i]` is the item at the normalised index, or IndexError |
| LegacyClients.TemporaryDirectoryClient.Set | diskcollections/iterables/clients.py:51-56 | `bytes(value)` is written in the client's own mode: TypeError unless the payload is bytes and the mode binary; otherwise that one slot is replaced |
| LegacyClients.TemporaryDirectoryClient.Delete | diskcollections/iterables/clients.py:37-38 | IndexError out of range, otherwise exactly that slot is removed |
| LegacyClients.TemporaryDirectoryClient.Insert | diskcollections/iterables/clients.py:61-66 | no fallback: TypeError unless the client's mode accepts the payload, otherwise `list.insert` |
| LegacyClients.TemporaryDirectoryClient.GetSlice | diskcollections/iterables/clients.py:40-45 | ValueError iff the step is 0; otherwise a fresh client with the same mode holding the selected items |
| LegacyClients.PersistentDirectoryClient.constructor | diskcollections/iterables/clients.py:79-88 | a new client is bound to the given directory and holds no handles |
| LegacyClients.PersistentDirectoryClient.Get | diskcollections/iterables/clients.py:140-143 | `client[i]` is `GetSpec` of the client's disk |
| LegacyClients.PersistentDirectoryClient.Set | diskcollections/iterables/clients.py:145-150 | `SetSpec` without the mode fallback ("w+" only) |
| LegacyClients.PersistentDirectoryClient.Insert | diskcollections/iterables/clients.py:158-202 | `InsertSpec` without the mode fallback |
| LegacyClients.PersistentDirectoryClient.Delete | diskcollections/iterables/clients.py:101-129 | `DeleteSpec`, the same rename and reopen loops as the current client |
| LegacyClients.PersistentDirectoryClient.GetSlice | diskcollections/iterables/clients.py:131-139 | the slice is copied into the same directory, as `CopyShared` without fallback says |
| DequeLaws.Window | src/diskcollections/iterables/iterables.py:208-212 | the `maxlen` window keeps exactly maxlen items once it is exceeded and is the identity otherwise |
| DequeLaws.WindowLeft | src/diskcollections/iterables/iterables.py:214-218 | the left window keeps exactly maxlen items once it is exceeded and is the identity otherwise |
| DequeLaws.WindowAppend | src/diskcollections/iterables/iterables.py:208-212 | `append` on a deque within maxlen is the window of s + [v], and stays within maxlen |
| DequeLaws.WindowOfWindow | src/diskcollections/iterables/iterables.py:220-222 | windowing twice is windowing once over the concatenation |
| DequeLaws.ExtendIsWindow | src/diskcollections/iterables/iterables.py:220-222 | `extend` on a deque within maxlen keeps the last maxlen items of s + vs |
| DequeLaws.WindowLeftPrepend | src/diskcollections/iterables/iterables.py:214-218 | `appendleft` on a deque within maxlen is the left window of [v] + s |
| DequeLaws.WindowLeftOfWindowLeft | src/diskcollections/iterables/iterables.py:224-226 | left-windowing twice is left-windowing once over the concatenation |
| DequeLaws.ExtendLeftIsWindow | src/diskcollections/iterables/iterables.py:224-226 | `extendleft` on a deque within maxlen keeps the first maxlen items of reverse(vs) + s |
| DequeLaws.DequeExamples | tests/sequences/test_iterables.py:137-145 | with maxlen 3, [1, 2] extended by [4, 4] is [2, 4, 4], and appendleft(1) then gives [1, 2, 4]; extendleft([2, 1, 0]) on [3, 4, 5] gives [0, …, 5] |
| DequeLaws.RotateSteps | src/diskcollections/iterables/iterables.py:262-269 | the normalised step count lies within ±len/2 and is congruent to n modulo len |
| DequeLaws.StepRightUnbounded | src/diskcollections/iterables/iterables.py:270-272 | `appendleft(pop())` within maxlen moves the last item to the front |
| DequeLaws.StepLeftUnbounded | src/diskcollections/iterables/iterables.py:273-275 | `append(popleft())` within maxlen moves the first item to the back |
| DequeLaws.RotateRight | src/diskcollections/iterables/iterables.py:270-272 | k right steps within maxlen move the last k items to the front |
| DequeLaws.ShiftRightOnce | src/diskcollections/iterables/iterables.py:270-272 | one right step followed by k-1 more is a rotation by k |
| DequeLaws.RotateLeft | src/diskcollections/iterables/iterables.py:273-275 | k left steps within maxlen move the first k items to the back |
| DequeLaws.ShiftLeftOnce | src/diskcollections/iterables/iterables.py:273-275 | one left step followed by k-1 more is a rotation by k |
| DequeLaws.RotateIsRotation | src/diskcollections/iterables/iterables.py:256-275 | for a deque within maxlen, `rotate(n)` equals `collections.deque.rotate(n)` for every n, as the repository's tests compare |
| DequeLaws.RotateRestores | src/diskcollections/iterables/iterables.py:256-275 | `rotate(n)` followed by `rotate(-n)` restores the deque |
| DequeLaws.RotatedBack | src/diskcollections/iterables/iterables.py:256-275 | the reference rotation by n and then by -n is the identity |
| DequeLaws.ComparedWithEmpty | tests/sequences/test_iterables.py:308-320 | every deque is both pairwise "less" and "greater" than the empty sequence, since the comparison ignores lengths |
| Containers.DecodeInsert | src/diskcollections/iterables/iterables.py:74-76 | with a round-tripping serializer, inserting an encoded value and decoding is inserting the value |
| Containers.DecodeUpdate | src/diskcollections/iterables/iterables.py:64-66 | replacing one encoded slot and decoding is replacing that value |
| Containers.DecodeRemove | src/diskcollections/iterables/iterables.py:49-50 | removing a slot commutes with decoding |
| Containers.List.constructor | src/diskcollections/iterables/iterables.py:8-23 | a new List on a fresh client holds exactly the given values |
| Containers.List.Extend | src/diskcollections/iterables/iterables.py:22-23 | `extend` appends the values in order |
| Containers.List.Get | src/diskcollections/iterables/iterables.py:61-62 | `l[i]` is the value at the normalised index, or IndexError |
| Containers.List.Set | src/diskcollections/iterables/iterables.py:64-66 | IndexError out of range, otherwise exactly that value is replaced |
| Containers.List.Delete | src/diskcollections/iterables/iterables.py:49-50 | IndexError out of range, otherwise exactly that value is removed |
| Containers.List.Insert | src/diskcollections/iterables/iterables.py:74-76 | `list.insert` on the values with the clamped index |
| Containers.List.Equals | src/diskcollections/iterables/iterables.py:39-47 | `==` holds iff the lengths agree and every value matches |
| Containers.List.GetSlice | src/diskcollections/iterables/iterables.py:53-60 | ValueError iff the step is 0; otherwise a fresh List holding exactly the selected values |
| Containers.List.Copy | src/diskcollections/iterables/iterables.py:32-37 | `copy` is a fresh List on a fresh client with the same values |
| Containers.Deque.constructor | src/diskcollections/iterables/iterables.py:80-96 | a new Deque holds `extend(iterable)` applied to the empty deque under its maxlen |
| Containers.Deque.Get | src/diskcollections/iterables/iterables.py:185-187 | `d[i]` is the value at the normalised index, or IndexError |
| Containers.Deque.SetItem | src/diskcollections/iterables/iterables.py:189-195 | `d[i] = v` appends when i >= len, prepends when i < 0, and otherwise changes nothing |
| Containers.Deque.Delete | src/diskcollections/iterables/iterables.py:197-198 | IndexError out of range, otherwise exactly that value is removed |
| Containers.Deque.Insert | src/diskcollections/iterables/iterables.py:200-202 | `list.insert` on the values with the clamped index, without applying maxlen |
| Containers.Deque.Pop | src/diskcollections/iterables/iterables.py:228-235 | IndexError on an empty deque; otherwise returns and removes the last value |
| Containers.Deque.PopLeft | src/diskcollections/iterables/iterables.py:237-243 | IndexError on an empty deque; otherwise returns and removes the first value |
| Containers.Deque.Append | src/diskcollections/iterables/iterables.py:208-212 | appends, then drops the first value when maxlen is set, non-zero and exceeded |
| Containers.Deque.AppendLeft | src/diskcollections/iterables/iterables.py:214-218 | prepends, then drops the last value when maxlen is set, non-zero and exceeded |
| Containers.Deque.Extend | src/diskcollections/iterables/iterables.py:220-222 | one `append` per value, in order |
| Containers.Deque.ExtendLeft | src/diskcollections/iterables/iterables.py:224-226 | one `appendleft` per value, in order |
| Containers.Deque.Clear | src/diskcollections/iterables/iterables.py:245-247 | the deque ends empty |
| Containers.Deque.Count | src/diskcollections/iterables/iterables.py:249-254 | the count is the multiplicity of the value among the deque's values |
| Containers.Deque.Rotate | src/diskcollections/iterables/iterables.py:256-275 | no change for length <= 1; otherwise the normalised number of right or left steps |
| Containers.Deque.RotateRightBy | src/diskcollections/iterables/iterables.py:270-272 | the first loop performs k right steps |
| Containers.Deque.RotateLeftBy | src/diskcollections/iterables/iterables.py:273-275 | the second loop performs k left steps |
| Containers.Deque.StepRightOnce | src/diskcollections/iterables/iterables.py:271 | `appendleft(pop())` |
| Containers.Deque.StepLeftOnce | src/diskcollections/iterables/iterables.py:274 | `append(popleft())` |
| Containers.Deque.Equals | src/diskcollections/iterables/iterables.py:123-131 | `==` holds iff the values equal the other sequence |
| Containers.Deque.NotEquals | src/diskcollections/iterables/iterables.py:133-141 | `!=` is exactly the negation of `==` |
| Containers.Deque.ComparePairwise | src/diskcollections/iterables/iterables.py:143-175 | the shared comparison loop holds iff every pair over the common prefix compares as allowed |
| Containers.Deque.LessThan | src/diskcollections/iterables/iterables.py:143-151 | `<` holds iff every pair over the common prefix is strictly less; lengths are ignored |
| Containers.Deque.LessOrEqual | src/diskcollections/iterables/iterables.py:153-161 | `<=` holds iff no pair over the common prefix is greater |
| Containers.Deque.GreaterThan | src/diskcollections/iterables/iterables.py:163-168 | `>` holds iff every pair over the common prefix is strictly greater |
| Containers.Deque.GreaterOrEqual | src/diskcollections/iterables/iterables.py:170-175 | `>=` holds iff no pair over the common prefix is less |
| Containers.Deque.Copy | src/diskcollections/iterables/iterables.py:115-121 | `copy` is a fresh Deque with the same maxlen, built by `extend` of the values |
| Generators.Letters | diskcollections/generators.py:7-9 | the alphabet `ascii_letters` has 52 letters |
| Generators.Digit | diskcollections/generators.py:17 | a letter's position in the alphabet; any other character has none |
| Generators.IncreaseLetter | diskcollections/generators.py:12-18 | the next letter cyclically ('Z' wraps to 'a'); ValueError for a non-letter |
| Generators.IncreaseLetterExamples | tests/test_generators.py:10-14 | a→b, z→A, A→B, Z→a |
| Generators.TrailingZ | diskcollections/generators.py:38-47 | the number of trailing 'Z's, the carry run of `increase_code` |
| Generators.SuccessorShape | diskcollections/generators.py:20-48 | all-'Z' codes become 'a' repeated one longer; otherwise the letter before the 'Z' run is increased (or ValueError if it is not a letter) and the run becomes 'a's |
| Generators.SuccessorAddsOne | diskcollections/generators.py:20-48 | on letter codes, `increase_code` adds exactly one in bijective base 52 |
| Generators.SuccessorLength | diskcollections/generators.py:20-48 | the successor is one letter longer iff the code is all 'Z', and otherwise as long |
| Generators.SuccessorFails | diskcollections/generators.py:20-48 | `increase_code` fails iff the first letter it must increase is not a letter, with ValueError |
| Generators.SuccessorExamples | tests/test_generators.py:16-21 | c→d, z→A, az→aA |
| Generators.SuccessorCarryExamples | tests/test_generators.py:16-21 | aZ→ba, ZZ→aaa, ZZaZZ→ZZbaa |
| Generators.CarryExample | diskcollections/generators.py:38-48 | a code ending in 'a' then z 'Z's becomes 'b' then z 'a's |
| Generators.IncreaseCode | diskcollections/generators.py:20-48 | the reversed loop with its for/else computes `Successor` |
| Generators.StringGenerator.constructor | diskcollections/generators.py:10 | the code table starts empty |
| Generators.StringGenerator.Next | diskcollections/generators.py:50-77 | 'a' for a new prefix, otherwise the successor of the prefix's last code; the code's value is one more than the last; it was never handed out under that prefix since the last reset; other prefixes are untouched |
| Generators.StringGenerator.Delete | diskcollections/generators.py:79-86 | the prefix is forgotten, so its next code is 'a' again |
| Generators.StringGenerator.Clear | diskcollections/generators.py:88-90 | every prefix is forgotten |
| FileClients.SetThenGet | diskcollections/clients.py:33-55 | `get` after `set` returns the same content; the kind comes back intact iff the content is text or the key was never flagged as text |
| FileClients.FailedSetLeavesEmptyFile | diskcollections/clients.py:41-42 | a `set` whose `write` raises TypeError still leaves an empty file under the key |
| FileClients.OtherKeysUnchanged | diskcollections/clients.py:33-64 | `set` and `delete` on one key do not change what `get` returns for any other key |
| FileClients.DeleteThenGet | diskcollections/clients.py:57-64 | after `delete`, `get` raises KeyError |
| FileClients.StickyTextExample | diskcollections/clients.py:33-55 | `set(k, "abc")` then `set(k, b"xyz")` makes `get(k)` return text |
| FileClients.SetThenGetCorrected | diskcollections/clients.py:33-55 | with the flag cleared on a bytes write (corrected), `get` after `set` returns exactly what was set, and other keys are unchanged |
| FileClients.TemporaryFileClient.constructor | diskcollections/clients.py:21-23 | a new client holds no files and no text keys |
| FileClients.TemporaryFileClient.Set | diskcollections/clients.py:33-42 | TypeError iff the content is neither text nor bytes; the store becomes `AfterSet` |
| FileClients.TemporaryFileClient.Get | diskcollections/clients.py:44-55 | KeyError iff there is no file for the key; otherwise `Read` |
| FileClients.TemporaryFileClient.Delete | diskcollections/clients.py:57-64 | KeyError iff there is no file; the store becomes `AfterDelete` |
| FileLists.InsertIsListInsert | diskcollections/iterables.py:75-79 | `insert` behaves as `list.insert` iff 0 <= index <= len or index == -len-1 |
| FileLists.InsertOutOfPlace | diskcollections/iterables.py:75-79 | past either end the new key stays without a file (KeyError on read); for a negative in-range index the value overwrites the item after the new key |
| FileLists.InsertNegativeExample | diskcollections/iterables.py:75-79 | `insert(-1, b)` on [a] yields [KeyError, b] |
| FileLists.LoadedInsertFresh | diskcollections/iterables.py:75-78 | inserting a key without a file inserts a KeyError slot |
| FileLists.LoadedAfterSet | diskcollections/iterables.py:62-65 | writing one distinct key replaces exactly that slot with the round-tripped value |
| FileLists.LoadedAfterDelete | diskcollections/iterables.py:45-48 | removing a distinct key and its file removes exactly that slot |
| FileLists.FileList.constructor | diskcollections/iterables.py:12-26 | a new FileList on a fresh client reads back exactly the given values |
| FileLists.FileList.Extend | diskcollections/iterables.py:25-26 | appends the values in order, each under a fresh key |
| FileLists.FileList.Get | diskcollections/iterables.py:58-60 | IndexError out of range; otherwise the slot's value, or KeyError when its file is missing |
| FileLists.FileList.Set | diskcollections/iterables.py:62-65 | IndexError out of range, otherwise exactly that slot now holds the value |
| FileLists.FileList.Delete | diskcollections/iterables.py:45-48 | IndexError out of range; otherwise the slot is removed, and KeyError is raised iff its file was missing |
| FileLists.FileList.Insert | diskcollections/iterables.py:75-79 | a fresh key is inserted; the contents become `InsertedContents`; IndexError iff the index is out of range of the longer list |
| FileLists.FileList.InsertCorrected | diskcollections/iterables.py:75-79 | writing through the new key (corrected) makes `insert` exactly `list.insert` |
| FileLists.FileList.Equals | diskcollections/iterables.py:35-43 | a length mismatch is `False`; `True` iff every slot reads back the other's value; a missing file raises KeyError, which cannot happen when every slot reads |
| FileLists.FileList.GetSlice | diskcollections/iterables.py:50-57 | ValueError for step 0; otherwise a fresh FileList holding the selected values iff every selected slot reads, else KeyError |
| FileLists.FileList.Collect | diskcollections/iterables.py:54-57 | reading the selected slots in order succeeds iff each reads, and yields their values |

## Left out

- Serializers and handlers (pickle, zlib, JSON) are abstract. Each is a
  `dumps`/`loads` pair assumed to satisfy `loads(dumps(v)) == v`, and
  `dumps` is total. `List` and `Deque` assume every encoding is a `str`
  or bytes payload (`Encodable`). `FileList` assumes it is bytes, as the
  legacy pickle handlers give.
- Text and bytes transcoding is the identity. A payload's content is an
  abstract `Blob`, and reading a file in the other mode changes only its
  kind.
- The file system is modelled only as far as the clients see it. That
  covers temporary directories, paths, `os.makedirs`, `os.path.exists`,
  `os.remove` and `open`. A persistent file name is its integer position;
  `get_file_path` is that integer.
- Cleanup is left out: `__del__` of every class (including
  `generator.delete(id(self))` in `FileList.__del__`), garbage collection
  and closing temporary files.
- `__repr__` and `__str__` are left out.
- The choice between a client class, a `partial` and an instance in
  `List`/`Deque.__init__` is left out. The containers always get a fresh
  `TemporaryDirectoryClient`. `List` and `Deque` over a persistent client
  are not modelled.
- `iterable=` in the constructors of the temporary and persistent clients
  is left out. Extending a client is modelled as
  `TemporaryDirectoryClient.Extend`.
- The `MutableSequence` mixin methods (`append`, `pop`, `remove`, `index`,
  `__iter__`, `__contains__` …) on `List` and `FileList` are not modelled.
  The Deque's own versions are.
- Python's `compare` between arbitrary values is a parameter `compare`
  returning an `Ordering`.
- A temporary client's configured mode is one of "w+" and "w+b". Another
  mode string is not modelled.
- `Deque`'s `maxlen` is `Option<nat>`. A negative maxlen is not modelled.
- `StringGenerator` prefixes are integers, as `id(self)` gives. The shared
  class attribute `_codes` is one `StringGenerator` object passed to each
  `FileList`. `FileList`'s `id(self)` is the `prefix` parameter, and reuse
  of an id after garbage collection is not modelled.
- FileLists.FileList.GetSlice: the new list takes its handler and prefix
  as parameters, standing in for the class defaults the source falls back
  to. When a selected slot raises KeyError, the model returns the error
  but does not describe the partly built list or the codes already drawn
  from the generator.
- LegacyClients.TemporaryDirectoryClient.Set: `bytes(value)` is modelled
  as succeeding only on a bytes payload. Python's conversion of integers
  and iterables of integers into bytes is not modelled.
- The persistent clients' state after an error is the directory and
  handles at the moment the exception escapes. Open file objects that are
  replaced without being closed are not tracked.
- The persistent clients do not model a file position. Reading seeks to
  0 first, and every write starts on an emptied file, so the position
  never changes what a read returns.
- The legacy modules are modelled as they behave under Python 3, where
  `basestring` is `str` (src/diskcollections/py2to3.py:6-10). Under
  Python 2, `basestring` covers byte strings too, so `TemporaryFileClient.set`
  would flag bytes content as text, and `bytes(value)` would be `str(value)`.

## Findings

| source | as written | input that shows it | evidently intended | confidence | as-written member | corrected member |
|---|---|---|---|---|---|---|
| src/diskcollections/iterables/clients.py:135-142 | after removing file i, `__delitem__` renames file k+1 to k for k from the top down, so each rename overwrites a file that has not been moved yet (the same loop is in diskcollections/iterables/clients.py:113-120) | `del client[0]` on a persistent client holding a, b, c: name 0 ends holding c, names 1 and 2 are gone, and the reopen raises FileNotFoundError | rename in ascending order, so that every follower moves down one name | high; not executed | DirectoryLemmas.DeleteClobbers | DirectoryLemmas.DeleteAscendingCorrect |
| src/diskcollections/iterables/clients.py:153-161 | a slice builds the new client on the same directory, so appending item j writes file j of the original before later indices are read | `client[::-1]` on a, b, c gives c, b, c, and the original's file 0 now holds c | a slice that leaves the original intact and holds c, b, a | high; not executed | DirectoryLemmas.SliceReversedExample | DirectoryLemmas.CopyFreshCorrect |
| src/diskcollections/iterables/clients.py:191-218 | `insert` compares the raw index with the length and uses it as a file name. With a negative index the rename loop moves every file i >= 0 up one name, the write creates a file named "-1", and the reopen loop then opens name 0, which the renames freed | `insert(-1, v)` on a client holding a: FileNotFoundError, with the old handle closed | normalise the index as `list.insert` does | high; not executed | DirectoryLemmas.InsertNegativeFails | DirectoryLemmas.InsertNormalisedCorrect |
| diskcollections/clients.py:33-42 | `set` flags a key as text when the content is `str` but never clears the flag, so later bytes content under that key is read back in text mode | `set(k, "abc")`, `set(k, b"xyz")`, then `get(k)` returns text | clear the flag when bytes are written | high; not executed | FileClients.StickyTextExample | FileClients.SetThenGetCorrected |
| diskcollections/iterables.py:75-79 | `insert` puts the new key at `index` and then writes through `self[index]`, which for a negative index names the slot after the new key | `insert(-1, b)` on a FileList holding a gives [KeyError, b]: a is overwritten and the new key has no file | write the value under the new key | high; not executed | FileLists.InsertNegativeExample | FileLists.FileList.InsertCorrected |
