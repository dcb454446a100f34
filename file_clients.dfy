/** The legacy TemporaryFileClient: a key/value store with one file per key
    in a temporary directory of its own, plus the set of keys whose content
    was written as text (`__string_keys`), which decides how `get` reads. */
module FileClients {
  import opened Common
  import opened Payloads

  /** The client's state: file contents by key, and the keys flagged as text. */
  datatype Store = Store(files: map<string, Blob>, textKeys: set<string>)

  /** `get(key)`: KeyError without a file, otherwise the content, read in
      text mode when the key is flagged and in binary mode otherwise. */
  function Read(st: Store, key: string): Result<Payload>
  {
    if key !in st.files then Err(KeyError)
    else Ok(Payload(if key in st.textKeys then Text else Binary, st.files[key]))
  }

  /** `set(key, content)`: `str` content flags the key and is written in "w";
      anything else is written in "wb". The file is created or truncated
      when it is opened, before `write` can raise TypeError for content that
      is neither `str` nor bytes. A bytes write never clears the flag. */
  function AfterSet(st: Store, key: string, p: Payload): Store
  {
    match p.kind
    case Text => Store(st.files[key := p.data], st.textKeys + {key})
    case Binary => Store(st.files[key := p.data], st.textKeys)
    case Unsupported => Store(st.files[key := []], st.textKeys)
  }

  /** `delete(key)`: removes the file and the flag; nothing changes for a
      key without a file (the KeyError case). */
  function AfterDelete(st: Store, key: string): Store
  {
    if key in st.files then Store(st.files - {key}, st.textKeys - {key}) else st
  }

  /** `set` then `get` gives the content back exactly when it is text, or
      bytes under a key that was never flagged as text; bytes under a
      flagged key come back as text. */
  lemma {:induction false} SetThenGet(st: Store, key: string, p: Payload)
    requires p.kind != Unsupported
    ensures Read(AfterSet(st, key, p), key) == Ok(p) <==> p.kind == Text || key !in st.textKeys
    ensures Read(AfterSet(st, key, p), key).Ok? && Read(AfterSet(st, key, p), key).value.data == p.data
  {
  }

  /** A `set` whose write raises TypeError still leaves an empty file behind. */
  lemma {:induction false} FailedSetLeavesEmptyFile(st: Store, key: string, p: Payload)
    requires p.kind == Unsupported
    ensures Read(AfterSet(st, key, p), key).Ok? && Read(AfterSet(st, key, p), key).value.data == []
  {
  }

  /** `set` and `delete` touch no other key. */
  lemma {:induction false} OtherKeysUnchanged(st: Store, key: string, other: string, p: Payload)
    requires other != key
    ensures Read(AfterSet(st, key, p), other) == Read(st, other)
    ensures Read(AfterDelete(st, key), other) == Read(st, other)
  {
  }

  /** After `delete`, the key reads as KeyError again. */
  lemma {:induction false} DeleteThenGet(st: Store, key: string)
    ensures Read(AfterDelete(st, key), key) == Err(KeyError)
    ensures key !in AfterDelete(st, key).textKeys || key !in st.files
  {
  }

  /** The sticky flag: `set(k, "abc")` then `set(k, b"xyz")` reads back as text. */
  lemma {:induction false} StickyTextExample(st: Store, k: string)
    ensures var s1 := AfterSet(st, k, Payload(Text, [97, 98, 99]));
            var s2 := AfterSet(s1, k, Payload(Binary, [120, 121, 122]));
            Read(s2, k) == Ok(Payload(Text, [120, 121, 122])) && Read(s2, k) != Ok(Payload(Binary, [120, 121, 122]))
  {
    SetThenGet(AfterSet(st, k, Payload(Text, [97, 98, 99])), k, Payload(Binary, [120, 121, 122]));
  }

  /** `set` as its round trip intends: a bytes write also clears the flag. */
  function AfterSetCorrected(st: Store, key: string, p: Payload): Store
  {
    match p.kind
    case Text => Store(st.files[key := p.data], st.textKeys + {key})
    case Binary => Store(st.files[key := p.data], st.textKeys - {key})
    case Unsupported => Store(st.files[key := []], st.textKeys)
  }

  lemma {:induction false} SetThenGetCorrected(st: Store, key: string, other: string, p: Payload)
    requires p.kind != Unsupported
    ensures Read(AfterSetCorrected(st, key, p), key) == Ok(p)
    ensures other != key ==> Read(AfterSetCorrected(st, key, p), other) == Read(st, other)
  {
  }

  class TemporaryFileClient {
    /** The files of the client's own temporary directory, by key. */
    var files: map<string, Blob>
    /** `__string_keys`. */
    var textKeys: set<string>

    function State(): Store
      reads this
    {
      Store(files, textKeys)
    }

    /** Every client starts with a new, empty directory of its own. */
    constructor ()
      ensures State() == Store(map[], {})
    {
      files := map[];
      textKeys := {};
    }

    method Set(key: string, p: Payload) returns (r: Outcome)
      modifies this
      ensures r == if p.kind == Unsupported then Fail(TypeError) else Done
      ensures State() == AfterSet(old(State()), key, p)
    {
      if p.kind == Text {
        textKeys := textKeys + {key};
      }
      files := files[key := if p.kind == Unsupported then [] else p.data];
      if p.kind == Unsupported {
        return Fail(TypeError);
      }
      return Done;
    }

    method Get(key: string) returns (r: Result<Payload>)
      ensures r == Read(State(), key)
      ensures r.Err? <==> key !in files
    {
      if key !in files {
        return Err(KeyError);
      }
      var kind := if key in textKeys then Text else Binary;
      return Ok(Payload(kind, files[key]));
    }

    method Delete(key: string) returns (r: Outcome)
      modifies this
      ensures r == if key in old(files) then Done else Fail(KeyError)
      ensures State() == AfterDelete(old(State()), key)
    {
      if key !in files {
        return Fail(KeyError);
      }
      files := files - {key};
      textKeys := textKeys - {key};
      return Done;
    }
  }
}
