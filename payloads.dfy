/** What a serializer produces and a file holds, and how file modes accept it. */
module Payloads {
  import opened Common

  /** The Python type of an encoded value: `str`, a bytes-like object, or
      anything else (which no file mode can write). */
  datatype Kind = Text | Binary | Unsupported

  /** The content of a file, abstracted from its text or byte encoding. */
  type Blob = seq<int>

  datatype Payload = Payload(kind: Kind, data: Blob)

  /** The file modes the clients open files with: "w+", "w+b" and "r+". */
  datatype Mode = WPlus | WPlusB | RPlus

  /** The two write modes `{"w+", "w+b"}` of the current clients. */
  predicate IsWriteMode(m: Mode) { m != RPlus }

  /** A text-mode file writes only `str`; a binary one only bytes. */
  predicate Accepts(m: Mode, k: Kind)
  {
    match m
    case WPlusB => k == Binary
    case _ => k == Text
  }

  /** What `read()` returns through a handle opened in mode m. */
  function ReadKind(m: Mode): Kind
  {
    if m == WPlusB then Binary else Text
  }

  /** What a handle in mode m reads back from a file holding `data`. */
  function ReadAs(m: Mode, data: Blob): Payload
  {
    Payload(ReadKind(m), data)
  }

  /** `modes - {mode}` for a write mode, in the order safe_write tries them. */
  function OtherModes(m: Mode): (r: seq<Mode>)
    requires IsWriteMode(m)
    ensures |r| == 1 && IsWriteMode(r[0]) && r[0] != m
  {
    if m == WPlus then [WPlusB] else [WPlus]
  }

  /** The mode `safe_write` ends up writing in: the configured one when it
      accepts the payload, else the first remaining mode that does, else the
      TypeError of the last attempt. It succeeds exactly for `str` and bytes
      payloads, in a mode that reads the payload back with its own kind. */
  function WriteModeFor(configured: Mode, k: Kind): (r: Result<Mode>)
    requires IsWriteMode(configured)
    ensures r.Ok? <==> k != Unsupported
    ensures r.Ok? ==> IsWriteMode(r.value) && Accepts(r.value, k) && ReadKind(r.value) == k
    ensures Accepts(configured, k) ==> r == Ok(configured)
    ensures r.Err? ==> r.error == TypeError
  {
    if Accepts(configured, k) then Ok(configured)
    else if Accepts(OtherModes(configured)[0], k) then Ok(OtherModes(configured)[0])
    else Err(TypeError)
  }

  /** safe_write's retry loop: try the configured mode, then each remaining
      mode, re-raising the last TypeError when none accepts the payload. */
  method SafeWriteMode(configured: Mode, k: Kind) returns (r: Result<Mode>)
    requires IsWriteMode(configured)
    ensures r == WriteModeFor(configured, k)
    ensures r.Ok? <==> k != Unsupported
    ensures r.Ok? ==> IsWriteMode(r.value) && Accepts(r.value, k) && ReadKind(r.value) == k
  {
    if Accepts(configured, k) {
      return Ok(configured);
    }
    var available := OtherModes(configured);
    var i := 0;
    r := Err(TypeError);
    while i < |available|
      invariant 0 <= i <= |available|
      invariant forall j :: 0 <= j < i ==> !Accepts(available[j], k)
      invariant r == Err(TypeError)
    {
      if Accepts(available[i], k) {
        return Ok(available[i]);
      }
      i := i + 1;
    }
  }

  /** An encoding is a pair `dumps`/`loads`; the codecs themselves are not modelled. */
  datatype Serializer<!V> = Serializer(dumps: V -> Payload, loads: Payload -> V)

  /** The round-trip law every serializer is expected to satisfy. */
  ghost predicate RoundTrips<V(!new)>(s: Serializer<V>)
  {
    forall v :: s.loads(s.dumps(v)) == v
  }

  /** The values `loads` gives for a sequence of payloads. */
  function Decode<V>(s: Serializer<V>, ps: seq<Payload>): (r: seq<V>)
    ensures |r| == |ps|
    ensures forall i :: 0 <= i < |ps| ==> r[i] == s.loads(ps[i])
  {
    seq(|ps|, i requires 0 <= i < |ps| => s.loads(ps[i]))
  }
}
