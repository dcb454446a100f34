/** Errors raised by the collections, and the result types that carry them. */
module Common {

  /** The Python exceptions the modelled code can raise. */
  datatype Error =
    | IndexError          // positional access out of range, pop from an empty deque
    | KeyError            // a key with no file (legacy key/value client)
    | TypeError           // a payload that no write mode accepts
    | ValueError          // a character outside ascii_letters, a slice step of 0, a closed file
    | FileNotFoundError   // os.rename / os.remove / open("r+") on a missing name

  datatype Option<+T> = None | Some(value: T)

  datatype Result<+T> = Ok(value: T) | Err(error: Error)

  /** The outcome of an operation that returns nothing on success. */
  datatype Outcome = Done | Fail(error: Error)
}

/** Python's list index conventions, shared by every sequence in the model. */
module PyLists {
  import opened Common

  /** Position addressed by `s[i]` (get, set, del) on a list of length `n`:
      negative indices count from the end; anything else out of range is None. */
  function ItemIndex(i: int, n: nat): (r: Option<nat>)
    ensures r.Some? <==> -(n as int) <= i < n
    ensures r.Some? ==> r.value < n && (r.value == i || r.value == i + n)
  {
    if 0 <= i < n then Some(i)
    else if -(n as int) <= i < 0 then Some(i + n)
    else None
  }

  /** Position at which `list.insert(i, x)` places x on a list of length `n`. */
  function InsertIndex(i: int, n: nat): (r: nat)
    ensures r <= n
    ensures 0 <= i <= n ==> r == i
    ensures i >= n ==> r == n
    ensures i < 0 ==> r == if i + n < 0 then 0 else i + n
  {
    if i < 0 then (if i + n < 0 then 0 else i + n)
    else if i > n then n
    else i
  }

  function Insert<T>(s: seq<T>, k: nat, x: T): (r: seq<T>)
    requires k <= |s|
    ensures |r| == |s| + 1 && r[k] == x
    ensures forall j :: 0 <= j < k ==> r[j] == s[j]
    ensures forall j :: k < j < |r| ==> r[j] == s[j - 1]
  {
    s[..k] + [x] + s[k..]
  }

  function Remove<T>(s: seq<T>, k: nat): (r: seq<T>)
    requires k < |s|
    ensures |r| == |s| - 1
    ensures forall j :: 0 <= j < k ==> r[j] == s[j]
    ensures forall j :: k <= j < |r| ==> r[j] == s[j + 1]
  {
    s[..k] + s[k + 1..]
  }

  /** `s[::-1]`. */
  function Reverse<T>(s: seq<T>): (r: seq<T>)
    ensures |r| == |s|
    ensures forall k :: 0 <= k < |s| ==> r[k] == s[|s| - 1 - k]
  {
    if s == [] then [] else Reverse(s[1..]) + [s[0]]
  }

  /** A slice object `slice(start, stop, step)`; None is Python's None. */
  datatype Slice = Slice(start: Option<int>, stop: Option<int>, step: Option<int>)

  /** `slice.indices(n)` for a non-zero step: clamps start and stop into the
      range that `range(start, stop, step)` may walk on a list of length n. */
  function Bound(x: Option<int>, dflt: int, lower: int, upper: int, n: nat): int
  {
    match x
    case None => dflt
    case Some(v) =>
      var w := if v < 0 then v + n else v;
      if w < lower then lower else if w > upper then upper else w
  }

  /** `range(start, stop, step)` for a non-zero step. */
  function Range(start: int, stop: int, step: int): (r: seq<int>)
    requires step != 0
    decreases if step > 0 then stop - start else start - stop
  {
    if step > 0 && start < stop then [start] + Range(start + step, stop, step)
    else if step < 0 && start > stop then [start] + Range(start + step, stop, step)
    else []
  }

  /** The positions `range(*sl.indices(n))` visits: a ValueError when the
      step is 0, and otherwise only valid positions of a list of length n. */
  function SliceIndices(sl: Slice, n: nat): (r: Result<seq<int>>)
    ensures r.Ok? <==> sl.step != Some(0)
    ensures r.Err? ==> r.error == ValueError
    ensures r.Ok? ==> forall k :: 0 <= k < |r.value| ==> 0 <= r.value[k] < n
  {
    var step := if sl.step.None? then 1 else sl.step.value;
    if step == 0 then Err(ValueError)
    else
      var lower := if step < 0 then -1 else 0;
      var upper := if step < 0 then n - 1 else n;
      var start := Bound(sl.start, if step < 0 then upper else lower, lower, upper, n);
      var stop := Bound(sl.stop, if step < 0 then lower else upper, lower, upper, n);
      RangeWithin(start, stop, step, 0, upper);
      Ok(Range(start, stop, step))
  }

  lemma {:induction false} RangeWithin(start: int, stop: int, step: int, lo: int, hi: int)
    requires step != 0
    requires step > 0 ==> lo <= start && stop <= hi
    requires step < 0 ==> start <= hi && lo - 1 <= stop
    ensures forall k :: 0 <= k < |Range(start, stop, step)| ==>
      lo <= Range(start, stop, step)[k] && (if step > 0 then Range(start, stop, step)[k] < hi else Range(start, stop, step)[k] <= hi)
    decreases if step > 0 then stop - start else start - stop
  {
    if step > 0 && start < stop {
      RangeWithin(start + step, stop, step, lo, hi);
    } else if step < 0 && start > stop {
      RangeWithin(start + step, stop, step, lo, hi);
    }
  }

  /** `lst[:]` visits every position in order. */
  lemma {:induction false} FullSliceIsIdentity(n: nat)
    ensures SliceIndices(Slice(None, None, None), n) == Ok(seq(n, k => k))
  {
    RangeFrom(0, n);
    assert seq(n - 0, k => 0 + k) == seq(n, k => k);
  }

  lemma {:induction false} RangeFrom(i: nat, n: nat)
    requires i <= n
    ensures Range(i, n, 1) == seq(n - i, k => i + k)
    decreases n - i
  {
    if i < n {
      RangeFrom(i + 1, n);
    }
  }

  /** The elements `[s[i] for i in idx]`. */
  function Pick<T>(s: seq<T>, idx: seq<int>): (r: seq<T>)
    requires forall k :: 0 <= k < |idx| ==> 0 <= idx[k] < |s|
    ensures |r| == |idx|
    ensures forall k :: 0 <= k < |idx| ==> r[k] == s[idx[k]]
  {
    seq(|idx|, k requires 0 <= k < |idx| => s[idx[k]])
  }
}
