/** The user-facing List and Deque: a client that keeps one encoded value per
    position, and a serializer that encodes on the way in and decodes on the
    way out. Both are modelled over the current TemporaryDirectoryClient. */
module Containers {
  import opened Common
  import opened PyLists
  import opened Payloads
  import opened TemporaryClients
  import opened DequeLaws

  /** Every value encodes to a `str` or a bytes payload, as pickle and json do. */
  ghost predicate Encodable<V(!new)>(s: Serializer<V>)
  {
    forall v :: s.dumps(v).kind != Unsupported
  }

  lemma {:induction false} DecodeInsert<V(!new)>(s: Serializer<V>, ps: seq<Payload>, k: nat, v: V)
    requires RoundTrips(s) && k <= |ps|
    ensures Decode(s, PyLists.Insert(ps, k, s.dumps(v))) == PyLists.Insert(Decode(s, ps), k, v)
  {
  }

  lemma {:induction false} DecodeUpdate<V(!new)>(s: Serializer<V>, ps: seq<Payload>, k: nat, v: V)
    requires RoundTrips(s) && k < |ps|
    ensures Decode(s, ps[k := s.dumps(v)]) == Decode(s, ps)[k := v]
  {
  }

  lemma {:induction false} DecodeRemove<V>(s: Serializer<V>, ps: seq<Payload>, k: nat)
    requires k < |ps|
    ensures Decode(s, Remove(ps, k)) == Remove(Decode(s, ps), k)
  {
  }

  class List<V(==,!new)> {
    /** `self.__client`. */
    const client: TemporaryDirectoryClient
    /** `self.__serializer`. */
    const ser: Serializer<V>

    ghost predicate Valid()
      reads this, client
    {
      client.Valid() && RoundTrips(ser) && Encodable(ser)
    }

    /** The values the list holds: each stored payload decoded. */
    function Values(): seq<V>
      reads this, client
    {
      Decode(ser, client.Items())
    }

    /** `List(iterable, client_class, serializer_class)`: a new client,
        then `extend(iterable)`. */
    constructor (vs: seq<V>, mode: Mode, ser: Serializer<V>)
      requires IsWriteMode(mode) && RoundTrips(ser) && Encodable(ser)
      ensures Valid() && fresh(client) && client.mode == mode
      ensures Values() == vs
    {
      client := new TemporaryDirectoryClient(mode);
      this.ser := ser;
      new;
      Extend(vs);
    }

    /** `extend`, inherited from MutableSequence: `insert(len(self), v)` for each v. */
    method Extend(vs: seq<V>)
      requires Valid()
      modifies client
      ensures Valid()
      ensures Values() == old(Values()) + vs
    {
      var i := 0;
      while i < |vs|
        invariant 0 <= i <= |vs|
        invariant Valid()
        invariant Values() == old(Values()) + vs[..i]
      {
        Insert(|client.files|, vs[i]);
        assert vs[..i + 1] == vs[..i] + [vs[i]];
        i := i + 1;
      }
      assert vs[..i] == vs;
    }

    /** `list[index]`: the decoded payload at a Python index. */
    method Get(index: int) returns (r: Result<V>)
      requires Valid()
      ensures ItemIndex(index, |Values()|).None? ==> r == Err(IndexError)
      ensures ItemIndex(index, |Values()|).Some? ==> r == Ok(Values()[ItemIndex(index, |Values()|).value])
    {
      var p := client.Get(index);
      if p.Err? {
        return Err(p.error);
      }
      return Ok(ser.loads(p.value));
    }

    /** `list[index] = value`. */
    method Set(index: int, v: V) returns (r: Outcome)
      requires Valid()
      modifies client
      ensures Valid()
      ensures r == if ItemIndex(index, |old(Values())|).None? then Fail(IndexError) else Done
      ensures r.Fail? ==> Values() == old(Values())
      ensures r.Done? ==> Values() == old(Values())[ItemIndex(index, |old(Values())|).value := v]
    {
      var p := ser.dumps(v);
      r := client.Set(index, p);
      if r.Done? {
        DecodeUpdate(ser, old(client.Items()), ItemIndex(index, |old(Values())|).value, v);
      }
    }

    /** `del list[index]`. */
    method Delete(index: int) returns (r: Outcome)
      requires Valid()
      modifies client
      ensures Valid()
      ensures r == if ItemIndex(index, |old(Values())|).None? then Fail(IndexError) else Done
      ensures r.Fail? ==> Values() == old(Values())
      ensures r.Done? ==> Values() == Remove(old(Values()), ItemIndex(index, |old(Values())|).value)
    {
      r := client.Delete(index);
      if r.Done? {
        DecodeRemove(ser, old(client.Items()), ItemIndex(index, |old(Values())|).value);
      }
    }

    /** `list.insert(index, value)`: as `list.insert` on the values. */
    method Insert(index: int, v: V)
      requires Valid()
      modifies client
      ensures Valid()
      ensures Values() == PyLists.Insert(old(Values()), InsertIndex(index, |old(Values())|), v)
    {
      var p := ser.dumps(v);
      var r := client.Insert(index, p);
      DecodeInsert(ser, old(client.Items()), InsertIndex(index, |old(Values())|), v);
    }

    /** `list == other`: equal lengths and equal values position by position. */
    method Equals(other: seq<V>) returns (b: bool)
      requires Valid()
      ensures b <==> Values() == other
    {
      if |client.files| != |other| {
        return false;
      }
      var i := 0;
      while i < |other|
        invariant 0 <= i <= |other|
        invariant Values()[..i] == other[..i]
      {
        var elem := Get(i);
        if elem.value != other[i] {
          return false;
        }
        i := i + 1;
      }
      assert Values() == Values()[..i] && other == other[..i];
      return true;
    }

    /** `list[sl]`: a new List over a new client of the same class (so in
        that class's default mode, "w+b") holding the sliced values. */
    method GetSlice(sl: Slice) returns (r: Result<List<V>>)
      requires Valid()
      ensures r.Err? <==> sl.step == Some(0)
      ensures r.Err? ==> r.error == ValueError
      ensures r.Ok? ==> fresh(r.value) && fresh(r.value.client) && r.value.Valid()
      ensures r.Ok? ==> r.value.Values() == Pick(Values(), SliceIndices(sl, |Values()|).value)
    {
      var idx := SliceIndices(sl, |client.files|);
      if idx.Err? {
        return Err(idx.error);
      }
      var vs := [];
      var j := 0;
      while j < |idx.value|
        invariant 0 <= j <= |idx.value|
        invariant vs == Pick(Values(), idx.value[..j])
      {
        var v := Get(idx.value[j]);
        vs := vs + [v.value];
        j := j + 1;
      }
      assert idx.value[..j] == idx.value;
      var copy := new List(vs, WPlusB, ser);
      return Ok(copy);
    }

    /** `copy(list)`: a new List, over a new client of the same class,
        holding the same values. */
    method Copy() returns (r: List<V>)
      requires Valid()
      ensures fresh(r) && fresh(r.client) && r.Valid()
      ensures r.Values() == Values()
    {
      var vs := [];
      var j := 0;
      while j < |client.files|
        invariant 0 <= j <= |Values()|
        invariant vs == Values()[..j]
      {
        var v := Get(j);
        vs := vs + [v.value];
        j := j + 1;
      }
      r := new List(vs, WPlusB, ser);
    }
  }

  class Deque<V(==,!new)> {
    /** `self.__client`. */
    const client: TemporaryDirectoryClient
    /** `self.__serializer`. */
    const ser: Serializer<V>
    /** `self.__max_length`. */
    const maxlen: Option<nat>

    ghost predicate Valid()
      reads this, client
    {
      client.Valid() && RoundTrips(ser) && Encodable(ser)
    }

    /** The values the deque holds, front first. */
    function Values(): seq<V>
      reads this, client
    {
      Decode(ser, client.Items())
    }

    /** `Deque(iterable, maxlen, client_class, serializer_class)`: a new
        client, then `extend(iterable)`, which already applies maxlen. */
    constructor (vs: seq<V>, maxlen: Option<nat>, mode: Mode, ser: Serializer<V>)
      requires IsWriteMode(mode) && RoundTrips(ser) && Encodable(ser)
      ensures Valid() && fresh(client) && client.mode == mode && this.maxlen == maxlen
      ensures Values() == ExtendSpec(maxlen, [], vs)
    {
      client := new TemporaryDirectoryClient(mode);
      this.ser := ser;
      this.maxlen := maxlen;
      new;
      Extend(vs);
    }

    /** `d[idx]`. */
    method Get(idx: int) returns (r: Result<V>)
      requires Valid()
      ensures ItemIndex(idx, |Values()|).None? ==> r == Err(IndexError)
      ensures ItemIndex(idx, |Values()|).Some? ==> r == Ok(Values()[ItemIndex(idx, |Values()|).value])
    {
      var p := client.Get(idx);
      if p.Err? {
        return Err(p.error);
      }
      return Ok(ser.loads(p.value));
    }

    /** `d[idx] = value`: appends, prepends or does nothing; never replaces. */
    method SetItem(idx: int, v: V)
      requires Valid()
      modifies client
      ensures Valid()
      ensures Values() == SetItemSpec(old(Values()), idx, v)
    {
      var p := ser.dumps(v);
      var n := |client.files|;
      if idx >= n {
        var r := client.Insert(idx, p);
        DecodeInsert(ser, old(client.Items()), n, v);
        assert PyLists.Insert(old(Values()), n, v) == old(Values()) + [v];
      }
      if idx < 0 {
        var r := client.Insert(0, p);
        DecodeInsert(ser, old(client.Items()), 0, v);
        assert PyLists.Insert(old(Values()), 0, v) == [v] + old(Values());
      }
    }

    /** `del d[idx]`. */
    method Delete(idx: int) returns (r: Outcome)
      requires Valid()
      modifies client
      ensures Valid()
      ensures r == if ItemIndex(idx, |old(Values())|).None? then Fail(IndexError) else Done
      ensures r.Fail? ==> Values() == old(Values())
      ensures r.Done? ==> Values() == Remove(old(Values()), ItemIndex(idx, |old(Values())|).value)
    {
      r := client.Delete(idx);
      if r.Done? {
        DecodeRemove(ser, old(client.Items()), ItemIndex(idx, |old(Values())|).value);
      }
    }

    /** `d.insert(idx, value)`: `list.insert` on the values; maxlen is not applied. */
    method Insert(idx: int, v: V)
      requires Valid()
      modifies client
      ensures Valid()
      ensures Values() == PyLists.Insert(old(Values()), InsertIndex(idx, |old(Values())|), v)
    {
      var p := ser.dumps(v);
      var r := client.Insert(idx, p);
      DecodeInsert(ser, old(client.Items()), InsertIndex(idx, |old(Values())|), v);
    }

    /** `d.pop()`: removes and returns the last value. */
    method Pop() returns (r: Result<V>)
      requires Valid()
      modifies client
      ensures Valid()
      ensures old(Values()) == [] ==> r == Err(IndexError) && Values() == []
      ensures old(Values()) != [] ==>
        r == Ok(old(Values())[|old(Values())| - 1]) && Values() == old(Values())[..|old(Values())| - 1]
    {
      if |client.files| == 0 {
        return Err(IndexError);
      }
      var last := |client.files| - 1;
      r := Get(last);
      var d := Delete(last);
    }

    /** `d.popleft()`: removes and returns the first value. */
    method PopLeft() returns (r: Result<V>)
      requires Valid()
      modifies client
      ensures Valid()
      ensures old(Values()) == [] ==> r == Err(IndexError) && Values() == []
      ensures old(Values()) != [] ==> r == Ok(old(Values())[0]) && Values() == old(Values())[1..]
    {
      if |client.files| == 0 {
        return Err(IndexError);
      }
      r := Get(0);
      var d := Delete(0);
    }

    /** `d.append(x)`. */
    method Append(v: V)
      requires Valid()
      modifies client
      ensures Valid()
      ensures Values() == AppendSpec(maxlen, old(Values()), v)
    {
      SetItem(|client.files|, v);
      if OverMax(maxlen, |client.files|) {
        var x := PopLeft();
      }
    }

    /** `d.appendleft(x)`. */
    method AppendLeft(v: V)
      requires Valid()
      modifies client
      ensures Valid()
      ensures Values() == AppendLeftSpec(maxlen, old(Values()), v)
    {
      SetItem(-1, v);
      if OverMax(maxlen, |client.files|) {
        var x := Pop();
      }
    }

    /** `d.extend(vs)`, and `d += vs`. */
    method Extend(vs: seq<V>)
      requires Valid()
      modifies client
      ensures Valid()
      ensures Values() == ExtendSpec(maxlen, old(Values()), vs)
    {
      var i := 0;
      while i < |vs|
        invariant 0 <= i <= |vs|
        invariant Valid()
        invariant ExtendSpec(maxlen, Values(), vs[i..]) == ExtendSpec(maxlen, old(Values()), vs)
      {
        assert vs[i..][1..] == vs[i + 1..];
        Append(vs[i]);
        i := i + 1;
      }
    }

    /** `d.extendleft(vs)`. */
    method ExtendLeft(vs: seq<V>)
      requires Valid()
      modifies client
      ensures Valid()
      ensures Values() == ExtendLeftSpec(maxlen, old(Values()), vs)
    {
      var i := 0;
      while i < |vs|
        invariant 0 <= i <= |vs|
        invariant Valid()
        invariant ExtendLeftSpec(maxlen, Values(), vs[i..]) == ExtendLeftSpec(maxlen, old(Values()), vs)
      {
        assert vs[i..][1..] == vs[i + 1..];
        AppendLeft(vs[i]);
        i := i + 1;
      }
    }

    /** `d.clear()`: `popleft` until the deque is empty. */
    method Clear()
      requires Valid()
      modifies client
      ensures Valid() && Values() == []
    {
      while |client.files| > 0
        invariant Valid()
        decreases |client.files|
      {
        var x := PopLeft();
      }
    }

    /** `d.count(value)`: how many values equal `value`. */
    method Count(v: V) returns (c: nat)
      requires Valid()
      ensures c == multiset(Values())[v]
    {
      c := 0;
      var i := 0;
      while i < |client.files|
        invariant 0 <= i <= |Values()|
        invariant c == multiset(Values()[..i])[v]
      {
        var item := Get(i);
        assert Values()[..i + 1] == Values()[..i] + [Values()[i]];
        if item.value == v {
          c := c + 1;
        }
        i := i + 1;
      }
      assert Values()[..i] == Values();
    }

    /** `d.rotate(n)`: normalise n, then step right or left one value at a time. */
    method Rotate(n: int)
      requires Valid()
      modifies client
      ensures Valid()
      ensures |old(Values())| <= 1 ==> Values() == old(Values())
      ensures |old(Values())| >= 2 ==>
        Values() == RotateSpec(maxlen, old(Values()), RotateSteps(n, |old(Values())|))
    {
      var length := |client.files|;
      if length <= 1 {
        return;
      }
      var k := RotateSteps(n, length);
      if k > 0 {
        RotateRightBy(k);
      } else {
        RotateLeftBy(-k);
      }
    }

    /** rotate's first loop: `appendleft(pop())`, k times. */
    method RotateRightBy(k: nat)
      requires Valid() && |Values()| >= 1
      modifies client
      ensures Valid()
      ensures Values() == RotateSpec(maxlen, old(Values()), k)
    {
      var i := k;
      while i > 0
        invariant Valid() && |Values()| >= 1
        invariant RotateSpec(maxlen, Values(), i) == RotateSpec(maxlen, old(Values()), k)
      {
        StepRightOnce();
        i := i - 1;
      }
    }

    /** rotate's second loop: `append(popleft())`, k times. */
    method RotateLeftBy(k: nat)
      requires Valid() && |Values()| >= 1
      modifies client
      ensures Valid()
      ensures Values() == RotateSpec(maxlen, old(Values()), -(k as int))
    {
      var i := k;
      while i > 0
        invariant Valid() && |Values()| >= 1
        invariant RotateSpec(maxlen, Values(), -(i as int)) == RotateSpec(maxlen, old(Values()), -(k as int))
      {
        RotateLeftFirst(maxlen, Values(), i);
        StepLeftOnce();
        i := i - 1;
      }
    }

    method StepRightOnce()
      requires Valid() && |Values()| >= 1
      modifies client
      ensures Valid()
      ensures Values() == StepRight(maxlen, old(Values()))
    {
      var x := Pop();
      AppendLeft(x.value);
    }

    method StepLeftOnce()
      requires Valid() && |Values()| >= 1
      modifies client
      ensures Valid()
      ensures Values() == StepLeft(maxlen, old(Values()))
    {
      var x := PopLeft();
      Append(x.value);
    }

    /** `d == other`: equal lengths and equal values position by position. */
    method Equals(other: seq<V>) returns (b: bool)
      requires Valid()
      ensures b <==> Values() == other
    {
      if |client.files| != |other| {
        return false;
      }
      var i := 0;
      while i < |other|
        invariant 0 <= i <= |other|
        invariant Values()[..i] == other[..i]
      {
        var x := Get(i);
        if x.value != other[i] {
          return false;
        }
        i := i + 1;
      }
      assert Values() == Values()[..i] && other == other[..i];
      return true;
    }

    /** `d != other`: the exact negation of `d == other`. */
    method NotEquals(other: seq<V>) returns (b: bool)
      requires Valid()
      ensures b <==> Values() != other
    {
      if |client.files| != |other| {
        return true;
      }
      var i := 0;
      while i < |other|
        invariant 0 <= i <= |other|
        invariant Values()[..i] == other[..i]
      {
        var x := Get(i);
        if x.value != other[i] {
          return true;
        }
        i := i + 1;
      }
      assert Values() == Values()[..i] && other == other[..i];
      return false;
    }

    /** The loop shared by the four orderings: walk the common positions
        (`izip`) and answer false at the first pair outside `allowed`. */
    method ComparePairwise(other: seq<V>, compare: (V, V) -> Ordering, allowed: set<Ordering>) returns (b: bool)
      requires Valid()
      ensures b <==> Pairwise(Values(), other, compare, allowed)
    {
      var i := 0;
      while i < |client.files| && i < |other|
        invariant 0 <= i <= |Values()|
        invariant forall k :: 0 <= k < i && k < |other| ==> compare(Values()[k], other[k]) in allowed
      {
        var x := Get(i);
        if compare(x.value, other[i]) !in allowed {
          return false;
        }
        i := i + 1;
      }
      return true;
    }

    /** `d < other`: every common pair has `i < j` (a pair with `i >= j` answers False). */
    method LessThan(other: seq<V>, compare: (V, V) -> Ordering) returns (b: bool)
      requires Valid()
      ensures b <==> forall k :: 0 <= k < |Values()| && k < |other| ==> compare(Values()[k], other[k]) == Less
    {
      b := ComparePairwise(other, compare, {Less});
    }

    /** `d <= other`: every common pair has `i <= j`. */
    method LessOrEqual(other: seq<V>, compare: (V, V) -> Ordering) returns (b: bool)
      requires Valid()
      ensures b <==> forall k :: 0 <= k < |Values()| && k < |other| ==> compare(Values()[k], other[k]) != Greater
    {
      b := ComparePairwise(other, compare, {Less, Equal});
    }

    /** `d > other`: every common pair has `i > j`. */
    method GreaterThan(other: seq<V>, compare: (V, V) -> Ordering) returns (b: bool)
      requires Valid()
      ensures b <==> forall k :: 0 <= k < |Values()| && k < |other| ==> compare(Values()[k], other[k]) == Greater
    {
      b := ComparePairwise(other, compare, {Greater});
    }

    /** `d >= other`: every common pair has `i >= j`. */
    method GreaterOrEqual(other: seq<V>, compare: (V, V) -> Ordering) returns (b: bool)
      requires Valid()
      ensures b <==> forall k :: 0 <= k < |Values()| && k < |other| ==> compare(Values()[k], other[k]) != Less
    {
      b := ComparePairwise(other, compare, {Greater, Equal});
    }

    /** `copy(d)`: a new Deque with the same maxlen, built by `extend`, so an
        over-long deque is cut to its last maxlen values. */
    method Copy() returns (r: Deque<V>)
      requires Valid()
      ensures fresh(r) && fresh(r.client) && r.Valid() && r.maxlen == maxlen
      ensures r.Values() == ExtendSpec(maxlen, [], Values())
    {
      var vs := [];
      var j := 0;
      while j < |client.files|
        invariant 0 <= j <= |Values()|
        invariant vs == Values()[..j]
      {
        var v := Get(j);
        vs := vs + [v.value];
        j := j + 1;
      }
      assert vs == Values();
      r := new Deque(vs, maxlen, WPlusB, ser);
    }
  }
}
