/** What each Deque operation does to the sequence of values the deque holds,
    and the laws these effects obey. The Deque class is proved to follow these
    functions; everything proved here then holds of the class. */
module DequeLaws {
  import opened Common
  import opened PyLists

  /** `self.__max_length and self.__max_length < len(self)`: a maxlen of
      None or 0 never evicts. */
  predicate OverMax(maxlen: Option<nat>, n: int)
  {
    maxlen.Some? && maxlen.value != 0 && maxlen.value < n
  }

  /** `d[idx] = x`: an index at or past the end appends, a negative index
      prepends, and an index inside the deque changes nothing. */
  function SetItemSpec<V>(s: seq<V>, idx: int, v: V): seq<V>
  {
    if idx >= |s| then s + [v] else if idx < 0 then [v] + s else s
  }

  /** `append`: `d[len(d)] = x`, then one `popleft` if the deque is now too long. */
  function AppendSpec<V>(maxlen: Option<nat>, s: seq<V>, v: V): seq<V>
  {
    var t := SetItemSpec(s, |s|, v);
    if OverMax(maxlen, |t|) then t[1..] else t
  }

  /** `appendleft`: `d[-1] = x`, then one `pop` if the deque is now too long. */
  function AppendLeftSpec<V>(maxlen: Option<nat>, s: seq<V>, v: V): seq<V>
  {
    var t := SetItemSpec(s, -1, v);
    if OverMax(maxlen, |t|) then t[..|t| - 1] else t
  }

  /** `extend`: `append` each value in turn. */
  function ExtendSpec<V>(maxlen: Option<nat>, s: seq<V>, vs: seq<V>): seq<V>
    decreases |vs|
  {
    if vs == [] then s else ExtendSpec(maxlen, AppendSpec(maxlen, s, vs[0]), vs[1..])
  }

  /** `extendleft`: `appendleft` each value in turn. */
  function ExtendLeftSpec<V>(maxlen: Option<nat>, s: seq<V>, vs: seq<V>): seq<V>
    decreases |vs|
  {
    if vs == [] then s else ExtendLeftSpec(maxlen, AppendLeftSpec(maxlen, s, vs[0]), vs[1..])
  }

  /** The last maxlen values of t (all of t when unbounded). */
  function Window<V>(maxlen: Option<nat>, t: seq<V>): (r: seq<V>)
    ensures OverMax(maxlen, |t|) ==> |r| == maxlen.value
    ensures !OverMax(maxlen, |t|) ==> r == t
  {
    if OverMax(maxlen, |t|) then t[|t| - maxlen.value..] else t
  }

  /** The first maxlen values of t (all of t when unbounded). */
  function WindowLeft<V>(maxlen: Option<nat>, t: seq<V>): (r: seq<V>)
    ensures OverMax(maxlen, |t|) ==> |r| == maxlen.value
    ensures !OverMax(maxlen, |t|) ==> r == t
  {
    if OverMax(maxlen, |t|) then t[..maxlen.value] else t
  }

  /** Appending to a deque no longer than maxlen keeps the last maxlen values of
      the deque followed by the new value. */
  lemma {:induction false} WindowAppend<V>(maxlen: Option<nat>, s: seq<V>, v: V)
    requires !OverMax(maxlen, |s|)
    ensures AppendSpec(maxlen, s, v) == Window(maxlen, s + [v])
    ensures !OverMax(maxlen, |AppendSpec(maxlen, s, v)|)
  {
  }

  /** A window of a window of t followed by u is the window of t + u. */
  lemma {:induction false} WindowOfWindow<V>(maxlen: Option<nat>, t: seq<V>, u: seq<V>)
    ensures Window(maxlen, Window(maxlen, t) + u) == Window(maxlen, t + u)
  {
    if OverMax(maxlen, |t|) {
      var m := maxlen.value;
      var w := t[|t| - m..];
      assert OverMax(maxlen, |w + u|) <==> |u| > 0;
      if |u| > 0 {
        assert (w + u)[|w + u| - m..] == (t + u)[|t + u| - m..];
      } else {
        assert w + u == w;
        assert t + u == t;
      }
    }
  }

  /** On a deque no longer than maxlen, `extend(vs)` keeps the last maxlen
      values of the deque followed by vs: what collections.deque does. */
  lemma {:induction false} ExtendIsWindow<V>(maxlen: Option<nat>, s: seq<V>, vs: seq<V>)
    requires !OverMax(maxlen, |s|)
    ensures ExtendSpec(maxlen, s, vs) == Window(maxlen, s + vs)
    decreases |vs|
  {
    if vs == [] {
      assert s + vs == s;
    } else {
      WindowAppend(maxlen, s, vs[0]);
      var t := AppendSpec(maxlen, s, vs[0]);
      ExtendIsWindow(maxlen, t, vs[1..]);
      WindowOfWindow(maxlen, s + [vs[0]], vs[1..]);
      assert s + [vs[0]] + vs[1..] == s + vs;
    }
  }

  lemma {:induction false} WindowLeftPrepend<V>(maxlen: Option<nat>, s: seq<V>, v: V)
    requires !OverMax(maxlen, |s|)
    ensures AppendLeftSpec(maxlen, s, v) == WindowLeft(maxlen, [v] + s)
    ensures !OverMax(maxlen, |AppendLeftSpec(maxlen, s, v)|)
  {
  }

  lemma {:induction false} WindowLeftOfWindowLeft<V>(maxlen: Option<nat>, u: seq<V>, t: seq<V>)
    ensures WindowLeft(maxlen, u + WindowLeft(maxlen, t)) == WindowLeft(maxlen, u + t)
  {
    if OverMax(maxlen, |t|) {
      var m := maxlen.value;
      var w := t[..m];
      if |u| > 0 {
        assert (u + w)[..m] == (u + t)[..m];
      } else {
        assert u + w == w;
        assert u + t == t;
      }
    }
  }

  /** On a deque no longer than maxlen, `extendleft(vs)` keeps the first
      maxlen values of reversed(vs) followed by the deque. */
  lemma {:induction false} ExtendLeftIsWindow<V>(maxlen: Option<nat>, s: seq<V>, vs: seq<V>)
    requires !OverMax(maxlen, |s|)
    ensures ExtendLeftSpec(maxlen, s, vs) == WindowLeft(maxlen, Reverse(vs) + s)
    decreases |vs|
  {
    if vs == [] {
      assert Reverse(vs) + s == s;
    } else {
      WindowLeftPrepend(maxlen, s, vs[0]);
      var t := AppendLeftSpec(maxlen, s, vs[0]);
      ExtendLeftIsWindow(maxlen, t, vs[1..]);
      WindowLeftOfWindowLeft(maxlen, Reverse(vs[1..]), [vs[0]] + s);
      ReversePrepend(vs, s);
    }
  }

  lemma {:induction false} ReversePrepend<V>(vs: seq<V>, s: seq<V>)
    requires vs != []
    ensures Reverse(vs[1..]) + ([vs[0]] + s) == Reverse(vs) + s
  {
    assert Reverse(vs) == Reverse(vs[1..]) + [vs[0]];
  }

  /** The deque examples of the repository's tests, derived from the laws. */
  lemma {:induction false} DequeExamples()
    ensures ExtendSpec(Some(3), [1, 2], [4, 4]) == [2, 4, 4]
    ensures AppendLeftSpec(Some(3), [2, 4, 4], 1) == [1, 2, 4]
    ensures ExtendLeftSpec(None, [3, 4, 5], [2, 1, 0]) == [0, 1, 2, 3, 4, 5]
  {
    ExtendIsWindow(Some(3), [1, 2], [4, 4]);
    assert [1, 2] + [4, 4] == [1, 2, 4, 4];
    ExtendLeftIsWindow(None, [3, 4, 5], [2, 1, 0]);
    assert Reverse([2, 1, 0]) == [0, 1, 2];
    assert [0, 1, 2] + [3, 4, 5] == [0, 1, 2, 3, 4, 5];
  }

  /** `rotate`'s normalisation of n for a deque of `length >= 2` values: a
      count of steps of at most half the length, equal to n modulo length. */
  function RotateSteps(n: int, length: nat): (r: int)
    requires length >= 2
    ensures -(length / 2) <= r <= length / 2
    ensures (if r >= 0 then r else r + length) == n % length
  {
    var halflen := length / 2;
    if n > halflen || n < -halflen then
      var m := n % length;
      if m > halflen then m - length else m
    else
      if n >= 0 then SmallMod(n, length); n
      else NegSmallMod(n, length); n
  }

  lemma {:induction false} SmallMod(n: int, m: int)
    requires 0 <= n < m
    ensures n % m == n
  {
  }

  lemma {:induction false} NegSmallMod(n: int, m: int)
    requires -m <= n < 0
    ensures n % m == n + m
  {
  }

  /** One step to the right: `appendleft(pop())`. */
  function StepRight<V>(maxlen: Option<nat>, s: seq<V>): (r: seq<V>)
    requires |s| >= 1
    ensures |r| >= 1
  {
    AppendLeftSpec(maxlen, s[..|s| - 1], s[|s| - 1])
  }

  /** One step to the left: `append(popleft())`. */
  function StepLeft<V>(maxlen: Option<nat>, s: seq<V>): (r: seq<V>)
    requires |s| >= 1
    ensures |r| >= 1
  {
    AppendSpec(maxlen, s[1..], s[0])
  }

  /** On a deque no longer than maxlen, a step right is a plain rotation by one. */
  lemma {:induction false} StepRightUnbounded<V>(maxlen: Option<nat>, s: seq<V>)
    requires |s| >= 1 && !OverMax(maxlen, |s|)
    ensures StepRight(maxlen, s) == [s[|s| - 1]] + s[..|s| - 1]
  {
  }

  lemma {:induction false} StepLeftUnbounded<V>(maxlen: Option<nat>, s: seq<V>)
    requires |s| >= 1 && !OverMax(maxlen, |s|)
    ensures StepLeft(maxlen, s) == s[1..] + [s[0]]
  {
  }

  /** rotate's two loops: k steps right when k > 0, -k steps left when k < 0. */
  function RotateSpec<V>(maxlen: Option<nat>, s: seq<V>, k: int): (r: seq<V>)
    requires |s| >= 1
    ensures |r| >= 1
    decreases if k >= 0 then k else -k
  {
    if k > 0 then RotateSpec(maxlen, StepRight(maxlen, s), k - 1)
    else if k < 0 then RotateSpec(maxlen, StepLeft(maxlen, s), k + 1)
    else s
  }

  /** k steps to the right move the last k values to the front. */
  lemma {:induction false} RotateRight<V>(maxlen: Option<nat>, s: seq<V>, k: nat)
    requires 1 <= |s| && k <= |s| && !OverMax(maxlen, |s|)
    ensures RotateSpec(maxlen, s, k) == s[|s| - k..] + s[..|s| - k]
    decreases k
  {
    var n := |s|;
    if k == 0 {
      assert s[n..] + s[..n] == s;
    } else {
      var t := StepRight(maxlen, s);
      assert RotateSpec(maxlen, s, k) == RotateSpec(maxlen, t, k - 1);
      StepRightUnbounded(maxlen, s);
      RotateRight(maxlen, t, k - 1);
      ShiftRightOnce(s, t, k);
    }
  }

  lemma {:induction false} ShiftRightOnce<V>(s: seq<V>, t: seq<V>, k: nat)
    requires 1 <= k <= |s| && t == [s[|s| - 1]] + s[..|s| - 1]
    ensures t[|t| - (k - 1)..] + t[..|t| - (k - 1)] == s[|s| - k..] + s[..|s| - k]
  {
    var n := |s|;
    assert t[n - (k - 1)..] == s[n - k..n - 1];
    assert t[..n - (k - 1)] == [s[n - 1]] + s[..n - k];
    assert s[n - k..] == s[n - k..n - 1] + [s[n - 1]];
  }

  /** A rotation by -i starts with one step to the left. */
  lemma {:induction false} RotateLeftFirst<V>(maxlen: Option<nat>, s: seq<V>, i: nat)
    requires |s| >= 1 && i >= 1
    ensures RotateSpec(maxlen, s, -(i as int)) == RotateSpec(maxlen, StepLeft(maxlen, s), -(i as int) + 1)
  {
  }

  /** k steps to the left move the first k values to the back. */
  lemma {:induction false} RotateLeft<V>(maxlen: Option<nat>, s: seq<V>, k: nat)
    requires 1 <= |s| && k <= |s| && !OverMax(maxlen, |s|)
    ensures RotateSpec(maxlen, s, -(k as int)) == s[k..] + s[..k]
    decreases k
  {
    if k == 0 {
      assert s[0..] + s[..0] == s;
    } else {
      var t := StepLeft(maxlen, s);
      RotateLeftFirst(maxlen, s, k);
      StepLeftUnbounded(maxlen, s);
      RotateLeft(maxlen, t, k - 1);
      ShiftLeftOnce(s, t, k);
    }
  }

  lemma {:induction false} ShiftLeftOnce<V>(s: seq<V>, t: seq<V>, k: nat)
    requires 1 <= k <= |s| && t == s[1..] + [s[0]]
    ensures t[k - 1..] + t[..k - 1] == s[k..] + s[..k]
  {
    assert t[k - 1..] == s[k..] + [s[0]];
    assert t[..k - 1] == s[1..k];
    assert s[..k] == [s[0]] + s[1..k];
  }

  /** The values of `d.rotate(n)`: on a deque no longer than maxlen, the last
      `n % len(d)` values move to the front, as with collections.deque. */
  function Rotated<V>(s: seq<V>, n: int): (r: seq<V>)
    requires |s| >= 1
    ensures |r| == |s|
  {
    var a := n % |s|;
    s[|s| - a..] + s[..|s| - a]
  }

  lemma {:induction false} RotateIsRotation<V>(maxlen: Option<nat>, s: seq<V>, n: int)
    requires |s| >= 2 && !OverMax(maxlen, |s|)
    ensures RotateSpec(maxlen, s, RotateSteps(n, |s|)) == Rotated(s, n)
  {
    var r, a := RotateSteps(n, |s|), n % |s|;
    if r >= 0 {
      assert a == r;
      RotateRight(maxlen, s, r);
    } else {
      assert |s| - a == -r;
      RotateLeft(maxlen, s, -r);
    }
  }

  /** `rotate(n)` followed by `rotate(-n)` restores the deque. */
  lemma {:induction false} RotateRestores<V>(maxlen: Option<nat>, s: seq<V>, n: int)
    requires |s| >= 2 && !OverMax(maxlen, |s|)
    ensures RotateSpec(maxlen, RotateSpec(maxlen, s, RotateSteps(n, |s|)), RotateSteps(-n, |s|)) == s
  {
    var t := RotateSpec(maxlen, s, RotateSteps(n, |s|));
    RotateIsRotation(maxlen, s, n);
    assert t == Rotated(s, n);
    RotateIsRotation(maxlen, t, -n);
    RotatedBack(s, n);
  }

  lemma {:induction false} RotatedBack<V>(s: seq<V>, n: int)
    requires |s| >= 1
    ensures Rotated(Rotated(s, n), -n) == s
  {
    var L, a := |s|, n % |s|;
    NegMod(n, L);
    var t := Rotated(s, n);
    assert t == s[L - a..] + s[..L - a];
    if a == 0 {
      assert t == s;
      assert Rotated(t, -n) == t[L..] + t[..L];
    } else {
      assert Rotated(t, -n) == t[a..] + t[..a];
      assert t[a..] == s[..L - a];
      assert t[..a] == s[L - a..];
    }
  }

  lemma {:induction false} MulAtLeast(m: int, d: int)
    requires m > 0 && d >= 1
    ensures m * d >= m
    decreases d
  {
    if d > 1 {
      MulAtLeast(m, d - 1);
      assert m * d == m * (d - 1) + m;
    }
  }

  /** The remainder of y by m is the r of any `y == q * m + r` with `0 <= r < m`. */
  lemma {:induction false} ModUnique(y: int, m: int, q: int, r: int)
    requires m > 0 && 0 <= r < m && y == q * m + r
    ensures y % m == r
  {
    var q', r' := y / m, y % m;
    assert y == m * q' + r';
    assert m * (q - q') == r' - r by {
      assert m * (q - q') == m * q - m * q';
    }
    if q - q' >= 1 {
      MulAtLeast(m, q - q');
    } else if q' - q >= 1 {
      MulAtLeast(m, q' - q);
    }
  }

  lemma {:induction false} NegMod(k: int, m: int)
    requires m > 0
    ensures (-k) % m == if k % m == 0 then 0 else m - k % m
  {
    var q, a := k / m, k % m;
    assert k == m * q + a;
    if a == 0 {
      ModUnique(-k, m, -q, 0);
    } else {
      ModUnique(-k, m, -q - 1, m - a);
    }
  }

  /** The order `compare` gives on the values; Python's `<`, `<=`, `>`, `>=`
      on values are read off it. */
  datatype Ordering = Less | Equal | Greater

  /** `__lt__`, `__le__`, `__gt__`, `__ge__`: every pair the two sequences have
      in common at the same position stands in the relation; lengths are
      never compared. */
  predicate Pairwise<V>(s: seq<V>, o: seq<V>, compare: (V, V) -> Ordering, allowed: set<Ordering>)
  {
    forall k :: 0 <= k < |s| && k < |o| ==> compare(s[k], o[k]) in allowed
  }

  /** Unlike a lexicographic order, every deque is both less and greater than
      the empty sequence, and a sequence sharing no position is both. */
  lemma {:induction false} ComparedWithEmpty<V>(s: seq<V>, compare: (V, V) -> Ordering)
    ensures Pairwise(s, [], compare, {Less}) && Pairwise(s, [], compare, {Greater})
    ensures Pairwise([], s, compare, {Less}) && Pairwise([], s, compare, {Greater})
  {
  }
}
