/** The legacy StringGenerator: per-prefix counters whose values are codes
    over the 52 ASCII letters, counted in bijective base 52 ('a' is the digit
    1, 'Z' the digit 52). */
module Generators {
  import opened Common
  import opened PyLists

  /** `string.ascii_letters`: a to z, then A to Z. */
  function Letters(): (r: seq<char>)
    ensures |r| == 52
  {
    seq(52, i requires 0 <= i < 52 =>
      if i < 26 then ('a' as int + i) as char else ('A' as int + i - 26) as char)
  }

  const FirstLetter: char := 'a'
  const LastLetter: char := 'Z'

  /** `letters.index(c)`: None where `index` raises ValueError. */
  function Digit(c: char): (r: Option<nat>)
    ensures r.Some? ==> r.value < 52 && Letters()[r.value] == c
    ensures r.None? ==> forall i :: 0 <= i < 52 ==> Letters()[i] != c
  {
    if 'a' <= c <= 'z' then Some(c as int - 'a' as int)
    else if 'A' <= c <= 'Z' then Some(c as int - 'A' as int + 26)
    else None
  }

  /** `increase_letter`: the next letter, cyclically, and ValueError for a
      character that is not a letter. */
  function IncreaseLetter(c: char): (r: Result<char>)
    ensures r.Ok? <==> Digit(c).Some?
    ensures r.Err? ==> r.error == ValueError
    ensures r.Ok? ==> Digit(r.value) == Some((Digit(c).value + 1) % 52)
  {
    if c == LastLetter then Ok(FirstLetter)
    else
      match Digit(c)
      case None => Err(ValueError)
      case Some(i) => Ok(Letters()[i + 1])
  }

  lemma {:induction false} IncreaseLetterExamples()
    ensures IncreaseLetter('a') == Ok('b') && IncreaseLetter('z') == Ok('A')
    ensures IncreaseLetter('A') == Ok('B') && IncreaseLetter('Z') == Ok('a')
  {
  }

  /** A code: letters only. */
  predicate IsCode(s: string)
  {
    forall i :: 0 <= i < |s| ==> Digit(s[i]).Some?
  }

  /** The value of a code in bijective base 52. */
  function Value(s: string): nat
    requires IsCode(s)
  {
    if s == [] then 0 else 52 * Value(s[..|s| - 1]) + Digit(s[|s| - 1]).value + 1
  }

  /** `increase_code`: the last letter is increased; a 'Z' wraps to 'a' and
      carries into the letter before it; a carry out of the first letter
      adds a new leading 'a'. */
  function Successor(s: string): Result<string>
    decreases |s|
  {
    if s == [] then Ok([FirstLetter])
    else
      match IncreaseLetter(s[|s| - 1])
      case Err(e) => Err(e)
      case Ok(l) =>
        if l != FirstLetter then Ok(s[..|s| - 1] + [l])
        else
          match Successor(s[..|s| - 1])
          case Err(e) => Err(e)
          case Ok(p) => Ok(p + [FirstLetter])
  }

  function Repeat(c: char, n: nat): (r: string)
    ensures |r| == n && forall i :: 0 <= i < n ==> r[i] == c
  {
    seq(n, _ => c)
  }

  /** The number of 'Z's at the end of s: the letters `increase_code` wraps. */
  function TrailingZ(s: string): (z: nat)
    ensures z <= |s|
    ensures forall k :: |s| - z <= k < |s| ==> s[k] == LastLetter
    ensures z < |s| ==> s[|s| - 1 - z] != LastLetter
  {
    if s == [] || s[|s| - 1] != LastLetter then 0 else TrailingZ(s[..|s| - 1]) + 1
  }

  lemma {:induction false} TrailingZExact(s: string, z: nat)
    requires z <= |s|
    requires forall k :: |s| - z <= k < |s| ==> s[k] == LastLetter
    requires z < |s| ==> s[|s| - 1 - z] != LastLetter
    ensures TrailingZ(s) == z
  {
    if z > 0 {
      TrailingZExact(s[..|s| - 1], z - 1);
    }
  }

  /** `increase_code` in closed form: the trailing 'Z's become 'a's and the
      letter before them is increased; with nothing but 'Z's, the result is
      one 'a' longer; the letter that is increased must be a letter. */
  lemma {:induction false} SuccessorShape(s: string)
    ensures TrailingZ(s) == |s| ==> Successor(s) == Ok(Repeat(FirstLetter, |s| + 1))
    ensures TrailingZ(s) < |s| && Digit(s[|s| - 1 - TrailingZ(s)]).None? ==> Successor(s) == Err(ValueError)
    ensures TrailingZ(s) < |s| && Digit(s[|s| - 1 - TrailingZ(s)]).Some? ==>
      Successor(s) == Ok(s[..|s| - 1 - TrailingZ(s)] + [IncreaseLetter(s[|s| - 1 - TrailingZ(s)]).value]
                         + Repeat(FirstLetter, TrailingZ(s)))
    decreases |s|
  {
    if s != [] && s[|s| - 1] == LastLetter {
      var p := s[..|s| - 1];
      SuccessorShape(p);
      var z := TrailingZ(p);
      assert TrailingZ(s) == z + 1;
      if z == |p| {
        assert Repeat(FirstLetter, |p| + 1) + [FirstLetter] == Repeat(FirstLetter, |s| + 1);
      } else if Digit(p[|p| - 1 - z]).Some? {
        var head, l := p[..|p| - 1 - z], IncreaseLetter(p[|p| - 1 - z]).value;
        assert s[..|s| - 1 - TrailingZ(s)] == head;
        assert s[|s| - 1 - TrailingZ(s)] == p[|p| - 1 - z];
        assert Successor(s) == Ok(head + [l] + Repeat(FirstLetter, z) + [FirstLetter]);
        assert head + [l] + Repeat(FirstLetter, z) + [FirstLetter] == head + [l] + Repeat(FirstLetter, z + 1);
      }
    } else if s != [] {
      assert TrailingZ(s) == 0;
      if Digit(s[|s| - 1]).Some? {
        assert IncreaseLetter(s[|s| - 1]).value != FirstLetter by {
          assert Digit(FirstLetter) == Some(0);
        }
        assert s[..|s| - 1] + [IncreaseLetter(s[|s| - 1]).value] + Repeat(FirstLetter, 0)
            == s[..|s| - 1] + [IncreaseLetter(s[|s| - 1]).value];
      }
    } else {
      assert Repeat(FirstLetter, 1) == [FirstLetter];
    }
  }

  /** `increase_code` adds one: on a code it succeeds, gives a code, and the
      value grows by exactly 1. */
  lemma {:induction false} SuccessorAddsOne(s: string)
    requires IsCode(s)
    ensures Successor(s).Ok? && IsCode(Successor(s).value)
    ensures Value(Successor(s).value) == Value(s) + 1
    decreases |s|
  {
    if s != [] {
      var p := s[..|s| - 1];
      assert IsCode(p);
      var l := IncreaseLetter(s[|s| - 1]).value;
      if l != FirstLetter {
        var t := p + [l];
        assert t[..|t| - 1] == p;
        assert Digit(l).value == Digit(s[|s| - 1]).value + 1 by {
          assert Digit(FirstLetter) == Some(0);
        }
      } else {
        SuccessorAddsOne(p);
        var t := Successor(p).value + [FirstLetter];
        assert t[..|t| - 1] == Successor(p).value;
        assert Digit(s[|s| - 1]).value == 51 by {
          assert Digit(FirstLetter) == Some(0);
        }
      }
    } else {
      var t := [FirstLetter];
      assert t[..0] == [];
    }
  }

  /** The result of `increase_code` on a code is one letter longer exactly
      when every letter is 'Z', and is then all 'a'. */
  lemma {:induction false} SuccessorLength(s: string)
    requires IsCode(s)
    ensures Successor(s).Ok?
    ensures |Successor(s).value| == |s| + 1 <==> forall k :: 0 <= k < |s| ==> s[k] == LastLetter
    ensures |Successor(s).value| != |s| + 1 ==> |Successor(s).value| == |s|
    ensures (forall k :: 0 <= k < |s| ==> s[k] == LastLetter) ==> Successor(s).value == Repeat(FirstLetter, |s| + 1)
  {
    SuccessorShape(s);
    var z := TrailingZ(s);
    if z < |s| {
      assert s[|s| - 1 - z] != LastLetter;
    }
  }

  /** `increase_code` fails exactly when the character it has to increase,
      the last one that is not 'Z', is not a letter. */
  lemma {:induction false} SuccessorFails(s: string)
    ensures Successor(s).Err? <==> TrailingZ(s) < |s| && Digit(s[|s| - 1 - TrailingZ(s)]).None?
    ensures Successor(s).Err? ==> Successor(s).error == ValueError
  {
    SuccessorShape(s);
  }

  lemma {:induction false} SuccessorExamples()
    ensures Successor("c") == Ok("d") && Successor("z") == Ok("A") && Successor("az") == Ok("aA")
  {
    assert IncreaseLetter('c') == Ok('d') && IncreaseLetter('z') == Ok('A');
    assert "c"[..0] + ['d'] == "d" && "z"[..0] + ['A'] == "A";
    assert "az"[..1] + ['A'] == "aA";
  }

  /** Carries: a trailing 'Z' wraps to 'a' and increases the letter before it. */
  lemma {:induction false} SuccessorCarryExamples()
    ensures Successor("aZ") == Ok("ba") && Successor("ZZ") == Ok("aaa") && Successor("ZZaZZ") == Ok("ZZbaa")
  {
    assert IncreaseLetter('a') == Ok('b') && IncreaseLetter('Z') == Ok('a');
    CarryExample("aZ", 1, "ba");
    SuccessorShape("ZZ");
    assert TrailingZ("ZZ") == 2;
    assert Repeat('a', 3) == "aaa";
    CarryExample("ZZaZZ", 2, "ZZbaa");
  }

  lemma {:induction false} CarryExample(s: string, z: nat, want: string)
    requires z < |s| && s[|s| - 1 - z] == 'a' && forall k :: |s| - z <= k < |s| ==> s[k] == 'Z'
    requires want == s[..|s| - 1 - z] + ['b'] + Repeat('a', z)
    ensures Successor(s) == Ok(want)
  {
    assert IncreaseLetter('a') == Ok('b');
    TrailingZExact(s, z);
    SuccessorShape(s);
  }

  /** The loop of `increase_code`, on the reversed list of letters: increase
      each letter in turn, stop at the first that does not wrap to 'a',
      and append an 'a' when all of them wrapped. */
  method IncreaseCode(code: string) returns (r: Result<string>)
    ensures r == Successor(code)
  {
    var n := |code|;
    var rev := Reverse(code);
    var idx := 0;
    while idx < |rev|
      invariant 0 <= idx <= |rev| == n
      invariant forall k :: 0 <= k < idx ==> rev[k] == FirstLetter
      invariant forall j :: n - idx <= j < n ==> code[j] == LastLetter
      invariant forall k :: idx <= k < n ==> rev[k] == code[n - 1 - k]
    {
      var newLetter := IncreaseLetter(rev[idx]);
      if newLetter.Err? {
        TrailingZExact(code, idx);
        SuccessorShape(code);
        return Err(newLetter.error);
      }
      rev := rev[idx := newLetter.value];
      if newLetter.value != FirstLetter {
        assert code[n - 1 - idx] != LastLetter;
        TrailingZExact(code, idx);
        SuccessorShape(code);
        var result := Reverse(rev);
        assert result == code[..n - 1 - idx] + [newLetter.value] + Repeat(FirstLetter, idx);
        return Ok(result);
      }
      assert code[n - 1 - idx] == LastLetter by {
        assert Digit(FirstLetter) == Some(0);
      }
      idx := idx + 1;
    }
    rev := rev + [FirstLetter];
    TrailingZExact(code, n);
    SuccessorShape(code);
    var result := Reverse(rev);
    assert result == Repeat(FirstLetter, n + 1);
    return Ok(result);
  }

  /** The last code of each prefix is the largest of the codes handed out
      under it. */
  ghost predicate Tracks(codes: map<int, string>, issued: map<int, set<string>>)
  {
    codes.Keys == issued.Keys &&
    forall p :: p in codes ==>
      IsCode(codes[p]) && codes[p] in issued[p] &&
      forall c :: c in issued[p] ==> IsCode(c) && Value(c) <= Value(codes[p])
  }

  /** Handing out a code one above the last keeps every earlier code below it. */
  lemma {:induction false} TracksNext(codes: map<int, string>, issued: map<int, set<string>>, prefix: int, code: string, prior: set<string>)
    requires Tracks(codes, issued) && IsCode(code)
    requires prefix in codes ==> prior == issued[prefix] && Value(code) == Value(codes[prefix]) + 1
    requires prefix !in codes ==> prior == {}
    ensures prefix in codes ==> code !in issued[prefix]
    ensures Tracks(codes[prefix := code], issued[prefix := prior + {code}])
  {
    var codes', issued' := codes[prefix := code], issued[prefix := prior + {code}];
    forall p | p in codes'
      ensures IsCode(codes'[p]) && codes'[p] in issued'[p]
      ensures forall c :: c in issued'[p] ==> IsCode(c) && Value(c) <= Value(codes'[p])
    {
      if p != prefix {
        assert codes'[p] == codes[p] && issued'[p] == issued[p];
      }
    }
  }

  /** The class attribute `_codes` shared by every user of the generator:
      the last code handed out per prefix. */
  class StringGenerator {
    var codes: map<int, string>
    /** Every code handed out per prefix since the prefix was last reset. */
    ghost var issued: map<int, set<string>>

    ghost predicate Valid()
      reads this
    {
      Tracks(codes, issued)
    }

    constructor ()
      ensures Valid() && codes == map[]
    {
      codes := map[];
      issued := map[];
    }

    /** `next(prefix)`: 'a' the first time, then `increase_code` of the last
        code; every code handed out for a prefix differs from the earlier ones. */
    method Next(prefix: int) returns (code: string)
      requires Valid()
      modifies this
      ensures Valid()
      ensures prefix !in old(codes) ==> code == [FirstLetter]
      ensures prefix in old(codes) ==> Successor(old(codes)[prefix]) == Ok(code)
      ensures codes == old(codes)[prefix := code]
      ensures IsCode(code)
      ensures Value(code) == if prefix in old(codes) then Value(old(codes)[prefix]) + 1 else 1
      ensures prefix in old(issued) ==> code !in old(issued)[prefix]
      ensures prefix in issued && code in issued[prefix]
      ensures forall p :: p in old(issued) && p != prefix ==> p in issued && issued[p] == old(issued)[p]
      ensures forall p :: p in old(issued) ==> p in issued && old(issued)[p] <= issued[p]
    {
      if prefix !in codes {
        code := [FirstLetter];
        assert Value(code) == 1 by {
          assert code[..0] == [];
        }
        TracksNext(codes, issued, prefix, code, {});
        assert {} + {code} == {code};
        codes := codes[prefix := code];
        issued := issued[prefix := {code}];
      } else {
        var last := codes[prefix];
        SuccessorAddsOne(last);
        var r := IncreaseCode(last);
        code := r.value;
        TracksNext(codes, issued, prefix, code, issued[prefix]);
        codes := codes[prefix := code];
        issued := issued[prefix := issued[prefix] + {code}];
      }
    }

    /** `delete(prefix)`: the next `next(prefix)` starts again at 'a'; an
        absent prefix is left alone. */
    method Delete(prefix: int)
      requires Valid()
      modifies this
      ensures Valid()
      ensures codes == old(codes) - {prefix}
      ensures issued == old(issued) - {prefix}
    {
      codes := codes - {prefix};
      issued := issued - {prefix};
    }

    /** `clear()`: every prefix starts again at 'a'. */
    method Clear()
      requires Valid()
      modifies this
      ensures Valid() && codes == map[]
    {
      codes := map[];
      issued := map[];
    }
  }
}
