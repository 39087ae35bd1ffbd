/** Counting the elements of a sequence that satisfy a predicate, and the way
    a count changes when one element is replaced or appended. */
module Counting {

  function Count<T>(s: seq<T>, keep: T -> bool): nat {
    if s == [] then 0 else (if keep(s[0]) then 1 else 0) + Count(s[1..], keep)
  }

  function Bit(b: bool): nat {
    if b then 1 else 0
  }

  lemma {:induction false} CountUpdate<T>(s: seq<T>, i: nat, x: T, keep: T -> bool)
    requires i < |s|
    ensures Count(s[i := x], keep) == Count(s, keep) - Bit(keep(s[i])) + Bit(keep(x))
  {
    if i == 0 {
      assert s[i := x][1..] == s[1..];
    } else {
      CountUpdate(s[1..], i - 1, x, keep);
      assert s[i := x][1..] == s[1..][i - 1 := x];
    }
  }

  lemma {:induction false} CountAppend<T>(s: seq<T>, t: seq<T>, keep: T -> bool)
    ensures Count(s + t, keep) == Count(s, keep) + Count(t, keep)
  {
    if s == [] {
      assert s + t == t;
    } else {
      assert (s + t)[1..] == s[1..] + t;
      CountAppend(s[1..], t, keep);
    }
  }

  lemma CountWithout<T>(s: seq<T>, i: nat, keep: T -> bool)
    requires i < |s|
    ensures Count(s, keep) == Count(s[..i] + s[i + 1..], keep) + Bit(keep(s[i]))
  {
    CountAppend(s[..i], s[i + 1..], keep);
    CountAppend(s[..i], s[i..], keep);
    assert s == s[..i] + s[i..];
    assert s[i..][1..] == s[i + 1..];
  }

  lemma {:induction false} CountAtMostLength<T>(s: seq<T>, keep: T -> bool)
    ensures Count(s, keep) <= |s|
  {
    if s != [] {
      CountAtMostLength(s[1..], keep);
    }
  }

  lemma {:induction false} CountNone<T>(s: seq<T>, keep: T -> bool)
    requires forall x :: x in s ==> !keep(x)
    ensures Count(s, keep) == 0
  {
    if s != [] {
      CountNone(s[1..], keep);
    }
  }
}
