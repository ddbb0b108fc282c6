/**
 * List operations shared by several parts of the tracker:
 * the "includes ? filter : append" toggle used for completed topics and for review marks,
 * and `[...xs].sort(() => Math.random() - 0.5)`, which is modelled as an arbitrary permutation
 * chosen by a Lehmer code (a sequence of choices, each one taken modulo the number of items left).
 */
module Lists {

  /** No element occurs twice. */
  predicate NoDup<T(==)>(s: seq<T>) {
    forall i, j :: 0 <= i < j < |s| ==> s[i] != s[j]
  }

  /** `s.filter(y => y !== x)`: every copy of `x` removed, the rest kept in order. */
  function RemoveAll<T(==)>(s: seq<T>, x: T): (r: seq<T>)
    ensures multiset(r) == multiset(s)[x := 0]
    ensures x !in r && |r| <= |s|
  {
    if s == [] then []
    else
      var rest := RemoveAll(s[1..], x);
      assert s == [s[0]] + s[1..];
      if s[0] == x then rest else [s[0]] + rest
  }

  /** Removing elements keeps a duplicate-free list duplicate-free. */
  lemma {:induction false} RemoveAllNoDup<T>(s: seq<T>, x: T)
    requires NoDup(s)
    ensures NoDup(RemoveAll(s, x))
  {
    if s != [] {
      RemoveAllNoDup(s[1..], x);
      var rest := RemoveAll(s[1..], x);
      if s[0] != x {
        assert s[0] !in multiset(rest) by {
          assert s == [s[0]] + s[1..];
          assert s[0] !in s[1..];
        }
      }
    }
  }

  /** `s.includes(x) ? s.filter(y => y !== x) : [...s, x]`. */
  function Toggle<T(==, !new)>(s: seq<T>, x: T): (r: seq<T>)
    ensures x in r <==> x !in s
    ensures forall y :: y != x ==> (y in r <==> y in s)
    ensures x in s ==> multiset(r) == multiset(s)[x := 0]
    ensures x !in s ==> r == s + [x]
    ensures NoDup(s) ==> NoDup(r)
  {
    if x in s then
      var r := RemoveAll(s, x);
      assert forall y :: y != x ==> (y in r <==> y in multiset(r)) && (y in s <==> y in multiset(s));
      if NoDup(s) then RemoveAllNoDup(s, x); r else r
    else s + [x]
  }

  /** Toggling the same element twice restores membership of every element. */
  lemma ToggleTwice<T(!new)>(s: seq<T>, x: T)
    ensures forall y :: y in Toggle(Toggle(s, x), x) <==> y in s
  {
  }

  /** On a duplicate-free list, toggling twice restores the contents exactly (only the position of `x` may move). */
  lemma ToggleTwiceNoDup<T(!new)>(s: seq<T>, x: T)
    requires NoDup(s)
    ensures multiset(Toggle(Toggle(s, x), x)) == multiset(s)
  {
    var t := Toggle(s, x);
    if x in s {
      assert multiset(s)[x] == 1 by { NoDupCount(s, x); }
      assert t + [x] == Toggle(t, x);
      assert multiset(t + [x]) == multiset(s)[x := 0] + multiset{x};
    } else {
      assert Toggle(t, x) == RemoveAll(s + [x], x);
      assert multiset(s)[x] == 0;
      assert multiset(s + [x])[x := 0] == multiset(s);
    }
  }

  /** In a duplicate-free list, a present element occurs exactly once. */
  lemma {:induction false} NoDupCount<T>(s: seq<T>, x: T)
    requires NoDup(s) && x in s
    ensures multiset(s)[x] == 1
  {
    assert s == [s[0]] + s[1..];
    if s[0] == x {
      assert x !in s[1..];
    } else {
      NoDupCount(s[1..], x);
    }
  }

  /** The choice (modulo the remaining length) that a Lehmer code makes at its head; 0 once the code runs out. */
  function Pick(code: seq<nat>, n: nat): (k: nat)
    requires n > 0
    ensures k < n
  {
    var c := if |code| > 0 then code[0] else 0;
    if c < n then c else c % n
  }

  function Tail(code: seq<nat>): seq<nat> {
    if |code| > 0 then code[1..] else []
  }

  /** `s` rearranged by a Lehmer code: pick the element at the code's head, then arrange the rest by its tail. */
  function Shuffle<T>(s: seq<T>, code: seq<nat>): (r: seq<T>)
    ensures |r| == |s|
    ensures multiset(r) == multiset(s)
    decreases |s|
  {
    if s == [] then []
    else
      var k := Pick(code, |s|);
      var rest := s[..k] + s[k + 1..];
      assert s == s[..k] + [s[k]] + s[k + 1..];
      [s[k]] + Shuffle(rest, Tail(code))
  }

  /** Every rearrangement of `s` is produced by some Lehmer code, so the model loses none of the shuffles. */
  lemma {:induction false} ShuffleComplete<T>(s: seq<T>, t: seq<T>) returns (code: seq<nat>)
    requires multiset(t) == multiset(s)
    ensures Shuffle(s, code) == t
    decreases |s|
  {
    if s == [] {
      assert |t| == |multiset(t)| == 0;
      code := [];
    } else {
      var k := HeadPosition(s, t);
      var rest := s[..k] + s[k + 1..];
      var tail := ShuffleComplete(rest, t[1..]);
      code := [k] + tail;
      ShuffleCons(s, k, tail);
      assert t == [t[0]] + t[1..];
    }
  }

  /** Where the head of a rearrangement sits in the original; what is left on both sides has equal contents. */
  lemma HeadPosition<T>(s: seq<T>, t: seq<T>) returns (k: nat)
    requires multiset(t) == multiset(s) && s != []
    ensures k < |s| && |t| > 0 && s[k] == t[0]
    ensures multiset(t[1..]) == multiset(s[..k] + s[k + 1..])
  {
    assert |t| == |multiset(t)| == |s|;
    assert t[0] in multiset(s);
    k :| 0 <= k < |s| && s[k] == t[0];
    RemoveAtMultiset(s, k);
    RemoveAtMultiset(t, 0);
    assert t[..0] + t[1..] == t[1..];
  }

  /** A code whose head is already in range picks exactly that position. */
  lemma ShuffleCons<T>(s: seq<T>, k: nat, tail: seq<nat>)
    requires k < |s|
    ensures Shuffle(s, [k] + tail) == [s[k]] + Shuffle(s[..k] + s[k + 1..], tail)
  {
    var code := [k] + tail;
    assert code[0] == k;
    assert Pick(code, |s|) == k;
    assert Tail(code) == tail;
  }

  /** Taking out the element at position `k` takes one copy of it out of the multiset. */
  lemma RemoveAtMultiset<T>(s: seq<T>, k: nat)
    requires k < |s|
    ensures s == s[..k] + [s[k]] + s[k + 1..]
    ensures multiset(s[..k] + s[k + 1..]) == multiset(s) - multiset{s[k]}
  {
    assert s == s[..k] + [s[k]] + s[k + 1..];
  }

  /** `s.slice(0, n)`: the first n elements, or all of them when there are fewer. */
  function Take<T>(s: seq<T>, n: nat): (r: seq<T>)
    ensures |r| == if n <= |s| then n else |s|
  {
    if n <= |s| then s[..n] else s
  }

  /** Taking n first from a shorter tail changes nothing once an element is put in front and n are taken again. */
  lemma TakeConsTake<T>(x: T, s: seq<T>, n: nat)
    ensures Take([x] + Take(s, n), n) == Take([x] + s, n)
  {
    if n > 0 && n <= |s| {
      assert ([x] + Take(s, n))[..n] == ([x] + s)[..n];
    }
  }

  /** The elements of `s` last to first. */
  function Reverse<T>(s: seq<T>): (r: seq<T>)
    ensures |r| == |s| && forall i :: 0 <= i < |s| ==> r[i] == s[|s| - 1 - i]
  {
    seq(|s|, i requires 0 <= i < |s| => s[|s| - 1 - i])
  }

  lemma ReverseSnoc<T>(s: seq<T>, x: T)
    ensures Reverse(s + [x]) == [x] + Reverse(s)
  {
  }

  lemma ReverseCons<T>(s: seq<T>)
    requires s != []
    ensures Reverse(s) == Reverse(s[1..]) + [s[0]]
  {
  }

  /** A prefix takes each element no more often than the whole sequence has it. */
  lemma TakeSubMultiset<T>(s: seq<T>, n: nat)
    ensures multiset(Take(s, n)) <= multiset(s)
  {
    var m := |Take(s, n)|;
    assert s == Take(s, n) + s[m..];
  }

  /** Two positions holding the same value give that value two copies in the multiset. */
  lemma TwoCopies<T>(s: seq<T>, i: nat, j: nat)
    requires i < j < |s| && s[i] == s[j]
    ensures multiset(s)[s[i]] >= 2
  {
    assert s == s[..i] + [s[i]] + s[i + 1..j] + [s[j]] + s[j + 1..];
  }

  /** Whatever draws on a duplicate-free sequence no more often than it holds each element is itself duplicate-free. */
  lemma SubMultisetNoDup<T>(r: seq<T>, s: seq<T>)
    requires NoDup(s) && multiset(r) <= multiset(s)
    ensures NoDup(r)
  {
    forall i, j | 0 <= i < j < |r|
      ensures r[i] != r[j]
    {
      if r[i] == r[j] {
        TwoCopies(r, i, j);
        assert r[i] in multiset(s);
        NoDupCount(s, r[i]);
        assert false;
      }
    }
  }
}
