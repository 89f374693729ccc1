/** The in-place random permutation that both generators apply to their
    bank before every attempt. The random number generator is replaced by
    draws supplied by the caller, `coins(attempt, position)`, so a run of the
    sampler is a function of those draws. */
module Shuffling {

  /** The sequence with positions i and j exchanged. */
  function Swap<T>(s: seq<T>, i: nat, j: nat): (r: seq<T>)
    requires i < |s| && j < |s|
    ensures |r| == |s|
  {
    s[i := s[j]][j := s[i]]
  }

  /** The partner position for position i - 1 in a Fisher-Yates pass: a
      position at or below it, chosen by the caller's draw. */
  function Pick(coins: (nat, nat) -> nat, attempt: nat, i: nat): (j: nat)
    requires i > 0
    ensures j < i
  {
    coins(attempt, i - 1) % i
  }

  /** `s` after a Fisher-Yates pass over its first `i` positions: for each
      position from i - 1 down to 1, exchange it with its picked partner. */
  function Shuffled<T>(s: seq<T>, coins: (nat, nat) -> nat, attempt: nat, i: nat): (r: seq<T>)
    requires i <= |s|
    ensures |r| == |s|
    decreases i
  {
    if i <= 1 then s
    else Shuffled(Swap(s, i - 1, Pick(coins, attempt, i)), coins, attempt, i - 1)
  }

  /** Whatever the draws, a shuffle is a permutation: it keeps the multiset
      of the elements. */
  lemma {:induction false} ShuffledPermutation<T>(s: seq<T>, coins: (nat, nat) -> nat, attempt: nat, i: nat)
    requires i <= |s|
    ensures multiset(Shuffled(s, coins, attempt, i)) == multiset(s)
    decreases i
  {
    if i > 1 {
      var j := Pick(coins, attempt, i);
      assert multiset(Swap(s, i - 1, j)) == multiset(s);
      ShuffledPermutation(Swap(s, i - 1, Pick(coins, attempt, i)), coins, attempt, i - 1);
    }
  }

  /** `std::shuffle(bank.begin(), bank.end(), gen)`: permutes the array in
      place, one exchange per position. */
  method Shuffle<T>(a: array<T>, coins: (nat, nat) -> nat, attempt: nat)
    modifies a
    ensures a[..] == Shuffled(old(a[..]), coins, attempt, a.Length)
    ensures multiset(a[..]) == multiset(old(a[..]))
  {
    var i := a.Length;
    while i > 1
      invariant 0 <= i <= a.Length
      invariant Shuffled(a[..], coins, attempt, i) == Shuffled(old(a[..]), coins, attempt, a.Length)
    {
      var j := Pick(coins, attempt, i);
      ghost var before := a[..];
      a[i - 1], a[j] := a[j], a[i - 1];
      assert a[..] == Swap(before, i - 1, j);
      i := i - 1;
    }
    ShuffledPermutation(old(a[..]), coins, attempt, a.Length);
  }
}
