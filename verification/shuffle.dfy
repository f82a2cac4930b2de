/** The seeded shuffle of the test order (crates/ferridriver-bdd/src/translate.rs:626-645). */
module Shuffle {
  import opened Splitmix

  // ---------------------------------------------------------------- the draws

  /** The draws for the positions i, i - 1, ..., 1, when a state yields this output. */
  function Draws(output: Word -> Word, state: Word, i: nat): (draws: seq<nat>)
    decreases i
  {
    if i == 0 then []
    else
      var next := NextState(state);
      [output(next) % (i + 1)] + Draws(output, next, i - 1)
  }

  /** A draw for position i names a position up to i. */
  predicate InRange(draws: seq<nat>, i: nat) {
    |draws| == i && forall k :: 0 <= k < i ==> draws[k] <= i - k
  }

  lemma {:induction false} DrawsInRange(output: Word -> Word, state: Word, i: nat)
    ensures InRange(Draws(output, state, i), i)
    decreases i
  {
    if i > 0 {
      var next := NextState(state);
      DrawsInRange(output, next, i - 1);
      OneMoreDraw(output(next) % (i + 1), Draws(output, next, i - 1), i - 1);
    }
  }

  lemma OneMoreDraw(j: nat, rest: seq<nat>, i: nat)
    requires InRange(rest, i) && j <= i + 1
    ensures InRange([j] + rest, i + 1)
  {
    assert forall k :: 0 < k < i + 1 ==> ([j] + rest)[k] == rest[k - 1];
  }

  // ---------------------------------------------------------------- the swaps

  function Swapped<T>(s: seq<T>, i: nat, j: nat): (t: seq<T>)
    requires i < |s| && j < |s|
    ensures |t| == |s|
  {
    s[i := s[j]][j := s[i]]
  }

  /** The rounds for the positions i, i - 1, ..., 1. */
  function Rounds<T>(s: seq<T>, i: nat, draws: seq<nat>): (t: seq<T>)
    requires i < |s| && InRange(draws, i)
    ensures |t| == |s|
    decreases i
  {
    if i == 0 then s else Rounds(Swapped(s, i, draws[0]), i - 1, draws[1..])
  }

  function Shuffled<T>(s: seq<T>, draws: seq<nat>): (t: seq<T>)
    requires InRange(draws, if s == [] then 0 else |s| - 1)
    ensures |t| == |s|
  {
    if s == [] then s else Rounds(s, |s| - 1, draws)
  }

  lemma RoundsNext<T>(s: seq<T>, i: nat, j: nat, rest: seq<nat>)
    requires 0 < i < |s| && j <= i && InRange(rest, i - 1)
    ensures InRange([j] + rest, i) && Rounds(s, i, [j] + rest) == Rounds(Swapped(s, i, j), i - 1, rest)
  {
    OneMoreDraw(j, rest, i - 1);
    assert ([j] + rest)[1..] == rest;
  }

  /** The next state of the generator and the position drawn from it. */
  method NextDraw(state: Word, i: nat) returns (next: Word, j: nat)
    requires 0 < i
    ensures j <= i && Draws(Scrambled, state, i) == [j] + Draws(Scrambled, next, i - 1)
    ensures Draws(Scrambled, state, i)[1..] == Draws(Scrambled, next, i - 1)
    ensures InRange(Draws(Scrambled, next, i - 1), i - 1)
  {
    DrawsInRange(Scrambled, NextState(state), i - 1);
    var z;
    next, z := NextRandom(state);
    j := z % (i + 1);
  }

  method FisherYatesShuffle<T>(items: array<T>, seed: Word)
    modifies items
    ensures var last := if items.Length == 0 then 0 else items.Length - 1;
            InRange(Draws(Scrambled, seed, last), last) &&
            items[..] == Shuffled(old(items[..]), Draws(Scrambled, seed, last))
  {
    var len := items.Length;
    ghost var draws := Draws(Scrambled, seed, if len == 0 then 0 else len - 1);
    DrawsInRange(Scrambled, seed, if len == 0 then 0 else len - 1);
    if len <= 1 {
      return;
    }
    var state := seed;
    var i := len - 1;
    ghost var shuffled := Shuffled(items[..], draws);
    while i > 0
      invariant 0 <= i < len && InRange(draws, i) && draws == Draws(Scrambled, state, i)
      invariant Rounds(items[..], i, draws) == shuffled
    {
      var j;
      state, j := NextDraw(state, i);
      draws := draws[1..];
      RoundsNext(items[..], i, j, draws);
      SwapInPlace(items, i, j);
      i := i - 1;
    }
  }

  /** `items.swap(i, j)`. */
  method SwapInPlace<T>(items: array<T>, i: nat, j: nat)
    requires i < items.Length && j < items.Length
    modifies items
    ensures items[..] == Swapped(old(items[..]), i, j)
  {
    items[i], items[j] := items[j], items[i];
  }

  // ---------------------------------------------------------------- what a shuffle does

  lemma {:induction false} SwapKeeps<T>(s: seq<T>, i: nat, j: nat)
    requires j <= i < |s|
    ensures multiset(Swapped(s, i, j)) == multiset(s)
  {
    if j < i {
      assert s == s[..j] + [s[j]] + s[j + 1..i] + [s[i]] + s[i + 1..];
      assert Swapped(s, i, j) == s[..j] + [s[i]] + s[j + 1..i] + [s[j]] + s[i + 1..];
    } else {
      assert Swapped(s, i, j) == s;
    }
  }

  /** Whatever is drawn, the items come back as a permutation. */
  lemma {:induction false} RoundsPermute<T>(s: seq<T>, i: nat, draws: seq<nat>)
    requires i < |s| && InRange(draws, i)
    ensures multiset(Rounds(s, i, draws)) == multiset(s)
    decreases i
  {
    if i > 0 {
      SwapKeeps(s, i, draws[0]);
      RoundsPermute(Swapped(s, i, draws[0]), i - 1, draws[1..]);
    }
  }

  /** The draw for the position i - k is the (k + 1)-st output, modulo the number of positions left. */
  lemma {:induction false} DrawsAre(output: Word -> Word, state: Word, i: nat, k: nat)
    requires k < i
    ensures |Draws(output, state, i)| == i
    ensures Draws(output, state, i)[k] == output(StateAfter(state, k + 1)) % (i - k + 1)
    decreases k
  {
    DrawsInRange(output, state, i);
    if k > 0 {
      DrawsAre(output, NextState(state), i - 1, k - 1);
      StateAfterFirst(state, k);
    } else {
      assert StateAfter(state, 1) == NextState(StateAfter(state, 0));
    }
  }

  /** One round swaps two places and no other. */
  lemma SwapPlaces<T>(s: seq<T>, i: nat, j: nat, k: nat)
    requires i < |s| && j < |s| && k < |s|
    ensures Swapped(s, i, j)[k] == if k == i then s[j] else if k == j then s[i] else s[k]
  {
  }

  /** The first round settles its position for good: the item drawn stands there in the end. */
  lemma RoundPlaces<T>(s: seq<T>, i: nat, draws: seq<nat>)
    requires 0 < i < |s| && InRange(draws, i)
    ensures Rounds(s, i, draws)[i] == s[draws[0]]
    ensures Rounds(s, i, draws) == Rounds(Swapped(s, i, draws[0]), i - 1, draws[1..])
  {
    RoundsKeepAbove(Swapped(s, i, draws[0]), i - 1, draws[1..], i);
  }

  /** Later rounds leave the positions above theirs alone. */
  lemma {:induction false} RoundsKeepAbove<T>(s: seq<T>, i: nat, draws: seq<nat>, k: nat)
    requires i < k < |s| && InRange(draws, i)
    ensures Rounds(s, i, draws)[k] == s[k]
    decreases i
  {
    if i > 0 {
      RoundsKeepAbove(Swapped(s, i, draws[0]), i - 1, draws[1..], k);
    }
  }

  predicate Distinct<T(==)>(s: seq<T>) {
    forall i, j :: 0 <= i < j < |s| ==> s[i] != s[j]
  }

  lemma {:induction false} SwapDistinct<T>(s: seq<T>, i: nat, j: nat)
    requires j <= i < |s| && Distinct(s)
    ensures Distinct(Swapped(s, i, j))
  {}

  /** On distinct items different draws give different orders. */
  lemma {:induction false} RoundsInjective<T>(s: seq<T>, i: nat, a: seq<nat>, b: seq<nat>)
    requires i < |s| && Distinct(s) && InRange(a, i) && InRange(b, i)
    requires Rounds(s, i, a) == Rounds(s, i, b)
    ensures a == b
    decreases i
  {
    if i > 0 {
      RoundsKeepAbove(Swapped(s, i, a[0]), i - 1, a[1..], i);
      RoundsKeepAbove(Swapped(s, i, b[0]), i - 1, b[1..], i);
      assert s[a[0]] == Rounds(s, i, a)[i] == s[b[0]];
      assert a[0] == b[0];
      SwapDistinct(s, i, a[0]);
      RoundsInjective(Swapped(s, i, a[0]), i - 1, a[1..], b[1..]);
      assert a == [a[0]] + a[1..] && b == [b[0]] + b[1..];
    }
  }

  /** The target order agrees with `s` above position i and holds the same items. */
  predicate Reachable<T(==)>(s: seq<T>, i: nat, target: seq<T>) {
    i < |s| == |target| && multiset(s) == multiset(target) && s[i + 1..] == target[i + 1..]
  }

  lemma {:induction false} StillBelow<T>(s: seq<T>, i: nat, target: seq<T>)
    requires Reachable(s, i, target)
    ensures multiset(s[..i + 1]) == multiset(target[..i + 1])
    ensures target[i] in s[..i + 1]
  {
    assert s == s[..i + 1] + s[i + 1..];
    assert target == target[..i + 1] + target[i + 1..];
    var above := multiset(s[i + 1..]);
    assert multiset(s[..i + 1]) == multiset(s) - above;
    assert multiset(target[..i + 1]) == multiset(target) - above;
    assert target[..i + 1][i] == target[i];
    assert target[i] in multiset(target[..i + 1]);
    assert target[i] in multiset(s[..i + 1]);
  }

  function IndexOf<T(==)>(s: seq<T>, x: T): (i: nat)
    requires x in s
    ensures i < |s| && s[i] == x
  {
    if s[0] == x then 0 else 1 + IndexOf(s[1..], x)
  }

  /** The draws that lead to `target`: for each position from the top, where its item stands now. */
  ghost function DrawsFor<T>(s: seq<T>, i: nat, target: seq<T>): (draws: seq<nat>)
    requires Reachable(s, i, target)
    decreases i
  {
    if i == 0 then []
    else
      StillBelow(s, i, target);
      var j := IndexOf(s[..i + 1], target[i]);
      SwapReaches(s, i, j, target);
      [j] + DrawsFor(Swapped(s, i, j), i - 1, target)
  }

  lemma {:induction false} SwapReaches<T>(s: seq<T>, i: nat, j: nat, target: seq<T>)
    requires Reachable(s, i, target) && 0 < i && j <= i && s[j] == target[i]
    ensures Reachable(Swapped(s, i, j), i - 1, target)
  {
    SwapKeeps(s, i, j);
    var t := Swapped(s, i, j);
    assert t[i..] == [t[i]] + t[i + 1..];
    assert t[i + 1..] == s[i + 1..];
    assert target[i..] == [target[i]] + target[i + 1..];
  }

  lemma {:induction false} NothingLeft<T>(s: seq<T>, target: seq<T>)
    requires Reachable(s, 0, target)
    ensures s == target
  {
    StillBelow(s, 0, target);
    assert s[..1] == [s[0]] && target[..1] == [target[0]];
    assert s == s[..1] + s[1..] && target == target[..1] + target[1..];
  }

  /** Every permutation comes from some draws. */
  lemma {:induction false} RoundsSurjective<T>(s: seq<T>, i: nat, target: seq<T>)
    requires Reachable(s, i, target)
    ensures InRange(DrawsFor(s, i, target), i) && Rounds(s, i, DrawsFor(s, i, target)) == target
    decreases i
  {
    if i == 0 {
      NothingLeft(s, target);
    } else {
      StillBelow(s, i, target);
      var j := IndexOf(s[..i + 1], target[i]);
      SwapReaches(s, i, j, target);
      RoundsSurjective(Swapped(s, i, j), i - 1, target);
      RoundsNext(s, i, j, DrawsFor(Swapped(s, i, j), i - 1, target));
    }
  }

  /** On distinct items the draws and the permutations correspond one to one. */
  lemma {:induction false} ShufflesAreThePermutations<T>(s: seq<T>, target: seq<T>)
    requires s != [] && Distinct(s)
    ensures multiset(target) == multiset(s) <==>
            exists draws :: InRange(draws, |s| - 1) && Shuffled(s, draws) == target
    ensures forall a, b :: InRange(a, |s| - 1) && InRange(b, |s| - 1) && Shuffled(s, a) == Shuffled(s, b) ==> a == b
  {
    var last := |s| - 1;
    if multiset(target) == multiset(s) {
      assert |target| == |multiset(target)| == |s|;
      RoundsSurjective(s, last, target);
      assert Shuffled(s, DrawsFor(s, last, target)) == target;
    }
    forall draws | InRange(draws, last)
      ensures multiset(Shuffled(s, draws)) == multiset(s)
    {
      RoundsPermute(s, last, draws);
    }
    forall a, b | InRange(a, last) && InRange(b, last) && Shuffled(s, a) == Shuffled(s, b)
      ensures a == b
    {
      RoundsInjective(s, last, a, b);
    }
  }

  // -------- the order depends on the seed and the length alone

  function Positions(n: nat): seq<int> {
    seq(n, k requires 0 <= k < n => k)
  }

  /** The items stand where the moved positions say. */
  predicate Follows<T(==)>(s: seq<T>, at: seq<int>, t: seq<T>) {
    |s| == |at| && forall k :: 0 <= k < |at| ==> 0 <= at[k] < |t| && s[k] == t[at[k]]
  }

  lemma {:induction false} SwapFollows<T>(s: seq<T>, at: seq<int>, t: seq<T>, i: nat, j: nat)
    requires Follows(s, at, t) && i < |s| && j < |s|
    ensures Follows(Swapped(s, i, j), Swapped(at, i, j), t)
  {
    var moved := Swapped(at, i, j);
    assert forall k :: 0 <= k < |at| ==> moved[k] == (if k == j then at[i] else if k == i then at[j] else at[k]);
  }

  lemma {:induction false} RoundsFollow<T>(s: seq<T>, at: seq<int>, t: seq<T>, i: nat, draws: seq<nat>)
    requires Follows(s, at, t) && i < |s| && InRange(draws, i)
    ensures Follows(Rounds(s, i, draws), Rounds(at, i, draws), t)
    decreases i
  {
    if i > 0 {
      SwapFollows(s, at, t, i, draws[0]);
      RoundsFollow(Swapped(s, i, draws[0]), Swapped(at, i, draws[0]), t, i - 1, draws[1..]);
    }
  }

  /** Any list is shuffled the way the list of its positions is. */
  lemma {:induction false} ShuffleIgnoresItems<T>(s: seq<T>, draws: seq<nat>)
    requires s != [] && InRange(draws, |s| - 1)
    ensures Follows(Shuffled(s, draws), Shuffled(Positions(|s|), draws), s)
  {
    assert Follows(s, Positions(|s|), s);
    RoundsFollow(s, Positions(|s|), s, |s| - 1, draws);
  }
}
