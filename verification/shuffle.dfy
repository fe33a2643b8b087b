/** `shuffleArray` (Fisher-Yates) and the dealing of one card from the pool.
    The random index of each loop turn, `Math.floor(Math.random() * (i + 1))`,
    is an oracle: turn k of one shuffle (the turn for index i = n - 1 - k)
    swaps with position `draws[k]`, which lies in 0..i. */
module Shuffle {
  import opened Base
  import opened GameRoom

  /** One in-range index for each of the n - 1 turns of a shuffle of `n`
      elements. */
  predicate ValidDraws(draws: seq<nat>, n: nat) {
    |draws| >= n - 1 && forall k :: 0 <= k < n - 1 ==> draws[k] <= n - 1 - k
  }

  /** `[a[i], a[j]] = [a[j], a[i]]`. */
  function Swap<T>(a: seq<T>, i: nat, j: nat): (r: seq<T>)
    requires i < |a| && j < |a|
    ensures |r| == |a|
  {
    a[i := a[j]][j := a[i]]
  }

  lemma SwapPermutes<T>(a: seq<T>, i: nat, j: nat)
    requires i < |a| && j < |a|
    ensures multiset(Swap(a, i, j)) == multiset(a)
  {
  }

  /** The loop from index `i` down to 1; the call for index `i` reads the
      draw number |a| - 1 - i. */
  function ShuffleFrom<T>(a: seq<T>, i: int, draws: seq<nat>): seq<T>
    requires i < |a|
    requires ValidDraws(draws, |a|)
    decreases i
  {
    if i <= 0 then a
    else ShuffleFrom(Swap(a, i, draws[|a| - 1 - i]), i - 1, draws)
  }

  /** `shuffleArray(array)`. */
  function FisherYates<T>(s: seq<T>, draws: seq<nat>): seq<T>
    requires ValidDraws(draws, |s|)
  {
    ShuffleFrom(s, |s| - 1, draws)
  }

  /** Every step of the loop only swaps, so the result is a permutation. */
  lemma {:induction false} ShuffleFromPermutes<T>(a: seq<T>, i: int, draws: seq<nat>)
    requires i < |a|
    requires ValidDraws(draws, |a|)
    ensures |ShuffleFrom(a, i, draws)| == |a|
    ensures multiset(ShuffleFrom(a, i, draws)) == multiset(a)
    decreases i
  {
    if i > 0 {
      var b := Swap(a, i, draws[|a| - 1 - i]);
      SwapPermutes(a, i, draws[|a| - 1 - i]);
      assert ShuffleFrom(a, i, draws) == ShuffleFrom(b, i - 1, draws);
      ShuffleFromPermutes(b, i - 1, draws);
    }
  }

  lemma FisherYatesPermutes<T>(s: seq<T>, draws: seq<nat>)
    requires ValidDraws(draws, |s|)
    ensures |FisherYates(s, draws)| == |s|
    ensures multiset(FisherYates(s, draws)) == multiset(s)
  {
    ShuffleFromPermutes(s, |s| - 1, draws);
  }

  /** The JavaScript loop over an array, which `startGame` runs on a copy
      of the pool (`[...allEvents]`), so the caller's sequence is untouched. */
  method ShuffleArray<T>(s: seq<T>, draws: seq<nat>) returns (r: seq<T>)
    requires ValidDraws(draws, |s|)
    ensures r == FisherYates(s, draws)
    ensures |r| == |s| && multiset(r) == multiset(s)
  {
    if |s| == 0 {
      return s;
    }
    var a := new T[|s|](k requires 0 <= k < |s| => s[k]);
    assert a[..] == s;
    var i := |s| - 1;
    while i > 0
      invariant 0 <= i < |s| == a.Length
      invariant ShuffleFrom(a[..], i, draws) == FisherYates(s, draws)
      invariant multiset(a[..]) == multiset(s)
      decreases i
    {
      var j := draws[|s| - 1 - i];
      ghost var before := a[..];
      assert ShuffleFrom(before, i, draws) == ShuffleFrom(Swap(before, i, j), i - 1, draws);
      a[i], a[j] := a[j], a[i];
      assert a[..] == Swap(before, i, j);
      SwapPermutes(before, i, j);
      i := i - 1;
    }
    r := a[..];
  }

  /** Only positions are moved, so shuffling commutes with dropping authors. */
  lemma {:induction false} ShuffleFromToCard(a: seq<Event>, i: int, draws: seq<nat>)
    requires i < |a|
    requires ValidDraws(draws, |a|)
    ensures ToCard(ShuffleFrom(a, i, draws)) == ShuffleFrom(ToCard(a), i, draws)
    decreases i
  {
    if i > 0 {
      var j := draws[|a| - 1 - i];
      var c := ToCard(a);
      assert |c| == |a|;
      assert ShuffleFrom(a, i, draws) == ShuffleFrom(Swap(a, i, j), i - 1, draws);
      assert ShuffleFrom(c, i, draws) == ShuffleFrom(Swap(c, i, j), i - 1, draws);
      SwapToCard(a, i, j);
      ShuffleFromToCard(Swap(a, i, j), i - 1, draws);
    }
  }

  lemma SwapToCard(a: seq<Event>, i: nat, j: nat)
    requires i < |a| && j < |a|
    ensures ToCard(Swap(a, i, j)) == Swap(ToCard(a), i, j)
  {
    var l := ToCard(Swap(a, i, j));
    var r := Swap(ToCard(a), i, j);
    assert forall k :: 0 <= k < |a| ==> l[k] == r[k];
  }

  /** One player's card: shuffle a copy of the pool, keep the first 24
      entries, keep their text only. */
  function DealCard(pool: seq<Event>, draws: seq<nat>): (card: seq<CardEntry>)
    requires ValidDraws(draws, |pool|)
    ensures DealtFrom(card, pool)
  {
    var shuffled := FisherYates(pool, draws);
    FisherYatesPermutes(pool, draws);
    var card := ToCard(shuffled[..Min(CardSize, |pool|)]);
    assert DealtFrom(card, pool) by {
      ShuffleFromToCard(pool, |pool| - 1, draws);
      var all := ToCard(shuffled);
      FisherYatesPermutes(ToCard(pool), draws);
      assert card == all[..Min(CardSize, |pool|)];
      assert all == card + all[Min(CardSize, |pool|)..];
    }
    card
  }

  /** Each card text is the text of some pool entry. */
  lemma DealtTextsFromPool(card: seq<CardEntry>, pool: seq<Event>)
    requires DealtFrom(card, pool)
    ensures forall c :: c in card ==> exists e :: e in pool && e.text == c.text
  {
    forall c | c in card ensures exists e :: e in pool && e.text == c.text {
      assert c in multiset(card);
      assert c in multiset(ToCard(pool));
      var i :| 0 <= i < |pool| && ToCard(pool)[i] == c;
      assert pool[i] in pool;
    }
  }

  /** With at least 24 ideas in the pool, a card is a full 24 entries. */
  lemma FullPoolGivesFullCard(card: seq<CardEntry>, pool: seq<Event>)
    requires DealtFrom(card, pool)
    requires |pool| >= CardSize
    ensures |card| == CardSize
  {
  }
}
