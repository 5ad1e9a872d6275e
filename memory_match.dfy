/** The memory engine (`MemoryMatchGame` in brackixos.py).

    Sixteen face-down cards hold eight fruits twice each, in shuffled order.
    The player turns up at most two cards; turning up the second counts a
    move and schedules the check, which keeps an equal pair turned up for
    good (`matched`) and turns an unequal pair back down. The game is won
    when all sixteen cards are matched. */
module MemoryMatch {

  datatype Fruit = Apple | Orange | Lemon | Banana | Grape | Strawberry | Cherry | Kiwi

  const Fruits: seq<Fruit> := [Apple, Orange, Lemon, Banana, Grape, Strawberry, Cherry, Kiwi]

  const CardCount := 16

  /** A deck is any shuffle of the fruit list written twice. */
  predicate IsDeck(cards: seq<Fruit>) {
    multiset(cards) == multiset(Fruits + Fruits)
  }

  lemma DeckSize(cards: seq<Fruit>)
    requires IsDeck(cards)
    ensures |cards| == CardCount
  {
    assert |multiset(cards)| == |multiset(Fruits + Fruits)|;
  }

  predicate Distinct(s: seq<nat>) {
    forall i, j :: 0 <= i < j < |s| ==> s[i] != s[j]
  }

  /** Every entry is a card index. */
  predicate Indices(s: seq<nat>) {
    forall i :: 0 <= i < |s| ==> s[i] < CardCount
  }

  /** The matched list is made of pairs, `extend`ed two at a time, each of
      two cards with the same face. */
  predicate Pairs(cards: seq<Fruit>, m: seq<nat>)
    requires Indices(m) && |cards| == CardCount
    decreases |m|
  {
    if |m| == 0 then true
    else |m| >= 2 && cards[m[0]] == cards[m[1]] && Pairs(cards, m[2..])
  }

  lemma {:induction false} PairsExtend(cards: seq<Fruit>, m: seq<nat>, a: nat, b: nat)
    requires Indices(m) && |cards| == CardCount && a < CardCount && b < CardCount
    requires Pairs(cards, m) && cards[a] == cards[b]
    ensures Indices(m + [a, b]) && Pairs(cards, m + [a, b])
    ensures |m + [a, b]| % 2 == 0 <==> |m| % 2 == 0
    decreases |m|
  {
    if |m| > 0 {
      assert (m + [a, b])[2..] == m[2..] + [a, b];
      PairsExtend(cards, m[2..], a, b);
    } else {
      assert (m + [a, b])[2..] == [];
    }
  }

  lemma {:induction false} PairsEven(cards: seq<Fruit>, m: seq<nat>)
    requires Indices(m) && |cards| == CardCount && Pairs(cards, m)
    ensures |m| % 2 == 0
    decreases |m|
  {
    if |m| > 0 {
      PairsEven(cards, m[2..]);
    }
  }

  // ---------------------------------------------------------------------
  // victory

  /** The card indices below `n`. */
  function Range(n: nat): (r: set<nat>)
    ensures forall i: nat :: i in r <==> i < n
    ensures |r| == n
  {
    if n == 0 then {} else Range(n - 1) + {n - 1}
  }

  lemma {:induction false} DistinctSize(s: seq<nat>)
    requires Distinct(s)
    ensures |set i | 0 <= i < |s| :: s[i]| == |s|
  {
    if |s| > 0 {
      var last := s[|s| - 1];
      var init := s[..|s| - 1];
      DistinctSize(init);
      assert (set i | 0 <= i < |s| :: s[i]) == (set i | 0 <= i < |init| :: init[i]) + {last};
      assert last !in (set i | 0 <= i < |init| :: init[i]);
    }
  }

  lemma {:induction false} SubsetSize(a: set<nat>, b: set<nat>)
    requires a <= b
    ensures |a| <= |b|
    ensures |a| == |b| ==> a == b
    decreases |a|
  {
    if a != {} {
      var x :| x in a;
      SubsetSize(a - {x}, b - {x});
      assert |a - {x}| == |a| - 1 && |b - {x}| == |b| - 1;
      assert a == (a - {x}) + {x} && b == (b - {x}) + {x};
    } else if b != {} {
      var x :| x in b;
      assert |b| >= 1;
    }
  }

  /** The set of entries of `m`; for distinct entries below `n` it has |m|
      elements, all of them in `Range(n)`. */
  function Entries(m: seq<nat>, n: nat): (e: set<nat>)
    requires Distinct(m) && forall k :: 0 <= k < |m| ==> m[k] < n
    ensures |e| == |m| && e <= Range(n)
    ensures forall i :: i in e <==> i in m
  {
    DistinctSize(m);
    set i | 0 <= i < |m| :: m[i]
  }

  /** A list of distinct entries below `n` has `n` entries exactly when
      every number below `n` is one of them. */
  lemma CoversIffFull(m: seq<nat>, n: nat)
    requires Distinct(m) && forall k :: 0 <= k < |m| ==> m[k] < n
    ensures |m| == n <==> forall i: nat :: i < n ==> i in m
  {
    var e := Entries(m, n);
    var all := Range(n);
    SubsetSize(e, all);
    if |m| == n {
      forall i: nat | i < n
        ensures i in m
      {
        assert i in all;
      }
    }
    if forall i: nat :: i < n ==> i in m {
      forall i: nat | i in all
        ensures i in e
      {
        assert i in m;
      }
      SubsetSize(all, e);
    }
  }

  /** For a matched list of distinct card indices, having sixteen entries
      (the victory test) is the same as every card being matched. */
  lemma AllMatched(m: seq<nat>)
    requires Indices(m) && Distinct(m)
    ensures |m| == CardCount <==> forall i: nat :: i < CardCount ==> i in m
  {
    CoversIffFull(m, CardCount);
  }

  // ---------------------------------------------------------------------
  // the engine

  class MemoryMatchGame {
    var cards: seq<Fruit>
    var revealed: seq<nat>
    var matched: seq<nat>
    var moves: nat

    /** At most two cards are turned up, none of them matched; the matched
        cards are distinct pairs of equal faces; every matched pair and the
        pair turned up, if any, took a move. */
    ghost predicate Valid()
      reads this
    {
      IsDeck(cards) && |cards| == CardCount &&
      |revealed| <= 2 && Indices(revealed) && Distinct(revealed) &&
      Indices(matched) && Distinct(matched) && Pairs(cards, matched) &&
      (forall i :: 0 <= i < |revealed| ==> revealed[i] !in matched) &&
      2 * moves >= |matched| + (if |revealed| == 2 then 2 else 0)
    }

    /** A new game over the shuffled `deck`. */
    constructor (deck: seq<Fruit>)
      requires IsDeck(deck)
      ensures Valid()
      ensures cards == deck && revealed == [] && matched == [] && moves == 0
    {
      DeckSize(deck);
      cards := deck;
      revealed := [];
      matched := [];
      moves := 0;
    }

    /** `flip_card(idx)`: ignored when the card is turned up already, is
        matched, or two cards are up; the second card up counts a move and
        schedules `check_match` (`scheduled`). */
    method FlipCard(idx: nat) returns (scheduled: bool)
      requires Valid() && idx < CardCount
      modifies this`revealed, this`moves
      ensures Valid()
      ensures if idx in old(revealed) || idx in matched || |old(revealed)| >= 2 then
          revealed == old(revealed) && moves == old(moves) && !scheduled
        else
          revealed == old(revealed) + [idx] && scheduled == (|revealed| == 2) &&
          moves == old(moves) + (if scheduled then 1 else 0)
    {
      scheduled := false;
      if idx in revealed || idx in matched || |revealed| >= 2 {
        return;
      }
      revealed := revealed + [idx];
      if |revealed| == 2 {
        moves := moves + 1;
        scheduled := true;
      }
    }

    /** `check_match`: the deferred check of the two cards turned up. An
        equal pair joins `matched`; the turned-up list is emptied either
        way; `won` is the victory test that follows a match. */
    method CheckMatch() returns (won: bool)
      requires Valid() && |revealed| == 2
      modifies this`matched, this`revealed
      ensures Valid()
      ensures revealed == []
      ensures var a, b := old(revealed)[0], old(revealed)[1];
        matched == (if cards[a] == cards[b] then old(matched) + [a, b] else old(matched)) &&
        won == (cards[a] == cards[b] && |matched| == CardCount)
    {
      var idx1, idx2 := revealed[0], revealed[1];
      won := false;
      if cards[idx1] == cards[idx2] {
        PairsExtend(cards, matched, idx1, idx2);
        PairsEven(cards, matched);
        matched := matched + [idx1, idx2];
        won := |matched| == CardCount;
      }
      revealed := [];
    }

    /** `reset_game`: a new shuffled `deck`, nothing turned up or matched. */
    method ResetGame(deck: seq<Fruit>)
      requires IsDeck(deck)
      modifies this
      ensures Valid()
      ensures cards == deck && revealed == [] && matched == [] && moves == 0
    {
      DeckSize(deck);
      cards := deck;
      revealed := [];
      matched := [];
      moves := 0;
    }
  }
}
