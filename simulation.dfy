/**
 * `monte_carlo_simulation`: every trial completes the community from a
 * shuffled copy of the unknown pool, deals the opponents consecutive two-card
 * slices of it, and counts a win when every opponent scores strictly lower.
 * The shuffle is not modelled: each trial receives its shuffled pool as an
 * argument, so the results are stated for every possible sequence of shuffles.
 */
module Simulation {
  import opened Wrappers
  import opened Cards
  import opened Evaluator

  function Min(a: int, b: int): int { if a <= b then a else b }

  /** Python's `s[lo:hi]` for non-negative bounds: the bounds are clipped to the sequence. */
  function Slice<T>(s: seq<T>, lo: nat, hi: nat): (r: seq<T>)
    ensures |r| == (if lo <= hi && lo <= |s| then Min(hi, |s|) - lo else 0)
    ensures forall k :: 0 <= k < |r| ==> r[k] == s[lo + k]
  {
    if hi <= lo || |s| <= lo then [] else s[lo..Min(hi, |s|)]
  }

  /** The community of one trial: the table plus the first `5 - |table|` cards of the shuffled pool. */
  function Community(table: seq<string>, d: seq<string>): (community: seq<string>)
    requires |table| <= 5
    ensures |community| == |table| + Min(5 - |table|, |d|)
    ensures community[..|table|] == table
    ensures forall k :: |table| <= k < |community| ==> community[k] == d[k - |table|]
  {
    table + Slice(d, 0, 5 - |table|)
  }

  /**
   * The opponents' hands of one trial: opponent `i` gets the slice
   * `d[start + 2i : start + 2i + 2]`, kept only when it holds two cards.
   */
  function OpponentHands(d: seq<string>, start: nat, n: nat): (hands: seq<seq<string>>)
    ensures |hands| <= n
    ensures forall i :: 0 <= i < |hands| ==> |hands[i]| == 2
  {
    if n == 0 then []
    else
      var hands := OpponentHands(d, start, n - 1);
      var h := Slice(d, start + 2 * (n - 1), start + 2 * (n - 1) + 2);
      if |h| == 2 then hands + [h] else hands
  }

  /** How many full two-card slices fit in `d` from position `start` on. */
  function FullSlices(len: nat, start: nat): nat {
    if start <= len then (len - start) / 2 else 0
  }

  /** As many opponents are dealt as there are full slices, each from its own two positions. */
  lemma {:induction false} DealLayout(d: seq<string>, start: nat, n: nat)
    ensures |OpponentHands(d, start, n)| == Min(n, FullSlices(|d|, start))
    ensures forall i :: 0 <= i < |OpponentHands(d, start, n)| ==>
              start + 2 * i + 2 <= |d| && OpponentHands(d, start, n)[i] == d[start + 2 * i..start + 2 * i + 2]
  {
    if n > 0 {
      DealLayout(d, start, n - 1);
      var lo := start + 2 * (n - 1);
      var h := Slice(d, lo, lo + 2);
      if |h| == 2 {
        assert h == d[lo..lo + 2];
      }
    }
  }

  /** When the pool is deep enough, every opponent receives a hand. */
  lemma AllOpponentsDealt(d: seq<string>, start: nat, n: nat)
    requires start + 2 * n <= |d|
    ensures |OpponentHands(d, start, n)| == n
  {
    DealLayout(d, start, n);
  }

  /** The opponents' hands of the trial that completes `table` from `d`. */
  function Dealt(table: seq<string>, d: seq<string>, n: nat): seq<seq<string>>
    requires |table| <= 5
  {
    OpponentHands(d, 5 - |table|, n)
  }

  predicate Disjoint(a: seq<string>, b: seq<string>) {
    forall c :: c in a ==> c !in b
  }

  /**
   * A shuffled pool without repeats deals no card twice: opponents' hands do
   * not overlap each other or the cards that completed the community.
   */
  lemma DealDisjoint(table: seq<string>, d: seq<string>, n: nat)
    requires |table| <= 5 && Distinct(d)
    ensures var hands := Dealt(table, d, n);
      (forall i, j :: 0 <= i < j < |hands| ==> Disjoint(hands[i], hands[j]))
      && (forall i :: 0 <= i < |hands| ==> Disjoint(hands[i], Slice(d, 0, 5 - |table|)))
  {
    var r := 5 - |table|;
    var hands := OpponentHands(d, r, n);
    forall i, j | 0 <= i < j < |hands| ensures Disjoint(hands[i], hands[j]) {
      DealtHandAt(d, r, n, i);
      DealtHandAt(d, r, n, j);
    }
    forall i | 0 <= i < |hands| ensures Disjoint(hands[i], Slice(d, 0, r)) {
      DealtHandAt(d, r, n, i);
    }
  }

  /**
   * A trial on a shuffle of the cards nobody holds repeats no card: the
   * player's seven cards are all different, and no opponent is dealt one of
   * them.  Together with DealDisjoint, no card of the trial is used twice.
   */
  lemma TrialNoRepeats(hand: seq<string>, table: seq<string>, d: seq<string>, n: nat)
    requires |table| <= 5 && Distinct(hand + table)
    requires forall c :: c in hand + table ==> DeckCard(c)
    requires multiset(d) == multiset(Available(Deck(), hand, table))
    ensures Distinct(hand + Community(table, d))
    ensures forall i :: 0 <= i < |Dealt(table, d, n)| ==> Disjoint(Dealt(table, d, n)[i], hand + Community(table, d))
  {
    ShuffleOfUnheld(hand, table, d);
    CommunityDistinct(hand, table, d);
    DealtAvoidsPlayer(hand, table, d, n);
  }

  /** A shuffle of the cards nobody holds has no repeats and none of the held cards. */
  lemma ShuffleOfUnheld(hand: seq<string>, table: seq<string>, d: seq<string>)
    requires Distinct(hand + table)
    requires forall c :: c in hand + table ==> DeckCard(c)
    requires multiset(d) == multiset(Available(Deck(), hand, table))
    ensures Distinct(d) && forall c :: c in d ==> c !in hand + table
  {
    var pool := Available(Deck(), hand, table);
    AvailableFromDeck(hand, table);
    DistinctShuffle(d, pool);
    forall c | c in d ensures c !in hand + table {
      assert c in multiset(pool);
    }
  }

  /** The player's cards stay without repeats when the community is completed from such a shuffle. */
  lemma CommunityDistinct(hand: seq<string>, table: seq<string>, d: seq<string>)
    requires |table| <= 5 && Distinct(hand + table)
    requires Distinct(d) && forall c :: c in d ==> c !in hand + table
    ensures Distinct(hand + Community(table, d))
  {
    var drawn := Slice(d, 0, 5 - |table|);
    var community := Community(table, d);
    assert community == table + drawn;
    assert forall c :: c in drawn ==> c in d;
    assert Distinct(drawn);
    DistinctConcat(hand, table);
    DistinctConcat(table, drawn);
    DistinctConcat(hand, community);
  }

  /** No opponent is dealt one of the player's cards. */
  lemma DealtAvoidsPlayer(hand: seq<string>, table: seq<string>, d: seq<string>, n: nat)
    requires |table| <= 5
    requires Distinct(d) && forall c :: c in d ==> c !in hand + table
    ensures forall i :: 0 <= i < |Dealt(table, d, n)| ==> Disjoint(Dealt(table, d, n)[i], hand + Community(table, d))
  {
    var r := 5 - |table|;
    var drawn := Slice(d, 0, r);
    var community := Community(table, d);
    assert community == table + drawn;
    var hands := Dealt(table, d, n);
    DealDisjoint(table, d, n);
    forall i | 0 <= i < |hands| ensures Disjoint(hands[i], hand + community) {
      DealtHandAt(d, r, n, i);
      assert Disjoint(hands[i], drawn);
      forall c | c in hands[i] ensures c !in hand + community {
        assert c in d;
        assert c in hand + community ==> c in hand + table || c in drawn;
      }
    }
  }

  /** Hand `i` is the two cards at positions `start + 2i` and `start + 2i + 1`. */
  lemma DealtHandAt(d: seq<string>, start: nat, n: nat, i: nat)
    requires i < |OpponentHands(d, start, n)|
    ensures start + 2 * i + 2 <= |d|
    ensures OpponentHands(d, start, n)[i] == [d[start + 2 * i], d[start + 2 * i + 1]]
  {
    DealLayout(d, start, n);
  }

  /** What one trial needs so that each `evaluate_hand` call reads valid, non-empty card lists. */
  predicate TrialValid(hand: seq<string>, table: seq<string>, d: seq<string>) {
    |table| <= 5 && AllValid(hand + table) && AllValid(d) && |hand| + |table| + |d| > 0
  }

  /** Every shuffle gives a valid trial. */
  predicate TrialsValid(hand: seq<string>, table: seq<string>, shuffles: seq<seq<string>>) {
    forall d :: d in shuffles ==> TrialValid(hand, table, d)
  }

  /** The community and every dealt hand of a valid trial are valid cards, and the player's cards are not empty. */
  lemma TrialCardsValid(hand: seq<string>, table: seq<string>, d: seq<string>, n: nat)
    requires TrialValid(hand, table, d)
    ensures AllValid(hand + Community(table, d)) && |hand + Community(table, d)| > 0
    ensures forall i :: 0 <= i < |Dealt(table, d, n)| ==> AllValid(Dealt(table, d, n)[i] + Community(table, d))
  {
    var community := Community(table, d);
    assert forall c :: c in community ==> c in table || c in d;
    AllValidMembers(hand + table);
    AllValidMembers(d);
    AllValidMembers(hand + community);
    DealtValid(table, d, n);
  }

  /** Every opponent hand dealt from a valid deck, with a valid board, is valid. */
  lemma DealtValid(table: seq<string>, d: seq<string>, n: nat)
    requires |table| <= 5 && AllValid(d)
    requires forall c :: c in Community(table, d) ==> ValidCard(c)
    ensures forall i :: 0 <= i < |Dealt(table, d, n)| ==> AllValid(Dealt(table, d, n)[i] + Community(table, d))
  {
    var community := Community(table, d);
    var hands := Dealt(table, d, n);
    AllValidMembers(d);
    DealLayout(d, 5 - |table|, n);
    forall i | 0 <= i < |hands| ensures AllValid(hands[i] + community) {
      assert forall c :: c in hands[i] ==> c in d;
      AllValidMembers(hands[i] + community);
    }
  }

  /** The player's category in the trial dealt from `d`. */
  function PlayerRank(hand: seq<string>, table: seq<string>, d: seq<string>): (r: HandRank)
    requires TrialValid(hand, table, d)
    ensures 0 <= r.score <= 9 && r.name == Labels[r.score]
  {
    TrialCardsValid(hand, table, d, 0);
    Evaluate(hand, Community(table, d))
  }

  /** The trial dealt from `d` is a win: every dealt opponent scores strictly below the player. */
  predicate TrialWin(hand: seq<string>, table: seq<string>, d: seq<string>, opponents: nat)
    requires TrialValid(hand, table, d)
  {
    TrialCardsValid(hand, table, d, opponents);
    var community := Community(table, d);
    var hands := Dealt(table, d, opponents);
    forall i :: 0 <= i < |hands| ==> Evaluate(hands[i], community).score < Evaluate(hand, community).score
  }

  /** A tie with any opponent loses the trial, as does a better opponent hand. */
  lemma TieLoses(hand: seq<string>, table: seq<string>, d: seq<string>, opponents: nat, i: nat)
    requires TrialValid(hand, table, d)
    requires i < |Dealt(table, d, opponents)|
    ensures (TrialCardsValid(hand, table, d, opponents);
      Evaluate(Dealt(table, d, opponents)[i], Community(table, d)).score >= PlayerRank(hand, table, d).score
      ==> !TrialWin(hand, table, d, opponents))
  {
    TrialCardsValid(hand, table, d, opponents);
  }

  /** The player's score in each trial, in trial order. */
  function TrialScores(hand: seq<string>, table: seq<string>, shuffles: seq<seq<string>>): (scores: seq<nat>)
    requires TrialsValid(hand, table, shuffles)
    ensures |scores| == |shuffles| && forall t :: 0 <= t < |scores| ==> scores[t] < |Labels|
  {
    if shuffles == [] then []
    else
      var last := |shuffles| - 1;
      TrialScores(hand, table, shuffles[..last]) + [PlayerRank(hand, table, shuffles[last]).score]
  }

  /** Whether each trial is a win, in trial order. */
  function TrialResults(hand: seq<string>, table: seq<string>, opponents: nat, shuffles: seq<seq<string>>): (results: seq<bool>)
    requires TrialsValid(hand, table, shuffles)
    ensures |results| == |shuffles|
  {
    if shuffles == [] then []
    else
      var last := |shuffles| - 1;
      TrialResults(hand, table, opponents, shuffles[..last]) + [TrialWin(hand, table, shuffles[last], opponents)]
  }

  /** Entry `t` of the per-trial lists belongs to shuffle `t`. */
  lemma {:induction false} TrialListsAt(hand: seq<string>, table: seq<string>, opponents: nat, shuffles: seq<seq<string>>, t: nat)
    requires TrialsValid(hand, table, shuffles) && t < |shuffles|
    ensures TrialScores(hand, table, shuffles)[t] == PlayerRank(hand, table, shuffles[t]).score
    ensures TrialResults(hand, table, opponents, shuffles)[t] == TrialWin(hand, table, shuffles[t], opponents)
  {
    var last := |shuffles| - 1;
    if t < last {
      TrialListsAt(hand, table, opponents, shuffles[..last], t);
    }
  }

  /** `wins`: one more for every won trial. */
  function CountWins(results: seq<bool>): (w: nat)
    ensures w <= |results|
  {
    if results == [] then 0
    else CountWins(results[..|results| - 1]) + (if results[|results| - 1] then 1 else 0)
  }

  /** The win counter counts exactly the won trials. */
  lemma {:induction false} CountWinsIsMultiplicity(results: seq<bool>)
    ensures CountWins(results) == multiset(results)[true]
  {
    if results != [] {
      var last := |results| - 1;
      CountWinsIsMultiplicity(results[..last]);
      assert results == results[..last] + [results[last]];
    }
  }

  /** The number of won trials over the given shuffles. */
  function Wins(hand: seq<string>, table: seq<string>, opponents: nat, shuffles: seq<seq<string>>): (w: nat)
    requires TrialsValid(hand, table, shuffles)
    ensures w <= |shuffles|
  {
    CountWins(TrialResults(hand, table, opponents, shuffles))
  }

  /**
   * When no trial deals an opponent a hand (no opponents, or pools too short
   * to deal anyone), every trial is a win.
   */
  lemma {:induction false} NoOpponentsAlwaysWin(hand: seq<string>, table: seq<string>, opponents: nat,
                                                shuffles: seq<seq<string>>)
    requires TrialsValid(hand, table, shuffles)
    requires forall d :: d in shuffles ==> Dealt(table, d, opponents) == []
    ensures Wins(hand, table, opponents, shuffles) == |shuffles|
  {
    if shuffles != [] {
      var last := |shuffles| - 1;
      var prefix := shuffles[..last];
      NoOpponentsAlwaysWin(hand, table, opponents, prefix);
      var results := TrialResults(hand, table, opponents, shuffles);
      assert results[..last] == TrialResults(hand, table, opponents, prefix);
      assert shuffles[last] in shuffles;
      assert results[last];
    }
  }

  /** No opponents means no hands dealt, so every trial is a win. */
  lemma ZeroOpponentsAlwaysWin(hand: seq<string>, table: seq<string>, shuffles: seq<seq<string>>)
    requires TrialsValid(hand, table, shuffles)
    ensures Wins(hand, table, 0, shuffles) == |shuffles|
  {
    NoOpponentsAlwaysWin(hand, table, 0, shuffles);
  }

  /**
   * The calculator's own pool is never short: for a selection of at most two
   * hole cards and five board cards, all different deck cards, any shuffle of
   * the unknown cards completes the board and deals each of up to nine
   * opponents a full hand.
   */
  lemma PoolDealsEveryone(hand: seq<string>, table: seq<string>, d: seq<string>, opponents: nat)
    requires |hand| <= 2 && |table| <= 5 && Distinct(hand + table)
    requires forall c :: c in hand + table ==> DeckCard(c)
    requires multiset(d) == multiset(Available(Deck(), hand, table))
    requires opponents <= 9
    ensures |Community(table, d)| == 5
    ensures |Dealt(table, d, opponents)| == opponents
  {
    AvailableFromDeck(hand, table);
    assert |d| == |multiset(d)| == 52 - |hand| - |table|;
    AllOpponentsDealt(d, 5 - |table|, opponents);
  }

  /** `hand_type_counts[...] += 1` over a run of scores: one counter per category. */
  function Histogram(scores: seq<nat>, n: nat): (counts: seq<nat>)
    requires forall t :: 0 <= t < |scores| ==> scores[t] < n
    ensures |counts| == n
  {
    if scores == [] then seq(n, _ => 0)
    else
      var last := |scores| - 1;
      var counts := Histogram(scores[..last], n);
      counts[scores[last] := counts[scores[last]] + 1]
  }

  /** Each counter holds the number of trials that gave its category. */
  lemma {:induction false} HistogramCounts(scores: seq<nat>, n: nat, k: nat)
    requires forall t :: 0 <= t < |scores| ==> scores[t] < n
    requires k < n
    ensures Histogram(scores, n)[k] == multiset(scores)[k]
  {
    if scores != [] {
      var last := |scores| - 1;
      HistogramCounts(scores[..last], n, k);
      assert scores == scores[..last] + [scores[last]];
    }
  }

  function Sum(s: seq<nat>): nat {
    if s == [] then 0 else s[0] + Sum(s[1..])
  }

  lemma {:induction false} SumIncrement(s: seq<nat>, k: nat)
    requires k < |s|
    ensures Sum(s[k := s[k] + 1]) == Sum(s) + 1
  {
    if k > 0 {
      SumIncrement(s[1..], k - 1);
      assert s[k := s[k] + 1][1..] == s[1..][k - 1 := s[k] + 1];
    }
  }

  lemma {:induction false} ZeroSum(n: nat)
    ensures Sum(seq(n, _ => 0)) == 0
  {
    if n > 0 {
      ZeroSum(n - 1);
      assert seq(n, _ => 0)[1..] == seq(n - 1, _ => 0);
    }
  }

  /** Every trial is counted in exactly one category: the counters add up to the number of trials. */
  lemma {:induction false} HistogramTotal(scores: seq<nat>, n: nat)
    requires forall t :: 0 <= t < |scores| ==> scores[t] < n
    ensures Sum(Histogram(scores, n)) == |scores|
  {
    if scores == [] {
      ZeroSum(n);
    } else {
      var last := |scores| - 1;
      HistogramTotal(scores[..last], n);
      SumIncrement(Histogram(scores[..last], n), scores[last]);
    }
  }

  /** `hand_type_counts` after the given trials, indexed by score. */
  function CategoryCounts(hand: seq<string>, table: seq<string>, shuffles: seq<seq<string>>): (counts: seq<nat>)
    requires TrialsValid(hand, table, shuffles)
    ensures |counts| == |Labels|
  {
    Histogram(TrialScores(hand, table, shuffles), |Labels|)
  }

  /** Every trial lands in exactly one category: the counts add up to the number of trials, and count `k` is the number of trials scoring `k`. */
  lemma CategoryCountsTotal(hand: seq<string>, table: seq<string>, shuffles: seq<seq<string>>)
    requires TrialsValid(hand, table, shuffles)
    ensures Sum(CategoryCounts(hand, table, shuffles)) == |shuffles|
    ensures forall k :: 0 <= k < |Labels| ==>
              CategoryCounts(hand, table, shuffles)[k] == multiset(TrialScores(hand, table, shuffles))[k]
  {
    var scores: seq<nat> := TrialScores(hand, table, shuffles);
    HistogramTotal(scores, |Labels|);
    forall k | 0 <= k < |Labels|
      ensures CategoryCounts(hand, table, shuffles)[k] == multiset(scores)[k]
    {
      HistogramCounts(scores, |Labels|, k);
    }
  }

  /**
   * `max(hand_type_counts.items(), key=...)`: the position of the largest
   * count, the earliest one when several tie.
   */
  function FirstMax(counts: seq<nat>): (k: nat)
    requires |counts| > 0
    ensures k < |counts|
    ensures forall j :: 0 <= j < |counts| ==> counts[j] <= counts[k]
    ensures forall j :: 0 <= j < k ==> counts[j] < counts[k]
  {
    if |counts| == 1 then 0
    else
      var k := FirstMax(counts[..|counts| - 1]);
      if counts[|counts| - 1] > counts[k] then |counts| - 1 else k
  }

  /** Only one position is both a maximum and ahead of every other maximum. */
  lemma FirstMaxUnique(counts: seq<nat>, m: nat)
    requires m < |counts|
    requires forall j :: 0 <= j < |counts| ==> counts[j] <= counts[m]
    requires forall j :: 0 <= j < m ==> counts[j] < counts[m]
    ensures FirstMax(counts) == m
  {
  }

  /** `hand_translations`: the Spanish name shown for each category. */
  const Translations: map<string, string> := map[
    "High Card" := "Carta Alta",
    "Pair" := "Par",
    "Two Pair" := "Doble Par",
    "Three of a Kind" := "Trio",
    "Straight" := "Escalera",
    "Flush" := "Color",
    "Full House" := "Full House",
    "Four of a Kind" := "Poker",
    "Straight Flush" := "Escalera de Color",
    "Royal Flush" := "Escalera Real"
  ]

  /** The Spanish names, in score order. */
  const SpanishLabels: seq<string> := [
    "Carta Alta", "Par", "Doble Par", "Trio", "Escalera",
    "Color", "Full House", "Poker", "Escalera de Color", "Escalera Real"
  ]

  /** `hand_translations.get(name, name)`. */
  function Translate(name: string): (t: string)
    ensures name !in Translations ==> t == name
  {
    if name in Translations then Translations[name] else name
  }

  /** Every category label has its Spanish name, and different categories get different names. */
  lemma TranslateLabels()
    ensures forall k :: 0 <= k < |Labels| ==> Translate(Labels[k]) == SpanishLabels[k]
    ensures forall k1, k2 :: 0 <= k1 < k2 < |Labels| ==> Translate(Labels[k1]) != Translate(Labels[k2])
  {
    assert |Labels| == |SpanishLabels| == 10;
    forall k | 0 <= k < 10 ensures Translate(Labels[k]) == SpanishLabels[k] {
      assert Labels[k] in Translations;
    }
  }

  /** The opponent loop of one trial: stop at the first opponent who scores at least as much as the player. */
  method BeatsEveryOpponent(hands: seq<seq<string>>, community: seq<string>, player: nat) returns (win: bool)
    requires forall j :: 0 <= j < |hands| ==> AllValid(hands[j] + community) && |hands[j] + community| > 0
    ensures win <==> forall j :: 0 <= j < |hands| ==> Evaluate(hands[j], community).score < player
  {
    win := true;
    var k := 0;
    while k < |hands|
      invariant 0 <= k <= |hands|
      invariant forall j :: 0 <= j < k ==> Evaluate(hands[j], community).score < player
    {
      var opponent := EvaluateHand(hands[k], community);
      if opponent.score >= player {
        win := false;
        break;
      }
      k := k + 1;
    }
  }

  /**
   * The opponents' deal inside one trial: two cards each from position
   * `start` on, an opponent whose slice comes up short getting nothing.
   */
  method DealOpponents(d: seq<string>, start: nat, opponents: nat) returns (hands: seq<seq<string>>)
    ensures hands == OpponentHands(d, start, opponents)
  {
    hands := [];
    var used := 0;
    for i := 0 to opponents
      invariant used == 2 * i
      invariant hands == OpponentHands(d, start, i)
    {
      var h := Slice(d, start + used, start + used + 2);
      used := used + 2;
      if |h| == 2 {
        hands := hands + [h];
      }
    }
  }

  /** One trial, as the simulation loop body runs it. */
  method RunTrial(hand: seq<string>, table: seq<string>, opponents: nat, d: seq<string>)
    returns (win: bool, player: HandRank)
    requires TrialValid(hand, table, d)
    ensures player == PlayerRank(hand, table, d)
    ensures win == TrialWin(hand, table, d, opponents)
  {
    var remaining := 5 - |table|;
    var community := table + Slice(d, 0, remaining);
    var hands := DealOpponents(d, remaining, opponents);
    TrialCardsValid(hand, table, d, opponents);
    assert community == Community(table, d);
    assert hands == Dealt(table, d, opponents);
    player := EvaluateHand(hand, community);
    win := BeatsEveryOpponent(hands, community, player.score);
  }

  /** A shuffle of a valid pool is valid, and as long as the pool. */
  lemma ShufflesValid(hand: seq<string>, table: seq<string>, available: seq<string>, shuffles: seq<seq<string>>)
    requires forall d :: d in shuffles ==> multiset(d) == multiset(available)
    requires TrialValid(hand, table, available)
    ensures TrialsValid(hand, table, shuffles)
  {
    AllValidMembers(available);
    forall d | d in shuffles ensures TrialValid(hand, table, d) {
      assert forall c :: c in d ==> c in multiset(available);
      AllValidMembers(d);
      assert |d| == |multiset(available)| == |available|;
    }
  }

  /** One more trial adds its win to the wins and its category to the counts. */
  lemma TrialsSnoc(hand: seq<string>, table: seq<string>, opponents: nat, shuffles: seq<seq<string>>, d: seq<string>)
    requires TrialsValid(hand, table, shuffles) && TrialValid(hand, table, d)
    ensures TrialsValid(hand, table, shuffles + [d])
    ensures Wins(hand, table, opponents, shuffles + [d])
            == Wins(hand, table, opponents, shuffles) + (if TrialWin(hand, table, d, opponents) then 1 else 0)
    ensures var k := PlayerRank(hand, table, d).score;
            CategoryCounts(hand, table, shuffles + [d]) == CategoryCounts(hand, table, shuffles)[k := CategoryCounts(hand, table, shuffles)[k] + 1]
  {
    var all := shuffles + [d];
    assert all[..|shuffles|] == shuffles;
    var scores := TrialScores(hand, table, all);
    assert scores[..|shuffles|] == TrialScores(hand, table, shuffles);
    var results := TrialResults(hand, table, opponents, all);
    assert results[..|shuffles|] == TrialResults(hand, table, opponents, shuffles);
  }

  /** One pass of the trial loop: run the trial and bump its counters. */
  method TrialStep(hand: seq<string>, table: seq<string>, opponents: nat, done: seq<seq<string>>, d: seq<string>,
                   wins: nat, counts: seq<nat>)
    returns (wins': nat, counts': seq<nat>)
    requires TrialsValid(hand, table, done) && TrialValid(hand, table, d)
    requires wins == Wins(hand, table, opponents, done)
    requires counts == CategoryCounts(hand, table, done)
    ensures TrialsValid(hand, table, done + [d])
    ensures wins' == Wins(hand, table, opponents, done + [d])
    ensures counts' == CategoryCounts(hand, table, done + [d])
  {
    var win, player := RunTrial(hand, table, opponents, d);
    TrialsSnoc(hand, table, opponents, done, d);
    counts' := counts[player.score := counts[player.score] + 1];
    wins' := if win then wins + 1 else wins;
  }

  /** The trial loop: `wins` and `hand_type_counts` after one trial per shuffle. */
  method RunTrials(hand: seq<string>, table: seq<string>, opponents: nat, shuffles: seq<seq<string>>)
    returns (wins: nat, counts: seq<nat>)
    requires TrialsValid(hand, table, shuffles)
    ensures wins == Wins(hand, table, opponents, shuffles)
    ensures counts == CategoryCounts(hand, table, shuffles)
  {
    wins := 0;
    counts := seq(|Labels|, _ => 0);
    for t := 0 to |shuffles|
      invariant TrialsValid(hand, table, shuffles[..t])
      invariant wins == Wins(hand, table, opponents, shuffles[..t])
      invariant counts == CategoryCounts(hand, table, shuffles[..t])
    {
      assert shuffles[..t + 1] == shuffles[..t] + [shuffles[t]];
      wins, counts := TrialStep(hand, table, opponents, shuffles[..t], shuffles[t], wins, counts);
    }
    assert shuffles[..|shuffles|] == shuffles;
  }

  /**
   * `monte_carlo_simulation`: one trial per shuffled pool.  Returns the
   * number of wins (the source divides it by the number of trials for a
   * percentage) and the Spanish name of the most frequent category.
   */
  method MonteCarloSimulation(hand: seq<string>, table: seq<string>, opponents: nat,
                              available: seq<string>, shuffles: seq<seq<string>>, numSimulations: nat)
    returns (wins: nat, mostCommon: string)
    requires numSimulations > 0 && |shuffles| == numSimulations
    requires forall d :: d in shuffles ==> multiset(d) == multiset(available)
    requires TrialValid(hand, table, available)
    ensures TrialsValid(hand, table, shuffles)
    ensures wins == Wins(hand, table, opponents, shuffles) && wins <= numSimulations
    ensures mostCommon == Translate(Labels[FirstMax(CategoryCounts(hand, table, shuffles))])
    ensures mostCommon in SpanishLabels
  {
    ShufflesValid(hand, table, available, shuffles);
    var counts;
    wins, counts := RunTrials(hand, table, opponents, shuffles);
    var modal := FirstMax(counts);
    TranslateLabels();
    mostCommon := Translate(Labels[modal]);
  }
}
