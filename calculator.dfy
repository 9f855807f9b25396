/**
 * The `TexasHoldemCalculator` object: the deck it builds once, the player's
 * selection it updates card by card, the opponent count it reads from the
 * spinbox, and the two odds calculations that run the Monte Carlo trials
 * over the cards that are still unknown.
 */
module Calculator {
  import opened Wrappers
  import opened Cards
  import opened Evaluator
  import opened Simulation
  import opened Selection

  /** `int(opponents_var.get())` clamped into 1..9; a failed conversion (`None`) gives 1. */
  function ClampOpponents(parsed: Option<int>): (n: nat)
    ensures 1 <= n <= 9
    ensures parsed.Some? && 1 <= parsed.value <= 9 ==> n == parsed.value
  {
    match parsed
    case None => 1
    case Some(v) => if v < 1 then 1 else if v > 9 then 9 else v
  }

  /** Clamping an already clamped count changes nothing. */
  lemma ClampIdempotent(parsed: Option<int>)
    ensures ClampOpponents(Some(ClampOpponents(parsed))) == ClampOpponents(parsed)
  {
  }

  /** A larger entry never gives fewer opponents, and out-of-range entries land on the nearest bound. */
  lemma ClampMonotone(a: int, b: int)
    ensures a <= b ==> ClampOpponents(Some(a)) <= ClampOpponents(Some(b))
    ensures a < 1 ==> ClampOpponents(Some(a)) == 1
    ensures a > 9 ==> ClampOpponents(Some(a)) == 9
  {
  }

  /**
   * The message band of a win rate: the first cut (in percent) that
   * `wins / trials * 100` exceeds, or `|cuts|` when it exceeds none.
   * `calculate_odds` uses the cuts 80, 60, 40, 25 and
   * `calculate_preliminary_odds` the cuts 60, 40, 25.
   */
  function Band(wins: nat, trials: nat, cuts: seq<nat>): (b: nat)
    ensures b <= |cuts|
    ensures forall k :: 0 <= k < b ==> wins * 100 <= cuts[k] * trials
    ensures b < |cuts| ==> wins * 100 > cuts[b] * trials
  {
    if cuts == [] then 0
    else if wins * 100 > cuts[0] * trials then 0
    else 1 + Band(wins, trials, cuts[1..])
  }

  const OddsCuts: seq<nat> := [80, 60, 40, 25]
  const PreliminaryCuts: seq<nat> := [60, 40, 25]

  /** More wins never land in a weaker band. */
  lemma {:induction false} BandMonotone(w1: nat, w2: nat, trials: nat, cuts: seq<nat>)
    requires w1 <= w2
    ensures Band(w2, trials, cuts) <= Band(w1, trials, cuts)
  {
    if cuts != [] && w2 * 100 <= cuts[0] * trials {
      BandMonotone(w1, w2, trials, cuts[1..]);
    }
  }

  /** What one odds calculation reports: the wins over the trials run and the Spanish name of the modal category. */
  datatype Odds = Odds(wins: nat, trials: nat, handStrength: string)

  class TexasHoldemCalculator {
    var allCards: seq<string>
    var handCards: seq<string>
    var tableCards: seq<string>
    var opponents: nat

    /** The deck is built, the selection is well formed and made of deck cards, and the opponent count is in 1..9. */
    ghost predicate Valid()
      reads this
    {
      allCards == Deck()
      && WellFormed(Selection(handCards, tableCards))
      && (forall c :: c in handCards + tableCards ==> DeckCard(c))
      && 1 <= opponents <= 9
    }

    /** The state `__init__` sets up: empty selection, one opponent, a fresh deck. */
    constructor ()
      ensures Valid()
      ensures handCards == [] && tableCards == [] && opponents == 1
    {
      allCards := [];
      handCards := [];
      tableCards := [];
      opponents := 1;
      new;
      CreateDeck();
    }

    /** `create_deck`: append every rank of every suit, suit by suit. */
    method CreateDeck()
      modifies this`allCards
      ensures allCards == old(allCards) + Deck()
    {
      for s := 0 to 4
        invariant allCards == old(allCards) + Deck()[..13 * s]
      {
        for r := 0 to 13
          invariant allCards == old(allCards) + Deck()[..13 * s + r]
        {
          DeckLayout(s, r);
          assert Deck()[..13 * s + r + 1] == Deck()[..13 * s + r] + [[RankChars[r], SuitChars[s]]];
          allCards := allCards + [[RankChars[r], SuitChars[s]]];
        }
      }
      assert Deck()[..52] == Deck();
    }

    /** The selection as a value. */
    function Current(): (s: Selection)
      reads this
      ensures s.hand == handCards && s.table == tableCards
    {
      Selection(handCards, tableCards)
    }

    /** `select_card`: toggle one card of the deck in or out of the selection. */
    method SelectCard(card: string)
      requires Valid() && DeckCard(card)
      modifies this`handCards, this`tableCards
      ensures Valid()
      ensures Current() == Toggle(old(Current()), card)
    {
      ghost var before := Current();
      if card in handCards + tableCards {
        if card in handCards {
          handCards := RemoveFirst(handCards, card);
        } else if card in tableCards {
          tableCards := RemoveFirst(tableCards, card);
        }
      } else if |handCards| < 2 {
        handCards := handCards + [card];
      } else if |tableCards| < 5 {
        tableCards := tableCards + [card];
      }
      ToggleWellFormed(before, card);
      SelectionMembers(before, card);
    }

    /** `reset`: clear the selection. */
    method Reset()
      requires Valid()
      modifies this`handCards, this`tableCards
      ensures Valid()
      ensures handCards == [] && tableCards == []
    {
      handCards := [];
      tableCards := [];
    }

    /** `calculate_odds`: needs both hole cards; clamps the opponent count, then runs 1000 trials. */
    method CalculateOdds(parsed: Option<int>, shuffles: seq<seq<string>>) returns (odds: Option<Odds>)
      requires Valid()
      requires |shuffles| == 1000
      requires forall d :: d in shuffles ==> multiset(d) == multiset(Available(allCards, handCards, tableCards))
      modifies this`opponents
      ensures Valid()
      ensures |handCards| != 2 ==> odds == None && opponents == old(opponents)
      ensures |handCards| == 2 ==>
                opponents == ClampOpponents(parsed)
                && TrialsValid(handCards, tableCards, shuffles)
                && odds == Some(Odds(Wins(handCards, tableCards, opponents, shuffles), 1000,
                                     Translate(Labels[FirstMax(CategoryCounts(handCards, tableCards, shuffles))])))
    {
      if |handCards| != 2 {
        return None;
      }
      opponents := ClampOpponents(parsed);
      var available := Available(allCards, handCards, tableCards);
      PoolValid(handCards, tableCards, allCards);
      var wins, handStrength := MonteCarloSimulation(handCards, tableCards, opponents, available, shuffles, 1000);
      odds := Some(Odds(wins, 1000, handStrength));
    }

    /** `calculate_preliminary_odds`: once both hole cards are chosen, 100 trials against the current opponent count. */
    method CalculatePreliminaryOdds(shuffles: seq<seq<string>>) returns (odds: Option<Odds>)
      requires Valid()
      requires |shuffles| == 100
      requires forall d :: d in shuffles ==> multiset(d) == multiset(Available(allCards, handCards, tableCards))
      ensures |handCards| != 2 ==> odds == None
      ensures |handCards| == 2 ==>
                TrialsValid(handCards, tableCards, shuffles)
                && odds == Some(Odds(Wins(handCards, tableCards, opponents, shuffles), 100,
                                     Translate(Labels[FirstMax(CategoryCounts(handCards, tableCards, shuffles))])))
    {
      odds := None;
      if |handCards| == 2 {
        var available := Available(allCards, handCards, tableCards);
        PoolValid(handCards, tableCards, allCards);
        var wins, handStrength := MonteCarloSimulation(handCards, tableCards, opponents, available, shuffles, 100);
        odds := Some(Odds(wins, 100, handStrength));
      }
    }
  }

  /** Every card of a toggled selection was selected before or is the toggled card. */
  lemma SelectionMembers(s: Selection, card: string)
    ensures forall c :: c in Toggle(s, card).hand + Toggle(s, card).table ==> c in s.hand + s.table || c == card
  {
    if card in s.hand {
      RemoveFirstSubset(s.hand, card);
    } else if card in s.table {
      RemoveFirstSubset(s.table, card);
    }
  }

  /** The unknown pool of a selection of deck cards is made of readable cards, and the trials it feeds are valid. */
  lemma PoolValid(hand: seq<string>, table: seq<string>, deck: seq<string>)
    requires deck == Deck() && |hand| == 2 && |table| <= 5
    requires forall c :: c in hand + table ==> DeckCard(c)
    ensures TrialValid(hand, table, Available(deck, hand, table))
  {
    forall c | c in Available(deck, hand, table) ensures ValidCard(c) {
      DeckComplete(c);
    }
    AllValidMembers(Available(deck, hand, table));
    AllValidMembers(hand + table);
  }
}
