/** Option, used where the source falls back to a default on a failed conversion. */
module Wrappers {
  datatype Option<+T> = None | Some(value: T)
}

/**
 * Cards are the two-character strings of the calculator ("Ah", "Tc"): a rank
 * character followed by a suit character.  This module holds the 52-card deck
 * that `create_deck` builds and the pool of cards still unknown after the
 * player's selection.
 */
module Cards {

  const RankChars: string := "23456789TJQKA"
  const SuitChars: string := "cdhs"

  /** A string the evaluator can read: a known rank character, then any suit character. */
  predicate ValidCard(c: string) {
    |c| >= 2 && c[0] in RankChars
  }

  /** One of the 52 strings of the deck. */
  predicate DeckCard(c: string) {
    |c| == 2 && c[0] in RankChars && c[1] in SuitChars
  }

  /** Every entry is a deck card. */
  predicate DeckCards(cards: seq<string>) {
    forall i :: 0 <= i < |cards| ==> DeckCard(cards[i])
  }

  predicate Distinct<T(==)>(s: seq<T>) {
    forall i, j :: 0 <= i < j < |s| ==> s[i] != s[j]
  }

  /** A list is without repeats iff it holds every element at most once. */
  lemma {:induction false} DistinctCounts<T>(s: seq<T>)
    ensures Distinct(s) <==> forall x :: multiset(s)[x] <= 1
  {
    if s != [] {
      DistinctCounts(s[1..]);
      assert s == [s[0]] + s[1..];
      if Distinct(s) {
        assert s[0] !in s[1..];
        assert Distinct(s[1..]) by {
          forall i, j | 0 <= i < j < |s| - 1 ensures s[1..][i] != s[1..][j] {
            assert s[1..][i] == s[i + 1] && s[1..][j] == s[j + 1];
          }
        }
      }
      if forall x :: multiset(s)[x] <= 1 {
        assert forall x :: multiset(s[1..])[x] <= 1 by {
          forall x ensures multiset(s[1..])[x] <= 1 {
            assert multiset(s)[x] == multiset([s[0]])[x] + multiset(s[1..])[x];
          }
        }
        assert multiset(s)[s[0]] == 1 + multiset(s[1..])[s[0]];
        forall i, j | 0 <= i < j < |s| ensures s[i] != s[j] {
          if i > 0 {
            assert s[i] == s[1..][i - 1] && s[j] == s[1..][j - 1];
          } else {
            assert s[j] == s[1..][j - 1];
          }
        }
      }
    }
  }

  /** Having no repeats is a property of the multiset, so a shuffle keeps it. */
  lemma DistinctShuffle<T>(a: seq<T>, b: seq<T>)
    requires multiset(a) == multiset(b) && Distinct(b)
    ensures Distinct(a)
  {
    DistinctCounts(a);
    DistinctCounts(b);
  }

  /** Concatenation of two lists is without repeats iff each is and they share no element. */
  lemma DistinctConcat<T>(a: seq<T>, b: seq<T>)
    ensures Distinct(a + b) <==> Distinct(a) && Distinct(b) && forall x :: x in a ==> x !in b
  {
    if Distinct(a) && Distinct(b) && forall x :: x in a ==> x !in b {
      DistinctJoin(a, b);
    }
    if Distinct(a + b) {
      DistinctSplit(a, b);
    }
  }

  lemma DistinctJoin<T>(a: seq<T>, b: seq<T>)
    requires Distinct(a) && Distinct(b) && forall x :: x in a ==> x !in b
    ensures Distinct(a + b)
  {
    forall i, j | 0 <= i < j < |a + b| ensures (a + b)[i] != (a + b)[j] {
      if i < |a| && |a| <= j {
        assert (a + b)[i] in a && (a + b)[j] in b;
      }
    }
  }

  lemma DistinctSplit<T>(a: seq<T>, b: seq<T>)
    requires Distinct(a + b)
    ensures Distinct(a) && Distinct(b) && forall x :: x in a ==> x !in b
  {
    var ab := a + b;
    forall i, j | 0 <= i < |a| && 0 <= j < |b| ensures a[i] != b[j] {
      assert ab[i] == a[i] && ab[|a| + j] == b[j];
    }
    forall i, j | 0 <= i < j < |b| ensures b[i] != b[j] {
      assert ab[|a| + i] == b[i] && ab[|a| + j] == b[j];
    }
    forall i, j | 0 <= i < j < |a| ensures a[i] != a[j] {
      assert ab[i] == a[i] && ab[j] == a[j];
    }
  }

  /** The numeric value of a rank character: T..A are 10..14, digits are their own value. */
  function RankValue(r: char): (v: int)
    requires r in RankChars
    ensures 2 <= v <= 14
    ensures v == 14 <==> r == 'A'
  {
    if r == 'T' then 10
    else if r == 'J' then 11
    else if r == 'Q' then 12
    else if r == 'K' then 13
    else if r == 'A' then 14
    else r as int - '0' as int
  }

  /** The value of the rank character follows its position in the rank order. */
  lemma RankValueOrder(i: nat)
    requires i < |RankChars|
    ensures RankValue(RankChars[i]) == i + 2
  {
  }

  /** Two different rank characters never share a value. */
  lemma RankValueInjective(r1: char, r2: char)
    requires r1 in RankChars && r2 in RankChars
    ensures RankValue(r1) == RankValue(r2) ==> r1 == r2
  {
  }

  /** The deck in the order `create_deck` appends it: suit-major, ranks 2..A inside each suit. */
  function Deck(): (deck: seq<string>)
    ensures |deck| == 52
  {
    seq(52, i requires 0 <= i < 52 => [RankChars[i % 13], SuitChars[i / 13]])
  }

  function IndexOf(s: string, c: char): (k: nat)
    requires c in s
    ensures k < |s| && s[k] == c
    ensures forall j :: 0 <= j < k ==> s[j] != c
  {
    if s[0] == c then 0 else 1 + IndexOf(s[1..], c)
  }

  /** Card `rank` of suit `suit` sits at position 13*suit + rank. */
  lemma DeckLayout(suit: nat, rank: nat)
    requires suit < 4 && rank < 13
    ensures |Deck()| == 52
    ensures Deck()[13 * suit + rank] == [RankChars[rank], SuitChars[suit]]
  {
    var i := 13 * suit + rank;
    assert i / 13 == suit && i % 13 == rank;
  }

  /** Every deck entry is a deck card and no card appears twice. */
  lemma DeckDistinct()
    ensures |Deck()| == 52 && Distinct(Deck())
    ensures forall c :: c in Deck() ==> DeckCard(c)
  {
    var d := Deck();
    forall i, j | 0 <= i < j < 52 ensures d[i] != d[j] {
      RankValueOrder(i % 13);
      RankValueOrder(j % 13);
      assert i == 13 * (i / 13) + i % 13;
      assert j == 13 * (j / 13) + j % 13;
    }
  }

  /** The deck holds exactly the deck cards. */
  lemma DeckComplete(c: string)
    ensures c in Deck() <==> DeckCard(c)
  {
    DeckDistinct();
    if DeckCard(c) {
      var r := IndexOf(RankChars, c[0]);
      var s := IndexOf(SuitChars, c[1]);
      DeckLayout(s, r);
      assert c == [c[0], c[1]];
      assert Deck()[13 * s + r] == c;
    }
  }

  /** The pool `[card for card in all_cards if card not in hand and card not in table]`. */
  function Available(deck: seq<string>, hand: seq<string>, table: seq<string>): (pool: seq<string>)
    ensures forall c :: c in pool <==> c in deck && c !in hand && c !in table
    ensures |pool| <= |deck|
  {
    if deck == [] then []
    else
      (if deck[0] !in hand && deck[0] !in table then [deck[0]] else [])
      + Available(deck[1..], hand, table)
  }

  /** Filtering a deck without repeats yields a pool without repeats. */
  lemma {:induction false} AvailableDistinct(deck: seq<string>, hand: seq<string>, table: seq<string>)
    requires Distinct(deck)
    ensures Distinct(Available(deck, hand, table))
  {
    if deck != [] {
      AvailableDistinct(deck[1..], hand, table);
      var rest := Available(deck[1..], hand, table);
      assert deck[0] !in deck[1..];
      assert deck[0] !in rest;
    }
  }

  /** The pool loses exactly the deck cards that are known. */
  lemma {:induction false} AvailableCount(deck: seq<string>, hand: seq<string>, table: seq<string>)
    requires Distinct(deck)
    ensures |Available(deck, hand, table)| == |deck| - |set c | c in deck && (c in hand || c in table)|
  {
    if deck != [] {
      var x := deck[0];
      var rest := deck[1..];
      AvailableCount(rest, hand, table);
      var known := set c | c in deck && (c in hand || c in table);
      var knownRest := set c | c in rest && (c in hand || c in table);
      assert x !in rest;
      if x in hand || x in table {
        assert known == knownRest + {x};
      } else {
        assert known == knownRest;
      }
    }
  }

  lemma {:induction false} DistinctSetSize<T>(s: seq<T>)
    requires Distinct(s)
    ensures |set x | x in s| == |s|
  {
    if s != [] {
      DistinctSetSize(s[1..]);
      assert (set x | x in s) == (set x | x in s[1..]) + {s[0]};
      assert s[0] !in s[1..];
    }
  }

  /**
   * When the selected cards are distinct deck cards, the unknown pool has
   * 52 - |hand| - |table| cards, none of them selected, all of them distinct.
   */
  lemma AvailableFromDeck(hand: seq<string>, table: seq<string>)
    requires Distinct(hand + table)
    requires forall c :: c in hand + table ==> DeckCard(c)
    ensures |Available(Deck(), hand, table)| == 52 - |hand| - |table|
    ensures Distinct(Available(Deck(), hand, table))
    ensures forall c :: c in Available(Deck(), hand, table) <==> DeckCard(c) && c !in hand && c !in table
  {
    DeckDistinct();
    AvailableDistinct(Deck(), hand, table);
    AvailableCount(Deck(), hand, table);
    var known := set c | c in Deck() && (c in hand || c in table);
    forall c | c in hand + table ensures c in Deck() { DeckComplete(c); }
    assert known == set c | c in hand + table;
    DistinctSetSize(hand + table);
    forall c ensures c in Available(Deck(), hand, table) <==> DeckCard(c) && c !in hand && c !in table {
      DeckComplete(c);
    }
  }
}
