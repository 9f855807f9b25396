/**
 * The hand-category evaluator: `evaluate_hand` and the `is_*` checks it
 * cascades through, strongest category first.  The checks are stated twice:
 * as predicates over the values and suits (what each check means), and as the
 * methods that fill a count dictionary or scan windows the way the calculator
 * does, each proved equal to its predicate.
 */
module Evaluator {
  import opened Cards

  /** Category labels, indexed by score (0 = High Card .. 9 = Royal Flush). */
  const Labels: seq<string> := [
    "High Card", "Pair", "Two Pair", "Three of a Kind", "Straight",
    "Flush", "Full House", "Four of a Kind", "Straight Flush", "Royal Flush"
  ]

  datatype HandRank = HandRank(score: nat, name: string)

  predicate AllValid(cards: seq<string>) {
    forall i :: 0 <= i < |cards| ==> ValidCard(cards[i])
  }

  lemma AllValidMembers(cards: seq<string>)
    ensures AllValid(cards) <==> forall c :: c in cards ==> ValidCard(c)
  {
  }

  /** `f` applied to every element, in order. */
  function Map<A, B>(f: A --> B, s: seq<A>): (r: seq<B>)
    requires forall i :: 0 <= i < |s| ==> f.requires(s[i])
    ensures |r| == |s| && forall i :: 0 <= i < |s| ==> r[i] == f(s[i])
  {
    seq(|s|, i requires 0 <= i < |s| => f(s[i]))
  }

  /** The value of `card[0]`: T, J, Q, K and A by the if-chain, a digit by `int(rank)`. */
  function RankOf(card: string): int
    requires ValidCard(card)
  {
    RankValue(card[0])
  }

  /** `card[1]`. */
  function SuitOf(card: string): char
    requires ValidCard(card)
  {
    card[1]
  }

  /** The numeric rank of every card, in card order. */
  function CardValues(cards: seq<string>): (vs: seq<int>)
    requires AllValid(cards)
    ensures |vs| == |cards| && forall i :: 0 <= i < |cards| ==> vs[i] == RankValue(cards[i][0])
  {
    Map(RankOf, cards)
  }

  /** The suit character of every card, in card order. */
  function CardSuits(cards: seq<string>): (ss: seq<char>)
    requires AllValid(cards)
    ensures |ss| == |cards| && forall i :: 0 <= i < |cards| ==> ss[i] == cards[i][1]
  {
    Map(SuitOf, cards)
  }

  // ---------------------------------------------------------------------
  // What each check means
  // ---------------------------------------------------------------------

  /** Some element occurs exactly `k` times (`k in value_counts.values()`). */
  predicate HasCount<T(==)>(xs: seq<T>, k: nat) {
    exists x :: x in xs && multiset(xs)[x] == k
  }

  predicate FourOfAKind(vs: seq<int>) { HasCount(vs, 4) }

  /** Some value occurs exactly 3 times and some value occurs exactly 2 times. */
  predicate FullHouse(vs: seq<int>) { HasCount(vs, 3) && HasCount(vs, 2) }

  /** Some suit occurs at least 5 times. */
  predicate Flush(suits: seq<char>) {
    exists s :: s in suits && multiset(suits)[s] >= 5
  }

  predicate ThreeOfAKind(vs: seq<int>) { HasCount(vs, 3) }

  /** Two different values each occur exactly twice. */
  predicate TwoPair(vs: seq<int>) {
    exists a, b :: a in vs && b in vs && a != b && multiset(vs)[a] == 2 && multiset(vs)[b] == 2
  }

  predicate Pair(vs: seq<int>) { HasCount(vs, 2) }

  predicate StrictlyDecreasing(u: seq<int>) {
    forall a, b :: 0 <= a < b < |u| ==> u[a] > u[b]
  }

  /** Inserts `x` into a strictly decreasing list, keeping it strictly decreasing and without repeats. */
  function Insert(u: seq<int>, x: int): (w: seq<int>)
    requires StrictlyDecreasing(u)
    ensures StrictlyDecreasing(w)
    ensures forall v :: v in w <==> v in u || v == x
    ensures |w| > 0 && (w[0] == x || (|u| > 0 && w[0] == u[0]))
  {
    if u == [] then [x]
    else if x > u[0] then [x] + u
    else if x == u[0] then u
    else
      var rest := Insert(u[1..], x);
      assert forall k :: 0 <= k < |rest| ==> rest[k] in rest;
      [u[0]] + rest
  }

  /** `sorted(set(values), reverse=True)`: the distinct values, largest first. */
  function SortedDistinct(vs: seq<int>): (u: seq<int>)
    ensures StrictlyDecreasing(u)
    ensures forall v :: v in u <==> v in vs
  {
    if vs == [] then []
    else Insert(SortedDistinct(vs[..|vs| - 1]), vs[|vs| - 1])
  }

  /**
   * The distinct values, largest first, followed by a 1 when an ace is
   * present so that the ace can also close the A-2-3-4-5 straight.
   */
  function AceLowRanks(vs: seq<int>): seq<int> {
    var u := SortedDistinct(vs);
    if 14 in u then u + [1] else u
  }

  /** Some window of five entries of the list above spans exactly 4. */
  predicate Straight(vs: seq<int>) {
    var u := AceLowRanks(vs);
    exists i :: 0 <= i && i + 4 < |u| && u[i] - u[i + 4] == 4
  }

  /** Rank `v` is available for a straight: held, or 1 standing for a held ace. */
  predicate Present(vs: seq<int>, v: int) {
    v in vs || (v == 1 && 14 in vs)
  }

  /** The five consecutive ranks lo..lo+4 are all available. */
  predicate Run(vs: seq<int>, lo: int) {
    Present(vs, lo) && Present(vs, lo + 1) && Present(vs, lo + 2)
    && Present(vs, lo + 3) && Present(vs, lo + 4)
  }

  predicate AllRanks(vs: seq<int>) {
    forall v :: v in vs ==> 2 <= v <= 14
  }

  /** Whether category `k` is present, judged on its own. */
  predicate Holds(vs: seq<int>, suits: seq<char>, k: nat) {
    match k
    case 9 => Straight(vs) && Flush(suits) && 14 in vs
    case 8 => Straight(vs) && Flush(suits)
    case 7 => FourOfAKind(vs)
    case 6 => FullHouse(vs)
    case 5 => Flush(suits)
    case 4 => Straight(vs)
    case 3 => ThreeOfAKind(vs)
    case 2 => TwoPair(vs)
    case 1 => Pair(vs)
    case 0 => true
    case _ => false
  }

  /**
   * The cascade of `evaluate_hand` from category `k` down: the first category
   * that holds.  High Card always holds, so the search always ends.
   */
  function Strongest(vs: seq<int>, suits: seq<char>, k: nat): (s: nat)
    requires k <= 9
    ensures s <= k
  {
    if k == 0 || Holds(vs, suits, k) then k else Strongest(vs, suits, k - 1)
  }

  /** The search stops at a category that holds, after passing over only categories that do not. */
  lemma {:induction false} StrongestHolds(vs: seq<int>, suits: seq<char>, k: nat)
    requires k <= 9
    ensures Holds(vs, suits, Strongest(vs, suits, k))
    ensures forall j :: Strongest(vs, suits, k) < j <= k ==> !Holds(vs, suits, j)
  {
    if k > 0 && !Holds(vs, suits, k) {
      StrongestHolds(vs, suits, k - 1);
    }
  }

  /** The category of the given values and suits, with its label. */
  function Classify(vs: seq<int>, suits: seq<char>): (r: HandRank)
    ensures 0 <= r.score <= 9 && r.name == Labels[r.score]
  {
    var s := Strongest(vs, suits, 9);
    HandRank(s, Labels[s])
  }

  /**
   * `evaluate_hand(hole, community)`.  The calculator raises on an empty
   * card list (the maximum of no suit counts), hence the non-empty requirement.
   */
  function Evaluate(hole: seq<string>, community: seq<string>): (r: HandRank)
    requires AllValid(hole + community) && |hole + community| > 0
    ensures 0 <= r.score <= 9 && r.name == Labels[r.score]
  {
    Classify(CardValues(hole + community), CardSuits(hole + community))
  }

  // ---------------------------------------------------------------------
  // Properties of the evaluator
  // ---------------------------------------------------------------------

  /** Only one category is present with nothing stronger present. */
  lemma StrongestUnique(vs: seq<int>, suits: seq<char>, s: nat)
    requires s <= 9 && Holds(vs, suits, s)
    requires forall j :: s < j <= 9 ==> !Holds(vs, suits, j)
    ensures Classify(vs, suits).score == s
  {
    StrongestHolds(vs, suits, 9);
  }

  /** Scores 8 and 9 are exactly the straight-and-flush cases; 9 also needs an ace. */
  lemma TopScores(vs: seq<int>, suits: seq<char>)
    ensures Classify(vs, suits).score >= 8 <==> Straight(vs) && Flush(suits)
    ensures Classify(vs, suits).score == 9 <==> Straight(vs) && Flush(suits) && 14 in vs
  {
    StrongestHolds(vs, suits, 9);
    var s := Classify(vs, suits).score;
    if Straight(vs) && Flush(suits) {
      assert Holds(vs, suits, 8);
    }
    if s >= 8 {
      assert Holds(vs, suits, s);
    }
    if Straight(vs) && Flush(suits) && 14 in vs {
      assert Holds(vs, suits, 9);
    }
  }

  /** Four of a kind scores 7 whatever weaker category is also present; only a straight with a flush ranks higher. */
  lemma FourOfAKindBeatsFullHouse(vs: seq<int>, suits: seq<char>)
    requires FourOfAKind(vs)
    requires !(Straight(vs) && Flush(suits))
    ensures Classify(vs, suits).score == 7
  {
    StrongestUnique(vs, suits, 7);
  }

  /** 2c 2d with 2h 2s 5c 5d 5h: four deuces and three fives score 7 (Four of a Kind). */
  lemma FourDeucesThreeFives()
    ensures AllValid(["2c", "2d"] + ["2h", "2s", "5c", "5d", "5h"])
    ensures Evaluate(["2c", "2d"], ["2h", "2s", "5c", "5d", "5h"]).score == 7
  {
    var cards := ["2c", "2d"] + ["2h", "2s", "5c", "5d", "5h"];
    assert cards == ["2c", "2d", "2h", "2s", "5c", "5d", "5h"];
    assert CardValues(cards) == [2, 2, 2, 2, 5, 5, 5];
    assert CardSuits(cards) == ['c', 'd', 'h', 's', 'c', 'd', 'h'];
    FourDeucesClassify();
  }

  lemma FourDeucesClassify()
    ensures Classify([2, 2, 2, 2, 5, 5, 5], ['c', 'd', 'h', 's', 'c', 'd', 'h']).score == 7
  {
    var vs := [2, 2, 2, 2, 5, 5, 5];
    var ss := ['c', 'd', 'h', 's', 'c', 'd', 'h'];
    assert multiset(vs)[2] == 4;
    NoFlushInTwoOfEach();
    FourOfAKindBeatsFullHouse(vs, ss);
  }

  /** Suits c, d, h twice and s once: no flush. */
  lemma NoFlushInTwoOfEach()
    ensures !Flush(['c', 'd', 'h', 's', 'c', 'd', 'h'])
  {
    var ss := ['c', 'd', 'h', 's', 'c', 'd', 'h'];
    var n := multiset(ss);
    assert n['c'] == 2 && n['d'] == 2 && n['h'] == 2 && n['s'] == 1;
    assert forall c :: c in ss ==> c == 'c' || c == 'd' || c == 'h' || c == 's';
  }

  /** 2c 2d with 2h 5c 5d 5h 9s: two ranks with three cards each are no full house, only Three of a Kind (3). */
  lemma TwoTriplesAreThreeOfAKind()
    ensures AllValid(["2c", "2d"] + ["2h", "5c", "5d", "5h", "9s"])
    ensures Evaluate(["2c", "2d"], ["2h", "5c", "5d", "5h", "9s"]).score == 3
  {
    var cards := ["2c", "2d"] + ["2h", "5c", "5d", "5h", "9s"];
    assert cards == ["2c", "2d", "2h", "5c", "5d", "5h", "9s"];
    assert CardValues(cards) == [2, 2, 2, 5, 5, 5, 9];
    assert CardSuits(cards) == ['c', 'd', 'h', 'c', 'd', 'h', 's'];
    TwoTriplesClassify(CardValues(cards), CardSuits(cards));
  }

  lemma TwoTriplesClassify(vs: seq<int>, ss: seq<char>)
    requires vs == [2, 2, 2, 5, 5, 5, 9] && ss == ['c', 'd', 'h', 'c', 'd', 'h', 's']
    ensures Classify(vs, ss).score == 3
  {
    TwoTriplesCounts(vs);
    TwoTriplesNoStraight(vs);
    NoFlushInTwoTriples(ss);
    assert Holds(vs, ss, 3);
    assert forall j :: 3 < j <= 9 ==> !Holds(vs, ss, j);
    StrongestUnique(vs, ss, 3);
  }

  lemma TwoTriplesCounts(vs: seq<int>)
    requires vs == [2, 2, 2, 5, 5, 5, 9]
    ensures HasCount(vs, 3) && !HasCount(vs, 4) && !HasCount(vs, 2) && !TwoPair(vs)
  {
    var m := multiset(vs);
    assert m[2] == 3 && m[5] == 3 && m[9] == 1;
    assert forall x :: x in vs ==> x == 2 || x == 5 || x == 9;
  }

  lemma TwoTriplesNoStraight(vs: seq<int>)
    requires vs == [2, 2, 2, 5, 5, 5, 9]
    ensures !Straight(vs)
  {
    assert forall v :: v in vs ==> v == 2 || v == 5 || v == 9;
    NoRunAmongTwoFiveNine(vs);
    StraightIffRun(vs);
  }

  lemma NoRunAmongTwoFiveNine(vs: seq<int>)
    requires forall v :: v in vs ==> v == 2 || v == 5 || v == 9
    ensures forall lo :: !Run(vs, lo)
  {
    forall lo ensures !Run(vs, lo) {
      assert !Present(vs, 3) && !Present(vs, 4) && !Present(vs, 6) && !Present(vs, 7) && !Present(vs, 8);
    }
  }

  lemma NoFlushInTwoTriples(ss: seq<char>)
    requires ss == ['c', 'd', 'h', 'c', 'd', 'h', 's']
    ensures !Flush(ss)
  {
    var n := multiset(ss);
    assert n['c'] == 2 && n['d'] == 2 && n['h'] == 2 && n['s'] == 1;
    assert forall c :: c in ss ==> c == 'c' || c == 'd' || c == 'h' || c == 's';
  }

  /** Membership in the ace-low list is exactly availability for a straight. */
  lemma AceLowRanksMembers(vs: seq<int>)
    requires AllRanks(vs)
    ensures forall v :: v in AceLowRanks(vs) <==> Present(vs, v)
    ensures StrictlyDecreasing(AceLowRanks(vs))
  {
    var u := SortedDistinct(vs);
    if 14 in u {
      var w := u + [1];
      forall a, b | 0 <= a < b < |w| ensures w[a] > w[b] {
        if b < |u| { assert w[a] == u[a] && w[b] == u[b]; }
        else { assert w[a] in u; }
      }
    }
  }

  /** In a strictly decreasing list, the successor of v+1 is v whenever v occurs. */
  lemma NextBelow(u: seq<int>, i: nat, v: int)
    requires StrictlyDecreasing(u)
    requires i < |u| && u[i] == v + 1 && v in u
    ensures i + 1 < |u| && u[i + 1] == v
  {
    var j :| 0 <= j < |u| && u[j] == v;
  }

  /** Five strictly decreasing integers spanning 4 are consecutive. */
  lemma WindowConsecutive(u: seq<int>, i: nat)
    requires StrictlyDecreasing(u) && i + 4 < |u| && u[i] - u[i + 4] == 4
    ensures u[i + 3] == u[i + 4] + 1 && u[i + 2] == u[i + 4] + 2
    ensures u[i + 1] == u[i + 4] + 3 && u[i] == u[i + 4] + 4
  {
    assert u[i] > u[i + 1] && u[i + 1] > u[i + 2] && u[i + 2] > u[i + 3] && u[i + 3] > u[i + 4];
  }

  /** Five decreasing entries spanning 4 are five consecutive ranks. */
  lemma StraightHasRun(vs: seq<int>)
    requires AllRanks(vs) && Straight(vs)
    ensures exists lo :: Run(vs, lo)
  {
    var u := AceLowRanks(vs);
    AceLowRanksMembers(vs);
    var i :| 0 <= i && i + 4 < |u| && u[i] - u[i + 4] == 4;
    WindowConsecutive(u, i);
    var lo := u[i + 4];
    assert u[i + 4] in u && u[i + 3] in u && u[i + 2] in u && u[i + 1] in u && u[i] in u;
    assert Run(vs, lo);
  }

  /** Five consecutive available ranks sit side by side in the sorted list. */
  lemma RunIsStraight(vs: seq<int>, lo: int)
    requires AllRanks(vs) && Run(vs, lo)
    ensures Straight(vs)
  {
    var u := AceLowRanks(vs);
    AceLowRanksMembers(vs);
    assert lo in u && lo + 1 in u && lo + 2 in u && lo + 3 in u && lo + 4 in u;
    var i := ConsecutiveWindow(u, lo);
  }

  /** Five consecutive values of a strictly decreasing list stand side by side. */
  lemma ConsecutiveWindow(u: seq<int>, lo: int) returns (i: nat)
    requires StrictlyDecreasing(u)
    requires lo in u && lo + 1 in u && lo + 2 in u && lo + 3 in u && lo + 4 in u
    ensures i + 4 < |u| && u[i] - u[i + 4] == 4
  {
    i :| 0 <= i < |u| && u[i] == lo + 4;
    NextBelow(u, i, lo + 3);
    NextBelow(u, i + 1, lo + 2);
    NextBelow(u, i + 2, lo + 1);
    NextBelow(u, i + 3, lo);
  }

  /**
   * `is_straight` holds exactly when five consecutive ranks are available,
   * counting an ace as 1 as well as 14; so A-2-3-4-5 is a straight and
   * K-A-2-3-4 is not.
   */
  lemma StraightIffRun(vs: seq<int>)
    requires AllRanks(vs)
    ensures Straight(vs) <==> exists lo :: Run(vs, lo)
  {
    if Straight(vs) {
      StraightHasRun(vs);
    }
    if lo :| Run(vs, lo) {
      RunIsStraight(vs, lo);
    }
  }

  /** A straight flush or royal flush always has a straight and five cards of one suit. */
  lemma TopScoresNeedStraightAndFlush(vs: seq<int>, suits: seq<char>)
    requires AllRanks(vs)
    requires Classify(vs, suits).score >= 8
    ensures exists lo :: Run(vs, lo)
    ensures exists s :: s in suits && multiset(suits)[s] >= 5
  {
    TopScores(vs, suits);
    StraightIffRun(vs);
  }

  // ---------------------------------------------------------------------
  // The result depends only on the multiset of cards
  // ---------------------------------------------------------------------

  lemma TailMember(u1: seq<int>, u2: seq<int>, v: int)
    requires StrictlyDecreasing(u1) && StrictlyDecreasing(u2)
    requires forall x :: x in u1 <==> x in u2
    requires |u1| > 0 && |u2| > 0 && u1[0] == u2[0]
    requires v in u1[1..]
    ensures v in u2[1..]
  {
    var m :| 0 <= m < |u1| - 1 && u1[1..][m] == v;
    assert u1[0] > u1[m + 1];
    assert v in u1;
    var l :| 0 <= l < |u2| && u2[l] == v;
    assert l != 0;
    assert u2[1..][l - 1] == v;
  }

  /** A strictly decreasing list is determined by its elements. */
  lemma {:induction false} DecreasingUnique(u1: seq<int>, u2: seq<int>)
    requires StrictlyDecreasing(u1) && StrictlyDecreasing(u2)
    requires forall v :: v in u1 <==> v in u2
    ensures u1 == u2
    decreases |u1|
  {
    assert u2 == [] || u2[0] in u2;
    if u1 != [] {
      assert u1[0] in u1;
      assert u1[0] in u2;
      assert u2 != [];
      assert u2[0] in u2;
      assert u2[0] in u1;
      var i :| 0 <= i < |u1| && u1[i] == u2[0];
      var j :| 0 <= j < |u2| && u2[j] == u1[0];
      assert u1[0] == u2[0];
      forall v | v in u1[1..] ensures v in u2[1..] {
        TailMember(u1, u2, v);
      }
      forall v | v in u2[1..] ensures v in u1[1..] {
        TailMember(u2, u1, v);
      }
      DecreasingUnique(u1[1..], u2[1..]);
      assert u1 == [u1[0]] + u1[1..] && u2 == [u2[0]] + u2[1..];
    }
  }

  lemma SameMembers<T>(xs1: seq<T>, xs2: seq<T>)
    requires multiset(xs1) == multiset(xs2)
    ensures forall x :: x in xs1 <==> x in xs2
  {
    forall x ensures x in xs1 <==> x in xs2 {
      assert x in xs1 <==> x in multiset(xs1);
      assert x in xs2 <==> x in multiset(xs2);
    }
  }

  lemma HasCountPermutation<T>(xs1: seq<T>, xs2: seq<T>, k: nat)
    requires multiset(xs1) == multiset(xs2)
    ensures HasCount(xs1, k) == HasCount(xs2, k)
  {
    SameMembers(xs1, xs2);
  }

  lemma FlushPermutation(ss1: seq<char>, ss2: seq<char>)
    requires multiset(ss1) == multiset(ss2)
    ensures Flush(ss1) == Flush(ss2)
  {
    SameMembers(ss1, ss2);
  }

  lemma TwoPairPermutation(vs1: seq<int>, vs2: seq<int>)
    requires multiset(vs1) == multiset(vs2)
    ensures TwoPair(vs1) == TwoPair(vs2)
  {
    SameMembers(vs1, vs2);
  }

  lemma StraightPermutation(vs1: seq<int>, vs2: seq<int>)
    requires multiset(vs1) == multiset(vs2)
    ensures Straight(vs1) == Straight(vs2)
  {
    SameMembers(vs1, vs2);
    DecreasingUnique(SortedDistinct(vs1), SortedDistinct(vs2));
    assert AceLowRanks(vs1) == AceLowRanks(vs2);
  }

  /** Permuting the values or the suits leaves the category unchanged. */
  lemma ClassifyPermutation(vs1: seq<int>, ss1: seq<char>, vs2: seq<int>, ss2: seq<char>)
    requires multiset(vs1) == multiset(vs2) && multiset(ss1) == multiset(ss2)
    ensures Classify(vs1, ss1) == Classify(vs2, ss2)
  {
    SameMembers(vs1, vs2);
    HasCountPermutation(vs1, vs2, 4);
    HasCountPermutation(vs1, vs2, 3);
    HasCountPermutation(vs1, vs2, 2);
    FlushPermutation(ss1, ss2);
    TwoPairPermutation(vs1, vs2);
    StraightPermutation(vs1, vs2);
    assert forall k :: Holds(vs1, ss1, k) == Holds(vs2, ss2, k);
    StrongestHolds(vs1, ss1, 9);
    StrongestUnique(vs2, ss2, Classify(vs1, ss1).score);
  }

  /** Taking the first element of `a` out of a rearrangement `b` of it leaves a rearrangement of the rest. */
  lemma MultisetRemoveAt<T>(a: seq<T>, b: seq<T>, j: nat)
    requires a != [] && multiset(a) == multiset(b) && j < |b| && b[j] == a[0]
    ensures multiset(a[1..]) == multiset(b[..j] + b[j + 1..])
  {
    var x := a[0];
    assert b == b[..j] + [x] + b[j + 1..];
    assert a == [x] + a[1..];
    calc {
      multiset(a[1..]);
      multiset(a) - multiset{x};
      multiset(b) - multiset{x};
      multiset(b[..j]) + multiset(b[j + 1..]);
      multiset(b[..j] + b[j + 1..]);
    }
  }

  lemma MapDefinedPermutation<A, B>(f: A --> B, a: seq<A>, b: seq<A>)
    requires forall i :: 0 <= i < |a| ==> f.requires(a[i])
    requires multiset(a) == multiset(b)
    ensures forall i :: 0 <= i < |b| ==> f.requires(b[i])
  {
    forall i | 0 <= i < |b| ensures f.requires(b[i]) {
      assert b[i] in multiset(a);
    }
  }

  /** Rearranging a sequence rearranges its image under `f` the same way. */
  lemma {:induction false} MapPermutation<A, B>(f: A --> B, a: seq<A>, b: seq<A>)
    requires forall i :: 0 <= i < |a| ==> f.requires(a[i])
    requires multiset(a) == multiset(b)
    ensures forall i :: 0 <= i < |b| ==> f.requires(b[i])
    ensures multiset(Map(f, a)) == multiset(Map(f, b))
    decreases |a|
  {
    MapDefinedPermutation(f, a, b);
    if a != [] {
      var x := a[0];
      assert x in multiset(b);
      var j :| 0 <= j < |b| && b[j] == x;
      var rest := b[..j] + b[j + 1..];
      MultisetRemoveAt(a, b, j);
      MapPermutation(f, a[1..], rest);
      var y := multiset{f(x)};
      assert multiset(Map(f, a)) == y + multiset(Map(f, a[1..])) by {
        assert Map(f, a) == [f(x)] + Map(f, a[1..]);
      }
      assert multiset(Map(f, b)) == multiset(Map(f, b[..j])) + y + multiset(Map(f, b[j + 1..])) by {
        assert Map(f, b) == Map(f, b[..j]) + [f(x)] + Map(f, b[j + 1..]);
      }
      assert multiset(Map(f, rest)) == multiset(Map(f, b[..j])) + multiset(Map(f, b[j + 1..])) by {
        assert Map(f, rest) == Map(f, b[..j]) + Map(f, b[j + 1..]);
      }
    }
  }

  /** Rearranging the cards rearranges their values and their suits. */
  lemma CardFeaturesPermutation(a: seq<string>, b: seq<string>)
    requires AllValid(a) && multiset(a) == multiset(b)
    ensures AllValid(b)
    ensures multiset(CardValues(a)) == multiset(CardValues(b))
    ensures multiset(CardSuits(a)) == multiset(CardSuits(b))
  {
    MapPermutation(RankOf, a, b);
    MapPermutation(SuitOf, a, b);
  }

  /** `evaluate_hand` gives the same result for any arrangement of the same cards. */
  lemma EvaluateOrderFree(hole1: seq<string>, comm1: seq<string>, hole2: seq<string>, comm2: seq<string>)
    requires AllValid(hole1 + comm1) && |hole1 + comm1| > 0
    requires multiset(hole1 + comm1) == multiset(hole2 + comm2)
    ensures AllValid(hole2 + comm2) && |hole2 + comm2| > 0
    ensures Evaluate(hole1, comm1) == Evaluate(hole2, comm2)
  {
    CardFeaturesPermutation(hole1 + comm1, hole2 + comm2);
    assert |multiset(hole2 + comm2)| == |hole1 + comm1|;
    ClassifyPermutation(CardValues(hole1 + comm1), CardSuits(hole1 + comm1),
                        CardValues(hole2 + comm2), CardSuits(hole2 + comm2));
  }

  // ---------------------------------------------------------------------
  // The checks as the calculator runs them
  // ---------------------------------------------------------------------

  /** `counts` is the dictionary of occurrence counts of `xs`. */
  ghost predicate Tallies<T(!new)>(counts: map<T, nat>, xs: seq<T>) {
    (forall x :: x in counts <==> x in xs)
    && (forall x :: x in counts ==> counts[x] == multiset(xs)[x])
  }

  /** The counting loop shared by every `is_*` check: `counts[x] = counts.get(x, 0) + 1`. */
  method Tally<T(==)>(xs: seq<T>) returns (counts: map<T, nat>)
    ensures forall x :: x in counts <==> x in xs
    ensures forall x :: x in counts ==> counts[x] == multiset(xs)[x]
  {
    counts := map[];
    var i := 0;
    while i < |xs|
      invariant 0 <= i <= |xs|
      invariant forall x :: x in counts <==> x in xs[..i]
      invariant forall x :: x in counts ==> counts[x] == multiset(xs[..i])[x]
    {
      var x := xs[i];
      assert xs[..i + 1] == xs[..i] + [x];
      counts := counts[x := (if x in counts then counts[x] else 0) + 1];
      i := i + 1;
    }
    assert xs[..i] == xs;
  }

  lemma TalliedCount<T(!new)>(counts: map<T, nat>, xs: seq<T>, k: nat)
    requires Tallies(counts, xs)
    ensures k in counts.Values <==> HasCount(xs, k)
  {
    if HasCount(xs, k) {
      var x :| x in xs && multiset(xs)[x] == k;
      assert counts[x] == k;
    }
  }

  method IsFourOfAKind(vs: seq<int>) returns (b: bool)
    ensures b == FourOfAKind(vs)
  {
    var counts := Tally(vs);
    TalliedCount(counts, vs, 4);
    b := 4 in counts.Values;
  }

  method IsFullHouse(vs: seq<int>) returns (b: bool)
    ensures b == FullHouse(vs)
  {
    var counts := Tally(vs);
    TalliedCount(counts, vs, 3);
    TalliedCount(counts, vs, 2);
    b := 3 in counts.Values && 2 in counts.Values;
  }

  method IsThreeOfAKind(vs: seq<int>) returns (b: bool)
    ensures b == ThreeOfAKind(vs)
  {
    var counts := Tally(vs);
    TalliedCount(counts, vs, 3);
    b := 3 in counts.Values;
  }

  method IsPair(vs: seq<int>) returns (b: bool)
    ensures b == Pair(vs)
  {
    var counts := Tally(vs);
    TalliedCount(counts, vs, 2);
    b := 2 in counts.Values;
  }

  /** At least two values whose count is exactly 2. */
  method IsTwoPair(vs: seq<int>) returns (b: bool)
    ensures b <==> TwoPair(vs)
  {
    var counts := Tally(vs);
    var pairs := set v | v in counts && counts[v] == 2;
    b := |pairs| >= 2;
    assert forall v :: v in pairs <==> v in vs && multiset(vs)[v] == 2;
    if TwoPair(vs) {
      var x, y :| x in vs && y in vs && x != y && multiset(vs)[x] == 2 && multiset(vs)[y] == 2;
      assert x in pairs && y in pairs - {x};
      assert |pairs - {x}| == |pairs| - 1;
    }
    if |pairs| >= 2 {
      var x, y := PickTwo(pairs);
      assert x in vs && y in vs && multiset(vs)[x] == 2 && multiset(vs)[y] == 2;
    }
  }

  lemma PickTwo<T>(s: set<T>) returns (a: T, b: T)
    requires |s| >= 2
    ensures a in s && b in s && a != b
  {
    assert s != {};
    a :| a in s;
    assert |s - {a}| == |s| - 1;
    assert s - {a} != {};
    b :| b in s - {a};
  }

  /** The largest suit count is at least 5; the calculator raises on an empty suit list. */
  method IsFlush(suits: seq<char>) returns (b: bool)
    requires |suits| > 0
    ensures b == Flush(suits)
  {
    var counts := Tally(suits);
    b := exists s | s in counts :: counts[s] >= 5;
  }

  /** The window scan over the distinct values, largest first, with an ace also as 1. */
  method IsStraight(vs: seq<int>) returns (b: bool)
    ensures b == Straight(vs)
  {
    var unique := SortedDistinct(vs);
    if 14 in unique {
      unique := unique + [1];
    }
    ghost var u := AceLowRanks(vs);
    assert unique == u;
    var i := 0;
    while i < |unique| - 4
      invariant 0 <= i
      invariant forall k :: 0 <= k < i && k + 4 < |u| ==> u[k] - u[k + 4] != 4
    {
      if unique[i] - unique[i + 4] == 4 {
        return true;
      }
      i := i + 1;
    }
    return false;
  }

  /** `is_straight(values) and is_flush(suits)`, with the same short circuit. */
  method IsStraightFlush(vs: seq<int>, suits: seq<char>) returns (b: bool)
    requires |vs| == |suits|
    ensures b == (Straight(vs) && Flush(suits))
  {
    b := IsStraight(vs);
    if b {
      assert |suits| > 0;
      b := IsFlush(suits);
    }
  }

  /** `evaluate_hand`: convert the cards, then run the checks strongest first. */
  method EvaluateHand(hole: seq<string>, community: seq<string>) returns (r: HandRank)
    requires AllValid(hole + community) && |hole + community| > 0
    ensures r == Evaluate(hole, community)
  {
    var cards := hole + community;
    var values: seq<int> := [];
    var suits: seq<char> := [];
    var i := 0;
    while i < |cards|
      invariant 0 <= i <= |cards|
      invariant AllValid(cards[..i])
      invariant values == CardValues(cards[..i]) && suits == CardSuits(cards[..i])
    {
      var card := cards[i];
      assert cards[..i + 1] == cards[..i] + [card];
      values := values + [RankValue(card[0])];
      suits := suits + [card[1]];
      i := i + 1;
    }
    assert cards[..i] == cards;
    var sf := IsStraightFlush(values, suits);
    if sf && 14 in values {
      StrongestUnique(values, suits, 9);
      return HandRank(9, "Royal Flush");
    }
    if sf {
      StrongestUnique(values, suits, 8);
      return HandRank(8, "Straight Flush");
    }
    var four := IsFourOfAKind(values);
    if four {
      StrongestUnique(values, suits, 7);
      return HandRank(7, "Four of a Kind");
    }
    var full := IsFullHouse(values);
    if full {
      StrongestUnique(values, suits, 6);
      return HandRank(6, "Full House");
    }
    var flush := IsFlush(suits);
    if flush {
      StrongestUnique(values, suits, 5);
      return HandRank(5, "Flush");
    }
    var straight := IsStraight(values);
    if straight {
      StrongestUnique(values, suits, 4);
      return HandRank(4, "Straight");
    }
    var three := IsThreeOfAKind(values);
    if three {
      StrongestUnique(values, suits, 3);
      return HandRank(3, "Three of a Kind");
    }
    var twoPair := IsTwoPair(values);
    if twoPair {
      StrongestUnique(values, suits, 2);
      return HandRank(2, "Two Pair");
    }
    var pair := IsPair(values);
    if pair {
      StrongestUnique(values, suits, 1);
      return HandRank(1, "Pair");
    }
    StrongestUnique(values, suits, 0);
    return HandRank(0, "High Card");
  }
}
