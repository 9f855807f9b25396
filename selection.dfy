/**
 * The player's selection: the hole cards (`hand_cards`, at most two) and the
 * community cards on the table (`table_cards`, at most five).  `select_card`
 * toggles one card: a selected card leaves the list that holds it, an
 * unselected one joins the hand while the hand has room, else the table
 * while the table has room, else nothing happens.
 */
module Selection {
  import opened Cards

  datatype Selection = Selection(hand: seq<string>, table: seq<string>)

  /** The selection `select_card` keeps: bounded lists, no card twice, no card in both. */
  predicate WellFormed(s: Selection) {
    |s.hand| <= 2 && |s.table| <= 5 && Distinct(s.hand + s.table)
  }

  /** Where `x` first occurs in `s`, as `list.remove` looks for it. */
  function FirstIndex<T(==)>(s: seq<T>, x: T): (i: nat)
    requires x in s
    ensures i < |s| && s[i] == x && x !in s[..i]
  {
    if s[0] == x then 0
    else
      assert x in s[1..];
      var j := FirstIndex(s[1..], x);
      assert s[..j + 1] == [s[0]] + s[1..][..j];
      j + 1
  }

  /**
   * Python's `list.remove(x)`: drop the first occurrence of `x`, keeping the
   * order of the rest.
   */
  function RemoveFirst<T(==)>(s: seq<T>, x: T): (r: seq<T>)
    requires x in s
    ensures exists i :: 0 <= i < |s| && s[i] == x && x !in s[..i] && r == s[..i] + s[i + 1..]
    ensures |r| == |s| - 1
    ensures multiset(r) == multiset(s) - multiset{x}
  {
    var i := FirstIndex(s, x);
    assert s == s[..i] + [x] + s[i + 1..];
    s[..i] + s[i + 1..]
  }

  /** Removing from a list without repeats leaves exactly the other cards, still without repeats. */
  lemma RemoveFirstDistinct<T>(s: seq<T>, x: T)
    requires x in s && Distinct(s)
    ensures Distinct(RemoveFirst(s, x))
    ensures forall y :: y in RemoveFirst(s, x) <==> y in s && y != x
  {
    var r := RemoveFirst(s, x);
    DistinctCounts(s);
    DistinctCounts(r);
    forall y ensures y in r <==> y in s && y != x {
      assert y in r <==> y in multiset(r);
      assert y in s <==> y in multiset(s);
    }
  }

  /** Removal never introduces an element. */
  lemma RemoveFirstSubset<T>(s: seq<T>, x: T)
    requires x in s
    ensures forall y :: y in RemoveFirst(s, x) ==> y in s
  {
    var r := RemoveFirst(s, x);
    forall y | y in r ensures y in s {
      assert y in multiset(r);
    }
  }

  /** `select_card(card)` on the selection `s`. */
  function Toggle(s: Selection, card: string): (t: Selection)
    ensures card in s.hand + s.table ==> |t.hand| + |t.table| == |s.hand| + |s.table| - 1
    ensures card !in s.hand + s.table ==>
              |t.hand| + |t.table| == |s.hand| + |s.table| + (if |s.hand| < 2 || |s.table| < 5 then 1 else 0)
  {
    if card in s.hand + s.table then
      if card in s.hand then Selection(RemoveFirst(s.hand, card), s.table)
      else Selection(s.hand, RemoveFirst(s.table, card))
    else if |s.hand| < 2 then Selection(s.hand + [card], s.table)
    else if |s.table| < 5 then Selection(s.hand, s.table + [card])
    else s
  }

  /** `select_card` keeps the selection well formed. */
  lemma ToggleWellFormed(s: Selection, card: string)
    requires WellFormed(s)
    ensures WellFormed(Toggle(s, card))
  {
    var t := Toggle(s, card);
    DistinctConcat(s.hand, s.table);
    if card in s.hand {
      RemoveFirstDistinct(s.hand, card);
    } else if card in s.table {
      RemoveFirstDistinct(s.table, card);
    } else if |s.hand| < 2 {
      DistinctConcat(s.hand, [card]);
    } else if |s.table| < 5 {
      DistinctConcat(s.table, [card]);
    }
    DistinctConcat(t.hand, t.table);
  }

  /**
   * A selected card leaves the list that holds it and no other card moves;
   * the other list is untouched.
   */
  lemma ToggleRemoves(s: Selection, card: string)
    requires WellFormed(s) && card in s.hand + s.table
    ensures var t := Toggle(s, card);
      card !in t.hand + t.table
      && (card in s.hand ==> t.table == s.table && forall c :: c in t.hand <==> c in s.hand && c != card)
      && (card in s.table ==> t.hand == s.hand && forall c :: c in t.table <==> c in s.table && c != card)
  {
    DistinctConcat(s.hand, s.table);
    if card in s.hand {
      RemoveFirstDistinct(s.hand, card);
    } else {
      RemoveFirstDistinct(s.table, card);
    }
  }

  /** An unselected card is appended to the hand, else to the table, else ignored. */
  lemma ToggleAdds(s: Selection, card: string)
    requires card !in s.hand + s.table
    ensures var t := Toggle(s, card);
      (|s.hand| < 2 ==> t == Selection(s.hand + [card], s.table))
      && (|s.hand| >= 2 && |s.table| < 5 ==> t == Selection(s.hand, s.table + [card]))
      && (|s.hand| >= 2 && |s.table| >= 5 ==> t == s)
  {
  }

  /** Selecting a new card and then selecting it again restores the selection. */
  lemma {:induction false} ToggleTwice(s: Selection, card: string)
    requires WellFormed(s) && card !in s.hand + s.table
    ensures Toggle(Toggle(s, card), card) == s
  {
    var t := Toggle(s, card);
    if |s.hand| < 2 {
      assert card in t.hand;
      RemoveFirstAppended(s.hand, card);
    } else if |s.table| < 5 {
      assert card !in t.hand && card in t.table;
      RemoveFirstAppended(s.table, card);
    }
  }

  /** Removing a card that was just appended gives the list back. */
  lemma RemoveFirstAppended<T>(s: seq<T>, x: T)
    requires x !in s
    ensures RemoveFirst(s + [x], x) == s
  {
    assert (s + [x])[..|s|] == s;
  }
}
