# Texas Hold'em calculator — verified model

A Dafny model of the logic inside `TexasHoldemCalculator` (`ppoker.py`). This is a desktop
Texas Hold'em odds calculator. The player picks two hole cards and up to five community
cards from a 52-card deck. The calculator then estimates the chance of beating 1..9
opponents with a Monte Carlo simulation and names the category the player's hand most often
reaches. It also formats the cards for an AI adviser and reads the adviser's text back:
the recommended sentence and the recent chat exchanges.

The model has six modules, one per part of the calculator:

| file | module | what it holds |
|---|---|---|
| `cards.dfy` | `Wrappers`, `Cards` | card strings, rank values, the deck `create_deck` builds, the pool of unknown cards |
| `evaluator.dfy` | `Evaluator` | `evaluate_hand` and its `is_*` checks, both as predicates and as the counting and scanning methods the calculator runs |
| `simulation.dfy` | `Simulation` | one trial (community completion, opponent dealing, win test), the trial loop, the win and category counters, the modal category and its Spanish name |
| `selection.dfy` | `Selection` | `select_card` as a transition on the pair (hand, table) and its invariants |
| `calculator.dfy` | `Calculator` | the calculator object: its deck, selection and opponent count as fields, with `create_deck`, `select_card`, `reset`, `calculate_odds` and `calculate_preliminary_odds` as methods |
| `text.dfy` | `Text` | Python's `split`, `join`, `strip`, `lower`, `in` and `startswith`, plus `format_cards_for_ai`, `extract_recommendation` and `extract_conversation_history` |

What the model follows on purpose, because the calculator does it this way:

- A "straight flush" is a straight anywhere plus a flush anywhere among the seven cards. The suits of the straight are not tied to the flush. A royal flush only adds "some card is an ace".
- Full house, two pair and pair test for counts of exactly 3 and exactly 2. So counts {3, 3, 1} are Three of a Kind.
- In a trial, an opponent's slice of the shuffled pool that holds fewer than two cards is dropped. A tie with any opponent loses the trial.
- The most common category is the first maximum in the order High Card … Royal Flush.
- The chat scan tests and keeps each line stripped of surrounding white space, both the "Tú:" question and the "IA:" answer. The model strips every line once up front (`StripAll`) and scans the stripped lines; the outcome is the same.

The random shuffle is not modelled. Every trial receives its shuffled pool as an argument,
so every statement about the simulation holds for every sequence of shuffles.

## Model

| member | source | states |
|---|---|---|
| Cards.RankValue | ppoker.py:769-781 | a rank character's value is in 2..14, and it is 14 exactly for the ace |
| Cards.RankValueOrder | ppoker.py:769-781 | the rank at position i of 2..A has value i+2, so values follow rank order |
| Cards.RankValueInjective | ppoker.py:769-781 | two different rank characters never share a value |
| Cards.Deck | ppoker.py:81-89 | `create_deck`'s 52 strings, rank character then suit character, suits outer and ranks inner; its layout and completeness are Cards.DeckLayout, Cards.DeckDistinct and Cards.DeckComplete |
| Cards.DistinctConcat | ppoker.py:450 | hand + table has no repeats iff each list has none and they share no card |
| Cards.DistinctCounts | ppoker.py:702-703 | a list has no repeats iff it holds every element at most once |
| Cards.DistinctShuffle | ppoker.py:702-703 | a rearrangement of a list without repeats has no repeats |
| Cards.DeckLayout | ppoker.py:81-89 | the deck has 52 cards, and the card of suit s and rank r sits at position 13·s + r (suit-major, ranks 2..A) |
| Cards.DeckDistinct | ppoker.py:81-89 | the 52 deck entries are pairwise different deck cards |
| Cards.DeckComplete | ppoker.py:81-89 | a string is in the deck iff it is a rank character followed by a suit character |
| Calculator.TexasHoldemCalculator.CreateDeck | ppoker.py:81-89 | the nested loops append exactly the deck, in suit-major order, to `all_cards` |
| Cards.Available | ppoker.py:656 | a card is in the unknown pool iff it is in the deck and neither in the hand nor on the table |
| Cards.AvailableDistinct | ppoker.py:656 | filtering a deck without repeats gives a pool without repeats |
| Cards.AvailableCount | ppoker.py:656 | the pool is the deck minus exactly the known cards it contains |
| Cards.AvailableFromDeck | ppoker.py:619 | for distinct selected deck cards, the pool has 52 − \|hand\| − \|table\| distinct cards: exactly the deck cards not selected |
| Evaluator.CardValues | ppoker.py:765-783 | the value list is the rank value of every card, in card order |
| Evaluator.CardSuits | ppoker.py:765-784 | the suit list is the second character of every card, in card order |
| Evaluator.SortedDistinct | ppoker.py:861 | `sorted(set(values), reverse=True)`: strictly decreasing, with exactly the values present |
| Evaluator.Insert | ppoker.py:861 | inserting into a strictly decreasing list keeps it strictly decreasing and adds exactly the new value |
| Evaluator.Holds | ppoker.py:791-828 | category k's own test, exactly as the `if` chain writes it (9: straight, flush and an ace; 8: straight and flush; 7: a count of 4; 6: counts of 3 and 2; 5: flush; 4: straight; 3: a count of 3; 2: two counts of 2; 1: a count of 2; 0: always); Evaluator.StrongestUnique ties the score to it |
| Evaluator.Strongest | ppoker.py:791-828 | the cascade from category k downwards never returns a category above k |
| Evaluator.StrongestHolds | ppoker.py:791-828 | the cascade stops at a category that holds, after passing only categories that do not |
| Evaluator.Classify | ppoker.py:791-828 | the score is in 0..9 and the label is the fixed label of that score |
| Evaluator.Evaluate | ppoker.py:757-828 | `evaluate_hand` returns a score in 0..9 with the label of that score |
| Evaluator.StrongestUnique | ppoker.py:791-828 | the score is the one category that holds while no stronger one does |
| Evaluator.TopScores | ppoker.py:792-797 | the score is 8 or 9 iff a straight and a flush are both present (checked independently); it is 9 iff an ace is also present |
| Evaluator.TopScoresNeedStraightAndFlush | ppoker.py:830-832 | a score of 8 or 9 implies five consecutive ranks and five cards of one suit |
| Evaluator.FourOfAKindBeatsFullHouse | ppoker.py:799-805 | four of a kind without a straight flush scores 7, whatever weaker category is also present |
| Evaluator.FourDeucesThreeFives | ppoker.py:799-801 | 2c 2d with 2h 2s 5c 5d 5h (four deuces and three fives) scores 7, Four of a Kind |
| Evaluator.FourDeucesClassify | ppoker.py:799-801 | the values 2,2,2,2,5,5,5 with suits c,d,h,s,c,d,h classify as 7 |
| Evaluator.NoFlushInTwoOfEach | ppoker.py:850-856 | the suits c,d,h,s,c,d,h hold no five of a suit |
| Evaluator.TwoTriplesAreThreeOfAKind | ppoker.py:842-848 | 2c 2d with 2h 5c 5d 5h 9s (two triples) scores 3, Three of a Kind: the full-house test wants a count of exactly 2 |
| Evaluator.TwoTriplesClassify | ppoker.py:842-880 | the values 2,2,2,5,5,5,9 with suits c,d,h,c,d,h,s classify as 3 |
| Evaluator.TwoTriplesCounts | ppoker.py:834-848 | the counts 3,3,1 have a 3 but no 4 and no 2, and no two pairs |
| Evaluator.TwoTriplesNoStraight | ppoker.py:858-872 | the ranks 2,5,9 form no straight |
| Evaluator.NoRunAmongTwoFiveNine | ppoker.py:858-872 | values drawn from 2, 5 and 9 have no five consecutive ranks |
| Evaluator.NoFlushInTwoTriples | ppoker.py:850-856 | the suits c,d,h,c,d,h,s hold no five of a suit |
| Evaluator.AceLowRanks | ppoker.py:860-866 | the distinct values in descending order, with 1 appended when an ace is present; its contents are Evaluator.AceLowRanksMembers |
| Evaluator.Straight | ppoker.py:858-872 | some window of five entries of the ace-low list spans exactly 4; Evaluator.StraightIffRun shows that this is five consecutive ranks |
| Evaluator.AceLowRanksMembers | ppoker.py:860-866 | the list scanned for straights is strictly decreasing, with exactly the values present, plus 1 when an ace is present |
| Evaluator.StraightHasRun | ppoker.py:868-872 | a window spanning 4 is five consecutive available ranks |
| Evaluator.RunIsStraight | ppoker.py:868-872 | five consecutive available ranks always form a window spanning 4 |
| Evaluator.StraightIffRun | ppoker.py:858-872 | `is_straight` holds iff five consecutive ranks are present, with the ace counting as 14 and as 1 (A-2-3-4-5 yes, K-A-2-3-4 no) |
| Evaluator.ClassifyPermutation | ppoker.py:786-828 | rearranging the values or the suits leaves the category unchanged, so the sort does not affect the result |
| Evaluator.CardFeaturesPermutation | ppoker.py:765-784 | rearranging the cards rearranges their values and suits |
| Evaluator.EvaluateOrderFree | ppoker.py:757-828 | `evaluate_hand` depends only on the multiset of hole and community cards |
| Evaluator.Tally | ppoker.py:836-838 | the counting loop's dictionary has exactly the values present as keys, each mapped to its number of occurrences |
| Evaluator.TalliedCount | ppoker.py:840 | `k in value_counts.values()` iff some value occurs exactly k times |
| Evaluator.IsFourOfAKind | ppoker.py:834-840 | true iff some value occurs exactly 4 times |
| Evaluator.IsFullHouse | ppoker.py:842-848 | true iff some value occurs exactly 3 times and some value exactly 2 times |
| Evaluator.IsFlush | ppoker.py:850-856 | true iff some suit occurs at least 5 times |
| Evaluator.IsStraight | ppoker.py:858-872 | the window scan returns the straight predicate |
| Evaluator.IsStraightFlush | ppoker.py:830-832 | true iff a straight and a flush are both present |
| Evaluator.IsThreeOfAKind | ppoker.py:874-880 | true iff some value occurs exactly 3 times |
| Evaluator.IsTwoPair | ppoker.py:882-889 | true iff at least two different values occur exactly twice |
| Evaluator.IsPair | ppoker.py:891-897 | true iff some value occurs exactly twice |
| Evaluator.EvaluateHand | ppoker.py:757-828 | the converting loop and the check cascade return exactly `Evaluate` of the cards |
| Simulation.Slice | ppoker.py:713 | a Python slice with non-negative bounds: its length is clipped to the sequence, and its entries are taken in place |
| Simulation.Community | ppoker.py:706-707 | the trial's community is the table followed by the first 5 − \|table\| cards of the shuffled pool (fewer if the pool is short) |
| Simulation.OpponentHands | ppoker.py:710-716 | at most one hand per opponent, each of exactly two cards |
| Simulation.DealLayout | ppoker.py:710-716 | the number of hands dealt is min(opponents, full two-card slices), and hand i is `d[r+2i : r+2i+2]` |
| Simulation.Dealt | ppoker.py:710-716 | the opponents' hands of a trial start right after the cards that complete the community; Simulation.DealLayout gives their layout |
| Simulation.DealtHandAt | ppoker.py:713 | hand i is the two cards at positions r+2i and r+2i+1 of the shuffled pool |
| Simulation.AllOpponentsDealt | ppoker.py:715-716 | when the pool is deep enough, every opponent receives a hand |
| Simulation.DealDisjoint | ppoker.py:706-716 | from a pool without repeats, no two opponents share a card, and no opponent holds a community card drawn from the pool |
| Simulation.TrialNoRepeats | ppoker.py:699-716 | on a shuffle of the unknown pool, the player's seven cards are all different and no opponent is dealt one of them |
| Simulation.ShuffleOfUnheld | ppoker.py:656-703 | a shuffle of the unknown pool has no repeats and none of the selected cards |
| Simulation.CommunityDistinct | ppoker.py:706-707 | completing the community from such a shuffle keeps the player's cards free of repeats |
| Simulation.DealtAvoidsPlayer | ppoker.py:710-716 | such a shuffle never deals an opponent one of the player's cards |
| Simulation.PlayerRank | ppoker.py:719 | the player's category in a trial is a score in 0..9 with its label |
| Simulation.TieLoses | ppoker.py:724-728 | an opponent scoring at least as much as the player (a tie included) makes the trial a loss |
| Simulation.BeatsEveryOpponent | ppoker.py:723-728 | the opponent loop with early exit answers "every opponent scores strictly below the player" |
| Simulation.DealOpponents | ppoker.py:710-716 | the opponents' dealing loop gives exactly the hands of the trial definition: two cards each, a short slice dealing nothing |
| Simulation.RunTrial | ppoker.py:699-728 | one pass of the trial loop computes the player's category and the win exactly as the trial definitions do |
| Simulation.TrialWin | ppoker.py:723-731 | a trial is won iff every opponent dealt a hand scores strictly below the player; Simulation.TieLoses and Simulation.BeatsEveryOpponent rely on it |
| Simulation.TrialScores | ppoker.py:719-720 | one score in 0..9 per trial |
| Simulation.TrialResults | ppoker.py:723-731 | one win flag per trial |
| Simulation.TrialListsAt | ppoker.py:697-731 | entry t of the per-trial lists is the score and the win of shuffle t |
| Simulation.CountWins | ppoker.py:730-731 | the win counter never exceeds the number of trials |
| Simulation.CountWinsIsMultiplicity | ppoker.py:730-731 | the win counter counts exactly the won trials |
| Simulation.Wins | ppoker.py:692-731 | 0 ≤ wins ≤ number of trials |
| Simulation.NoOpponentsAlwaysWin | ppoker.py:710-731 | when no trial deals an opponent a hand, so the list of opponent hands is empty, the opponent loop never clears `player_wins` and every trial is a win, for any opponent count |
| Simulation.ZeroOpponentsAlwaysWin | ppoker.py:710-731 | the case of no opponents: every trial is a win (a count of 0 never comes from Calculator.ClampOpponents) |
| Simulation.PoolDealsEveryone | ppoker.py:656-716 | for a selection of at most 2 + 5 different deck cards, any shuffle of the unknown cards (45 or more) completes the board to five cards and deals every one of up to nine opponents a full hand, so short pools never occur on the calculator's inputs |
| Simulation.Histogram | ppoker.py:693-720 | one counter per category |
| Simulation.HistogramCounts | ppoker.py:720 | counter k is the number of trials whose score is k |
| Simulation.SumIncrement | ppoker.py:720 | bumping one counter raises the total by one |
| Simulation.ZeroSum | ppoker.py:693-695 | the counters start at a total of zero |
| Simulation.HistogramTotal | ppoker.py:720 | the counters add up to the number of trials |
| Simulation.CategoryCounts | ppoker.py:693-720 | `hand_type_counts` has one counter per category |
| Simulation.CategoryCountsTotal | ppoker.py:693-720 | the category counters add up to the number of trials, and counter k is the number of trials scoring k |
| Simulation.FirstMax | ppoker.py:737 | the modal category has the largest count, and every earlier category has a strictly smaller one (the first maximum wins ties) |
| Simulation.FirstMaxUnique | ppoker.py:737 | the first maximum is the only position with those two properties |
| Simulation.Translations | ppoker.py:740-751 | `hand_translations`: the ten English category names and their Spanish names |
| Simulation.Translate | ppoker.py:753 | a name outside the translation table is returned unchanged |
| Simulation.TranslateLabels | ppoker.py:740-753 | every category label has its Spanish name, and different categories get different names |
| Simulation.ShufflesValid | ppoker.py:702-703 | every rearrangement of a valid pool gives a valid trial |
| Simulation.TrialsSnoc | ppoker.py:697-731 | one more trial adds its win to the wins and raises its category's counter by one |
| Simulation.TrialStep | ppoker.py:697-731 | one loop pass keeps `wins` and `hand_type_counts` equal to the totals over the trials run so far |
| Simulation.RunTrials | ppoker.py:692-731 | after the loop, `wins` and `hand_type_counts` are the totals over all trials |
| Simulation.MonteCarloSimulation | ppoker.py:689-755 | returns the number of won trials (at most the number of trials) and the Spanish name of the first most frequent category |
| Selection.FirstIndex | ppoker.py:455-459 | the position `list.remove` looks for: an occurrence of the card with no earlier one |
| Selection.RemoveFirst | ppoker.py:455-459 | `list.remove` cuts the list at the first occurrence of the card, keeping the order of the rest: one element fewer, one copy of the card fewer in the multiset |
| Selection.RemoveFirstDistinct | ppoker.py:455-459 | on a list without repeats, removal leaves exactly the other cards, still without repeats |
| Selection.RemoveFirstSubset | ppoker.py:455-459 | removal never introduces a card |
| Selection.RemoveFirstAppended | ppoker.py:455-466 | removing a card that was just appended gives the list back |
| Selection.Toggle | ppoker.py:448-478 | selecting a card removes one card if it was selected; otherwise it adds one card when the hand or the table has room |
| Selection.ToggleWellFormed | ppoker.py:448-478 | `select_card` keeps \|hand\| ≤ 2, \|table\| ≤ 5, no repeats and no card in both |
| Selection.ToggleRemoves | ppoker.py:452-459 | a selected card leaves the list that holds it, the other list is untouched, and nothing else leaves |
| Selection.ToggleAdds | ppoker.py:460-478 | an unselected card is appended to the hand while it has fewer than 2 cards, else to the table while it has fewer than 5, else nothing changes |
| Selection.ToggleTwice | ppoker.py:448-478 | selecting a new card and then selecting it again restores the selection |
| Calculator.ClampOpponents | ppoker.py:642-649 | the opponent count is in 1..9, an in-range entry is kept, and a failed conversion gives 1 |
| Calculator.ClampIdempotent | ppoker.py:642-649 | clamping an already clamped count changes nothing |
| Calculator.ClampMonotone | ppoker.py:642-649 | a larger entry never gives fewer opponents; entries below 1 give 1 and entries above 9 give 9 |
| Calculator.OddsCuts | ppoker.py:667-681 | the thresholds 80, 60, 40, 25 of `calculate_odds`' message bands |
| Calculator.PreliminaryCuts | ppoker.py:626-631 | the thresholds 60, 40, 25 of `calculate_preliminary_odds`' bands |
| Calculator.Band | ppoker.py:667-681 | the message band is the first cut the win rate exceeds, and the rate is at most every earlier cut (compared as wins·100 against cut·trials) |
| Calculator.BandMonotone | ppoker.py:626-633 | more wins never give a weaker message band |
| Calculator.TexasHoldemCalculator.constructor | ppoker.py:35-50 | a new calculator has an empty selection, one opponent and the full deck |
| Calculator.TexasHoldemCalculator.SelectCard | ppoker.py:448-478 | the new selection is `Toggle` of the old one, and the calculator stays valid |
| Calculator.TexasHoldemCalculator.Reset | ppoker.py:1274-1275 | hand and table are emptied, and the calculator stays valid |
| Calculator.TexasHoldemCalculator.CalculateOdds | ppoker.py:635-665 | with no two hole cards, nothing is computed; otherwise the clamped opponent count is stored and the result is the wins and the modal category over 1000 trials on the unknown pool |
| Calculator.TexasHoldemCalculator.CalculatePreliminaryOdds | ppoker.py:616-621 | with two hole cards, the result is the wins and the modal category over 100 trials on the unknown pool; otherwise nothing is computed |
| Calculator.SelectionMembers | ppoker.py:448-478 | every card selected after a toggle was selected before or is the toggled card |
| Calculator.PoolValid | ppoker.py:619 | the unknown pool of a selection of deck cards makes valid trials |
| Text.SplitFrom | ppoker.py:1038 | splitting always gives at least one piece |
| Text.Split | ppoker.py:1163 | `str.split` always gives at least one piece |
| Text.JoinSplit | ppoker.py:1163 | joining the pieces of a split with the separator gives the text back |
| Text.SplitJoin | ppoker.py:1185 | splitting a join gives the pieces back when no piece holds the separator |
| Text.SplitAvoids | ppoker.py:1038 | no piece of a split on one character holds that character |
| Text.TrimEnd | ppoker.py:1042 | dropping trailing white space leaves a prefix that does not end in white space |
| Text.TrimEndDrops | ppoker.py:1042 | only white space is dropped from the end |
| Text.IsSpace | ppoker.py:1166 | the characters `str.isspace` accepts, which `strip()` removes at both ends |
| Text.StripPiece | ppoker.py:1042 | `strip` keeps a contiguous piece with only white space outside it, and the piece neither starts nor ends with white space |
| Text.Strip | ppoker.py:1166 | `str.strip`: never longer than the text; Text.StripPiece, Text.StripChars and Text.StripIdempotent state what it keeps |
| Text.StripChars | ppoker.py:1166 | stripping keeps only characters of the text |
| Text.StripIdempotent | ppoker.py:1166 | stripping twice is stripping once |
| Text.LowerChar | ppoker.py:1041 | ASCII capitals A-Z and Latin-1 capitals À-Þ (except ×) move up by 32 code points, so A-Z become a-z; every other character is unchanged |
| Text.Lower | ppoker.py:1041 | lower-casing keeps the length and lower-cases each character in place |
| Text.LowerIdempotent | ppoker.py:1041 | lower-casing lower-case text changes nothing |
| Text.ContainsAt | ppoker.py:1041 | `sub in s` iff `sub` starts at some position of `s` |
| Text.Contains | ppoker.py:1041 | Python's `sub in s`; Text.ContainsAt shows it holds iff `sub` starts at some position of `s` |
| Text.HasKeyword | ppoker.py:1041 | the lower-cased sentence contains "recomend", "deberías" or "sugiero" |
| Text.LastKeyword | ppoker.py:1040-1042 | the last sentence holding a keyword, and no later one holds any; None iff no sentence holds one |
| Text.Substantial | ppoker.py:1045 | `len(sentence.strip()) > 10`: the sentence has more than ten characters once stripped |
| Text.LastSubstantial | ppoker.py:1044-1046 | the last sentence longer than ten characters once stripped, and no later one is; None iff none is |
| Text.LastKeywordAt | ppoker.py:1040-1042 | the sentence with a keyword and none after it is the one `LastKeyword` finds |
| Text.LastSubstantialAt | ppoker.py:1044-1046 | the sentence longer than ten characters with none after it is the one `LastSubstantial` finds |
| Text.ExtractRecommendation | ppoker.py:1035-1047 | unless the whole text is returned, the result ends with the only period it contains |
| Text.RecommendationKeyword | ppoker.py:1040-1042 | a sentence with a keyword and no later sentence with one is returned, stripped and closed with a period |
| Text.RecommendationFallback | ppoker.py:1043-1046 | without keywords, the last sentence longer than ten characters is returned, stripped and closed with a period |
| Text.RecommendationWholeText | ppoker.py:1047 | with neither a keyword nor a long sentence, the text is returned unchanged |
| Text.CardNames | ppoker.py:1069-1076 | one name per card, in card order |
| Text.RankName | ppoker.py:1055-1073 | `rank_names.get(rank, rank)`: A, K, Q, J and T get their Spanish names, any other rank character stands for itself |
| Text.SuitName | ppoker.py:1062-1074 | `suit_names.get(suit, suit)`: c, d, h and s get their Spanish names, any other character stands for itself |
| Text.FormatCard | ppoker.py:1070-1076 | a card's name is its rank name, " de ", then its suit name; Text.FormatCardRoundTrip reads it back |
| Text.FormatCards | ppoker.py:1049-1078 | the text is empty iff there are no cards |
| Text.Join | ppoker.py:1078 | `sep.join(parts)`: the pieces with the separator between each pair; Text.JoinSplit and Text.SplitJoin pair it with `split` |
| Text.JoinStartsWith | ppoker.py:1078 | a join starts with its first piece |
| Text.RankNameRoundTrip | ppoker.py:1055-1073 | every rank name reads back as its rank, and holds neither a blank nor a comma |
| Text.SuitNameRoundTrip | ppoker.py:1062-1074 | every suit name reads back as its suit, and holds neither a blank nor a comma |
| Text.FormatCardRoundTrip | ppoker.py:1076 | the name of a deck card reads back as that card and holds no comma |
| Text.ParseAllNames | ppoker.py:1069-1076 | the list of card names reads back as the cards |
| Text.FormatCardsRoundTrip | ppoker.py:1049-1078 | the text given to the adviser reads back as exactly the selected cards, in order |
| Text.FormatCardsInjective | ppoker.py:1049-1078 | different card lists never give the same text |
| Text.NextReply | ppoker.py:1171-1175 | the first "IA:" line at or after a position, and no earlier one from there; None iff there is none |
| Text.StripAll | ppoker.py:1166 | each line stripped in place, so the scan sees `lines[i].strip()` and `lines[j].strip()` |
| Text.StartsWith | ppoker.py:1167-1172 | `s.startswith(p)`: `p` is a prefix of `s` |
| Text.IsQuestion | ppoker.py:1166-1167 | a stripped line is a question iff it starts with "Tú:" |
| Text.IsReply | ppoker.py:1172 | a stripped line is an answer iff it starts with "IA:" |
| Text.ChatLines | ppoker.py:1162-1179 | the lines the scan appends from position i: a question with a later answer adds both lines and the scan resumes after the answer; any other line adds nothing. Text.CollectChat is proved against it, and Text.ChatLinesFlatten ties it to the exchange list |
| Text.Exchanges | ppoker.py:1165-1179 | the chat exchanges found scanning the stripped lines from a position; Text.ExchangesAt gives one scan step and Text.ExchangesShape their form |
| Text.ExchangesAt | ppoker.py:1165-1179 | one scan step: a question with a later answer gives an exchange and the scan resumes after the answer; otherwise the scan moves one line on |
| Text.ExchangesShape | ppoker.py:1167-1178 | every exchange pairs a "Tú:" line with an "IA:" line |
| Text.ExchangesFromLines | ppoker.py:1163-1178 | exchanges built from lines without line breaks hold no line break |
| Text.Flatten | ppoker.py:1176-1178 | the chat lines are each exchange's question followed by its answer, two lines per exchange |
| Text.FlattenCons | ppoker.py:1177-1178 | an exchange in front puts its two lines in front |
| Text.ChatLinesFlatten | ppoker.py:1165-1179 | the lines the scan appends, step by step, are exactly the flattened exchange list |
| Text.FlattenSnoc | ppoker.py:1177-1178 | one more exchange appends its two lines |
| Text.FlattenAvoids | ppoker.py:1177-1178 | exchanges without line breaks give lines without line breaks |
| Text.FlattenSuffix | ppoker.py:1182-1183 | dropping the first m exchanges drops the first 2m lines |
| Text.LastTen | ppoker.py:1182-1183 | the kept lines are the last min(10, n) lines |
| Text.LastTenExchanges | ppoker.py:1182-1183 | the last ten lines are the last five exchanges |
| Text.FindReply | ppoker.py:1171-1175 | the inner search loop returns the first line after the question that starts with "IA:" once stripped |
| Text.CollectChat | ppoker.py:1162-1179 | the outer scan, with its jump past each answer, appends the stripped question and answer of every exchange in order |
| Text.ExtractConversationHistory | ppoker.py:1161-1185 | the history is the last ten lines of the exchange list of the stripped lines, joined by line breaks |
| Text.HistoryLines | ppoker.py:1161-1185 | the returned history splits back into at most five exchanges, each a "Tú:" line followed by its "IA:" line |

## Left out

- The Tk interface (window, styles, buttons, labels, status line, card display) is not modelled. It has no logic beyond the list state the model keeps.
- The AI adviser is not modelled: configuration loading, the client calls, threads, `get_ai_advice`, `run_ai_queries`, `send_chat_message`, `process_chat_message` and `combine_ai_responses`. These are network I/O and presentation.
- `test_ai_connection.py` is not part of this model. It only probes network endpoints.
- `random.shuffle` is not modelled. Each trial's shuffled pool is an input that must be a rearrangement of the unknown pool, so no statistical claim is made.
- Simulation.MonteCarloSimulation: returns the win count instead of the floating-point percentage `wins / num_simulations * 100`. The message bands compare `wins * 100` with `cut * trials` exactly (Calculator.Band), which is the same test without rounding.
- Calculator.TexasHoldemCalculator.CalculateOdds: the status messages and the band wording are not modelled. The band is modelled on its own as Calculator.Band. The `int()` of the spinbox text is an `Option<int>` input (None for a failed conversion).
- Calculator.TexasHoldemCalculator.CalculatePreliminaryOdds: the status message is not modelled; its band is Calculator.Band with the cuts 60, 40, 25.
- Calculator.TexasHoldemCalculator.SelectCard: requires a deck card, because only deck buttons call it. It does not chain into the preliminary odds or the AI advice: those are separate calls here, since they need shuffles and network access.
- Evaluator.EvaluateHand: does not sort the values before the checks. Sorting cannot change the result, as Evaluator.ClassifyPermutation and Evaluator.EvaluateOrderFree show.
- Evaluator.Evaluate: requires readable cards (a rank character of the deck and a second character) and at least one card. Only deck cards reach `evaluate_hand`. The requires leaves out strings `int()` can read but the deck never holds, such as '0' or '1', and strings it cannot read. An empty card list makes the maximum of an empty suit count raise.
- Simulation.MonteCarloSimulation: requires at least one trial. With zero trials the percentage divides by zero, and the two callers always pass 1000 or 100.
- Text.FormatCards: requires every card to have at least two characters. Shorter strings make the calculator raise.
- Text.LowerChar: lower-cases ASCII and Latin-1 letters only. The other Unicode case mappings of `str.lower` are not modelled; the keywords searched for need only these.
- Text.IsSpace follows the white-space set of `str.isspace`. `strip` and `split` work on code points; no normalisation is modelled.
- Text.ExtractConversationHistory: takes the advice text as a string. Reading it from the Tk text widget is not modelled.
- `on_opponents_change`, `show_status` and `update_card_display` are not modelled: they only schedule UI or AI work.
