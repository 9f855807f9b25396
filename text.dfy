/**
 * The string helpers behind the AI prompts: Python's `split`, `join`,
 * `strip`, `lower`, `in` and `startswith` on `str`, the card names handed to
 * the model (`format_cards_for_ai`), the sentence picked out of a model's
 * answer (`extract_recommendation`) and the chat exchanges read back from the
 * advice text (`extract_conversation_history`).
 */
module Text {
  import opened Wrappers
  import opened Cards

  // ---------------------------------------------------------------------------
  // Python string primitives
  // ---------------------------------------------------------------------------

  /** `s.split(sep)` with the current, still open piece `cur` in front. */
  function SplitFrom(s: string, sep: string, cur: string): (parts: seq<string>)
    requires |sep| > 0
    ensures |parts| > 0
    decreases |s|
  {
    if |s| == 0 then [cur]
    else if sep <= s then [cur] + SplitFrom(s[|sep|..], sep, "")
    else SplitFrom(s[1..], sep, cur + [s[0]])
  }

  /** `s.split(sep)`: the pieces between the non-overlapping occurrences of `sep`, scanned from the left. */
  function Split(s: string, sep: string): (parts: seq<string>)
    requires |sep| > 0
    ensures |parts| > 0
  {
    SplitFrom(s, sep, "")
  }

  /** `sep.join(parts)`. */
  function Join(parts: seq<string>, sep: string): string {
    if |parts| == 0 then ""
    else if |parts| == 1 then parts[0]
    else parts[0] + sep + Join(parts[1..], sep)
  }

  /** Joining the pieces of a split gives the text back. */
  lemma {:induction false} JoinSplitFrom(s: string, sep: string, cur: string)
    requires |sep| > 0
    ensures Join(SplitFrom(s, sep, cur), sep) == cur + s
    decreases |s|
  {
    if |s| == 0 {
    } else if sep <= s {
      JoinSplitFrom(s[|sep|..], sep, "");
      assert s == sep + s[|sep|..];
    } else {
      JoinSplitFrom(s[1..], sep, cur + [s[0]]);
      assert s == [s[0]] + s[1..];
    }
  }

  lemma JoinSplit(s: string, sep: string)
    requires |sep| > 0
    ensures Join(Split(s, sep), sep) == s
  {
    JoinSplitFrom(s, sep, "");
  }

  /** A piece that does not hold the first character of the separator is consumed whole into the open piece. */
  lemma {:induction false} SplitFromPiece(piece: string, rest: string, sep: string, cur: string)
    requires |sep| > 0 && sep[0] !in piece
    ensures SplitFrom(piece + rest, sep, cur) == SplitFrom(rest, sep, cur + piece)
    decreases |piece|
  {
    if piece != [] {
      assert (piece + rest)[0] == piece[0];
      assert !(sep <= piece + rest);
      assert (piece + rest)[1..] == piece[1..] + rest;
      SplitFromPiece(piece[1..], rest, sep, cur + [piece[0]]);
      assert cur + [piece[0]] + piece[1..] == cur + piece;
    } else {
      assert piece + rest == rest && cur + piece == cur;
    }
  }

  lemma {:induction false} SplitFromJoin(parts: seq<string>, sep: string, cur: string)
    requires |sep| > 0 && |parts| > 0
    requires forall p :: p in parts ==> sep[0] !in p
    ensures SplitFrom(Join(parts, sep), sep, cur) == [cur + parts[0]] + parts[1..]
    decreases |parts|
  {
    if |parts| == 1 {
      SplitFromPiece(parts[0], "", sep, cur);
      assert parts[0] + "" == parts[0];
    } else {
      var tail := Join(parts[1..], sep);
      assert Join(parts, sep) == parts[0] + (sep + tail);
      SplitFromPiece(parts[0], sep + tail, sep, cur);
      assert sep <= sep + tail;
      assert (sep + tail)[|sep|..] == tail;
      SplitFromJoin(parts[1..], sep, "");
      assert "" + parts[1..][0] == parts[1];
      assert [parts[1]] + parts[2..] == parts[1..];
    }
  }

  /** Splitting a join gives the pieces back when no piece holds the separator's first character. */
  lemma SplitJoin(parts: seq<string>, sep: string)
    requires |sep| > 0 && |parts| > 0
    requires forall p :: p in parts ==> sep[0] !in p
    ensures Split(Join(parts, sep), sep) == parts
  {
    SplitFromJoin(parts, sep, "");
    assert "" + parts[0] == parts[0];
    assert [parts[0]] + parts[1..] == parts;
  }

  /** No piece of a split on a one-character separator holds that character. */
  lemma {:induction false} SplitFromAvoids(s: string, c: char, cur: string)
    requires c !in cur
    ensures forall p :: p in SplitFrom(s, [c], cur) ==> c !in p
    decreases |s|
  {
    if |s| > 0 {
      if [c] <= s {
        SplitFromAvoids(s[1..], c, "");
      } else {
        SplitFromAvoids(s[1..], c, cur + [s[0]]);
      }
    }
  }

  lemma SplitAvoids(s: string, c: char)
    ensures forall p :: p in Split(s, [c]) ==> c !in p
  {
    SplitFromAvoids(s, c, "");
  }

  /** The characters `str.isspace` accepts. */
  predicate IsSpace(c: char) {
    c == ' ' || '\t' <= c <= '\r' || '\U{1C}' <= c <= '\U{1F}' || c == '\U{85}' || c == '\U{A0}'
    || c == '\U{1680}' || '\U{2000}' <= c <= '\U{200A}' || c == '\U{2028}' || c == '\U{2029}'
    || c == '\U{202F}' || c == '\U{205F}' || c == '\U{3000}'
  }

  /** `s.rstrip()`. */
  function TrimEnd(s: string): (r: string)
    ensures |r| <= |s| && r == s[..|r|]
    ensures r == "" || !IsSpace(r[|r| - 1])
  {
    if s != "" && IsSpace(s[|s| - 1]) then TrimEnd(s[..|s| - 1]) else s
  }

  /** `s.strip()`: leading white space dropped one character at a time, then trailing white space. */
  function Strip(s: string): (r: string)
    ensures |r| <= |s|
  {
    if s != "" && IsSpace(s[0]) then Strip(s[1..]) else TrimEnd(s)
  }

  /** Only white space is dropped from the end. */
  lemma {:induction false} TrimEndDrops(s: string)
    ensures forall k :: |TrimEnd(s)| <= k < |s| ==> IsSpace(s[k])
  {
    if s != "" && IsSpace(s[|s| - 1]) {
      TrimEndDrops(s[..|s| - 1]);
    }
  }

  /**
   * `strip` keeps the piece `s[i..j]` such that everything before `i` and
   * from `j` on is white space and the piece neither starts nor ends with
   * white space.
   */
  lemma {:induction false} StripPiece(s: string) returns (i: nat, j: nat)
    ensures i <= j <= |s| && Strip(s) == s[i..j]
    ensures forall k :: 0 <= k < i ==> IsSpace(s[k])
    ensures forall k :: j <= k < |s| ==> IsSpace(s[k])
    ensures i < j ==> !IsSpace(s[i]) && !IsSpace(s[j - 1])
  {
    if s != "" && IsSpace(s[0]) {
      var i', j' := StripPiece(s[1..]);
      i, j := i' + 1, j' + 1;
      assert s[1..][i'..j'] == s[i..j];
      forall k | 0 < k < i ensures IsSpace(s[k]) {
        assert s[k] == s[1..][k - 1];
      }
      forall k | j <= k < |s| ensures IsSpace(s[k]) {
        assert s[k] == s[1..][k - 1];
      }
    } else {
      i, j := 0, |TrimEnd(s)|;
      TrimEndDrops(s);
    }
  }

  /** Stripping keeps only characters of the text. */
  lemma StripChars(s: string)
    ensures forall c :: c in Strip(s) ==> c in s
  {
    var i, j := StripPiece(s);
    assert forall k :: i <= k < j ==> s[i..j][k - i] == s[k];
  }

  /** A string that neither starts nor ends with white space is its own strip; in particular stripping is idempotent. */
  lemma StripIdempotent(s: string)
    ensures s == "" || (!IsSpace(s[0]) && !IsSpace(s[|s| - 1])) ==> Strip(s) == s
    ensures Strip(Strip(s)) == Strip(s)
  {
    var i, j := StripPiece(s);
    var t := Strip(s);
    assert t == "" || (!IsSpace(t[0]) && !IsSpace(t[|t| - 1]));
  }

  /** `c.lower()` for ASCII and Latin-1 letters. */
  function LowerChar(c: char): (d: char)
    ensures 'A' <= c <= 'Z' ==> 'a' <= d <= 'z'
    ensures ('A' <= c <= 'Z') || ('\U{C0}' <= c <= '\U{DE}' && c != '\U{D7}') ==> d as int == c as int + 32
    ensures !('A' <= c <= 'Z') && !('\U{C0}' <= c <= '\U{DE}' && c != '\U{D7}') ==> d == c
  {
    if 'A' <= c <= 'Z' || ('\U{C0}' <= c <= '\U{DE}' && c != '\U{D7}') then (c as int + 32) as char else c
  }

  /** `s.lower()`, character by character. */
  function Lower(s: string): (r: string)
    ensures |r| == |s|
    ensures forall i :: 0 <= i < |s| ==> r[i] == LowerChar(s[i])
  {
    if s == "" then ""
    else
      var rest := Lower(s[1..]);
      assert forall i :: 1 <= i < |s| ==> rest[i - 1] == LowerChar(s[i]);
      [LowerChar(s[0])] + rest
  }

  /** Lower-casing is idempotent: lower-case text is left as it is. */
  lemma {:induction false} LowerIdempotent(s: string)
    ensures Lower(Lower(s)) == Lower(s)
  {
    if s != "" {
      LowerIdempotent(s[1..]);
      assert Lower(s)[1..] == Lower(s[1..]);
    }
  }

  /** `sub in s`. */
  function Contains(s: string, sub: string): bool {
    if sub <= s then true
    else if s == "" then false
    else Contains(s[1..], sub)
  }

  /** `sub in s` holds exactly when `sub` starts at some position of `s`. */
  lemma {:induction false} ContainsAt(s: string, sub: string)
    ensures Contains(s, sub) <==> exists i :: 0 <= i <= |s| && sub <= s[i..]
  {
    if sub <= s {
      assert sub <= s[0..];
    } else if s != "" {
      ContainsAt(s[1..], sub);
      assert forall i :: 1 <= i <= |s| ==> s[i..] == s[1..][i - 1..];
    }
  }

  /** `s.startswith(p)`. */
  predicate StartsWith(s: string, p: string) {
    p <= s
  }

  // ---------------------------------------------------------------------------
  // extract_recommendation
  // ---------------------------------------------------------------------------

  /** The sentence speaks of a recommendation: it holds "recomend", "deberías" or "sugiero", ignoring case. */
  predicate HasKeyword(sentence: string) {
    var l := Lower(sentence);
    Contains(l, "recomend") || Contains(l, "deberías") || Contains(l, "sugiero")
  }

  /** The sentence has more than ten characters once stripped. */
  predicate Substantial(sentence: string) {
    |Strip(sentence)| > 10
  }

  /** The last sentence with a keyword, if any. */
  function LastKeyword(sentences: seq<string>): (k: Option<nat>)
    ensures k.Some? ==> k.value < |sentences| && HasKeyword(sentences[k.value])
    ensures k.Some? ==> forall j :: k.value < j < |sentences| ==> !HasKeyword(sentences[j])
    ensures k.None? ==> forall j :: 0 <= j < |sentences| ==> !HasKeyword(sentences[j])
  {
    if sentences == [] then None
    else if HasKeyword(sentences[|sentences| - 1]) then Some(|sentences| - 1)
    else LastKeyword(sentences[..|sentences| - 1])
  }

  /** The last sentence of more than ten characters, if any. */
  function LastSubstantial(sentences: seq<string>): (k: Option<nat>)
    ensures k.Some? ==> k.value < |sentences| && Substantial(sentences[k.value])
    ensures k.Some? ==> forall j :: k.value < j < |sentences| ==> !Substantial(sentences[j])
    ensures k.None? ==> forall j :: 0 <= j < |sentences| ==> !Substantial(sentences[j])
  {
    if sentences == [] then None
    else if Substantial(sentences[|sentences| - 1]) then Some(|sentences| - 1)
    else LastSubstantial(sentences[..|sentences| - 1])
  }

  /**
   * `extract_recommendation`: the last sentence with a recommendation
   * keyword, else the last sentence of more than ten characters, stripped
   * and closed with a period; the whole text when there is neither.
   */
  function ExtractRecommendation(text: string): (r: string)
    ensures r != text ==> |r| > 0 && r[|r| - 1] == '.' && '.' !in r[..|r| - 1]
  {
    var sentences := Split(text, ".");
    SplitAvoids(text, '.');
    match LastKeyword(sentences)
    case Some(k) =>
      StripChars(sentences[k]);
      assert r: Strip(sentences[k]) + "." == (Strip(sentences[k]) + ".")[..|Strip(sentences[k])|] + ".";
      Strip(sentences[k]) + "."
    case None =>
      match LastSubstantial(sentences)
      case Some(k) =>
        StripChars(sentences[k]);
        assert r: Strip(sentences[k]) + "." == (Strip(sentences[k]) + ".")[..|Strip(sentences[k])|] + ".";
        Strip(sentences[k]) + "."
      case None => text
  }

  /** A sentence with a keyword wins over every sentence without one, wherever they stand. */
  lemma RecommendationKeyword(text: string, k: nat)
    requires k < |Split(text, ".")| && HasKeyword(Split(text, ".")[k])
    requires forall j :: k < j < |Split(text, ".")| ==> !HasKeyword(Split(text, ".")[j])
    ensures ExtractRecommendation(text) == Strip(Split(text, ".")[k]) + "."
  {
    LastKeywordAt(Split(text, "."), k);
  }

  /** The last sentence with a keyword is the one with no keyword after it. */
  lemma LastKeywordAt(sentences: seq<string>, k: nat)
    requires k < |sentences| && HasKeyword(sentences[k])
    requires forall j :: k < j < |sentences| ==> !HasKeyword(sentences[j])
    ensures LastKeyword(sentences) == Some(k)
  {
  }

  /** Without any keyword, the last sentence longer than ten characters is taken. */
  lemma RecommendationFallback(text: string, k: nat)
    requires forall j :: 0 <= j < |Split(text, ".")| ==> !HasKeyword(Split(text, ".")[j])
    requires k < |Split(text, ".")| && |Strip(Split(text, ".")[k])| > 10
    requires forall j :: k < j < |Split(text, ".")| ==> |Strip(Split(text, ".")[j])| <= 10
    ensures ExtractRecommendation(text) == Strip(Split(text, ".")[k]) + "."
  {
    var sentences := Split(text, ".");
    LastSubstantialAt(sentences, k);
  }

  /** The last substantial sentence is the one with no substantial sentence after it. */
  lemma LastSubstantialAt(sentences: seq<string>, k: nat)
    requires k < |sentences| && |Strip(sentences[k])| > 10
    requires forall j :: k < j < |sentences| ==> |Strip(sentences[j])| <= 10
    ensures LastSubstantial(sentences) == Some(k)
  {
    assert Substantial(sentences[k]);
  }

  /** With neither a keyword nor a long sentence, the text is returned unchanged. */
  lemma RecommendationWholeText(text: string)
    requires forall j :: 0 <= j < |Split(text, ".")| ==>
               !HasKeyword(Split(text, ".")[j]) && |Strip(Split(text, ".")[j])| <= 10
    ensures ExtractRecommendation(text) == text
  {
  }

  // ---------------------------------------------------------------------------
  // format_cards_for_ai
  // ---------------------------------------------------------------------------

  /** `rank_names.get(rank, rank)`. */
  function RankName(rank: char): string {
    if rank == 'A' then "As"
    else if rank == 'K' then "Rey"
    else if rank == 'Q' then "Reina"
    else if rank == 'J' then "Jota"
    else if rank == 'T' then "10"
    else [rank]
  }

  /** `suit_names.get(suit, suit)`. */
  function SuitName(suit: char): string {
    if suit == 'c' then "Tréboles"
    else if suit == 'd' then "Diamantes"
    else if suit == 'h' then "Corazones"
    else if suit == 's' then "Picas"
    else [suit]
  }

  /** One card as the model reads it: "<rank name> de <suit name>". */
  function FormatCard(card: string): string
    requires |card| >= 2
  {
    RankName(card[0]) + " de " + SuitName(card[1])
  }

  /** The name of every card, in order. */
  function CardNames(cards: seq<string>): (names: seq<string>)
    requires forall i :: 0 <= i < |cards| ==> |cards[i]| >= 2
    ensures |names| == |cards|
    ensures forall i :: 0 <= i < |cards| ==> names[i] == FormatCard(cards[i])
  {
    if cards == [] then []
    else
      var rest := CardNames(cards[1..]);
      assert forall i :: 1 <= i < |cards| ==> rest[i - 1] == FormatCard(cards[i]);
      [FormatCard(cards[0])] + rest
  }

  /** `format_cards_for_ai`: the card names joined by ", "; the empty string for no cards. */
  function FormatCards(cards: seq<string>): (text: string)
    requires forall i :: 0 <= i < |cards| ==> |cards[i]| >= 2
    ensures text == "" <==> cards == []
  {
    if cards == [] then ""
    else
      var names := CardNames(cards);
      JoinStartsWith(names, ", ");
      Join(names, ", ")
  }

  lemma {:induction false} JoinStartsWith(parts: seq<string>, sep: string)
    requires |parts| > 0
    ensures parts[0] <= Join(parts, sep)
  {
  }

  /** The rank character a rank name stands for. */
  function RankOfName(name: string): Option<char> {
    if name == "As" then Some('A')
    else if name == "Rey" then Some('K')
    else if name == "Reina" then Some('Q')
    else if name == "Jota" then Some('J')
    else if name == "10" then Some('T')
    else if |name| == 1 && name[0] in "23456789" then Some(name[0])
    else None
  }

  /** The suit character a suit name stands for. */
  function SuitOfName(name: string): Option<char> {
    if name == "Tréboles" then Some('c')
    else if name == "Diamantes" then Some('d')
    else if name == "Corazones" then Some('h')
    else if name == "Picas" then Some('s')
    else None
  }

  /** Reads one card name back. */
  function ParseCard(name: string): Option<string> {
    var words := Split(name, " ");
    if |words| == 3 && words[1] == "de" && RankOfName(words[0]).Some? && SuitOfName(words[2]).Some? then
      Some([RankOfName(words[0]).value, SuitOfName(words[2]).value])
    else None
  }

  /** Reads every name of a list back, failing when one cannot be read. */
  function ParseAll(names: seq<string>): Option<seq<string>> {
    if names == [] then Some([])
    else
      var first := ParseCard(names[0]);
      var rest := ParseAll(names[1..]);
      if first.Some? && rest.Some? then Some([first.value] + rest.value) else None
  }

  /** Reads a `format_cards_for_ai` text back into cards. */
  function ParseCards(text: string): Option<seq<string>> {
    if text == "" then Some([]) else ParseAll(Split(text, ", "))
  }

  /** Each rank name is read back as its character, and holds neither a blank nor a comma. */
  lemma RankNameRoundTrip(r: char)
    requires r in RankChars
    ensures RankOfName(RankName(r)) == Some(r)
    ensures ' ' !in RankName(r) && ',' !in RankName(r)
  {
    if r in "23456789" {
      assert RankName(r) == [r];
    }
  }

  /** Each suit name is read back as its character, and holds neither a blank nor a comma. */
  lemma SuitNameRoundTrip(s: char)
    requires s in SuitChars
    ensures SuitOfName(SuitName(s)) == Some(s)
    ensures ' ' !in SuitName(s) && ',' !in SuitName(s)
  {
  }

  /** A deck card's name reads back as that card. */
  lemma FormatCardRoundTrip(card: string)
    requires DeckCard(card)
    ensures ParseCard(FormatCard(card)) == Some(card)
    ensures ',' !in FormatCard(card)
  {
    RankNameRoundTrip(card[0]);
    SuitNameRoundTrip(card[1]);
    var words := [RankName(card[0]), "de", SuitName(card[1])];
    assert Join(words[2..], " ") == SuitName(card[1]);
    assert Join(words[1..], " ") == "de" + " " + SuitName(card[1]);
    assert Join(words, " ") == RankName(card[0]) + " " + ("de" + " " + SuitName(card[1]));
    assert " " + ("de" + " " + SuitName(card[1])) == " de " + SuitName(card[1]);
    assert FormatCard(card) == RankName(card[0]) + (" de " + SuitName(card[1]));
    assert Join(words, " ") == FormatCard(card);
    SplitJoin(words, " ");
    assert card == [card[0], card[1]];
  }

  lemma {:induction false} ParseAllNames(cards: seq<string>)
    requires DeckCards(cards)
    ensures ParseAll(CardNames(cards)) == Some(cards)
  {
    if cards != [] {
      var names := CardNames(cards);
      FormatCardRoundTrip(cards[0]);
      ParseAllNames(cards[1..]);
      assert names[0] == FormatCard(cards[0]) && names[1..] == CardNames(cards[1..]);
      assert ParseAll(names) == Some([cards[0]] + cards[1..]);
      assert cards == [cards[0]] + cards[1..];
    }
  }

  /** The text handed to the model names exactly the selected cards, in order: it reads back to them. */
  lemma FormatCardsRoundTrip(cards: seq<string>)
    requires DeckCards(cards)
    ensures ParseCards(FormatCards(cards)) == Some(cards)
  {
    if cards != [] {
      var names := CardNames(cards);
      forall p | p in names ensures ',' !in p {
        var i :| 0 <= i < |names| && names[i] == p;
        FormatCardRoundTrip(cards[i]);
      }
      SplitJoin(names, ", ");
      ParseAllNames(cards);
    }
  }

  /** Different selections of deck cards never produce the same text. */
  lemma FormatCardsInjective(a: seq<string>, b: seq<string>)
    requires DeckCards(a)
    requires DeckCards(b)
    ensures FormatCards(a) == FormatCards(b) ==> a == b
  {
    FormatCardsRoundTrip(a);
    FormatCardsRoundTrip(b);
  }

  // ---------------------------------------------------------------------------
  // extract_conversation_history
  // ---------------------------------------------------------------------------

  /** `lines[k].strip()` for every line: the scan below only ever looks at stripped lines. */
  function StripAll(lines: seq<string>): (stripped: seq<string>)
    ensures |stripped| == |lines|
    ensures forall k :: 0 <= k < |lines| ==> stripped[k] == Strip(lines[k])
  {
    seq(|lines|, k requires 0 <= k < |lines| => Strip(lines[k]))
  }

  /** A stripped line the user typed into the chat. */
  predicate IsQuestion(line: string) {
    StartsWith(line, "Tú:")
  }

  /** A stripped line the model answered with. */
  predicate IsReply(line: string) {
    StartsWith(line, "IA:")
  }

  /** The first answer line at position `from` or later among the stripped lines, if any. */
  function NextReply(lines: seq<string>, from: nat): (r: Option<nat>)
    ensures r.Some? ==> from <= r.value < |lines| && IsReply(lines[r.value])
    ensures r.Some? ==> forall k :: from <= k < r.value ==> !IsReply(lines[k])
    ensures r.None? ==> forall k :: from <= k < |lines| ==> !IsReply(lines[k])
    decreases |lines| - from
  {
    if from >= |lines| then None
    else if IsReply(lines[from]) then Some(from)
    else NextReply(lines, from + 1)
  }

  /** One chat exchange: the user's question line and the model's answer line. */
  datatype Exchange = Exchange(question: string, answer: string)

  /**
   * The exchanges found from stripped line `i` on: a question line followed
   * (later) by an answer line gives an exchange, and the scan goes on after
   * the answer; a question with no answer after it is dropped.
   */
  function Exchanges(lines: seq<string>, i: nat): (chat: seq<Exchange>)
    decreases |lines| - i
  {
    if i >= |lines| then []
    else if IsQuestion(lines[i]) then
      match NextReply(lines, i + 1)
      case Some(j) => [Exchange(lines[i], lines[j])] + Exchanges(lines, j + 1)
      case None => Exchanges(lines, i + 1)
    else Exchanges(lines, i + 1)
  }

  /** Every exchange pairs a "Tú:" line with an "IA:" line. */
  lemma {:induction false} ExchangesShape(lines: seq<string>, i: nat)
    ensures forall e :: e in Exchanges(lines, i) ==> StartsWith(e.question, "Tú:") && StartsWith(e.answer, "IA:")
    decreases |lines| - i
  {
    if i < |lines| {
      ExchangesAt(lines, i);
      if IsQuestion(lines[i]) && NextReply(lines, i + 1).Some? {
        ExchangesShape(lines, NextReply(lines, i + 1).value + 1);
      } else {
        ExchangesShape(lines, i + 1);
      }
    }
  }

  /** Every exchange is made of lines of the text, so none holds a line break when the lines do not. */
  lemma {:induction false} ExchangesFromLines(lines: seq<string>, i: nat)
    requires forall l :: l in lines ==> '\n' !in l
    ensures forall e :: e in Exchanges(lines, i) ==> '\n' !in e.question && '\n' !in e.answer
    decreases |lines| - i
  {
    if i < |lines| {
      if IsQuestion(lines[i]) {
        match NextReply(lines, i + 1)
        case Some(j) =>
          ExchangesFromLines(lines, j + 1);
          var e := Exchange(lines[i], lines[j]);
          assert Exchanges(lines, i) == [e] + Exchanges(lines, j + 1);
          assert lines[i] in lines && lines[j] in lines;
        case None =>
          ExchangesFromLines(lines, i + 1);
          assert Exchanges(lines, i) == Exchanges(lines, i + 1);
      } else {
        ExchangesFromLines(lines, i + 1);
        assert Exchanges(lines, i) == Exchanges(lines, i + 1);
      }
    }
  }

  /** One step of the scan at line `i`. */
  lemma ExchangesAt(lines: seq<string>, i: nat)
    requires i < |lines|
    ensures IsQuestion(lines[i]) && NextReply(lines, i + 1).Some? ==>
              Exchanges(lines, i) == [Exchange(lines[i], lines[NextReply(lines, i + 1).value])]
                                     + Exchanges(lines, NextReply(lines, i + 1).value + 1)
    ensures !(IsQuestion(lines[i]) && NextReply(lines, i + 1).Some?) ==> Exchanges(lines, i) == Exchanges(lines, i + 1)
  {
  }

  /** `chat_lines`: each exchange as its two lines, question first. */
  function Flatten(chat: seq<Exchange>): (lines: seq<string>)
    ensures |lines| == 2 * |chat|
    ensures forall k {:trigger chat[k]} :: 0 <= k < |chat| ==> lines[2 * k] == chat[k].question && lines[2 * k + 1] == chat[k].answer
  {
    if chat == [] then []
    else Flatten(chat[..|chat| - 1]) + [chat[|chat| - 1].question, chat[|chat| - 1].answer]
  }

  /** One more exchange adds its two lines at the end. */
  lemma FlattenSnoc(chat: seq<Exchange>, e: Exchange)
    ensures Flatten(chat + [e]) == Flatten(chat) + [e.question, e.answer]
  {
    assert (chat + [e])[..|chat|] == chat;
  }

  /** Lines of exchanges without line breaks hold no line break. */
  lemma {:induction false} FlattenAvoids(chat: seq<Exchange>)
    requires forall e :: e in chat ==> '\n' !in e.question && '\n' !in e.answer
    ensures forall p :: p in Flatten(chat) ==> '\n' !in p
  {
    if chat != [] {
      var n := |chat| - 1;
      assert forall e :: e in chat[..n] ==> e in chat;
      FlattenAvoids(chat[..n]);
      assert chat[n] in chat;
    }
  }

  /** Dropping the first `m` exchanges drops the first `2m` lines. */
  lemma {:induction false} FlattenSuffix(chat: seq<Exchange>, m: nat)
    requires m <= |chat|
    ensures Flatten(chat)[2 * m..] == Flatten(chat[m..])
  {
    if m < |chat| {
      var n := |chat| - 1;
      FlattenSuffix(chat[..n], m);
      assert chat[..n][m..] == chat[m..][..|chat[m..]| - 1];
      assert Flatten(chat)[2 * m..] == Flatten(chat[..n])[2 * m..] + [chat[n].question, chat[n].answer];
    } else {
      assert chat[m..] == [];
    }
  }

  /** `chat_lines[-10:]` when there are more than ten lines. */
  function LastTen(lines: seq<string>): (r: seq<string>)
    ensures |r| <= 10 && |r| <= |lines|
    ensures r == lines[|lines| - |r|..]
    ensures |r| == |lines| || |r| == 10
  {
    if |lines| > 10 then lines[|lines| - 10..] else lines
  }

  /** Ten lines are the last five exchanges. */
  lemma LastTenExchanges(chat: seq<Exchange>)
    ensures LastTen(Flatten(chat)) == Flatten(if |chat| > 5 then chat[|chat| - 5..] else chat)
  {
    if |chat| > 5 {
      FlattenSuffix(chat, |chat| - 5);
    }
  }

  /** The inner `for j in range(i + 1, len(lines))` search: the first answer line after line `i`. */
  method FindReply(lines: seq<string>, i: nat) returns (reply: Option<nat>)
    requires i < |lines|
    ensures reply == NextReply(StripAll(lines), i + 1)
  {
    ghost var stripped := StripAll(lines);
    reply := None;
    for j := i + 1 to |lines|
      invariant forall k :: i + 1 <= k < j ==> !IsReply(stripped[k])
    {
      assert Strip(lines[j]) == stripped[j];
      if StartsWith(Strip(lines[j]), "IA:") {
        reply := Some(j);
        break;
      }
    }
    assert reply.None? ==> NextReply(stripped, i + 1) == None;
  }

  /** One exchange in front adds its two lines in front. */
  lemma FlattenCons(e: Exchange, rest: seq<Exchange>)
    ensures Flatten([e] + rest) == [e.question, e.answer] + Flatten(rest)
  {
    var all := [e] + rest;
    var l := Flatten(all);
    var r := [e.question, e.answer] + Flatten(rest);
    forall t | 0 <= t < |l| ensures l[t] == r[t] {
      var k := t / 2;
      assert all[k] == if k == 0 then e else rest[k - 1];
      if t == 2 * k {
        assert l[2 * k] == all[k].question;
      } else {
        assert l[2 * k + 1] == all[k].answer;
      }
    }
  }

  /**
   * `chat_lines` as the loop builds it from stripped line `i` on: a question
   * with a later answer contributes both lines and the scan resumes after
   * the answer; every other line contributes nothing.
   */
  function ChatLines(lines: seq<string>, i: nat): seq<string>
    decreases |lines| - i
  {
    if i >= |lines| then []
    else if IsQuestion(lines[i]) && NextReply(lines, i + 1).Some? then
      var j := NextReply(lines, i + 1).value;
      [lines[i], lines[j]] + ChatLines(lines, j + 1)
    else ChatLines(lines, i + 1)
  }

  /** The lines the loop collects are the exchanges' lines, question first. */
  lemma {:induction false} ChatLinesFlatten(lines: seq<string>, i: nat)
    ensures ChatLines(lines, i) == Flatten(Exchanges(lines, i))
    decreases |lines| - i
  {
    if i < |lines| {
      ExchangesAt(lines, i);
      if IsQuestion(lines[i]) && NextReply(lines, i + 1).Some? {
        var j := NextReply(lines, i + 1).value;
        ChatLinesFlatten(lines, j + 1);
        FlattenCons(Exchange(lines[i], lines[j]), Exchanges(lines, j + 1));
      } else {
        ChatLinesFlatten(lines, i + 1);
      }
    }
  }

  /** The scanning loop of `extract_conversation_history`: `chat_lines` for the given lines. */
  method CollectChat(lines: seq<string>) returns (chat: seq<string>)
    ensures chat == ChatLines(StripAll(lines), 0)
  {
    ghost var stripped := StripAll(lines);
    chat := [];
    var i := 0;
    while i < |lines|
      invariant 0 <= i <= |lines|
      invariant chat + ChatLines(stripped, i) == ChatLines(stripped, 0)
      decreases |lines| - i
    {
      var line := Strip(lines[i]);
      if StartsWith(line, "Tú:") {
        var userMessage := line;
        var iaResponse := "";
        var reply := FindReply(lines, i);
        if reply.Some? {
          iaResponse := Strip(lines[reply.value]);
          ghost var rest := ChatLines(stripped, reply.value + 1);
          assert ChatLines(stripped, i) == [userMessage, iaResponse] + rest;
          assert (chat + [userMessage, iaResponse]) + rest == chat + ([userMessage, iaResponse] + rest);
          chat := chat + [userMessage, iaResponse];
          i := reply.value;
        }
      }
      i := i + 1;
    }
    assert chat + [] == chat;
  }

  /** `extract_conversation_history` over the advice text. */
  method ExtractConversationHistory(text: string) returns (history: string)
    ensures history == Join(LastTen(Flatten(Exchanges(StripAll(Split(text, "\n")), 0))), "\n")
  {
    var lines := Split(text, "\n");
    var chat := CollectChat(lines);
    ChatLinesFlatten(StripAll(lines), 0);
    if |chat| > 10 {
      chat := chat[|chat| - 10..];
    }
    history := Join(chat, "\n");
  }

  /**
   * The returned history splits back into its lines: the last five (or
   * fewer) exchanges, each a question line followed by its answer line.
   */
  lemma HistoryLines(text: string)
    requires Exchanges(StripAll(Split(text, "\n")), 0) != []
    ensures var all := Exchanges(StripAll(Split(text, "\n")), 0);
      var kept := if |all| > 5 then all[|all| - 5..] else all;
      Split(Join(LastTen(Flatten(all)), "\n"), "\n") == Flatten(kept)
      && |kept| <= 5
      && forall e :: e in kept ==> StartsWith(e.question, "Tú:") && StartsWith(e.answer, "IA:")
  {
    var lines := StripAll(Split(text, "\n"));
    SplitAvoids(text, '\n');
    forall l | l in lines ensures '\n' !in l {
      var k :| 0 <= k < |lines| && lines[k] == l;
      StripChars(Split(text, "\n")[k]);
    }
    ExchangesFromLines(lines, 0);
    var all := Exchanges(lines, 0);
    var kept := if |all| > 5 then all[|all| - 5..] else all;
    LastTenExchanges(all);
    var flat := Flatten(kept);
    ExchangesShape(lines, 0);
    FlattenAvoids(kept);
    SplitJoin(flat, "\n");
  }
}
