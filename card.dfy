/** The 52 cards of a French-suited deck, their suits and ranks, and their encodings
    as code points of the Playing Cards block (U+1F0A0..U+1F0FF) of the Unicode Standard:
    the row (A..D) is the suit, the column (1..E, skipping the Knight column C) the rank. */
module Cards {
  import opened Wrappers
  import opened JavaLang

  /** Lookup of the first element satisfying `p`; the model of the source's immutable
      lookup tables, whose keys are all distinct. */
  function FindFirst<T>(xs: seq<T>, p: T -> bool): (r: Option<T>)
    ensures r.Some? ==> r.value in xs && p(r.value)
    ensures r.None? ==> forall i :: 0 <= i < |xs| ==> !p(xs[i])
  {
    if xs == [] then None
    else if p(xs[0]) then Some(xs[0])
    else FindFirst(xs[1..], p)
  }

  /** The element found is the first one satisfying `p`: every earlier element fails `p`. */
  lemma {:induction false} FindFirstIsFirst<T>(xs: seq<T>, p: T -> bool)
    requires FindFirst(xs, p).Some?
    ensures exists i :: 0 <= i < |xs| && xs[i] == FindFirst(xs, p).value && forall j :: 0 <= j < i ==> !p(xs[j])
  {
    if !p(xs[0]) {
      FindFirstIsFirst(xs[1..], p);
      var i :| 0 <= i < |xs[1..]| && xs[1..][i] == FindFirst(xs[1..], p).value && forall j :: 0 <= j < i ==> !p(xs[1..][j]);
      assert xs[i + 1] == FindFirst(xs, p).value;
      forall j | 0 <= j < i + 1 ensures !p(xs[j]) {
        if j > 0 { assert xs[j] == xs[1..][j - 1]; }
      }
    } else {
      assert xs[0] == FindFirst(xs, p).value;
    }
  }

  // ===========================================================================
  // Suit
  // ===========================================================================

  datatype Suit = Spades | Hearts | Diamonds | Clubs

  /** `Suit.values()`, in declaration order. */
  const SuitValues: seq<Suit> := [Spades, Hearts, Diamonds, Clubs]

  /** `Suit.ordinal()`: the position of the suit in `Suit.values()`. */
  function SuitOrdinal(s: Suit): (o: nat)
    ensures o < |SuitValues| && SuitValues[o] == s
  {
    match s
    case Spades => 0
    case Hearts => 1
    case Diamonds => 2
    case Clubs => 3
  }

  lemma SuitOrdinalOfValue(i: nat)
    requires i < |SuitValues|
    ensures SuitOrdinal(SuitValues[i]) == i
  {
  }

  /** `Suit.name()`: the declared identifier, which is upper case. */
  function SuitName(s: Suit): (n: string)
    ensures |n| > 0 && ToUpperCase(n) == n
  {
    match s
    case Spades => "SPADES"
    case Hearts => "HEARTS"
    case Diamonds => "DIAMONDS"
    case Clubs => "CLUBS"
  }

  /** `Suit.unicode()`: the suit's display character, from the fixed table
      SPADES 0x2660, HEARTS 0x2661, DIAMONDS 0x2662, CLUBS 0x2663. */
  function Glyph(s: Suit): (ch: char)
    ensures ch as int == 0x2660 + SuitOrdinal(s)
  {
    match s
    case Spades => '\U{2660}'
    case Hearts => '\U{2661}'
    case Diamonds => '\U{2662}'
    case Clubs => '\U{2663}'
  }

  /** `Suit.forUnicode`: the inverse of the glyph table; `None` models the `null` that an
      unknown character yields. */
  function ForUnicode(ch: char): (r: Option<Suit>)
    ensures r.Some? ==> Glyph(r.value) == ch
    ensures r.Some? <==> 0x2660 <= ch as int <= 0x2663
  {
    var r := FindFirst(SuitValues, s => Glyph(s) == ch);
    assert 0x2660 <= ch as int <= 0x2663 ==> Glyph(SuitValues[ch as int - 0x2660]) == ch;
    r
  }

  /** `Suit.toString()`: the glyph as a one-character string. */
  function SuitToString(s: Suit): (r: string)
    ensures |r| == 1 && ForUnicode(r[0]) == Some(s)
  {
    [Glyph(s)]
  }

  /** `Suit.unicodeBaseElement()`: the suit's row in the Playing Cards block. */
  function UnicodeBaseElement(s: Suit): (e: int)
    ensures 0xA <= e <= 0xD
  {
    10 + SuitOrdinal(s)
  }

  /** `Suit.fromUnicodeBaseElement`: `values()[e - 10]`, which throws an index-out-of-bounds
      exception outside 10..13 (the null check after it never fails). */
  function FromUnicodeBaseElement(e: int): (r: Result<Suit>)
    ensures r.Ok? <==> 0xA <= e <= 0xD
    ensures r.Ok? ==> UnicodeBaseElement(r.value) == e
  {
    if 0 <= e - 10 < |SuitValues| then
      SuitOrdinalOfValue(e - 10);
      Ok(SuitValues[e - 10])
    else Err
  }

  /** Base elements follow the declaration order of the suits; with their range 0xA..0xD
      this fixes SPADES 0xA, HEARTS 0xB, DIAMONDS 0xC, CLUBS 0xD. */
  lemma BaseElementStrictlyIncreasing(a: Suit, b: Suit)
    ensures SuitOrdinal(a) < SuitOrdinal(b) <==> UnicodeBaseElement(a) < UnicodeBaseElement(b)
  {
  }

  lemma BaseElementRoundTrip(s: Suit)
    ensures FromUnicodeBaseElement(UnicodeBaseElement(s)) == Ok(s)
  {
  }

  /** `Suit.forName`: the name must equal its upper-cased form, then `Suit.valueOf` looks it
      up; both failures throw. The Java method is an instance method that never reads its
      receiver, so the model takes the name only. */
  function ForName(name: string): (r: Result<Suit>)
    ensures r.Ok? ==> SuitName(r.value) == name
  {
    if name != ToUpperCase(name) then Err
    else
      match FindFirst(SuitValues, s => SuitName(s) == name)
      case Some(s) => Ok(s)
      case None => Err
  }

  lemma ForNameSpec(name: string)
    ensures ForName(name).Ok? <==> name in {"SPADES", "HEARTS", "DIAMONDS", "CLUBS"}
  {
    if name in {"SPADES", "HEARTS", "DIAMONDS", "CLUBS"} {
      assert ToUpperCase(name) == name;
      var s :| s in SuitValues && SuitName(s) == name;
      assert SuitValues[SuitOrdinal(s)] == s;
    }
  }

  lemma ForNameOfName(s: Suit)
    ensures ForName(SuitName(s)) == Ok(s)
  {
    ForNameSpec(SuitName(s));
    match s
    case Spades =>
    case Hearts =>
    case Diamonds =>
    case Clubs =>
  }

  /** `Suit.BY_ORDINAL_NATURAL_ORDERING`. */
  function CompareSuits(a: Suit, b: Suit): (r: int)
    ensures r < 0 <==> SuitOrdinal(a) < SuitOrdinal(b)
    ensures r == 0 <==> a == b
  {
    IntegerCompare(SuitOrdinal(a), SuitOrdinal(b))
  }

  // ===========================================================================
  // Rank
  // ===========================================================================

  datatype Rank = Ace | Two | Three | Four | Five | Six | Seven | Eight | Nine | Ten | Jack | Queen | King

  /** `Rank.values()`, in declaration order. */
  const RankValues: seq<Rank> := [Ace, Two, Three, Four, Five, Six, Seven, Eight, Nine, Ten, Jack, Queen, King]

  /** `Rank.ordinal()`: the position of the rank in `Rank.values()`. */
  function RankOrdinal(r: Rank): (o: nat)
    ensures o < |RankValues| && RankValues[o] == r
  {
    match r
    case Ace => 0
    case Two => 1
    case Three => 2
    case Four => 3
    case Five => 4
    case Six => 5
    case Seven => 6
    case Eight => 7
    case Nine => 8
    case Ten => 9
    case Jack => 10
    case Queen => 11
    case King => 12
  }

  lemma RankOrdinalOfValue(i: nat)
    requires i < |RankValues|
    ensures RankOrdinal(RankValues[i]) == i
  {
  }

  /** `Rank.name()`: the declared identifier, which is upper case. */
  function RankName(r: Rank): (n: string)
    ensures |n| > 0 && ToUpperCase(n) == n
  {
    match r
    case Ace => "ACE"
    case Two => "TWO"
    case Three => "THREE"
    case Four => "FOUR"
    case Five => "FIVE"
    case Six => "SIX"
    case Seven => "SEVEN"
    case Eight => "EIGHT"
    case Nine => "NINE"
    case Ten => "TEN"
    case Jack => "JACK"
    case Queen => "QUEEN"
    case King => "KING"
  }

  /** The symbols the rank documentation lists, in declaration order. */
  const RankSymbols: seq<string> := ["A", "2", "3", "4", "5", "6", "7", "8", "9", "10", "J", "Q", "K"]

  /** The symbol the `Rank` constructor stores: the first letter of the name for ACE and the
      face cards (ordinal 0 or above 9), otherwise the decimal value `ordinal + 1`. This rule
      produces exactly the documented symbol table. */
  function Symbol(r: Rank): (s: string)
    ensures s == RankSymbols[RankOrdinal(r)]
  {
    var o := RankOrdinal(r);
    assert DecimalString(10) == DecimalString(1) + [DigitChar(0)];
    if o == 0 || o > 9 then RankName(r)[..1] else DecimalString(o + 1)
  }

  lemma SymbolInjective(a: Rank, b: Rank)
    ensures Symbol(a) == Symbol(b) ==> a == b
  {
    RankOrdinalOfValue(RankOrdinal(a));
    RankOrdinalOfValue(RankOrdinal(b));
  }

  /** `Rank.toString()`. */
  function RankToString(r: Rank): (s: string)
    ensures s == RankSymbols[RankOrdinal(r)]
  {
    Symbol(r)
  }

  const HeadRankSymbols: set<string> := {"J", "Q", "K"}
  const TenValueRankSymbols: set<string> := HeadRankSymbols + {"10"}

  /** `Rank.isHead()`: the heads are exactly JACK, QUEEN and KING. */
  predicate IsHead(r: Rank): (b: bool)
    ensures b <==> r in {Jack, Queen, King}
  {
    Symbol(r) in HeadRankSymbols
  }

  /** `Rank.isTenCard()`: the ten-value cards are exactly TEN, JACK, QUEEN and KING. */
  predicate IsTenCard(r: Rank): (b: bool)
    ensures b <==> r in {Ten, Jack, Queen, King}
  {
    Symbol(r) in TenValueRankSymbols
  }

  /** `Rank.fromSymbol`: lookup in the symbol table built from `values()`; a symbol that
      is not in it throws (inside the map function, before the custom message). */
  function FromSymbol(symbol: string): (r: Result<Rank>)
    ensures r.Ok? ==> Symbol(r.value) == symbol
  {
    match FindFirst(RankValues, r => Symbol(r) == symbol)
    case Some(r) => Ok(r)
    case None => Err
  }

  /** `fromSymbol` inverts `symbol`. */
  lemma FromSymbolOfSymbol(r: Rank)
    ensures FromSymbol(Symbol(r)) == Ok(r)
  {
    var found := FindFirst(RankValues, x => Symbol(x) == Symbol(r));
    assert Symbol(RankValues[RankOrdinal(r)]) == Symbol(r);
    SymbolInjective(r, found.value);
  }

  /** `fromSymbol` succeeds exactly on the documented symbols; any other string fails. */
  lemma FromSymbolSucceedsIff(symbol: string)
    ensures FromSymbol(symbol).Ok? <==> symbol in RankSymbols
  {
    if symbol in RankSymbols {
      var i :| 0 <= i < |RankSymbols| && RankSymbols[i] == symbol;
      RankOrdinalOfValue(i);
      FromSymbolOfSymbol(RankValues[i]);
    }
  }

  /** The Knight column of the Playing Cards block, which a 52-card deck never uses. */
  const KnightSuffix: int := 0xC

  /** `Rank.getUnicodeSuffix()`: the rank's column in the Playing Cards block, `ordinal + 1`,
      moved one further once it reaches the Knight column. */
  function GetUnicodeSuffix(r: Rank): (x: int)
    ensures 1 <= x <= 0xE && x != KnightSuffix
  {
    var candidate := RankOrdinal(r) + 1;
    if candidate >= KnightSuffix then candidate + 1 else candidate
  }

  /** The suffix grows strictly with the rank's ordinal. */
  lemma SuffixStrictlyIncreasing(a: Rank, b: Rank)
    ensures RankOrdinal(a) < RankOrdinal(b) <==> GetUnicodeSuffix(a) < GetUnicodeSuffix(b)
  {
  }

  /** `Rank.fromUnicodeSuffix`: rejects a suffix above 0xE, below 1 or equal to the Knight
      column, and otherwise undoes the skip of the Knight column. */
  function FromUnicodeSuffix(x: int): (r: Result<Rank>)
    ensures r.Ok? <==> 1 <= x <= 0xE && x != KnightSuffix
    ensures r.Ok? ==> GetUnicodeSuffix(r.value) == x
  {
    if x > 0xE then Err
    else if x < 1 then Err
    else if x == KnightSuffix then Err
    else
      var ordinal := (if x > KnightSuffix then x - 1 else x) - 1;
      RankOrdinalOfValue(ordinal);
      Ok(RankValues[ordinal])
  }

  lemma SuffixRoundTrip(r: Rank)
    ensures FromUnicodeSuffix(GetUnicodeSuffix(r)) == Ok(r)
  {
  }

  /** `Rank.BY_ORDINAL_NATURAL_ORDERING`. */
  function CompareRanks(a: Rank, b: Rank): (r: int)
    ensures r < 0 <==> RankOrdinal(a) < RankOrdinal(b)
    ensures r == 0 <==> a == b
  {
    IntegerCompare(RankOrdinal(a), RankOrdinal(b))
  }

  // ===========================================================================
  // Card
  // ===========================================================================

  /** A card is identified by its ordinal in the enum, which is declared suit-major:
      SPADES_A..SPADES_K, HEARTS_A..HEARTS_K, DIAMONDS_A..DIAMONDS_K, CLUBS_A..CLUBS_K. */
  type CardOrdinal = i: int | 0 <= i < 52

  datatype Card = Card(ordinal: CardOrdinal)

  /** `Card.values()`, in declaration order: position i holds the card with ordinal i. */
  function AllCards(): (cs: seq<Card>)
    ensures |cs| == 52
    ensures forall i :: 0 <= i < 52 ==> cs[i].ordinal == i
  {
    seq(52, i requires 0 <= i < 52 => Card(i))
  }

  const SpadesA: Card := Card(0)
  const Spades2: Card := Card(1)
  const HeartsA: Card := Card(13)
  const ClubsK: Card := Card(51)

  /** `UNICODE_BASE`: the first code point of the Playing Cards block's page, 0x1F0 * 256. */
  const UnicodeBase: int := 0x1F0 * (16 * 16)

  /** `Card.rank()`: `Rank.values()[ordinal % 13]`. */
  function RankOf(c: Card): (r: Rank)
    ensures (c.ordinal - RankOrdinal(r)) % 13 == 0
  {
    RankValues[c.ordinal % |RankValues|]
  }

  /** `Card.suit()`: `Suit.values()[ordinal / 13]`. */
  function SuitOf(c: Card): (s: Suit)
    ensures 13 * SuitOrdinal(s) <= c.ordinal < 13 * SuitOrdinal(s) + 13
  {
    SuitValues[c.ordinal / |RankValues|]
  }

  /** `Card.fromRankAndSuit`: `values()[13 * suit.ordinal() + rank.ordinal()]`. */
  function FromRankAndSuit(r: Rank, s: Suit): (c: Card)
    ensures RankOf(c) == r && SuitOf(c) == s
  {
    var c := Card(|RankValues| * SuitOrdinal(s) + RankOrdinal(r));
    assert c.ordinal % 13 == RankOrdinal(r) && c.ordinal / 13 == SuitOrdinal(s);
    c
  }

  /** Every card is the card of its own rank and suit. */
  lemma RankAndSuitRoundTrip(c: Card)
    ensures FromRankAndSuit(RankOf(c), SuitOf(c)) == c
  {
    RankOrdinalOfValue(c.ordinal % 13);
  }

  /** A card is determined by its rank and suit. */
  lemma CardIdentity(a: Card, b: Card)
    ensures RankOf(a) == RankOf(b) && SuitOf(a) == SuitOf(b) <==> a == b
  {
    RankAndSuitRoundTrip(a);
    RankAndSuitRoundTrip(b);
  }

  /** The code points of the 52 cards in the Playing Cards block: rows A..D (the suits),
      columns 1..E without the Knight column C. */
  predicate IsCardCodepoint(u: int) {
    0x1F0A0 <= u < 0x1F0E0 && 1 <= u % 16 <= 0xE && u % 16 != KnightSuffix
  }

  /** `Card.unicode()`: `UNICODE_BASE + 16 * suit().unicodeBaseElement() + rank().getUnicodeSuffix()`. */
  function Unicode(c: Card): (u: int)
    ensures IsCardCodepoint(u)
    ensures u / 16 == UnicodeBase / 16 + UnicodeBaseElement(SuitOf(c))
    ensures u % 16 == GetUnicodeSuffix(RankOf(c))
  {
    UnicodeBase + 16 * UnicodeBaseElement(SuitOf(c)) + GetUnicodeSuffix(RankOf(c))
  }

  /** `Card.fromUnicode`: subtracts the base (in `int` arithmetic), splits the rest into a
      suit element (`/ 16`, truncating) and a rank suffix, decodes the suit first and then
      the rank; either decoder's failure propagates. */
  function FromUnicode(u: Int32): (r: Result<Card>)
    ensures r.Ok? ==> Unicode(r.value) == u
  {
    var unicodeSansBase := Wrap32(u - UnicodeBase);
    var unicodeSuitElement := JavaDiv(unicodeSansBase, 16);
    var unicodeRankSuffix := unicodeSansBase - unicodeSuitElement * 16;
    var suit :- FromUnicodeBaseElement(unicodeSuitElement);
    var rank :- FromUnicodeSuffix(unicodeRankSuffix);
    Ok(FromRankAndSuit(rank, suit))
  }

  /** Decoding inverts encoding on every card. */
  lemma FromUnicodeOfUnicode(c: Card)
    ensures FromUnicode(Unicode(c)) == Ok(c)
  {
    var s, r := SuitOf(c), RankOf(c);
    var sansBase := 16 * UnicodeBaseElement(s) + GetUnicodeSuffix(r);
    assert Wrap32(Unicode(c) - UnicodeBase) == sansBase;
    assert JavaDiv(sansBase, 16) == UnicodeBaseElement(s);
    BaseElementRoundTrip(s);
    SuffixRoundTrip(r);
    RankAndSuitRoundTrip(c);
  }

  /** `fromUnicode` succeeds exactly on the 52 card code points. */
  lemma FromUnicodeSucceedsIff(u: Int32)
    ensures FromUnicode(u).Ok? <==> IsCardCodepoint(u)
  {
    var sansBase := Wrap32(u - UnicodeBase);
    var q := JavaDiv(sansBase, 16);
    var rem := sansBase - q * 16;
    if IsCardCodepoint(u) {
      assert sansBase == u - UnicodeBase;
      assert q == (u - UnicodeBase) / 16;
      assert rem == u % 16;
    }
  }

  /** `STRING_TO_CARD`: rejects the empty string, parses base-16 text with
      `Integer.parseInt(s, 16)` and decodes the value with `fromUnicode`. */
  function StringToCard(s: string): (r: Result<Card>)
    ensures s == [] ==> r == Err
    ensures r.Ok? ==> ParseInt16(s) == Ok(Unicode(r.value))
    ensures r.Ok? <==> s != [] && ParseInt16(s).Ok? && IsCardCodepoint(ParseInt16(s).value)
  {
    if s == [] then Err
    else
      var n :- ParseInt16(s);
      FromUnicodeSucceedsIff(n);
      FromUnicode(n)
  }

  /** The hexadecimal rendering of a card's code point parses back to the card. */
  lemma StringToCardOfHex(c: Card)
    ensures StringToCard(ToHex(Unicode(c))) == Ok(c)
  {
    ParseInt16OfToHex(Unicode(c));
    FromUnicodeOfUnicode(c);
  }

  /** The position of a card in the rank-major, suit-minor enumeration
      (SPADES_A, HEARTS_A, DIAMONDS_A, CLUBS_A, SPADES_2, ...). */
  function RankMajorIndex(c: Card): (k: nat)
    ensures k < 52
  {
    4 * RankOrdinal(RankOf(c)) + SuitOrdinal(SuitOf(c))
  }

  lemma RankMajorIndexInjective(a: Card, b: Card)
    ensures RankMajorIndex(a) == RankMajorIndex(b) ==> a == b
  {
    if RankMajorIndex(a) == RankMajorIndex(b) {
      RankOrdinalOfValue(RankOrdinal(RankOf(a)));
      CardIdentity(a, b);
    }
  }

  /** `BY_RANK_THEN_SUIT_ORDERING`: by rank ordinal, and by suit ordinal on a tie. It orders
      cards exactly as their positions in the rank-major enumeration. */
  function CompareByRankThenSuit(left: Card, right: Card): (r: int)
    ensures r < 0 <==> RankMajorIndex(left) < RankMajorIndex(right)
    ensures r == 0 <==> left == right
    ensures r > 0 <==> RankMajorIndex(left) > RankMajorIndex(right)
  {
    RankMajorIndexInjective(left, right);
    CardIdentity(left, right);
    var byRank := CompareRanks(RankOf(left), RankOf(right));
    if byRank == 0 then CompareSuits(SuitOf(left), SuitOf(right)) else byRank
  }

  lemma CompareByRankThenSuitAntisymmetric(a: Card, b: Card)
    ensures CompareByRankThenSuit(a, b) == -CompareByRankThenSuit(b, a)
  {
  }

  lemma CompareByRankThenSuitTransitive(a: Card, b: Card, c: Card)
    ensures CompareByRankThenSuit(a, b) < 0 && CompareByRankThenSuit(b, c) < 0 ==> CompareByRankThenSuit(a, c) < 0
    ensures CompareByRankThenSuit(a, b) <= 0 && CompareByRankThenSuit(b, c) <= 0 ==> CompareByRankThenSuit(a, c) <= 0
  {
  }

  /** `Card.toString()`: the rank symbol followed by the suit glyph. */
  function CardToString(c: Card): (s: string)
    ensures |s| >= 2 && ForUnicode(s[|s| - 1]) == Some(SuitOf(c))
    ensures FromSymbol(s[..|s| - 1]) == Ok(RankOf(c))
  {
    var s := RankToString(RankOf(c)) + SuitToString(SuitOf(c));
    assert s[..|s| - 1] == Symbol(RankOf(c));
    FromSymbolOfSymbol(RankOf(c));
    s
  }

  /** Distinct cards render differently. */
  lemma CardToStringInjective(a: Card, b: Card)
    ensures CardToString(a) == CardToString(b) ==> a == b
  {
    CardIdentity(a, b);
  }

  // ---------------------------------------------------------------------------
  // Worked examples
  // ---------------------------------------------------------------------------

  lemma Examples()
    ensures Unicode(SpadesA) == 0x1F0A1 && Unicode(ClubsK) == 0x1F0DE
    ensures FromUnicode(0x1F0A1) == Ok(SpadesA) && FromUnicode(0x1F0DE) == Ok(ClubsK)
    ensures StringToCard("1F0A1") == Ok(SpadesA)
    ensures UnicodeBaseElement(Spades) == 0xA && UnicodeBaseElement(Hearts) == 0xB
    ensures UnicodeBaseElement(Diamonds) == 0xC && UnicodeBaseElement(Clubs) == 0xD
    ensures CardToString(SpadesA) == "A\U{2660}"
    ensures CompareByRankThenSuit(SpadesA, HeartsA) < 0 && CompareByRankThenSuit(HeartsA, Spades2) < 0
  {
    FromUnicodeOfUnicode(SpadesA);
    FromUnicodeOfUnicode(ClubsK);
    assert ToHex(0x1F0A1) == "1F0A1";
    StringToCardOfHex(SpadesA);
  }

  /** `STRING_TO_CARD` is `fromUnicode` after `Integer.parseInt(s, 16)`, whatever spelling
      of the number the text uses. */
  lemma StringToCardOfParsed(s: string, n: Int32)
    requires ParseInt16(s) == Ok(n)
    ensures StringToCard(s) == FromUnicode(n)
  {
  }

  /** A lower-case spelling decodes like the upper-case one. */
  lemma StringToCardLowerCase()
    ensures StringToCard("1f0a1") == Ok(SpadesA)
  {
    var t := "1f0a1";
    HexValueAppend("1", 'f');
    HexValueAppend("1f", '0');
    HexValueAppend("1f0", 'a');
    HexValueAppend("1f0a", '1');
    assert "1" + ['f'] == "1f" && "1f" + ['0'] == "1f0" && "1f0" + ['a'] == "1f0a" && "1f0a" + ['1'] == t;
    assert HexValue("1") == 1;
    assert HexValue(t) == 0x1F0A1;
    assert DigitsAfterSign(t) == t;
    assert ParseInt16(t) == Ok(0x1F0A1);
    StringToCardOfParsed(t, 0x1F0A1);
    FromUnicodeOfUnicode(SpadesA);
  }

  /** A sign and leading zeros are accepted too. */
  lemma StringToCardSignedWithZero()
    ensures StringToCard("+01F0A1") == Ok(SpadesA)
  {
    var t := "+01F0A1";
    assert ToHex(0x1F0A1) == "1F0A1";
    HexValueOfToHex(0x1F0A1);
    HexValueLeadingZero("1F0A1");
    assert DigitsAfterSign(t) == "0" + "1F0A1";
    assert ParseInt16(t) == Ok(0x1F0A1);
    StringToCardOfParsed(t, 0x1F0A1);
    FromUnicodeOfUnicode(SpadesA);
  }
}
