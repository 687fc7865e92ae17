# Playing cards and a dispensing deck

A Dafny model of the card and deck core of a Java card library.

- **Suits.** There are four suits (SPADES, HEARTS, DIAMONDS, CLUBS). Each has:
  - a display character from the library's own table, U+2660..U+2663;
  - a "base element": 0xA..0xD, its row in the Playing Cards block (U+1F0A0..U+1F0FF) of the Unicode Standard.
- **Ranks.** There are thirteen ranks (ACE..KING). Each has:
  - a symbol (`A`, `2`..`10`, `J`, `Q`, `K`);
  - two predicates: head card (J, Q, K) and ten-value card (10, J, Q, K);
  - a "suffix": its column in that block, which skips the Knight column 0xC.
- **Cards.** The 52 cards are declared suit-major, so card ordinal = 13 × suit ordinal + rank ordinal. A card encodes to the code point `0x1F000 + 16 × base element + suffix` and decodes from one. It also has a hexadecimal string entry point, a textual rendering (symbol then glyph) and a rank-then-suit comparator.
- **Deck.** A `Deck` holds a fixed permutation of the 52 cards and a cursor. `next()` dispenses the card under the cursor and advances it. It fails once all 52 cards are gone, and then undoes its own increment. `copyOf()` shares the draw order and snapshots the cursor.

Files:

- `wrappers.dfy`: `Option` (a Java `null` return) and `Result` (a call that returns or throws).
- `javalang.dfy`: the Java semantics the card code depends on:
  - `int` wrap-around;
  - truncating `/`;
  - `Integer.compare`;
  - `Integer.parseInt(s, 16)`;
  - `Integer.toString`;
  - ASCII `toUpperCase`;
  - an upper-case hexadecimal rendering, used as the inverse of parsing.
- `card.dfy`: module `Cards`, which models `Card.java`. All of it is pure functions over datatypes. A card is represented by its ordinal, so `rank()`, `suit()` and `fromRankAndSuit` keep the source's `%`, `/` and index arithmetic.
- `deck.dfy`: module `Decks`, which models `Deck.java`. `Deck` is a class with a `const shuffled` and a mutable `firstUndispensed`. The shuffle is a constructor argument that must be a permutation of `Card.values()`; it stands in for `Collections.shuffle` with the library's random source.

Where the documentation and the code disagree, the model follows the code:

- **Glyph table.** The suit glyphs are 0x2660, 0x2661, 0x2662 and 0x2663, as the table at `Card.java:70-73` has them. The Javadoc of `Suit.toString()` (`Card.java:126-128`) and of `Card.toString()` (`Card.java:319-323`) names 0x2665 and 0x2666 for HEARTS and DIAMONDS.
- **`fromUnicodeBaseElement`.** It fails by an array index out of bounds. Its null check with the "valid values" message can never fire.
- **`fromSymbol`.** It fails inside the map lookup function. The branch that builds the message listing the valid symbols is dead code.
- **`Suit.forName`.** It is an instance method that never reads its receiver, so the model takes the name only.

The contracts of `RankOf` and `SuitOf` state the suit-major layout: a card lies in its suit's block of 13 consecutive constants, at the offset of its rank. `Unicode` states the block layout itself: the row is the suit's base element and the column the rank's suffix. The lemmas `BaseElementStrictlyIncreasing` and `SuffixStrictlyIncreasing` say those values follow declaration order. Together with the ranges in the contracts, they fix every value.

## Model

| member | source | states |
|---|---|---|
| `Cards.SuitOrdinal` | src/main/java/com/example/Card.java:59-63 | a suit's ordinal is its position in `Suit.values()` |
| `Cards.SuitOrdinalOfValue` | src/main/java/com/example/Card.java:59-63 | `values()[i].ordinal() == i` for each of the four positions |
| `Cards.Glyph` | src/main/java/com/example/Card.java:115-117 | `unicode()` returns the entry of the suit table (lines 70-73): the display character of the suit with ordinal k is U+2660 + k (SPADES U+2660 .. CLUBS U+2663) |
| `Cards.CompareSuits` | src/main/java/com/example/Card.java:75-79 | the suit ordering is negative exactly when the left ordinal is smaller, and zero exactly for the same suit |
| `Cards.UnicodeBaseElement` | src/main/java/com/example/Card.java:91-93 | the base element lies in 0xA..0xD |
| `Cards.BaseElementStrictlyIncreasing` | src/main/java/com/example/Card.java:84-93 | base elements follow the suits' declaration order; with the range this fixes SPADES 0xA, HEARTS 0xB, DIAMONDS 0xC, CLUBS 0xD |
| `Cards.FromUnicodeBaseElement` | src/main/java/com/example/Card.java:95-101 | succeeds exactly for 10..13 and then yields the suit whose base element is the argument; fails otherwise |
| `Cards.BaseElementRoundTrip` | src/main/java/com/example/Card.java:91-101 | decoding a suit's base element gives back the suit |
| `Cards.SuitName` | src/main/java/com/example/Card.java:59-63 | `name()` is the declared identifier that `valueOf` matches at line 109: non-empty and equal to its own upper-cased form |
| `Cards.ForName` | src/main/java/com/example/Card.java:106-110 | a successful lookup returns the suit whose declared name is exactly the argument |
| `Cards.ForNameSpec` | src/main/java/com/example/Card.java:106-110 | `forName` succeeds exactly for "SPADES", "HEARTS", "DIAMONDS" and "CLUBS" (so lower or mixed case fails) |
| `Cards.ForNameOfName` | src/main/java/com/example/Card.java:106-110 | `forName(s.name()) == s` for every suit |
| `Cards.ForUnicode` | src/main/java/com/example/Card.java:122-124 | yields a suit exactly for the characters U+2660..U+2663, and that suit's glyph is the argument; any other character yields nothing (`null`) |
| `Cards.SuitToString` | src/main/java/com/example/Card.java:134-136 | the rendering is one character, and looking that character up gives the suit back |
| `Cards.RankOrdinal` | src/main/java/com/example/Card.java:145-148 | a rank's ordinal is its position in `Rank.values()` |
| `Cards.RankOrdinalOfValue` | src/main/java/com/example/Card.java:145-148 | `values()[i].ordinal() == i` for each of the thirteen positions |
| `Cards.CompareRanks` | src/main/java/com/example/Card.java:150-154 | the rank ordering is negative exactly when the left ordinal is smaller, and zero exactly for the same rank |
| `Cards.RankName` | src/main/java/com/example/Card.java:169 | `name()`, whose first letter the constructor takes as the symbol, is non-empty and equal to its own upper-cased form |
| `Cards.Symbol` | src/main/java/com/example/Card.java:164-173 | the constructor's rule (first letter of the name, or `ordinal + 1` in decimal) yields exactly A, 2, ..., 10, J, Q, K in declaration order |
| `Cards.SymbolInjective` | src/main/java/com/example/Card.java:156-162 | no two ranks share a symbol, so the symbol table has one entry per rank |
| `Cards.IsHead` | src/main/java/com/example/Card.java:178-180 | membership of the symbol in {J, Q, K} holds exactly for JACK, QUEEN and KING |
| `Cards.IsTenCard` | src/main/java/com/example/Card.java:185-187 | membership of the symbol in {J, Q, K, 10} holds exactly for TEN, JACK, QUEEN and KING |
| `Cards.GetUnicodeSuffix` | src/main/java/com/example/Card.java:204-210 | the suffix lies in 1..0xE and is never the Knight value 0xC |
| `Cards.SuffixStrictlyIncreasing` | src/main/java/com/example/Card.java:204-210 | one rank's ordinal is below another's exactly when its suffix is below the other's |
| `Cards.FromUnicodeSuffix` | src/main/java/com/example/Card.java:220-230 | succeeds exactly for 1..0xE other than 0xC, and then yields the rank whose suffix is the argument; fails below 1, above 0xE and at 0xC |
| `Cards.SuffixRoundTrip` | src/main/java/com/example/Card.java:204-229 | decoding a rank's suffix gives back the rank |
| `Cards.RankToString` | src/main/java/com/example/Card.java:238-249 | a rank renders as its documented symbol |
| `Cards.FromSymbol` | src/main/java/com/example/Card.java:254-267 | a successful lookup returns the rank whose symbol is exactly the argument |
| `Cards.FromSymbolOfSymbol` | src/main/java/com/example/Card.java:156-162 | `fromSymbol(r.symbol()) == r` for every rank |
| `Cards.FromSymbolSucceedsIff` | src/main/java/com/example/Card.java:254-267 | `fromSymbol` succeeds exactly on the thirteen symbols A, 2, ..., 10, J, Q, K; any other string fails |
| `Cards.RankOf` | src/main/java/com/example/Card.java:273-275 | the rank's ordinal is the card's offset within its suit's block of 13 (the ordinal minus it is a multiple of 13) |
| `Cards.SuitOf` | src/main/java/com/example/Card.java:280-282 | the card lies in the suit's block of 13 consecutive constants, ordinals 13 × suit .. 13 × suit + 12 |
| `Cards.FromRankAndSuit` | src/main/java/com/example/Card.java:287-292 | the card at index 13 × suit + rank has that rank and that suit |
| `Cards.RankAndSuitRoundTrip` | src/main/java/com/example/Card.java:273-292 | `fromRankAndSuit(c.rank(), c.suit()) == c` for all 52 cards |
| `Cards.CardIdentity` | src/main/java/com/example/Card.java:27-35 | two cards are equal exactly when their ranks and suits are equal |
| `Cards.AllCards` | src/main/java/com/example/Card.java:290 | `Card.values()` has 52 entries, and position i holds the card with ordinal i (declaration order) |
| `Cards.Unicode` | src/main/java/com/example/Card.java:313-317 | every card's code point is in rows A..D and columns 1..E of the Playing Cards block, never in the Knight column C; its row is 0x1F00 + the suit's base element and its column the rank's suffix |
| `Cards.FromUnicode` | src/main/java/com/example/Card.java:299-306 | whatever `fromUnicode(u)` returns encodes back to `u` |
| `Cards.FromUnicodeOfUnicode` | src/main/java/com/example/Card.java:299-317 | `fromUnicode(c.unicode()) == c` for all 52 cards |
| `Cards.FromUnicodeSucceedsIff` | src/main/java/com/example/Card.java:299-306 | `fromUnicode(u)` succeeds exactly on the 52 card code points, for every `int` `u` (including negative offsets, under Java's truncating division and `int` wrap-around) |
| `Cards.StringToCard` | src/main/java/com/example/Card.java:38-44 | the empty string fails before parsing; it succeeds exactly when `Integer.parseInt(s, 16)` succeeds on a card code point, and then returns the card with that code point |
| `Cards.StringToCardOfParsed` | src/main/java/com/example/Card.java:38-44 | for any text that `Integer.parseInt(s, 16)` reads as n, the result is `fromUnicode(n)` |
| `Cards.StringToCardLowerCase` | src/main/java/com/example/Card.java:38-44 | "1f0a1" decodes to SPADES_A |
| `Cards.StringToCardSignedWithZero` | src/main/java/com/example/Card.java:38-44 | "+01F0A1" decodes to SPADES_A |
| `Cards.StringToCardOfHex` | src/main/java/com/example/Card.java:38-44 | the hexadecimal text of any card's code point parses back to that card |
| `Cards.CompareByRankThenSuit` | src/main/java/com/example/Card.java:45-57 | the comparator orders cards by their position in the rank-major, suit-minor enumeration, and returns 0 only for identical cards |
| `Cards.CompareByRankThenSuitAntisymmetric` | src/main/java/com/example/Card.java:45-57 | `compare(a, b) == -compare(b, a)` |
| `Cards.CompareByRankThenSuitTransitive` | src/main/java/com/example/Card.java:45-57 | "less than" and "at most" under the comparator are transitive |
| `Cards.CardToString` | src/main/java/com/example/Card.java:326-328 | the rendering is a rank symbol followed by one glyph: the last character looks up to the card's suit and the rest to its rank |
| `Cards.CardToStringInjective` | src/main/java/com/example/Card.java:326-328 | distinct cards render to distinct strings |
| `Cards.Examples` | src/main/java/com/example/Card.java:299-328 | SPADES_A ↦ 0x1F0A1 and CLUBS_K ↦ 0x1F0DE and back; "1F0A1" ↦ SPADES_A; base elements SPADES 0xA .. CLUBS 0xD; SPADES_A renders as "A♠"; SPADES_A < HEARTS_A < SPADES_2 |
| `JavaLang.IntegerCompare` | src/main/java/com/example/Card.java:150-154 | `Integer.compare`, behind `Ordering.natural()`: returns only -1, 0 or 1; negative exactly when the left value is smaller; zero exactly when the values are equal |
| `JavaLang.ToUpperCase` | src/main/java/com/example/Card.java:108 | `name.toUpperCase()` keeps the length and maps each character through ASCII upper-casing, which turns a to z into A to Z and leaves every other character alone |
| `JavaLang.DecimalString` | src/main/java/com/example/Card.java:172 | `"" + (ordinal + 1)` is a non-empty string of decimal digits whose base-10 value (`DecimalValue`) is the number itself, with no leading zero for a positive value and the value modulo 10 as its last digit |
| `JavaLang.Wrap32` | src/main/java/com/example/Card.java:300 | `unicode - UNICODE_BASE` is the exact difference unless it leaves the `int` range, where it wraps by 2^32 |
| `JavaLang.JavaDiv` | src/main/java/com/example/Card.java:301 | `/ 16` truncates toward zero: Euclidean for non-negative operands, and its remainder takes the dividend's sign |
| `JavaLang.ParseInt16` | src/main/java/com/example/Card.java:43 | `Integer.parseInt(s, 16)` succeeds exactly when the text after an optional `-` or `+` is a non-empty string of base-16 digits whose signed value fits in an `int`, and then yields that signed value |
| `JavaLang.HexValueLeadingZero` | src/main/java/com/example/Card.java:43 | a leading zero digit does not change the base-16 value |
| `JavaLang.HexValueAppend` | src/main/java/com/example/Card.java:43 | appending a digit multiplies the base-16 value by 16 and adds the digit |
| `JavaLang.HexValueOfToHex` | src/main/java/com/example/Card.java:43 | the base-16 value of the hexadecimal rendering of n is n |
| `JavaLang.ParseInt16OfToHex` | src/main/java/com/example/Card.java:43 | `Integer.parseInt(s, 16)` reads back the rendering of every non-negative `int` |
| `Decks.ShuffleHoldsEveryCardOnce` | src/main/java/com/example/Deck.java:28-33 | a permutation of `Card.values()` has length 52, contains every card and has no duplicates |
| `Decks.AllCardsIsShuffle` | src/main/java/com/example/Deck.java:30 | `Card.values()` is itself a permutation of the 52 cards |
| `Decks.Deck.constructor` | src/main/java/com/example/Deck.java:28-33 | a new deck stores the given shuffle, has cursor 0 and is Fresh, with nothing dispensed |
| `Decks.Deck.Copy` | src/main/java/com/example/Deck.java:35-39 | the copy has the same draw order and the same cursor value, hence the same remaining cards |
| `Decks.Deck.NewDeck` | src/main/java/com/example/Deck.java:44-46 | a new object, Fresh (cursor 0), whose draw order is the shuffle |
| `Decks.Deck.CopyOf` | src/main/java/com/example/Deck.java:48-50 | a new object with this deck's draw order and cursor |
| `Decks.Deck.HasNext` | src/main/java/com/example/Deck.java:53-55 | true exactly when the cursor is below 52, i.e. when cards remain and the deck is not Exhausted; changes nothing |
| `Decks.Deck.Next` | src/main/java/com/example/Deck.java:57-65 | below 52: returns `shuffled[cursor]` and advances the cursor by exactly 1, appending that card to the dispensed prefix; at 52: fails and leaves the cursor unchanged; `shuffled` never changes and the cursor stays in 0..52 |
| `Decks.DealOut` | src/main/java/com/example/Deck.java:58-65 | from a fresh deck, 52 `next()` calls return the draw order, which holds every card exactly once, and the 53rd call fails |
| `Decks.DrawFromBoth` | src/main/java/com/example/Deck.java:35-65 | after a copy at cursor k, one draw from the copy and one from the original both return `shuffled[k]`, and each deck's cursor ends at k + 1 (below 52), so neither draw moved the other deck's cursor; at 52 both fail and both cursors stay at 52 |

## Left out

- Concurrency. The cursor is an `AtomicInteger` in the source. The model runs one call at a time on a plain field, so races are out of scope. That includes the transient cursor values above 52 that racing over-draws can produce.
- Randomness. `Collections.shuffle` with the process-wide random source is replaced by a caller-supplied permutation, so uniformity is not modelled. `Randoms.java` (lazy `SecureRandom`, one-time seeding) is not part of this model.
- `Executors.java` (scheduler wiring) and `StringUtil.java` (joiner and splitter constants) are not part of this model. The joiner builds only an unreachable error message.
- Exception classes and messages, including the two dead messages. Every failure is `Err`.
- Null arguments. Dafny values cannot be null, so the `checkNotNull` calls have nothing to check.
- `JavaLang.ParseInt16`: `Character.digit` also accepts non-ASCII digits (for example full-width ones). The model accepts only ASCII `0-9`, `a-f` and `A-F`.
- `JavaLang.ToUpperCase`: only ASCII letters are upper-cased. This cannot change what `ForName` returns, because every string it accepts is one of four ASCII names.
- Java `char` is a UTF-16 code unit, but the model uses Dafny's `char`, a Unicode scalar value. Surrogate code units therefore cannot be passed to `ForUnicode`. The source returns `null` for them.
- Reference identity. The copy shares the `shuffled` list by reference in the source; in the model it is an immutable sequence value. The two are indistinguishable because the list is never mutated.
- `Iterator.remove` is inherited from `java.util.Iterator` and not overridden. It is not modelled.
