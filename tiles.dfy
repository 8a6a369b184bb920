/**
 * Tile identities and the token parser (`parse_tiles`).
 *
 * A token is a string: "J" for the joker, anything else is read as a colour
 * character followed by a decimal number ("R12", "k4" after upper-casing).
 */
module Tiles {

  /** The joker, or a coloured tile (colour character, number). */
  datatype Key = Joker | Colored(colour: char, number: nat)

  type Token = string

  /**
   * The four colours, in the order the meld library walks them. (Spelled as a
   * concatenation so that the verifier does not evaluate every function applied
   * to it, such as the whole meld library, while proving unrelated facts.)
   */
  const COLORS: seq<char> := ['R', 'B'] + ['K', 'O']

  /** The largest tile number. */
  const MAX_NUMBER: nat := 13

  datatype Option<T> = None | Some(value: T)

  predicate IsDigit(ch: char) {
    '0' <= ch <= '9'
  }

  predicate AllDigits(ds: string) {
    forall i :: 0 <= i < |ds| ==> IsDigit(ds[i])
  }

  /**
   * A token `parse_tiles` reads without raising: "J", or one character
   * followed by at least one decimal digit (`int(t[1:])` succeeds).
   */
  predicate WellFormed(t: Token) {
    t == "J" || (|t| >= 2 && AllDigits(t[1..]))
  }

  /** Every token of the list is well formed. */
  predicate AllWellFormed(tiles: seq<Token>) {
    forall j :: 0 <= j < |tiles| ==> WellFormed(tiles[j])
  }

  function DigitValue(ch: char): nat
    requires IsDigit(ch)
  {
    (ch as int - '0' as int) as nat
  }

  function DigitChar(d: nat): char
    requires d < 10
  {
    (d + '0' as int) as char
  }

  /** `int(ds)` for a string of decimal digits (leading zeros allowed). */
  function DecimalValue(ds: string): nat
    requires AllDigits(ds)
    decreases |ds|
  {
    if ds == [] then 0
    else 10 * DecimalValue(ds[..|ds| - 1]) + DigitValue(ds[|ds| - 1])
  }

  /** `str(n)`: the decimal spelling of n, without leading zeros. */
  function DecimalString(n: nat): (s: string)
    ensures |s| >= 1 && AllDigits(s)
  {
    if n < 10 then [DigitChar(n)]
    else DecimalString(n / 10) + [DigitChar(n % 10)]
  }

  lemma {:induction false} DecimalRoundTrip(n: nat)
    ensures DecimalValue(DecimalString(n)) == n
  {
    var s := DecimalString(n);
    if n >= 10 {
      DecimalRoundTrip(n / 10);
      assert s[..|s| - 1] == DecimalString(n / 10);
    }
  }

  /** The key line 14-17 of the parser counts a token under. */
  function TileKey(t: Token): Key
    requires WellFormed(t)
  {
    if t == "J" then Joker else Colored(t[0], DecimalValue(t[1..]))
  }

  /** The token spelling of a key, as the presentation layer writes it (`f"{c}{n}"`). */
  function TokenOf(k: Key): Token
  {
    match k
    case Joker => "J"
    case Colored(c, n) => [c] + DecimalString(n)
  }

  /** Spelling a key and parsing it back gives the key again. */
  lemma TokenRoundTrip(k: Key)
    ensures WellFormed(TokenOf(k)) && TileKey(TokenOf(k)) == k
  {
    match k
    case Joker =>
    case Colored(c, n) =>
      var t := TokenOf(k);
      assert t[1..] == DecimalString(n);
      DecimalRoundTrip(n);
  }

  /** A token spelled exactly as `TokenOf` spells its key (no leading zeros). */
  predicate CanonicalToken(t: Token) {
    WellFormed(t) && TokenOf(TileKey(t)) == t
  }

  /** The keys of a token list, one per token, in order. */
  function TileKeys(tiles: seq<Token>): (ks: seq<Key>)
    requires AllWellFormed(tiles)
    ensures |ks| == |tiles|
  {
    if tiles == [] then []
    else TileKeys(tiles[..|tiles| - 1]) + [TileKey(tiles[|tiles| - 1])]
  }

  /** The hand `parse_tiles` builds from a token list. */
  function Parsed(tiles: seq<Token>): multiset<Key>
    requires AllWellFormed(tiles)
  {
    multiset(TileKeys(tiles))
  }

  /** Every "J" token is counted under the joker key, and nothing else is. */
  lemma {:induction false} ParsedJokers(tiles: seq<Token>)
    requires AllWellFormed(tiles)
    ensures Parsed(tiles)[Joker] == multiset(tiles)["J"]
  {
    if tiles != [] {
      var init := tiles[..|tiles| - 1];
      ParsedJokers(init);
      assert tiles == init + [tiles[|tiles| - 1]];
    }
  }

  /**
   * When every token is spelled canonically, the hand holds each key exactly
   * as many times as the list holds its spelling.
   */
  lemma {:induction false} ParsedCanonicalCounts(tiles: seq<Token>, k: Key)
    requires AllWellFormed(tiles)
    requires forall j :: 0 <= j < |tiles| ==> CanonicalToken(tiles[j])
    ensures Parsed(tiles)[k] == multiset(tiles)[TokenOf(k)]
  {
    if tiles != [] {
      var init, last := tiles[..|tiles| - 1], tiles[|tiles| - 1];
      ParsedCanonicalCounts(init, k);
      assert tiles == init + [last];
      TokenRoundTrip(k);
      assert CanonicalToken(last);
      assert TileKey(last) == k <==> last == TokenOf(k);
    }
  }

  /**
   * parse_tiles: count every token under its key. The result holds one key per
   * token and counts every "J" token under the joker.
   */
  method ParseTiles(tiles: seq<Token>) returns (c: multiset<Key>)
    requires AllWellFormed(tiles)
    ensures c == Parsed(tiles)
    ensures |c| == |tiles|
    ensures c[Joker] == multiset(tiles)["J"]
  {
    c := multiset{};
    for i := 0 to |tiles|
      invariant c == Parsed(tiles[..i])
    {
      var t := tiles[i];
      ParsedStep(tiles, i);
      if t == "J" {
        CountToken(tiles, i, c, Joker);
        c := c[Joker := c[Joker] + 1];
      } else {
        var key := Colored(t[0], DecimalValue(t[1..]));
        CountToken(tiles, i, c, key);
        c := c[key := c[key] + 1];
      }
    }
    assert tiles[..|tiles|] == tiles;
    ParsedJokers(tiles);
  }

  /** Counting one more token adds its key to the prefix's hand. */
  lemma ParsedStep(tiles: seq<Token>, i: nat)
    requires AllWellFormed(tiles)
    requires i < |tiles|
    ensures WellFormed(tiles[i])
    ensures Parsed(tiles[..i + 1]) == Parsed(tiles[..i]) + multiset{TileKey(tiles[i])}
  {
    assert tiles[..i + 1][..i] == tiles[..i];
  }

  /** Counting token i under its key turns the hand of the first i tokens into that of the first i + 1. */
  lemma CountToken(tiles: seq<Token>, i: nat, c: multiset<Key>, k: Key)
    requires AllWellFormed(tiles)
    requires i < |tiles| && WellFormed(tiles[i]) && k == TileKey(tiles[i])
    requires c == Parsed(tiles[..i])
    ensures c[k := c[k] + 1] == Parsed(tiles[..i + 1])
  {
    ParsedStep(tiles, i);
    assert c[k := c[k] + 1] == c + multiset{k};
  }
}
