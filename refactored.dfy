/**
 * The refactored known-CN engine: every card comes with its card number, the
 * FC groups are consolidated across cards by pattern signature, and each
 * candidate is boosted by the best-scoring catalog format among its matches.
 */
module Refactored {
  import opened Basics
  import opened Bits
  import opened Names
  import opened Matching
  import opened Enumeration
  import opened Grouping
  import opened Best
  import opened Formats
  import opened Consistency
  import opened Ranking
  import opened Pools

  /** A card: payload, known card number, name. */
  datatype CardData = CardData(hexData: string, knownCn: int, name: string)

  /** The settings the analysis reads. */
  datatype Config = Config(minBits: int, maxBits: int, knownFc: Option<int>, catalog: Catalog)

  /** The enumeration bounds and filters for one card: the CN must equal the card's known CN. */
  function QueryOf(cfg: Config, card: CardData): Query {
    Query(cfg.minBits, cfg.maxBits, cfg.knownFc, Some(card.knownCn), card.name)
  }

  /** `find_matches_single_card`; `hex_to_binary` raises on a payload that is not hexadecimal. */
  function MatchesOf(cfg: Config, card: CardData): Result<seq<Match>> {
    match HexToBinary(card.hexData)
    case ValueError(e) => ValueError(e)
    case Ok(raw) => Ok(CardMatches(raw, QueryOf(cfg, card)))
  }

  /** A payload `hex_to_binary` accepts. */
  predicate ValidPayload(card: CardData) {
    card.hexData != [] && IsHex(card.hexData)
  }

  /**
   * A card's matches exist exactly when its payload is hexadecimal (otherwise
   * the payload is reported); they are every admissible combination of either
   * bit order, each signature once, each well formed, named after the card,
   * in a window of the configured length, with the known FC when set and with
   * the card's CN; so a negative known CN finds nothing.
   */
  lemma MatchesOfSpec(cfg: Config, card: CardData)
    ensures MatchesOf(cfg, card).Ok? <==> ValidPayload(card)
    ensures MatchesOf(cfg, card).ValueError? ==> MatchesOf(cfg, card).input == card.hexData
    ensures MatchesOf(cfg, card).Ok? ==>
      var ms := MatchesOf(cfg, card).value;
      var raw := HexToBinary(card.hexData).value;
      && SigsDistinct(ms)
      && (forall m :: m in ms <==> Found(raw, QueryOf(cfg, card), m))
      && (forall m :: m in ms ==>
            && WellFormed(m) && m.cardName == card.name && m.cnValue == card.knownCn
            && cfg.minBits <= m.windowLength <= cfg.maxBits && m.windowLength <= 4 * |card.hexData|
            && (cfg.knownFc.Some? ==> m.fcValue == cfg.knownFc.value))
      && (card.knownCn < 0 ==> forall m :: m !in ms)
  {
    if MatchesOf(cfg, card).Ok? {
      var raw := HexToBinary(card.hexData).value;
      var ms := MatchesOf(cfg, card).value;
      CardMatchesMem(raw, QueryOf(cfg, card));
      forall m | m in ms
        ensures WellFormed(m) && m.cardName == card.name && m.cnValue == card.knownCn
        ensures cfg.minBits <= m.windowLength <= cfg.maxBits && m.windowLength <= 4 * |card.hexData|
        ensures cfg.knownFc.Some? ==> m.fcValue == cfg.knownFc.value
      {
        FoundProperties(raw, QueryOf(cfg, card), m);
      }
    }
  }

  /** Each card's matches, in card order. */
  function Results(cfg: Config, cards: seq<CardData>): (rs: seq<Result<seq<Match>>>)
    ensures |rs| == |cards|
  {
    seq(|cards|, i requires 0 <= i < |cards| => MatchesOf(cfg, cards[i]))
  }

  /** `_apply_real_world_boost` as the finishing step of consolidation. */
  function Boost(cat: Catalog): FCCandidate -> FCCandidate {
    c => WithBoost(c, cat)
  }

  lemma BoostKeepsMatches(cat: Catalog)
    ensures KeepsMatches(Boost(cat))
  {
    forall c: FCCandidate ensures Boost(cat)(c).fcValue == c.fcValue && Boost(cat)(c).matches == c.matches &&
      Boost(cat)(c).consistencyScore == c.consistencyScore
    {
      WithBoostSpec(c, cat);
    }
  }

  /** `find_fc_candidates`: nothing for no cards; a failing payload raises. */
  function FcCandidates(cfg: Config, cards: seq<CardData>): Result<seq<FCCandidate>> {
    if cards == [] then Ok([])
    else
      match Concat(Results(cfg, cards))
      case ValueError(e) => ValueError(e)
      case Ok(pool) => Ok(KnownCnCandidates(pool, |cards|, Boost(cfg.catalog)))
  }

  /** Card `i` is the first card whose payload is rejected. */
  ghost predicate FirstInvalid(cards: seq<CardData>, i: int) {
    0 <= i < |cards| && !ValidPayload(cards[i]) && forall j :: 0 <= j < i ==> ValidPayload(cards[j])
  }

  /**
   * `find_fc_candidates` raises exactly when some payload is not hexadecimal,
   * with the first such payload; with no cards it yields nothing.
   */
  lemma FcCandidatesErrors(cfg: Config, cards: seq<CardData>)
    ensures cards == [] ==> FcCandidates(cfg, cards) == Ok([])
    ensures FcCandidates(cfg, cards).Ok? <==> forall i :: 0 <= i < |cards| ==> ValidPayload(cards[i])
    ensures FcCandidates(cfg, cards).ValueError? ==>
      exists i :: FirstInvalid(cards, i) && FcCandidates(cfg, cards).input == cards[i].hexData
  {
    if cards != [] {
      var rs := Results(cfg, cards);
      ConcatSpec(rs);
      forall i | 0 <= i < |cards| ensures rs[i] == MatchesOf(cfg, cards[i]) {
        MatchesOfSpec(cfg, cards[i]);
      }
      if Concat(rs).ValueError? {
        var i :| 0 <= i < |rs| && rs[i] == ValueError(Concat(rs).input) && forall j :: 0 <= j < i ==> rs[j].Ok?;
        MatchesOfSpec(cfg, cards[i]);
        assert FirstInvalid(cards, i);
      }
    }
  }

  /**
   * With one card, one candidate per FC value of its matches, holding all of
   * them; with several, an FC value is reported exactly when its group's
   * consistent matches cover every card, and its candidate holds those
   * matches. Every candidate has consistency 1.0, distinct FC values, pooled
   * matches of its own FC value, and the largest boost any of its matches
   * earns, so its total score is 1.0 plus that boost.
   */
  lemma FcCandidatesSpec(cfg: Config, cards: seq<CardData>)
    requires cards != [] && FcCandidates(cfg, cards).Ok?
    ensures var pool := Concat(Results(cfg, cards)).value;
      var cs := FcCandidates(cfg, cards).value;
      var n := |cards|;
      && (forall m :: m in pool <==> exists i :: 0 <= i < n && MatchesOf(cfg, cards[i]).Ok? && m in MatchesOf(cfg, cards[i]).value)
      && (n == 1 ==> |cs| == |KeyOrder(pool, ByFc)| && forall i :: 0 <= i < |cs| ==>
            cs[i].fcValue == KeyOrder(pool, ByFc)[i] && cs[i].matches == Select(pool, ByFc, cs[i].fcValue))
      && (forall i, j :: 0 <= i < j < |cs| ==> cs[i].fcValue != cs[j].fcValue)
      && (forall c :: c in cs ==>
            && c.consistencyScore == 1.0 && c.matches != []
            && (forall m :: m in c.matches ==> m in pool && m.fcValue == c.fcValue)
            && (n > 1 ==> CardCount(c) == n)
            && c == WithBoost(c, cfg.catalog)
            && c == WithBoost(FCCandidate(c.fcValue, c.matches, 1.0, 0, None), cfg.catalog)
            && TotalScore(c) == 1.0 + c.realWorldBoost as real && TotalScore(c) >= 1.0)
      && (n > 1 ==> forall fc :: fc in KeyOrder(pool, ByFc) ==>
            ((exists c :: c in cs && c.fcValue == fc) <==> FullyConsistent(pool, n, fc)))
      && (n > 1 ==> forall c :: c in cs ==>
            Select(pool, ByFc, c.fcValue) != [] && c.matches == FilterConsistent(Select(pool, ByFc, c.fcValue)))
  {
    var rs := Results(cfg, cards);
    var pool := Concat(rs).value;
    ConcatSpec(rs);
    assert forall i :: 0 <= i < |cards| ==> rs[i] == MatchesOf(cfg, cards[i]);
    BoostKeepsMatches(cfg.catalog);
    KnownCnCandidatesSpec(pool, |cards|, Boost(cfg.catalog));
    forall c | c in FcCandidates(cfg, cards).value ensures c == WithBoost(c, cfg.catalog) && c.realWorldBoost >= 0 {
      WithBoostSpec(FCCandidate(c.fcValue, c.matches, 1.0, 0, None), cfg.catalog);
    }
  }

  /** `score_candidate` inside `get_best_fc_candidates`. */
  function Score(c: FCCandidate): real {
    c.consistencyScore * 100.0 + CardCount(c) as real * 50.0 + c.realWorldBoost as real + LengthBonus(c)
      - RangePenalty(c.fcValue)
  }

  /**
   * The score is 100 per unit of consistency, 50 per card and the boost, plus
   * between -50 and +30 for the field lengths and the FC range; a larger boost
   * adds exactly the difference, and an FC outside 1..65535 costs exactly 50.
   */
  lemma ScoreSpec(c: FCCandidate)
    ensures var base := c.consistencyScore * 100.0 + CardCount(c) as real * 50.0 + c.realWorldBoost as real;
      base - 50.0 <= Score(c) <= base + 30.0
    ensures forall b: int :: Score(c.(realWorldBoost := b)) == Score(c) + (b - c.realWorldBoost) as real
    ensures forall fc: nat :: 1 <= c.fcValue <= 65535 && !(1 <= fc <= 65535) ==>
      Score(c.(fcValue := fc)) == Score(c) - 50.0
  {
    assert forall b: int :: CardCount(c.(realWorldBoost := b)) == CardCount(c);
    assert forall fc: nat :: CardCount(c.(fcValue := fc)) == CardCount(c);
  }

  /** `get_best_fc_candidates` on the outcome of `find_fc_candidates`. */
  function Ranked(found: Result<seq<FCCandidate>>, knownFc: Option<int>, maxCandidates: int): Result<seq<FCCandidate>> {
    match found
    case ValueError(e) => ValueError(e)
    case Ok(cs) => Ok(TopCandidates(cs, knownFc, Score, maxCandidates))
  }

  /**
   * The ranking raises exactly when the search does; otherwise it keeps at
   * most `max_candidates` found candidates, only ones with the known FC when
   * that is set, by non-increasing score, none of the kept candidates left out
   * scoring above a listed one, and candidates of equal score in the order found.
   */
  lemma RankedSpec(found: Result<seq<FCCandidate>>, knownFc: Option<int>, maxCandidates: int)
    ensures Ranked(found, knownFc, maxCandidates).Ok? <==> found.Ok?
    ensures found.ValueError? ==> Ranked(found, knownFc, maxCandidates) == found
    ensures found.Ok? ==>
      var cs := found.value;
      var r := Ranked(found, knownFc, maxCandidates).value;
      && (maxCandidates >= 0 ==> |r| <= maxCandidates)
      && (forall c :: c in r ==> c in cs && (knownFc.None? || c.fcValue == knownFc.value))
      && (forall i, j :: 0 <= i < j < |r| ==> Score(r[i]) >= Score(r[j]))
      && (forall x, y :: x in multiset(KeepFc(cs, knownFc)) - multiset(r) && y in r ==> Score(y) >= Score(x))
      && (forall z :: Ties(r, ByScore(Score), z) <= Ties(KeepFc(cs, knownFc), ByScore(Score), z))
  {
    if found.Ok? {
      TopCandidatesSpec(found.value, knownFc, Score, maxCandidates);
    }
  }

  class RFIDAnalyzer {
    const minBits: int
    const maxBits: int
    const knownFc: Option<int>
    const catalog: Catalog
    var cards: seq<CardData>
    var cardCounter: nat

    function Cfg(): Config
      reads this
    {
      Config(minBits, maxBits, knownFc, catalog)
    }

    /** `__init__`; the format catalog is passed in instead of loaded from a file. */
    constructor(minBits: int, maxBits: int, knownFc: Option<int>, catalog: Catalog)
      ensures this.minBits == minBits && this.maxBits == maxBits && this.knownFc == knownFc
      ensures this.catalog == catalog
      ensures cards == [] && cardCounter == 0
    {
      this.minBits := minBits;
      this.maxBits := maxBits;
      this.knownFc := knownFc;
      this.catalog := catalog;
      cards := [];
      cardCounter := 0;
    }

    /** `add_card`: an unnamed card is named after the advanced counter. */
    method AddCard(hexData: string, knownCn: int, name: Option<string>)
      modifies this
      ensures cardCounter == if name.None? then old(cardCounter) + 1 else old(cardCounter)
      ensures cards == old(cards) +
        [CardData(hexData, knownCn, if name.Some? then name.value else DefaultName(cardCounter))]
    {
      var cardName: string;
      if name.None? {
        cardCounter := cardCounter + 1;
        cardName := DefaultName(cardCounter);
      } else {
        cardName := name.value;
      }
      cards := cards + [CardData(hexData, knownCn, cardName)];
    }

    /** `find_matches_single_card`. */
    method FindMatchesSingleCard(card: CardData) returns (r: Result<seq<Match>>)
      ensures r == MatchesOf(Cfg(), card)
    {
      var raw := HexToBinary(card.hexData);
      if raw.ValueError? {
        return ValueError(raw.input);
      }
      var ms := FindMatches(raw.value, QueryOf(Cfg(), card));
      return Ok(ms);
    }

    /** `find_fc_candidates`. */
    method FindFcCandidates() returns (r: Result<seq<FCCandidate>>)
      ensures r == FcCandidates(Cfg(), cards)
    {
      if cards == [] {
        return Ok([]);
      }
      ghost var rs := Results(Cfg(), cards);
      var allMatches := [];
      for i := 0 to |cards|
        invariant Concat(rs[..i]) == Ok(allMatches)
      {
        ConcatStep(rs, i);
        var found := FindMatchesSingleCard(cards[i]);
        if found.ValueError? {
          ConcatPrefixError(rs, i + 1);
          return ValueError(found.input);
        }
        allMatches := allMatches + found.value;
      }
      assert rs[..|cards|] == rs;
      var fcs, fcGroups := GroupBy(allMatches, ByFc);
      var candidates := [];
      for i := 0 to |fcs|
        invariant candidates == ConsolidateAll(allMatches, |cards|, fcs[..i], Boost(catalog))
      {
        SelectNonEmpty(allMatches, ByFc, fcs[i]);
        ConsolidateAllStep(allMatches, |cards|, fcs, i, Boost(catalog));
        var c := ConsolidateGroup(fcGroups[fcs[i]], fcs[i], |cards|);
        if c.Some? {
          var candidate := ApplyRealWorldBoost(c.value, catalog);
          candidates := candidates + [candidate];
        }
      }
      assert fcs[..|fcs|] == fcs;
      return Ok(candidates);
    }

    /** `get_best_fc_candidates`: restrict to the known FC, sort by score (stably), keep the first `max_candidates`. */
    method GetBestFcCandidates(maxCandidates: int) returns (r: Result<seq<FCCandidate>>)
      ensures r == Ranked(FcCandidates(Cfg(), cards), knownFc, maxCandidates)
    {
      var found := FindFcCandidates();
      if found.ValueError? {
        return ValueError(found.input);
      }
      var kept := KeepFc(found.value, knownFc);
      var sorted := SortDesc(kept, ByScore(Score));
      return Ok(PyPrefix(sorted, maxCandidates));
    }
  }
}
