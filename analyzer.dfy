/**
 * analyzer.py: the current engine. A card may come without a known CN; one
 * such card switches the whole analysis to the unknown-CN policy, which keeps
 * FC values shared by enough cards and picks their best field layout.
 */
module Analyzer {
  import opened Basics
  import opened Bits
  import opened Names
  import opened Matching
  import opened Enumeration
  import opened Grouping
  import opened Best
  import opened Formats
  import opened Consistency
  import opened Ranking
  import opened Pools

  /** A card: its payload, its CN (`None` where the source stores the sentinel -1) and its name. */
  datatype CardData = CardData(hexData: string, knownCn: Option<int>, name: string)

  /** The settings the analysis reads. */
  datatype Config = Config(minBits: int, maxBits: int, knownFc: Option<int>, catalog: Catalog)

  /** `known_cn if known_cn is not None else -1`: an explicit -1 is the sentinel as well. */
  function StoredCn(knownCn: Option<int>): Option<int> {
    if knownCn.Some? && knownCn.value != -1 then knownCn else None
  }

  function QueryOf(cfg: Config, card: CardData): Query {
    Query(cfg.minBits, cfg.maxBits, cfg.knownFc, card.knownCn, card.name)
  }

  /** `find_matches_single_card`; `hex_to_binary` raises on a payload that is not hexadecimal. */
  function MatchesOf(cfg: Config, card: CardData): Result<seq<Match>> {
    match HexToBinary(card.hexData)
    case ValueError(e) => ValueError(e)
    case Ok(raw) => Ok(CardMatches(raw, QueryOf(cfg, card)))
  }

  /**
   * A card's matches exist exactly when its payload is hexadecimal; they are
   * every admissible window/field combination of either bit order, each once,
   * and each is well formed, carries the card's name, lies in a window of the
   * configured length, and passes the FC filter and, for a known CN, the CN filter.
   */
  lemma MatchesOfSpec(cfg: Config, card: CardData)
    ensures MatchesOf(cfg, card).Ok? <==> card.hexData != [] && IsHex(card.hexData)
    ensures MatchesOf(cfg, card).Ok? ==>
      var ms := MatchesOf(cfg, card).value;
      var raw := HexToBinary(card.hexData).value;
      && SigsDistinct(ms)
      && (forall m :: m in ms <==> Found(raw, QueryOf(cfg, card), m))
      && (forall m :: m in ms ==>
            && WellFormed(m) && m.cardName == card.name
            && cfg.minBits <= m.windowLength <= cfg.maxBits && m.windowLength <= 4 * |card.hexData|
            && (cfg.knownFc.Some? ==> m.fcValue == cfg.knownFc.value)
            && (card.knownCn.Some? ==> m.cnValue == card.knownCn.value))
  {
    if MatchesOf(cfg, card).Ok? {
      var raw := HexToBinary(card.hexData).value;
      CardMatchesMem(raw, QueryOf(cfg, card));
      forall m | Found(raw, QueryOf(cfg, card), m)
        ensures WellFormed(m) && m.cardName == card.name
        ensures cfg.minBits <= m.windowLength <= cfg.maxBits && m.windowLength <= 4 * |card.hexData|
        ensures cfg.knownFc.Some? ==> m.fcValue == cfg.knownFc.value
        ensures card.knownCn.Some? ==> m.cnValue == card.knownCn.value
      {
        FoundProperties(raw, QueryOf(cfg, card), m);
      }
    }
  }

  predicate HasUnknownCn(cards: seq<CardData>) {
    exists i | 0 <= i < |cards| :: cards[i].knownCn.None?
  }

  /** Each card's matches, in card order. */
  function Results(cfg: Config, cards: seq<CardData>): (rs: seq<Result<seq<Match>>>)
    ensures |rs| == |cards|
  {
    seq(|cards|, i requires 0 <= i < |cards| => MatchesOf(cfg, cards[i]))
  }

  /** `card_matches[card.name] = ...` for each card, in card order. */
  function NamedResults(cfg: Config, cards: seq<CardData>): (es: seq<(string, Result<seq<Match>>)>)
    ensures |es| == |cards|
  {
    seq(|cards|, i requires 0 <= i < |cards| => (cards[i].name, MatchesOf(cfg, cards[i])))
  }

  /** `_apply_format_matching` as the finishing step of consolidation. */
  function Finish(cat: Catalog): FCCandidate -> FCCandidate {
    c => WithFormat(c, cat)
  }

  lemma FinishKeepsMatches(cat: Catalog)
    ensures KeepsMatches(Finish(cat))
  {
    forall c: FCCandidate ensures Finish(cat)(c).fcValue == c.fcValue && Finish(cat)(c).matches == c.matches &&
      Finish(cat)(c).consistencyScore == c.consistencyScore
    {
      WithFormatSpec(c, cat);
    }
  }

  // ---------------------------------------------------------------------------
  // Known CN.
  // ---------------------------------------------------------------------------

  /** `_find_fc_candidates_known_cn`. */
  function KnownCn(cfg: Config, cards: seq<CardData>): Result<seq<FCCandidate>>
    requires cards != []
  {
    match Concat(Results(cfg, cards))
    case ValueError(e) => ValueError(e)
    case Ok(pool) => Ok(KnownCnCandidates(pool, |cards|, Finish(cfg.catalog)))
  }

  // ---------------------------------------------------------------------------
  // Unknown CN.
  // ---------------------------------------------------------------------------

  /** `if self.known_fc is None or match.fc_value == self.known_fc`, over a list of matches. */
  function FcFiltered(ms: seq<Match>, knownFc: Option<int>): (r: seq<Match>)
    ensures forall m :: m in r <==> m in ms && (knownFc.None? || m.fcValue == knownFc.value)
  {
    if ms == [] then []
    else
      var init := FcFiltered(ms[..|ms| - 1], knownFc);
      assert forall m :: m in ms <==> m in ms[..|ms| - 1] || m == ms[|ms| - 1];
      var last := ms[|ms| - 1];
      init + (if knownFc.None? || last.fcValue == knownFc.value then [last] else [])
  }

  lemma FcFilteredSnoc(ms: seq<Match>, m: Match, knownFc: Option<int>)
    ensures FcFiltered(ms + [m], knownFc) ==
      FcFiltered(ms, knownFc) + (if knownFc.None? || m.fcValue == knownFc.value then [m] else [])
  {
    assert (ms + [m])[..|ms|] == ms;
  }

  lemma FcFilteredStep(prefix: seq<Match>, ms: seq<Match>, j: nat, knownFc: Option<int>)
    requires j < |ms|
    ensures FcFiltered(prefix + ms[..j + 1], knownFc) ==
      FcFiltered(prefix + ms[..j], knownFc) + (if knownFc.None? || ms[j].fcValue == knownFc.value then [ms[j]] else [])
  {
    SnocSlice(prefix, ms, j);
    FcFilteredSnoc(prefix + ms[..j], ms[j], knownFc);
  }

  /** The inner `for match in matches` loop of `fc_all_matches`: extends the filtered prefix by `ms`. */
  method AppendFcFiltered(pool: seq<Match>, ghost prefix: seq<Match>, ms: seq<Match>, knownFc: Option<int>)
    returns (r: seq<Match>)
    requires pool == FcFiltered(prefix, knownFc)
    ensures r == FcFiltered(prefix + ms, knownFc)
  {
    r := pool;
    assert prefix + ms[..0] == prefix;
    for j := 0 to |ms|
      invariant r == FcFiltered(prefix + ms[..j], knownFc)
    {
      FcFilteredStep(prefix, ms, j, knownFc);
      if knownFc.None? || ms[j].fcValue == knownFc.value {
        r := r + [ms[j]];
      }
    }
    assert ms[..|ms|] == ms;
  }

  /** `_is_reasonable_fc_value`. */
  predicate Reasonable(fc: int) {
    1 <= fc <= 65535
  }

  /** `len(card_names_with_fc) >= max(2, len(self.cards) * 0.5)`. */
  predicate EnoughCards(c: nat, n: nat) {
    c as real >= RMax(2.0, n as real * 0.5)
  }

  /** `best_coverage >= max(2, len(card_names) * 0.8)`. */
  predicate GoodCoverage(k: int, names: nat) {
    k as real >= RMax(2.0, names as real * 0.8)
  }

  /** The two gates in whole numbers: at least 2 cards and half of all cards; at least 2 cards and 80%. */
  lemma GatesInIntegers(c: nat, n: nat, k: int)
    ensures EnoughCards(c, n) <==> c >= 2 && 2 * c >= n
    ensures GoodCoverage(k, c) <==> k >= 2 && 5 * k >= 4 * c
  {
  }

  /** The signature groups of `g` in dict order, each scored by the number of cards it covers. */
  function Coverages(g: seq<Match>): (xs: seq<Scored<seq<Match>>>)
    ensures |xs| == |KeyOrder(g, GetSignature)|
  {
    var sigs := KeyOrder(g, GetSignature);
    seq(|sigs|, i requires 0 <= i < |sigs| =>
      Scored(|CardNames(Select(g, GetSignature, sigs[i]))|, Select(g, GetSignature, sigs[i])))
  }

  /** The running best over the signature groups, starting from coverage 0 and no matches. */
  function BestCoverage(g: seq<Match>): Scored<seq<Match>> {
    RunningBest(Coverages(g), Scored(0, []))
  }

  /** The `max` key of the fallback as one number: the four 0/1 preferences as binary digits. */
  function PreferenceKey(m: Match): nat {
    8 * (if 8 <= m.fcLength <= 16 then 1 else 0) +
    4 * (if 8 <= m.cnLength <= 24 then 1 else 0) +
    2 * (if m.reverse then 0 else 1) +
    (if 26 <= m.windowLength <= 37 then 1 else 0)
  }

  /** The `max` key of the fallback as the source's tuple. */
  function PreferenceTuple(m: Match): (int, int, int, int) {
    (if 8 <= m.fcLength <= 16 then 1 else 0, if 8 <= m.cnLength <= 24 then 1 else 0,
     if m.reverse then 0 else 1, if 26 <= m.windowLength <= 37 then 1 else 0)
  }

  /** Python's `<` on 4-tuples. */
  predicate TupleLess(a: (int, int, int, int), b: (int, int, int, int)) {
    a.0 < b.0 || (a.0 == b.0 && (a.1 < b.1 || (a.1 == b.1 && (a.2 < b.2 || (a.2 == b.2 && a.3 < b.3)))))
  }

  /** Comparing the numeric key is comparing the tuples, so `max` picks the same match. */
  lemma PreferenceKeyIsTupleOrder(a: Match, b: Match)
    ensures PreferenceKey(a) < PreferenceKey(b) <==> TupleLess(PreferenceTuple(a), PreferenceTuple(b))
    ensures PreferenceKey(a) == PreferenceKey(b) <==> PreferenceTuple(a) == PreferenceTuple(b)
  {
  }

  function Keyed(ms: seq<Match>): (xs: seq<Scored<Match>>)
    ensures |xs| == |ms|
  {
    seq(|ms|, i requires 0 <= i < |ms| => Scored(PreferenceKey(ms[i]), ms[i]))
  }

  lemma CardHasMatches(g: seq<Match>, name: string)
    requires name in CardNames(g)
    ensures Select(g, ByCard, name) != []
  {
    SelectMem(g, ByCard, name);
    var x :| x in g && x.cardName == name;
    assert x in Select(g, ByCard, name);
  }

  /** `max(card_matches, key=...)` for one card: its first match of largest preference. */
  function Representative(g: seq<Match>, name: string): Match
    requires name in CardNames(g)
  {
    CardHasMatches(g, name);
    FirstMax(Keyed(Select(g, ByCard, name))).item
  }

  /** The representatives of the cards of `g` outside `left`, one per card. */
  ghost predicate PickedSoFar(g: seq<Match>, left: set<string>, reps: seq<Match>) {
    && left <= CardNames(g)
    && |reps| + |left| == |CardNames(g)|
    && NamesDistinct(reps)
    && forall i :: 0 <= i < |reps| ==>
         reps[i].cardName in CardNames(g) - left && reps[i] == Representative(g, reps[i].cardName)
  }

  lemma PickStep(g: seq<Match>, left: set<string>, reps: seq<Match>, name: string)
    requires PickedSoFar(g, left, reps) && name in left
    ensures PickedSoFar(g, left - {name}, reps + [Representative(g, name)])
  {
    RepresentativeCard(g, name);
    var r := Representative(g, name);
    var reps', left' := reps + [r], left - {name};
    assert |left'| == |left| - 1;
    forall i | 0 <= i < |reps'|
      ensures reps'[i].cardName in CardNames(g) - left' && reps'[i] == Representative(g, reps'[i].cardName)
    {
      if i < |reps| {
        assert reps'[i] == reps[i];
      }
    }
    forall i, j | 0 <= i < j < |reps'| ensures reps'[i].cardName != reps'[j].cardName {
      assert reps'[i] == reps[i];
      if j < |reps| {
        assert reps'[j] == reps[j];
      } else {
        assert reps[i].cardName !in left;
      }
    }
  }

  lemma PickDone(g: seq<Match>, reps: seq<Match>)
    requires PickedSoFar(g, {}, reps)
    ensures Representatives(g, reps)
  {
  }

  lemma RepresentativeCard(g: seq<Match>, name: string)
    requires name in CardNames(g)
    ensures Representative(g, name).cardName == name
  {
    RepresentativeSpec(g, name);
  }

  /**
   * A card's representative is one of its matches, no match of that card is
   * preferred to it, and it is the first of the card's matches with its preference.
   */
  lemma RepresentativeSpec(g: seq<Match>, name: string)
    requires name in CardNames(g)
    ensures var r := Representative(g, name);
      && r in g && r.cardName == name
      && (forall m :: m in g && m.cardName == name ==> PreferenceKey(m) <= PreferenceKey(r))
      && exists i :: 0 <= i < |Select(g, ByCard, name)| && Select(g, ByCard, name)[i] == r &&
                     forall j :: 0 <= j < i ==> PreferenceKey(Select(g, ByCard, name)[j]) < PreferenceKey(r)
  {
    CardHasMatches(g, name);
    var ms := Select(g, ByCard, name);
    SelectMem(g, ByCard, name);
    var b := FirstMax(Keyed(ms));
    var i :| 0 <= i < |ms| && Keyed(ms)[i] == b && forall j :: 0 <= j < i ==> Keyed(ms)[j].score < b.score;
    assert ms[i] == b.item;
    assert forall j :: 0 <= j < i ==> PreferenceKey(ms[j]) < PreferenceKey(b.item) by {
      forall j | 0 <= j < i ensures PreferenceKey(ms[j]) < PreferenceKey(b.item) {
        assert Keyed(ms)[j].score == PreferenceKey(ms[j]);
      }
    }
    forall m | m in g && m.cardName == name ensures PreferenceKey(m) <= PreferenceKey(b.item) {
      var k :| 0 <= k < |ms| && ms[k] == m;
      assert Keyed(ms)[k].score <= b.score;
    }
  }

  /** The fallback: one representative per card name with a match, in some order. */
  ghost predicate Representatives(g: seq<Match>, reps: seq<Match>) {
    && |reps| == |CardNames(g)|
    && NamesDistinct(reps)
    && (forall i :: 0 <= i < |reps| ==> reps[i].cardName in CardNames(g) && reps[i] == Representative(g, reps[i].cardName))
  }

  /**
   * What `_find_best_pattern_for_fc` may return for the group `g`: the matches
   * of the best-covering signature when it covers enough cards, and otherwise
   * the representatives. The order of the representatives follows a Python set,
   * so only their contents are fixed.
   */
  ghost predicate BestPatternOk(g: seq<Match>, best: seq<Match>) {
    if GoodCoverage(BestCoverage(g).score, |CardNames(g)|) then best == BestCoverage(g).item
    else Representatives(g, best)
  }

  /**
   * What `_find_fc_candidates_unknown_cn` may return for the FC values `fcs`
   * (in dict order) of the pooled matches of `n` cards. Values outside
   * 1..65535 and values on too few cards are skipped; an empty best pattern
   * would be skipped too.
   */
  ghost predicate CandidatesFrom(pool: seq<Match>, n: nat, fcs: seq<nat>, cs: seq<FCCandidate>, cat: Catalog)
    requires n >= 1
    decreases |fcs|
  {
    if fcs == [] then cs == []
    else
      var init, fc := fcs[..|fcs| - 1], fcs[|fcs| - 1];
      var g := Select(pool, ByFc, fc);
      if !Reasonable(fc) || !EnoughCards(|CardNames(g)|, n) then CandidatesFrom(pool, n, init, cs, cat)
      else
        || (BestPatternOk(g, []) && CandidatesFrom(pool, n, init, cs, cat))
        || (&& cs != []
            && CandidatesFrom(pool, n, init, cs[..|cs| - 1], cat)
            && var c := cs[|cs| - 1];
               && c.matches != [] && BestPatternOk(g, c.matches)
               && c == WithFormat(FCCandidate(fc, c.matches, |CardNames(g)| as real / n as real, 0, None), cat))
  }

  /** No signature group covers more cards than the best coverage. */
  lemma CoverageIsMax(g: seq<Match>, sig: Signature)
    ensures |CardNames(Select(g, GetSignature, sig))| <= BestCoverage(g).score
  {
    var xs := Coverages(g);
    var sigs := KeyOrder(g, GetSignature);
    RunningBestSpec(xs, Scored(0, []));
    SelectNonEmpty(g, GetSignature, sig);
    if sig in sigs {
      var i :| 0 <= i < |sigs| && sigs[i] == sig;
      assert xs[i].score <= BestCoverage(g).score;
    }
  }

  /** A positive best coverage belongs to the first signature group reaching it, at index `i`. */
  lemma CoverageIsFirst(g: seq<Match>) returns (i: nat)
    requires BestCoverage(g).score > 0
    ensures i < |KeyOrder(g, GetSignature)|
    ensures BestCoverage(g) == Coverages(g)[i]
    ensures forall j :: 0 <= j < i ==> Coverages(g)[j].score < BestCoverage(g).score
  {
    var xs := Coverages(g);
    RunningBestSpec(xs, Scored(0, []));
    i :| 0 <= i < |xs| && xs[i] == BestCoverage(g) && forall j :: 0 <= j < i ==> xs[j].score < xs[i].score;
  }

  /**
   * When the best signature covers at least 2 cards and 80% of the cards of
   * the group, the result is exactly that signature's matches: no signature
   * covers more cards, and every signature met before it covers fewer.
   */
  lemma BestPatternCoverage(g: seq<Match>, best: seq<Match>)
    requires BestPatternOk(g, best)
    requires GoodCoverage(BestCoverage(g).score, |CardNames(g)|)
    ensures var k := BestCoverage(g).score;
      var sigs := KeyOrder(g, GetSignature);
      && k >= 2 && 5 * k >= 4 * |CardNames(g)|
      && (forall sig :: |CardNames(Select(g, GetSignature, sig))| <= k)
      && exists i :: 0 <= i < |sigs| && best == Select(g, GetSignature, sigs[i]) && |CardNames(best)| == k &&
           forall j :: 0 <= j < i ==> |CardNames(Select(g, GetSignature, sigs[j]))| < k
  {
    GatesInIntegers(|CardNames(g)|, |CardNames(g)|, BestCoverage(g).score);
    forall sig ensures |CardNames(Select(g, GetSignature, sig))| <= BestCoverage(g).score {
      CoverageIsMax(g, sig);
    }
    var sigs := KeyOrder(g, GetSignature);
    var i := CoverageIsFirst(g);
    forall j | 0 <= j < i ensures |CardNames(Select(g, GetSignature, sigs[j]))| < BestCoverage(g).score {
      assert Coverages(g)[j].score < BestCoverage(g).score;
    }
  }

  /**
   * Otherwise the result holds exactly one match per card name of the group,
   * every card of the group is represented, and each match is one of its
   * card's most preferred matches.
   */
  lemma BestPatternFallback(g: seq<Match>, best: seq<Match>)
    requires BestPatternOk(g, best)
    requires !GoodCoverage(BestCoverage(g).score, |CardNames(g)|)
    ensures |best| == |CardNames(g)| && NamesDistinct(best) && CardNames(best) == CardNames(g)
    ensures forall r :: r in best ==> r in g
    ensures forall r, m :: r in best && m in g && m.cardName == r.cardName ==> PreferenceKey(m) <= PreferenceKey(r)
  {
    forall r | r in best
      ensures r in g
      ensures forall m :: m in g && m.cardName == r.cardName ==> PreferenceKey(m) <= PreferenceKey(r)
    {
      var i :| 0 <= i < |best| && best[i] == r;
      RepresentativeSpec(g, r.cardName);
    }
    NamesDistinctCount(best);
    SubsetSize(CardNames(best), CardNames(g));
  }

  /** A group with matches always yields a non-empty pattern, so the `if best_matches` test always passes. */
  lemma BestPatternNonEmpty(g: seq<Match>, best: seq<Match>)
    requires g != []
    ensures BestPatternOk(g, best) ==> best != [] && forall m :: m in best ==> m in g
  {
    if !BestPatternOk(g, best) {
      return;
    }
    NamesBound(g);
    if GoodCoverage(BestCoverage(g).score, |CardNames(g)|) {
      BestPatternCoverage(g, best);
      var sigs := KeyOrder(g, GetSignature);
      var i :| 0 <= i < |sigs| && best == Select(g, GetSignature, sigs[i]) && |CardNames(best)| == BestCoverage(g).score;
      SelectMem(g, GetSignature, sigs[i]);
    } else {
      BestPatternFallback(g, best);
    }
  }

  /** The pooled matches of the unknown-CN policy: the dict's values in key order, FC-filtered. */
  function UnknownPool(cfg: Config, d: Dict<seq<Match>>): seq<Match>
    requires Valid(d)
  {
    FcFiltered(Values(d, d.keys), cfg.knownFc)
  }

  /** `_find_fc_candidates_unknown_cn`: a failing card raises; otherwise the candidates above. */
  ghost predicate UnknownCnOk(cfg: Config, cards: seq<CardData>, r: Result<seq<FCCandidate>>)
    requires cards != []
  {
    match FromEntries(NamedResults(cfg, cards))
    case ValueError(e) => r == ValueError(e)
    case Ok(_) =>
      var pool := UnknownCnPool(cfg, cards);
      r.Ok? && CandidatesFrom(pool, |cards|, KeyOrder(pool, ByFc), r.value, cfg.catalog)
  }

  /** `fc_all_matches` flattened: the pooled matches of every card, once the dict of matches is built. */
  ghost function UnknownCnPool(cfg: Config, cards: seq<CardData>): seq<Match>
    requires FromEntries(NamedResults(cfg, cards)).Ok?
  {
    FromEntriesKeys(NamedResults(cfg, cards));
    UnknownPool(cfg, FromEntries(NamedResults(cfg, cards)).value)
  }

  /** `find_fc_candidates`: nothing for no cards, the unknown-CN policy iff some CN is unknown. */
  ghost predicate FcCandidatesOk(cfg: Config, cards: seq<CardData>, r: Result<seq<FCCandidate>>) {
    if cards == [] then r == Ok([])
    else if HasUnknownCn(cards) then UnknownCnOk(cfg, cards, r)
    else r == KnownCn(cfg, cards)
  }

  // ---------------------------------------------------------------------------
  // Scoring and ranking.
  // ---------------------------------------------------------------------------

  /** The name of a matched format counts only when it is non-empty (Python truthiness). */
  function FormatBonus(c: FCCandidate): real {
    if c.matchedFormat.Some? && c.matchedFormat.value != "" then 100.0 else 0.0
  }

  /** The +25 for a candidate on several cards all of whose CN values are the sentinel -1. */
  function SentinelBonus(c: FCCandidate): real {
    if !(exists m :: m in c.matches && m.cnValue as int != -1) && CardCount(c) > 1 then 25.0 else 0.0
  }

  /** `_score_candidate`. */
  function Score(c: FCCandidate): real {
    c.consistencyScore * 100.0 + CardCount(c) as real * 50.0 + FormatBonus(c) + LengthBonus(c)
      - RangePenalty(c.fcValue) + SentinelBonus(c)
  }

  /**
   * The +25 never applies, because every CN value is a parsed, non-negative
   * number; the score is 100 per unit of consistency and 50 per card, plus
   * between -50 and +130 for the format, the field lengths and the FC range,
   * and a matched format is worth exactly 100.
   */
  lemma ScoreSpec(c: FCCandidate)
    ensures SentinelBonus(c) == 0.0
    ensures var base := c.consistencyScore * 100.0 + CardCount(c) as real * 50.0;
      base - 50.0 <= Score(c) <= base + 130.0
    ensures forall name :: name != "" && c.matchedFormat == None ==>
      Score(c.(matchedFormat := Some(name))) == Score(c) + 100.0
  {
    if CardCount(c) > 1 {
      assert c.matches[0] in c.matches;
    }
    forall name | name != "" && c.matchedFormat == None
      ensures Score(c.(matchedFormat := Some(name))) == Score(c) + 100.0
    {
      var c' := c.(matchedFormat := Some(name));
      assert CardCount(c') == CardCount(c) && SentinelBonus(c') == SentinelBonus(c);
    }
  }

  /** `get_best_candidates` on the outcome of `find_fc_candidates`. */
  function Ranked(found: Result<seq<FCCandidate>>, knownFc: Option<int>, maxCandidates: int): Result<seq<FCCandidate>> {
    match found
    case ValueError(e) => ValueError(e)
    case Ok(cs) => Ok(TopCandidates(cs, knownFc, Score, maxCandidates))
  }

  // ---------------------------------------------------------------------------
  // Unknown-CN summary.
  // ---------------------------------------------------------------------------

  /** The pattern key `f"{wl}b_FC{fl}@{fs}_CN{cl}@{cs}"`, as the five numbers it spells. */
  datatype Layout = Layout(windowLength: nat, fcLength: nat, fcStart: nat, cnLength: nat, cnStart: nat)

  function LayoutOf(m: Match): Layout {
    Layout(m.windowLength, m.fcLength, m.fcStart, m.cnLength, m.cnStart)
  }

  /** The dict `analyze_unknown_cn_patterns` returns when some CN is unknown. */
  datatype Analysis = Analysis(
    totalCards: nat,
    cardsWithUnknownCn: nat,
    potentialFcValues: set<nat>,
    mostCommonFcValues: seq<Tally<nat>>,
    commonPatterns: seq<Tally<Layout>>)

  function UnknownCount(cards: seq<CardData>): (k: nat)
    ensures k <= |cards|
    ensures k >= 1 <==> HasUnknownCn(cards)
  {
    if cards == [] then 0
    else
      var init := cards[..|cards| - 1];
      assert HasUnknownCn(cards) <==> HasUnknownCn(init) || cards[|cards| - 1].knownCn.None? by {
        assert forall i :: 0 <= i < |init| ==> init[i] == cards[i];
      }
      UnknownCount(init) + (if cards[|cards| - 1].knownCn.None? then 1 else 0)
  }

  /** The matches of the cards whose CN is unknown, in card order. */
  function UnknownResults(cfg: Config, cards: seq<CardData>): seq<Result<seq<Match>>> {
    if cards == [] then []
    else
      UnknownResults(cfg, cards[..|cards| - 1]) +
        (if cards[|cards| - 1].knownCn.None? then [MatchesOf(cfg, cards[|cards| - 1])] else [])
  }

  /** One `(key, count)` item of a `defaultdict(int)`. */
  datatype Tally<K> = Tally(key: K, count: nat)

  /** `defaultdict(int)` counts by `key`, as its `items()`: each key once, in first-seen order, with its count. */
  function Tallies<K(==)>(ms: seq<Match>, key: Match -> K): (ps: seq<Tally<K>>)
    ensures |ps| == |KeyOrder(ms, key)|
  {
    var ks := KeyOrder(ms, key);
    seq(|ks|, i requires 0 <= i < |ks| => Tally(ks[i], |Select(ms, key, ks[i])|))
  }

  /** The sort key `lambda x: x[1]`. */
  function Frequency<K>(t: Tally<K>): real { t.count as real }

  /** `analyze_unknown_cn_patterns`: `None` stands for the empty dict returned when every CN is known. */
  function Summary(cfg: Config, cards: seq<CardData>): Result<Option<Analysis>> {
    if !HasUnknownCn(cards) then Ok(None)
    else
      match Concat(UnknownResults(cfg, cards))
      case ValueError(e) => ValueError(e)
      case Ok(ms) =>
        Ok(Some(Analysis(|cards|, UnknownCount(cards), set m | m in ms :: m.fcValue,
                         PyPrefix(SortDesc(Tallies(ms, ByFc), ByScore(Frequency)), 10),
                         PyPrefix(SortDesc(Tallies(ms, LayoutOf), ByScore(Frequency)), 5))))
  }

  // ---------------------------------------------------------------------------
  // The analyzer object.
  // ---------------------------------------------------------------------------

  class RFIDAnalyzer {
    const minBits: int
    const maxBits: int
    const knownFc: Option<int>
    const unknownCnMode: bool
    const catalog: Catalog
    var cards: seq<CardData>
    var cardCounter: nat

    function Cfg(): Config {
      Config(minBits, maxBits, knownFc, catalog)
    }

    /** `__init__`; the format catalog is passed in instead of loaded from a file. */
    constructor(minBits: int, maxBits: int, knownFc: Option<int>, unknownCnMode: bool, catalog: Catalog)
      ensures this.minBits == minBits && this.maxBits == maxBits && this.knownFc == knownFc
      ensures this.unknownCnMode == unknownCnMode && this.catalog == catalog
      ensures cards == [] && cardCounter == 0
    {
      this.minBits, this.maxBits, this.knownFc := minBits, maxBits, knownFc;
      this.unknownCnMode, this.catalog := unknownCnMode, catalog;
      cards, cardCounter := [], 0;
    }

    /** `add_card`: an unnamed card takes the next `Card_NNN` name; a missing CN becomes unknown. */
    method AddCard(hexData: string, knownCn: Option<int>, name: Option<string>)
      modifies this
      ensures cardCounter == if name.None? then old(cardCounter) + 1 else old(cardCounter)
      ensures cards == old(cards) +
        [CardData(hexData, StoredCn(knownCn), if name.Some? then name.value else DefaultName(cardCounter))]
    {
      var cardName: string;
      if name.None? {
        cardCounter := cardCounter + 1;
        cardName := DefaultName(cardCounter);
      } else {
        cardName := name.value;
      }
      cards := cards + [CardData(hexData, StoredCn(knownCn), cardName)];
    }

    /** `find_matches_single_card`, with `_find_fc_cn_combinations` for each window. */
    method FindMatchesSingleCard(card: CardData) returns (r: Result<seq<Match>>)
      ensures r == MatchesOf(Cfg(), card)
    {
      var raw := HexToBinary(card.hexData);
      if raw.ValueError? {
        return ValueError(raw.input);
      }
      var ms := FindMatches(raw.value, QueryOf(Cfg(), card));
      return Ok(ms);
    }

    /** `find_fc_candidates`. */
    method FindFcCandidates() returns (r: Result<seq<FCCandidate>>)
      ensures FcCandidatesOk(Cfg(), cards, r)
    {
      if cards == [] {
        return Ok([]);
      }
      var hasUnknownCn := exists i | 0 <= i < |cards| :: cards[i].knownCn.None?;
      if hasUnknownCn {
        r := FindFcCandidatesUnknownCn();
      } else {
        r := FindFcCandidatesKnownCn();
      }
    }

    /** `_find_fc_candidates_known_cn`. */
    method FindFcCandidatesKnownCn() returns (r: Result<seq<FCCandidate>>)
      requires cards != []
      ensures r == KnownCn(Cfg(), cards)
    {
      ghost var rs := Results(Cfg(), cards);
      var allMatches := [];
      for i := 0 to |cards|
        invariant Concat(rs[..i]) == Ok(allMatches)
      {
        ConcatStep(rs, i);
        var found := FindMatchesSingleCard(cards[i]);
        if found.ValueError? {
          ConcatPrefixError(rs, i + 1);
          return ValueError(found.input);
        }
        allMatches := allMatches + found.value;
      }
      assert rs[..|cards|] == rs;
      var fcs, fcGroups := GroupBy(allMatches, ByFc);
      var candidates := [];
      for i := 0 to |fcs|
        invariant candidates == ConsolidateAll(allMatches, |cards|, fcs[..i], Finish(catalog))
      {
        SelectNonEmpty(allMatches, ByFc, fcs[i]);
        ConsolidateAllStep(allMatches, |cards|, fcs, i, Finish(catalog));
        var c := ConsolidateGroup(fcGroups[fcs[i]], fcs[i], |cards|);
        if c.Some? {
          var candidate := ApplyFormatMatching(c.value, catalog);
          candidates := candidates + [candidate];
        }
      }
      assert fcs[..|fcs|] == fcs;
      return Ok(candidates);
    }

    /** `_find_fc_candidates_unknown_cn`. */
    method FindFcCandidatesUnknownCn() returns (r: Result<seq<FCCandidate>>)
      requires cards != []
      ensures UnknownCnOk(Cfg(), cards, r)
    {
      ghost var es := NamedResults(Cfg(), cards);
      var names: seq<string> := [];
      var cardMatches: map<string, seq<Match>> := map[];
      for i := 0 to |cards|
        invariant FromEntries(es[..i]) == Ok(Dict(names, cardMatches))
      {
        FromEntriesStep(es, i);
        var found := FindMatchesSingleCard(cards[i]);
        if found.ValueError? {
          FromEntriesPrefixError(es, i + 1);
          return ValueError(found.input);
        }
        var name := cards[i].name;
        if name !in cardMatches {
          names := names + [name];
        }
        cardMatches := cardMatches[name := found.value];
      }
      assert es[..|cards|] == es;
      var d := Dict(names, cardMatches);
      FromEntriesKeys(es);
      var pool := CollectByFc(d);
      var candidates := ConsolidateUnknownCn(pool, |cards|);
      return Ok(candidates);
    }

    /** The `fc_all_matches` loop: the dict's matches in key order, FC-filtered. */
    method CollectByFc(d: Dict<seq<Match>>) returns (pool: seq<Match>)
      requires Valid(d)
      ensures pool == UnknownPool(Cfg(), d)
    {
      pool := [];
      var names := d.keys;
      for i := 0 to |names|
        invariant pool == FcFiltered(Values(d, names[..i]), knownFc)
      {
        ValuesStep(d, names, i);
        pool := AppendFcFiltered(pool, Values(d, names[..i]), d.values[names[i]], knownFc);
      }
      assert names[..|names|] == names;
    }

    /** The `for fc_value, all_matches in fc_all_matches.items()` loop. */
    method ConsolidateUnknownCn(pool: seq<Match>, n: nat) returns (candidates: seq<FCCandidate>)
      requires n >= 1
      ensures CandidatesFrom(pool, n, KeyOrder(pool, ByFc), candidates, catalog)
    {
      var fcs, fcGroups := GroupBy(pool, ByFc);
      candidates := [];
      for i := 0 to |fcs|
        invariant CandidatesFrom(pool, n, fcs[..i], candidates, catalog)
      {
        var fc := fcs[i];
        assert fcs[..i + 1][..i] == fcs[..i];
        if Reasonable(fc) {
          var allMatches := fcGroups[fc];
          var cardNamesWithFc := CardNames(allMatches);
          var minCardThreshold := RMax(2.0, n as real * 0.5);
          if |cardNamesWithFc| as real >= minCardThreshold {
            var best := FindBestPatternForFc(allMatches, cardNamesWithFc);
            if best != [] {
              var candidate := FCCandidate(fc, best, |cardNamesWithFc| as real / n as real, 0, None);
              candidate := ApplyFormatMatching(candidate, catalog);
              candidates := candidates + [candidate];
            }
          }
        }
      }
      assert fcs[..|fcs|] == fcs;
    }

    /** `_find_best_pattern_for_fc`. */
    method FindBestPatternForFc(allMatches: seq<Match>, cardNames: set<string>) returns (best: seq<Match>)
      requires cardNames == CardNames(allMatches)
      ensures BestPatternOk(allMatches, best)
    {
      var bestCoverage, bestMatches := FindBestCoverage(allMatches);
      if bestCoverage as real >= RMax(2.0, |cardNames| as real * 0.8) {
        return bestMatches;
      }
      best := PickRepresentatives(allMatches, cardNames);
    }

    /** The running best over the signature groups in `_find_best_pattern_for_fc`. */
    method FindBestCoverage(allMatches: seq<Match>) returns (bestCoverage: int, bestMatches: seq<Match>)
      ensures Scored(bestCoverage, bestMatches) == BestCoverage(allMatches)
    {
      var sigs, patternGroups := GroupBy(allMatches, GetSignature);
      ghost var xs := Coverages(allMatches);
      bestCoverage, bestMatches := 0, [];
      for i := 0 to |sigs|
        invariant Scored(bestCoverage, bestMatches) == RunningBest(xs[..i], Scored(0, []))
      {
        RunningBestStep(xs, Scored(0, []), i);
        var patternMatches := patternGroups[sigs[i]];
        var coverage := |CardNames(patternMatches)|;
        if coverage > bestCoverage {
          bestCoverage, bestMatches := coverage, patternMatches;
        }
      }
      assert xs[..|sigs|] == xs;
    }

    /** The fallback of `_find_best_pattern_for_fc`: one `max` per card name, in set order. */
    method PickRepresentatives(allMatches: seq<Match>, cardNames: set<string>) returns (reps: seq<Match>)
      requires cardNames == CardNames(allMatches)
      ensures Representatives(allMatches, reps)
    {
      reps := [];
      var left := cardNames;
      while left != {}
        invariant PickedSoFar(allMatches, left, reps)
        decreases |left|
      {
        var cardName :| cardName in left;
        var matchesOfCard := Select(allMatches, ByCard, cardName);
        CardHasMatches(allMatches, cardName);
        if matchesOfCard != [] {
          var b := FirstMax(Keyed(matchesOfCard));
          PickStep(allMatches, left, reps, cardName);
          reps := reps + [b.item];
        }
        left := left - {cardName};
      }
      PickDone(allMatches, reps);
    }

    /** `get_best_candidates`. */
    method GetBestCandidates(maxCandidates: int) returns (r: Result<seq<FCCandidate>>)
      ensures exists found :: FcCandidatesOk(Cfg(), cards, found) && r == Ranked(found, knownFc, maxCandidates)
    {
      var found := FindFcCandidates();
      if found.ValueError? {
        return ValueError(found.input);
      }
      var candidates := KeepFc(found.value, knownFc);
      candidates := SortDesc(candidates, ByScore(Score));
      return Ok(PyPrefix(candidates, maxCandidates));
    }

    /** `analyze_unknown_cn_patterns`. */
    method AnalyzeUnknownCnPatterns() returns (r: Result<Option<Analysis>>)
      ensures r == Summary(Cfg(), cards)
    {
      var hasUnknownCn := exists i | 0 <= i < |cards| :: cards[i].knownCn.None?;
      if !hasUnknownCn {
        return Ok(None);
      }
      var total := |cards|;
      var unknownCards := UnknownCount(cards);
      ghost var rs := UnknownResults(Cfg(), cards);
      var unknownCnMatches := [];
      for i := 0 to |cards|
        invariant Concat(UnknownResults(Cfg(), cards[..i])) == Ok(unknownCnMatches)
      {
        assert cards[..i + 1][..i] == cards[..i];
        ghost var prev := UnknownResults(Cfg(), cards[..i]);
        assert UnknownResults(Cfg(), cards[..i + 1]) ==
          prev + (if cards[i].knownCn.None? then [MatchesOf(Cfg(), cards[i])] else []);
        if !cards[i].knownCn.None? {
          assert prev + [] == prev;
        }
        if cards[i].knownCn.None? {
          var found := FindMatchesSingleCard(cards[i]);
          ConcatSnoc(UnknownResults(Cfg(), cards[..i]), found);
          if found.ValueError? {
            UnknownResultsStep(Cfg(), cards, i);
            var k := |UnknownResults(Cfg(), cards[..i + 1])|;
            assert rs[..k] == UnknownResults(Cfg(), cards[..i + 1]);
            ConcatPrefixError(rs, k);
            return ValueError(found.input);
          }
          unknownCnMatches := unknownCnMatches + found.value;
        }
      }
      assert cards[..|cards|] == cards;
      var fcs, fcDistribution := CountBy(unknownCnMatches, ByFc);
      var fcItems := seq(|fcs|, i requires 0 <= i < |fcs| => Tally(fcs[i], fcDistribution[fcs[i]]));
      assert fcItems == Tallies(unknownCnMatches, ByFc);
      var layouts, patternDistribution := CountBy(unknownCnMatches, LayoutOf);
      var layoutItems := seq(|layouts|, i requires 0 <= i < |layouts| => Tally(layouts[i], patternDistribution[layouts[i]]));
      assert layoutItems == Tallies(unknownCnMatches, LayoutOf);
      var potential := set m | m in unknownCnMatches :: m.fcValue;
      var analysis := Analysis(total, unknownCards, potential,
        PyPrefix(SortDesc(fcItems, ByScore(Frequency)), 10),
        PyPrefix(SortDesc(layoutItems, ByScore(Frequency)), 5));
      return Ok(Some(analysis));
    }
  }

  /** The unknown-CN cards of a prefix are a prefix of those of the whole list. */
  lemma {:induction false} UnknownResultsStep(cfg: Config, cards: seq<CardData>, i: nat)
    requires i < |cards|
    ensures UnknownResults(cfg, cards[..i + 1]) <= UnknownResults(cfg, cards)
  {
    if i + 1 < |cards| {
      UnknownResultsStep(cfg, cards[..|cards| - 1], i);
      assert cards[..|cards| - 1][..i + 1] == cards[..i + 1];
    } else {
      assert cards[..i + 1] == cards;
    }
  }

  // ---------------------------------------------------------------------------
  // Properties of the consolidation policies.
  // ---------------------------------------------------------------------------

  /** What `_find_fc_candidates_unknown_cn` guarantees of one candidate built from `pool` for `n` cards. */
  ghost predicate Admitted(pool: seq<Match>, n: nat, c: FCCandidate, cat: Catalog)
    requires n >= 1
  {
    var g := Select(pool, ByFc, c.fcValue);
    var k := |CardNames(g)|;
    && Reasonable(c.fcValue) && k >= 2 && 2 * k >= n
    && c.consistencyScore == k as real / n as real && c.realWorldBoost == 0
    && c.matches != [] && BestPatternOk(g, c.matches)
    && c == WithFormat(c.(matchedFormat := None), cat)
  }

  /** When the last FC value passes both gates, the last candidate is built from it. */
  lemma CandidatesFromLast(pool: seq<Match>, n: nat, fcs: seq<nat>, cs: seq<FCCandidate>, cat: Catalog)
    requires n >= 1 && fcs != [] && CandidatesFrom(pool, n, fcs, cs, cat)
    requires Select(pool, ByFc, fcs[|fcs| - 1]) != []
    requires Reasonable(fcs[|fcs| - 1]) && EnoughCards(|CardNames(Select(pool, ByFc, fcs[|fcs| - 1]))|, n)
    ensures cs != [] && CandidatesFrom(pool, n, fcs[..|fcs| - 1], cs[..|cs| - 1], cat)
    ensures cs[|cs| - 1].fcValue == fcs[|fcs| - 1] && Admitted(pool, n, cs[|cs| - 1], cat)
  {
    var fc := fcs[|fcs| - 1];
    var g := Select(pool, ByFc, fc);
    BestPatternNonEmpty(g, []);
    var c := cs[|cs| - 1];
    GatesInIntegers(|CardNames(g)|, n, 0);
    var base := FCCandidate(fc, c.matches, |CardNames(g)| as real / n as real, 0, None);
    WithFormatSpec(base, cat);
    assert c.(matchedFormat := None) == base;
  }

  /** The shape part of the lemma above: the last candidate exists and carries the last FC value. */
  lemma CandidatesFromShape(pool: seq<Match>, n: nat, fcs: seq<nat>, cs: seq<FCCandidate>, cat: Catalog)
    requires n >= 1 && fcs != [] && CandidatesFrom(pool, n, fcs, cs, cat)
    requires Select(pool, ByFc, fcs[|fcs| - 1]) != []
    requires Reasonable(fcs[|fcs| - 1]) && EnoughCards(|CardNames(Select(pool, ByFc, fcs[|fcs| - 1]))|, n)
    ensures cs != [] && CandidatesFrom(pool, n, fcs[..|fcs| - 1], cs[..|cs| - 1], cat)
    ensures cs[|cs| - 1].fcValue == fcs[|fcs| - 1]
  {
    var fc := fcs[|fcs| - 1];
    var g := Select(pool, ByFc, fc);
    BestPatternNonEmpty(g, []);
    var c := cs[|cs| - 1];
    WithFormatSpec(FCCandidate(fc, c.matches, |CardNames(g)| as real / n as real, 0, None), cat);
  }

  /** Every candidate is built from one of the FC values, at most one per value, and is admitted. */
  lemma {:induction false} CandidatesFromAdmitted(pool: seq<Match>, n: nat, fcs: seq<nat>, cs: seq<FCCandidate>, cat: Catalog)
    requires n >= 1 && CandidatesFrom(pool, n, fcs, cs, cat)
    requires forall fc :: fc in fcs ==> Select(pool, ByFc, fc) != []
    ensures |cs| <= |fcs|
    ensures forall c :: c in cs ==> c.fcValue in fcs && Admitted(pool, n, c, cat)
    decreases |fcs|, 1
  {
    if fcs != [] {
      var fc := fcs[|fcs| - 1];
      if !Reasonable(fc) || !EnoughCards(|CardNames(Select(pool, ByFc, fc))|, n) {
        CandidatesFromAdmittedSkip(pool, n, fcs, cs, cat);
      } else {
        CandidatesFromAdmittedTake(pool, n, fcs, cs, cat);
      }
    }
  }

  /** The step of the lemma above for an FC value that fails a gate. */
  lemma {:induction false} CandidatesFromAdmittedSkip(pool: seq<Match>, n: nat, fcs: seq<nat>, cs: seq<FCCandidate>, cat: Catalog)
    requires n >= 1 && fcs != [] && CandidatesFrom(pool, n, fcs, cs, cat)
    requires forall fc :: fc in fcs ==> Select(pool, ByFc, fc) != []
    requires !Reasonable(fcs[|fcs| - 1]) || !EnoughCards(|CardNames(Select(pool, ByFc, fcs[|fcs| - 1]))|, n)
    ensures |cs| <= |fcs|
    ensures forall c :: c in cs ==> c.fcValue in fcs && Admitted(pool, n, c, cat)
    decreases |fcs|, 0
  {
    var init := fcs[..|fcs| - 1];
    assert forall f :: f in init ==> f in fcs;
    CandidatesFromAdmitted(pool, n, init, cs, cat);
  }

  /** The step of the lemma above for an FC value that passes both gates. */
  lemma {:induction false} CandidatesFromAdmittedTake(pool: seq<Match>, n: nat, fcs: seq<nat>, cs: seq<FCCandidate>, cat: Catalog)
    requires n >= 1 && fcs != [] && CandidatesFrom(pool, n, fcs, cs, cat)
    requires forall fc :: fc in fcs ==> Select(pool, ByFc, fc) != []
    requires Reasonable(fcs[|fcs| - 1]) && EnoughCards(|CardNames(Select(pool, ByFc, fcs[|fcs| - 1]))|, n)
    ensures |cs| <= |fcs|
    ensures forall c :: c in cs ==> c.fcValue in fcs && Admitted(pool, n, c, cat)
    decreases |fcs|, 0
  {
    var init := fcs[..|fcs| - 1];
    assert forall f :: f in init ==> f in fcs;
    CandidatesFromLast(pool, n, fcs, cs, cat);
    var pre, c := cs[..|cs| - 1], cs[|cs| - 1];
    CandidatesFromAdmitted(pool, n, init, pre, cat);
    assert cs == pre + [c];
    forall x | x in cs ensures x.fcValue in fcs && Admitted(pool, n, x, cat) {
      if x != c {
        assert x in pre;
      }
    }
  }

  /** Every candidate is built from one of the FC values. */
  lemma {:induction false} CandidatesFromFcs(pool: seq<Match>, n: nat, fcs: seq<nat>, cs: seq<FCCandidate>, cat: Catalog)
    requires n >= 1 && CandidatesFrom(pool, n, fcs, cs, cat)
    requires forall fc :: fc in fcs ==> Select(pool, ByFc, fc) != []
    ensures forall c :: c in cs ==> c.fcValue in fcs
    decreases |fcs|, 1
  {
    if fcs != [] {
      var fc := fcs[|fcs| - 1];
      if !Reasonable(fc) || !EnoughCards(|CardNames(Select(pool, ByFc, fc))|, n) {
        CandidatesFromFcsSkip(pool, n, fcs, cs, cat);
      } else {
        CandidatesFromFcsTake(pool, n, fcs, cs, cat);
      }
    }
  }

  lemma {:induction false} CandidatesFromFcsSkip(pool: seq<Match>, n: nat, fcs: seq<nat>, cs: seq<FCCandidate>, cat: Catalog)
    requires n >= 1 && fcs != [] && CandidatesFrom(pool, n, fcs, cs, cat)
    requires forall fc :: fc in fcs ==> Select(pool, ByFc, fc) != []
    requires var fc := fcs[|fcs| - 1]; !Reasonable(fc) || !EnoughCards(|CardNames(Select(pool, ByFc, fc))|, n)
    ensures forall c :: c in cs ==> c.fcValue in fcs
    decreases |fcs|, 0
  {
    var init := fcs[..|fcs| - 1];
    assert forall f :: f in init ==> f in fcs;
    CandidatesFromFcs(pool, n, init, cs, cat);
  }

  lemma {:induction false} CandidatesFromFcsTake(pool: seq<Match>, n: nat, fcs: seq<nat>, cs: seq<FCCandidate>, cat: Catalog)
    requires n >= 1 && fcs != [] && CandidatesFrom(pool, n, fcs, cs, cat)
    requires forall fc :: fc in fcs ==> Select(pool, ByFc, fc) != []
    requires var fc := fcs[|fcs| - 1]; Reasonable(fc) && EnoughCards(|CardNames(Select(pool, ByFc, fc))|, n)
    ensures forall c :: c in cs ==> c.fcValue in fcs
    decreases |fcs|, 0
  {
    var init := fcs[..|fcs| - 1];
    assert forall f :: f in init ==> f in fcs;
    CandidatesFromShape(pool, n, fcs, cs, cat);
    var pre, c := cs[..|cs| - 1], cs[|cs| - 1];
    CandidatesFromFcs(pool, n, init, pre, cat);
    assert cs == pre + [c];
    forall x | x in cs ensures x.fcValue in fcs {
      if x != c {
        assert x in pre;
      }
    }
  }


  /** The candidates follow the order of the FC values, so no FC value appears twice. */
  lemma {:induction false} CandidatesFromDistinct(pool: seq<Match>, n: nat, fcs: seq<nat>, cs: seq<FCCandidate>, cat: Catalog)
    requires n >= 1 && CandidatesFrom(pool, n, fcs, cs, cat)
    requires Distinct(fcs) && forall fc :: fc in fcs ==> Select(pool, ByFc, fc) != []
    ensures forall i, j :: 0 <= i < j < |cs| ==> cs[i].fcValue != cs[j].fcValue
    decreases |fcs|, 1
  {
    if fcs != [] {
      var fc := fcs[|fcs| - 1];
      if !Reasonable(fc) || !EnoughCards(|CardNames(Select(pool, ByFc, fc))|, n) {
        var init := fcs[..|fcs| - 1];
        assert Distinct(init) && forall f :: f in init ==> f in fcs;
        CandidatesFromDistinct(pool, n, init, cs, cat);
      } else {
        CandidatesFromDistinctTake(pool, n, fcs, cs, cat);
      }
    }
  }

  /** The step of the lemma above for an FC value that passes both gates. */
  lemma {:induction false} CandidatesFromDistinctTake(pool: seq<Match>, n: nat, fcs: seq<nat>, cs: seq<FCCandidate>, cat: Catalog)
    requires n >= 1 && fcs != [] && CandidatesFrom(pool, n, fcs, cs, cat)
    requires Distinct(fcs) && forall fc :: fc in fcs ==> Select(pool, ByFc, fc) != []
    requires Reasonable(fcs[|fcs| - 1]) && EnoughCards(|CardNames(Select(pool, ByFc, fcs[|fcs| - 1]))|, n)
    ensures forall i, j :: 0 <= i < j < |cs| ==> cs[i].fcValue != cs[j].fcValue
    decreases |fcs|, 0
  {
    var init, fc := fcs[..|fcs| - 1], fcs[|fcs| - 1];
    assert Distinct(init) && fc !in init && forall f :: f in init ==> f in fcs;
    CandidatesFromShape(pool, n, fcs, cs, cat);
    var pre := cs[..|cs| - 1];
    CandidatesFromDistinct(pool, n, init, pre, cat);
    CandidatesFromFcs(pool, n, init, pre, cat);
    forall i, j | 0 <= i < j < |cs| ensures cs[i].fcValue != cs[j].fcValue {
      assert cs[i] == pre[i];
      if j < |pre| {
        assert cs[j] == pre[j];
      } else {
        assert pre[i] in pre;
      }
    }
  }

  /** Exactly the FC values that pass the range gate and the card-count gate yield a candidate. */
  lemma {:induction false} CandidatesFromComplete(pool: seq<Match>, n: nat, fcs: seq<nat>, cs: seq<FCCandidate>, cat: Catalog)
    requires n >= 1 && CandidatesFrom(pool, n, fcs, cs, cat)
    requires forall fc :: fc in fcs ==> Select(pool, ByFc, fc) != []
    ensures forall fc :: fc in fcs ==>
      ((exists c :: c in cs && c.fcValue == fc) <==> Reasonable(fc) && EnoughCards(|CardNames(Select(pool, ByFc, fc))|, n))
    decreases |fcs|, 1
  {
    if fcs != [] {
      var fc := fcs[|fcs| - 1];
      if !Reasonable(fc) || !EnoughCards(|CardNames(Select(pool, ByFc, fc))|, n) {
        CandidatesFromCompleteSkip(pool, n, fcs, cs, cat);
      } else {
        CandidatesFromCompleteTake(pool, n, fcs, cs, cat);
      }
    }
  }

  /** The step of the lemma above for an FC value that fails a gate. */
  lemma {:induction false} CandidatesFromCompleteSkip(pool: seq<Match>, n: nat, fcs: seq<nat>, cs: seq<FCCandidate>, cat: Catalog)
    requires n >= 1 && fcs != [] && CandidatesFrom(pool, n, fcs, cs, cat)
    requires forall fc :: fc in fcs ==> Select(pool, ByFc, fc) != []
    requires !Reasonable(fcs[|fcs| - 1]) || !EnoughCards(|CardNames(Select(pool, ByFc, fcs[|fcs| - 1]))|, n)
    ensures forall fc :: fc in fcs ==>
      ((exists c :: c in cs && c.fcValue == fc) <==> Reasonable(fc) && EnoughCards(|CardNames(Select(pool, ByFc, fc))|, n))
    decreases |fcs|, 0
  {
    var init, fc := fcs[..|fcs| - 1], fcs[|fcs| - 1];
    assert forall f :: f in fcs <==> f in init || f == fc;
    assert CandidatesFrom(pool, n, init, cs, cat);
    CandidatesFromComplete(pool, n, init, cs, cat);
    CandidatesFromFcs(pool, n, init, cs, cat);
    forall f | f in fcs
      ensures (exists c :: c in cs && c.fcValue == f) <==> Reasonable(f) && EnoughCards(|CardNames(Select(pool, ByFc, f))|, n)
    {
      if f == fc {
        assert forall c :: c in cs ==> c.fcValue in init;
      }
    }
  }

  /** The step of the lemma above for an FC value that passes both gates. */
  lemma {:induction false} CandidatesFromCompleteTake(pool: seq<Match>, n: nat, fcs: seq<nat>, cs: seq<FCCandidate>, cat: Catalog)
    requires n >= 1 && fcs != [] && CandidatesFrom(pool, n, fcs, cs, cat)
    requires forall fc :: fc in fcs ==> Select(pool, ByFc, fc) != []
    requires Reasonable(fcs[|fcs| - 1]) && EnoughCards(|CardNames(Select(pool, ByFc, fcs[|fcs| - 1]))|, n)
    ensures forall fc :: fc in fcs ==>
      ((exists c :: c in cs && c.fcValue == fc) <==> Reasonable(fc) && EnoughCards(|CardNames(Select(pool, ByFc, fc))|, n))
    decreases |fcs|, 0
  {
    var init, fc := fcs[..|fcs| - 1], fcs[|fcs| - 1];
    assert forall f :: f in fcs <==> f in init || f == fc;
    CandidatesFromShape(pool, n, fcs, cs, cat);
    var pre, c := cs[..|cs| - 1], cs[|cs| - 1];
    CandidatesFromComplete(pool, n, init, pre, cat);
    assert cs == pre + [c];
    forall f | f in fcs
      ensures (exists x :: x in cs && x.fcValue == f) <==> Reasonable(f) && EnoughCards(|CardNames(Select(pool, ByFc, f))|, n)
    {
      if f == fc {
        assert c in cs && c.fcValue == f;
      } else {
        assert f in init;
        assert (exists x :: x in cs && x.fcValue == f) <==> (exists x :: x in pre && x.fcValue == f);
      }
    }
  }

  /** The card names, as a set. */
  function NameSet(cards: seq<CardData>): (names: set<string>)
    ensures |names| <= |cards|
    ensures forall name :: name in names <==> exists i :: 0 <= i < |cards| && cards[i].name == name
  {
    if cards == [] then {}
    else
      var init := cards[..|cards| - 1];
      assert forall i :: 0 <= i < |init| ==> init[i] == cards[i];
      NameSet(init) + {cards[|cards| - 1].name}
  }

  /** Card `i` is the last card with its name, so its matches are the ones the dict keeps. */
  ghost predicate LastOfName(cards: seq<CardData>, i: int) {
    0 <= i < |cards| && forall j :: i < j < |cards| ==> cards[j].name != cards[i].name
  }

  /** `m` is a match of the last card of its name and passes the FC filter. */
  ghost predicate Pooled(cfg: Config, cards: seq<CardData>, m: Match) {
    && (cfg.knownFc.None? || m.fcValue == cfg.knownFc.value)
    && exists i :: LastOfName(cards, i) && MatchesOf(cfg, cards[i]).Ok? && m in MatchesOf(cfg, cards[i]).value
  }

  /** The matches of a key of the dict are those of the last card with that name. */
  lemma DictValueOrigin(cfg: Config, cards: seq<CardData>, k: string) returns (i: nat)
    requires FromEntries(NamedResults(cfg, cards)).Ok?
    requires k in FromEntries(NamedResults(cfg, cards)).value.values
    ensures LastOfName(cards, i) && cards[i].name == k
    ensures MatchesOf(cfg, cards[i]) == Ok(FromEntries(NamedResults(cfg, cards)).value.values[k])
  {
    var es := NamedResults(cfg, cards);
    var v := FromEntries(es).value.values[k];
    FromEntriesLast(es, k);
    i :| 0 <= i < |es| && es[i] == (k, Ok(v)) && forall j :: i < j < |es| ==> es[j].0 != k;
    assert forall j :: 0 <= j < |es| ==> es[j].0 == cards[j].name && es[j].1 == MatchesOf(cfg, cards[j]);
  }

  /** A pooled match comes from the last card of its name, bears that name and passes the FC filter. */
  lemma PoolMatchOrigin(cfg: Config, cards: seq<CardData>, m: Match)
    requires FromEntries(NamedResults(cfg, cards)).Ok? && m in UnknownCnPool(cfg, cards)
    ensures Pooled(cfg, cards, m)
    ensures m.cardName in NameSet(cards)
  {
    var es := NamedResults(cfg, cards);
    FromEntriesKeys(es);
    var d := FromEntries(es).value;
    assert m in Values(d, d.keys);
    ValuesMem(d, d.keys);
    var k :| k in d.keys && m in d.values[k];
    var i := DictValueOrigin(cfg, cards, k);
    MatchesOfSpec(cfg, cards[i]);
  }

  /** Every match of the last card of a name that passes the FC filter is pooled. */
  lemma PoolMatchFromLast(cfg: Config, cards: seq<CardData>, m: Match)
    requires FromEntries(NamedResults(cfg, cards)).Ok? && Pooled(cfg, cards, m)
    ensures m in UnknownCnPool(cfg, cards)
  {
    var es := NamedResults(cfg, cards);
    FromEntriesKeys(es);
    var d := FromEntries(es).value;
    var i :| LastOfName(cards, i) && MatchesOf(cfg, cards[i]).Ok? && m in MatchesOf(cfg, cards[i]).value;
    var k := cards[i].name;
    assert es[i].0 == k;
    var i' := DictValueOrigin(cfg, cards, k);
    assert i' == i;
    ValuesMem(d, d.keys);
  }

  /**
   * The unknown-CN pool holds, for each card name, the matches of the last
   * card with that name (the dict assignment overwrites), restricted to the
   * known FC, and nothing else; so its card names are card names of the list.
   */
  lemma UnknownCnPoolSpec(cfg: Config, cards: seq<CardData>)
    requires FromEntries(NamedResults(cfg, cards)).Ok?
    ensures forall i :: 0 <= i < |cards| ==> MatchesOf(cfg, cards[i]).Ok?
    ensures forall m :: m in UnknownCnPool(cfg, cards) <==> Pooled(cfg, cards, m)
    ensures CardNames(UnknownCnPool(cfg, cards)) <= NameSet(cards)
  {
    FromEntriesError(NamedResults(cfg, cards));
    forall m ensures m in UnknownCnPool(cfg, cards) <==> Pooled(cfg, cards, m) {
      if m in UnknownCnPool(cfg, cards) {
        PoolMatchOrigin(cfg, cards, m);
      }
      if Pooled(cfg, cards, m) {
        PoolMatchFromLast(cfg, cards, m);
      }
    }
    forall m | m in UnknownCnPool(cfg, cards) ensures m.cardName in NameSet(cards) {
      PoolMatchOrigin(cfg, cards, m);
    }
  }

  /**
   * An admitted candidate holds matches of its own FC value only, and when
   * the pool's cards are among `n` names, its consistency lies in [0.5, 1.0].
   */
  lemma AdmittedBounds(pool: seq<Match>, n: nat, c: FCCandidate, cat: Catalog, names: set<string>)
    requires n >= 1 && Admitted(pool, n, c, cat)
    requires CardNames(pool) <= names && |names| <= n
    ensures 0.5 <= c.consistencyScore <= 1.0
    ensures forall m :: m in c.matches ==> m in pool && m.fcValue == c.fcValue
  {
    var g := Select(pool, ByFc, c.fcValue);
    SelectMem(pool, ByFc, c.fcValue);
    BestPatternNonEmpty(g, c.matches);
    assert CardNames(g) <= names;
    SubsetSize(CardNames(g), names);
    RatioBounds(|CardNames(g)|, n);
  }

  /** Candidates built over the pool's FC values are admitted, within the consistency bounds, and not repeated. */
  lemma CandidatesFromSound(pool: seq<Match>, n: nat, cs: seq<FCCandidate>, cat: Catalog, names: set<string>)
    requires n >= 1 && CandidatesFrom(pool, n, KeyOrder(pool, ByFc), cs, cat)
    requires CardNames(pool) <= names && |names| <= n
    ensures forall i, j :: 0 <= i < j < |cs| ==> cs[i].fcValue != cs[j].fcValue
    ensures forall c :: c in cs ==>
      && Admitted(pool, n, c, cat)
      && 0.5 <= c.consistencyScore <= 1.0
      && forall m :: m in c.matches ==> m in pool && m.fcValue == c.fcValue
  {
    var fcs := KeyOrder(pool, ByFc);
    KeyOrderMem(pool, ByFc);
    forall fc | fc in fcs ensures Select(pool, ByFc, fc) != [] {
      SelectNonEmpty(pool, ByFc, fc);
    }
    CandidatesFromAdmitted(pool, n, fcs, cs, cat);
    CandidatesFromDistinct(pool, n, fcs, cs, cat);
    forall c | c in cs
      ensures 0.5 <= c.consistencyScore <= 1.0
      ensures forall m :: m in c.matches ==> m in pool && m.fcValue == c.fcValue
    {
      AdmittedBounds(pool, n, c, cat, names);
    }
  }

  /** Exactly the pool's FC values that pass both gates yield a candidate. */
  lemma CandidatesFromAll(pool: seq<Match>, n: nat, cs: seq<FCCandidate>, cat: Catalog)
    requires n >= 1 && CandidatesFrom(pool, n, KeyOrder(pool, ByFc), cs, cat)
    ensures forall fc :: (exists c :: c in cs && c.fcValue == fc) <==>
      (exists m :: m in pool && m.fcValue == fc) && Reasonable(fc) &&
      EnoughCards(|CardNames(Select(pool, ByFc, fc))|, n)
  {
    var fcs := KeyOrder(pool, ByFc);
    KeyOrderMem(pool, ByFc);
    forall fc | fc in fcs ensures Select(pool, ByFc, fc) != [] {
      SelectNonEmpty(pool, ByFc, fc);
    }
    CandidatesFromAdmitted(pool, n, fcs, cs, cat);
    CandidatesFromComplete(pool, n, fcs, cs, cat);
    forall fc ensures (exists c :: c in cs && c.fcValue == fc) <==>
      (exists m :: m in pool && m.fcValue == fc) && Reasonable(fc) && EnoughCards(|CardNames(Select(pool, ByFc, fc))|, n)
    {
      assert fc in fcs <==> exists m :: m in pool && m.fcValue == fc;
    }
  }

  /**
   * Every unknown-CN candidate is admitted, its matches are pooled matches of
   * its FC value, its consistency lies in [0.5, 1.0], FC values are not
   * repeated, and exactly the FC values of the pool that pass both gates
   * yield a candidate.
   */
  lemma UnknownCnSpec(cfg: Config, cards: seq<CardData>, r: Result<seq<FCCandidate>>)
    requires cards != [] && UnknownCnOk(cfg, cards, r) && r.Ok?
    ensures var pool := UnknownCnPool(cfg, cards);
      && (forall i, j :: 0 <= i < j < |r.value| ==> r.value[i].fcValue != r.value[j].fcValue)
      && (forall c :: c in r.value ==>
            && Admitted(pool, |cards|, c, cfg.catalog)
            && 0.5 <= c.consistencyScore <= 1.0
            && forall m :: m in c.matches ==> m in pool && m.fcValue == c.fcValue)
      && (forall fc :: (exists c :: c in r.value && c.fcValue == fc) <==>
            (exists m :: m in pool && m.fcValue == fc) && Reasonable(fc) &&
            EnoughCards(|CardNames(Select(pool, ByFc, fc))|, |cards|))
  {
    var pool := UnknownCnPool(cfg, cards);
    UnknownCnPoolSpec(cfg, cards);
    CandidatesFromSound(pool, |cards|, r.value, cfg.catalog, NameSet(cards));
    CandidatesFromAll(pool, |cards|, r.value, cfg.catalog);
  }

  // ---------------------------------------------------------------------------
  // Errors, the known-CN policy, ranking and the summary.
  // ---------------------------------------------------------------------------

  /** A payload `hex_to_binary` accepts. */
  predicate ValidPayload(card: CardData) {
    card.hexData != [] && IsHex(card.hexData)
  }

  lemma MatchesOfError(cfg: Config, card: CardData)
    ensures MatchesOf(cfg, card).Ok? <==> ValidPayload(card)
    ensures MatchesOf(cfg, card).ValueError? ==> MatchesOf(cfg, card).input == card.hexData
  {
  }

  /** Card `i` is the first card whose payload is rejected. */
  ghost predicate FirstInvalid(cards: seq<CardData>, i: int) {
    0 <= i < |cards| && !ValidPayload(cards[i]) && forall j :: 0 <= j < i ==> ValidPayload(cards[j])
  }

  /**
   * `find_fc_candidates` raises exactly when some card's payload is not
   * hexadecimal, and then with the payload of the first such card.
   */
  lemma FcCandidatesErrors(cfg: Config, cards: seq<CardData>, r: Result<seq<FCCandidate>>)
    requires FcCandidatesOk(cfg, cards, r)
    ensures r.Ok? <==> forall i :: 0 <= i < |cards| ==> ValidPayload(cards[i])
    ensures r.ValueError? ==> exists i :: FirstInvalid(cards, i) && r.input == cards[i].hexData
  {
    if cards != [] {
      if HasUnknownCn(cards) {
        FcCandidatesErrorsUnknown(cfg, cards, r);
      } else {
        FcCandidatesErrorsKnown(cfg, cards, r);
      }
    }
  }

  /** A card's matches are found exactly when its payload is valid; otherwise the error names the payload. */
  lemma PayloadErrors(cfg: Config, cards: seq<CardData>)
    ensures forall i :: 0 <= i < |cards| ==> (MatchesOf(cfg, cards[i]).Ok? <==> ValidPayload(cards[i]))
    ensures forall i :: 0 <= i < |cards| && MatchesOf(cfg, cards[i]).ValueError? ==>
      MatchesOf(cfg, cards[i]).input == cards[i].hexData
  {
    forall i | 0 <= i < |cards| ensures MatchesOf(cfg, cards[i]).Ok? <==> ValidPayload(cards[i])
      ensures MatchesOf(cfg, cards[i]).ValueError? ==> MatchesOf(cfg, cards[i]).input == cards[i].hexData
    {
      MatchesOfError(cfg, cards[i]);
    }
  }

  lemma FcCandidatesErrorsUnknown(cfg: Config, cards: seq<CardData>, r: Result<seq<FCCandidate>>)
    requires cards != [] && HasUnknownCn(cards) && UnknownCnOk(cfg, cards, r)
    ensures r.Ok? <==> forall i :: 0 <= i < |cards| ==> ValidPayload(cards[i])
    ensures r.ValueError? ==> exists i :: FirstInvalid(cards, i) && r.input == cards[i].hexData
  {
    PayloadErrors(cfg, cards);
    var es := NamedResults(cfg, cards);
    FromEntriesError(es);
    assert forall i :: 0 <= i < |cards| ==> es[i].1 == MatchesOf(cfg, cards[i]);
    if FromEntries(es).ValueError? {
      var i :| 0 <= i < |es| && es[i].1 == ValueError(FromEntries(es).input) && forall j :: 0 <= j < i ==> es[j].1.Ok?;
      assert FirstInvalid(cards, i);
    }
  }

  lemma FcCandidatesErrorsKnown(cfg: Config, cards: seq<CardData>, r: Result<seq<FCCandidate>>)
    requires cards != [] && !HasUnknownCn(cards) && r == KnownCn(cfg, cards)
    ensures r.Ok? <==> forall i :: 0 <= i < |cards| ==> ValidPayload(cards[i])
    ensures r.ValueError? ==> exists i :: FirstInvalid(cards, i) && r.input == cards[i].hexData
  {
    PayloadErrors(cfg, cards);
    var rs := Results(cfg, cards);
    ConcatSpec(rs);
    assert forall i :: 0 <= i < |cards| ==> rs[i] == MatchesOf(cfg, cards[i]);
    if Concat(rs).ValueError? {
      var i :| 0 <= i < |rs| && rs[i] == ValueError(Concat(rs).input) && forall j :: 0 <= j < i ==> rs[j].Ok?;
      assert FirstInvalid(cards, i);
    }
  }


  /**
   * The known-CN policy pools the matches of every card. With one card it
   * yields one candidate per FC value of the pool, holding all of them; with
   * several, an FC value is reported exactly when the consistent matches of
   * its group cover every card, and its candidate holds those matches. Every
   * candidate has consistency 1.0, holds pooled matches of its own FC value,
   * and is the fresh candidate after format matching.
   */
  lemma KnownCnSpec(cfg: Config, cards: seq<CardData>)
    requires cards != [] && KnownCn(cfg, cards).Ok?
    ensures var pool := Concat(Results(cfg, cards)).value;
      var cs := KnownCn(cfg, cards).value;
      var n := |cards|;
      && (forall m :: m in pool <==> exists i :: 0 <= i < n && MatchesOf(cfg, cards[i]).Ok? && m in MatchesOf(cfg, cards[i]).value)
      && (n == 1 ==> |cs| == |KeyOrder(pool, ByFc)| && forall i :: 0 <= i < |cs| ==>
            cs[i].fcValue == KeyOrder(pool, ByFc)[i] && cs[i].matches == Select(pool, ByFc, cs[i].fcValue))
      && (forall i, j :: 0 <= i < j < |cs| ==> cs[i].fcValue != cs[j].fcValue)
      && (forall c :: c in cs ==>
            && c.consistencyScore == 1.0 && c.matches != []
            && (forall m :: m in c.matches ==> m in pool && m.fcValue == c.fcValue)
            && (n > 1 ==> CardCount(c) == n)
            && c == WithFormat(FCCandidate(c.fcValue, c.matches, 1.0, 0, None), cfg.catalog))
      && (n > 1 ==> forall fc :: fc in KeyOrder(pool, ByFc) ==>
            ((exists c :: c in cs && c.fcValue == fc) <==> FullyConsistent(pool, n, fc)))
      && (n > 1 ==> forall c :: c in cs ==>
            Select(pool, ByFc, c.fcValue) != [] && c.matches == FilterConsistent(Select(pool, ByFc, c.fcValue)))
  {
    var rs := Results(cfg, cards);
    ConcatSpec(rs);
    assert forall i :: 0 <= i < |cards| ==> rs[i] == MatchesOf(cfg, cards[i]);
    FinishKeepsMatches(cfg.catalog);
    KnownCnCandidatesSpec(Concat(rs).value, |cards|, Finish(cfg.catalog));
  }

  /**
   * `get_best_candidates` raises exactly when `find_fc_candidates` does;
   * otherwise it keeps at most `max_candidates` of the found candidates, only
   * ones with the known FC when that is set, by non-increasing score, none of
   * the kept candidates left out scoring above a listed one, and candidates of
   * equal score in the order found.
   */
  lemma RankedSpec(found: Result<seq<FCCandidate>>, knownFc: Option<int>, maxCandidates: int)
    ensures Ranked(found, knownFc, maxCandidates).Ok? <==> found.Ok?
    ensures found.ValueError? ==> Ranked(found, knownFc, maxCandidates) == found
    ensures found.Ok? ==>
      var cs := found.value;
      var r := Ranked(found, knownFc, maxCandidates).value;
      && (maxCandidates >= 0 ==> |r| <= maxCandidates)
      && (forall c :: c in r ==> c in cs && (knownFc.None? || c.fcValue == knownFc.value))
      && (forall i, j :: 0 <= i < j < |r| ==> Score(r[i]) >= Score(r[j]))
      && (forall x, y :: x in multiset(KeepFc(cs, knownFc)) - multiset(r) && y in r ==> Score(y) >= Score(x))
      && (forall z :: Ties(r, ByScore(Score), z) <= Ties(KeepFc(cs, knownFc), ByScore(Score), z))
  {
    if found.Ok? {
      TopCandidatesSpec(found.value, knownFc, Score, maxCandidates);
    }
  }

  /** Card `i` is the first card of unknown CN whose payload is rejected. */
  ghost predicate FirstInvalidUnknown(cards: seq<CardData>, i: int) {
    && 0 <= i < |cards| && cards[i].knownCn.None? && !ValidPayload(cards[i])
    && forall j :: 0 <= j < i && cards[j].knownCn.None? ==> ValidPayload(cards[j])
  }

  /**
   * Collecting the matches of the unknown-CN cards raises exactly when one of
   * their payloads is rejected, with the first such payload; otherwise it
   * holds exactly their matches.
   */
  lemma UnknownConcatSpec(cfg: Config, cards: seq<CardData>)
    ensures Concat(UnknownResults(cfg, cards)).Ok? <==>
      forall i :: 0 <= i < |cards| && cards[i].knownCn.None? ==> ValidPayload(cards[i])
    ensures Concat(UnknownResults(cfg, cards)).ValueError? ==>
      exists i :: FirstInvalidUnknown(cards, i) && Concat(UnknownResults(cfg, cards)).input == cards[i].hexData
    ensures Concat(UnknownResults(cfg, cards)).Ok? ==> forall m :: m in Concat(UnknownResults(cfg, cards)).value <==>
      exists i :: 0 <= i < |cards| && cards[i].knownCn.None? && MatchesOf(cfg, cards[i]).Ok? && m in MatchesOf(cfg, cards[i]).value
  {
    UnknownConcatOk(cfg, cards);
    UnknownConcatError(cfg, cards);
    UnknownConcatMem(cfg, cards);
  }

  /** The last card adds its own result when its CN is unknown, and nothing otherwise. */
  lemma UnknownConcatLast(cfg: Config, cards: seq<CardData>)
    requires cards != []
    ensures var init, last := cards[..|cards| - 1], cards[|cards| - 1];
      Concat(UnknownResults(cfg, cards)) ==
        if last.knownCn.Some? then Concat(UnknownResults(cfg, init))
        else
          match Concat(UnknownResults(cfg, init))
          case ValueError(e) => ValueError(e)
          case Ok(ms) => match MatchesOf(cfg, last) case ValueError(e) => ValueError(e) case Ok(more) => Ok(ms + more)
  {
    var init, last := cards[..|cards| - 1], cards[|cards| - 1];
    var prev := UnknownResults(cfg, init);
    if last.knownCn.None? {
      ConcatSnoc(prev, MatchesOf(cfg, last));
    } else {
      assert UnknownResults(cfg, cards) == prev + [];
      assert prev + [] == prev;
    }
  }

  lemma {:induction false} UnknownConcatOk(cfg: Config, cards: seq<CardData>)
    ensures Concat(UnknownResults(cfg, cards)).Ok? <==>
      forall i :: 0 <= i < |cards| && cards[i].knownCn.None? ==> ValidPayload(cards[i])
  {
    if cards != [] {
      var init, last := cards[..|cards| - 1], cards[|cards| - 1];
      UnknownConcatOk(cfg, init);
      assert forall i :: 0 <= i < |init| ==> init[i] == cards[i];
      MatchesOfError(cfg, last);
      UnknownConcatLast(cfg, cards);
    }
  }

  lemma {:induction false} UnknownConcatError(cfg: Config, cards: seq<CardData>)
    ensures Concat(UnknownResults(cfg, cards)).ValueError? ==>
      exists i :: FirstInvalidUnknown(cards, i) && Concat(UnknownResults(cfg, cards)).input == cards[i].hexData
  {
    if cards != [] {
      var init, last := cards[..|cards| - 1], cards[|cards| - 1];
      UnknownConcatOk(cfg, init);
      UnknownConcatError(cfg, init);
      assert forall i :: 0 <= i < |init| ==> init[i] == cards[i];
      MatchesOfError(cfg, last);
      UnknownConcatLast(cfg, cards);
      if Concat(UnknownResults(cfg, init)).ValueError? {
        var i :| FirstInvalidUnknown(init, i) && Concat(UnknownResults(cfg, init)).input == init[i].hexData;
        assert FirstInvalidUnknown(cards, i);
      } else if Concat(UnknownResults(cfg, cards)).ValueError? {
        assert FirstInvalidUnknown(cards, |cards| - 1);
      }
    }
  }

  lemma UnknownConcatMem(cfg: Config, cards: seq<CardData>)
    ensures Concat(UnknownResults(cfg, cards)).Ok? ==> forall m :: m in Concat(UnknownResults(cfg, cards)).value <==>
      exists i :: 0 <= i < |cards| && cards[i].knownCn.None? && MatchesOf(cfg, cards[i]).Ok? && m in MatchesOf(cfg, cards[i]).value
  {
    var f, keep := c => MatchesOf(cfg, c), (c: CardData) => c.knownCn.None?;
    UnknownGather(cfg, cards);
    GatherMem(f, keep, cards);
  }

  lemma {:induction false} UnknownGather(cfg: Config, cards: seq<CardData>)
    ensures UnknownResults(cfg, cards) == Gather(c => MatchesOf(cfg, c), (c: CardData) => c.knownCn.None?, cards)
  {
    if cards != [] {
      UnknownGather(cfg, cards[..|cards| - 1]);
    }
  }

  /**
   * `analyze_unknown_cn_patterns` returns the empty dict exactly when every CN
   * is known; otherwise it raises exactly when an unknown-CN card's payload is
   * rejected, or reports the card counts, every FC value seen, and the ten
   * most frequent FC values and five most frequent layouts.
   */
  lemma SummarySpec(cfg: Config, cards: seq<CardData>)
    ensures Summary(cfg, cards) == Ok(None) <==> !HasUnknownCn(cards)
    ensures Summary(cfg, cards).Ok? <==> forall i :: 0 <= i < |cards| && cards[i].knownCn.None? ==> ValidPayload(cards[i])
    ensures Summary(cfg, cards).ValueError? ==>
      exists i :: FirstInvalidUnknown(cards, i) && Summary(cfg, cards).input == cards[i].hexData
    ensures Summary(cfg, cards).Ok? && Summary(cfg, cards).value.Some? ==>
      var a := Summary(cfg, cards).value.value;
      var ms := Concat(UnknownResults(cfg, cards)).value;
      && a.totalCards == |cards| && 1 <= a.cardsWithUnknownCn <= |cards|
      && (forall fc :: fc in a.potentialFcValues <==> exists m :: m in ms && m.fcValue == fc)
      && TopTallies(a.mostCommonFcValues, ms, ByFc, 10)
      && TopTallies(a.commonPatterns, ms, LayoutOf, 5)
  {
    UnknownConcatSpec(cfg, cards);
    if HasUnknownCn(cards) && Concat(UnknownResults(cfg, cards)).Ok? {
      var ms := Concat(UnknownResults(cfg, cards)).value;
      TalliesTop(ms, ByFc, 10);
      TalliesTop(ms, LayoutOf, 5);
    }
  }

  /** Items drawn from the tallies name keys that occur, with their counts. */
  lemma TalliesMem<K>(ms: seq<Match>, key: Match -> K, r: seq<Tally<K>>)
    requires multiset(r) <= multiset(Tallies(ms, key))
    ensures forall t :: t in r ==> (exists m :: m in ms && key(m) == t.key) && t.count == |Select(ms, key, t.key)|
  {
    var ts := Tallies(ms, key);
    var ks := KeyOrder(ms, key);
    KeyOrderMem(ms, key);
    forall t | t in r ensures (exists m :: m in ms && key(m) == t.key) && t.count == |Select(ms, key, t.key)| {
      assert t in multiset(ts);
      var i :| 0 <= i < |ts| && ts[i] == t;
      assert ks[i] in ks;
    }
  }

  /** When no item left out outranks a listed one, no key left out occurs more often than a listed one. */
  lemma TalliesLeftOut<K>(ms: seq<Match>, key: Match -> K, r: seq<Tally<K>>)
    requires forall x, y :: x in multiset(Tallies(ms, key)) - multiset(r) && y in r ==> Frequency(y) >= Frequency(x)
    ensures forall k, t :: (exists m :: m in ms && key(m) == k) && (forall u :: u in r ==> u.key != k) && t in r ==>
      t.count >= |Select(ms, key, k)|
  {
    var ts := Tallies(ms, key);
    var ks := KeyOrder(ms, key);
    KeyOrderMem(ms, key);
    forall k, t | (exists m :: m in ms && key(m) == k) && (forall u :: u in r ==> u.key != k) && t in r
      ensures t.count >= |Select(ms, key, k)|
    {
      assert k in ks;
      var i :| 0 <= i < |ks| && ks[i] == k;
      var left := ts[i];
      assert left in multiset(ts);
      assert left !in multiset(r);
      assert Frequency(t) >= Frequency(left);
    }
  }

  /**
   * `r` lists the first `limit` entries by count: as many as there are keys
   * up to `limit`, each a key that occurs with its count, by non-increasing
   * count, no key left out occurring more often than a listed one, equal
   * counts in first-seen order.
   */
  ghost predicate TopTallies<K(!new)>(r: seq<Tally<K>>, ms: seq<Match>, key: Match -> K, limit: nat) {
    && |r| == Min(limit, |KeyOrder(ms, key)|)
    && (forall t :: t in r ==> (exists m :: m in ms && key(m) == t.key) && t.count == |Select(ms, key, t.key)|)
    && (forall i, j :: 0 <= i < j < |r| ==> r[i].count >= r[j].count)
    && (forall k, t :: (exists m :: m in ms && key(m) == k) && (forall u :: u in r ==> u.key != k) && t in r ==>
          t.count >= |Select(ms, key, k)|)
    && (forall z :: Ties(r, ByScore(Frequency), z) <= Ties(Tallies(ms, key), ByScore(Frequency), z))
  }

  /** Sorting the items by count and keeping the first `limit` gives the top tallies. */
  lemma TalliesTop<K(!new)>(ms: seq<Match>, key: Match -> K, limit: nat)
    ensures TopTallies(PyPrefix(SortDesc(Tallies(ms, key), ByScore(Frequency)), limit), ms, key, limit)
  {
    var ts := Tallies(ms, key);
    var r := PyPrefix(SortDesc(ts, ByScore(Frequency)), limit);
    TopSpec(ts, Frequency, limit);
    TalliesMem(ms, key, r);
    TalliesLeftOut(ms, key, r);
  }
}
