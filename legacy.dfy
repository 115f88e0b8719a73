/**
 * main_bk.py: the legacy engine. Cards are validated when constructed, FC
 * values are kept when they occur on every card (no signature matching), and
 * the ranking scores each FC in half points: one per card, plus half a point
 * each for uniform window and FC lengths.
 */
module Legacy {
  import opened Basics
  import opened Bits
  import opened Names
  import opened Matching
  import opened Enumeration
  import opened Grouping
  import opened Consistency
  import opened Ranking
  import opened Pools

  /** A validated card: its payload, lower-cased, its known CN and its name. */
  datatype CardData = CardData(hexData: string, knownCn: int, name: string)

  /** The settings the analysis reads. */
  datatype Config = Config(minBits: int, maxBits: int, knownFc: Option<int>)

  /** `CardData(...)` with `__post_init__`: the payload must be hex digits only, and is stored lower-cased. */
  function NewCardData(hexData: string, knownCn: int, name: string): Result<CardData> {
    if IsHex(hexData) then Ok(CardData(Lower(hexData), knownCn, name)) else ValueError(hexData)
  }

  /**
   * Construction fails exactly when some character is not a hex digit, and
   * reports the payload; otherwise the stored payload is the same digits in
   * lower case, with the same value. The empty payload passes.
   */
  lemma NewCardDataSpec(hexData: string, knownCn: int, name: string)
    ensures NewCardData(hexData, knownCn, name).Ok? <==> forall i :: 0 <= i < |hexData| ==> IsHexDigit(hexData[i])
    ensures NewCardData(hexData, knownCn, name).ValueError? ==> NewCardData(hexData, knownCn, name).input == hexData
    ensures NewCardData(hexData, knownCn, name).Ok? ==>
      var c := NewCardData(hexData, knownCn, name).value;
      && c.knownCn == knownCn && c.name == name
      && |c.hexData| == |hexData| && IsHex(c.hexData)
      && (forall i :: 0 <= i < |hexData| ==> c.hexData[i] == LowerChar(hexData[i]) && !('A' <= c.hexData[i] <= 'F'))
      && HexValue(c.hexData) == HexValue(hexData)
    ensures NewCardData([], knownCn, name) == Ok(CardData([], knownCn, name))
  {
    if IsHex(hexData) {
      LowerKeepsHexValue(hexData);
    }
  }

  /** `search_fc`: the configured FC when set, else the caller's target. */
  function SearchFc(knownFc: Option<int>, targetFc: Option<int>): Option<int> {
    if knownFc.Some? then knownFc else targetFc
  }

  function QueryOf(cfg: Config, card: CardData, targetFc: Option<int>): Query {
    Query(cfg.minBits, cfg.maxBits, SearchFc(cfg.knownFc, targetFc), Some(card.knownCn), card.name)
  }

  /** `find_matches_single_card(card, target_fc)`; `hex_to_binary` raises on the empty payload. */
  function MatchesOf(cfg: Config, card: CardData, targetFc: Option<int>): Result<seq<Match>> {
    match HexToBinary(card.hexData)
    case ValueError(e) => ValueError(e)
    case Ok(raw) => Ok(CardMatches(raw, QueryOf(cfg, card, targetFc)))
  }

  /** `_regions_overlap`: the half-open ranges `[start1, start1 + len1)` and `[start2, start2 + len2)` meet. */
  function RegionsOverlap(start1: int, len1: int, start2: int, len2: int): bool {
    start1 < start2 + len2 && start2 < start1 + len1
  }

  /** Position `x` lies in the half-open range `[start, start + len)`. */
  predicate Covers(start: int, len: int, x: int) {
    start <= x < start + len
  }

  /**
   * The overlap test is symmetric and is the negation of the disjointness the
   * enumerator keeps; for non-empty ranges it holds exactly when some position
   * lies in both.
   */
  lemma RegionsOverlapSpec(start1: int, len1: int, start2: int, len2: int)
    ensures RegionsOverlap(start1, len1, start2, len2) == RegionsOverlap(start2, len2, start1, len1)
    ensures RegionsOverlap(start1, len1, start2, len2) <==> !Disjoint(start1, len1, start2, len2)
    ensures len1 >= 1 && len2 >= 1 ==>
      (RegionsOverlap(start1, len1, start2, len2) <==> exists x :: Covers(start1, len1, x) && Covers(start2, len2, x))
  {
    if len1 >= 1 && len2 >= 1 && RegionsOverlap(start1, len1, start2, len2) {
      var x := Max(start1, start2);
      assert Covers(start1, len1, x) && Covers(start2, len2, x);
    }
  }

  /** A payload `hex_to_binary` accepts: the validated payload of a card, unless it is empty. */
  predicate ValidPayload(card: CardData) {
    card.hexData != [] && IsHex(card.hexData)
  }

  /**
   * Matching fails exactly when the payload is empty or not hexadecimal, and
   * reports it. Otherwise it yields every admissible combination of either bit
   * order, each well formed, with FC and CN regions that do not overlap, named
   * after the card, with the card's CN and, when `search_fc` is set, that FC.
   */
  lemma MatchesOfSpec(cfg: Config, card: CardData, targetFc: Option<int>)
    ensures MatchesOf(cfg, card, targetFc).Ok? <==> ValidPayload(card)
    ensures MatchesOf(cfg, card, targetFc).ValueError? ==> MatchesOf(cfg, card, targetFc).input == card.hexData
    ensures MatchesOf(cfg, card, targetFc).Ok? ==>
      var ms := MatchesOf(cfg, card, targetFc).value;
      var raw := HexToBinary(card.hexData).value;
      && (forall m :: m in ms <==> Found(raw, QueryOf(cfg, card, targetFc), m))
      && (forall m :: m in ms ==>
            && WellFormed(m) && !RegionsOverlap(m.fcStart, m.fcLength, m.cnStart, m.cnLength)
            && m.cardName == card.name && m.cnValue == card.knownCn
            && cfg.minBits <= m.windowLength <= cfg.maxBits && m.windowLength <= 4 * |card.hexData|
            && (SearchFc(cfg.knownFc, targetFc).Some? ==> m.fcValue == SearchFc(cfg.knownFc, targetFc).value))
  {
    if MatchesOf(cfg, card, targetFc).Ok? {
      var raw := HexToBinary(card.hexData).value;
      var q := QueryOf(cfg, card, targetFc);
      CardMatchesMem(raw, q);
      forall m | m in MatchesOf(cfg, card, targetFc).value
        ensures WellFormed(m) && !RegionsOverlap(m.fcStart, m.fcLength, m.cnStart, m.cnLength)
        ensures m.cardName == card.name && m.cnValue == card.knownCn
        ensures cfg.minBits <= m.windowLength <= cfg.maxBits && m.windowLength <= 4 * |card.hexData|
        ensures SearchFc(cfg.knownFc, targetFc).Some? ==> m.fcValue == SearchFc(cfg.knownFc, targetFc).value
      {
        FoundProperties(raw, q, m);
        RegionsOverlapSpec(m.fcStart, m.fcLength, m.cnStart, m.cnLength);
      }
    }
  }

  /** The key of `all_matches`: the card's name, or its payload when the name is empty. */
  function CardKey(card: CardData): string {
    if card.name != [] then card.name else card.hexData
  }

  /** Each card's matches with no target FC, in card order. */
  function Results(cfg: Config, cards: seq<CardData>): (rs: seq<Result<seq<Match>>>)
    ensures |rs| == |cards|
  {
    seq(|cards|, i requires 0 <= i < |cards| => MatchesOf(cfg, cards[i], None))
  }

  /** `all_matches[card.name or card.hex_data] = ...` for each card, in card order. */
  function KeyedResults(cfg: Config, cards: seq<CardData>): (es: seq<(string, Result<seq<Match>>)>)
    ensures |es| == |cards|
  {
    seq(|cards|, i requires 0 <= i < |cards| => (CardKey(cards[i]), MatchesOf(cfg, cards[i], None)))
  }

  /** `unique_fcs_for_card`. */
  function FcSet(ms: seq<Match>): set<nat> {
    set m | m in ms :: m.fcValue
  }

  /** `fc_counts[fc]`: the number of cards with a match of value `fc`, each card counted once. */
  function FcCount(rs: seq<Result<seq<Match>>>, fc: nat): (k: nat)
    ensures k <= |rs|
  {
    if rs == [] then 0
    else
      var last := rs[|rs| - 1];
      FcCount(rs[..|rs| - 1], fc) + (if last.Ok? && fc in FcSet(last.value) then 1 else 0)
  }

  /** An FC value counts once for every card exactly when every card has a match of that value. */
  lemma {:induction false} FcCountAll(rs: seq<Result<seq<Match>>>, fc: nat)
    ensures FcCount(rs, fc) == |rs| <==> forall i :: 0 <= i < |rs| ==> rs[i].Ok? && fc in FcSet(rs[i].value)
  {
    if rs != [] {
      var init := rs[..|rs| - 1];
      FcCountAll(init, fc);
      assert forall i :: 0 <= i < |init| ==> init[i] == rs[i];
    }
  }

  /** The matches whose FC value is one of `common_fcs`, the values counted once for every one of `rs`. */
  function KeepCommon(ms: seq<Match>, rs: seq<Result<seq<Match>>>): seq<Match> {
    if ms == [] then []
    else
      var last := ms[|ms| - 1];
      KeepCommon(ms[..|ms| - 1], rs) + (if FcCount(rs, last.fcValue) == |rs| then [last] else [])
  }

  lemma {:induction false} KeepCommonMem(ms: seq<Match>, rs: seq<Result<seq<Match>>>)
    ensures forall m :: m in KeepCommon(ms, rs) <==> m in ms && FcCount(rs, m.fcValue) == |rs|
  {
    if ms != [] {
      KeepCommonMem(ms[..|ms| - 1], rs);
      assert forall m :: m in ms <==> m in ms[..|ms| - 1] || m == ms[|ms| - 1];
    }
  }

  lemma KeepCommonSnoc(ms: seq<Match>, m: Match, rs: seq<Result<seq<Match>>>)
    ensures KeepCommon(ms + [m], rs) == KeepCommon(ms, rs) + (if FcCount(rs, m.fcValue) == |rs| then [m] else [])
  {
    assert (ms + [m])[..|ms|] == ms;
  }

  /** One entry of an FC-keyed dict of matches. */
  datatype FcGroup = FcGroup(fc: int, matches: seq<Match>)

  /** `fc_matches`: the matches grouped by FC value, keys in order of first occurrence. */
  function GroupsOf(ms: seq<Match>): (gs: seq<FcGroup>)
    ensures |gs| == |KeyOrder(ms, ByFc)|
  {
    var fcs := KeyOrder(ms, ByFc);
    seq(|fcs|, i requires 0 <= i < |fcs| => FcGroup(fcs[i], Select(ms, ByFc, fcs[i])))
  }

  /** `find_common_fc`. */
  function CommonFc(cfg: Config, cards: seq<CardData>): Result<seq<FcGroup>> {
    if cards == [] then Ok([])
    else if cfg.knownFc.Some? then
      match Concat(Results(cfg, cards))
      case ValueError(e) => ValueError(e)
      case Ok(ms) => Ok(if ms == [] then [] else [FcGroup(cfg.knownFc.value, ms)])
    else
      match FromEntries(KeyedResults(cfg, cards))
      case ValueError(e) => ValueError(e)
      case Ok(d) =>
        FromEntriesKeys(KeyedResults(cfg, cards));
        Ok(GroupsOf(KeepCommon(Values(d, d.keys), Results(cfg, cards))))
  }

  /** Card `i` is the first card whose payload `hex_to_binary` rejects. */
  ghost predicate FirstInvalid(cards: seq<CardData>, i: int) {
    0 <= i < |cards| && !ValidPayload(cards[i]) && forall j :: 0 <= j < i ==> ValidPayload(cards[j])
  }

  /**
   * `find_common_fc` raises exactly when some card's payload is rejected, with
   * the first such payload, in both branches; with no cards it yields nothing.
   */
  lemma CommonFcErrors(cfg: Config, cards: seq<CardData>)
    ensures cards == [] ==> CommonFc(cfg, cards) == Ok([])
    ensures CommonFc(cfg, cards).Ok? <==> forall i :: 0 <= i < |cards| ==> ValidPayload(cards[i])
    ensures CommonFc(cfg, cards).ValueError? ==>
      exists i :: FirstInvalid(cards, i) && CommonFc(cfg, cards).input == cards[i].hexData
  {
    if cards != [] {
      var rs := Results(cfg, cards);
      var es := KeyedResults(cfg, cards);
      forall i | 0 <= i < |cards| ensures rs[i] == es[i].1 == MatchesOf(cfg, cards[i], None) {
        MatchesOfSpec(cfg, cards[i], None);
      }
      ConcatSpec(rs);
      FromEntriesError(es);
      if CommonFc(cfg, cards).ValueError? {
        var e := CommonFc(cfg, cards).input;
        var i :| 0 <= i < |rs| && rs[i] == ValueError(e) && forall j :: 0 <= j < i ==> rs[j].Ok?;
        MatchesOfSpec(cfg, cards[i], None);
        assert FirstInvalid(cards, i);
      }
    }
  }

  /** `m` is a match of some card. */
  ghost predicate InSomeCard(cfg: Config, cards: seq<CardData>, m: Match) {
    exists i :: 0 <= i < |cards| && MatchesOf(cfg, cards[i], None).Ok? && m in MatchesOf(cfg, cards[i], None).value
  }

  /** Concatenating the cards' matches succeeds only when each card's does, and then holds all of them. */
  lemma ConcatPool(cfg: Config, cards: seq<CardData>)
    requires Concat(Results(cfg, cards)).Ok?
    ensures forall i :: 0 <= i < |cards| ==> MatchesOf(cfg, cards[i], None).Ok?
    ensures forall m :: m in Concat(Results(cfg, cards)).value <==> InSomeCard(cfg, cards, m)
  {
    var rs := Results(cfg, cards);
    ConcatSpec(rs);
    assert forall i :: 0 <= i < |cards| ==> rs[i] == MatchesOf(cfg, cards[i], None);
  }

  /**
   * With `known_fc` set, `find_common_fc` maps it to every match of every card,
   * or is empty when no card has a match; there is no all-cards check.
   */
  lemma CommonFcKnown(cfg: Config, cards: seq<CardData>)
    requires cfg.knownFc.Some? && CommonFc(cfg, cards).Ok?
    ensures var gs := CommonFc(cfg, cards).value;
      && |gs| <= 1
      && (gs == [] <==> forall i :: 0 <= i < |cards| ==> MatchesOf(cfg, cards[i], None) == Ok([]))
      && (forall g :: g in gs ==>
            && g.fc == cfg.knownFc.value && g.matches != []
            && (forall m :: m in g.matches <==> InSomeCard(cfg, cards, m))
            && (forall m :: m in g.matches ==> m.fcValue == g.fc))
  {
    if cards != [] {
      var ms := Concat(Results(cfg, cards)).value;
      ConcatPool(cfg, cards);
      forall m | m in ms ensures m.fcValue == cfg.knownFc.value {
        var i :| 0 <= i < |cards| && MatchesOf(cfg, cards[i], None).Ok? && m in MatchesOf(cfg, cards[i], None).value;
        MatchesOfSpec(cfg, cards[i], None);
      }
      if ms == [] {
        forall i | 0 <= i < |cards| ensures MatchesOf(cfg, cards[i], None) == Ok([]) {
          var v := MatchesOf(cfg, cards[i], None).value;
          if v != [] {
            assert InSomeCard(cfg, cards, v[0]);
          }
        }
      } else {
        assert InSomeCard(cfg, cards, ms[0]);
      }
    }
  }

  /** Card `i` is the last card with its key, so its matches are the ones `all_matches` keeps. */
  ghost predicate LastOfKey(cards: seq<CardData>, i: int) {
    0 <= i < |cards| && forall j :: i < j < |cards| ==> CardKey(cards[j]) != CardKey(cards[i])
  }

  /** `m` is a match of the last card with its key. */
  ghost predicate Kept(cfg: Config, cards: seq<CardData>, m: Match) {
    exists i :: LastOfKey(cards, i) && MatchesOf(cfg, cards[i], None).Ok? && m in MatchesOf(cfg, cards[i], None).value
  }

  /** The matches `all_matches` holds, in key order. */
  ghost function KeptPool(cfg: Config, cards: seq<CardData>): seq<Match>
    requires FromEntries(KeyedResults(cfg, cards)).Ok?
  {
    FromEntriesKeys(KeyedResults(cfg, cards));
    var d := FromEntries(KeyedResults(cfg, cards)).value;
    Values(d, d.keys)
  }

  /** The matches of a key of `all_matches` are those of the last card with that key. */
  lemma DictValueOrigin(cfg: Config, cards: seq<CardData>, k: string) returns (i: nat)
    requires FromEntries(KeyedResults(cfg, cards)).Ok?
    requires k in FromEntries(KeyedResults(cfg, cards)).value.values
    ensures LastOfKey(cards, i) && CardKey(cards[i]) == k
    ensures MatchesOf(cfg, cards[i], None) == Ok(FromEntries(KeyedResults(cfg, cards)).value.values[k])
  {
    var es := KeyedResults(cfg, cards);
    var v := FromEntries(es).value.values[k];
    FromEntriesLast(es, k);
    i :| 0 <= i < |es| && es[i] == (k, Ok(v)) && forall j :: i < j < |es| ==> es[j].0 != k;
    assert forall j :: 0 <= j < |es| ==> es[j].0 == CardKey(cards[j]) && es[j].1 == MatchesOf(cfg, cards[j], None);
  }

  /** A match of `all_matches` comes from the last card with its key. */
  lemma KeptPoolOrigin(cfg: Config, cards: seq<CardData>, m: Match)
    requires FromEntries(KeyedResults(cfg, cards)).Ok? && m in KeptPool(cfg, cards)
    ensures Kept(cfg, cards, m)
  {
    var es := KeyedResults(cfg, cards);
    FromEntriesKeys(es);
    var d := FromEntries(es).value;
    ValuesMem(d, d.keys);
    var k :| k in d.keys && m in d.values[k];
    var i := DictValueOrigin(cfg, cards, k);
  }

  /** Every match of the last card with a key is in `all_matches`. */
  lemma KeptPoolFromLast(cfg: Config, cards: seq<CardData>, m: Match)
    requires FromEntries(KeyedResults(cfg, cards)).Ok? && Kept(cfg, cards, m)
    ensures m in KeptPool(cfg, cards)
  {
    var es := KeyedResults(cfg, cards);
    FromEntriesKeys(es);
    var d := FromEntries(es).value;
    ValuesMem(d, d.keys);
    var i :| LastOfKey(cards, i) && MatchesOf(cfg, cards[i], None).Ok? && m in MatchesOf(cfg, cards[i], None).value;
    var k := CardKey(cards[i]);
    assert es[i].0 == k;
    var i' := DictValueOrigin(cfg, cards, k);
    assert i' == i;
  }

  /** `all_matches` holds exactly the matches of the last card of each key. */
  lemma KeptPoolSpec(cfg: Config, cards: seq<CardData>)
    requires FromEntries(KeyedResults(cfg, cards)).Ok?
    ensures forall m :: m in KeptPool(cfg, cards) <==> Kept(cfg, cards, m)
  {
    forall m ensures m in KeptPool(cfg, cards) <==> Kept(cfg, cards, m) {
      if m in KeptPool(cfg, cards) {
        KeptPoolOrigin(cfg, cards, m);
      }
      if Kept(cfg, cards, m) {
        KeptPoolFromLast(cfg, cards, m);
      }
    }
  }

  /** The FC values a dict of groups has as keys. */
  function GroupKeys(gs: seq<FcGroup>): set<int> {
    set g | g in gs :: g.fc
  }

  /** The groups of a list of matches: distinct keys in order of first occurrence, each holding its matches. */
  lemma GroupsOfSpec(ms: seq<Match>)
    ensures var gs := GroupsOf(ms);
      && (forall i, j :: 0 <= i < j < |gs| ==> gs[i].fc != gs[j].fc)
      && (forall fc: nat :: fc in GroupKeys(gs) <==> fc in FcSet(ms))
      && (forall g :: g in gs ==> g.fc >= 0 && g.matches != [])
      && (forall g, m :: g in gs ==> (m in g.matches <==> m in ms && m.fcValue == g.fc))
  {
    var fcs := KeyOrder(ms, ByFc);
    var gs := GroupsOf(ms);
    KeyOrderMem(ms, ByFc);
    forall g | g in gs ensures forall m :: m in g.matches <==> m in ms && m.fcValue == g.fc
      ensures g.fc >= 0 && g.matches != []
    {
      var i :| 0 <= i < |gs| && gs[i] == g;
      SelectMem(ms, ByFc, fcs[i]);
      SelectNonEmpty(ms, ByFc, fcs[i]);
    }
    forall fc: nat ensures fc in GroupKeys(gs) <==> fc in FcSet(ms) {
      if fc in FcSet(ms) {
        var m :| m in ms && m.fcValue == fc;
        assert ByFc(m) == fc;
        assert fc in fcs;
        var i :| 0 <= i < |fcs| && fcs[i] == fc;
        assert gs[i] in gs;
      }
      if fc in GroupKeys(gs) {
        var g :| g in gs && g.fc == fc;
        var i :| 0 <= i < |gs| && gs[i] == g;
        assert fcs[i] in fcs;
      }
    }
  }

  /** Every card's matches include one of value `fc`. */
  ghost predicate OnEveryCard(cfg: Config, cards: seq<CardData>, fc: nat) {
    forall i :: 0 <= i < |cards| ==> MatchesOf(cfg, cards[i], None).Ok? && fc in FcSet(MatchesOf(cfg, cards[i], None).value)
  }

  /** The matches `fc_matches` is built from: those of `all_matches` whose value is on every card. */
  ghost function CommonPool(cfg: Config, cards: seq<CardData>): seq<Match>
    requires FromEntries(KeyedResults(cfg, cards)).Ok?
  {
    KeepCommon(KeptPool(cfg, cards), Results(cfg, cards))
  }

  /** An FC value is counted for every card exactly when it is on every card. */
  lemma CommonCount(cfg: Config, cards: seq<CardData>, fc: nat)
    ensures FcCount(Results(cfg, cards), fc) == |cards| <==> OnEveryCard(cfg, cards, fc)
  {
    var rs := Results(cfg, cards);
    FcCountAll(rs, fc);
    assert forall i :: 0 <= i < |cards| ==> rs[i] == MatchesOf(cfg, cards[i], None);
  }

  /** A match of the common pool is kept and has a value that is on every card, and conversely. */
  lemma CommonPoolMem(cfg: Config, cards: seq<CardData>)
    requires FromEntries(KeyedResults(cfg, cards)).Ok?
    ensures forall m :: m in CommonPool(cfg, cards) <==> Kept(cfg, cards, m) && OnEveryCard(cfg, cards, m.fcValue)
  {
    var rs := Results(cfg, cards);
    KeptPoolSpec(cfg, cards);
    KeepCommonMem(KeptPool(cfg, cards), rs);
    forall m: Match ensures m in CommonPool(cfg, cards) <==> Kept(cfg, cards, m) && OnEveryCard(cfg, cards, m.fcValue) {
      CommonCount(cfg, cards, m.fcValue);
    }
  }

  /** The FC values of the common pool are exactly those on every card. */
  lemma CommonPoolFcs(cfg: Config, cards: seq<CardData>)
    requires cards != [] && FromEntries(KeyedResults(cfg, cards)).Ok?
    ensures forall fc: nat :: fc in FcSet(CommonPool(cfg, cards)) <==> OnEveryCard(cfg, cards, fc)
  {
    var pool := CommonPool(cfg, cards);
    CommonPoolMem(cfg, cards);
    forall fc: nat ensures fc in FcSet(pool) <==> OnEveryCard(cfg, cards, fc) {
      if fc in FcSet(pool) {
        var m :| m in pool && m.fcValue == fc;
      }
      if OnEveryCard(cfg, cards, fc) {
        var last := |cards| - 1;
        var m :| m in MatchesOf(cfg, cards[last], None).value && m.fcValue == fc;
        assert LastOfKey(cards, last);
        assert Kept(cfg, cards, m);
        assert m in pool;
      }
    }
  }


  /**
   * Without `known_fc`, `find_common_fc` keeps exactly the FC values found on
   * every card, each once, and maps each to the matches of that value that
   * `all_matches` holds: those of the last card with each key (a card whose
   * name or payload repeats an earlier key replaces that card's matches).
   */
  lemma CommonFcUnknown(cfg: Config, cards: seq<CardData>)
    requires cfg.knownFc.None? && cards != [] && CommonFc(cfg, cards).Ok?
    ensures var gs := CommonFc(cfg, cards).value;
      && (forall i, j :: 0 <= i < j < |gs| ==> gs[i].fc != gs[j].fc)
      && (forall g :: g in gs ==> g.fc >= 0 && g.matches != [])
      && (forall fc: nat :: fc in GroupKeys(gs) <==> OnEveryCard(cfg, cards, fc))
      && (forall g, m :: g in gs ==> (m in g.matches <==> m.fcValue == g.fc && Kept(cfg, cards, m)))
  {
    var pool := CommonPool(cfg, cards);
    assert CommonFc(cfg, cards).value == GroupsOf(pool);
    GroupsOfSpec(pool);
    CommonPoolMem(cfg, cards);
    CommonPoolFcs(cfg, cards);
    var gs := GroupsOf(pool);
    forall g | g in gs ensures OnEveryCard(cfg, cards, g.fc) {
      assert g.matches[0] in g.matches;
    }
  }

  /** `match.card_name or "unnamed"`. */
  function CardLabel(m: Match): string {
    if m.cardName != [] then m.cardName else "unnamed"
  }

  /** The keys of `cards_with_fc`. */
  function CardLabels(ms: seq<Match>): set<string> {
    set m | m in ms :: CardLabel(m)
  }

  function WindowLengths(ms: seq<Match>): set<nat> {
    set m | m in ms :: m.windowLength
  }

  function FcLengths(ms: seq<Match>): set<nat> {
    set m | m in ms :: m.fcLength
  }

  /**
   * The legacy score in half points (the source's score doubled): two per
   * card label, and with more than one label one more each when all window
   * lengths agree and when all FC lengths agree.
   */
  function HalfPoints(ms: seq<Match>): nat {
    var k := |CardLabels(ms)|;
    2 * k + (if k > 1 then (if |WindowLengths(ms)| == 1 then 1 else 0) + (if |FcLengths(ms)| == 1 then 1 else 0) else 0)
  }

  /** A set drawn from a sequence has at most as many elements. */
  lemma {:induction false} LabelsBound(ms: seq<Match>)
    ensures |CardLabels(ms)| <= |ms|
    ensures ms != [] ==> |CardLabels(ms)| >= 1
  {
    if ms != [] {
      var init, last := ms[..|ms| - 1], ms[|ms| - 1];
      LabelsBound(init);
      assert ms == init + [last];
      forall x ensures x in CardLabels(ms) <==> x in CardLabels(init) + {CardLabel(last)} {
        if x in CardLabels(ms) {
          var m :| m in ms && CardLabel(m) == x;
          if m != last {
            assert m in init;
          }
        }
        if x in CardLabels(init) {
          var m :| m in init && CardLabel(m) == x;
          assert m in ms;
        }
      }
      assert CardLabels(ms) == CardLabels(init) + {CardLabel(last)};
    }
  }

  /** `len(set(xs)) == 1` says the list is non-empty and all its elements are equal. */
  lemma SingletonSet(s: set<nat>) returns (v: nat)
    requires |s| == 1
    ensures s == {v}
  {
    v :| v in s;
    assert |s - {v}| == 0;
  }

  lemma UniformWindows(ms: seq<Match>)
    ensures |WindowLengths(ms)| == 1 <==> ms != [] && forall i :: 0 <= i < |ms| ==> ms[i].windowLength == ms[0].windowLength
  {
    if ms != [] && forall i :: 0 <= i < |ms| ==> ms[i].windowLength == ms[0].windowLength {
      assert WindowLengths(ms) == {ms[0].windowLength};
    }
    if |WindowLengths(ms)| == 1 {
      var v := SingletonSet(WindowLengths(ms));
      assert forall i :: 0 <= i < |ms| ==> ms[i].windowLength in WindowLengths(ms);
    }
  }

  lemma UniformFcLengths(ms: seq<Match>)
    ensures |FcLengths(ms)| == 1 <==> ms != [] && forall i :: 0 <= i < |ms| ==> ms[i].fcLength == ms[0].fcLength
  {
    if ms != [] && forall i :: 0 <= i < |ms| ==> ms[i].fcLength == ms[0].fcLength {
      assert FcLengths(ms) == {ms[0].fcLength};
    }
    if |FcLengths(ms)| == 1 {
      var v := SingletonSet(FcLengths(ms));
      assert forall i :: 0 <= i < |ms| ==> ms[i].fcLength in FcLengths(ms);
    }
  }

  /**
   * With `k` card labels among the matches (between 1 and their number), the
   * score is between `2k` and `2k + 2`; a single label earns no bonus, and with
   * several each bonus is earned exactly when its lengths are uniform.
   */
  lemma HalfPointsSpec(ms: seq<Match>)
    requires ms != []
    ensures var k := |CardLabels(ms)|;
      && 1 <= k <= |ms|
      && 2 * k <= HalfPoints(ms) <= 2 * k + 2
      && (k == 1 ==> HalfPoints(ms) == 2)
      && (k > 1 ==>
            HalfPoints(ms) == 2 * k
              + (if forall i :: 0 <= i < |ms| ==> ms[i].windowLength == ms[0].windowLength then 1 else 0)
              + (if forall i :: 0 <= i < |ms| ==> ms[i].fcLength == ms[0].fcLength then 1 else 0))
  {
    LabelsBound(ms);
    UniformWindows(ms);
    UniformFcLengths(ms);
  }

  /** An entry of `scored_fcs`: `(score, fc_value, matches)`, the score in half points. */
  datatype Scored = Scored(score: nat, fc: int, matches: seq<Match>)

  function Rank(g: FcGroup): Scored {
    Scored(HalfPoints(g.matches), g.fc, g.matches)
  }

  function ScoredOf(gs: seq<FcGroup>): (es: seq<Scored>)
    ensures |es| == |gs|
  {
    seq(|gs|, i requires 0 <= i < |gs| => Rank(gs[i]))
  }

  function Unscored(es: seq<Scored>): (gs: seq<FcGroup>)
    ensures |gs| == |es|
  {
    seq(|es|, i requires 0 <= i < |es| => FcGroup(es[i].fc, es[i].matches))
  }

  /** Tuple order on `(score, fc_value)`, not less than: the order `sort(reverse=True)` puts first. */
  function NotBelow(a: Scored, b: Scored): bool {
    a.score > b.score || (a.score == b.score && a.fc >= b.fc)
  }

  lemma NotBelowIsPreorder()
    ensures TotalPreorder(NotBelow)
  {
  }

  /** `g` ranks strictly before `h`: a higher score, or an equal score and a larger FC value. */
  predicate Above(g: FcGroup, h: FcGroup) {
    var a, b := HalfPoints(g.matches), HalfPoints(h.matches);
    a > b || (a == b && g.fc > h.fc)
  }

  /** `[(known_fc, common_fcs[known_fc])] if known_fc in common_fcs else []`. */
  function LookupFc(gs: seq<FcGroup>, fc: int): (r: seq<FcGroup>)
    ensures |r| <= 1
    ensures forall g :: g in r ==> g in gs && g.fc == fc
    ensures r == [] <==> fc !in GroupKeys(gs)
  {
    if gs == [] then []
    else if gs[0].fc == fc then [gs[0]]
    else
      assert GroupKeys(gs) == {gs[0].fc} + GroupKeys(gs[1..]) by {
        assert forall g :: g in gs <==> g == gs[0] || g in gs[1..];
      }
      LookupFc(gs[1..], fc)
  }

  /** `get_best_fc_candidates(max_candidates)`. */
  function BestFc(cfg: Config, cards: seq<CardData>, maxCandidates: int): Result<seq<FcGroup>> {
    match CommonFc(cfg, cards)
    case ValueError(e) => ValueError(e)
    case Ok(gs) =>
      if cfg.knownFc.Some? then Ok(LookupFc(gs, cfg.knownFc.value))
      else Ok(Unscored(PyPrefix(SortDesc(ScoredOf(gs), NotBelow), maxCandidates)))
  }

  predicate FcsDistinct(es: seq<Scored>) {
    forall i, j :: 0 <= i < j < |es| ==> es[i].fc != es[j].fc
  }

  lemma {:induction false} OnceEach(es: seq<Scored>, x: Scored)
    requires FcsDistinct(es)
    ensures multiset(es)[x] <= 1
  {
    if es != [] {
      var init := es[..|es| - 1];
      var last := es[|es| - 1];
      assert es == init + [last];
      OnceEach(init, x);
      assert last == x ==> x !in init;
    }
  }

  lemma TwoOccurrences(es: seq<Scored>, i: nat, j: nat)
    requires i < j < |es|
    ensures multiset(es)[es[i]] >= if es[i] == es[j] then 2 else 1
  {
    assert es == es[..j] + [es[j]] + es[j + 1..];
    assert es[i] in es[..j];
  }

  /** Two entries of a list with distinct FC values that share an FC value are the same entry. */
  lemma SameFcSameEntry(es: seq<Scored>, x: Scored, y: Scored)
    requires FcsDistinct(es) && x in es && y in es
    ensures x.fc == y.fc ==> x == y
  {
    var p :| 0 <= p < |es| && es[p] == x;
    var q :| 0 <= q < |es| && es[q] == y;
  }

  /** A permutation of entries with distinct FC values has distinct FC values. */
  lemma PermutationDistinct(a: seq<Scored>, b: seq<Scored>)
    requires multiset(a) == multiset(b) && FcsDistinct(a)
    ensures FcsDistinct(b)
  {
    forall i, j | 0 <= i < j < |b| ensures b[i].fc != b[j].fc {
      assert b[i] in multiset(a) && b[j] in multiset(a);
      SameFcSameEntry(a, b[i], b[j]);
      OnceEach(a, b[i]);
      TwoOccurrences(b, i, j);
    }
  }

  /**
   * `get_best_fc_candidates` raises exactly when `find_common_fc` does; with
   * `known_fc` set it returns what `find_common_fc` found for it, unchanged.
   */
  lemma BestFcKnown(cfg: Config, cards: seq<CardData>, maxCandidates: int)
    ensures BestFc(cfg, cards, maxCandidates).Ok? <==> CommonFc(cfg, cards).Ok?
    ensures CommonFc(cfg, cards).ValueError? ==> BestFc(cfg, cards, maxCandidates) == CommonFc(cfg, cards)
    ensures cfg.knownFc.Some? && CommonFc(cfg, cards).Ok? ==> BestFc(cfg, cards, maxCandidates) == CommonFc(cfg, cards)
  {
    if cfg.knownFc.Some? && CommonFc(cfg, cards).Ok? {
      CommonFcKnown(cfg, cards);
      var gs := CommonFc(cfg, cards).value;
      if gs != [] {
        assert gs[0] in gs;
        assert gs == [gs[0]];
      }
    }
  }

  /** The sort keeps the entries, orders them strictly by `(score, fc_value)` when the FC values are distinct. */
  lemma SortedStrict(gs: seq<FcGroup>)
    requires forall i, j :: 0 <= i < j < |gs| ==> gs[i].fc != gs[j].fc
    ensures var sorted := SortDesc(ScoredOf(gs), NotBelow);
      && multiset(sorted) == multiset(ScoredOf(gs))
      && (forall i, j :: 0 <= i < j < |sorted| ==> Above(Unscored(sorted)[i], Unscored(sorted)[j]))
  {
    var es := ScoredOf(gs);
    NotBelowIsPreorder();
    SortDescSpec(es, NotBelow);
    var sorted := SortDesc(es, NotBelow);
    PermutationDistinct(es, sorted);
    forall i, j | 0 <= i < j < |sorted| ensures Above(Unscored(sorted)[i], Unscored(sorted)[j]) {
      assert NotBelow(sorted[i], sorted[j]);
      assert sorted[i] in multiset(es) && sorted[j] in multiset(es);
      var p :| 0 <= p < |es| && es[p] == sorted[i];
      var q :| 0 <= q < |es| && es[q] == sorted[j];
    }
  }

  /** The sorted groups are the groups. */
  lemma SortedSameGroups(gs: seq<FcGroup>)
    ensures forall g :: g in Unscored(SortDesc(ScoredOf(gs), NotBelow)) <==> g in gs
  {
    NotBelowIsPreorder();
    var es := ScoredOf(gs);
    SortDescSpec(es, NotBelow);
    var sorted := SortDesc(es, NotBelow);
    var u := Unscored(sorted);
    forall g | g in gs ensures g in u {
      var k :| 0 <= k < |gs| && gs[k] == g;
      assert es[k] in multiset(sorted);
      var p :| 0 <= p < |sorted| && sorted[p] == es[k];
      assert u[p] == g;
    }
    forall g | g in u ensures g in gs {
      var p :| 0 <= p < |u| && u[p] == g;
      assert sorted[p] in multiset(es);
      var k :| 0 <= k < |es| && es[k] == sorted[p];
      assert gs[k] == g;
    }
  }

  /**
   * The first `limit` groups of the ranking: as many as there are up to `limit`,
   * drawn from the groups, strictly descending by `(score, fc_value)`, each
   * group left out ranking below every group kept.
   */
  lemma TopGroups(gs: seq<FcGroup>, limit: int)
    requires forall i, j :: 0 <= i < j < |gs| ==> gs[i].fc != gs[j].fc
    ensures var r := Unscored(PyPrefix(SortDesc(ScoredOf(gs), NotBelow), limit));
      && (limit >= 0 ==> |r| == Min(limit, |gs|))
      && (forall g :: g in r ==> g in gs)
      && (forall i, j :: 0 <= i < j < |r| ==> Above(r[i], r[j]))
      && (forall g, h :: g in gs && g !in r && h in r ==> Above(h, g))
      && (limit >= |gs| ==> forall g :: g in gs ==> g in r)
  {
    SortedStrict(gs);
    SortedSameGroups(gs);
    var sorted := SortDesc(ScoredOf(gs), NotBelow);
    var u := Unscored(sorted);
    var r := Unscored(PyPrefix(sorted, limit));
    assert |sorted| == |multiset(sorted)| == |multiset(ScoredOf(gs))| == |gs|;
    UnscoredPrefix(sorted, limit);
    OrderedPrefix(u, |r|);
    if limit >= |gs| {
      assert r == u;
    }
  }

  lemma UnscoredPrefix(sorted: seq<Scored>, limit: int)
    ensures Unscored(PyPrefix(sorted, limit)) == Unscored(sorted)[..|PyPrefix(sorted, limit)|]
  {
  }

  /** In a strictly ordered sequence, what a prefix keeps is above what it drops. */
  lemma OrderedPrefix(u: seq<FcGroup>, k: nat)
    requires k <= |u| && forall i, j :: 0 <= i < j < |u| ==> Above(u[i], u[j])
    ensures forall i, j :: 0 <= i < j < k ==> Above(u[..k][i], u[..k][j])
    ensures forall g, h :: g in u && g !in u[..k] && h in u[..k] ==> Above(h, g)
  {
    forall g, h | g in u && g !in u[..k] && h in u[..k] ensures Above(h, g) {
      var p :| 0 <= p < |u| && u[p] == g;
      var q :| 0 <= q < k && u[..k][q] == h;
      assert p >= k;
    }
  }


  /**
   * Without `known_fc`, `get_best_fc_candidates` returns the first
   * `max_candidates` of the common FC groups (as many as there are, up to that
   * bound), strictly descending by `(score, fc_value)`; every group left out
   * ranks below every group returned, and a large enough bound returns them all.
   */
  lemma BestFcUnknown(cfg: Config, cards: seq<CardData>, maxCandidates: int)
    requires cfg.knownFc.None? && CommonFc(cfg, cards).Ok?
    ensures var gs := CommonFc(cfg, cards).value;
      var r := BestFc(cfg, cards, maxCandidates).value;
      && (maxCandidates >= 0 ==> |r| == Min(maxCandidates, |gs|))
      && (forall g :: g in r ==> g in gs)
      && (forall i, j :: 0 <= i < j < |r| ==> Above(r[i], r[j]))
      && (forall g, h :: g in gs && g !in r && h in r ==> Above(h, g))
      && (maxCandidates >= |gs| ==> forall g :: g in gs ==> g in r)
  {
    if cards != [] {
      CommonFcUnknown(cfg, cards);
    }
    TopGroups(CommonFc(cfg, cards).value, maxCandidates);
  }

  class RFIDAnalyzer {
    const minBits: int
    const maxBits: int
    const knownFc: Option<int>
    var cards: seq<CardData>
    var cardCounter: nat

    function Cfg(): Config
      reads this
    {
      Config(minBits, maxBits, knownFc)
    }

    /** `__init__`. */
    constructor(minBits: int, maxBits: int, knownFc: Option<int>)
      ensures this.minBits == minBits && this.maxBits == maxBits && this.knownFc == knownFc
      ensures cards == [] && cardCounter == 0
    {
      this.minBits := minBits;
      this.maxBits := maxBits;
      this.knownFc := knownFc;
      cards := [];
      cardCounter := 0;
    }

    /**
     * `add_card`: an unnamed card advances the counter and takes its name
     * before the payload is validated, so a rejected card still advances it;
     * only a valid card is appended.
     */
    method AddCard(hexData: string, knownCn: int, name: Option<string>) returns (r: Result<CardData>)
      modifies this
      ensures cardCounter == if name.None? then old(cardCounter) + 1 else old(cardCounter)
      ensures r == NewCardData(hexData, knownCn, if name.Some? then name.value else DefaultName(cardCounter))
      ensures cards == old(cards) + (if r.Ok? then [r.value] else [])
    {
      var cardName: string;
      if name.None? {
        cardCounter := cardCounter + 1;
        cardName := DefaultName(cardCounter);
      } else {
        cardName := name.value;
      }
      r := NewCardData(hexData, knownCn, cardName);
      if r.Ok? {
        cards := cards + [r.value];
      }
    }

    /** `find_matches_single_card`. */
    method FindMatchesSingleCard(card: CardData, targetFc: Option<int>) returns (r: Result<seq<Match>>)
      ensures r == MatchesOf(Cfg(), card, targetFc)
    {
      var searchFc := if knownFc.Some? then knownFc else targetFc;
      var raw := HexToBinary(card.hexData);
      if raw.ValueError? {
        return ValueError(raw.input);
      }
      var q := Query(minBits, maxBits, searchFc, Some(card.knownCn), card.name);
      var ms := FindMatches(raw.value, q);
      return Ok(ms);
    }

    /** `find_common_fc`. */
    method FindCommonFc() returns (r: Result<seq<FcGroup>>)
      ensures r == CommonFc(Cfg(), cards)
    {
      if cards == [] {
        return Ok([]);
      }
      if knownFc.Some? {
        r := CollectKnownFc();
        return;
      }
      r := CollectCommonFc();
    }

    /** The `known_fc` branch of `find_common_fc`. */
    method CollectKnownFc() returns (r: Result<seq<FcGroup>>)
      requires cards != [] && knownFc.Some?
      ensures r == CommonFc(Cfg(), cards)
    {
      ghost var rs := Results(Cfg(), cards);
      var matches := [];
      for i := 0 to |cards|
        invariant Concat(rs[..i]) == Ok(matches)
      {
        ConcatStep(rs, i);
        var found := FindMatchesSingleCard(cards[i], None);
        if found.ValueError? {
          ConcatPrefixError(rs, i + 1);
          return ValueError(found.input);
        }
        matches := matches + found.value;
      }
      assert rs[..|cards|] == rs;
      if matches == [] {
        return Ok([]);
      }
      return Ok([FcGroup(knownFc.value, matches)]);
    }

    /** The branch of `find_common_fc` without `known_fc`: count FC values per card, keep the ones on every card. */
    method CollectCommonFc() returns (r: Result<seq<FcGroup>>)
      requires cards != [] && knownFc.None?
      ensures r == CommonFc(Cfg(), cards)
    {
      var scanned, fcCounts := ScanCards();
      if scanned.ValueError? {
        return ValueError(scanned.input);
      }
      var d := scanned.value;
      CommonFcOfDict(Cfg(), cards, d);
      var commonFcs := CommonFcs(fcCounts, |cards|);
      CommonFcsSpec(fcCounts, Results(Cfg(), cards));
      var pool := KeepCommonFcs(d, commonFcs, Results(Cfg(), cards));
      var out := GroupFcMatches(pool);
      r := Ok(out);
    }

    /** `get_best_fc_candidates`. */
    method GetBestFcCandidates(maxCandidates: int) returns (r: Result<seq<FcGroup>>)
      ensures r == BestFc(Cfg(), cards, maxCandidates)
    {
      var common := FindCommonFc();
      if common.ValueError? {
        return ValueError(common.input);
      }
      var gs := common.value;
      if knownFc.Some? {
        return Ok(LookupFc(gs, knownFc.value));
      }
      var scored: seq<Scored> := [];
      for i := 0 to |gs|
        invariant |scored| == i && forall k :: 0 <= k < i ==> scored[k] == Rank(gs[k])
      {
        var score := ScoreFc(gs[i].matches);
        scored := scored + [Scored(score, gs[i].fc, gs[i].matches)];
      }
      assert scored == ScoredOf(gs);
      var sorted := SortDesc(scored, NotBelow);
      r := Ok(Unscored(PyPrefix(sorted, maxCandidates)));
    }

    /** The card loop of `find_common_fc`: fill `all_matches` and count each card's FC values once. */
    method ScanCards() returns (r: Result<Dict<seq<Match>>>, fcCounts: map<nat, nat>)
      ensures r == FromEntries(KeyedResults(Cfg(), cards))
      ensures r.Ok? ==> forall fc :: Get(fcCounts, fc) == FcCount(Results(Cfg(), cards), fc)
    {
      ghost var es := KeyedResults(Cfg(), cards);
      ghost var rs := Results(Cfg(), cards);
      var keys: seq<string> := [];
      var allMatches: map<string, seq<Match>> := map[];
      fcCounts := map[];
      for i := 0 to |cards|
        invariant FromEntries(es[..i]) == Ok(Dict(keys, allMatches))
        invariant forall fc :: Get(fcCounts, fc) == FcCount(rs[..i], fc)
      {
        var found := FindMatchesSingleCard(cards[i], None);
        if found.ValueError? {
          ScanError(Cfg(), cards, i);
          return ValueError(found.input), fcCounts;
        }
        var key := if cards[i].name != [] then cards[i].name else cards[i].hexData;
        ScanStep(Cfg(), cards, i, keys, allMatches, found.value);
        if key !in allMatches {
          keys := keys + [key];
        }
        allMatches := allMatches[key := found.value];
        var counts' := CountCard(fcCounts, found.value);
        CountStep(Cfg(), cards, i, fcCounts, counts', found.value);
        fcCounts := counts';
      }
      assert es[..|cards|] == es;
      assert rs[..|cards|] == rs;
      r := Ok(Dict(keys, allMatches));
    }
  }

  /** The `fc_matches` loop, filtering: the dict's matches in key order whose value is in `common_fcs`. */
  lemma KeepCommonStep(prefix: seq<Match>, ms: seq<Match>, j: nat, rs: seq<Result<seq<Match>>>)
    requires j < |ms|
    ensures KeepCommon(prefix + ms[..j + 1], rs) ==
      KeepCommon(prefix + ms[..j], rs) + (if FcCount(rs, ms[j].fcValue) == |rs| then [ms[j]] else [])
  {
    SnocSlice(prefix, ms, j);
    KeepCommonSnoc(prefix + ms[..j], ms[j], rs);
  }

  /** The inner `for match in matches` loop of `fc_matches`: extends the kept prefix by `ms`. */
  method AppendKeepCommon(pool: seq<Match>, ghost prefix: seq<Match>, ms: seq<Match>, commonFcs: set<nat>,
                          ghost rs: seq<Result<seq<Match>>>) returns (r: seq<Match>)
    requires forall fc :: fc in commonFcs <==> FcCount(rs, fc) == |rs|
    requires pool == KeepCommon(prefix, rs)
    ensures r == KeepCommon(prefix + ms, rs)
  {
    r := pool;
    assert prefix + ms[..0] == prefix;
    for j := 0 to |ms|
      invariant r == KeepCommon(prefix + ms[..j], rs)
    {
      KeepCommonStep(prefix, ms, j, rs);
      if ms[j].fcValue in commonFcs {
        r := r + [ms[j]];
      }
    }
    assert ms[..|ms|] == ms;
  }

  method KeepCommonFcs(d: Dict<seq<Match>>, commonFcs: set<nat>, ghost rs: seq<Result<seq<Match>>>) returns (pool: seq<Match>)
    requires Valid(d)
    requires forall fc :: fc in commonFcs <==> FcCount(rs, fc) == |rs|
    ensures pool == KeepCommon(Values(d, d.keys), rs)
  {
    pool := [];
    var keys := d.keys;
    for i := 0 to |keys|
      invariant pool == KeepCommon(Values(d, keys[..i]), rs)
    {
      ValuesStep(d, keys, i);
      pool := AppendKeepCommon(pool, Values(d, keys[..i]), d.values[keys[i]], commonFcs, rs);
    }
    assert keys[..|keys|] == keys;
  }

  /** The scoring loop of `get_best_fc_candidates` for one FC value. */
  method ScoreFc(matches: seq<Match>) returns (score: nat)
    ensures score == HalfPoints(matches)
  {
    var cardsWithFc: map<string, seq<Match>> := map[];
    for i := 0 to |matches|
      invariant cardsWithFc.Keys == CardLabels(matches[..i])
    {
      assert CardLabels(matches[..i + 1]) == CardLabels(matches[..i]) + {CardLabel(matches[i])} by {
        assert forall m :: m in matches[..i + 1] <==> m in matches[..i] || m == matches[i];
      }
      var cardKey := if matches[i].cardName != [] then matches[i].cardName else "unnamed";
      var previous := if cardKey in cardsWithFc then cardsWithFc[cardKey] else [];
      cardsWithFc := cardsWithFc[cardKey := previous + [matches[i]]];
    }
    assert matches[..|matches|] == matches;
    score := 2 * |cardsWithFc.Keys|;
    if |cardsWithFc.Keys| > 1 {
      var windowLengths := set m | m in matches :: m.windowLength;
      if |windowLengths| == 1 {
        score := score + 1;
      }
      var fcLengths := set m | m in matches :: m.fcLength;
      if |fcLengths| == 1 {
        score := score + 1;
      }
    }
  }

  /** `counter[k]`, which is 0 for a missing key. */
  function Get(counts: map<nat, nat>, k: nat): nat {
    if k in counts then counts[k] else 0
  }

  /** The dict comprehension keeping the FC values whose count equals the number of cards `n`. */
  function CommonFcs(counts: map<nat, nat>, n: nat): (common: set<nat>)
    ensures forall fc :: fc in common <==> fc in counts && counts[fc] == n
  {
    set fc | fc in counts && counts[fc] == n
  }

  /** With a count per value of every card, the common values are those on every card. */
  lemma CommonFcsSpec(counts: map<nat, nat>, rs: seq<Result<seq<Match>>>)
    requires rs != [] && forall fc :: Get(counts, fc) == FcCount(rs, fc)
    ensures forall fc :: fc in CommonFcs(counts, |rs|) <==> FcCount(rs, fc) == |rs|
  {
    forall fc ensures fc in CommonFcs(counts, |rs|) <==> FcCount(rs, fc) == |rs| {
      assert Get(counts, fc) == FcCount(rs, fc);
    }
  }

  /** The unknown-FC branch of `find_common_fc`, once the dict of matches is built. */
  lemma CommonFcOfDict(cfg: Config, cards: seq<CardData>, d: Dict<seq<Match>>)
    requires cards != [] && cfg.knownFc.None? && FromEntries(KeyedResults(cfg, cards)) == Ok(d)
    ensures Valid(d)
    ensures CommonFc(cfg, cards) == Ok(GroupsOf(KeepCommon(Values(d, d.keys), Results(cfg, cards))))
  {
    FromEntriesKeys(KeyedResults(cfg, cards));
  }

  /** The `fc_matches` dict in first-occurrence order of its keys. */
  method GroupFcMatches(pool: seq<Match>) returns (out: seq<FcGroup>)
    ensures out == GroupsOf(pool)
  {
    var fcs, groups := GroupBy(pool, ByFc);
    out := seq(|fcs|, i requires 0 <= i < |fcs| => FcGroup(fcs[i], groups[fcs[i]]));
  }

  /** A card whose matches are found extends the dict of the cards before it. */
  lemma ScanStep(cfg: Config, cards: seq<CardData>, i: nat, keys: seq<string>, values: map<string, seq<Match>>, v: seq<Match>)
    requires i < |cards| && MatchesOf(cfg, cards[i], None) == Ok(v)
    requires FromEntries(KeyedResults(cfg, cards)[..i]) == Ok(Dict(keys, values))
    ensures var key := CardKey(cards[i]);
      FromEntries(KeyedResults(cfg, cards)[..i + 1]) ==
        Ok(Dict(if key in values then keys else keys + [key], values[key := v]))
  {
    FromEntriesStep(KeyedResults(cfg, cards), i);
  }

  /** A card whose matches raise makes the whole dict raise with its error. */
  lemma ScanError(cfg: Config, cards: seq<CardData>, i: nat)
    requires i < |cards| && MatchesOf(cfg, cards[i], None).ValueError?
    requires FromEntries(KeyedResults(cfg, cards)[..i]).Ok?
    ensures FromEntries(KeyedResults(cfg, cards)) == ValueError(MatchesOf(cfg, cards[i], None).input)
  {
    var es := KeyedResults(cfg, cards);
    FromEntriesStep(es, i);
    FromEntriesPrefixError(es, i + 1);
  }

  /** Counting one more card's values extends the counts of the cards before it. */
  lemma CountStep(cfg: Config, cards: seq<CardData>, i: nat, counts: map<nat, nat>, counts': map<nat, nat>, v: seq<Match>)
    requires i < |cards| && MatchesOf(cfg, cards[i], None) == Ok(v)
    requires forall fc :: Get(counts, fc) == FcCount(Results(cfg, cards)[..i], fc)
    requires forall fc :: Get(counts', fc) == Get(counts, fc) + (if fc in FcSet(v) then 1 else 0)
    ensures forall fc :: Get(counts', fc) == FcCount(Results(cfg, cards)[..i + 1], fc)
  {
    var rs := Results(cfg, cards);
    assert rs[..i + 1][..i] == rs[..i];
    assert rs[i] == Ok(v);
  }

  /** One card's step of the `fc_counts` loop: each FC value of its matches counted once. */
  method CountCard(counts: map<nat, nat>, cardMatches: seq<Match>) returns (counts': map<nat, nat>)
    ensures forall fc :: Get(counts', fc) == Get(counts, fc) + (if fc in FcSet(cardMatches) then 1 else 0)
  {
    var unique: set<nat> := {};
    for j := 0 to |cardMatches|
      invariant unique == FcSet(cardMatches[..j])
    {
      assert cardMatches[..j + 1] == cardMatches[..j] + [cardMatches[j]];
      unique := unique + {cardMatches[j].fcValue};
    }
    assert cardMatches[..|cardMatches|] == cardMatches;
    counts' := counts;
    var todo := unique;
    while todo != {}
      invariant todo <= unique
      invariant forall fc :: Get(counts', fc) == Get(counts, fc) + (if fc in unique - todo then 1 else 0)
      decreases |todo|
    {
      var fc :| fc in todo;
      counts' := counts'[fc := Get(counts', fc) + 1];
      todo := todo - {fc};
    }
  }
}
