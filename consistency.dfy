/**
 * `_filter_consistent_matches` (identical in analyzer.py and main.py) and the
 * known-CN consolidation of matches grouped by FC value into candidates.
 *
 * The filter groups the matches by card name; the first card in dict order is
 * the anchor. For each anchor match it looks, card by card, for the first
 * match with the same signature, and keeps the anchor match with its partners
 * only when every other card has one.
 */
module Consistency {
  import opened Basics
  import opened Matching
  import opened Grouping

  function ByCard(m: Match): string { m.cardName }

  function ByFc(m: Match): nat { m.fcValue }

  /** `next((m for m in ms if m.get_signature() == sig), None)`. */
  function FindSig(ms: seq<Match>, sig: Signature): (r: Option<Match>)
    ensures r.Some? ==> exists i :: (0 <= i < |ms| && ms[i] == r.value && GetSignature(ms[i]) == sig &&
      forall j :: 0 <= j < i ==> GetSignature(ms[j]) != sig)
    ensures r.None? <==> forall m :: m in ms ==> GetSignature(m) != sig
  {
    match FindSigFrom(ms, sig, 0)
    case Some(i) => Some(ms[i])
    case None => None
  }

  /** The index of the first match from `i` on with signature `sig`. */
  function FindSigFrom(ms: seq<Match>, sig: Signature, i: nat): (r: Option<nat>)
    requires i <= |ms|
    ensures r.Some? ==> i <= r.value < |ms| && GetSignature(ms[r.value]) == sig
    ensures r.Some? ==> forall j :: i <= j < r.value ==> GetSignature(ms[j]) != sig
    ensures r.None? <==> forall j :: i <= j < |ms| ==> GetSignature(ms[j]) != sig
    decreases |ms| - i
  {
    if i == |ms| then None
    else if GetSignature(ms[i]) == sig then Some(i)
    else FindSigFrom(ms, sig, i + 1)
  }


  /**
   * The inner `for card_name, card_match_list in card_matches.items()` loop for
   * one signature: skip the anchor, take each other card's first match with the
   * signature, and give up (`break`) at the first card without one.
   */
  function Partners(ms: seq<Match>, keys: seq<string>, anchor: string, sig: Signature): Option<seq<Match>> {
    if keys == [] then Some([])
    else
      match Partners(ms, keys[..|keys| - 1], anchor, sig)
      case None => None
      case Some(ps) =>
        var k := keys[|keys| - 1];
        if k == anchor then Some(ps)
        else
          match FindSig(Select(ms, ByCard, k), sig)
          case None => None
          case Some(x) => Some(ps + [x])
  }

  /** The anchor match `a` with its partners, when every other card has one. */
  function Block(ms: seq<Match>, keys: seq<string>, anchor: string, a: Match): Option<seq<Match>> {
    match Partners(ms, keys, anchor, GetSignature(a))
    case None => None
    case Some(ps) => Some([a] + ps)
  }

  /** The outer loop over the anchor's matches: `valid_matches.extend(pattern_matches)` for each complete block. */
  function Blocks(ms: seq<Match>, keys: seq<string>, anchor: string, anchors: seq<Match>): seq<Match> {
    if anchors == [] then []
    else
      Blocks(ms, keys, anchor, anchors[..|anchors| - 1]) +
        match Block(ms, keys, anchor, anchors[|anchors| - 1])
        case None => []
        case Some(b) => b
  }

  /**
   * `_filter_consistent_matches(ms)`. An empty list makes `next(iter({}))`
   * raise `StopIteration`; every caller passes a non-empty FC group.
   */
  function FilterConsistent(ms: seq<Match>): seq<Match>
    requires ms != []
  {
    KeyOrderFirst(ms, ByCard);
    var keys := KeyOrder(ms, ByCard);
    Blocks(ms, keys, keys[0], Select(ms, ByCard, keys[0]))
  }

  /** Each card name at most once. */
  predicate NamesDistinct(ms: seq<Match>) {
    forall i, j :: 0 <= i < j < |ms| ==> ms[i].cardName != ms[j].cardName
  }

  /** A subset is no larger than its superset, and equal to it when as large. */
  lemma SubsetSize<T>(a: set<T>, b: set<T>)
    requires a <= b
    ensures |a| <= |b|
    ensures |a| == |b| ==> a == b
  {
    assert b == a + (b - a);
    assert |b| == |a| + |b - a|;
  }

  /** With each name at most once, there are as many names as matches. */
  lemma {:induction false} NamesDistinctCount(ms: seq<Match>)
    requires NamesDistinct(ms)
    ensures |CardNames(ms)| == |ms|
  {
    if ms != [] {
      var init := ms[..|ms| - 1];
      assert NamesDistinct(init);
      NamesDistinctCount(init);
      assert CardNames(ms) == CardNames(init) + {ms[|ms| - 1].cardName} by {
        assert forall m :: m in ms <==> m in init || m == ms[|ms| - 1];
      }
      assert ms[|ms| - 1].cardName !in CardNames(init);
    }
  }

  /** Every card of `ms` has a match with signature `sig`. */
  predicate SigOnAllCards(ms: seq<Match>, sig: Signature) {
    forall n :: n in CardNames(ms) ==> exists m :: m in ms && m.cardName == n && GetSignature(m) == sig
  }

  lemma {:induction false} KeyOrderFirst<K>(ms: seq<Match>, key: Match -> K)
    requires ms != []
    ensures KeyOrder(ms, key) != [] && KeyOrder(ms, key)[0] == key(ms[0])
  {
    if |ms| > 1 {
      var init := ms[..|ms| - 1];
      KeyOrderFirst(init, key);
      assert init[0] == ms[0];
    }
  }

  lemma {:induction false} PartnersSpec(ms: seq<Match>, keys: seq<string>, anchor: string, sig: Signature)
    requires Distinct(keys)
    ensures Partners(ms, keys, anchor, sig).Some? <==>
      forall k :: k in keys && k != anchor ==> exists m :: m in ms && m.cardName == k && GetSignature(m) == sig
    ensures Partners(ms, keys, anchor, sig).Some? ==>
      var ps := Partners(ms, keys, anchor, sig).value;
      && (forall x :: x in ps ==> x in ms && GetSignature(x) == sig && x.cardName in keys && x.cardName != anchor)
      && (forall k :: k in keys && k != anchor ==> exists x :: x in ps && x.cardName == k)
      && NamesDistinct(ps)
  {
    if keys != [] {
      var init, k := keys[..|keys| - 1], keys[|keys| - 1];
      assert Distinct(init);
      PartnersSpec(ms, init, anchor, sig);
      assert forall x :: x in keys <==> x in init || x == k;
      assert k !in init;
      SelectMem(ms, ByCard, k);
      var f := FindSig(Select(ms, ByCard, k), sig);
      if Partners(ms, init, anchor, sig).Some? && k != anchor && f.Some? {
        var ps := Partners(ms, init, anchor, sig).value;
        assert f.value in Select(ms, ByCard, k);
        assert forall x :: x in ps + [f.value] <==> x in ps || x == f.value;
      }
    }
  }

  lemma PartnersNoneExtends(ms: seq<Match>, keys: seq<string>, anchor: string, sig: Signature, k: nat)
    requires k <= |keys| && Partners(ms, keys[..k], anchor, sig).None?
    ensures Partners(ms, keys, anchor, sig).None?
    decreases |keys| - k
  {
    if k < |keys| {
      assert keys[..k + 1][..k] == keys[..k];
      PartnersNoneExtends(ms, keys, anchor, sig, k + 1);
    } else {
      assert keys[..k] == keys;
    }
  }

  lemma ConsNamesDistinct(a: Match, ps: seq<Match>)
    requires NamesDistinct(ps) && forall x :: x in ps ==> x.cardName != a.cardName
    ensures NamesDistinct([a] + ps)
  {
    var b := [a] + ps;
    forall i, j | 0 <= i < j < |b| ensures b[i].cardName != b[j].cardName {
      if i == 0 {
        assert b[j] in ps;
      } else {
        assert b[i] == ps[i - 1] && b[j] == ps[j - 1];
      }
    }
  }

  /**
   * A block exists exactly when every card has a match with the anchor match's
   * signature; it then holds one match per card, the anchor match first, all
   * with that signature.
   */
  lemma BlockSpec(ms: seq<Match>, a: Match)
    requires ms != [] && a in ms && a.cardName == ms[0].cardName
    ensures var keys := KeyOrder(ms, ByCard);
      Block(ms, keys, keys[0], a).Some? <==> SigOnAllCards(ms, GetSignature(a))
    ensures var keys := KeyOrder(ms, ByCard);
      Block(ms, keys, keys[0], a).Some? ==>
        var b := Block(ms, keys, keys[0], a).value;
        && b[0] == a
        && (forall x :: x in b ==> x in ms && GetSignature(x) == GetSignature(a))
        && NamesDistinct(b)
        && CardNames(b) == CardNames(ms)
  {
    var keys := KeyOrder(ms, ByCard);
    KeyOrderFirst(ms, ByCard);
    if Block(ms, keys, keys[0], a).Some? {
      BlockComplete(ms, a);
    } else {
      BlockIncomplete(ms, a);
    }
  }

  lemma BlockComplete(ms: seq<Match>, a: Match)
    requires ms != [] && a in ms && a.cardName == ms[0].cardName
    requires KeyOrder(ms, ByCard) != [] && Block(ms, KeyOrder(ms, ByCard), KeyOrder(ms, ByCard)[0], a).Some?
    ensures var keys := KeyOrder(ms, ByCard);
      var b := Block(ms, keys, keys[0], a).value;
      && SigOnAllCards(ms, GetSignature(a))
      && b[0] == a
      && (forall x :: x in b ==> x in ms && GetSignature(x) == GetSignature(a))
      && NamesDistinct(b)
      && CardNames(b) == CardNames(ms)
  {
    var keys := KeyOrder(ms, ByCard);
    KeyOrderMem(ms, ByCard);
    KeyOrderFirst(ms, ByCard);
    var anchor := keys[0];
    PartnersSpec(ms, keys, anchor, GetSignature(a));
    var ps := Partners(ms, keys, anchor, GetSignature(a)).value;
    var b := [a] + ps;
    assert forall n :: n in CardNames(ms) <==> n in keys;
    assert forall x :: x in b <==> x == a || x in ps;
    assert forall n :: n in CardNames(b) ==> n in CardNames(ms);
    forall n | n in CardNames(ms) ensures n in CardNames(b) {
      if n != anchor {
        var x :| x in ps && x.cardName == n;
      }
    }
    forall n | n in CardNames(ms) ensures exists m :: m in ms && m.cardName == n && GetSignature(m) == GetSignature(a) {
      if n != anchor {
        var x :| x in ps && x.cardName == n;
      }
    }
    ConsNamesDistinct(a, ps);
  }

  lemma BlockIncomplete(ms: seq<Match>, a: Match)
    requires ms != [] && a in ms && a.cardName == ms[0].cardName
    requires KeyOrder(ms, ByCard) != [] && Block(ms, KeyOrder(ms, ByCard), KeyOrder(ms, ByCard)[0], a).None?
    ensures !SigOnAllCards(ms, GetSignature(a))
  {
    var keys := KeyOrder(ms, ByCard);
    KeyOrderMem(ms, ByCard);
    var anchor := keys[0];
    PartnersSpec(ms, keys, anchor, GetSignature(a));
    var n :| n in keys && n != anchor && !exists m :: m in ms && m.cardName == n && GetSignature(m) == GetSignature(a);
    assert n in CardNames(ms);
  }

  /** `m` belongs to the complete block of anchor match `a`. */
  predicate InBlock(ms: seq<Match>, keys: seq<string>, anchor: string, a: Match, m: Match) {
    Block(ms, keys, anchor, a).Some? && m in Block(ms, keys, anchor, a).value
  }

  /** The matches of `a`'s block, none when it is incomplete. */
  function BlockItems(ms: seq<Match>, keys: seq<string>, anchor: string, a: Match): seq<Match> {
    match Block(ms, keys, anchor, a)
    case None => []
    case Some(b) => b
  }

  /** `f(xs[0]) + f(xs[1]) + ...` */
  function Flatten<T, U>(f: T -> seq<U>, xs: seq<T>): seq<U> {
    if xs == [] then [] else Flatten(f, xs[..|xs| - 1]) + f(xs[|xs| - 1])
  }

  lemma {:induction false} FlattenMem<T, U>(f: T -> seq<U>, xs: seq<T>)
    ensures forall u :: u in Flatten(f, xs) <==> exists i :: 0 <= i < |xs| && u in f(xs[i])
  {
    if xs != [] {
      var init := xs[..|xs| - 1];
      FlattenMem(f, init);
      assert forall i :: 0 <= i < |init| ==> init[i] == xs[i];
    }
  }

  lemma {:induction false} BlocksFlatten(ms: seq<Match>, keys: seq<string>, anchor: string, anchors: seq<Match>)
    ensures Blocks(ms, keys, anchor, anchors) == Flatten(a => BlockItems(ms, keys, anchor, a), anchors)
  {
    if anchors != [] {
      BlocksFlatten(ms, keys, anchor, anchors[..|anchors| - 1]);
    }
  }

  lemma BlocksMem(ms: seq<Match>, keys: seq<string>, anchor: string, anchors: seq<Match>)
    ensures forall m :: m in Blocks(ms, keys, anchor, anchors) <==>
      exists i :: 0 <= i < |anchors| && InBlock(ms, keys, anchor, anchors[i], m)
  {
    var f := a => BlockItems(ms, keys, anchor, a);
    BlocksFlatten(ms, keys, anchor, anchors);
    FlattenMem(f, anchors);
    assert forall a, m :: m in f(a) <==> InBlock(ms, keys, anchor, a, m);
  }

  /**
   * `_filter_consistent_matches`: every kept match comes from the input and
   * has a signature present on every card; every anchor-card match whose
   * signature is on every card is kept; and a non-empty result covers every card.
   */
  lemma FilterConsistentSpec(ms: seq<Match>)
    requires ms != []
    ensures forall m :: m in FilterConsistent(ms) ==> m in ms && SigOnAllCards(ms, GetSignature(m))
    ensures forall a :: a in ms && a.cardName == ms[0].cardName && SigOnAllCards(ms, GetSignature(a)) ==>
      a in FilterConsistent(ms)
    ensures FilterConsistent(ms) != [] ==> CardNames(FilterConsistent(ms)) == CardNames(ms)
  {
    forall m | m in FilterConsistent(ms) ensures m in ms && SigOnAllCards(ms, GetSignature(m)) {
      KeptIsConsistent(ms, m);
    }
    forall a | a in ms && a.cardName == ms[0].cardName && SigOnAllCards(ms, GetSignature(a))
      ensures a in FilterConsistent(ms)
    {
      ConsistentIsKept(ms, a);
    }
    if FilterConsistent(ms) != [] {
      KeptCoversCards(ms);
    }
  }

  /** The block of the filter's output that holds `m`. */
  lemma BlockOf(ms: seq<Match>, m: Match) returns (a: Match, b: seq<Match>)
    requires ms != [] && m in FilterConsistent(ms)
    ensures a in ms && a.cardName == ms[0].cardName
    ensures Block(ms, KeyOrder(ms, ByCard), KeyOrder(ms, ByCard)[0], a) == Some(b) && m in b
  {
    var keys := KeyOrder(ms, ByCard);
    KeyOrderFirst(ms, ByCard);
    var anchors := Select(ms, ByCard, keys[0]);
    SelectMem(ms, ByCard, keys[0]);
    BlocksMem(ms, keys, keys[0], anchors);
    var i :| 0 <= i < |anchors| && InBlock(ms, keys, keys[0], anchors[i], m);
    a := anchors[i];
    assert a in anchors;
    b := Block(ms, keys, keys[0], a).value;
  }

  lemma KeptIsConsistent(ms: seq<Match>, m: Match)
    requires ms != [] && m in FilterConsistent(ms)
    ensures m in ms && SigOnAllCards(ms, GetSignature(m))
  {
    var a, b := BlockOf(ms, m);
    BlockSpec(ms, a);
  }

  lemma ConsistentIsKept(ms: seq<Match>, a: Match)
    requires ms != [] && a in ms && a.cardName == ms[0].cardName && SigOnAllCards(ms, GetSignature(a))
    ensures a in FilterConsistent(ms)
  {
    var keys := KeyOrder(ms, ByCard);
    KeyOrderFirst(ms, ByCard);
    var anchors := Select(ms, ByCard, keys[0]);
    SelectMem(ms, ByCard, keys[0]);
    assert a in anchors;
    var i :| 0 <= i < |anchors| && anchors[i] == a;
    BlockSpec(ms, a);
    var b := Block(ms, keys, keys[0], a).value;
    assert a == b[0] && a in b;
    BlocksMem(ms, keys, keys[0], anchors);
  }

  lemma KeptCoversCards(ms: seq<Match>)
    requires ms != [] && FilterConsistent(ms) != []
    ensures CardNames(FilterConsistent(ms)) == CardNames(ms)
  {
    var r := FilterConsistent(ms);
    assert r[0] in r;
    var a, b := BlockOf(ms, r[0]);
    BlockSpec(ms, a);
    forall n | n in CardNames(ms) ensures n in CardNames(r) {
      assert n in CardNames(b);
      var x :| x in b && x.cardName == n;
      BlocksMem(ms, KeyOrder(ms, ByCard), KeyOrder(ms, ByCard)[0], Select(ms, ByCard, KeyOrder(ms, ByCard)[0]));
      SelectMem(ms, ByCard, KeyOrder(ms, ByCard)[0]);
      KeyOrderFirst(ms, ByCard);
      var anchors := Select(ms, ByCard, KeyOrder(ms, ByCard)[0]);
      assert a in anchors;
      var i :| 0 <= i < |anchors| && anchors[i] == a;
      assert x in r;
    }
    forall n | n in CardNames(r) ensures n in CardNames(ms) {
      var x :| x in r && x.cardName == n;
      KeptIsConsistent(ms, x);
    }
  }

  /** `_filter_consistent_matches`. */
  method FilterConsistentMatches(ms: seq<Match>) returns (valid: seq<Match>)
    requires ms != []
    ensures valid == FilterConsistent(ms)
  {
    var keys, groups := GroupBy(ms, ByCard);
    KeyOrderFirst(ms, ByCard);
    var first := keys[0];
    valid := CollectBlocks(ms, keys, groups, first, groups[first]);
  }

  /** The anchor loop of `_filter_consistent_matches`: each anchor with its partners, when it has them. */
  method CollectBlocks(ms: seq<Match>, keys: seq<string>, groups: map<string, seq<Match>>, first: string, anchors: seq<Match>)
    returns (valid: seq<Match>)
    requires forall k :: k in keys ==> k in groups && groups[k] == Select(ms, ByCard, k)
    ensures valid == Blocks(ms, keys, first, anchors)
  {
    valid := [];
    for i := 0 to |anchors|
      invariant valid == Blocks(ms, keys, first, anchors[..i])
    {
      var a := anchors[i];
      var partners := FindPartners(ms, keys, groups, first, GetSignature(a));
      BlocksStep(ms, keys, first, anchors, i);
      if partners.Some? {
        valid := valid + ([a] + partners.value);
      }
    }
    assert anchors[..|anchors|] == anchors;
  }

  lemma BlocksStep(ms: seq<Match>, keys: seq<string>, anchor: string, anchors: seq<Match>, i: nat)
    requires i < |anchors|
    ensures Blocks(ms, keys, anchor, anchors[..i + 1]) ==
      Blocks(ms, keys, anchor, anchors[..i]) +
        match Partners(ms, keys, anchor, GetSignature(anchors[i]))
        case None => []
        case Some(ps) => [anchors[i]] + ps
  {
    assert anchors[..i + 1][..i] == anchors[..i];
  }

  /**
   * The inner loop with its `for ... else`: the partners of one anchor
   * signature, or `None` when the loop stops at a card without one.
   */
  method FindPartners(ms: seq<Match>, keys: seq<string>, groups: map<string, seq<Match>>, first: string, sig: Signature)
    returns (partners: Option<seq<Match>>)
    requires forall k :: k in keys ==> k in groups && groups[k] == Select(ms, ByCard, k)
    ensures partners == Partners(ms, keys, first, sig)
  {
    var found: seq<Match> := [];
    var k := 0;
    while k < |keys|
      invariant 0 <= k <= |keys|
      invariant Partners(ms, keys[..k], first, sig) == Some(found)
    {
      var name := keys[k];
      assert keys[..k + 1][..k] == keys[..k];
      if name != first {
        var m := FindSig(groups[name], sig);
        if m.None? {
          PartnersNoneExtends(ms, keys, first, sig, k + 1);
          return None;
        }
        found := found + [m.value];
      }
      k := k + 1;
    }
    assert keys[..|keys|] == keys;
    partners := Some(found);
  }

  // ---------------------------------------------------------------------------
  // Known-CN consolidation.
  // ---------------------------------------------------------------------------

  /** What a finishing step (format matching, boost) may change: only the format and the boost. */
  ghost predicate KeepsMatches(finish: FCCandidate -> FCCandidate) {
    forall c :: finish(c).fcValue == c.fcValue && finish(c).matches == c.matches &&
      finish(c).consistencyScore == c.consistencyScore
  }

  /**
   * The body of `for fc_value, matches in fc_groups.items()`: with one card,
   * all of the group at consistency 1.0; otherwise the consistent matches, and
   * only when they cover as many card names as there are cards.
   */
  function ConsolidateOne(g: seq<Match>, fc: nat, n: nat): Option<FCCandidate>
    requires g != [] && n >= 1
  {
    if n == 1 then Some(FCCandidate(fc, g, 1.0, 0, None))
    else
      var valid := FilterConsistent(g);
      if valid == [] then None
      else
        var consistency := |CardNames(valid)| as real / n as real;
        if consistency == 1.0 then Some(FCCandidate(fc, valid, consistency, 0, None)) else None
  }

  /** The loop body above as code, before the finishing step. */
  method ConsolidateGroup(g: seq<Match>, fc: nat, n: nat) returns (r: Option<FCCandidate>)
    requires g != [] && n >= 1
    ensures r == ConsolidateOne(g, fc, n)
  {
    if n == 1 {
      return Some(FCCandidate(fc, g, 1.0, 0, None));
    }
    var valid := FilterConsistentMatches(g);
    if valid == [] {
      return None;
    }
    var cardCount := |CardNames(valid)|;
    var consistency := cardCount as real / n as real;
    if consistency == 1.0 {
      return Some(FCCandidate(fc, valid, consistency, 0, None));
    }
    return None;
  }

  /** The consolidation loop over the FC groups of `pool`, for the FC values `fcs`, in order. */
  function ConsolidateAll(pool: seq<Match>, n: nat, fcs: seq<nat>, finish: FCCandidate -> FCCandidate): seq<FCCandidate>
    requires n >= 1
    requires forall fc :: fc in fcs ==> fc in KeyOrder(pool, ByFc)
  {
    if fcs == [] then []
    else ConsolidateAll(pool, n, fcs[..|fcs| - 1], finish) + Added(pool, n, fcs[|fcs| - 1], finish)
  }

  /** What one FC group adds: its finished candidate, if it has one. */
  function Added(pool: seq<Match>, n: nat, fc: nat, finish: FCCandidate -> FCCandidate): seq<FCCandidate>
    requires n >= 1 && fc in KeyOrder(pool, ByFc)
  {
    SelectNonEmpty(pool, ByFc, fc);
    match ConsolidateOne(Select(pool, ByFc, fc), fc, n)
    case None => []
    case Some(c) => [finish(c)]
  }

  lemma AddedSpec(pool: seq<Match>, n: nat, fc: nat, finish: FCCandidate -> FCCandidate)
    requires n >= 1 && KeepsMatches(finish) && fc in KeyOrder(pool, ByFc)
    ensures var add := Added(pool, n, fc, finish);
      && |add| <= 1
      && (n == 1 ==> |add| == 1 && add[0].fcValue == fc && add[0].matches == Select(pool, ByFc, fc))
      && (forall c :: c in add ==>
            && c.fcValue == fc && c.consistencyScore == 1.0 && c.matches != []
            && (forall m :: m in c.matches ==> m in pool && m.fcValue == c.fcValue)
            && (n > 1 ==> CardCount(c) == n))
      && (n > 1 ==> (|add| == 1 <==> FullyConsistent(pool, n, fc)))
      && (n > 1 ==> forall c :: c in add ==> Select(pool, ByFc, fc) != [] && c.matches == FilterConsistent(Select(pool, ByFc, fc)))
  {
    SelectMem(pool, ByFc, fc);
    SelectNonEmpty(pool, ByFc, fc);
    ConsolidateOneSpec(Select(pool, ByFc, fc), fc, n);
  }

  lemma ConsolidateAllStep(pool: seq<Match>, n: nat, fcs: seq<nat>, i: nat, finish: FCCandidate -> FCCandidate)
    requires n >= 1 && i < |fcs|
    requires forall fc :: fc in fcs ==> fc in KeyOrder(pool, ByFc)
    requires Select(pool, ByFc, fcs[i]) != []
    ensures ConsolidateAll(pool, n, fcs[..i + 1], finish) == ConsolidateAll(pool, n, fcs[..i], finish) +
      match ConsolidateOne(Select(pool, ByFc, fcs[i]), fcs[i], n)
      case None => []
      case Some(c) => [finish(c)]
  {
    assert fcs[..i + 1][..i] == fcs[..i];
  }

  /**
   * Whether the consistent matches of the FC group `fc` cover `n` card names,
   * which for several cards is the test that admits the group.
   */
  predicate FullyConsistent(pool: seq<Match>, n: nat, fc: nat) {
    var g := Select(pool, ByFc, fc);
    g != [] && FilterConsistent(g) != [] && |CardNames(FilterConsistent(g))| == n
  }

  /** The known-CN candidates for the matches of `n` cards. */
  function KnownCnCandidates(pool: seq<Match>, n: nat, finish: FCCandidate -> FCCandidate): seq<FCCandidate>
    requires n >= 1
  {
    ConsolidateAll(pool, n, KeyOrder(pool, ByFc), finish)
  }

  /** The candidate of one group: its FC value, matches from the group, full consistency. */
  lemma ConsolidateOneSpec(g: seq<Match>, fc: nat, n: nat)
    requires g != [] && n >= 1
    requires forall m :: m in g ==> m.fcValue == fc
    ensures n == 1 ==> ConsolidateOne(g, fc, n) == Some(FCCandidate(fc, g, 1.0, 0, None))
    ensures ConsolidateOne(g, fc, n).Some? ==>
      var c := ConsolidateOne(g, fc, n).value;
      && c.fcValue == fc && c.consistencyScore == 1.0 && c.matches != []
      && (forall m :: m in c.matches ==> m in g && m.fcValue == fc)
      && (n > 1 ==> c.matches == FilterConsistent(g) && CardCount(c) == n)
    ensures n > 1 ==> (ConsolidateOne(g, fc, n).Some? <==>
      FilterConsistent(g) != [] && |CardNames(FilterConsistent(g))| == n)
  {
    if n > 1 {
      FilterConsistentSpec(g);
      RatioIsOne(|CardNames(FilterConsistent(g))|, n);
    }
  }

  /**
   * The known-CN candidates come in order of first appearance of their FC
   * value; each carries matches of that FC value only, at consistency 1.0, and
   * with several cards covers as many card names as there are cards. With one
   * card, every FC value gives a candidate holding all of its matches.
   */
  lemma {:induction false} ConsolidateAllSpec(pool: seq<Match>, n: nat, fcs: seq<nat>, finish: FCCandidate -> FCCandidate)
    requires n >= 1 && KeepsMatches(finish)
    requires forall fc :: fc in fcs ==> fc in KeyOrder(pool, ByFc)
    requires Distinct(fcs)
    ensures var cs := ConsolidateAll(pool, n, fcs, finish);
      && |cs| <= |fcs|
      && (forall i, j :: 0 <= i < j < |cs| ==> cs[i].fcValue != cs[j].fcValue)
      && (forall c :: c in cs ==>
            && c.fcValue in fcs && c.consistencyScore == 1.0 && c.matches != []
            && (forall m :: m in c.matches ==> m in pool && m.fcValue == c.fcValue)
            && (n > 1 ==> CardCount(c) == n))
      && (n > 1 ==> forall fc :: fc in fcs ==> ((exists c :: c in cs && c.fcValue == fc) <==> FullyConsistent(pool, n, fc)))
      && (n > 1 ==> forall c :: c in cs ==>
            Select(pool, ByFc, c.fcValue) != [] && c.matches == FilterConsistent(Select(pool, ByFc, c.fcValue)))
  {
    if fcs != [] {
      var init, fc := fcs[..|fcs| - 1], fcs[|fcs| - 1];
      assert forall x :: x in fcs <==> x in init || x == fc;
      assert fc !in init;
      ConsolidateAllSpec(pool, n, init, finish);
      AddedSpec(pool, n, fc, finish);
      var prev, add := ConsolidateAll(pool, n, init, finish), Added(pool, n, fc, finish);
      assert forall c :: c in prev + add <==> c in prev || c in add;
      assert forall c :: c in prev ==> c.fcValue != fc;
      FcValuesDistinctConcat(prev, add);
    }
  }

  /** With one card, every FC value gives a candidate holding all of its matches, in order. */
  lemma {:induction false} ConsolidateAllSingle(pool: seq<Match>, fcs: seq<nat>, finish: FCCandidate -> FCCandidate)
    requires KeepsMatches(finish)
    requires forall fc :: fc in fcs ==> fc in KeyOrder(pool, ByFc)
    ensures var cs := ConsolidateAll(pool, 1, fcs, finish);
      |cs| == |fcs| && forall i :: 0 <= i < |cs| ==> cs[i].fcValue == fcs[i] && cs[i].matches == Select(pool, ByFc, fcs[i])
  {
    if fcs != [] {
      var init, fc := fcs[..|fcs| - 1], fcs[|fcs| - 1];
      assert forall x :: x in init ==> x in fcs;
      ConsolidateAllSingle(pool, init, finish);
      AddedSpec(pool, 1, fc, finish);
      var prev, add := ConsolidateAll(pool, 1, init, finish), Added(pool, 1, fc, finish);
      assert forall i :: 0 <= i < |prev| ==> (prev + add)[i] == prev[i] && fcs[i] == init[i];
      assert (prev + add)[|prev|] == add[0];
    }
  }

  lemma FcValuesDistinctConcat(a: seq<FCCandidate>, b: seq<FCCandidate>)
    requires forall i, j :: 0 <= i < j < |a| ==> a[i].fcValue != a[j].fcValue
    requires |b| <= 1
    requires forall x, y :: x in a && y in b ==> x.fcValue != y.fcValue
    ensures forall i, j :: 0 <= i < j < |a + b| ==> (a + b)[i].fcValue != (a + b)[j].fcValue
  {
    forall i, j | 0 <= i < j < |a + b| ensures (a + b)[i].fcValue != (a + b)[j].fcValue {
      if j >= |a| {
        assert (a + b)[i] in a && (a + b)[j] in b;
      }
    }
  }

  /**
   * Every consolidated candidate is the finishing step applied to the fresh
   * candidate of its group: same FC value and matches, consistency 1.0, no
   * boost and no format yet.
   */
  lemma {:induction false} ConsolidateAllFinished(pool: seq<Match>, n: nat, fcs: seq<nat>, finish: FCCandidate -> FCCandidate)
    requires n >= 1 && KeepsMatches(finish)
    requires forall fc :: fc in fcs ==> fc in KeyOrder(pool, ByFc)
    ensures forall c :: c in ConsolidateAll(pool, n, fcs, finish) ==>
      c == finish(FCCandidate(c.fcValue, c.matches, 1.0, 0, None))
  {
    if fcs != [] {
      var init, fc := fcs[..|fcs| - 1], fcs[|fcs| - 1];
      assert forall x :: x in init ==> x in fcs;
      ConsolidateAllFinished(pool, n, init, finish);
      SelectNonEmpty(pool, ByFc, fc);
      var prev := ConsolidateAll(pool, n, init, finish);
      match ConsolidateOne(Select(pool, ByFc, fc), fc, n)
      case None =>
        assert ConsolidateAll(pool, n, fcs, finish) == prev + [];
        assert prev + [] == prev;
      case Some(b) =>
        assert b == FCCandidate(fc, b.matches, 1.0, 0, None);
        FinishedFresh(finish, b);
        assert ConsolidateAll(pool, n, fcs, finish) == prev + [finish(b)];
    }
  }

  lemma FinishedFresh(finish: FCCandidate -> FCCandidate, b: FCCandidate)
    requires KeepsMatches(finish) && b.consistencyScore == 1.0 && b.realWorldBoost == 0 && b.matchedFormat == None
    ensures finish(b) == finish(FCCandidate(finish(b).fcValue, finish(b).matches, 1.0, 0, None))
  {
    assert finish(b).fcValue == b.fcValue && finish(b).matches == b.matches;
    assert b == FCCandidate(b.fcValue, b.matches, 1.0, 0, None);
  }

  /**
   * The lemmas above for the order of the FC groups, which is the order the
   * source iterates them in. With several cards, an FC value is reported
   * exactly when its group's consistent matches cover every card, and those
   * consistent matches are what its candidate holds.
   */
  lemma KnownCnCandidatesSpec(pool: seq<Match>, n: nat, finish: FCCandidate -> FCCandidate)
    requires n >= 1 && KeepsMatches(finish)
    ensures var cs := KnownCnCandidates(pool, n, finish);
      && (n == 1 ==> |cs| == |KeyOrder(pool, ByFc)| && forall i :: 0 <= i < |cs| ==>
            cs[i].fcValue == KeyOrder(pool, ByFc)[i] && cs[i].matches == Select(pool, ByFc, cs[i].fcValue))
      && (forall i, j :: 0 <= i < j < |cs| ==> cs[i].fcValue != cs[j].fcValue)
      && (forall c :: c in cs ==>
            && c.consistencyScore == 1.0 && c.matches != []
            && (forall m :: m in c.matches ==> m in pool && m.fcValue == c.fcValue)
            && (n > 1 ==> CardCount(c) == n)
            && c == finish(FCCandidate(c.fcValue, c.matches, 1.0, 0, None)))
      && (n > 1 ==> forall fc :: fc in KeyOrder(pool, ByFc) ==>
            ((exists c :: c in cs && c.fcValue == fc) <==> FullyConsistent(pool, n, fc)))
      && (n > 1 ==> forall c :: c in cs ==>
            Select(pool, ByFc, c.fcValue) != [] && c.matches == FilterConsistent(Select(pool, ByFc, c.fcValue)))
  {
    KeyOrderMem(pool, ByFc);
    ConsolidateAllFinished(pool, n, KeyOrder(pool, ByFc), finish);
    ConsolidateAllSpec(pool, n, KeyOrder(pool, ByFc), finish);
    if n == 1 {
      ConsolidateAllSingle(pool, KeyOrder(pool, ByFc), finish);
    }
  }
}
