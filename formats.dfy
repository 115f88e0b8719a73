/**
 * The catalog of known card formats (`hid_patterns`), the five tolerance
 * checks a match must pass to correspond to a format, and the two ways the
 * catalog is used: the first hit (analyzer.py) and the largest positive
 * confidence boost (main.py).
 */
module Formats {
  import opened Basics
  import opened Matching
  import opened Best

  datatype Format = Format(
    name: string,
    totalBits: int,
    fcBits: int,
    cnBits: int,
    fcPosition: int,
    cnPosition: int,
    confidenceBoost: int)

  datatype Tolerance = Tolerance(bitLength: int, position: int)

  /** `hid_patterns`: the formats in file order and the tolerances. */
  datatype Catalog = Catalog(formats: seq<Format>, tolerance: Tolerance)

  /** `_matches_format`: window length, both field lengths and both field positions within tolerance. */
  predicate MatchesFormat(m: Match, f: Format, t: Tolerance) {
    && Abs(m.windowLength - f.totalBits) <= t.bitLength
    && Abs(m.fcLength - f.fcBits) <= t.bitLength
    && Abs(m.cnLength - f.cnBits) <= t.bitLength
    && Abs(m.fcStart - f.fcPosition) <= t.position
    && Abs(m.cnStart - f.cnPosition) <= t.position
  }

  // ---------------------------------------------------------------------------
  // First hit (analyzer.py).
  // ---------------------------------------------------------------------------

  /** The first format from index `j` on that `m` matches. */
  function FirstFormatFrom(m: Match, fs: seq<Format>, t: Tolerance, j: nat): (r: Option<nat>)
    requires j <= |fs|
    ensures r.Some? ==> j <= r.value < |fs| && MatchesFormat(m, fs[r.value], t)
    ensures r.Some? ==> forall k :: j <= k < r.value ==> !MatchesFormat(m, fs[k], t)
    ensures r.None? <==> forall k :: j <= k < |fs| ==> !MatchesFormat(m, fs[k], t)
    decreases |fs| - j
  {
    if j == |fs| then None
    else if MatchesFormat(m, fs[j], t) then Some(j)
    else FirstFormatFrom(m, fs, t, j + 1)
  }

  /**
   * The first (match, format) pair that hits, scanning the matches from index
   * `i` in order and, for each match, the formats in order.
   */
  function FirstHitFrom(ms: seq<Match>, fs: seq<Format>, t: Tolerance, i: nat): (r: Option<(nat, nat)>)
    requires i <= |ms|
    ensures r.Some? ==> i <= r.value.0 < |ms| && r.value.1 < |fs| && MatchesFormat(ms[r.value.0], fs[r.value.1], t)
    ensures r.Some? ==> forall a, b :: i <= a < r.value.0 && 0 <= b < |fs| ==> !MatchesFormat(ms[a], fs[b], t)
    ensures r.Some? ==> forall b :: 0 <= b < r.value.1 ==> !MatchesFormat(ms[r.value.0], fs[b], t)
    ensures r.None? <==> forall a, b :: i <= a < |ms| && 0 <= b < |fs| ==> !MatchesFormat(ms[a], fs[b], t)
    decreases |ms| - i
  {
    if i == |ms| then None
    else match FirstFormatFrom(ms[i], fs, t, 0)
      case Some(b) => Some((i, b))
      case None => FirstHitFrom(ms, fs, t, i + 1)
  }

  /** The name `_apply_format_matching` stores, if any. */
  function FormatHit(ms: seq<Match>, c: Catalog): Option<string> {
    match FirstHitFrom(ms, c.formats, c.tolerance, 0)
    case Some(hit) => Some(c.formats[hit.1].name)
    case None => None
  }

  /** The candidate after `_apply_format_matching`: an empty catalog or no hit leaves it unchanged. */
  function WithFormat(cand: FCCandidate, c: Catalog): FCCandidate {
    if c.formats == [] then cand
    else match FormatHit(cand.matches, c)
      case Some(name) => cand.(matchedFormat := Some(name))
      case None => cand
  }

  /**
   * The stored name belongs to a format some match passes, and every
   * (match, format) pair that comes earlier in scan order fails; when nothing
   * passes, the candidate is unchanged.
   */
  lemma WithFormatSpec(cand: FCCandidate, c: Catalog)
    ensures WithFormat(cand, c).(matchedFormat := cand.matchedFormat) == cand
    ensures WithFormat(cand, c).matchedFormat != cand.matchedFormat ==>
      exists a, b :: 0 <= a < |cand.matches| && 0 <= b < |c.formats| &&
        MatchesFormat(cand.matches[a], c.formats[b], c.tolerance) &&
        WithFormat(cand, c).matchedFormat == Some(c.formats[b].name) &&
        (forall a', b' :: 0 <= a' < a && 0 <= b' < |c.formats| ==> !MatchesFormat(cand.matches[a'], c.formats[b'], c.tolerance)) &&
        (forall b' :: 0 <= b' < b ==> !MatchesFormat(cand.matches[a], c.formats[b'], c.tolerance))
    ensures (forall a, b :: 0 <= a < |cand.matches| && 0 <= b < |c.formats| ==>
              !MatchesFormat(cand.matches[a], c.formats[b], c.tolerance)) ==> WithFormat(cand, c) == cand
  {
    var h := FirstHitFrom(cand.matches, c.formats, c.tolerance, 0);
    if c.formats != [] && h.Some? {
      var a, b := h.value.0, h.value.1;
      assert MatchesFormat(cand.matches[a], c.formats[b], c.tolerance);
    }
  }

  /** `_apply_format_matching`: scan matches, then formats, and stop at the first hit. */
  method ApplyFormatMatching(cand: FCCandidate, c: Catalog) returns (r: FCCandidate)
    ensures r == WithFormat(cand, c)
  {
    r := cand;
    if c.formats == [] {
      return;
    }
    var i := 0;
    while i < |cand.matches|
      invariant i <= |cand.matches|
      invariant FirstHitFrom(cand.matches, c.formats, c.tolerance, 0) == FirstHitFrom(cand.matches, c.formats, c.tolerance, i)
    {
      var j := FirstFormat(cand.matches[i], c.formats, c.tolerance);
      if j.Some? {
        r := cand.(matchedFormat := Some(c.formats[j.value].name));
        return;
      }
      i := i + 1;
    }
  }

  /** The inner loop over the catalog's formats, `self.hid_patterns["formats"]`, for one match. */
  method FirstFormat(m: Match, fs: seq<Format>, t: Tolerance) returns (r: Option<nat>)
    ensures r == FirstFormatFrom(m, fs, t, 0)
  {
    var j := 0;
    while j < |fs|
      invariant j <= |fs|
      invariant FirstFormatFrom(m, fs, t, 0) == FirstFormatFrom(m, fs, t, j)
    {
      if MatchesFormat(m, fs[j], t) {
        return Some(j);
      }
      j := j + 1;
    }
    return None;
  }


  // ---------------------------------------------------------------------------
  // Largest boost (main.py).
  // ---------------------------------------------------------------------------

  /** What one format offers a match: its boost and name when all five checks pass; nothing otherwise. */
  function Offer(m: Match, f: Format, t: Tolerance): Scored<Option<string>> {
    if MatchesFormat(m, f, t) then Scored(f.confidenceBoost, Some(f.name)) else Scored(0, None)
  }

  function Offers(m: Match, c: Catalog): (xs: seq<Scored<Option<string>>>)
    ensures |xs| == |c.formats|
    ensures forall j :: 0 <= j < |xs| ==> xs[j] == Offer(m, c.formats[j], c.tolerance)
  {
    seq(|c.formats|, j requires 0 <= j < |c.formats| => Offer(m, c.formats[j], c.tolerance))
  }

  const NoBoost: Scored<Option<string>> := Scored(0, None)

  /** `_check_real_world_pattern(match)`: `(best_boost, best_format)`. */
  function CheckRealWorld(m: Match, c: Catalog): Scored<Option<string>> {
    if c.formats == [] then NoBoost else RunningBest(Offers(m, c), NoBoost)
  }

  /**
   * The boost is never negative; it is 0 with no format exactly when no passing
   * format has a positive boost; otherwise it is the largest boost among passing
   * formats and the name is the first passing format that offers it.
   */
  lemma CheckRealWorldSpec(m: Match, c: Catalog)
    ensures CheckRealWorld(m, c).score >= 0
    ensures forall j :: 0 <= j < |c.formats| && MatchesFormat(m, c.formats[j], c.tolerance) ==>
      c.formats[j].confidenceBoost <= CheckRealWorld(m, c).score
    ensures CheckRealWorld(m, c).score == 0 ==> CheckRealWorld(m, c).item == None
    ensures CheckRealWorld(m, c).score > 0 ==>
      exists j :: 0 <= j < |c.formats| && MatchesFormat(m, c.formats[j], c.tolerance) &&
        CheckRealWorld(m, c) == Scored(c.formats[j].confidenceBoost, Some(c.formats[j].name)) &&
        forall k :: 0 <= k < j && MatchesFormat(m, c.formats[k], c.tolerance) ==>
          c.formats[k].confidenceBoost < c.formats[j].confidenceBoost
  {
    if c.formats != [] {
      var xs := Offers(m, c);
      RunningBestSpec(xs, NoBoost);
      var b := RunningBest(xs, NoBoost);
      if b.score > 0 {
        var j :| 0 <= j < |xs| && xs[j] == b && forall k :: 0 <= k < j ==> xs[k].score < xs[j].score;
        assert MatchesFormat(m, c.formats[j], c.tolerance);
      }
    }
  }

  /** `_check_real_world_pattern`. */
  method CheckRealWorldPattern(m: Match, c: Catalog) returns (boost: int, format: Option<string>)
    ensures Scored(boost, format) == CheckRealWorld(m, c)
  {
    boost, format := 0, None;
    if c.formats == [] {
      return;
    }
    ghost var xs := Offers(m, c);
    for j := 0 to |c.formats|
      invariant Scored(boost, format) == RunningBest(xs[..j], NoBoost)
    {
      RunningBestStep(xs, NoBoost, j);
      RunningBestSpec(xs[..j], NoBoost);
      var f := c.formats[j];
      if MatchesFormat(m, f, c.tolerance) {
        var b := f.confidenceBoost;
        if b > boost {
          boost, format := b, Some(f.name);
        }
      }
    }
    assert xs[..|c.formats|] == xs;
  }

  function CheckAll(ms: seq<Match>, c: Catalog): (xs: seq<Scored<Option<string>>>)
    ensures |xs| == |ms|
    ensures forall i :: 0 <= i < |xs| ==> xs[i] == CheckRealWorld(ms[i], c)
  {
    seq(|ms|, i requires 0 <= i < |ms| => CheckRealWorld(ms[i], c))
  }

  /** The candidate after `_apply_real_world_boost`. */
  function WithBoost(cand: FCCandidate, c: Catalog): FCCandidate {
    var b := RunningBest(CheckAll(cand.matches, c), NoBoost);
    cand.(realWorldBoost := b.score, matchedFormat := b.item)
  }

  /**
   * The stored boost is the largest positive boost any match earns (0 if none),
   * and the stored name comes from the first match earning it.
   */
  lemma WithBoostSpec(cand: FCCandidate, c: Catalog)
    ensures WithBoost(cand, c).(realWorldBoost := cand.realWorldBoost, matchedFormat := cand.matchedFormat) == cand
    ensures WithBoost(cand, c).realWorldBoost >= 0
    ensures forall i :: 0 <= i < |cand.matches| ==>
      CheckRealWorld(cand.matches[i], c).score <= WithBoost(cand, c).realWorldBoost
    ensures WithBoost(cand, c).realWorldBoost == 0 <==> WithBoost(cand, c).matchedFormat == None
    ensures WithBoost(cand, c).realWorldBoost > 0 ==>
      exists i :: 0 <= i < |cand.matches| &&
        CheckRealWorld(cand.matches[i], c) == Scored(WithBoost(cand, c).realWorldBoost, WithBoost(cand, c).matchedFormat) &&
        forall k :: 0 <= k < i ==> CheckRealWorld(cand.matches[k], c).score < WithBoost(cand, c).realWorldBoost
  {
    WithBoostBound(cand, c);
    WithBoostWitness(cand, c);
  }

  /** The boost is the largest of the matches' boosts, and no boost means no format. */
  lemma WithBoostBound(cand: FCCandidate, c: Catalog)
    ensures WithBoost(cand, c).realWorldBoost >= 0
    ensures forall i :: 0 <= i < |cand.matches| ==>
      CheckRealWorld(cand.matches[i], c).score <= WithBoost(cand, c).realWorldBoost
    ensures WithBoost(cand, c).realWorldBoost == 0 ==> WithBoost(cand, c).matchedFormat == None
  {
    RunningBestSpec(CheckAll(cand.matches, c), NoBoost);
  }

  /** A positive boost, with its format, is that of the first match that reaches it. */
  lemma WithBoostWitness(cand: FCCandidate, c: Catalog)
    ensures WithBoost(cand, c).realWorldBoost > 0 ==>
      && WithBoost(cand, c).matchedFormat != None
      && (exists i :: 0 <= i < |cand.matches| &&
            CheckRealWorld(cand.matches[i], c) == Scored(WithBoost(cand, c).realWorldBoost, WithBoost(cand, c).matchedFormat) &&
            forall k :: 0 <= k < i ==> CheckRealWorld(cand.matches[k], c).score < WithBoost(cand, c).realWorldBoost)
  {
    var xs := CheckAll(cand.matches, c);
    RunningBestSpec(xs, NoBoost);
    var b := RunningBest(xs, NoBoost);
    if b.score > 0 {
      var i :| 0 <= i < |xs| && xs[i] == b && forall k :: 0 <= k < i ==> xs[k].score < xs[i].score;
      CheckRealWorldNamed(cand.matches[i], c);
    }
  }

  lemma CheckRealWorldNamed(m: Match, c: Catalog)
    ensures CheckRealWorld(m, c).score > 0 ==> CheckRealWorld(m, c).item != None
  {
    CheckRealWorldSpec(m, c);
  }


  /** `_apply_real_world_boost`. */
  method ApplyRealWorldBoost(cand: FCCandidate, c: Catalog) returns (r: FCCandidate)
    ensures r == WithBoost(cand, c)
  {
    var bestBoost, bestFormat := 0, None;
    ghost var xs := CheckAll(cand.matches, c);
    for i := 0 to |cand.matches|
      invariant Scored(bestBoost, bestFormat) == RunningBest(xs[..i], NoBoost)
    {
      RunningBestStep(xs, NoBoost, i);
      var boost, format := CheckRealWorldPattern(cand.matches[i], c);
      if boost > bestBoost {
        bestBoost, bestFormat := boost, format;
      }
    }
    assert xs[..|cand.matches|] == xs;
    r := cand.(realWorldBoost := bestBoost, matchedFormat := bestFormat);
  }
}
