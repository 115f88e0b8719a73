/**
 * The field enumerator shared by the three variants: every window of every
 * admissible length and offset, in both bit orders, and inside each window
 * every non-overlapping (FC field, CN field) pair that passes the filters.
 *
 * Each loop level of the source has a specification function defined by
 * prefix recursion (`Level(i) == Level(i - 1) + Item(i - 1)`), so a loop that
 * appends `Item(i)` at step `i` keeps `ms == Level(i)`.
 */
module Enumeration {
  import opened Basics
  import opened Bits
  import opened Matching

  /**
   * What one card's search is parameterised by: the window-length bounds, an
   * optional FC value that fields must equal, an optional CN value that fields
   * must equal (`None` accepts every CN), and the card's name.
   */
  datatype Query = Query(minBits: int, maxBits: int, fcFilter: Option<int>, cnFilter: Option<int>, cardName: string)

  /** What is fixed while one window is searched. */
  datatype Probe = Probe(reverse: bool, offset: nat, query: Query)

  predicate Accepts(filter: Option<int>, v: nat) {
    filter.None? || v == filter.value
  }

  /** The innermost step: one (FC field, CN field) pair, kept when disjoint and the CN passes its filter. */
  function Emit(w: seq<bool>, p: Probe, fs: nat, fl: nat, cs: nat, cl: nat): seq<Match>
    requires fs + fl <= |w| && cs + cl <= |w|
  {
    if Disjoint(fs, fl, cs, cl) && Accepts(p.query.cnFilter, Value(w[cs..cs + cl])) then
      [Match(p.reverse, p.offset, |w|, Value(w[fs..fs + fl]), w[fs..fs + fl], fs, fl,
             Value(w[cs..cs + cl]), w[cs..cs + cl], cs, cl, p.query.cardName)]
    else []
  }

  /** `for cn_len in range(1, j)` */
  function CnLens(w: seq<bool>, p: Probe, fs: nat, fl: nat, cs: nat, j: nat): seq<Match>
    requires fs + fl <= |w| && cs + j <= |w|
  {
    if j <= 1 then [] else CnLens(w, p, fs, fl, cs, j - 1) + Emit(w, p, fs, fl, cs, j - 1)
  }

  /** `for cn_start in range(i)` */
  function CnStarts(w: seq<bool>, p: Probe, fs: nat, fl: nat, i: nat): seq<Match>
    requires fs + fl <= |w| && i <= |w|
  {
    if i == 0 then [] else CnStarts(w, p, fs, fl, i - 1) + CnLens(w, p, fs, fl, i - 1, |w| - (i - 1))
  }

  /** The body of the FC-length loop: skipped when the FC value fails the filter. */
  function FcBody(w: seq<bool>, p: Probe, fs: nat, fl: nat): seq<Match>
    requires fs + fl <= |w|
  {
    if Accepts(p.query.fcFilter, Value(w[fs..fs + fl])) then CnStarts(w, p, fs, fl, |w|) else []
  }

  /** `for fc_len in range(1, j)` */
  function FcLens(w: seq<bool>, p: Probe, fs: nat, j: nat): seq<Match>
    requires fs + j <= |w|
  {
    if j <= 1 then [] else FcLens(w, p, fs, j - 1) + FcBody(w, p, fs, j - 1)
  }

  /** `for fc_start in range(i)` */
  function FcStarts(w: seq<bool>, p: Probe, i: nat): seq<Match>
    requires i <= |w|
  {
    if i == 0 then [] else FcStarts(w, p, i - 1) + FcLens(w, p, i - 1, |w| - (i - 1))
  }

  /** Everything `_find_fc_cn_combinations` appends for one window. */
  function Combinations(w: seq<bool>, p: Probe): seq<Match> {
    FcStarts(w, p, |w|)
  }

  /** `for offset in range(k)`, windows of length `wl`. */
  function Offsets(bits: seq<bool>, reverse: bool, wl: nat, k: nat, q: Query): seq<Match>
    requires wl + k <= |bits| + 1
  {
    if k == 0 then []
    else Offsets(bits, reverse, wl, k - 1, q) + Combinations(bits[k - 1..k - 1 + wl], Probe(reverse, k - 1, q))
  }

  /**
   * First window length searched. The source starts at `min_bits`; a window of
   * non-positive length has empty field loops and contributes nothing, so the
   * model starts at 0 at the lowest.
   */
  function Lo(q: Query): nat {
    if q.minBits < 0 then 0 else q.minBits
  }

  /** `min(max_bits + 1, len(bitstream) + 1)`: one past the last window length. */
  function Hi(q: Query, n: nat): int {
    Min(q.maxBits + 1, n + 1)
  }

  /** `for window_len in range(lo, hi)` */
  function WindowLens(bits: seq<bool>, reverse: bool, lo: nat, hi: int, q: Query): seq<Match>
    requires lo < hi ==> hi <= |bits| + 1
    decreases hi - lo
  {
    if hi <= lo then []
    else WindowLens(bits, reverse, lo, hi - 1, q) + Offsets(bits, reverse, hi - 1, |bits| - (hi - 1) + 1, q)
  }

  /** One pass over a bitstream in one bit order. */
  function OrderPass(bits: seq<bool>, reverse: bool, q: Query): seq<Match> {
    WindowLens(bits, reverse, Lo(q), Hi(q, |bits|), q)
  }

  /** Everything `find_matches_single_card` returns for a card whose bits are `raw`. */
  function CardMatches(raw: seq<bool>, q: Query): seq<Match> {
    OrderPass(raw, false, q) + OrderPass(Reverse(raw), true, q)
  }

  lemma OffsetsStep(bits: seq<bool>, reverse: bool, wl: nat, k: nat, q: Query)
    requires wl + k + 1 <= |bits| + 1
    ensures Offsets(bits, reverse, wl, k + 1, q) ==
      Offsets(bits, reverse, wl, k, q) + Combinations(bits[k..k + wl], Probe(reverse, k, q))
  {
  }

  lemma WindowLensStep(bits: seq<bool>, reverse: bool, lo: nat, wl: nat, q: Query)
    requires lo <= wl <= |bits|
    ensures WindowLens(bits, reverse, lo, wl + 1, q) ==
      WindowLens(bits, reverse, lo, wl, q) + Offsets(bits, reverse, wl, |bits| - wl + 1, q)
  {
  }

  lemma FcLensStep(w: seq<bool>, p: Probe, fs: nat, j: nat)
    requires fs + j < |w| && j >= 1
    ensures FcLens(w, p, fs, j + 1) == FcLens(w, p, fs, j) + FcBody(w, p, fs, j)
  {
  }

  lemma FcStartsStep(w: seq<bool>, p: Probe, i: nat)
    requires i < |w|
    ensures FcStarts(w, p, i + 1) == FcStarts(w, p, i) + FcLens(w, p, i, |w| - i)
  {
  }

  lemma FcBodyCases(w: seq<bool>, p: Probe, fs: nat, fl: nat)
    requires fs + fl <= |w|
    ensures Accepts(p.query.fcFilter, Value(w[fs..fs + fl])) ==> FcBody(w, p, fs, fl) == CnStarts(w, p, fs, fl, |w|)
    ensures !Accepts(p.query.fcFilter, Value(w[fs..fs + fl])) ==> FcBody(w, p, fs, fl) == []
  {
  }

  lemma CnLensStep(w: seq<bool>, p: Probe, fs: nat, fl: nat, cs: nat, j: nat)
    requires fs + fl <= |w| && cs + j < |w| && j >= 1
    ensures CnLens(w, p, fs, fl, cs, j + 1) == CnLens(w, p, fs, fl, cs, j) + Emit(w, p, fs, fl, cs, j)
  {
  }

  lemma CnStartsStep(w: seq<bool>, p: Probe, fs: nat, fl: nat, i: nat)
    requires fs + fl <= |w| && i < |w|
    ensures CnStarts(w, p, fs, fl, i + 1) == CnStarts(w, p, fs, fl, i) + CnLens(w, p, fs, fl, i, |w| - i)
  {
  }

  // ---------------------------------------------------------------------------
  // The loops.
  // ---------------------------------------------------------------------------

  /** `_find_fc_cn_combinations` (also the four inner loops of the other two variants). */
  method FindFcCnCombinations(w: seq<bool>, p: Probe) returns (ms: seq<Match>)
    ensures ms == Combinations(w, p)
  {
    ms := [];
    var fcStart := 0;
    while fcStart < |w|
      invariant fcStart <= |w|
      invariant ms == FcStarts(w, p, fcStart)
    {
      var found := FindFcFields(w, p, fcStart);
      FcStartsStep(w, p, fcStart);
      ms := ms + found;
      fcStart := fcStart + 1;
    }
  }

  /** The FC-length loop of `_find_fc_cn_combinations`, for one FC start. */
  method FindFcFields(w: seq<bool>, p: Probe, fcStart: nat) returns (ms: seq<Match>)
    requires fcStart < |w|
    ensures ms == FcLens(w, p, fcStart, |w| - fcStart)
  {
    ms := [];
    var fcLen := 1;
    while fcLen < |w| - fcStart
      invariant 1 <= fcLen <= |w| - fcStart
      invariant ms == FcLens(w, p, fcStart, fcLen)
    {
      var fcBits := w[fcStart..fcStart + fcLen];
      var fcVal := Value(fcBits);
      var found: seq<Match> := [];
      if p.query.fcFilter.None? || fcVal == p.query.fcFilter.value {
        found := FindCnFields(w, p, fcStart, fcLen);
      }
      FcBodyCases(w, p, fcStart, fcLen);
      FcLensStep(w, p, fcStart, fcLen);
      ms := ms + found;
      fcLen := fcLen + 1;
    }
  }

  /** The CN-start loop of `_find_fc_cn_combinations`, for one FC field. */
  method FindCnFields(w: seq<bool>, p: Probe, fcStart: nat, fcLen: nat) returns (ms: seq<Match>)
    requires fcStart + fcLen <= |w|
    ensures ms == CnStarts(w, p, fcStart, fcLen, |w|)
  {
    var fcBits := w[fcStart..fcStart + fcLen];
    var fcVal := Value(fcBits);
    ms := [];
    var cnStart := 0;
    while cnStart < |w|
      invariant cnStart <= |w|
      invariant ms == CnStarts(w, p, fcStart, fcLen, cnStart)
    {
      var found := FindCnLengths(w, p, fcBits, fcVal, fcStart, fcLen, cnStart);
      CnStartsStep(w, p, fcStart, fcLen, cnStart);
      ms := ms + found;
      cnStart := cnStart + 1;
    }
  }

  /** The CN-length loop of `_find_fc_cn_combinations`, for one FC field and one CN start. */
  method FindCnLengths(w: seq<bool>, p: Probe, fcBits: seq<bool>, fcVal: nat, fcStart: nat, fcLen: nat, cnStart: nat)
    returns (ms: seq<Match>)
    requires fcStart + fcLen <= |w| && cnStart < |w|
    requires fcBits == w[fcStart..fcStart + fcLen] && fcVal == Value(fcBits)
    ensures ms == CnLens(w, p, fcStart, fcLen, cnStart, |w| - cnStart)
  {
    ms := [];
    var cnLen := 1;
    while cnLen < |w| - cnStart
      invariant 1 <= cnLen <= |w| - cnStart
      invariant ms == CnLens(w, p, fcStart, fcLen, cnStart, cnLen)
    {
      var item := CnField(w, p, fcBits, fcVal, fcStart, fcLen, cnStart, cnLen);
      CnLensStep(w, p, fcStart, fcLen, cnStart, cnLen);
      ms := ms + item;
      cnLen := cnLen + 1;
    }
  }

  /** The body of the CN-length loop: one match, unless the regions overlap or the CN is filtered out. */
  method CnField(w: seq<bool>, p: Probe, fcBits: seq<bool>, fcVal: nat, fcStart: nat, fcLen: nat, cnStart: nat, cnLen: nat)
    returns (item: seq<Match>)
    requires fcStart + fcLen <= |w| && cnStart + cnLen <= |w|
    requires fcBits == w[fcStart..fcStart + fcLen] && fcVal == Value(fcBits)
    ensures item == Emit(w, p, fcStart, fcLen, cnStart, cnLen)
  {
    item := [];
    // Skip overlapping regions.
    if fcStart + fcLen <= cnStart || cnStart + cnLen <= fcStart {
      var cnBits := w[cnStart..cnStart + cnLen];
      var cnVal := Value(cnBits);
      if p.query.cnFilter.None? || cnVal == p.query.cnFilter.value {
        item := [Match(p.reverse, p.offset, |w|, fcVal, fcBits, fcStart, fcLen,
                       cnVal, cnBits, cnStart, cnLen, p.query.cardName)];
      }
    }
  }

  /** The window-length and offset loops over one bit order. */
  method SearchBitOrder(bits: seq<bool>, reverse: bool, q: Query) returns (ms: seq<Match>)
    ensures ms == OrderPass(bits, reverse, q)
  {
    ms := [];
    var hi := Hi(q, |bits|);
    var windowLen := Lo(q);
    while windowLen < hi
      invariant Lo(q) < hi ==> Lo(q) <= windowLen <= hi
      invariant hi <= Lo(q) ==> windowLen == Lo(q)
      invariant ms == WindowLens(bits, reverse, Lo(q), windowLen, q)
    {
      var found := SearchOffsets(bits, reverse, windowLen, q);
      WindowLensStep(bits, reverse, Lo(q), windowLen, q);
      ms := ms + found;
      windowLen := windowLen + 1;
    }
  }

  /** The `for offset in range(len(bitstream) - window_len + 1)` loop for one window length. */
  method SearchOffsets(bits: seq<bool>, reverse: bool, windowLen: nat, q: Query) returns (ms: seq<Match>)
    requires windowLen <= |bits|
    ensures ms == Offsets(bits, reverse, windowLen, |bits| - windowLen + 1, q)
  {
    ms := [];
    var offset := 0;
    while offset < |bits| - windowLen + 1
      invariant offset <= |bits| - windowLen + 1
      invariant ms == Offsets(bits, reverse, windowLen, offset, q)
    {
      var window := bits[offset..offset + windowLen];
      var found := FindFcCnCombinations(window, Probe(reverse, offset, q));
      OffsetsStep(bits, reverse, windowLen, offset, q);
      ms := ms + found;
      offset := offset + 1;
    }
  }


  /** `find_matches_single_card` once the payload is a bitstream: normal order, then reversed. */
  method FindMatches(raw: seq<bool>, q: Query) returns (ms: seq<Match>)
    ensures ms == CardMatches(raw, q)
  {
    ms := [];
    var orders := [false, true];
    for t := 0 to 2
      invariant ms == if t == 0 then [] else if t == 1 then OrderPass(raw, false, q) else CardMatches(raw, q)
    {
      var reverse := orders[t];
      var bitstream := if reverse then Reverse(raw) else raw;
      var found := SearchBitOrder(bitstream, reverse, q);
      ms := ms + found;
    }
  }

  // ---------------------------------------------------------------------------
  // What the loops emit, described without the loops.
  // ---------------------------------------------------------------------------

  /**
   * The fields of `m` are the ones the loops build from window `w` under `p`:
   * the window's identity, the card's name, in-window and disjoint regions,
   * the bits of each region with their values, and the CN filter.
   */
  predicate Fields(w: seq<bool>, p: Probe, m: Match) {
    && m.reverse == p.reverse && m.windowOffset == p.offset && m.windowLength == |w|
    && m.cardName == p.query.cardName
    && m.fcStart + m.fcLength <= |w| && m.cnStart + m.cnLength <= |w|
    && Disjoint(m.fcStart, m.fcLength, m.cnStart, m.cnLength)
    && m.fcBits == w[m.fcStart..m.fcStart + m.fcLength] && m.fcValue == Value(m.fcBits)
    && m.cnBits == w[m.cnStart..m.cnStart + m.cnLength] && m.cnValue == Value(m.cnBits)
    && Accepts(p.query.cnFilter, m.cnValue)
  }

  /**
   * An admissible match of window `w`: both regions non-empty and ending before
   * the window's last bit (the loop bounds are `range(1, window_len - start)`),
   * and both filters pass.
   */
  predicate InWindow(w: seq<bool>, p: Probe, m: Match) {
    && Fields(w, p, m)
    && 1 <= m.fcLength && m.fcStart + m.fcLength < |w|
    && 1 <= m.cnLength && m.cnStart + m.cnLength < |w|
    && Accepts(p.query.fcFilter, m.fcValue)
  }

  /** An admissible match of a bitstream: its window is a slice of `bits` searched under `q`. */
  predicate InStream(bits: seq<bool>, reverse: bool, q: Query, m: Match) {
    && m.windowOffset + m.windowLength <= |bits|
    && InWindow(bits[m.windowOffset..m.windowOffset + m.windowLength], Probe(reverse, m.windowOffset, q), m)
  }

  /** The bitstream searched in `m`'s bit order. */
  function Stream(raw: seq<bool>, reverse: bool): (bits: seq<bool>)
    ensures |bits| == |raw|
  {
    if reverse then Reverse(raw) else raw
  }

  /** An admissible match of a card whose bits are `raw`, found in the stream of its bit order. */
  predicate Found(raw: seq<bool>, q: Query, m: Match) {
    && Lo(q) <= m.windowLength <= q.maxBits
    && InStream(Stream(raw, m.reverse), m.reverse, q, m)
  }

  lemma EmitMem(w: seq<bool>, p: Probe, fs: nat, fl: nat, cs: nat, cl: nat)
    requires fs + fl <= |w| && cs + cl <= |w|
    ensures forall m :: m in Emit(w, p, fs, fl, cs, cl) <==>
      m.fcStart == fs && m.fcLength == fl && m.cnStart == cs && m.cnLength == cl && Fields(w, p, m)
  {
    forall m: Match | m.fcStart == fs && m.fcLength == fl && m.cnStart == cs && m.cnLength == cl && Fields(w, p, m)
      ensures m in Emit(w, p, fs, fl, cs, cl)
    {
      assert m == Match(p.reverse, p.offset, |w|, Value(w[fs..fs + fl]), w[fs..fs + fl], fs, fl,
                        Value(w[cs..cs + cl]), w[cs..cs + cl], cs, cl, p.query.cardName);
    }
  }

  lemma {:induction false} CnLensMem(w: seq<bool>, p: Probe, fs: nat, fl: nat, cs: nat, j: nat)
    requires fs + fl <= |w| && cs + j <= |w|
    ensures forall m :: m in CnLens(w, p, fs, fl, cs, j) <==>
      m.fcStart == fs && m.fcLength == fl && m.cnStart == cs && 1 <= m.cnLength < j && Fields(w, p, m)
    ensures SigsDistinct(CnLens(w, p, fs, fl, cs, j))
  {
    if j > 1 {
      CnLensMem(w, p, fs, fl, cs, j - 1);
      EmitMem(w, p, fs, fl, cs, j - 1);
      DistinctConcat(CnLens(w, p, fs, fl, cs, j - 1), Emit(w, p, fs, fl, cs, j - 1));
    }
  }

  lemma {:induction false} CnStartsMem(w: seq<bool>, p: Probe, fs: nat, fl: nat, i: nat)
    requires fs + fl <= |w| && i <= |w|
    ensures forall m :: m in CnStarts(w, p, fs, fl, i) <==>
      && m.fcStart == fs && m.fcLength == fl && m.cnStart < i
      && 1 <= m.cnLength && m.cnStart + m.cnLength < |w| && Fields(w, p, m)
    ensures SigsDistinct(CnStarts(w, p, fs, fl, i))
  {
    if i > 0 {
      var a, b := CnStarts(w, p, fs, fl, i - 1), CnLens(w, p, fs, fl, i - 1, |w| - (i - 1));
      CnStartsMem(w, p, fs, fl, i - 1);
      CnLensMem(w, p, fs, fl, i - 1, |w| - (i - 1));
      assert CnStarts(w, p, fs, fl, i) == a + b;
      forall m: Match ensures m in a + b <==>
        && m.fcStart == fs && m.fcLength == fl && m.cnStart < i
        && 1 <= m.cnLength && m.cnStart + m.cnLength < |w| && Fields(w, p, m)
      {
        assert m in a + b <==> m in a || m in b;
      }
      assert forall x, y :: x in a && y in b ==> x.cnStart != y.cnStart;
      DistinctConcat(a, b);
    }
  }

  lemma FcBodyMem(w: seq<bool>, p: Probe, fs: nat, fl: nat)
    requires 1 <= fl && fs + fl < |w|
    ensures forall m :: m in FcBody(w, p, fs, fl) <==> m.fcStart == fs && m.fcLength == fl && InWindow(w, p, m)
    ensures SigsDistinct(FcBody(w, p, fs, fl))
  {
    CnStartsMem(w, p, fs, fl, |w|);
  }

  lemma {:induction false} FcLensMem(w: seq<bool>, p: Probe, fs: nat, j: nat)
    requires fs + j <= |w|
    ensures forall m :: m in FcLens(w, p, fs, j) <==> m.fcStart == fs && m.fcLength < j && InWindow(w, p, m)
    ensures SigsDistinct(FcLens(w, p, fs, j))
  {
    if j > 1 {
      var a, b := FcLens(w, p, fs, j - 1), FcBody(w, p, fs, j - 1);
      FcLensMem(w, p, fs, j - 1);
      FcBodyMem(w, p, fs, j - 1);
      assert forall x, y :: x in a && y in b ==> x.fcLength != y.fcLength;
      DistinctConcat(a, b);
    }
  }

  lemma {:induction false} FcStartsMem(w: seq<bool>, p: Probe, i: nat)
    requires i <= |w|
    ensures forall m :: m in FcStarts(w, p, i) <==> m.fcStart < i && InWindow(w, p, m)
    ensures SigsDistinct(FcStarts(w, p, i))
  {
    if i > 0 {
      var a, b := FcStarts(w, p, i - 1), FcLens(w, p, i - 1, |w| - (i - 1));
      FcStartsMem(w, p, i - 1);
      FcLensAll(w, p, i - 1);
      assert FcStarts(w, p, i) == a + b;
      forall m: Match ensures m in a + b <==> m.fcStart < i && InWindow(w, p, m) {
        assert m in a + b <==> m in a || m in b;
      }
      assert forall x, y :: x in a && y in b ==> x.fcStart != y.fcStart;
      DistinctConcat(a, b);
    }
  }

  /** All FC lengths of one FC start: the window's admissible matches with that start. */
  lemma FcLensAll(w: seq<bool>, p: Probe, fs: nat)
    requires fs < |w|
    ensures forall m :: m in FcLens(w, p, fs, |w| - fs) <==> m.fcStart == fs && InWindow(w, p, m)
    ensures SigsDistinct(FcLens(w, p, fs, |w| - fs))
  {
    FcLensMem(w, p, fs, |w| - fs);
    forall m: Match | m.fcStart == fs && InWindow(w, p, m) ensures m.fcLength < |w| - fs {
    }
  }

  /** One window yields exactly its admissible matches, each (FC field, CN field) pair once. */
  lemma CombinationsMem(w: seq<bool>, p: Probe)
    ensures forall m :: m in Combinations(w, p) <==> InWindow(w, p, m)
    ensures SigsDistinct(Combinations(w, p))
  {
    FcStartsMem(w, p, |w|);
  }

  lemma {:induction false} OffsetsMem(bits: seq<bool>, reverse: bool, wl: nat, k: nat, q: Query)
    requires wl + k <= |bits| + 1
    ensures forall m :: m in Offsets(bits, reverse, wl, k, q) <==>
      m.windowOffset < k && m.windowLength == wl && InStream(bits, reverse, q, m)
    ensures SigsDistinct(Offsets(bits, reverse, wl, k, q))
  {
    if k > 0 {
      var w := bits[k - 1..k - 1 + wl];
      var a, b := Offsets(bits, reverse, wl, k - 1, q), Combinations(w, Probe(reverse, k - 1, q));
      OffsetsMem(bits, reverse, wl, k - 1, q);
      CombinationsAt(bits, reverse, wl, k - 1, q);
      assert Offsets(bits, reverse, wl, k, q) == a + b;
      forall m: Match ensures m in a + b <==> m.windowOffset < k && m.windowLength == wl && InStream(bits, reverse, q, m) {
        assert m in a + b <==> m in a || m in b;
      }
      assert forall x, y :: x in a && y in b ==> x.windowOffset != y.windowOffset;
      DistinctConcat(a, b);
    }
  }

  /** All offsets of one window length: the stream's admissible matches of that length. */
  lemma OffsetsAll(bits: seq<bool>, reverse: bool, wl: nat, q: Query)
    requires wl <= |bits| + 1
    ensures forall m :: m in Offsets(bits, reverse, wl, |bits| - wl + 1, q) <==>
      m.windowLength == wl && InStream(bits, reverse, q, m)
    ensures SigsDistinct(Offsets(bits, reverse, wl, |bits| - wl + 1, q))
  {
    OffsetsMem(bits, reverse, wl, |bits| - wl + 1, q);
    forall m: Match | m.windowLength == wl && InStream(bits, reverse, q, m) ensures m.windowOffset < |bits| - wl + 1 {
    }
  }

  /** The window at offset `o` yields the stream's admissible matches at that offset and length. */
  lemma CombinationsAt(bits: seq<bool>, reverse: bool, wl: nat, o: nat, q: Query)
    requires o + wl <= |bits|
    ensures forall m :: m in Combinations(bits[o..o + wl], Probe(reverse, o, q)) <==>
      m.windowOffset == o && m.windowLength == wl && InStream(bits, reverse, q, m)
    ensures SigsDistinct(Combinations(bits[o..o + wl], Probe(reverse, o, q)))
  {
    var w, p := bits[o..o + wl], Probe(reverse, o, q);
    CombinationsMem(w, p);
    forall m ensures InWindow(w, p, m) <==> m.windowOffset == o && m.windowLength == wl && InStream(bits, reverse, q, m) {
      if m.windowOffset == o && m.windowLength == wl {
        assert bits[m.windowOffset..m.windowOffset + m.windowLength] == w;
      }
    }
  }

  lemma {:induction false} WindowLensMem(bits: seq<bool>, reverse: bool, lo: nat, hi: int, q: Query)
    requires lo < hi ==> hi <= |bits| + 1
    ensures forall m :: m in WindowLens(bits, reverse, lo, hi, q) <==>
      lo <= m.windowLength < hi && InStream(bits, reverse, q, m)
    decreases hi - lo
  {
    if lo < hi {
      var wl := hi - 1;
      var a, b := WindowLens(bits, reverse, lo, hi - 1, q), Offsets(bits, reverse, wl, |bits| - wl + 1, q);
      WindowLensMem(bits, reverse, lo, hi - 1, q);
      OffsetsAll(bits, reverse, wl, q);
      assert WindowLens(bits, reverse, lo, hi, q) == a + b;
      forall m: Match ensures m in a + b <==> lo <= m.windowLength < hi && InStream(bits, reverse, q, m) {
        assert m in a + b <==> m in a || m in b;
      }
    }
  }

  lemma WindowLensBelow(bits: seq<bool>, reverse: bool, lo: nat, hi: int, q: Query)
    requires lo < hi ==> hi <= |bits| + 1
    ensures forall m :: m in WindowLens(bits, reverse, lo, hi, q) ==> m.windowLength < hi
  {
    WindowLensMem(bits, reverse, lo, hi, q);
  }

  lemma OffsetsLength(bits: seq<bool>, reverse: bool, wl: nat, q: Query)
    requires wl <= |bits| + 1
    ensures forall m :: m in Offsets(bits, reverse, wl, |bits| - wl + 1, q) ==> m.windowLength == wl
    ensures SigsDistinct(Offsets(bits, reverse, wl, |bits| - wl + 1, q))
  {
    OffsetsAll(bits, reverse, wl, q);
  }

  lemma {:induction false} WindowLensDistinct(bits: seq<bool>, reverse: bool, lo: nat, hi: int, q: Query)
    requires lo < hi ==> hi <= |bits| + 1
    ensures SigsDistinct(WindowLens(bits, reverse, lo, hi, q))
    decreases hi - lo
  {
    if lo < hi {
      var wl := hi - 1;
      var a, b := WindowLens(bits, reverse, lo, hi - 1, q), Offsets(bits, reverse, wl, |bits| - wl + 1, q);
      WindowLensDistinct(bits, reverse, lo, hi - 1, q);
      WindowLensBelow(bits, reverse, lo, hi - 1, q);
      OffsetsLength(bits, reverse, wl, q);
      assert WindowLens(bits, reverse, lo, hi, q) == a + b;
      forall x, y | x in a && y in b ensures GetSignature(x) != GetSignature(y) {
        assert x.windowLength < wl == y.windowLength;
      }
      DistinctConcat(a, b);
    }
  }


  lemma OrderPassMem(bits: seq<bool>, reverse: bool, q: Query)
    ensures forall m :: m in OrderPass(bits, reverse, q) <==>
      Lo(q) <= m.windowLength <= q.maxBits && InStream(bits, reverse, q, m)
    ensures SigsDistinct(OrderPass(bits, reverse, q))
  {
    WindowLensMem(bits, reverse, Lo(q), Hi(q, |bits|), q);
    WindowLensDistinct(bits, reverse, Lo(q), Hi(q, |bits|), q);
  }

  /**
   * `find_matches_single_card` emits exactly the admissible matches of the
   * card, over both bit orders, and no two of them share a signature.
   */
  lemma CardMatchesMem(raw: seq<bool>, q: Query)
    ensures forall m :: m in CardMatches(raw, q) <==> Found(raw, q, m)
    ensures SigsDistinct(CardMatches(raw, q))
  {
    var a, b := OrderPass(raw, false, q), OrderPass(Reverse(raw), true, q);
    OrderPassMem(raw, false, q);
    OrderPassMem(Reverse(raw), true, q);
    assert forall x, y :: x in a && y in b ==> x.reverse != y.reverse;
    DistinctConcat(a, b);
  }

  /**
   * What every match of a card satisfies: it is well formed (disjoint, non-empty
   * fields ending before the window's last bit, values of their bits), its window
   * length is within the bounds, and it passes both filters.
   */
  lemma FoundProperties(raw: seq<bool>, q: Query, m: Match)
    requires Found(raw, q, m)
    ensures WellFormed(m)
    ensures m.cardName == q.cardName
    ensures q.minBits <= m.windowLength <= q.maxBits && m.windowLength <= |raw|
    ensures q.fcFilter.Some? ==> m.fcValue == q.fcFilter.value
    ensures q.cnFilter.Some? ==> m.cnValue == q.cnFilter.value
  {
  }
}
