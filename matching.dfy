/**
 * The shared data model of the three variants: a candidate field layout found
 * in one card (`Match`), its pattern signature, and a facility-code candidate.
 */
module Matching {
  import opened Basics
  import opened Bits

  /** One (window, FC field, CN field) combination found in one card's bitstream. */
  datatype Match = Match(
    reverse: bool,
    windowOffset: nat,
    windowLength: nat,
    fcValue: nat,
    fcBits: seq<bool>,
    fcStart: nat,
    fcLength: nat,
    cnValue: nat,
    cnBits: seq<bool>,
    cnStart: nat,
    cnLength: nat,
    cardName: string)

  /** The 7-tuple that identifies "the same encoding" across cards, whatever values it extracts. */
  datatype Signature = Signature(
    reverse: bool,
    windowOffset: nat,
    windowLength: nat,
    fcStart: nat,
    fcLength: nat,
    cnStart: nat,
    cnLength: nat)

  function GetSignature(m: Match): Signature {
    Signature(m.reverse, m.windowOffset, m.windowLength, m.fcStart, m.fcLength, m.cnStart, m.cnLength)
  }

  /** A facility-code candidate; `realWorldBoost` stays 0 where no boost is applied. */
  datatype FCCandidate = FCCandidate(
    fcValue: nat,
    matches: seq<Match>,
    consistencyScore: real,
    realWorldBoost: int,
    matchedFormat: Option<string>)

  predicate Disjoint(fcStart: int, fcLength: int, cnStart: int, cnLength: int) {
    fcStart + fcLength <= cnStart || cnStart + cnLength <= fcStart
  }

  /**
   * What every emitted match satisfies: both fields are non-empty, disjoint,
   * end before the window's last bit, and carry the big-endian values of their bits.
   */
  predicate WellFormed(m: Match) {
    && 1 <= m.fcLength && m.fcStart + m.fcLength <= m.windowLength - 1
    && 1 <= m.cnLength && m.cnStart + m.cnLength <= m.windowLength - 1
    && Disjoint(m.fcStart, m.fcLength, m.cnStart, m.cnLength)
    && |m.fcBits| == m.fcLength && m.fcValue == Value(m.fcBits)
    && |m.cnBits| == m.cnLength && m.cnValue == Value(m.cnBits)
  }

  /** No two matches of the list share a signature. */
  predicate SigsDistinct(ms: seq<Match>) {
    forall i, j :: 0 <= i < j < |ms| ==> GetSignature(ms[i]) != GetSignature(ms[j])
  }

  lemma DistinctConcat(a: seq<Match>, b: seq<Match>)
    requires SigsDistinct(a) && SigsDistinct(b)
    requires forall x, y :: x in a && y in b ==> GetSignature(x) != GetSignature(y)
    ensures SigsDistinct(a + b)
  {
    forall i, j | 0 <= i < j < |a + b|
      ensures GetSignature((a + b)[i]) != GetSignature((a + b)[j])
    {
      if j < |a| {
      } else if i >= |a| {
        assert (a + b)[i] == b[i - |a|] && (a + b)[j] == b[j - |a|];
      } else {
        assert (a + b)[i] in a && (a + b)[j] in b;
      }
    }
  }

  function CardNames(ms: seq<Match>): set<string> {
    set m | m in ms :: m.cardName
  }

  /** `FCCandidate.card_count`: the number of distinct card names among the matches. */
  function CardCount(c: FCCandidate): (n: nat)
    ensures n <= |c.matches|
    ensures n == 0 <==> c.matches == []
    ensures forall name :: name in CardNames(c.matches) ==> exists m :: m in c.matches && m.cardName == name
  {
    NamesBound(c.matches);
    |CardNames(c.matches)|
  }

  lemma {:induction false} NamesBound(ms: seq<Match>)
    ensures |CardNames(ms)| <= |ms|
    ensures ms != [] ==> |CardNames(ms)| >= 1
  {
    if ms != [] {
      var rest := ms[1..];
      NamesBound(rest);
      assert CardNames(ms) == CardNames(rest) + {ms[0].cardName} by {
        assert forall m :: m in ms <==> m == ms[0] || m in rest;
      }
      assert ms[0].cardName in CardNames(ms);
    }
  }

  function Signatures(ms: seq<Match>): set<Signature> {
    set m | m in ms :: GetSignature(m)
  }

  /** `FCCandidate.unique_patterns`, as a set (the source's list order comes from a Python set). */
  function UniquePatterns(c: FCCandidate): (s: set<Signature>)
    ensures forall sig :: sig in s <==> exists m :: m in c.matches && GetSignature(m) == sig
    ensures |s| <= |c.matches|
  {
    SignaturesBound(c.matches);
    Signatures(c.matches)
  }

  lemma {:induction false} SignaturesBound(ms: seq<Match>)
    ensures |Signatures(ms)| <= |ms|
  {
    if ms != [] {
      var rest := ms[1..];
      SignaturesBound(rest);
      assert Signatures(ms) == Signatures(rest) + {GetSignature(ms[0])} by {
        assert forall m :: m in ms <==> m == ms[0] || m in rest;
      }
    }
  }

  /** `FCCandidate.total_score`: consistency plus the real-world boost. */
  function TotalScore(c: FCCandidate): real {
    c.consistencyScore + c.realWorldBoost as real
  }
}
