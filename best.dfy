/**
 * The running maximum the source writes out by hand several times
 * (`if x > best: best = x`) and Python's `max(xs, key=...)`: both keep the
 * first element that reaches the largest score, because the update is strict.
 */
module Best {

  datatype Scored<T> = Scored(score: int, item: T)

  /** `best = init; for x in xs: if x.score > best.score: best = x`. */
  function RunningBest<T>(xs: seq<Scored<T>>, init: Scored<T>): Scored<T> {
    if xs == [] then init
    else
      var b := RunningBest(xs[..|xs| - 1], init);
      if xs[|xs| - 1].score > b.score then xs[|xs| - 1] else b
  }

  /**
   * The running best is the initial value unless some element beats it;
   * otherwise it is the first element with the largest score, and no element
   * scores more.
   */
  lemma {:induction false} RunningBestSpec<T>(xs: seq<Scored<T>>, init: Scored<T>)
    ensures RunningBest(xs, init).score >= init.score
    ensures forall i :: 0 <= i < |xs| ==> xs[i].score <= RunningBest(xs, init).score
    ensures (forall i :: 0 <= i < |xs| ==> xs[i].score <= init.score) ==> RunningBest(xs, init) == init
    ensures RunningBest(xs, init).score > init.score ==>
      exists i :: 0 <= i < |xs| && xs[i] == RunningBest(xs, init) &&
        forall j :: 0 <= j < i ==> xs[j].score < xs[i].score
  {
    if xs != [] {
      var init' := xs[..|xs| - 1];
      RunningBestSpec(init', init);
      var b := RunningBest(init', init);
      if xs[|xs| - 1].score > b.score {
        assert forall j :: 0 <= j < |xs| - 1 ==> xs[j] == init'[j];
      } else if b.score > init.score {
        var i :| 0 <= i < |init'| && init'[i] == b && forall j :: 0 <= j < i ==> init'[j].score < init'[i].score;
        assert xs[i] == b;
      }
    }
  }

  /** Scores of a prefix: one more element is one more step of the running best. */
  lemma RunningBestStep<T>(xs: seq<Scored<T>>, init: Scored<T>, j: nat)
    requires j < |xs|
    ensures RunningBest(xs[..j + 1], init) ==
      (if xs[j].score > RunningBest(xs[..j], init).score then xs[j] else RunningBest(xs[..j], init))
  {
    assert xs[..j + 1][..j] == xs[..j];
  }

  /** Python's `max(xs, key=score)` on a non-empty list: the first element of largest score. */
  function FirstMax<T>(xs: seq<Scored<T>>): (b: Scored<T>)
    requires xs != []
    ensures b in xs
    ensures forall i :: 0 <= i < |xs| ==> xs[i].score <= b.score
    ensures exists i :: 0 <= i < |xs| && xs[i] == b && forall j :: 0 <= j < i ==> xs[j].score < b.score
  {
    RunningBestSpec(xs[1..], xs[0]);
    var b := RunningBest(xs[1..], xs[0]);
    assert forall i :: 1 <= i < |xs| ==> xs[i] == xs[1..][i - 1];
    assert exists i :: 0 <= i < |xs| && xs[i] == b && forall j :: 0 <= j < i ==> xs[j].score < b.score by {
      if b.score > xs[0].score {
        var i :| 0 <= i < |xs| - 1 && xs[1..][i] == b && forall j :: 0 <= j < i ==> xs[1..][j].score < b.score;
        assert xs[i + 1] == b;
      } else {
        assert xs[0] == b;
      }
    }
    b
  }
}
