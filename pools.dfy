/**
 * The per-card accumulation steps of the analyzers: `all_matches.extend(...)`
 * over the cards, which stops at the first card whose payload raises, and a
 * dict filled card by card, where assigning to a key already present keeps
 * the key's position and replaces its value.
 */
module Pools {
  import opened Basics
  import opened Matching
  import opened Grouping

  /** `for r in rs: all.extend(r)`, where a failed step raises. */
  function Concat(rs: seq<Result<seq<Match>>>): Result<seq<Match>> {
    if rs == [] then Ok([])
    else
      match Concat(rs[..|rs| - 1])
      case ValueError(e) => ValueError(e)
      case Ok(ms) =>
        match rs[|rs| - 1]
        case ValueError(e) => ValueError(e)
        case Ok(more) => Ok(ms + more)
  }

  /**
   * The concatenation succeeds exactly when every step does, and then holds
   * the matches of all steps; otherwise it reports the first failing step.
   */
  lemma {:induction false} ConcatSpec(rs: seq<Result<seq<Match>>>)
    ensures Concat(rs).Ok? <==> forall i :: 0 <= i < |rs| ==> rs[i].Ok?
    ensures Concat(rs).ValueError? ==>
      exists i :: 0 <= i < |rs| && rs[i] == ValueError(Concat(rs).input) && forall j :: 0 <= j < i ==> rs[j].Ok?
    ensures Concat(rs).Ok? ==>
      forall m :: m in Concat(rs).value <==> exists i :: 0 <= i < |rs| && m in rs[i].value
  {
    if rs != [] {
      var init := rs[..|rs| - 1];
      ConcatSpec(init);
      assert forall i :: 0 <= i < |init| ==> init[i] == rs[i];
    }
  }

  lemma ConcatStep(rs: seq<Result<seq<Match>>>, i: nat)
    requires i < |rs|
    ensures Concat(rs[..i + 1]) ==
      match Concat(rs[..i])
      case ValueError(e) => ValueError(e)
      case Ok(ms) => match rs[i] case ValueError(e) => ValueError(e) case Ok(more) => Ok(ms + more)
  {
    assert rs[..i + 1][..i] == rs[..i];
  }

  lemma ConcatSnoc(rs: seq<Result<seq<Match>>>, r: Result<seq<Match>>)
    ensures Concat(rs + [r]) ==
      match Concat(rs)
      case ValueError(e) => ValueError(e)
      case Ok(ms) => match r case ValueError(e) => ValueError(e) case Ok(more) => Ok(ms + more)
  {
    assert (rs + [r])[..|rs|] == rs;
  }

  /** Once a step has raised, the whole concatenation reports that error. */
  lemma {:induction false} ConcatPrefixError(rs: seq<Result<seq<Match>>>, i: nat)
    requires i <= |rs| && Concat(rs[..i]).ValueError?
    ensures Concat(rs) == ValueError(Concat(rs[..i]).input)
  {
    if i == |rs| {
      assert rs[..i] == rs;
    } else {
      var init := rs[..|rs| - 1];
      assert init[..i] == rs[..i];
      ConcatPrefixError(init, i);
    }
  }

  /** The results of `f` on the items `keep` selects, in order. */
  function Gather<C>(f: C -> Result<seq<Match>>, keep: C -> bool, cs: seq<C>): seq<Result<seq<Match>>> {
    if cs == [] then []
    else Gather(f, keep, cs[..|cs| - 1]) + (if keep(cs[|cs| - 1]) then [f(cs[|cs| - 1])] else [])
  }

  /** A successful concatenation of gathered results holds exactly the matches of the selected items. */
  lemma {:induction false} GatherMem<C>(f: C -> Result<seq<Match>>, keep: C -> bool, cs: seq<C>)
    ensures Concat(Gather(f, keep, cs)).Ok? ==> forall m :: m in Concat(Gather(f, keep, cs)).value <==>
      exists i :: 0 <= i < |cs| && keep(cs[i]) && f(cs[i]).Ok? && m in f(cs[i]).value
  {
    if cs != [] {
      var init, last := cs[..|cs| - 1], cs[|cs| - 1];
      var prev := Gather(f, keep, init);
      GatherMem(f, keep, init);
      assert forall i :: 0 <= i < |init| ==> init[i] == cs[i];
      if keep(last) {
        ConcatSnoc(prev, f(last));
      } else {
        assert Gather(f, keep, cs) == prev;
      }
    }
  }

  /** An insertion-ordered dict with string keys. */
  datatype Dict<V> = Dict(keys: seq<string>, values: map<string, V>)

  ghost predicate Valid<V>(d: Dict<V>) {
    && (forall k :: k in d.values <==> k in d.keys)
    && Distinct(d.keys)
  }

  /** `d[k] = v`. */
  function Put<V>(d: Dict<V>, k: string, v: V): Dict<V> {
    if k in d.values then Dict(d.keys, d.values[k := v]) else Dict(d.keys + [k], d.values[k := v])
  }

  /** `for k, r in es: d[k] = r`, where a failed step raises. */
  function FromEntries(es: seq<(string, Result<seq<Match>>)>): Result<Dict<seq<Match>>> {
    if es == [] then Ok(Dict([], map[]))
    else
      match FromEntries(es[..|es| - 1])
      case ValueError(e) => ValueError(e)
      case Ok(d) =>
        match es[|es| - 1].1
        case ValueError(e) => ValueError(e)
        case Ok(v) => Ok(Put(d, es[|es| - 1].0, v))
  }

  lemma FromEntriesStep(es: seq<(string, Result<seq<Match>>)>, i: nat)
    requires i < |es|
    ensures FromEntries(es[..i + 1]) ==
      match FromEntries(es[..i])
      case ValueError(e) => ValueError(e)
      case Ok(d) => match es[i].1 case ValueError(e) => ValueError(e) case Ok(v) => Ok(Put(d, es[i].0, v))
  {
    assert es[..i + 1][..i] == es[..i];
  }

  /** The dict is built exactly when every step succeeds; otherwise the first failing step is reported. */
  lemma {:induction false} FromEntriesError(es: seq<(string, Result<seq<Match>>)>)
    ensures FromEntries(es).Ok? <==> forall i :: 0 <= i < |es| ==> es[i].1.Ok?
    ensures FromEntries(es).ValueError? ==>
      exists i :: 0 <= i < |es| && es[i].1 == ValueError(FromEntries(es).input) && forall j :: 0 <= j < i ==> es[j].1.Ok?
  {
    if es != [] {
      var init := es[..|es| - 1];
      FromEntriesError(init);
      assert forall i :: 0 <= i < |init| ==> init[i] == es[i];
    }
  }

  /** Once a step has raised, building the dict reports that error. */
  lemma {:induction false} FromEntriesPrefixError(es: seq<(string, Result<seq<Match>>)>, i: nat)
    requires i <= |es| && FromEntries(es[..i]).ValueError?
    ensures FromEntries(es) == ValueError(FromEntries(es[..i]).input)
  {
    if i == |es| {
      assert es[..i] == es;
    } else {
      var init := es[..|es| - 1];
      assert init[..i] == es[..i];
      FromEntriesPrefixError(init, i);
    }
  }

  lemma PutValid<V>(d: Dict<V>, k: string, v: V)
    requires Valid(d)
    ensures Valid(Put(d, k, v))
    ensures forall k' :: k' in Put(d, k, v).values <==> k' in d.values || k' == k
  {
  }

  /** The keys of the dict are the keys of the entries, each once. */
  lemma {:induction false} FromEntriesKeys(es: seq<(string, Result<seq<Match>>)>)
    requires FromEntries(es).Ok?
    ensures Valid(FromEntries(es).value)
    ensures forall k :: k in FromEntries(es).value.values <==> exists i :: 0 <= i < |es| && es[i].0 == k
  {
    if es != [] {
      var init := es[..|es| - 1];
      var last := es[|es| - 1];
      assert FromEntries(init).Ok? && last.1.Ok?;
      FromEntriesKeys(init);
      assert forall i :: 0 <= i < |init| ==> init[i] == es[i];
      PutValid(FromEntries(init).value, last.0, last.1.value);
    }
  }

  /** Each key holds the value of the last entry with that key. */
  lemma {:induction false} FromEntriesLast(es: seq<(string, Result<seq<Match>>)>, k: string)
    requires FromEntries(es).Ok? && k in FromEntries(es).value.values
    ensures exists i :: 0 <= i < |es| && es[i] == (k, Ok(FromEntries(es).value.values[k])) &&
                        forall j :: i < j < |es| ==> es[j].0 != k
  {
    var init := es[..|es| - 1];
    var last := es[|es| - 1];
    assert FromEntries(init).Ok? && last.1.Ok?;
    var d0 := FromEntries(init).value;
    var d := Put(d0, last.0, last.1.value);
    assert FromEntries(es) == Ok(d);
    if k == last.0 {
      assert es[|es| - 1] == (k, Ok(d.values[k]));
    } else {
      FromEntriesLast(init, k);
      var i :| 0 <= i < |init| && init[i] == (k, Ok(d0.values[k])) && forall j :: i < j < |init| ==> init[j].0 != k;
      assert es[i] == (k, Ok(d.values[k]));
    }
  }

  /** The values of the keys `ks`, concatenated in that order. */
  function Values(d: Dict<seq<Match>>, ks: seq<string>): seq<Match>
    requires forall k :: k in ks ==> k in d.values
  {
    if ks == [] then [] else Values(d, ks[..|ks| - 1]) + d.values[ks[|ks| - 1]]
  }

  lemma {:induction false} ValuesMem(d: Dict<seq<Match>>, ks: seq<string>)
    requires forall k :: k in ks ==> k in d.values
    ensures forall m :: m in Values(d, ks) <==> exists k :: k in ks && m in d.values[k]
  {
    if ks != [] {
      ValuesMem(d, ks[..|ks| - 1]);
      assert forall k :: k in ks <==> k in ks[..|ks| - 1] || k == ks[|ks| - 1];
    }
  }

  lemma ValuesStep(d: Dict<seq<Match>>, ks: seq<string>, i: nat)
    requires i < |ks|
    requires forall k :: k in ks ==> k in d.values
    ensures Values(d, ks[..i + 1]) == Values(d, ks[..i]) + d.values[ks[i]]
  {
    assert ks[..i + 1][..i] == ks[..i];
  }
}
