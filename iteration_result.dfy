/**
 * The results of one measured iteration: primary results, which must all share one score
 * unit, and secondary results grouped by label.
 */
module IterationResults {
  import opened Wrappers

  /** A result's role: whether it is a primary and whether it is a secondary result. */
  datatype Role = Role(isPrimary: bool, isSecondary: bool)

  /** How results of one kind are combined across threads. */
  datatype Policy = Sum | Max | Average

  /** A result as the accumulator sees it: its label (name), score unit, role and aggregation policy. */
  datatype Result = Result(name: string, scoreUnit: string, role: Role, policy: Policy)

  /** The combination of a collection of results under a policy; its behaviour is not modelled. */
  type Aggregate = (Policy, seq<Result>) -> Result

  /** The accumulator's state as a value. */
  datatype Accumulated = Accumulated(
    primary: seq<Result>,
    secondary: map<string, seq<Result>>,
    scoreUnit: Option<string>)

  const Empty := Accumulated([], map[], None)

  /** The invariant: every stored primary result has the score unit, the unit is unset exactly
      when there is no primary result, and every secondary label holds results of that label. */
  predicate Consistent(a: Accumulated)
  {
    && (a.scoreUnit.None? <==> a.primary == [])
    && (forall k :: 0 <= k < |a.primary| ==>
          a.primary[k].role.isPrimary && a.scoreUnit == Some(a.primary[k].scoreUnit))
    && (forall l :: l in a.secondary ==>
          && a.secondary[l] != []
          && forall k :: 0 <= k < |a.secondary[l]| ==>
               a.secondary[l][k].name == l && a.secondary[l][k].role.isSecondary)
  }

  /** A primary result whose unit differs from the unit already fixed. */
  predicate UnitClash(a: Accumulated, r: Result)
  {
    r.role.isPrimary && a.scoreUnit.Some? && a.scoreUnit.value != r.scoreUnit
  }

  /** Multimap put: appends v to the values of key l. */
  function Put(m: map<string, seq<Result>>, l: string, v: Result): map<string, seq<Result>>
  {
    m[l := (if l in m then m[l] else []) + [v]]
  }

  /** addResult as a function: None is the IllegalStateException of a unit clash. */
  function Added(a: Accumulated, r: Result): Option<Accumulated>
  {
    if UnitClash(a, r) then None
    else Some(Accumulated(
      if r.role.isPrimary then a.primary + [r] else a.primary,
      if r.role.isSecondary then Put(a.secondary, r.name, r) else a.secondary,
      if r.role.isPrimary && a.scoreUnit.None? then Some(r.scoreUnit) else a.scoreUnit))
  }

  /** addResults as a function: adds in order and stops at the first clash, giving the state
      reached and the index of the element that failed. */
  function AddedAll(a: Accumulated, rs: seq<Result>): (Accumulated, Option<nat>)
    decreases |rs|
  {
    if rs == [] then (a, None)
    else match Added(a, rs[0])
      case None => (a, Some(0))
      case Some(a') =>
        var (z, failed) := AddedAll(a', rs[1..]);
        (z, if failed.Some? then Some(failed.value + 1) else None)
  }

  /** The primary results of rs, in order. */
  function Primaries(rs: seq<Result>): seq<Result>
  {
    if rs == [] then [] else (if rs[0].role.isPrimary then [rs[0]] else []) + Primaries(rs[1..])
  }

  predicate AllPrimariesIn(rs: seq<Result>, u: string)
  {
    forall k :: 0 <= k < |rs| && rs[k].role.isPrimary ==> rs[k].scoreUnit == u
  }

  /** The primary results of rs agree on one unit, and on the fixed unit u if there is one. */
  predicate Compatible(u: Option<string>, rs: seq<Result>)
  {
    if u.Some? then AllPrimariesIn(rs, u.value)
    else forall k :: 0 <= k < |rs| && rs[k].role.isPrimary ==> AllPrimariesIn(rs, rs[k].scoreUnit)
  }

  /** A successful add keeps the invariant. */
  lemma AddedConsistent(a: Accumulated, r: Result)
    requires Consistent(a) && Added(a, r).Some?
    ensures Consistent(Added(a, r).value)
  {
    var b := Added(a, r).value;
    forall l | l in b.secondary
      ensures b.secondary[l] != [] && forall k :: 0 <= k < |b.secondary[l]| ==>
        b.secondary[l][k].name == l && b.secondary[l][k].role.isSecondary
    {
      if r.role.isSecondary && l == r.name {
        var old_ := if l in a.secondary then a.secondary[l] else [];
        assert b.secondary[l] == old_ + [r];
      }
    }
  }

  /** Adding a sequence keeps the invariant, whether or not it fails part-way. */
  lemma {:induction false} AddedAllConsistent(a: Accumulated, rs: seq<Result>)
    requires Consistent(a)
    ensures Consistent(AddedAll(a, rs).0)
    decreases |rs|
  {
    if rs != [] && Added(a, rs[0]).Some? {
      AddedConsistent(a, rs[0]);
      AddedAllConsistent(Added(a, rs[0]).value, rs[1..]);
    }
  }

  /** Once fixed, the score unit never changes. */
  lemma {:induction false} ScoreUnitStable(a: Accumulated, rs: seq<Result>)
    requires a.scoreUnit.Some?
    ensures AddedAll(a, rs).0.scoreUnit == a.scoreUnit
    decreases |rs|
  {
    if rs != [] && Added(a, rs[0]).Some? {
      ScoreUnitStable(Added(a, rs[0]).value, rs[1..]);
    }
  }

  /** When every element is added, the primary results are appended in order and the unit is
      the one already fixed or else that of the first primary result. */
  lemma {:induction false} AddedAllPrimaries(a: Accumulated, rs: seq<Result>)
    requires AddedAll(a, rs).1.None?
    ensures AddedAll(a, rs).0.primary == a.primary + Primaries(rs)
    ensures Primaries(rs) != [] && a.scoreUnit.None? ==>
      AddedAll(a, rs).0.scoreUnit == Some(Primaries(rs)[0].scoreUnit)
    decreases |rs|
  {
    if rs != [] {
      var a' := Added(a, rs[0]).value;
      AddedAllPrimaries(a', rs[1..]);
      if a'.scoreUnit.Some? {
        ScoreUnitStable(a', rs[1..]);
      }
    }
  }

  /** A failure at index k leaves exactly the first k elements added, and element k clashes. */
  lemma {:induction false} AddedAllFailure(a: Accumulated, rs: seq<Result>)
    requires AddedAll(a, rs).1.Some?
    ensures var (z, failed) := AddedAll(a, rs);
      && failed.value < |rs|
      && AddedAll(a, rs[..failed.value]) == (z, None)
      && UnitClash(z, rs[failed.value])
    decreases |rs|
  {
    var a' := Added(a, rs[0]);
    if a'.Some? {
      AddedAllFailure(a'.value, rs[1..]);
      var k := AddedAll(a'.value, rs[1..]).1.value;
      assert rs[..k + 1][1..] == rs[1..][..k];
    } else {
      assert rs[..0] == [];
    }
  }

  /** Adding all elements succeeds exactly when their primary results agree on one unit, and on
      the unit already fixed. */
  lemma {:induction false} AddedAllSucceeds(a: Accumulated, rs: seq<Result>)
    requires Consistent(a)
    ensures AddedAll(a, rs).1.None? <==> Compatible(a.scoreUnit, rs)
    decreases |rs|
  {
    if rs != [] {
      var r, rest := rs[0], rs[1..];
      if !UnitClash(a, r) {
        var a' := Added(a, r).value;
        AddedAllSucceeds(a', rest);
        AddedConsistent(a, r);
        assert forall k :: 1 <= k < |rs| ==> rs[k] == rest[k - 1];
        if a.scoreUnit.None? && r.role.isPrimary {
          if Compatible(a'.scoreUnit, rest) {
            forall k | 0 <= k < |rs| && rs[k].role.isPrimary
              ensures AllPrimariesIn(rs, rs[k].scoreUnit)
            {
              assert rs[k].scoreUnit == r.scoreUnit;
            }
          }
          if Compatible(a.scoreUnit, rs) {
            assert AllPrimariesIn(rs, rs[0].scoreUnit);
          }
        }
        if a.scoreUnit.None? && !r.role.isPrimary {
          if Compatible(a.scoreUnit, rs) {
            forall k | 0 <= k < |rest| && rest[k].role.isPrimary
              ensures AllPrimariesIn(rest, rest[k].scoreUnit)
            {
              assert AllPrimariesIn(rs, rs[k + 1].scoreUnit);
            }
          }
        }
      }
    }
  }

  /** Two primary results in "ops/s" and then "ms": the second is rejected and only the first
      is kept; the two are never combined. */
  lemma MismatchedUnitsRejected(name: string, p: Policy)
    ensures var first := Result(name, "ops/s", Role(true, false), p);
      var second := Result(name, "ms", Role(true, false), p);
      AddedAll(Empty, [first, second]) == (Accumulated([first], map[], Some("ops/s")), Some(1))
  {
    var first := Result(name, "ops/s", Role(true, false), p);
    var second := Result(name, "ms", Role(true, false), p);
    var a1 := Accumulated([first], map[], Some("ops/s"));
    assert Empty.primary + [first] == [first];
    assert Added(Empty, first) == Some(a1);
    assert "ops/s" != "ms" by { assert "ops/s"[0] != "ms"[0]; }
    assert UnitClash(a1, second);
    assert AddedAll(a1, [second]) == (a1, Some(0));
    assert [first, second][1..] == [second];
  }

  lemma {:induction false} AddedAllSnoc(a: Accumulated, rs: seq<Result>, r: Result)
    requires AddedAll(a, rs).1.None?
    ensures AddedAll(a, rs + [r]) ==
      match Added(AddedAll(a, rs).0, r)
      case None => (AddedAll(a, rs).0, Some(|rs|))
      case Some(b) => (b, None)
    decreases |rs|
  {
    if rs == [] {
      assert [] + [r] == [r];
    } else {
      assert (rs + [r])[1..] == rs[1..] + [r];
      AddedAllSnoc(Added(a, rs[0]).value, rs[1..], r);
    }
  }

  class IterationResult {
    var primaryResults: seq<Result>
    var secondaryResults: map<string, seq<Result>>
    var scoreUnit: Option<string>

    ghost function State(): Accumulated
      reads this
    {
      Accumulated(primaryResults, secondaryResults, scoreUnit)
    }

    ghost predicate Valid()
      reads this
    {
      Consistent(State())
    }

    constructor ()
      ensures Valid()
      ensures primaryResults == [] && secondaryResults == map[] && scoreUnit == None
    {
      primaryResults := [];
      secondaryResults := map[];
      scoreUnit := None;
    }

    /** Adds one result; ok is false for the IllegalStateException of a primary result whose
        unit differs from the fixed one, and then nothing changes. */
    method AddResult(result: Result) returns (ok: bool)
      requires Valid()
      modifies this
      ensures Valid()
      ensures ok <==> !UnitClash(old(State()), result)
      ensures !ok ==> State() == old(State())
      ensures ok ==> primaryResults ==
                       (if result.role.isPrimary then old(primaryResults) + [result] else old(primaryResults))
      ensures ok ==> scoreUnit ==
                       (if result.role.isPrimary && old(scoreUnit).None? then Some(result.scoreUnit)
                        else old(scoreUnit))
      ensures ok ==> secondaryResults ==
                       (if result.role.isSecondary then Put(old(secondaryResults), result.name, result)
                        else old(secondaryResults))
      ensures Added(old(State()), result) == if ok then Some(State()) else None
    {
      ghost var before := State();
      if result.role.isPrimary {
        if scoreUnit.None? {
          scoreUnit := Some(result.scoreUnit);
        } else {
          if scoreUnit.value != result.scoreUnit {
            return false;
          }
        }
        primaryResults := primaryResults + [result];
      }
      if result.role.isSecondary {
        var prior := if result.name in secondaryResults then secondaryResults[result.name] else [];
        secondaryResults := secondaryResults[result.name := prior + [result]];
      }
      ok := true;
      AddedConsistent(before, result);
    }

    /** Adds the results in order; failedAt is the index of the element that clashed, and the
        elements before it stay added. */
    method AddResults(rs: seq<Result>) returns (failedAt: Option<nat>)
      requires Valid()
      modifies this
      ensures Valid()
      ensures (State(), failedAt) == AddedAll(old(State()), rs)
    {
      var i := 0;
      while i < |rs|
        invariant 0 <= i <= |rs|
        invariant Valid()
        invariant AddedAll(old(State()), rs[..i]) == (State(), None)
      {
        AddedAllSnoc(old(State()), rs[..i], rs[i]);
        assert rs[..i] + [rs[i]] == rs[..i + 1];
        var ok := AddResult(rs[i]);
        if !ok {
          AddedAllStopsAt(old(State()), rs, i);
          return Some(i);
        }
        i := i + 1;
      }
      assert rs[..i] == rs;
      return None;
    }

    /** The score unit: unset exactly when there is no primary result, and the unit of every
        primary result otherwise. */
    function GetScoreUnit(): (u: Option<string>)
      reads this
      requires Valid()
      ensures u.None? <==> primaryResults == []
      ensures forall k :: 0 <= k < |primaryResults| ==> u == Some(primaryResults[k].scoreUnit)
    {
      scoreUnit
    }

    /** The aggregate of all primary results under the first one's policy; None for the
        NoSuchElementException of an iteration without primary results. Whatever is aggregated
        is a collection of primary results that all carry the one score unit. */
    function GetPrimaryResult(aggregate: Aggregate): (r: Option<Result>)
      reads this
      requires Valid()
      ensures r.None? <==> primaryResults == []
      ensures r.Some? ==> scoreUnit.Some? &&
                          forall k :: 0 <= k < |primaryResults| ==>
                            primaryResults[k].role.isPrimary && primaryResults[k].scoreUnit == scoreUnit.value
      ensures r.Some? ==> r.value == aggregate(primaryResults[0].policy, primaryResults)
    {
      if primaryResults == [] then None
      else Some(aggregate(primaryResults[0].policy, primaryResults))
    }

    /** One aggregate per secondary label, keyed by exactly the labels present, each under the
        policy of that label's first result. */
    method GetSecondaryResults(aggregate: Aggregate) returns (answer: map<string, Result>)
      requires Valid()
      ensures answer.Keys == secondaryResults.Keys
      ensures forall l :: l in answer ==>
        answer[l] == aggregate(secondaryResults[l][0].policy, secondaryResults[l])
    {
      answer := map[];
      var labels := secondaryResults.Keys;
      while labels != {}
        invariant labels <= secondaryResults.Keys
        invariant answer.Keys == secondaryResults.Keys - labels
        invariant forall l :: l in answer ==>
          answer[l] == aggregate(secondaryResults[l][0].policy, secondaryResults[l])
        decreases labels
      {
        var key :| key in labels;
        var results := secondaryResults[key];
        var next := results[0];
        answer := answer[key := aggregate(next.policy, results)];
        labels := labels - {key};
      }
    }
  }

  /** A failure at index i of a run whose first i elements were added is reported at i. */
  lemma {:induction false} AddedAllStopsAt(a: Accumulated, rs: seq<Result>, i: nat)
    requires i < |rs|
    requires AddedAll(a, rs[..i]).1.None?
    requires UnitClash(AddedAll(a, rs[..i]).0, rs[i])
    ensures AddedAll(a, rs) == (AddedAll(a, rs[..i]).0, Some(i))
    decreases i
  {
    if i > 0 {
      assert rs[..i][0] == rs[0];
      var a' := Added(a, rs[0]).value;
      assert rs[..i][1..] == rs[1..][..i - 1];
      AddedAllStopsAt(a', rs[1..], i - 1);
    }
  }
}
