/**
 * Best-fit distribution selection (find_best_fit_distribution in
 * inter_arrival-miner/interarrival.py). The statistics library it calls
 * (parameter fitting, random sampling, Wasserstein distance, percentiles)
 * is a parameter: the model fixes the selection protocol around it.
 */
module DistributionFit {
  import opened Wrappers
  import Seqs

  datatype Distribution = Fixed | Normal | Exponential | Uniform | Triangular | Lognormal | Gamma

  /** possible_distributions: the candidates in the order they are tried. */
  const PossibleDistributions: seq<Distribution> :=
    [Fixed, Normal, Exponential, Uniform, Triangular, Lognormal, Gamma]

  /** Position of a candidate in PossibleDistributions. */
  function Rank(d: Distribution): (k: nat)
    ensures k < |PossibleDistributions| && PossibleDistributions[k] == d
  {
    match d
    case Fixed => 0
    case Normal => 1
    case Exponential => 2
    case Uniform => 3
    case Triangular => 4
    case Lognormal => 5
    case Gamma => 6
  }

  /**
   * Number of fitted parameters: `value`; `loc, scale`; or a shape
   * (`c`, `s`, `a`) followed by `loc, scale`.
   */
  function Arity(d: Distribution): nat
  {
    match d
    case Fixed => 1
    case Normal | Exponential | Uniform => 2
    case Triangular | Lognormal | Gamma => 3
  }

  /**
   * The numerical library: `np.percentile`, `dist.fit`, `dist.rvs` and
   * `stats.wasserstein_distance`. `fit` and `rvs` answer None when they raise.
   */
  datatype Library = Library(
    percentile: (seq<real>, int) -> real,
    fit: (Distribution, seq<real>) -> Option<seq<real>>,
    rvs: (Distribution, seq<real>, nat) -> Option<seq<real>>,
    wasserstein: (seq<real>, seq<real>) -> real)

  /** One entry `{"value": v}` of the returned parameter list. */
  datatype Param = Param(value: real)

  /** The `arrival_time_distribution` record. */
  datatype Report = Report(distributionName: Distribution, distributionParams: seq<Param>)

  // ---------------------------------------------------------------------
  // Outlier trimming

  /** Keeps, in order, the values within [lower, upper]. */
  function Trim(s: seq<real>, lower: real, upper: real): (r: seq<real>)
    ensures forall x :: x in r <==> x in s && lower <= x <= upper
    ensures |r| <= |s|
  {
    if s == [] then []
    else (if lower <= s[0] <= upper then [s[0]] else []) + Trim(s[1..], lower, upper)
  }

  /** Trimming works piecewise, so it keeps the surviving values in their original order. */
  lemma {:induction false} TrimConcat(a: seq<real>, b: seq<real>, lower: real, upper: real)
    ensures Trim(a + b, lower, upper) == Trim(a, lower, upper) + Trim(b, lower, upper)
  {
    if a == [] {
      assert a + b == b;
    } else {
      assert (a + b)[1..] == a[1..] + b;
      TrimConcat(a[1..], b, lower, upper);
    }
  }

  /** Trimming again with the same limits removes nothing more. */
  lemma {:induction false} TrimIdempotent(s: seq<real>, lower: real, upper: real)
    ensures Trim(Trim(s, lower, upper), lower, upper) == Trim(s, lower, upper)
  {
    if s != [] {
      var head := if lower <= s[0] <= upper then [s[0]] else [];
      TrimConcat(head, Trim(s[1..], lower, upper), lower, upper);
      TrimIdempotent(s[1..], lower, upper);
      assert Trim(head, lower, upper) == head by {
        if head != [] {
          assert head[1..] == [];
        }
      }
    }
  }

  /** The inter-quartile fences q1 - 1.5 iqr and q3 + 1.5 iqr. */
  function Fences(lib: Library, s: seq<real>): (real, real)
  {
    var q1 := lib.percentile(s, 25);
    var q3 := lib.percentile(s, 75);
    var iqr := q3 - q1;
    (q1 - 1.5 * iqr, q3 + 1.5 * iqr)
  }

  /** The observations the fit works on: trimmed to the fences when asked. */
  function Prepared(lib: Library, s: seq<real>, removeOutliers: bool): seq<real>
  {
    if removeOutliers then Trim(s, Fences(lib, s).0, Fences(lib, s).1) else s
  }

  // ---------------------------------------------------------------------
  // Descriptive statistics

  function Sum(s: seq<real>): real
  {
    if s == [] then 0.0 else s[0] + Sum(s[1..])
  }

  function Mean(s: seq<real>): real
    requires |s| > 0
  {
    Sum(s) / (|s| as real)
  }

  function Min(s: seq<real>): (m: real)
    requires |s| > 0
    ensures m in s && forall i :: 0 <= i < |s| ==> m <= s[i]
  {
    if |s| == 1 then s[0]
    else
      var m := Min(s[1..]);
      assert forall i :: 1 <= i < |s| ==> s[i] == s[1..][i - 1];
      if s[0] <= m then s[0] else m
  }

  function Max(s: seq<real>): (m: real)
    requires |s| > 0
    ensures m in s && forall i :: 0 <= i < |s| ==> s[i] <= m
  {
    if |s| == 1 then s[0]
    else
      var m := Max(s[1..]);
      assert forall i :: 1 <= i < |s| ==> s[i] == s[1..][i - 1];
      if m <= s[0] then s[0] else m
  }

  /** The minimum equals the maximum exactly when all observations are equal. */
  lemma MinMaxEqualIffConstant(s: seq<real>)
    requires |s| > 0
    ensures Min(s) == Max(s) <==> forall i :: 0 <= i < |s| ==> s[i] == s[0]
  {
    if Min(s) == Max(s) {
      forall i | 0 <= i < |s| ensures s[i] == s[0] {
        assert Min(s) <= s[i] <= Max(s);
        assert Min(s) <= s[0] <= Max(s);
      }
    } else {
      assert Min(s) in s && Max(s) in s;
    }
  }

  /** The mean of n copies of v is v. */
  lemma MeanOfConstant(s: seq<real>)
    requires |s| > 0
    requires forall i :: 0 <= i < |s| ==> s[i] == s[0]
    ensures Mean(s) == s[0]
  {
    SumOfConstant(s, s[0]);
    assert Sum(s) == (|s| as real) * s[0];
  }

  lemma {:induction false} SumOfConstant(s: seq<real>, v: real)
    requires forall i :: 0 <= i < |s| ==> s[i] == v
    ensures Sum(s) == (|s| as real) * v
  {
    if s != [] {
      SumOfConstant(s[1..], v);
    }
  }

  // ---------------------------------------------------------------------
  // Candidates

  /** `N`: the requested number of synthetic samples, or the sample count when it is absent or zero. */
  function SampleCount(n: Option<nat>, observed: seq<real>): nat
  {
    if n.None? || n.value == 0 then |observed| else n.value
  }

  /** Fitted parameters and the synthetic sample drawn from them. */
  datatype Fitted = Fitted(params: seq<real>, generated: seq<real>)

  /**
   * One candidate's try: `fixed` takes the mean and repeats it `count`
   * times; the others call `fit`, unpack its tuple and call `rvs`. Any of
   * these raising (a result of the wrong size fails to unpack) makes the
   * candidate None.
   */
  function Attempt(lib: Library, d: Distribution, observed: seq<real>, count: nat): (r: Option<Fitted>)
    requires |observed| > 0
    ensures d == Fixed ==> r.Some? && r.value.params == [Mean(observed)]
    ensures d == Fixed ==>
      (|r.value.generated| == count && forall i :: 0 <= i < count ==> r.value.generated[i] == Mean(observed))
    ensures r.Some? ==> |r.value.params| == Arity(d)
  {
    if d == Fixed then
      var m := Mean(observed);
      Some(Fitted([m], seq(count, _ => m)))
    else
      match lib.fit(d, observed)
      case None => None
      case Some(p) =>
        if |p| != Arity(d) then None
        else
          match lib.rvs(d, p, count)
          case None => None
          case Some(g) => Some(Fitted(p, g))
  }

  /** The Wasserstein distance of a candidate that produced a sample. */
  function Score(lib: Library, observed: seq<real>, count: nat, d: Distribution): real
    requires |observed| > 0
    requires Attempt(lib, d, observed, count).Some?
  {
    lib.wasserstein(observed, Attempt(lib, d, observed, count).value.generated)
  }

  /**
   * Python's `min(dist, key=dist.get)` over a dict whose keys were inserted
   * in the order `keys`: the first key of least value.
   */
  function ArgMin(keys: seq<Distribution>, dist: map<Distribution, real>): (best: Option<Distribution>)
    requires Seqs.NoDuplicates(keys)
    ensures best.None? <==> forall i :: 0 <= i < |keys| ==> keys[i] !in dist
    ensures best.Some? ==> best.value in keys && best.value in dist
    ensures best.Some? ==> forall i :: 0 <= i < |keys| && keys[i] in dist ==> dist[best.value] <= dist[keys[i]]
    ensures best.Some? ==> forall i, j :: 0 <= i < j < |keys| && keys[j] == best.value && keys[i] in dist ==>
      dist[best.value] < dist[keys[i]]
  {
    if keys == [] then None
    else
      var init := keys[..|keys| - 1];
      var k := keys[|keys| - 1];
      assert forall i :: 0 <= i < |init| ==> init[i] == keys[i];
      var prev := ArgMin(init, dist);
      if k !in dist then prev
      else if prev.None? then Some(k)
      else if dist[k] < dist[prev.value] then Some(k)
      else prev
  }

  function Params(p: seq<real>): (r: seq<Param>)
    ensures |r| == |p| && forall i :: 0 <= i < |p| ==> r[i].value == p[i]
  {
    seq(|p|, i requires 0 <= i < |p| => Param(p[i]))
  }

  /**
   * What find_best_fit_distribution promises for the (already trimmed)
   * observations: nothing for an empty sample; `fixed` with the common value
   * when all observations are equal; otherwise a candidate that produced a
   * sample, at least as close as every other such candidate and strictly
   * closer than those tried before it, with its fitted parameters in order.
   */
  ghost predicate IsBestFit(lib: Library, observed: seq<real>, n: Option<nat>, r: Option<Report>)
  {
    if observed == [] then r.None?
    else if forall i :: 0 <= i < |observed| ==> observed[i] == observed[0] then
      r == Some(Report(Fixed, [Param(observed[0])]))
    else
      var count := SampleCount(n, observed);
      && r.Some?
      && var d := r.value.distributionName;
      && Attempt(lib, d, observed, count).Some?
      && r.value.distributionParams == Params(Attempt(lib, d, observed, count).value.params)
      && (forall e :: Attempt(lib, e, observed, count).Some? ==>
            Score(lib, observed, count, d) <= Score(lib, observed, count, e))
      && (forall e :: Attempt(lib, e, observed, count).Some? && Rank(e) < Rank(d) ==>
            Score(lib, observed, count, d) < Score(lib, observed, count, e))
  }

  /** At most one result meets the protocol: the selection is deterministic. */
  lemma BestFitUnique(lib: Library, observed: seq<real>, n: Option<nat>, r1: Option<Report>, r2: Option<Report>)
    requires IsBestFit(lib, observed, n, r1) && IsBestFit(lib, observed, n, r2)
    ensures r1 == r2
  {
  }

  /**
   * find_best_fit_distribution: trims when asked, short-circuits on equal
   * observations, tries every candidate in order, scores those that
   * produced a sample and keeps the first closest one.
   */
  method FindBestFitDistribution(lib: Library, observedValues: seq<real>, n: Option<nat>, removeOutliers: bool)
    returns (r: Option<Report>)
    ensures IsBestFit(lib, Prepared(lib, observedValues, removeOutliers), n, r)
    ensures r.Some? ==> |r.value.distributionParams| == Arity(r.value.distributionName)
  {
    var observed := observedValues;
    if removeOutliers {
      var q1 := lib.percentile(observed, 25);
      var q3 := lib.percentile(observed, 75);
      var iqr := q3 - q1;
      var lowerLimit := q1 - 1.5 * iqr;
      var upperLimit := q3 + 1.5 * iqr;
      observed := Trim(observed, lowerLimit, upperLimit);
    }
    assert observed == Prepared(lib, observedValues, removeOutliers);

    var count := if n.None? || n.value == 0 then |observed| else n.value;

    if observed == [] {
      // np.min raises on an empty array
      return None;
    }
    MinMaxEqualIffConstant(observed);
    if Min(observed) == Max(observed) {
      MeanOfConstant(observed);
      return Some(Report(Fixed, [Param(Mean(observed))]));
    }

    assert count == SampleCount(n, observed);
    var report := SelectBest(lib, observed, n, count);
    r := Some(report);
  }

  /**
   * The candidate loop, the distance dict and the selection of
   * find_best_fit_distribution, on a sample that is not all-equal.
   */
  method SelectBest(lib: Library, observed: seq<real>, n: Option<nat>, count: nat) returns (r: Report)
    requires |observed| > 0
    requires !(forall i :: 0 <= i < |observed| ==> observed[i] == observed[0])
    requires count == SampleCount(n, observed)
    ensures IsBestFit(lib, observed, n, Some(r))
    ensures |r.distributionParams| == Arity(r.distributionName)
  {
    var generated, distrParams := FitCandidates(lib, observed, count);

    var wassDistances := map d | d in generated :: lib.wasserstein(observed, generated[d]);
    assert PossibleDistributions[0] in wassDistances;
    var best := ArgMin(PossibleDistributions, wassDistances);
    var name := best.value;
    r := Report(name, Params(distrParams[name]));
    ArgMinIsBestFit(lib, observed, n, generated, distrParams, wassDistances, name);
  }

  /**
   * The candidate loop of find_best_fit_distribution: fills the
   * `generated_values` and `distr_params` dicts, skipping a candidate whose
   * fit or sampling raises.
   */
  method FitCandidates(lib: Library, observed: seq<real>, count: nat)
    returns (generated: map<Distribution, seq<real>>, distrParams: map<Distribution, seq<real>>)
    requires |observed| > 0
    ensures forall d :: d in generated <==> Attempt(lib, d, observed, count).Some?
    ensures forall d :: d in generated ==> generated[d] == Attempt(lib, d, observed, count).value.generated
    ensures forall d :: d in generated ==>
      (d in distrParams && distrParams[d] == Attempt(lib, d, observed, count).value.params)
  {
    generated := map[];
    distrParams := map d | d in PossibleDistributions :: [];
    for i := 0 to |PossibleDistributions|
      invariant forall k :: 0 <= k < i ==>
        (PossibleDistributions[k] in generated <==> Attempt(lib, PossibleDistributions[k], observed, count).Some?)
      invariant forall d :: d in generated ==> Rank(d) < i && Attempt(lib, d, observed, count).Some?
      invariant forall d :: d in generated ==> generated[d] == Attempt(lib, d, observed, count).value.generated
      invariant forall d :: d in generated ==>
        (d in distrParams && distrParams[d] == Attempt(lib, d, observed, count).value.params)
    {
      var d := PossibleDistributions[i];
      assert Rank(d) == i;
      if d == Fixed {
        var m := Mean(observed);
        distrParams := distrParams[d := [m]];
        generated := generated[d := seq(count, _ => m)];
      } else {
        var fitted := lib.fit(d, observed);
        if fitted.Some? && |fitted.value| == Arity(d) {
          distrParams := distrParams[d := fitted.value];
          var drawn := lib.rvs(d, fitted.value, count);
          if drawn.Some? {
            generated := generated[d := drawn.value];
          }
        }
      }
    }

    forall d ensures d in generated <==> Attempt(lib, d, observed, count).Some? {
      assert PossibleDistributions[Rank(d)] == d;
    }
  }

  /** The first closest key of the distance dict meets the protocol. */
  lemma ArgMinIsBestFit(lib: Library, observed: seq<real>, n: Option<nat>,
                        generated: map<Distribution, seq<real>>, distrParams: map<Distribution, seq<real>>,
                        dist: map<Distribution, real>, name: Distribution)
    requires |observed| > 0
    requires !(forall i :: 0 <= i < |observed| ==> observed[i] == observed[0])
    requires forall d :: d in generated <==> Attempt(lib, d, observed, SampleCount(n, observed)).Some?
    requires forall d :: d in generated ==>
      generated[d] == Attempt(lib, d, observed, SampleCount(n, observed)).value.generated
    requires forall d :: d in generated ==>
      (d in distrParams && distrParams[d] == Attempt(lib, d, observed, SampleCount(n, observed)).value.params)
    requires forall d :: d in dist <==> d in generated
    requires forall d :: d in dist ==> dist[d] == lib.wasserstein(observed, generated[d])
    requires ArgMin(PossibleDistributions, dist) == Some(name)
    ensures name in distrParams
    ensures IsBestFit(lib, observed, n, Some(Report(name, Params(distrParams[name]))))
  {
    ArgMinIsBestScore(lib, observed, SampleCount(n, observed), generated, dist, name);
  }

  /** The first closest key of the distance dict is the first closest candidate. */
  lemma ArgMinIsBestScore(lib: Library, observed: seq<real>, count: nat,
                          generated: map<Distribution, seq<real>>, dist: map<Distribution, real>,
                          name: Distribution)
    requires |observed| > 0
    requires forall d :: d in generated <==> Attempt(lib, d, observed, count).Some?
    requires forall d :: d in generated ==> generated[d] == Attempt(lib, d, observed, count).value.generated
    requires forall d :: d in dist <==> d in generated
    requires forall d :: d in dist ==> dist[d] == lib.wasserstein(observed, generated[d])
    requires ArgMin(PossibleDistributions, dist) == Some(name)
    ensures Attempt(lib, name, observed, count).Some?
    ensures forall e :: Attempt(lib, e, observed, count).Some? ==>
      Score(lib, observed, count, name) <= Score(lib, observed, count, e)
    ensures forall e :: Attempt(lib, e, observed, count).Some? && Rank(e) < Rank(name) ==>
      Score(lib, observed, count, name) < Score(lib, observed, count, e)
  {
    forall e | Attempt(lib, e, observed, count).Some?
      ensures Score(lib, observed, count, name) <= Score(lib, observed, count, e)
      ensures Rank(e) < Rank(name) ==> Score(lib, observed, count, name) < Score(lib, observed, count, e)
    {
      assert PossibleDistributions[Rank(e)] in dist;
      assert PossibleDistributions[Rank(name)] == name;
    }
  }
}
