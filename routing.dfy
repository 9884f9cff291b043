/**
 * Scenario routing across several mock backends: every backend's scored
 * candidates are pooled in declaration order, the best-scoring one wins with
 * the earliest kept on ties, and only when no backend offers a candidate does
 * the first declared default scenario answer.
 */
module Routing {
  import opened Wrappers
  import opened Scores
  import opened MatchContext

  /** A scenario, opaque to the router beyond its name. */
  datatype Scenario = Scenario(name: string)

  /** A scenario a backend offers for a context, with its score. */
  datatype Offer = Offer(scenario: Scenario, score: ScoreVector)

  /**
   * One mock backend, as the router sees it: the scored scenarios matching a
   * context, its default scenario for a context, and its CORS setting.
   */
  datatype Backend = Backend(
    name: string,
    matchingScenarios: Context -> seq<Offer>,
    defaultScenario: Context -> Option<Scenario>,
    corsEnabled: bool)

  /** A routing candidate: the index of the owning backend, the scenario and its score. */
  datatype ScenarioMatch = ScenarioMatch(backend: nat, scenario: Scenario, score: ScoreVector)

  /** The offers of backend `i`, attributed to it. */
  function Attributed(i: nat, offers: seq<Offer>): seq<ScenarioMatch>
  {
    seq(|offers|, j requires 0 <= j < |offers| => ScenarioMatch(i, offers[j].scenario, offers[j].score))
  }

  /** All real candidates, in backend declaration order, then each backend's own order. */
  function Candidates(backends: seq<Backend>, ctx: Context): (pool: seq<ScenarioMatch>)
    ensures forall j :: 0 <= j < |pool| ==> pool[j].backend < |backends|
    ensures forall j, k :: 0 <= j < k < |pool| ==> pool[j].backend <= pool[k].backend
  {
    if backends == [] then []
    else
      var n := |backends| - 1;
      Candidates(backends[..n], ctx) + Attributed(n, backends[n].matchingScenarios(ctx))
  }

  /** The defaults of all backends that have one, in declaration order, scored zero. */
  function Defaults(backends: seq<Backend>, ctx: Context): (defaults: seq<ScenarioMatch>)
    ensures forall j :: 0 <= j < |defaults| ==>
      && defaults[j].backend < |backends|
      && backends[defaults[j].backend].defaultScenario(ctx) == Some(defaults[j].scenario)
      && defaults[j].score == ZeroScore
    ensures forall j, k :: 0 <= j < k < |defaults| ==> defaults[j].backend < defaults[k].backend
  {
    if backends == [] then []
    else
      var n := |backends| - 1;
      match backends[n].defaultScenario(ctx)
      case Some(s) => Defaults(backends[..n], ctx) + [ScenarioMatch(n, s, ZeroScore)]
      case None => Defaults(backends[..n], ctx)
  }

  /**
   * The position `Stream.max` settles on: a left-to-right reduction that keeps
   * the element held so far unless the next one compares strictly higher.
   */
  function BestIndex(pool: seq<ScenarioMatch>): (k: nat)
    requires pool != []
    ensures k < |pool|
  {
    if |pool| == 1 then 0
    else
      var n := |pool| - 1;
      var k := BestIndex(pool[..n]);
      if CompareScores(pool[k].score, pool[n].score) >= 0 then k else n
  }

  /** The routing decision: best candidate, else first default, else no match. */
  function Route(backends: seq<Backend>, ctx: Context): (r: Option<ScenarioMatch>)
    ensures r.Some? ==> r.value in Candidates(backends, ctx) || r.value in Defaults(backends, ctx)
    ensures r.Some? ==> r.value.backend < |backends|
  {
    var pool := Candidates(backends, ctx);
    var defaults := Defaults(backends, ctx);
    if pool == [] && defaults == [] then None
    else if pool != [] then Some(pool[BestIndex(pool)])
    else Some(defaults[0])
  }

  /**
   * Queries every backend in order, pooling candidates and defaults, then
   * reduces the candidate pool to its maximum or falls back to a default.
   */
  method GetMatchingScenario(backends: seq<Backend>, ctx: Context) returns (matching: Option<ScenarioMatch>)
    ensures matching == Route(backends, ctx)
  {
    var matches: seq<ScenarioMatch> := [];
    var defaults: seq<ScenarioMatch> := [];
    for i := 0 to |backends|
      invariant matches == Candidates(backends[..i], ctx)
      invariant defaults == Defaults(backends[..i], ctx)
    {
      PoolsStep(backends, ctx, i);
      var featureMatches := backends[i].matchingScenarios(ctx);
      var defaultMatch := backends[i].defaultScenario(ctx);
      matches := matches + Attributed(i, featureMatches);
      if defaultMatch.Some? {
        defaults := defaults + [ScenarioMatch(i, defaultMatch.value, ZeroScore)];
      }
    }
    assert backends[..|backends|] == backends;
    if matches == [] && defaults == [] {
      return None;
    }
    if matches == [] {
      return Some(defaults[0]);
    }
    var best := MaxByScore(matches);
    matching := Some(best);
  }

  /** Querying one more backend extends both pools by that backend's contribution. */
  lemma PoolsStep(backends: seq<Backend>, ctx: Context, i: nat)
    requires i < |backends|
    ensures Candidates(backends[..i + 1], ctx) ==
      Candidates(backends[..i], ctx) + Attributed(i, backends[i].matchingScenarios(ctx))
    ensures Defaults(backends[..i + 1], ctx) ==
      match backends[i].defaultScenario(ctx)
      case Some(s) => Defaults(backends[..i], ctx) + [ScenarioMatch(i, s, ZeroScore)]
      case None => Defaults(backends[..i], ctx)
  {
    assert backends[..i + 1][..i] == backends[..i];
  }

  /**
   * `Stream.max` over the pool: a left-to-right reduction that replaces the
   * element held so far only by one that compares strictly higher.
   */
  method MaxByScore(pool: seq<ScenarioMatch>) returns (best: ScenarioMatch)
    requires pool != []
    ensures best == pool[BestIndex(pool)]
  {
    best := pool[0];
    for k := 1 to |pool|
      invariant best == pool[BestIndex(pool[..k])]
    {
      assert pool[..k + 1][..k] == pool[..k];
      if CompareScores(best.score, pool[k].score) < 0 {
        best := pool[k];
      }
    }
    assert pool[..|pool|] == pool;
  }

  /** The candidate pool is empty exactly when no backend offers a scenario. */
  lemma {:induction false} CandidatesEmpty(backends: seq<Backend>, ctx: Context)
    ensures Candidates(backends, ctx) == [] <==>
      forall i :: 0 <= i < |backends| ==> backends[i].matchingScenarios(ctx) == []
  {
    if backends != [] {
      var n := |backends| - 1;
      CandidatesEmpty(backends[..n], ctx);
      assert forall i :: 0 <= i < n ==> backends[..n][i] == backends[i];
    }
  }

  /** The default pool is empty exactly when no backend has a default scenario. */
  lemma {:induction false} DefaultsEmpty(backends: seq<Backend>, ctx: Context)
    ensures Defaults(backends, ctx) == [] <==>
      forall i :: 0 <= i < |backends| ==> backends[i].defaultScenario(ctx).None?
  {
    if backends != [] {
      var n := |backends| - 1;
      DefaultsEmpty(backends[..n], ctx);
      assert forall i :: 0 <= i < n ==> backends[..n][i] == backends[i];
    }
  }

  /** Every pooled candidate is an offer of the backend it is attributed to. */
  lemma {:induction false} CandidateOrigin(backends: seq<Backend>, ctx: Context, j: nat)
    requires j < |Candidates(backends, ctx)|
    ensures var m := Candidates(backends, ctx)[j];
      m.backend < |backends| &&
      Offer(m.scenario, m.score) in backends[m.backend].matchingScenarios(ctx)
  {
    var n := |backends| - 1;
    var front := Candidates(backends[..n], ctx);
    var offers := backends[n].matchingScenarios(ctx);
    if j < |front| {
      CandidateOrigin(backends[..n], ctx, j);
      assert backends[..n][front[j].backend] == backends[front[j].backend];
    } else {
      assert Offer(offers[j - |front|].scenario, offers[j - |front|].score) == offers[j - |front|];
    }
  }

  /**
   * The reduction lands on a maximum of the pool, and every element before it
   * scores strictly lower: the earliest maximum wins.
   */
  lemma {:induction false} BestIndexIsFirstMaximum(pool: seq<ScenarioMatch>)
    requires pool != []
    ensures forall j :: 0 <= j < |pool| ==>
      CompareScores(pool[j].score, pool[BestIndex(pool)].score) <= 0
    ensures forall j :: 0 <= j < BestIndex(pool) ==>
      CompareScores(pool[j].score, pool[BestIndex(pool)].score) < 0
  {
    if |pool| > 1 {
      var n := |pool| - 1;
      var front := pool[..n];
      BestIndexIsFirstMaximum(front);
      var k := BestIndex(front);
      assert front[k] == pool[k];
      CompareAntisymmetric(pool[k].score, pool[n].score);
      if CompareScores(pool[k].score, pool[n].score) < 0 {
        forall j | 0 <= j < n
          ensures CompareScores(pool[j].score, pool[n].score) < 0
        {
          assert front[j] == pool[j];
          CompareTransitive(pool[j].score, pool[k].score, pool[n].score);
        }
      } else {
        forall j | 0 <= j < n
          ensures CompareScores(pool[j].score, pool[k].score) <= 0
        {
          assert front[j] == pool[j];
        }
      }
    }
  }

  /** No candidate and no default anywhere is exactly when routing finds nothing. */
  lemma RouteNoMatch(backends: seq<Backend>, ctx: Context)
    ensures Route(backends, ctx) == None <==>
      forall i :: 0 <= i < |backends| ==>
        backends[i].matchingScenarios(ctx) == [] && backends[i].defaultScenario(ctx).None?
  {
    CandidatesEmpty(backends, ctx);
    DefaultsEmpty(backends, ctx);
  }

  /**
   * With candidates in the pool the winner is one of them (never a default),
   * it is an offer of its own backend, and no candidate scores higher.
   */
  lemma RouteBest(backends: seq<Backend>, ctx: Context)
    requires Candidates(backends, ctx) != []
    ensures var pool := Candidates(backends, ctx);
      && Route(backends, ctx).Some?
      && Route(backends, ctx).value in pool
      && Route(backends, ctx).value.backend < |backends|
      && Offer(Route(backends, ctx).value.scenario, Route(backends, ctx).value.score)
           in backends[Route(backends, ctx).value.backend].matchingScenarios(ctx)
      && forall j :: 0 <= j < |pool| ==> CompareScores(pool[j].score, Route(backends, ctx).value.score) <= 0
  {
    var pool := Candidates(backends, ctx);
    BestIndexIsFirstMaximum(pool);
    CandidateOrigin(backends, ctx, BestIndex(pool));
  }

  /**
   * On equal maximum scores the earliest pooled candidate wins: if `pool[k]`
   * is a maximum and everything before it scores lower, it is the winner.
   */
  lemma RouteFirstMaximum(backends: seq<Backend>, ctx: Context, k: nat)
    requires k < |Candidates(backends, ctx)|
    requires var pool := Candidates(backends, ctx);
      forall j :: 0 <= j < |pool| ==> CompareScores(pool[j].score, pool[k].score) <= 0
    requires var pool := Candidates(backends, ctx);
      forall j :: 0 <= j < k ==> CompareScores(pool[j].score, pool[k].score) < 0
    ensures Route(backends, ctx) == Some(Candidates(backends, ctx)[k])
  {
    var pool := Candidates(backends, ctx);
    var b := BestIndex(pool);
    BestIndexIsFirstMaximum(pool);
    CompareAntisymmetric(pool[b].score, pool[k].score);
  }

  /** The first default in the pool is that of the first backend declaring one. */
  lemma {:induction false} DefaultsFirst(backends: seq<Backend>, ctx: Context, i: nat)
    requires i < |backends| && backends[i].defaultScenario(ctx).Some?
    requires forall j :: 0 <= j < i ==> backends[j].defaultScenario(ctx).None?
    ensures Defaults(backends, ctx) != []
    ensures Defaults(backends, ctx)[0] == ScenarioMatch(i, backends[i].defaultScenario(ctx).value, ZeroScore)
  {
    var n := |backends| - 1;
    var front := backends[..n];
    assert forall j :: 0 <= j < n ==> front[j] == backends[j];
    if i < n {
      DefaultsFirst(front, ctx, i);
    } else {
      DefaultsEmpty(front, ctx);
    }
  }

  /**
   * With no candidate anywhere, the default of the first backend that has one
   * wins, attributed to that backend and scored all zero.
   */
  lemma RouteDefault(backends: seq<Backend>, ctx: Context, i: nat)
    requires forall j :: 0 <= j < |backends| ==> backends[j].matchingScenarios(ctx) == []
    requires i < |backends| && backends[i].defaultScenario(ctx).Some?
    requires forall j :: 0 <= j < i ==> backends[j].defaultScenario(ctx).None?
    ensures Route(backends, ctx) == Some(ScenarioMatch(i, backends[i].defaultScenario(ctx).value, ZeroScore))
  {
    CandidatesEmpty(backends, ctx);
    DefaultsFirst(backends, ctx, i);
  }

  /**
   * Two backends: the first offers S1 at [1,0,0,0,0] and has a default, the
   * second offers S2 at [1,1,0,0,0]. The second backend's S2 wins.
   */
  lemma TwoBackendExample(ctx: Context)
    ensures var b1 := Backend("one", _ => [Offer(Scenario("S1"), [1, 0, 0, 0, 0])],
                              _ => Some(Scenario("S1d")), false);
            var b2 := Backend("two", _ => [Offer(Scenario("S2"), [1, 1, 0, 0, 0])],
                              _ => None, false);
            Route([b1, b2], ctx) == Some(ScenarioMatch(1, Scenario("S2"), [1, 1, 0, 0, 0]))
  {
    var b1 := Backend("one", _ => [Offer(Scenario("S1"), [1, 0, 0, 0, 0])],
                      _ => Some(Scenario("S1d")), false);
    var b2 := Backend("two", _ => [Offer(Scenario("S2"), [1, 1, 0, 0, 0])],
                      _ => None, false);
    var bs := [b1, b2];
    assert bs[..1] == [b1];
    assert [b1][..0] == [];
    var m1 := ScenarioMatch(0, Scenario("S1"), [1, 0, 0, 0, 0]);
    var m2 := ScenarioMatch(1, Scenario("S2"), [1, 1, 0, 0, 0]);
    assert Attributed(0, b1.matchingScenarios(ctx)) == [m1];
    assert Attributed(1, b2.matchingScenarios(ctx)) == [m2];
    assert Candidates([b1], ctx) == [m1];
    var pool := Candidates(bs, ctx);
    assert pool == [ScenarioMatch(0, Scenario("S1"), [1, 0, 0, 0, 0]), ScenarioMatch(1, Scenario("S2"), [1, 1, 0, 0, 0])];
    assert pool[..1] == [pool[0]];
    assert CompareScores([1, 0, 0, 0, 0], [1, 1, 0, 0, 0]) < 0;
  }

  /** Every offer of every backend enters the candidate pool, attributed to its backend. */
  lemma {:induction false} CandidatesComplete(backends: seq<Backend>, ctx: Context, i: nat, o: Offer)
    requires i < |backends| && o in backends[i].matchingScenarios(ctx)
    ensures ScenarioMatch(i, o.scenario, o.score) in Candidates(backends, ctx)
  {
    var n := |backends| - 1;
    var front := backends[..n];
    if i < n {
      assert front[i] == backends[i];
      CandidatesComplete(front, ctx, i, o);
    } else {
      var offers := backends[n].matchingScenarios(ctx);
      var t :| 0 <= t < |offers| && offers[t] == o;
      var tail := Attributed(n, offers);
      assert tail[t] == ScenarioMatch(i, o.scenario, o.score);
      assert Candidates(backends, ctx) == Candidates(front, ctx) + tail;
    }
  }

  /** No offer of any backend scores higher than the routed winner. */
  lemma WinnerBeatsEveryOffer(backends: seq<Backend>, ctx: Context, i: nat, o: Offer)
    requires i < |backends| && o in backends[i].matchingScenarios(ctx)
    ensures Route(backends, ctx).Some?
    ensures CompareScores(o.score, Route(backends, ctx).value.score) <= 0
  {
    CandidatesComplete(backends, ctx, i, o);
    var pool := Candidates(backends, ctx);
    RouteBest(backends, ctx);
    var j :| 0 <= j < |pool| && pool[j] == ScenarioMatch(i, o.scenario, o.score);
  }
}
