/** Verifying one job's result file: every registered episode exactly once, under its frozen seed, with its exact budget. */
module ResultVerification {
  import opened Wrappers

  datatype Benchmark = Made | CrystalGym

  /** Benchmark, model, method, task and policy seed; the environment seed is separate. */
  datatype Identity = Identity(benchmark: Benchmark, model: string, method_: string, task: string, seed: int)
  datatype Key = Key(identity: Identity, episode: string)

  datatype Job = Job(id: string, revision: string, identity: Identity, episodeIds: seq<string>, environmentSeeds: seq<int>,
                     budget: nat, expectedEpisodes: nat, expectedOracle: nat)

  datatype Expected = Expected(environmentSeed: int, oracle: nat, dft: nat)

  /** A cost keeps its Python type: only whole numbers can match a budget. */
  datatype Cost = Whole(n: int) | Fraction(x: real)

  datatype Row = Row(key: Key, environmentSeed: int, complete: bool, status: string, hasMetrics: bool, costs: map<string, Cost>)

  datatype Artifact = Artifact(path: string, digest: string)
  /** The envelope of a result file. `manifest` is the fingerprint of the manifest it was produced under. */
  datatype Result = Result(job: string, manifest: string, revision: string, complete: bool, rows: seq<Row>, artifacts: seq<Artifact>)

  datatype Totals = Totals(episodes: nat, failed: nat, oracle: nat, dft: nat)

  datatype VerifyError =
    | BudgetMismatch | SeedMismatch | WrongIdentity | WrongRevision | MissingEpisodes | InvalidEpisode | DuplicateEpisode | WrongSeed
    | WrongBudget | NoEvidence | BadEvidence | Changed

  const ORACLE := "candidate_oracle_attempts"
  const DFT := "dft_episode_attempts"

  // ----- What a job registers -----

  function ExpectedOf(job: Job, seed: int): Expected {
    Expected(seed, if job.identity.benchmark == Made then job.budget else 0, if job.identity.benchmark == CrystalGym then 1 else 0)
  }

  function ExpectedEpisodes(job: Job, n: nat): map<Key, Expected>
    requires n <= |job.episodeIds| == |job.environmentSeeds|
  {
    if n == 0 then map[]
    else ExpectedEpisodes(job, n - 1)[Key(job.identity, job.episodeIds[n - 1]) := ExpectedOf(job, job.environmentSeeds[n - 1])]
  }

  predicate BudgetDeclared(job: Job, registered: nat) {
    job.identity.benchmark == Made ==> job.budget == registered && job.expectedOracle == registered * |job.episodeIds|
  }

  lemma {:induction false} ExpectedKeys(job: Job, n: nat)
    requires n <= |job.episodeIds| == |job.environmentSeeds|
    ensures forall key :: key in ExpectedEpisodes(job, n) <==> key.identity == job.identity && key.episode in job.episodeIds[..n]
    ensures forall key :: key in ExpectedEpisodes(job, n) ==>
      exists i :: 0 <= i < n && job.episodeIds[i] == key.episode
                  && ExpectedEpisodes(job, n)[key] == ExpectedOf(job, job.environmentSeeds[i])
  {
    hide ExpectedOf;
    if n > 0 {
      ExpectedKeys(job, n - 1);
      assert job.episodeIds[..n] == job.episodeIds[..n - 1] + [job.episodeIds[n - 1]];
    }
  }

  // ----- One episode row -----

  predicate Nonnegative(c: Cost) { if c.Whole? then c.n >= 0 else c.x >= 0.0 }

  predicate EpisodeValid(r: Row) {
    r.complete && (r.status == "succeeded" || r.status == "failed") && r.hasMetrics
    && forall name :: name in r.costs ==> Nonnegative(r.costs[name])
  }

  function Actual(r: Row, name: string): Cost { if name in r.costs then r.costs[name] else Whole(0) }

  /** A row counts as its registered episode: complete, ended, measured, under the frozen seed, no cost negative, and the
      two budgeted costs exactly as registered, where a cost that is not recorded is none. */
  predicate CountsAs(r: Row, seed: int, oracle: int, dft: int) {
    && r.complete && r.status in {"succeeded", "failed"} && r.hasMetrics && r.environmentSeed == seed
    && (forall name :: name in r.costs ==> r.costs[name] == Whole(0) || Positive(r.costs[name]) || r.costs[name] == Fraction(0.0))
    && (if "candidate_oracle_attempts" in r.costs then r.costs["candidate_oracle_attempts"] == Whole(oracle) else oracle == 0)
    && (if "dft_episode_attempts" in r.costs then r.costs["dft_episode_attempts"] == Whole(dft) else dft == 0)
  }

  predicate Positive(c: Cost) { (c.Whole? && c.n > 0) || (c.Fraction? && c.x > 0.0) }

  /** Every accepted row counts as an episode that the job registers, and under its seed and budget. */
  lemma RowMeans(job: Job, r: Row)
    requires |job.episodeIds| == |job.environmentSeeds| && Distinct(job.episodeIds)
    ensures RowOk(r, ExpectedEpisodes(job, |job.episodeIds|)) <==>
      && r.key.identity == job.identity
      && exists i :: 0 <= i < |job.episodeIds| && r.key.episode == job.episodeIds[i]
           && CountsAs(r, job.environmentSeeds[i], if job.identity.benchmark == Made then job.budget else 0,
                       if job.identity.benchmark == CrystalGym then 1 else 0)
  {
    hide ExpectedEpisodes;
    var n := |job.episodeIds|;
    ExpectedKeys(job, n);
    assert job.episodeIds[..n] == job.episodeIds;
    var expected := ExpectedEpisodes(job, n);
    if r.key in expected {
      var i :| 0 <= i < n && job.episodeIds[i] == r.key.episode && expected[r.key] == ExpectedOf(job, job.environmentSeeds[i]);
      EpisodeMeans(r);
      assert forall j :: 0 <= j < n && job.episodeIds[j] == r.key.episode ==> j == i;
      CostMeans(r, expected[r.key].oracle, expected[r.key].dft);
    }
  }

  lemma EpisodeMeans(r: Row)
    ensures EpisodeValid(r) <==>
      && r.complete && r.status in {"succeeded", "failed"} && r.hasMetrics
      && forall name :: name in r.costs ==> r.costs[name] == Whole(0) || Positive(r.costs[name]) || r.costs[name] == Fraction(0.0)
  {
    forall name | name in r.costs
      ensures Nonnegative(r.costs[name]) <==>
        r.costs[name] == Whole(0) || Positive(r.costs[name]) || r.costs[name] == Fraction(0.0)
    {
    }
  }

  lemma CostMeans(r: Row, oracle: nat, dft: nat)
    ensures Actual(r, ORACLE) == Whole(oracle) <==>
      if "candidate_oracle_attempts" in r.costs then r.costs["candidate_oracle_attempts"] == Whole(oracle) else oracle == 0
    ensures Actual(r, DFT) == Whole(dft) <==>
      if "dft_episode_attempts" in r.costs then r.costs["dft_episode_attempts"] == Whole(dft) else dft == 0
  {
  }

  predicate RowOk(r: Row, expected: map<Key, Expected>) {
    && EpisodeValid(r) && r.key in expected
    && r.environmentSeed == expected[r.key].environmentSeed
    && Actual(r, ORACLE) == Whole(expected[r.key].oracle) && Actual(r, DFT) == Whole(expected[r.key].dft)
  }

  function Keys(rows: seq<Row>): seq<Key> { seq(|rows|, i requires 0 <= i < |rows| => rows[i].key) }

  predicate AllOk(rows: seq<Row>, expected: map<Key, Expected>) { forall i :: 0 <= i < |rows| ==> RowOk(rows[i], expected) }

  function Failed(rows: seq<Row>): nat {
    if rows == [] then 0 else Failed(rows[..|rows| - 1]) + if rows[|rows| - 1].status == "failed" then 1 else 0
  }

  ghost function SumOf(rows: seq<Row>, expected: map<Key, Expected>, dft: bool): nat
    requires AllOk(rows, expected)
  {
    if rows == [] then 0
    else
      var e := expected[rows[|rows| - 1].key];
      SumOf(rows[..|rows| - 1], expected, dft) + if dft then e.dft else e.oracle
  }

  /** The pass over the episode rows. */
  method CheckRows(rows: seq<Row>, expected: map<Key, Expected>) returns (r: Outcome<Totals, VerifyError>)
    ensures r.Returned? <==> AllOk(rows, expected) && Distinct(Keys(rows))
    ensures r.Returned? ==>
      r.value == Totals(|rows|, Failed(rows), SumOf(rows, expected, false), SumOf(rows, expected, true))
    ensures r.Raised? ==>
      r.error.InvalidEpisode? || r.error.DuplicateEpisode? || r.error.WrongSeed? || r.error.WrongBudget?
  {
    hide EpisodeValid, Actual;
    var seen: set<Key>, oracle: nat, dft: nat, failed: nat := {}, 0, 0, 0;
    for i := 0 to |rows|
      invariant AllOk(rows[..i], expected) && Distinct(Keys(rows)[..i]) && seen == Elements(Keys(rows)[..i])
      invariant oracle == SumOf(rows[..i], expected, false) && dft == SumOf(rows[..i], expected, true)
      invariant failed == Failed(rows[..i])
    {
      var row := rows[i];
      assert rows[..i + 1][..i] == rows[..i] && Keys(rows)[..i + 1] == Keys(rows)[..i] + [row.key];
      if !EpisodeValid(row) { return Raised(InvalidEpisode); }
      if row.key !in expected || row.key in seen {
        assert row.key in seen ==> !Distinct(Keys(rows)) by { Repeated(Keys(rows), i); }
        return Raised(DuplicateEpisode);
      }
      if row.environmentSeed != expected[row.key].environmentSeed { return Raised(WrongSeed); }
      if Actual(row, ORACLE) != Whole(expected[row.key].oracle) || Actual(row, DFT) != Whole(expected[row.key].dft) {
        return Raised(WrongBudget);
      }
      DistinctAppend(Keys(rows)[..i], [row.key]);
      ElementsAppend(Keys(rows)[..i], row.key);
      seen := seen + {row.key};
      oracle, dft := oracle + expected[row.key].oracle, dft + expected[row.key].dft;
      if row.status == "failed" { failed := failed + 1; }
    }
    assert rows[..|rows|] == rows && Keys(rows)[..|rows|] == Keys(rows);
    r := Returned(Totals(|rows|, failed, oracle, dft));
  }

  lemma Repeated<T>(s: seq<T>, i: nat)
    requires i < |s|
    ensures s[i] in Elements(s[..i]) ==> !Distinct(s)
  {
    if s[i] in Elements(s[..i]) {
      var j :| 0 <= j < |s[..i]| && s[..i][j] == s[i];
      assert s[j] == s[i];
    }
  }

  /** Evidence files are distinct, are not the result itself, and still have their recorded contents. */
  ghost predicate EvidenceSound(path: string, artifacts: seq<Artifact>, intact: Artifact -> bool) {
    && artifacts != []
    && (forall i :: 0 <= i < |artifacts| ==> intact(artifacts[i]) && artifacts[i].path != path)
    && (forall i, j :: 0 <= i < j < |artifacts| ==> artifacts[i].path != artifacts[j].path)
  }

  /** `intact` re-reads an evidence file; `stable` is the result file's own digest taken again at the end. */
  method VerifyResult(path: string, result: Result, job: Job, fingerprint: string, registered: nat, intact: Artifact -> bool,
                      stable: bool)
    returns (r: Outcome<Totals, VerifyError>)
    ensures r.Returned? <==>
      && result.job == job.id && result.manifest == fingerprint && result.revision == job.revision && result.complete && stable
      && |job.episodeIds| == |job.environmentSeeds|
      && (job.identity.benchmark == Made ==>
            job.budget == registered && job.expectedOracle == registered * |job.episodeIds|)
      && |result.rows| == job.expectedEpisodes
      && AllOk(result.rows, ExpectedEpisodes(job, |job.episodeIds|)) && Distinct(Keys(result.rows))
      && EvidenceSound(path, result.artifacts, intact)
    ensures r == Raised(WrongIdentity) <==> result.job != job.id || result.manifest != fingerprint
    ensures r.Returned? ==>
      && r.value.episodes == |result.rows| && r.value.failed == Failed(result.rows)
      && r.value.oracle == SumOf(result.rows, ExpectedEpisodes(job, |job.episodeIds|), false)
      && r.value.dft == SumOf(result.rows, ExpectedEpisodes(job, |job.episodeIds|), true)
  {
    hide AllOk, Keys, ExpectedEpisodes;
    if result.job != job.id || result.manifest != fingerprint { return Raised(WrongIdentity); }
    if result.revision != job.revision || !result.complete { return Raised(WrongRevision); }
    if |result.rows| != job.expectedEpisodes { return Raised(MissingEpisodes); }
    if !BudgetDeclared(job, registered) { return Raised(BudgetMismatch); }
    if |job.episodeIds| != |job.environmentSeeds| { return Raised(SeedMismatch); }
    var totals :- CheckRows(result.rows, ExpectedEpisodes(job, |job.episodeIds|));
    if result.artifacts == [] { return Raised(NoEvidence); }
    var paths: set<string> := {};
    for i := 0 to |result.artifacts|
      invariant forall p :: p in paths <==> exists j :: 0 <= j < i && result.artifacts[j].path == p
      invariant forall j :: 0 <= j < i ==> intact(result.artifacts[j]) && result.artifacts[j].path != path
      invariant forall j, k :: 0 <= j < k < i ==> result.artifacts[j].path != result.artifacts[k].path
    {
      var artifact := result.artifacts[i];
      if artifact.path in paths {
        var k :| 0 <= k < i && result.artifacts[k].path == artifact.path;
        assert !EvidenceSound(path, result.artifacts, intact) by { assert result.artifacts[k].path == result.artifacts[i].path; }
      }
      if artifact.path == path || artifact.path in paths { return Raised(BadEvidence); }
      paths := paths + {artifact.path};
      if !intact(artifact) { return Raised(BadEvidence); }
    }
    if !stable { return Raised(Changed); }
    r := Returned(totals);
  }

  // ----- What acceptance means -----

  /** An accepted result holds each registered episode exactly once. */
  lemma EveryEpisodeOnce(job: Job, rows: seq<Row>, key: Key)
    requires |job.episodeIds| == |job.environmentSeeds| == job.expectedEpisodes == |rows| && Distinct(job.episodeIds)
    requires AllOk(rows, ExpectedEpisodes(job, |job.episodeIds|)) && Distinct(Keys(rows))
    ensures key in Keys(rows) <==> key.identity == job.identity && key.episode in job.episodeIds
  {
    hide AllOk, ExpectedEpisodes, Distinct;
    var n := |job.episodeIds|;
    ExpectedKeys(job, n);
    assert job.episodeIds[..n] == job.episodeIds;
    var registered := JobKeys(job);
    JobKeysDistinct(job);
    DistinctCardinality(Keys(rows));
    DistinctCardinality(registered);
    forall k | k in Elements(Keys(rows)) ensures k in Elements(registered) { RowRegistered(job, rows, k); }
    SubsetOfSameSize(Elements(Keys(rows)), Elements(registered));
    assert key in Elements(Keys(rows)) <==> key in Elements(registered);
    InJobKeys(job, key);
  }

  function JobKeys(job: Job): seq<Key> {
    seq(|job.episodeIds|, i requires 0 <= i < |job.episodeIds| => Key(job.identity, job.episodeIds[i]))
  }

  lemma InJobKeys(job: Job, key: Key)
    ensures key in JobKeys(job) <==> key.identity == job.identity && key.episode in job.episodeIds
  {
    if key.identity == job.identity && key.episode in job.episodeIds {
      var i :| 0 <= i < |job.episodeIds| && job.episodeIds[i] == key.episode;
      assert JobKeys(job)[i] == key;
    }
  }

  lemma JobKeysDistinct(job: Job)
    requires Distinct(job.episodeIds)
    ensures Distinct(JobKeys(job))
  {
  }

  lemma RowRegistered(job: Job, rows: seq<Row>, k: Key)
    requires |job.episodeIds| == |job.environmentSeeds| && AllOk(rows, ExpectedEpisodes(job, |job.episodeIds|)) && k in Keys(rows)
    ensures k in JobKeys(job)
  {
    hide ExpectedEpisodes;
    var i :| 0 <= i < |Keys(rows)| && Keys(rows)[i] == k;
    assert RowOk(rows[i], ExpectedEpisodes(job, |job.episodeIds|));
    ExpectedKeys(job, |job.episodeIds|);
    assert job.episodeIds[..|job.episodeIds|] == job.episodeIds;
    InJobKeys(job, k);
  }

  lemma RegisteredBudget(job: Job, key: Key)
    requires |job.episodeIds| == |job.environmentSeeds| && key in ExpectedEpisodes(job, |job.episodeIds|)
    ensures var e := ExpectedEpisodes(job, |job.episodeIds|)[key];
      && e.oracle == (if job.identity.benchmark == Made then job.budget else 0)
      && e.dft == (if job.identity.benchmark == CrystalGym then 1 else 0)
  {
    hide ExpectedEpisodes;
    ExpectedKeys(job, |job.episodeIds|);
  }

  /** The verified totals are the whole registered budget: nothing is missing and nothing is counted twice. */
  lemma {:induction false} TotalsAreTheBudget(job: Job, rows: seq<Row>)
    requires |job.episodeIds| == |job.environmentSeeds| && AllOk(rows, ExpectedEpisodes(job, |job.episodeIds|))
    ensures var expected := ExpectedEpisodes(job, |job.episodeIds|);
      && SumOf(rows, expected, false) == (if job.identity.benchmark == Made then job.budget * |rows| else 0)
      && SumOf(rows, expected, true) == (if job.identity.benchmark == CrystalGym then |rows| else 0)
    decreases |rows|
  {
    hide ExpectedEpisodes, EpisodeValid, Actual;
    if rows != [] {
      var front, last := rows[..|rows| - 1], rows[|rows| - 1];
      TotalsAreTheBudget(job, front);
      assert RowOk(last, ExpectedEpisodes(job, |job.episodeIds|));
      RegisteredBudget(job, last.key);
      Distribute(job.budget, |front|);
    }
  }

  lemma Distribute(budget: nat, n: nat)
    ensures budget * (n + 1) == budget * n + budget
  {
  }
}
