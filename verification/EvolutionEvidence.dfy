/** Two independent checkers of a two-generation evolution: the auditor that assembles the evidence and the final
    evaluation that accepts it. Rewards are reals; `zscores` is the optimizer's normalization. */
module EvolutionEvidence {
  import opened Wrappers
  import opened EsFold
  import EsStorage

  // ----- The auditor's choice of the best generation -----

  /** Python's `max` under the key (development mean, minus generation): the first record no other one exceeds. */
  method MaxRecord(records: seq<GenerationRecord>) returns (best: GenerationRecord)
    requires records != []
    requires forall i :: 0 <= i < |records| ==> records[i].generation == i + 1 && records[i].dev != []
    ensures EsStorage.CommittedBest(records) == Some(Best(best.generation, best.devMean))
    ensures best in records
  {
    best := records[0];
    OneRecord(records);
    for i := 1 to |records|
      invariant best in records[..i] && EsStorage.CommittedBest(records[..i]) == Some(Best(best.generation, best.devMean))
      invariant 1 <= best.generation <= i
    {
      assert records[..i + 1][..i] == records[..i];
      var row := records[i];
      if row.devMean > best.devMean || (row.devMean == best.devMean && row.generation < best.generation) { best := row; }
    }
    assert records[..|records|] == records;
  }

  lemma OneRecord(records: seq<GenerationRecord>)
    requires records != [] && records[0].dev != []
    ensures EsStorage.CommittedBest(records[..1]) == Some(Best(records[0].generation, records[0].devMean))
  {
    assert records[..1][..0] == [];
  }

  // ----- Assembling the evidence -----

  datatype Record = Record(generation: int, fitness: seq<real>, norms: map<string, real>, before: Weights, after: Weights,
                           devMean: real, devSeeds: seq<int>)
  datatype Step = Step(normalized: seq<real>, epsilon: real)

  datatype Row = Row(generation: int, fitness: seq<real>, normalized: seq<real>, tied: bool, updated: bool, textUpdated: bool,
                     allZero: bool, before: Weights, after: Weights, devMean: real, devSeeds: seq<int>)

  datatype Proof = Proof(schema: string, complete: bool, selected: int, matchesInitial: bool, initial: Weights,
                         generations: seq<Row>, anyUpdated: bool, formulaVerified: bool, initialDev: bool)

  datatype Evidence = Evidence(signal: bool, status: string, textVerified: bool, proof: Option<Proof>, curve: seq<Row>,
                               initialDev: bool)

  datatype EvolutionError =
    | MissingGeneration | BadFitness | ChangedFormula | BadNorms | HashNormMismatch | UnexplainedTie | FabricatedUpdate
    | NoTextUpdate

  const PROOF_SCHEMA := "verified_fast_es_zero_selected_update_v1"

  predicate AllZero(xs: seq<real>) { forall i :: 0 <= i < |xs| ==> xs[i] == 0.0 }

  predicate TextName(name: string) { !Contains(name, ".visual.") && !("visual." <= name) }

  predicate AnyPositive(norms: map<string, real>, textOnly: bool) {
    exists name :: name in norms && norms[name] > 0.0 && (textOnly ==> TextName(name))
  }

  predicate Tied(rewards: seq<real>) {
    forall i :: 0 <= i < |rewards| ==> rewards[i] == rewards[0]
  }

  type Normalizer = (seq<real>, real) -> seq<real>

  /** One generation is consistent with the unchanged optimizer formula. */
  function CheckRecord(r: Record, s: Step, epsilon: real, zscores: Normalizer): Option<EvolutionError> {
    if |r.fitness| != 2 then Some(BadFitness)
    else if s.normalized != zscores(r.fitness, epsilon) || s.epsilon != epsilon then Some(ChangedFormula)
    else if r.norms == map[] || exists name :: name in r.norms && r.norms[name] < 0.0 then Some(BadNorms)
    else
      var changed := r.before != r.after;
      if changed != AnyPositive(r.norms, false) then Some(HashNormMismatch)
      else if !changed && !(Tied(r.fitness) && AllZero(s.normalized)) then Some(UnexplainedTie)
      else if Tied(r.fitness) && !(!changed && AllZero(s.normalized)) then Some(FabricatedUpdate)
      else None
  }

  function RowOf(r: Record, s: Step): Row {
    Row(r.generation, r.fitness, s.normalized, Tied(r.fitness), r.before != r.after, AnyPositive(r.norms, true),
        !AnyPositive(r.norms, false), r.before, r.after, r.devMean, r.devSeeds)
  }

  /** A parameter of the text part: no `.visual.` inside its name, and no `visual.` in front. */
  ghost predicate OfText(name: string) {
    !OccursAt(name, 0, "visual.") && forall i: nat :: !OccursAt(name, i, ".visual.")
  }

  lemma TextNames(name: string)
    ensures TextName(name) <==> OfText(name)
  {
    ContainsIsOccurrence(name, ".visual.");
  }

  /** Some parameter moved, or some parameter of the text part. */
  ghost predicate Moved(norms: map<string, real>) { exists name :: name in norms && norms[name] > 0.0 }
  ghost predicate TextMoved(norms: map<string, real>) { exists name :: name in norms && norms[name] > 0.0 && OfText(name) }

  lemma MovesAre(norms: map<string, real>)
    ensures AnyPositive(norms, false) <==> Moved(norms)
    ensures AnyPositive(norms, true) <==> TextMoved(norms)
  {
    forall name | name in norms ensures TextName(name) <==> OfText(name) { TextNames(name); }
  }

  /** A record passes exactly when its two rewards were normalized by the unchanged formula, its norms are given and not
      negative, its hashes differ exactly when a parameter moved, and they agree exactly when the rewards tie, all
      normalized rewards then being zero. */
  lemma RecordMeans(r: Record, s: Step, epsilon: real, zscores: Normalizer)
    ensures CheckRecord(r, s, epsilon, zscores).None? <==>
      && |r.fitness| == 2 && s.epsilon == epsilon && s.normalized == zscores(r.fitness, epsilon)
      && |r.norms| > 0 && (forall name :: name in r.norms ==> r.norms[name] >= 0.0)
      && (r.before != r.after <==> Moved(r.norms))
      && (r.before == r.after <==> r.fitness[0] == r.fitness[1])
      && (r.before == r.after ==> forall i :: 0 <= i < |s.normalized| ==> s.normalized[i] == 0.0)
  {
    hide AnyPositive, Moved;
    MovesAre(r.norms);
    if |r.fitness| == 2 { TiedPair(r.fitness); }
  }

  lemma TiedPair(rewards: seq<real>)
    requires |rewards| == 2
    ensures Tied(rewards) <==> rewards[0] == rewards[1]
  {
    if Tied(rewards) { assert rewards[1] == rewards[0]; }
  }

  /** What a row of the curve repeats of its record. */
  lemma RowMeans(r: Record, s: Step)
    requires |r.fitness| == 2
    ensures var row := RowOf(r, s);
      && row.generation == r.generation && row.fitness == r.fitness && row.normalized == s.normalized
      && (row.tied <==> r.fitness[0] == r.fitness[1]) && (row.updated <==> r.before != r.after)
      && (row.textUpdated <==> TextMoved(r.norms)) && (row.allZero <==> !Moved(r.norms))
      && row.before == r.before && row.after == r.after && row.devMean == r.devMean && row.devSeeds == r.devSeeds
  {
    hide AnyPositive, Moved, TextMoved;
    MovesAre(r.norms);
    TiedPair(r.fitness);
  }

  /** The auditor of one run, over both generations. `selected` is the best generation it has chosen itself. */
  method FastEvolutionEvidence(records: seq<Record>, history: seq<Step>, initial: Weights, selected: int, epsilon: real,
                               zscores: Normalizer)
    returns (r: Outcome<Evidence, EvolutionError>)
    requires selected == 1 || selected == 2
    ensures r == Raised(MissingGeneration) <==>
      |records| != 2 || records[0].generation != 1 || records[1].generation != 2 || |history| != 2
    ensures r.Returned? ==>
      && |records| == |history| == |r.value.curve| == 2 && records[0].generation == 1 && records[1].generation == 2
      && (forall i :: 0 <= i < 2 ==> CheckRecord(records[i], history[i], epsilon, zscores).None?)
      && (forall i :: 0 <= i < 2 ==> r.value.curve[i] == RowOf(records[i], history[i]))
      && r.value == EvidenceFor(r.value.curve, records[selected - 1].after, initial, selected)
      && (r.value.signal <==> records[selected - 1].after != initial)
    ensures |records| == |history| == 2 && records[0].generation == 1 && records[1].generation == 2 ==>
      (r.Raised? <==>
         || (exists i :: 0 <= i < 2 && CheckRecord(records[i], history[i], epsilon, zscores).Some?)
         || (records[selected - 1].after != initial
             && forall i :: 0 <= i < selected ==> !AnyPositive(records[i].norms, true)))
  {
    if |records| != 2 || records[0].generation != 1 || records[1].generation != 2 || |history| != 2 {
      return Raised(MissingGeneration);
    }
    var curve: seq<Row> := [];
    for i := 0 to 2
      invariant |curve| == i
      invariant forall k :: 0 <= k < i ==>
        CheckRecord(records[k], history[k], epsilon, zscores).None? && curve[k] == RowOf(records[k], history[k])
    {
      var refused := CheckRecord(records[i], history[i], epsilon, zscores);
      if refused.Some? { return Raised(refused.value); }
      curve := curve + [RowOf(records[i], history[i])];
    }
    var signal := SignalIn(curve, records[selected - 1].after, initial, selected);
    if !signal && records[selected - 1].after != initial { return Raised(NoTextUpdate); }
    r := Returned(EvidenceFor(curve, records[selected - 1].after, initial, selected));
  }

  predicate SignalIn(curve: seq<Row>, actual: Weights, initial: Weights, selected: int)
    requires 0 <= selected <= |curve|
  {
    actual != initial && exists i :: 0 <= i < selected && curve[i].textUpdated
  }

  function EvidenceFor(curve: seq<Row>, actual: Weights, initial: Weights, selected: int): Evidence
    requires 0 <= selected <= |curve|
  {
    var signal := SignalIn(curve, actual, initial, selected);
    var proof := Proof(PROOF_SCHEMA, true, selected, actual == initial, initial, curve,
                       exists i :: 0 <= i < |curve| && curve[i].updated, true, false);
    Evidence(signal, if signal then "nonzero_updated_policy" else "no_evolution_signal", signal,
             if signal then None else Some(proof), curve, false)
  }

  /** What the evidence says of two generations: a signal is a changed selection behind an update of the text part, and
      exactly without one the proof is given. */
  lemma EvidenceMeans(curve: seq<Row>, actual: Weights, initial: Weights, selected: int)
    requires |curve| == 2 && (selected == 1 || selected == 2)
    ensures var e := EvidenceFor(curve, actual, initial, selected);
      && (e.signal <==> actual != initial && (curve[0].textUpdated || (selected == 2 && curve[1].textUpdated)))
      && e.textVerified == e.signal && e.curve == curve && !e.initialDev
      && e.status == (if e.signal then "nonzero_updated_policy" else "no_evolution_signal")
      && (e.proof.Some? <==> !e.signal)
      && (e.proof.Some? ==>
            e.proof.value == Proof("verified_fast_es_zero_selected_update_v1", true, selected, actual == initial, initial, curve,
                                   curve[0].updated || curve[1].updated, true, false))
  {
    if SignalIn(curve, actual, initial, selected) {
      var i :| 0 <= i < selected && curve[i].textUpdated;
      assert i == 0 || i == 1;
    }
    assert curve[0].updated || curve[1].updated <==> exists i :: 0 <= i < |curve| && curve[i].updated by {
      if i :| 0 <= i < |curve| && curve[i].updated { assert i == 0 || i == 1; }
    }
  }

  // ----- Accepting it -----

  datatype Selected = Selected(generation: int, actual: Weights, initial: Weights, evidence: Evidence)

  predicate RowAccepted(row: Row, previous: Weights) {
    && |row.fitness| == |row.normalized| == 2
    && row.before == previous
    && var update := row.before != row.after;
    && var tied := row.fitness[0] == row.fitness[1];
    && row.tied == tied && row.updated == update && row.allZero == !update
    && (update || (tied && AllZero(row.normalized) && !row.textUpdated))
    && (!tied || !update)
  }

  /** The final evaluation's check of the selected checkpoint, in its reduced-budget form. */
  predicate VerifySelectedEvolution(s: Selected, initial: Weights, actual: Weights) {
    && (s.generation == 1 || s.generation == 2) && s.actual == actual && s.initial == initial
    && var changed := actual != initial;
    && s.evidence.signal == changed && s.evidence.textVerified == changed
    && s.evidence.status == (if changed then "nonzero_updated_policy" else "no_evolution_signal")
    && !s.evidence.initialDev
    && var curve := s.evidence.curve;
    && |curve| == 2 && curve[0].generation == 1 && curve[1].generation == 2
    && RowAccepted(curve[0], initial) && RowAccepted(curve[1], curve[0].after)
    && curve[s.generation - 1].after == actual
    && |curve[0].devSeeds| == 1 && curve[0].devSeeds == curve[1].devSeeds
    && (if changed then s.evidence.proof.None?
        else
          && s.evidence.proof.Some?
          && var proof := s.evidence.proof.value;
          && proof.schema == PROOF_SCHEMA && proof.complete && proof.matchesInitial
          && proof.selected == s.generation && proof.initial == initial && proof.formulaVerified && !proof.initialDev
          && proof.generations == curve)
  }

  /** Whatever it is given, the final evaluation accepts a selection only if two generations lead from the initial weights
      to the selected ones, each of them changing the weights exactly when its two rewards differ, and if an unchanged
      selection is shown by the proof that no update was claimed. */
  lemma AcceptedMeans(s: Selected, initial: Weights, actual: Weights)
    requires VerifySelectedEvolution(s, initial, actual)
    ensures var curve := s.evidence.curve;
      && |curve| == 2 && curve[0].generation == 1 && curve[1].generation == 2
      && curve[0].before == initial && curve[1].before == curve[0].after
      && ((s.generation == 1 && curve[0].after == actual) || (s.generation == 2 && curve[1].after == actual))
      && s.actual == actual && s.initial == initial
      && |curve[0].devSeeds| == 1 && curve[1].devSeeds == curve[0].devSeeds
      && (forall i :: 0 <= i < 2 ==>
            && |curve[i].fitness| == |curve[i].normalized| == 2
            && (curve[i].before == curve[i].after <==> curve[i].fitness[0] == curve[i].fitness[1])
            && (curve[i].tied <==> curve[i].fitness[0] == curve[i].fitness[1])
            && (curve[i].updated <==> curve[i].before != curve[i].after) && curve[i].allZero == !curve[i].updated
            && (!curve[i].updated ==>
                  curve[i].normalized[0] == 0.0 && curve[i].normalized[1] == 0.0 && !curve[i].textUpdated))
    ensures s.evidence.signal == s.evidence.textVerified == (actual != initial) && !s.evidence.initialDev
    ensures s.evidence.status == (if actual != initial then "nonzero_updated_policy" else "no_evolution_signal")
    ensures actual != initial ==> s.evidence.proof.None?
    ensures actual == initial ==>
      && s.evidence.proof.Some?
      && var proof := s.evidence.proof.value;
      && proof.schema == "verified_fast_es_zero_selected_update_v1" && proof.complete && proof.matchesInitial
      && proof.selected == s.generation && proof.initial == initial && proof.formulaVerified && !proof.initialDev
      && proof.generations == s.evidence.curve
  {
  }

  lemma TextIsPositive(norms: map<string, real>)
    ensures AnyPositive(norms, true) ==> AnyPositive(norms, false)
  {
  }

  lemma RowOfAccepted(r: Record, s: Step, epsilon: real, zscores: Normalizer, previous: Weights)
    requires CheckRecord(r, s, epsilon, zscores).None? && |s.normalized| == 2
    ensures RowAccepted(RowOf(r, s), previous) <==> r.before == previous
  {
    hide AnyPositive;
    TextIsPositive(r.norms);
    assert Tied(r.fitness) <==> r.fitness[0] == r.fitness[1] by {
      if r.fitness[0] == r.fitness[1] {
        forall i | 0 <= i < |r.fitness| ensures r.fitness[i] == r.fitness[0] { assert i == 0 || i == 1; }
      } else {
        assert r.fitness[1] != r.fitness[0];
      }
    }
  }

  /** Evidence the auditor returns is accepted exactly when the records chain from the initial weights and both
      generations used one and the same development seed. */
  lemma EvidenceIsAccepted(records: seq<Record>, history: seq<Step>, initial: Weights, selected: int, epsilon: real,
                           zscores: Normalizer, evidence: Evidence)
    requires selected == 1 || selected == 2
    requires |records| == |history| == |evidence.curve| == 2 && records[0].generation == 1 && records[1].generation == 2
    requires forall i :: 0 <= i < 2 ==> CheckRecord(records[i], history[i], epsilon, zscores).None?
    requires forall i :: 0 <= i < 2 ==> evidence.curve[i] == RowOf(records[i], history[i])
    requires forall i :: 0 <= i < 2 ==> |history[i].normalized| == 2
    requires evidence == EvidenceFor(evidence.curve, records[selected - 1].after, initial, selected)
    requires evidence.signal <==> records[selected - 1].after != initial
    ensures var actual := records[selected - 1].after;
      VerifySelectedEvolution(Selected(selected, actual, initial, evidence), initial, actual) <==>
      && records[0].before == initial && records[1].before == records[0].after
      && |records[0].devSeeds| == 1 && records[0].devSeeds == records[1].devSeeds
  {
    hide CheckRecord, AllZero, AnyPositive, RowAccepted, Tied, SignalIn;
    RowOfAccepted(records[0], history[0], epsilon, zscores, initial);
    RowOfAccepted(records[1], history[1], epsilon, zscores, records[0].after);
  }
}
