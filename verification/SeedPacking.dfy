/** Environment seeds as five bit fields, the adapter's reset schedule, and the collection's rollout ranges. */
module SeedPacking {
  import opened Wrappers

  // ----- Shifts and bitwise or on natural numbers -----

  function Pow2(k: nat): nat { if k == 0 then 1 else 2 * Pow2(k - 1) }

  function Shift(x: nat, k: nat): nat { x * Pow2(k) }

  function BitOr(a: nat, b: nat): nat {
    if a == 0 then b
    else if b == 0 then a
    else 2 * BitOr(a / 2, b / 2) + if a % 2 == 1 || b % 2 == 1 then 1 else 0
  }

  lemma DoubleHalf(x: nat, k: nat)
    requires k > 0
    ensures Shift(x, k) % 2 == 0 && Shift(x, k) / 2 == Shift(x, k - 1)
  {
    assert Shift(x, k) == 2 * Shift(x, k - 1) by { Regroup(x, Pow2(k - 1)); }
  }

  lemma Regroup(x: nat, y: nat)
    ensures x * (2 * y) == 2 * (x * y)
  {
  }

  /** A field shifted above another one does not mix with it. */
  lemma {:induction false} OrIsSum(x: nat, k: nat, b: nat)
    requires b < Pow2(k)
    ensures BitOr(Shift(x, k), b) == Shift(x, k) + b
    decreases k
  {
    hide Shift;
    if k == 0 {
    } else if Shift(x, k) > 0 && b > 0 {
      DoubleHalf(x, k);
      OrIsSum(x, k - 1, b / 2);
    }
  }

  // ----- The packed seed -----

  datatype SeedError = UnknownTrainingSeed | RolloutTooLarge | UnknownName | HeldOutMismatch

  function PartitionCode(name: string): Option<nat> {
    if name == "uncertainty_fit_and_es_train" then Some(0)
    else if name == "uncertainty_calibration_dev" then Some(1)
    else if name == "final_test" then Some(2)
    else None
  }

  function PropertyCode(name: string): Option<nat> {
    if name == "bm" then Some(0) else if name == "density" then Some(1) else if name == "band_gap" then Some(2) else None
  }

  function PrototypeCode(name: string): Option<nat> {
    if name == "C1" then Some(0) else if name == "C7" then Some(6) else if name == "training_mixture" then Some(7) else None
  }

  const ROLLOUT_LIMIT: nat := 4194304
  const SEED_LIMIT: nat := 4294967296

  datatype Fields = Fields(seed: int, property: string, prototype: string, rollout: int, partition: string)

  function Check(f: Fields): Option<SeedError> {
    if !(1 <= f.seed <= 5) then Some(UnknownTrainingSeed)
    else if !(0 <= f.rollout < ROLLOUT_LIMIT) then Some(RolloutTooLarge)
    else if PartitionCode(f.partition).None? || PropertyCode(f.property).None? || PrototypeCode(f.prototype).None? then
      Some(UnknownName)
    else if (f.partition == "final_test") != (f.prototype == "C1" || f.prototype == "C7") then Some(HeldOutMismatch)
    else None
  }

  function PackEnvironmentSeed(f: Fields): Outcome<nat, SeedError> {
    if Check(f).Some? then Raised(Check(f).value)
    else
      Returned(BitOr(BitOr(BitOr(BitOr(Shift(PartitionCode(f.partition).value, 30), Shift(f.seed - 1, 27)),
                                 Shift(PropertyCode(f.property).value, 25)),
                           Shift(PrototypeCode(f.prototype).value, 22)),
                     f.rollout))
  }

  /** The fields side by side: 2, 3, 2, 3 and 22 bits. */
  function Packed(partition: nat, seed: nat, property: nat, prototype: nat, rollout: nat): nat {
    (((partition * 8 + seed) * 4 + property) * 8 + prototype) * ROLLOUT_LIMIT + rollout
  }

  lemma Powers()
    ensures Pow2(3) == 8 && Pow2(2) == 4 && Pow2(22) == ROLLOUT_LIMIT
    ensures Pow2(25) == 8 * ROLLOUT_LIMIT && Pow2(27) == 32 * ROLLOUT_LIMIT && Pow2(30) == 256 * ROLLOUT_LIMIT
  {
    assert Pow2(5) == 32 && Pow2(10) == 1024 && Pow2(15) == 32768 && Pow2(20) == 1048576;
  }

  /** Adding a field below: `high` shifted past it, and the field in the low bits. */
  lemma AddField(high: nat, width: nat, low: nat, k: nat, size: nat, unit: nat)
    requires Pow2(k) == unit && Pow2(k + width) == size * unit && low < size && unit > 0
    ensures BitOr(Shift(high, k + width), Shift(low, k)) == Shift(high * size + low, k)
  {
    hide BitOr, Pow2;
    assert low * unit < size * unit;
    OrIsSum(high, k + width, Shift(low, k));
    assert high * (size * unit) + low * unit == (high * size + low) * unit by { Spread(high, size, low, unit); }
  }

  lemma Spread(high: nat, size: nat, low: nat, unit: nat)
    ensures high * (size * unit) + low * unit == (high * size + low) * unit
  {
    assert high * (size * unit) == high * size * unit;
  }

  /** Or-ing the shifted fields writes them side by side. */
  lemma PackIsConcatenation(f: Fields)
    requires Check(f).None?
    ensures PackEnvironmentSeed(f)
      == Returned(Packed(PartitionCode(f.partition).value, f.seed - 1, PropertyCode(f.property).value,
                         PrototypeCode(f.prototype).value, f.rollout))
  {
    hide BitOr, Pow2, Shift;
    Powers();
    var a, b, c, d := PartitionCode(f.partition).value, f.seed - 1, PropertyCode(f.property).value, PrototypeCode(f.prototype).value;
    var two, three := a * 8 + b, (a * 8 + b) * 4 + c;
    AddField(a, 3, b, 27, 8, 32 * ROLLOUT_LIMIT);
    AddField(two, 2, c, 25, 4, 8 * ROLLOUT_LIMIT);
    AddField(three, 3, d, 22, 8, ROLLOUT_LIMIT);
    LowestField(three * 8 + d, f.rollout);
  }

  lemma LowestField(high: nat, rollout: nat)
    requires rollout < ROLLOUT_LIMIT
    ensures BitOr(Shift(high, 22), rollout) == high * ROLLOUT_LIMIT + rollout
  {
    hide BitOr, Pow2;
    Powers();
    OrIsSum(high, 22, rollout);
  }

  lemma {:induction false} Gap(a: nat, b: nat, size: nat)
    ensures a < b ==> a * size + size <= b * size
    decreases b
  {
    if a < b {
      Gap(a, b - 1, size);
      assert b * size == (b - 1) * size + size;
    }
  }

  lemma SplitField(high: nat, low: nat, high2: nat, low2: nat, size: nat)
    requires low < size && low2 < size && high * size + low == high2 * size + low2
    ensures high == high2 && low == low2
  {
    Gap(high, high2, size);
    Gap(high2, high, size);
  }

  /** Different fields give different seeds, and every seed fits 32 bits. */
  lemma PackingIsInjective(f: Fields, g: Fields)
    requires Check(f).None? && Check(g).None?
    ensures PackEnvironmentSeed(f).value < SEED_LIMIT
    ensures PackEnvironmentSeed(f) == PackEnvironmentSeed(g) ==> f == g
  {
    hide PackEnvironmentSeed;
    PackIsConcatenation(f);
    PackIsConcatenation(g);
    var a, b, c, d := PartitionCode(f.partition).value, f.seed - 1, PropertyCode(f.property).value, PrototypeCode(f.prototype).value;
    var a2, b2, c2, d2 := PartitionCode(g.partition).value, g.seed - 1, PropertyCode(g.property).value, PrototypeCode(g.prototype).value;
    if PackEnvironmentSeed(f) == PackEnvironmentSeed(g) {
      SplitField(((a * 8 + b) * 4 + c) * 8 + d, f.rollout, ((a2 * 8 + b2) * 4 + c2) * 8 + d2, g.rollout, ROLLOUT_LIMIT);
      SplitField((a * 8 + b) * 4 + c, d, (a2 * 8 + b2) * 4 + c2, d2, 8);
      SplitField(a * 8 + b, c, a2 * 8 + b2, c2, 4);
      SplitField(a, b, a2, b2, 8);
    }
  }

  // ----- The seed in plain numbers -----

  const PARTITION_CODES: map<string, nat> :=
    map["uncertainty_fit_and_es_train" := 0, "uncertainty_calibration_dev" := 1, "final_test" := 2]
  const PROPERTY_CODES: map<string, nat> := map["bm" := 0, "density" := 1, "band_gap" := 2]
  const PROTOTYPE_CODES: map<string, nat> := map["C1" := 0, "C7" := 6, "training_mixture" := 7]

  /** The combinations that have a seed: the two held-out prototypes belong to the final test, and nothing else does. */
  predicate HasSeed(f: Fields) {
    && 1 <= f.seed <= 5 && 0 <= f.rollout < 4194304
    && f.partition in PARTITION_CODES && f.property in PROPERTY_CODES && f.prototype in PROTOTYPE_CODES
    && (f.partition == "final_test" <==> f.prototype in {"C1", "C7"})
  }

  /** Which combinations have a seed, and which one: 2^30, 2^27, 2^25 and 2^22 written out. */
  lemma SeedOf(f: Fields)
    ensures PackEnvironmentSeed(f).Returned? <==> HasSeed(f)
    ensures HasSeed(f) ==> PackEnvironmentSeed(f) == Returned(
      PARTITION_CODES[f.partition] * 1073741824 + (f.seed - 1) * 134217728 + PROPERTY_CODES[f.property] * 33554432
      + PROTOTYPE_CODES[f.prototype] * 4194304 + f.rollout)
    ensures PackEnvironmentSeed(f) == Raised(UnknownTrainingSeed) <==> !(1 <= f.seed <= 5)
    ensures PackEnvironmentSeed(f) == Raised(RolloutTooLarge) <==> 1 <= f.seed <= 5 && !(0 <= f.rollout < 4194304)
    ensures PackEnvironmentSeed(f) == Raised(UnknownName) <==>
      && 1 <= f.seed <= 5 && 0 <= f.rollout < 4194304
      && !(f.partition in PARTITION_CODES && f.property in PROPERTY_CODES && f.prototype in PROTOTYPE_CODES)
  {
    hide BitOr, Shift;
    if HasSeed(f) { PackIsConcatenation(f); }
  }

  /** The adapter resets to `(seed + episode) mod 2^32`. */
  function ResetSeed(seed: nat, episode: nat): nat { (seed + episode) % SEED_LIMIT }

  /** The adapter's schedule reproduces the manifest's seeds: episode `i` of a job runs under the packed seed of rollout
      `rollout + i`. */
  lemma ResetScheduleIsTheManifest(f: Fields, i: nat)
    requires Check(f).None? && f.rollout + i < ROLLOUT_LIMIT
    ensures Check(f.(rollout := f.rollout + i)).None?
    ensures PackEnvironmentSeed(f.(rollout := f.rollout + i)) == Returned(ResetSeed(PackEnvironmentSeed(f).value, i))
  {
    hide PackEnvironmentSeed;
    var g := f.(rollout := f.rollout + i);
    PackIsConcatenation(f);
    PackIsConcatenation(g);
    PackingIsInjective(g, g);
  }

  // ----- The collection matrix -----

  datatype Slot = Slot(property: string, ordinal: nat, seed: int, dev: bool, r: nat)

  const PROTOTYPES: nat := 5

  function Count(dev: bool): nat { if dev then 2 else 10 }

  predicate Planned(s: Slot) {
    PropertyCode(s.property).Some? && s.ordinal < PROTOTYPES && 1 <= s.seed <= 5 && s.r < Count(s.dev)
  }

  /** The matrix: three properties, five prototypes, five seeds; ten rollouts for training and two for development. */
  lemma PlannedSlots(s: Slot)
    ensures Planned(s) <==>
      s.property in {"bm", "density", "band_gap"} && s.ordinal < 5 && s.seed in {1, 2, 3, 4, 5} && s.r < if s.dev then 2 else 10
  {
  }

  /** The five training prototypes share one code and keep apart by their rollout range. */
  function FieldsOf(s: Slot): Fields {
    Fields(s.seed, s.property, "training_mixture", s.ordinal * 10000 + s.r,
           if s.dev then "uncertainty_calibration_dev" else "uncertainty_fit_and_es_train")
  }

  /** The seed of a planned collection rollout: its prototype moves it by ten thousand rollouts, not by a code. */
  lemma CollectionSeed(s: Slot)
    requires Planned(s)
    ensures s.property in PROPERTY_CODES
    ensures PackEnvironmentSeed(FieldsOf(s)) == Returned(
      (if s.dev then 1 else 0) * 1073741824 + (s.seed - 1) * 134217728 + PROPERTY_CODES[s.property] * 33554432
      + 7 * 4194304 + s.ordinal * 10000 + s.r)
  {
    hide PackEnvironmentSeed;
    SeedOf(FieldsOf(s));
  }

  /** No two planned rollouts of the collection share a seed, and none shares one with the final test. */
  lemma CollectionSeedsAreApart(s: Slot, t: Slot, final: Fields)
    requires Planned(s) && Planned(t)
    requires Check(final).None? && final.partition == "final_test"
    ensures Check(FieldsOf(s)).None?
    ensures PackEnvironmentSeed(FieldsOf(s)) == PackEnvironmentSeed(FieldsOf(t)) ==> s == t
    ensures PackEnvironmentSeed(FieldsOf(s)) != PackEnvironmentSeed(final)
  {
    hide PackEnvironmentSeed;
    PackingIsInjective(FieldsOf(s), FieldsOf(t));
    PackingIsInjective(FieldsOf(s), final);
  }

  /** Consecutive rollouts of one collection job are consecutive seeds. */
  lemma CollectionJobIsOneRange(s: Slot, r: nat)
    requires Planned(s) && Planned(s.(r := r)) && s.r <= r
    ensures PackEnvironmentSeed(FieldsOf(s.(r := r))) == Returned(ResetSeed(PackEnvironmentSeed(FieldsOf(s)).value, r - s.r))
  {
    hide PackEnvironmentSeed;
    assert FieldsOf(s.(r := r)) == FieldsOf(s).(rollout := FieldsOf(s).rollout + (r - s.r));
    ResetScheduleIsTheManifest(FieldsOf(s), r - s.r);
  }

  // ----- The loops that build the matrix -----

  /** The slot comes before property `p`, prototype `ordinal`, seed `seed` in the order of the loops. */
  predicate Passed(s: Slot, properties: seq<string>, p: nat, ordinal: nat, seed: int)
    requires p < |properties|
  {
    || s.property in properties[..p]
    || (s.property == properties[p] && (s.ordinal < ordinal || (s.ordinal == ordinal && s.seed < seed)))
  }

  /** The jobs of one property, prototype by prototype, seed by seed, training before development. */
  method CrystalJobs(properties: seq<string>) returns (jobs: seq<Slot>)
    requires Distinct(properties) && forall i :: 0 <= i < |properties| ==> PropertyCode(properties[i]).Some?
    ensures Distinct(jobs)
    ensures forall s :: s in jobs <==> s.property in properties && Planned(s) && s.r == 0
  {
    jobs := [];
    for p := 0 to |properties|
      invariant Distinct(jobs)
      invariant forall s :: s in jobs <==> s.property in properties[..p] && Planned(s) && s.r == 0
    {
      for ordinal := 0 to PROTOTYPES
        invariant Distinct(jobs)
        invariant forall s :: s in jobs <==> Planned(s) && s.r == 0 && Passed(s, properties, p, ordinal, 1)
      {
        for seed := 1 to 6
          invariant Distinct(jobs)
          invariant forall s :: s in jobs <==> Planned(s) && s.r == 0 && Passed(s, properties, p, ordinal, seed)
        {
          assert properties[p] !in properties[..p];
          var train, dev := Slot(properties[p], ordinal, seed, false, 0), Slot(properties[p], ordinal, seed, true, 0);
          DistinctAppend(jobs, [train, dev]);
          jobs := jobs + [train, dev];
        }
      }
      assert properties[..p + 1] == properties[..p] + [properties[p]];
    }
    assert properties[..|properties|] == properties;
  }
}
