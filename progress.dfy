/** The section catalog, the clamp applied to typed percentages, and the
    weighted overall score of script.js. */
module Progress {

  /** One entry of the fixed catalog. The source's weights are multiples of
      one half; `weight2` holds twice the weight so that every sum is an integer.
      The display colour is not modelled. */
  datatype Section = Section(id: string, name: string, weight2: nat)

  /** `SECTIONS`, in catalog order, with doubled weights (0.5, 3.5, 5, 5, 0.5, 3.5, 2). */
  const SECTIONS: seq<Section> := [
    Section("abstract", "Abstract", 1),
    Section("introduction", "Introduction", 7),
    Section("results", "Results", 10),
    Section("discussion", "Discussion", 10),
    Section("conclusions", "Conclusions", 1),
    Section("experimental", "Experimental", 7),
    Section("references", "References", 4)
  ]

  /** What `parseInt` yields for the text of a section's number input. */
  datatype ParsedInt = NaN | Int(value: int)

  /** The percentage the change handler stores for a parsed input. */
  function Clamp(input: ParsedInt): (stored: int)
    ensures 0 <= stored <= 100
    ensures input.NaN? ==> stored == 0
    ensures input.Int? && input.value < 0 ==> stored == 0
    ensures input.Int? && input.value > 100 ==> stored == 100
    ensures input.Int? ==> (stored == input.value <==> 0 <= input.value <= 100)
  {
    if input.NaN? || input.value < 0 then 0
    else if input.value > 100 then 100
    else input.value
  }

  /** `progressData[id] || 0`: the stored percentage, 0 for a missing entry. */
  function StoredOrZero(progress: map<string, int>, id: string): int {
    if id in progress then progress[id] else 0
  }

  /** Twice the sum of the weights of `ss`. */
  function TotalWeight2(ss: seq<Section>): nat {
    if ss == [] then 0 else TotalWeight2(ss[..|ss| - 1]) + ss[|ss| - 1].weight2
  }

  /** Twice the weighted sum of the stored percentages of `ss`. */
  function WeightedSum2(ss: seq<Section>, progress: map<string, int>): int {
    if ss == [] then 0
    else WeightedSum2(ss[..|ss| - 1], progress) + StoredOrZero(progress, ss[|ss| - 1].id) * ss[|ss| - 1].weight2
  }

  /** `Math.round(num / den)` for a positive denominator: the nearest integer,
      a half rounded up. */
  function RoundHalfUp(num: int, den: int): (r: int)
    requires den > 0
    ensures 2 * den * r - den <= 2 * num < 2 * den * r + den
  {
    (2 * num + den) / (2 * den)
  }

  lemma CatalogWeight()
    ensures TotalWeight2(SECTIONS) == 40
  {
    assert SECTIONS[..0] == [];
    assert SECTIONS[..1][..0] == SECTIONS[..0] && TotalWeight2(SECTIONS[..1]) == 1;
    assert SECTIONS[..2][..1] == SECTIONS[..1] && TotalWeight2(SECTIONS[..2]) == 8;
    assert SECTIONS[..3][..2] == SECTIONS[..2] && TotalWeight2(SECTIONS[..3]) == 18;
    assert SECTIONS[..4][..3] == SECTIONS[..3] && TotalWeight2(SECTIONS[..4]) == 28;
    assert SECTIONS[..5][..4] == SECTIONS[..4] && TotalWeight2(SECTIONS[..5]) == 29;
    assert SECTIONS[..6][..5] == SECTIONS[..5] && TotalWeight2(SECTIONS[..6]) == 36;
    assert SECTIONS[..7][..6] == SECTIONS[..6];
    assert SECTIONS[..7] == SECTIONS;
  }

  /** `calculateOverallProgress()` as a value: round(Σ p·w / Σ w) over the catalog. */
  function OverallProgress(progress: map<string, int>): int {
    CatalogWeight();
    RoundHalfUp(WeightedSum2(SECTIONS, progress), TotalWeight2(SECTIONS))
  }

  /** The loop of `calculateOverallProgress`: both accumulators are summed over
      the catalog, then the quotient is rounded. */
  method CalculateOverallProgress(progress: map<string, int>) returns (overall: int)
    ensures overall == OverallProgress(progress)
    ensures 2 * 40 * overall - 40 <= 2 * WeightedSum2(SECTIONS, progress) < 2 * 40 * overall + 40
  {
    var totalWeight2 := 0;
    var weightedProgress2 := 0;
    var i := 0;
    while i < |SECTIONS|
      invariant 0 <= i <= |SECTIONS|
      invariant totalWeight2 == TotalWeight2(SECTIONS[..i])
      invariant weightedProgress2 == WeightedSum2(SECTIONS[..i], progress)
    {
      var section := SECTIONS[i];
      assert SECTIONS[..i + 1][..i] == SECTIONS[..i];
      totalWeight2 := totalWeight2 + section.weight2;
      weightedProgress2 := weightedProgress2 + StoredOrZero(progress, section.id) * section.weight2;
      i := i + 1;
    }
    assert SECTIONS[..i] == SECTIONS;
    CatalogWeight();
    overall := (2 * weightedProgress2 + totalWeight2) / (2 * totalWeight2);
  }

  /** The ids of a list of sections. */
  function Ids(ss: seq<Section>): (ids: set<string>)
    ensures forall s :: s in ss ==> s.id in ids
    ensures forall id :: id in ids ==> exists s :: s in ss && s.id == id
  {
    if ss == [] then {} else Ids(ss[..|ss| - 1]) + {ss[|ss| - 1].id}
  }

  /** The ids of the catalog sections. */
  function SectionIds(): set<string> {
    Ids(SECTIONS)
  }

  /** The default of `loadDataFromLocalStorage` when nothing is saved: every
      section of the list at 0 (the forEach over the catalog at script.js
      lines 71-73). */
  method DefaultProgress(sections: seq<Section>) returns (progress: map<string, int>)
    ensures progress.Keys == Ids(sections)
    ensures forall id :: id in progress ==> progress[id] == 0
  {
    progress := map[];
    var i := 0;
    while i < |sections|
      invariant 0 <= i <= |sections|
      invariant progress.Keys == Ids(sections[..i])
      invariant forall id :: id in progress ==> progress[id] == 0
    {
      assert sections[..i + 1][..i] == sections[..i];
      progress := progress[sections[i].id := 0];
      i := i + 1;
    }
    assert sections[..i] == sections;
  }

  /** Every stored percentage lies in [0, 100]. */
  ghost predicate InRange(progress: map<string, int>) {
    forall id :: id in progress ==> 0 <= progress[id] <= 100
  }

  lemma ScaleMonotone(a: int, b: int, w: nat)
    requires a <= b
    ensures a * w <= b * w
  {
    assert b * w - a * w == (b - a) * w;
  }

  lemma {:induction false} WeightedSumBounds(ss: seq<Section>, progress: map<string, int>)
    requires InRange(progress)
    ensures 0 <= WeightedSum2(ss, progress) <= 100 * TotalWeight2(ss)
  {
    if ss != [] {
      WeightedSumBounds(ss[..|ss| - 1], progress);
      var last := ss[|ss| - 1];
      ScaleMonotone(0, StoredOrZero(progress, last.id), last.weight2);
      ScaleMonotone(StoredOrZero(progress, last.id), 100, last.weight2);
    }
  }

  /** The overall score is a percentage whenever every stored value is one. */
  lemma OverallInRange(progress: map<string, int>)
    requires InRange(progress)
    ensures 0 <= OverallProgress(progress) <= 100
  {
    WeightedSumBounds(SECTIONS, progress);
    CatalogWeight();
  }

  lemma {:induction false} WeightedSumUniform(ss: seq<Section>, progress: map<string, int>, v: int)
    requires forall i :: 0 <= i < |ss| ==> StoredOrZero(progress, ss[i].id) == v
    ensures WeightedSum2(ss, progress) == v * TotalWeight2(ss)
  {
    if ss != [] {
      WeightedSumUniform(ss[..|ss| - 1], progress, v);
    }
  }

  /** All sections at 0 give 0 (a missing entry counts as 0). */
  lemma OverallAllZero(progress: map<string, int>)
    requires forall i :: 0 <= i < |SECTIONS| ==> StoredOrZero(progress, SECTIONS[i].id) == 0
    ensures OverallProgress(progress) == 0
  {
    WeightedSumUniform(SECTIONS, progress, 0);
    CatalogWeight();
  }

  /** All sections at 100 give 100. */
  lemma OverallAllComplete(progress: map<string, int>)
    requires forall i :: 0 <= i < |SECTIONS| ==> StoredOrZero(progress, SECTIONS[i].id) == 100
    ensures OverallProgress(progress) == 100
  {
    WeightedSumUniform(SECTIONS, progress, 100);
    CatalogWeight();
  }

  lemma {:induction false} WeightedSumMonotone(ss: seq<Section>, p: map<string, int>, q: map<string, int>)
    requires forall i :: 0 <= i < |ss| ==> StoredOrZero(p, ss[i].id) <= StoredOrZero(q, ss[i].id)
    ensures WeightedSum2(ss, p) <= WeightedSum2(ss, q)
  {
    if ss != [] {
      WeightedSumMonotone(ss[..|ss| - 1], p, q);
      var last := ss[|ss| - 1];
      ScaleMonotone(StoredOrZero(p, last.id), StoredOrZero(q, last.id), last.weight2);
    }
  }

  /** Raising a section's percentage never lowers the overall score. */
  lemma OverallMonotone(p: map<string, int>, q: map<string, int>)
    requires forall i :: 0 <= i < |SECTIONS| ==> StoredOrZero(p, SECTIONS[i].id) <= StoredOrZero(q, SECTIONS[i].id)
    ensures OverallProgress(p) <= OverallProgress(q)
  {
    WeightedSumMonotone(SECTIONS, p, q);
    CatalogWeight();
  }

  /** The abstract alone at 100% is 0.5 · 100 / 20 = 2.5 points, which
      `Math.round` takes up to 3. */
  lemma AbstractAloneRoundsUp()
    ensures OverallProgress(map["abstract" := 100]) == 3
  {
    var p := map["abstract" := 100];
    WeightedSumUniform(SECTIONS[1..], p, 0);
    assert SECTIONS == [SECTIONS[0]] + SECTIONS[1..];
    WeightedSumSplitFirst(SECTIONS, p);
    CatalogWeight();
  }

  lemma {:induction false} WeightedSumSplitFirst(ss: seq<Section>, progress: map<string, int>)
    requires ss != []
    ensures WeightedSum2(ss, progress) == StoredOrZero(progress, ss[0].id) * ss[0].weight2 + WeightedSum2(ss[1..], progress)
  {
    if |ss| > 1 {
      assert ss[..|ss| - 1][1..] == ss[1..][..|ss| - 2];
      WeightedSumSplitFirst(ss[..|ss| - 1], progress);
    } else {
      assert ss[..0] == [] && ss[1..] == [];
    }
  }
}
