// The weighted lottery of probability_calc.py: a role's candidate list becomes
// a distribution that favours ratings close to the team's target, scaled by
// how highly each candidate ranks the role, with a uniform floor blended in.
// All arithmetic is over the reals.

module ProbabilityEngine {

  import opened DraftTypes

  /** A Python dict from player name to a number, in insertion order. */
  type Distribution = seq<(string, real)>

  /** The absolute tolerance within which the final sum is left alone. */
  const Tolerance: real := 0.00000001

  function Abs(x: real): real
  {
    if x < 0.0 then -x else x
  }

  // ---- role preference -------------------------------------------------------

  /** The factor a priority earns when it is 1, 2 or 3. */
  function PriorityFactor(priority: int): real
  {
    if priority == 1 then 0.9 else if priority == 2 then 0.6 else if priority == 3 then 0.1 else 0.0
  }

  /** An entry naming the role with a priority the factor table knows. */
  predicate Ranks(rp: RolePriority, role: string)
  {
    rp.role == role && 1 <= rp.priority <= 3
  }

  /** get_role_preference_factor: the factor of the first entry that names the
      role with priority 1, 2 or 3, and 0 when there is none. */
  function RolePreferenceFactor(roles: seq<RolePriority>, role: string): (r: real)
    ensures r == 0.0 || r == 0.9 || r == 0.6 || r == 0.1
  {
    if |roles| == 0 then 0.0
    else if roles[0].role == role then
      var p := roles[0].priority;
      if p == 1 then 0.9
      else if p == 2 then 0.6
      else if p == 3 then 0.1
      else RolePreferenceFactor(roles[1..], role)
    else RolePreferenceFactor(roles[1..], role)
  }

  /** The factor is positive exactly when some entry ranks the role, and then it
      is the factor of the first such entry. */
  lemma {:induction false} RolePreferenceFactorFirst(roles: seq<RolePriority>, role: string)
    ensures RolePreferenceFactor(roles, role) > 0.0 <==> exists i :: 0 <= i < |roles| && Ranks(roles[i], role)
    ensures forall i :: 0 <= i < |roles| && Ranks(roles[i], role)
                        && (forall j :: 0 <= j < i ==> !Ranks(roles[j], role))
                        ==> RolePreferenceFactor(roles, role) == PriorityFactor(roles[i].priority)
  {
    if |roles| > 0 {
      RolePreferenceFactorFirst(roles[1..], role);
      assert forall i :: 1 <= i < |roles| ==> roles[i] == roles[1..][i - 1];
    }
  }


  // ---- ordered dictionaries --------------------------------------------------

  /** `k in d` for a dict kept as its items in insertion order. */
  predicate HasKey(d: Distribution, k: string)
  {
    exists i :: 0 <= i < |d| && d[i].0 == k
  }

  predicate DistinctKeys(d: Distribution)
  {
    forall i, j :: 0 <= i < j < |d| ==> d[i].0 != d[j].0
  }

  /** Python's `d[k] = v`: overwrite in place when k is a key, append otherwise. */
  function Put(d: Distribution, k: string, v: real): (r: Distribution)
    ensures HasKey(d, k) ==> |r| == |d|
    ensures !HasKey(d, k) ==> r == d + [(k, v)]
    ensures forall i :: 0 <= i < |d| ==> r[i] == (if d[i].0 == k then (k, v) else d[i])
  {
    if HasKey(d, k) then seq(|d|, i requires 0 <= i < |d| => if d[i].0 == k then (k, v) else d[i])
    else d + [(k, v)]
  }

  /** Python's sum(d.values()). */
  function Total(d: Distribution): real
  {
    if |d| == 0 then 0.0 else Total(d[..|d| - 1]) + d[|d| - 1].1
  }

  // ---- the specification of compute_probabilities ----------------------------

  /** The rating that would bring the team's average to `globalAverageMmr` with
      one more pick: global*(n+1) minus the rating the roster already holds. */
  function IdealMmr(team: Team, globalAverageMmr: real): real
  {
    var n := |team.players| as real;
    globalAverageMmr * (n + 1.0) - team.averageMmr * n
  }

  /** A candidate's raw weight: its factor over one plus its distance to the ideal. */
  function Weight(mmr: int, ideal: real, factor: real): real
  {
    (1.0 / (Abs(mmr as real - ideal) + 1.0)) * factor
  }

  function FactorOf(allPlayers: map<string, Player>, p: string, role: string): real
    requires p in allPlayers
  {
    RolePreferenceFactor(allPlayers[p].roles, role)
  }

  /** The raw weights of the candidates, in order of first appearance: each entry
      is a candidate with a positive factor, weighted by Weight. */
  function RawWeights(cands: seq<string>, allPlayers: map<string, Player>, role: string, ideal: real): (raw: Distribution)
    requires AllKnown(cands, allPlayers)
    ensures forall i :: 0 <= i < |raw| ==>
              && raw[i].0 in cands && raw[i].0 in allPlayers
              && FactorOf(allPlayers, raw[i].0, role) > 0.0
              && raw[i].1 == Weight(allPlayers[raw[i].0].mmr, ideal, FactorOf(allPlayers, raw[i].0, role))
  {
    if |cands| == 0 then []
    else
      var prefix := cands[..|cands| - 1];
      var p := cands[|cands| - 1];
      var before := RawWeights(prefix, allPlayers, role, ideal);
      var factor := FactorOf(allPlayers, p, role);
      if factor <= 0.0 then before
      else Put(before, p, Weight(allPlayers[p].mmr, ideal, factor))
  }

  /** Assigning a key adds that key, keeps the others, and keeps them distinct. */
  lemma PutKeys(d: Distribution, k: string, v: real)
    requires DistinctKeys(d)
    ensures DistinctKeys(Put(d, k, v))
    ensures forall x :: HasKey(Put(d, k, v), x) <==> HasKey(d, x) || x == k
  {
    var r := Put(d, k, v);
    if HasKey(d, k) {
      assert forall i :: 0 <= i < |r| ==> r[i].0 == d[i].0;
      assert forall x :: HasKey(r, x) <==> HasKey(d, x);
    } else {
      forall x | HasKey(r, x)
        ensures HasKey(d, x) || x == k
      {
        var i :| 0 <= i < |r| && r[i].0 == x;
        if i < |d| {
          assert d[i].0 == x;
        }
      }
      assert r[|d|].0 == k;
    }
  }

  /** Each candidate with a positive factor appears once, and no one else does. */
  lemma {:induction false} RawWeightsKeys(cands: seq<string>, allPlayers: map<string, Player>, role: string, ideal: real)
    requires AllKnown(cands, allPlayers)
    ensures var raw := RawWeights(cands, allPlayers, role, ideal);
      && DistinctKeys(raw)
      && forall k :: HasKey(raw, k) <==> k in cands && k in allPlayers && FactorOf(allPlayers, k, role) > 0.0
  {
    if |cands| > 0 {
      var prefix := cands[..|cands| - 1];
      var p := cands[|cands| - 1];
      assert forall k :: k in cands <==> k in prefix || k == p;
      RawWeightsKeys(prefix, allPlayers, role, ideal);
      var before := RawWeights(prefix, allPlayers, role, ideal);
      var factor := FactorOf(allPlayers, p, role);
      if factor > 0.0 {
        PutKeys(before, p, Weight(allPlayers[p].mmr, ideal, factor));
      }
    }
  }

  /** The factor that turns a weight into its share of (1 - b): (1 - b) / total. */
  function Slope(total: real, b: real): real
    requires total != 0.0
  {
    (1.0 - b) / total
  }

  /** The uniform floor every candidate receives: b / n. */
  function Floor(b: real, n: nat): real
    requires n > 0
  {
    b / n as real
  }

  /** The source's own arrangement of one blended value, mmr_part + uniform_part,
      is the weight times the slope plus the floor. */
  lemma ShareParts(w: real, total: real, b: real, n: nat)
    requires total != 0.0 && n > 0
    ensures (w / total) * (1.0 - b) + b / n as real == Mix(w, Slope(total, b), Floor(b, n))
  {
  }

  /** One blended value: the weight times the slope, plus the floor. */
  function Mix(w: real, slope: real, floor: real): real
  {
    slope * w + floor
  }

  /** Every weight mapped to its Mix, keys unchanged. */
  function Blend(raw: Distribution, slope: real, floor: real): (r: Distribution)
    ensures |r| == |raw|
    ensures forall i :: 0 <= i < |raw| ==> r[i] == (raw[i].0, Mix(raw[i].1, slope, floor))
  {
    if |raw| == 0 then []
    else Blend(raw[..|raw| - 1], slope, floor) + [(raw[|raw| - 1].0, Mix(raw[|raw| - 1].1, slope, floor))]
  }

  /** Every value divided by `s`, keys unchanged. */
  function Rescale(d: Distribution, s: real): (r: Distribution)
    requires s != 0.0
    ensures |r| == |d|
    ensures forall i :: 0 <= i < |d| ==> r[i] == (d[i].0, d[i].1 / s)
  {
    if |d| == 0 then [] else Rescale(d[..|d| - 1], s) + [(d[|d| - 1].0, d[|d| - 1].1 / s)]
  }

  /** The closing normalisation: divide by the sum when it is more than
      Tolerance away from 1. A sum of 0 is left alone, where Python would
      divide by zero; over the reals the blended sum is always 1, so neither
      branch that divides is reached from Probabilities (ProbabilitiesSumToOne). */
  function Normalize(blended: Distribution): (r: Distribution)
    ensures |r| == |blended|
    ensures forall i :: 0 <= i < |blended| ==> r[i].0 == blended[i].0
  {
    var s := Total(blended);
    if Abs(s - 1.0) > Tolerance && s != 0.0 then Rescale(blended, s) else blended
  }

  /** The fallback the source takes when the weights do not add up to a positive total. */
  function Uniform(raw: Distribution): (r: Distribution)
    requires |raw| > 0
    ensures |r| == |raw|
    ensures forall i :: 0 <= i < |raw| ==> r[i] == (raw[i].0, 1.0 / |raw| as real)
  {
    seq(|raw|, i requires 0 <= i < |raw| => (raw[i].0, 1.0 / |raw| as real))
  }

  /** What compute_probabilities does with the raw weights once collected: nothing
      when there are none, the uniform fallback when they do not add up to a
      positive total, and otherwise the blend with the uniform floor, normalised. */
  function Distribute(raw: Distribution, b: real): (r: Distribution)
    ensures |r| == |raw|
    ensures forall i :: 0 <= i < |raw| ==> r[i].0 == raw[i].0
  {
    if |raw| == 0 then []
    else if Total(raw) <= 0.0 then Uniform(raw)
    else Normalize(Blend(raw, Slope(Total(raw), b), Floor(b, |raw|)))
  }

  /** The distribution compute_probabilities returns. */
  function Probabilities(team: Team, role: string, allPlayers: map<string, Player>,
                         playersInRole: seq<string>, globalAverageMmr: real, baseRandomness: real): Distribution
    requires AllKnown(playersInRole, allPlayers)
  {
    Distribute(RawWeights(playersInRole, allPlayers, role, IdealMmr(team, globalAverageMmr)), baseRandomness)
  }

  // ---- the loops of compute_probabilities ------------------------------------

  /** compute_probabilities: collect the raw weights of the candidates, blend each
      share with the uniform floor, then rescale if the sum drifted from 1. */
  method ComputeProbabilities(team: Team, role: string, allPlayers: map<string, Player>,
                              playersInRole: seq<string>, globalAverageMmr: real, baseRandomness: real)
    returns (finalProbs: Distribution)
    requires AllKnown(playersInRole, allPlayers)
    ensures finalProbs == Probabilities(team, role, allPlayers, playersInRole, globalAverageMmr, baseRandomness)
  {
    var n := |team.players|;
    var currentSum := team.averageMmr * n as real;
    var idealMmr := globalAverageMmr * (n + 1) as real - currentSum;
    assert idealMmr == IdealMmr(team, globalAverageMmr);

    var rawWeights := CollectRawWeights(role, allPlayers, playersInRole, idealMmr);
    if |rawWeights| == 0 {
      return [];
    }
    var totalW := Total(rawWeights);
    if totalW <= 0.0 {
      return Uniform(rawWeights);
    }
    RawWeightsKeys(playersInRole, allPlayers, role, idealMmr);
    finalProbs := BlendWeights(rawWeights, totalW, baseRandomness);
    finalProbs := Normalized(finalProbs);
  }

  /** The first loop: the positive-factor candidates and their weights. */
  method CollectRawWeights(role: string, allPlayers: map<string, Player>, playersInRole: seq<string>, idealMmr: real)
    returns (rawWeights: Distribution)
    requires AllKnown(playersInRole, allPlayers)
    ensures rawWeights == RawWeights(playersInRole, allPlayers, role, idealMmr)
  {
    rawWeights := [];
    for i := 0 to |playersInRole|
      invariant rawWeights == RawWeights(playersInRole[..i], allPlayers, role, idealMmr)
    {
      assert playersInRole[..i + 1][..i] == playersInRole[..i];
      var p := playersInRole[i];
      var info := allPlayers[p];
      var factor := RolePreferenceFactor(info.roles, role);
      if factor <= 0.0 {
        continue;
      }
      var diff := Abs(info.mmr as real - idealMmr);
      var w := 1.0 / (diff + 1.0);
      assert w * factor == Weight(info.mmr, idealMmr, factor);
      rawWeights := Put(rawWeights, p, w * factor);
    }
    assert playersInRole[..|playersInRole|] == playersInRole;
  }

  /** The second loop: each weight's share blended with the uniform floor. */
  method BlendWeights(rawWeights: Distribution, totalW: real, baseRandomness: real)
    returns (finalProbs: Distribution)
    requires totalW != 0.0 && |rawWeights| > 0 && DistinctKeys(rawWeights)
    ensures finalProbs == Blend(rawWeights, Slope(totalW, baseRandomness), Floor(baseRandomness, |rawWeights|))
  {
    var count := |rawWeights|;
    ghost var slope, floor := Slope(totalW, baseRandomness), Floor(baseRandomness, count);
    finalProbs := [];
    for i := 0 to count
      invariant finalProbs == Blend(rawWeights[..i], slope, floor)
    {
      var (p, w) := rawWeights[i];
      var mmrPart := (w / totalW) * (1.0 - baseRandomness);
      var uniformPart := baseRandomness / count as real;
      ShareParts(w, totalW, baseRandomness, count);
      BlendStep(rawWeights, i, slope, floor);
      finalProbs := Put(finalProbs, p, mmrPart + uniformPart);
    }
    assert rawWeights[..count] == rawWeights;
  }

  /** One more entry of a blend with distinct keys is appended, not overwritten. */
  lemma BlendStep(raw: Distribution, i: nat, slope: real, floor: real)
    requires i < |raw| && DistinctKeys(raw)
    ensures Put(Blend(raw[..i], slope, floor), raw[i].0, Mix(raw[i].1, slope, floor)) == Blend(raw[..i + 1], slope, floor)
  {
    var before := Blend(raw[..i], slope, floor);
    assert raw[..i + 1][..i] == raw[..i];
    assert !HasKey(before, raw[i].0) by {
      forall j | 0 <= j < |before|
        ensures before[j].0 != raw[i].0
      {
        assert before[j].0 == raw[..i][j].0 == raw[j].0;
      }
    }
  }

  /** The closing loop: divide every value by the sum when it drifted from 1. */
  method Normalized(blended: Distribution) returns (finalProbs: Distribution)
    ensures finalProbs == Normalize(blended)
  {
    finalProbs := blended;
    var s := Total(finalProbs);
    if Abs(s - 1.0) > Tolerance && s != 0.0 {
      for k := 0 to |finalProbs|
        invariant |finalProbs| == |blended|
        invariant forall j :: 0 <= j < k ==> finalProbs[j] == (blended[j].0, blended[j].1 / s)
        invariant forall j :: k <= j < |blended| ==> finalProbs[j] == blended[j]
      {
        finalProbs := finalProbs[k := (finalProbs[k].0, finalProbs[k].1 / s)];
      }
      RescaleAt(blended, s, finalProbs);
    }
  }

  lemma RescaleAt(d: Distribution, s: real, r: Distribution)
    requires s != 0.0 && |r| == |d|
    requires forall j :: 0 <= j < |d| ==> r[j] == (d[j].0, d[j].1 / s)
    ensures r == Rescale(d, s)
  {
  }

  // ---- what the distribution promises ----------------------------------------

  /** Exactly the candidates that rank the role appear, each once: a player whose
      factor is 0 is excluded, and every key is one of the candidates. */
  lemma ProbabilitiesKeys(team: Team, role: string, allPlayers: map<string, Player>,
                          playersInRole: seq<string>, g: real, b: real)
    requires AllKnown(playersInRole, allPlayers)
    ensures var probs := Probabilities(team, role, allPlayers, playersInRole, g, b);
      && DistinctKeys(probs)
      && forall k :: HasKey(probs, k) <==> k in playersInRole && k in allPlayers && FactorOf(allPlayers, k, role) > 0.0
  {
    var probs := Probabilities(team, role, allPlayers, playersInRole, g, b);
    var raw := RawWeights(playersInRole, allPlayers, role, IdealMmr(team, g));
    RawWeightsKeys(playersInRole, allPlayers, role, IdealMmr(team, g));
    assert forall k :: HasKey(probs, k) <==> HasKey(raw, k) by {
      forall k ensures HasKey(probs, k) ==> HasKey(raw, k) {
        if HasKey(probs, k) {
          var i :| 0 <= i < |probs| && probs[i].0 == k;
          assert raw[i].0 == k;
        }
      }
      forall k ensures HasKey(raw, k) ==> HasKey(probs, k) {
        if HasKey(raw, k) {
          var i :| 0 <= i < |raw| && raw[i].0 == k;
          assert probs[i].0 == k;
        }
      }
    }
  }

  /** The result is empty exactly when no candidate ranks the role. */
  lemma ProbabilitiesEmpty(team: Team, role: string, allPlayers: map<string, Player>,
                           playersInRole: seq<string>, g: real, b: real)
    requires AllKnown(playersInRole, allPlayers)
    ensures Probabilities(team, role, allPlayers, playersInRole, g, b) == []
            <==> forall i :: 0 <= i < |playersInRole| ==> FactorOf(allPlayers, playersInRole[i], role) <= 0.0
  {
    var probs := Probabilities(team, role, allPlayers, playersInRole, g, b);
    var raw := RawWeights(playersInRole, allPlayers, role, IdealMmr(team, g));
    RawWeightsKeys(playersInRole, allPlayers, role, IdealMmr(team, g));
    if raw != [] {
      assert HasKey(raw, raw[0].0);
    }
    forall i | 0 <= i < |playersInRole| && FactorOf(allPlayers, playersInRole[i], role) > 0.0
      ensures raw != []
    {
      assert HasKey(raw, playersInRole[i]);
    }
  }

  lemma WeightPositive(mmr: int, ideal: real, factor: real)
    requires factor > 0.0
    ensures Weight(mmr, ideal, factor) > 0.0
  {
    var x := Abs(mmr as real - ideal) + 1.0;
    assert 1.0 / x > 0.0;
  }

  lemma {:induction false} TotalOfPositive(d: Distribution)
    requires forall i :: 0 <= i < |d| ==> d[i].1 > 0.0
    ensures |d| > 0 ==> Total(d) > 0.0
  {
    if |d| > 0 {
      TotalOfPositive(d[..|d| - 1]);
    }
  }

  /** Every raw weight is positive, so their total is positive whenever there is a
      candidate: the uniform fallback of the source is never reached. */
  lemma RawTotalPositive(cands: seq<string>, allPlayers: map<string, Player>, role: string, ideal: real)
    requires AllKnown(cands, allPlayers)
    ensures var raw := RawWeights(cands, allPlayers, role, ideal);
      (forall i :: 0 <= i < |raw| ==> raw[i].1 > 0.0) && (|raw| > 0 ==> Total(raw) > 0.0)
  {
    var raw := RawWeights(cands, allPlayers, role, ideal);
    forall i | 0 <= i < |raw|
      ensures raw[i].1 > 0.0
    {
      var k := raw[i].0;
      WeightPositive(allPlayers[k].mmr, ideal, FactorOf(allPlayers, k, role));
    }
    TotalOfPositive(raw);
  }

  /** A map that is affine in every value is affine in the sum. */
  lemma {:induction false} TotalAffine(d: Distribution, r: Distribution, k: real, c: real)
    requires |r| == |d|
    requires forall i :: 0 <= i < |d| ==> r[i].1 == k * d[i].1 + c
    ensures Total(r) == k * Total(d) + c * |d| as real
  {
    if |d| > 0 {
      var m := |d| - 1;
      TotalAffine(d[..m], r[..m], k, c);
      assert Total(r) == Total(r[..m]) + r[m].1;
      assert Total(d) == Total(d[..m]) + d[m].1;
      assert k * Total(d) == k * Total(d[..m]) + k * d[m].1;
      assert c * |d| as real == c * m as real + c;
    }
  }

  /** Blending is affine in the weights, so it is affine in their sum too. */
  lemma TotalOfBlend(raw: Distribution, slope: real, floor: real)
    ensures Total(Blend(raw, slope, floor)) == slope * Total(raw) + floor * |raw| as real
  {
    var r := Blend(raw, slope, floor);
    forall i | 0 <= i < |raw|
      ensures r[i].1 == slope * raw[i].1 + floor
    {
      assert r[i].1 == Mix(raw[i].1, slope, floor);
    }
    TotalAffine(raw, r, slope, floor);
  }

  /** With a slope that takes the total to 1 - b and a floor that takes the
      count to b, the blended values add up to exactly 1. */
  lemma BlendSumsToOne(raw: Distribution, b: real, slope: real, floor: real)
    requires slope * Total(raw) == 1.0 - b && floor * |raw| as real == b
    ensures Total(Blend(raw, slope, floor)) == 1.0
  {
    TotalOfBlend(raw, slope, floor);
  }

  lemma SlopeTimesTotal(total: real, b: real)
    requires total != 0.0
    ensures Slope(total, b) * total == 1.0 - b
  {
  }

  lemma FloorTimesCount(b: real, n: nat)
    requires n > 0
    ensures Floor(b, n) * n as real == b
  {
  }

  /** With positive weights the blend at their own total and count sums to 1. */
  lemma BlendAtTotalSumsToOne(raw: Distribution, b: real)
    requires |raw| > 0 && Total(raw) > 0.0
    ensures Total(Blend(raw, Slope(Total(raw), b), Floor(b, |raw|))) == 1.0
  {
    SlopeTimesTotal(Total(raw), b);
    FloorTimesCount(b, |raw|);
    BlendSumsToOne(raw, b, Slope(Total(raw), b), Floor(b, |raw|));
  }

  /** A distribution that already sums to 1 is left alone by the normalisation. */
  lemma NormalizeOne(d: Distribution)
    requires Total(d) == 1.0
    ensures Normalize(d) == d
  {
  }

  /** With positive weights the blend already sums to 1, so the closing
      normalisation leaves it alone. */
  lemma DistributeBlend(raw: Distribution, b: real)
    requires |raw| > 0 && Total(raw) > 0.0
    ensures Distribute(raw, b) == Blend(raw, Slope(Total(raw), b), Floor(b, |raw|))
    ensures Total(Distribute(raw, b)) == 1.0
  {
    BlendAtTotalSumsToOne(raw, b);
    NormalizeOne(Blend(raw, Slope(Total(raw), b), Floor(b, |raw|)));
  }

  /** With at least one candidate, the uniform fallback is never taken and the
      blend already sums to 1, so the closing rescale changes nothing over the
      reals: the result is the blend itself and adds up to 1. */
  lemma ProbabilitiesSumToOne(team: Team, role: string, allPlayers: map<string, Player>,
                              playersInRole: seq<string>, g: real, b: real)
    requires AllKnown(playersInRole, allPlayers)
    ensures var raw := RawWeights(playersInRole, allPlayers, role, IdealMmr(team, g));
            var probs := Probabilities(team, role, allPlayers, playersInRole, g, b);
      |raw| > 0 ==> && Total(raw) > 0.0
                    && probs == Blend(raw, Slope(Total(raw), b), Floor(b, |raw|))
                    && Total(probs) == 1.0
  {
    var raw := RawWeights(playersInRole, allPlayers, role, IdealMmr(team, g));
    if |raw| > 0 {
      RawTotalPositive(playersInRole, allPlayers, role, IdealMmr(team, g));
      DistributeBlend(raw, b);
    }
  }

  lemma SlopeNonNegative(total: real, b: real)
    requires total > 0.0 && b <= 1.0
    ensures Slope(total, b) >= 0.0
  {
  }

  /** With a positive total, each entry is its weight mixed with the slope and floor. */
  lemma DistributeAt(raw: Distribution, b: real, i: nat)
    requires i < |raw| && Total(raw) > 0.0
    ensures Distribute(raw, b)[i] == (raw[i].0, Mix(raw[i].1, Slope(Total(raw), b), Floor(b, |raw|)))
  {
    DistributeBlend(raw, b);
  }

  lemma MixAtLeastFloor(w: real, slope: real, floor: real)
    requires w >= 0.0 && slope >= 0.0
    ensures Mix(w, slope, floor) >= floor
  {
  }

  /** For b in [0, 1], the floor b/N is a lower bound on every probability. */
  lemma DistributeFloor(raw: Distribution, b: real, i: nat)
    requires 0.0 <= b <= 1.0 && i < |raw|
    requires forall j :: 0 <= j < |raw| ==> raw[j].1 > 0.0
    ensures Distribute(raw, b)[i].1 >= Floor(b, |raw|)
  {
    TotalOfPositive(raw);
    DistributeAt(raw, b, i);
    SlopeNonNegative(Total(raw), b);
    MixAtLeastFloor(raw[i].1, Slope(Total(raw), b), Floor(b, |raw|));
  }

  /** Each candidate's probability is its weight times (1 - b) / total plus the
      floor b / N (ShareParts: the source's mmr_part + uniform_part), and for b in
      [0, 1] the floor is a lower bound on it. */
  lemma ProbabilityFloor(team: Team, role: string, allPlayers: map<string, Player>,
                         playersInRole: seq<string>, g: real, b: real, i: nat)
    requires AllKnown(playersInRole, allPlayers)
    requires 0.0 <= b <= 1.0
    requires i < |RawWeights(playersInRole, allPlayers, role, IdealMmr(team, g))|
    ensures var raw := RawWeights(playersInRole, allPlayers, role, IdealMmr(team, g));
            var probs := Probabilities(team, role, allPlayers, playersInRole, g, b);
      && |raw| == |probs| && probs[i].0 == raw[i].0 && Total(raw) > 0.0
      && probs[i].1 == Mix(raw[i].1, Slope(Total(raw), b), Floor(b, |raw|))
      && probs[i].1 >= Floor(b, |raw|)
  {
    var raw := RawWeights(playersInRole, allPlayers, role, IdealMmr(team, g));
    RawTotalPositive(playersInRole, allPlayers, role, IdealMmr(team, g));
    DistributeAt(raw, b, i);
    DistributeFloor(raw, b, i);
  }

  lemma MixMonotone(wi: real, wj: real, slope: real, floor: real)
    requires wi >= wj && slope >= 0.0
    ensures Mix(wi, slope, floor) >= Mix(wj, slope, floor)
  {
  }

  /** A larger weight never gets a smaller probability while b <= 1. */
  lemma DistributeMonotone(raw: Distribution, b: real, i: nat, j: nat)
    requires b <= 1.0 && i < |raw| && j < |raw| && raw[i].1 >= raw[j].1
    requires forall k :: 0 <= k < |raw| ==> raw[k].1 > 0.0
    ensures Distribute(raw, b)[i].1 >= Distribute(raw, b)[j].1
  {
    TotalOfPositive(raw);
    DistributeAt(raw, b, i);
    DistributeAt(raw, b, j);
    SlopeNonNegative(Total(raw), b);
    MixMonotone(raw[i].1, raw[j].1, Slope(Total(raw), b), Floor(b, |raw|));
  }

  lemma InverseAntitone(x: real, y: real)
    requires 0.0 < x <= y
    ensures 1.0 / x >= 1.0 / y
  {
    assert x / y <= 1.0;
    assert 1.0 / y == (x / y) * (1.0 / x);
  }

  /** With equal factors, a candidate whose rating is at least as close to the
      ideal has at least as large a raw weight. */
  lemma CloserWeighsMore(mi: int, mj: int, ideal: real, f: real)
    requires f > 0.0
    requires Abs(mi as real - ideal) <= Abs(mj as real - ideal)
    ensures Weight(mi, ideal, f) >= Weight(mj, ideal, f)
  {
    var xi := Abs(mi as real - ideal) + 1.0;
    var xj := Abs(mj as real - ideal) + 1.0;
    InverseAntitone(xi, xj);
    assert (1.0 / xi) * f >= (1.0 / xj) * f;
  }

  /** With equal factors and b <= 1, a candidate whose rating is at least as close
      to the ideal gets at least as large a probability. */
  lemma CloserIsLikelier(team: Team, role: string, allPlayers: map<string, Player>,
                         playersInRole: seq<string>, g: real, b: real, i: nat, j: nat)
    requires AllKnown(playersInRole, allPlayers)
    requires b <= 1.0
    requires var raw := RawWeights(playersInRole, allPlayers, role, IdealMmr(team, g));
      var ideal := IdealMmr(team, g);
      && i < |raw| && j < |raw|
      && FactorOf(allPlayers, raw[i].0, role) == FactorOf(allPlayers, raw[j].0, role)
      && Abs(allPlayers[raw[i].0].mmr as real - ideal) <= Abs(allPlayers[raw[j].0].mmr as real - ideal)
    ensures var probs := Probabilities(team, role, allPlayers, playersInRole, g, b);
      i < |probs| && j < |probs| && probs[i].1 >= probs[j].1
  {
    var ideal := IdealMmr(team, g);
    var raw := RawWeights(playersInRole, allPlayers, role, ideal);
    RawTotalPositive(playersInRole, allPlayers, role, ideal);
    CloserWeighsMore(allPlayers[raw[i].0].mmr, allPlayers[raw[j].0].mmr, ideal, FactorOf(allPlayers, raw[i].0, role));
    DistributeMonotone(raw, b, i, j);
  }
}
