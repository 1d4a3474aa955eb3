// The draft engine: the known players, the pool of undrafted names per role,
// the teams with their rosters and averages, and the history the undo pops.

module DraftLogic {
  import opened Wrappers
  import opened DraftTypes
  import opened RoleGrammar
  import opened ProbabilityEngine
  import opened Lottery
  import opened Roster
  import opened Sorting
  import opened StateLoading

  /** The roles that have a display number; only these count as filled. */
  const NumberedRoles: set<string> := {"carry", "mid", "offlane", "soft_support", "hard_support"}

  /** The blend weight used for a roster size the configuration does not list. */
  const DefaultRandomness: real := 0.30

  /** The rating each remaining pick should have for the full team to average
      `globalAverageMmr`; 0 once the roster is full. */
  function IdealForPick(team: Team, teamSize: int, globalAverageMmr: real): (r: real)
    ensures |team.players| >= teamSize ==> r == 0.0
    ensures |team.players| < teamSize ==>
      r * (teamSize - |team.players|) as real + team.averageMmr * |team.players| as real
        == teamSize as real * globalAverageMmr
  {
    var currentN := |team.players|;
    if currentN >= teamSize then 0.0
    else
      var currentSum := team.averageMmr * currentN as real;
      var desiredTotal := teamSize as real * globalAverageMmr;
      var remaining := desiredTotal - currentSum;
      var picksLeft := teamSize - currentN;
      if picksLeft <= 0 then 0.0
      else
        QuotientTimesDivisor(remaining, picksLeft as real);
        remaining / picksLeft as real
  }

  lemma QuotientTimesDivisor(x: real, d: real)
    requires d != 0.0
    ensures (x / d) * d == x
  {
  }

  /** With a consistent average, picking the ideal rating for every open slot
      brings the team's rating total to team size times the target average. */
  lemma IdealCompletesTeam(team: Team, allPlayers: map<string, Player>, teamSize: int, g: real)
    requires Consistent(team, allPlayers) && |team.players| < teamSize
    ensures IdealForPick(team, teamSize, g) * (teamSize - |team.players|) as real
            + MmrSum(team.players, allPlayers) as real == teamSize as real * g
  {
    MeanTimesCount(MmrSum(team.players, allPlayers) as real, |team.players| as real);
  }

  /** On the last open slot the ideal of the MMR display and the ideal that
      compute_probabilities aims at are the same number. */
  lemma IdealsAgreeOnLastPick(team: Team, g: real)
    ensures IdealForPick(team, |team.players| + 1, g) == IdealMmr(team, g)
  {
  }

  /** Each pool sorted by rating, highest first, ties in pool order. */
  function SortedPools(pools: Pools, allPlayers: map<string, Player>): (r: Pools)
    requires forall role :: role in pools ==> AllKnown(pools[role], allPlayers)
    ensures r.Keys == pools.Keys
    ensures forall role :: role in r ==> AllKnown(r[role], allPlayers) && r[role] == SortByMmr(pools[role], allPlayers)
  {
    map role | role in pools :: SortByMmr(pools[role], allPlayers)
  }

  /** Every sorted pool is ordered by rating, holds the pool's names, and lists
      equally rated names in pool order. */
  lemma SortedPoolsOrdered(pools: Pools, allPlayers: map<string, Player>)
    requires forall role :: role in pools ==> AllKnown(pools[role], allPlayers)
    ensures var r := SortedPools(pools, allPlayers);
      forall role :: role in r ==>
        && ByMmrDescending(r[role], allPlayers)
        && multiset(r[role]) == multiset(pools[role])
        && forall mmr :: WithMmr(r[role], allPlayers, mmr) == WithMmr(pools[role], allPlayers, mmr)
  {
    forall role | role in pools
      ensures && ByMmrDescending(SortByMmr(pools[role], allPlayers), allPlayers)
              && multiset(SortByMmr(pools[role], allPlayers)) == multiset(pools[role])
              && forall mmr :: WithMmr(SortByMmr(pools[role], allPlayers), allPlayers, mmr)
                               == WithMmr(pools[role], allPlayers, mmr)
    {
      SortByMmrSorted(pools[role], allPlayers);
    }
  }

  /** The numbered roles the roster already has someone in. */
  function FilledRoles(players: seq<RosterEntry>): set<string>
  {
    set i | 0 <= i < |players| && players[i].role in NumberedRoles :: players[i].role
  }

  /** A pick followed by its undo: the history and the teams are as before and
      every pool holds the same names (their order within a pool aside),
      provided the player sat once in the pool of each role their role list
      names and in no other pool, and was not yet on the roster in that role. */
  lemma UndoReversesPick(pools: Pools, teams: map<string, Team>, history: seq<DraftEvent>,
                         allPlayers: map<string, Player>, teamId: string, p: string, role: string)
    requires teamId in teams && Consistent(teams[teamId], allPlayers) && p in allPlayers
    requires RosterEntry(p, role) !in teams[teamId].players
    requires forall r :: CountRole(allPlayers[p].roles, r) > 0 ==> r in pools
    requires forall r :: r in pools ==> multiset(pools[r])[p] == CountRole(allPlayers[p].roles, r) <= 1
    ensures var pickedTeams := teams[teamId := Joined(teams[teamId], RosterEntry(p, role), allPlayers)];
      var pickedHistory := history + [DraftEvent(teamId, p, role)];
      var last := pickedHistory[|pickedHistory| - 1];
      var undonePools := Restore(RemovedEverywhere(pools, p), allPlayers[last.playerName].roles, last.playerName);
      && pickedHistory[..|pickedHistory| - 1] == history
      && pickedTeams[last.teamId := Withdrawn(pickedTeams[last.teamId], RosterEntry(last.playerName, last.role), allPlayers)] == teams
      && undonePools.Keys == pools.Keys
      && forall r :: r in pools ==> multiset(undonePools[r]) == multiset(pools[r])
  {
    WithdrawJoined(teams[teamId], RosterEntry(p, role), allPlayers);
    PoolsRestored(pools, allPlayers[p].roles, p);
  }

  /** No drafted name is left in any pool. */
  predicate Exclusive(pools: Pools, teams: map<string, Team>)
  {
    forall role, t, i :: role in pools && t in teams && 0 <= i < |teams[t].players| ==>
      teams[t].players[i].player !in pools[role]
  }

  /** A pick of a player that sits at most once in each pool leaves them in no
      pool and at the end of the team's roster, and so keeps every drafted name
      out of the pools. */
  lemma PickKeepsExclusive(pools: Pools, teams: map<string, Team>, allPlayers: map<string, Player>,
                           teamId: string, p: string, role: string)
    requires teamId in teams && RosterKnown(teams[teamId].players, allPlayers) && p in allPlayers
    requires forall r :: r in pools ==> multiset(pools[r])[p] <= 1
    requires Exclusive(pools, teams)
    ensures var after := RemovedEverywhere(pools, p);
      forall r :: r in after ==> p !in after[r]
    ensures var team := Joined(teams[teamId], RosterEntry(p, role), allPlayers);
      team.players[|team.players| - 1] == RosterEntry(p, role)
    ensures Exclusive(RemovedEverywhere(pools, p), teams[teamId := Joined(teams[teamId], RosterEntry(p, role), allPlayers)])
  {
    var after := RemovedEverywhere(pools, p);
    var picked := teams[teamId := Joined(teams[teamId], RosterEntry(p, role), allPlayers)];
    forall r | r in after
      ensures p !in after[r]
    {
      LeavesPool(pools, p, p, r);
    }
    forall r, t, i | r in after && t in picked && 0 <= i < |picked[t].players|
      ensures picked[t].players[i].player !in after[r]
    {
      var q := picked[t].players[i].player;
      if q != p {
        if t == teamId {
          assert picked[t].players[i] == teams[t].players[i];
        }
        LeavesPool(pools, p, q, r);
      }
    }
  }

  /** After `p` leaves every pool, a name is out of a pool when it was out of it
      before, or when it is `p` and sat there at most once. */
  lemma LeavesPool(pools: Pools, p: string, q: string, r: string)
    requires r in pools
    requires q !in pools[r] || (q == p && multiset(pools[r])[p] <= 1)
    ensures q !in RemovedEverywhere(pools, p)[r]
  {
    RemoveFirstMultiset(pools[r], p);
  }

  // ---- pool and drafted averages ---------------------------------------------

  /** The names on any roster. */
  function DraftedNames(teams: map<string, Team>): set<string>
  {
    set t, i | t in teams && 0 <= i < |teams[t].players| :: teams[t].players[i].player
  }

  /** Some element of a non-empty set; the sums below all take the same one. */
  ghost function AnyOf(names: set<string>): (x: string)
    requires names != {}
    ensures x in names
  {
    var x :| x in names; x
  }

  /** The sum of the ratings of a set of known names. */
  ghost function SetMmrSum(names: set<string>, allPlayers: map<string, Player>): int
    requires names <= allPlayers.Keys
    decreases names
  {
    if names == {} then 0
    else var p := AnyOf(names); allPlayers[p].mmr + SetMmrSum(names - {p}, allPlayers)
  }

  /** The known players on no roster. */
  function Undrafted(allPlayers: map<string, Player>, teams: map<string, Team>): (r: set<string>)
    ensures r <= allPlayers.Keys
    ensures forall p :: p in r <==> p in allPlayers && p !in DraftedNames(teams)
  {
    allPlayers.Keys - DraftedNames(teams)
  }

  /** `get_pool_average_mmr`: the mean rating of the undrafted players, 0 when there are none. */
  ghost function PoolAverage(allPlayers: map<string, Player>, teams: map<string, Team>): real
  {
    var undrafted := Undrafted(allPlayers, teams);
    if undrafted == {} then 0.0 else SetMmrSum(undrafted, allPlayers) as real / |undrafted| as real
  }

  /** A set's rating sum lies between its size times any lower and any upper bound. */
  lemma {:induction false} SetMmrSumBounds(names: set<string>, allPlayers: map<string, Player>, lo: int, hi: int)
    requires names <= allPlayers.Keys
    requires forall p :: p in names ==> lo <= allPlayers[p].mmr <= hi
    ensures lo * |names| <= SetMmrSum(names, allPlayers) <= hi * |names|
    decreases names
  {
    if names != {} {
      var p := AnyOf(names);
      SetMmrSumBounds(names - {p}, allPlayers, lo, hi);
      var m := |names - {p}|;
      assert |names| == m + 1;
      MulSucc(lo, m);
      MulSucc(hi, m);
    }
  }

  lemma MulSucc(a: int, m: int)
    ensures a * (m + 1) == a * m + a
  {
  }

  /** The pool average lies between the lowest and the highest undrafted rating. */
  lemma PoolAverageBounds(allPlayers: map<string, Player>, teams: map<string, Team>, lo: int, hi: int)
    requires Undrafted(allPlayers, teams) != {}
    requires forall p :: p in Undrafted(allPlayers, teams) ==> lo <= allPlayers[p].mmr <= hi
    ensures lo as real <= PoolAverage(allPlayers, teams) <= hi as real
  {
    var undrafted := Undrafted(allPlayers, teams);
    SetMmrSumBounds(undrafted, allPlayers, lo, hi);
    MeanBetween(SetMmrSum(undrafted, allPlayers), |undrafted|, lo, hi);
  }

  /** An integer sum between n times two bounds has its real mean between them. */
  lemma MeanBetween(s: int, n: int, lo: int, hi: int)
    requires n > 0 && lo * n <= s <= hi * n
    ensures lo as real <= s as real / n as real <= hi as real
  {
    assert (lo * n) as real == lo as real * n as real;
    assert (hi * n) as real == hi as real * n as real;
  }

  /** The rosters' rating sum over some team ids. */
  ghost function DraftedSum(teams: map<string, Team>, ids: set<string>, allPlayers: map<string, Player>): int
    requires ids <= teams.Keys
    requires forall t :: t in ids ==> RosterKnown(teams[t].players, allPlayers)
    decreases ids
  {
    if ids == {} then 0
    else var t := AnyOf(ids); MmrSum(teams[t].players, allPlayers) + DraftedSum(teams, ids - {t}, allPlayers)
  }

  /** The number of roster entries over some team ids, a player on two rosters counted twice. */
  ghost function DraftedCount(teams: map<string, Team>, ids: set<string>): nat
    requires ids <= teams.Keys
    decreases ids
  {
    if ids == {} then 0
    else var t := AnyOf(ids); |teams[t].players| + DraftedCount(teams, ids - {t})
  }

  /** The stored team averages over some team ids, each weighted by its roster size. */
  ghost function WeightedAverages(teams: map<string, Team>, ids: set<string>): real
    requires ids <= teams.Keys
    decreases ids
  {
    if ids == {} then 0.0
    else var t := AnyOf(ids); teams[t].averageMmr * |teams[t].players| as real + WeightedAverages(teams, ids - {t})
  }

  /** `get_drafted_average_mmr`: the mean rating over all roster entries, 0 when there are none. */
  ghost function DraftedAverage(teams: map<string, Team>, allPlayers: map<string, Player>): real
    requires forall t :: t in teams ==> RosterKnown(teams[t].players, allPlayers)
  {
    var count := DraftedCount(teams, teams.Keys);
    if count == 0 then 0.0 else DraftedSum(teams, teams.Keys, allPlayers) as real / count as real
  }

  /** With consistent averages, the weighted team averages add up to the rosters' rating sum. */
  lemma {:induction false} WeightedAveragesSum(teams: map<string, Team>, ids: set<string>, allPlayers: map<string, Player>)
    requires ids <= teams.Keys
    requires forall t :: t in ids ==> RosterKnown(teams[t].players, allPlayers)
    requires forall t :: t in ids ==> Consistent(teams[t], allPlayers)
    ensures WeightedAverages(teams, ids) == DraftedSum(teams, ids, allPlayers) as real
    decreases ids
  {
    if ids != {} {
      var t := AnyOf(ids);
      WeightedAveragesSum(teams, ids - {t}, allPlayers);
      MeanTimesCount(MmrSum(teams[t].players, allPlayers) as real, |teams[t].players| as real);
    }
  }

  /** Rosters without entries add up to no rating. */
  lemma {:induction false} DraftedSumNoEntries(teams: map<string, Team>, ids: set<string>, allPlayers: map<string, Player>)
    requires ids <= teams.Keys
    requires forall t :: t in ids ==> RosterKnown(teams[t].players, allPlayers)
    ensures DraftedCount(teams, ids) == 0 ==> DraftedSum(teams, ids, allPlayers) == 0
    decreases ids
  {
    if ids != {} {
      var t := AnyOf(ids);
      DraftedSumNoEntries(teams, ids - {t}, allPlayers);
    }
  }

  /** The drafted average is the mean of the team averages weighted by roster size. */
  lemma DraftedAverageWeighted(teams: map<string, Team>, allPlayers: map<string, Player>)
    requires forall t :: t in teams ==> RosterKnown(teams[t].players, allPlayers)
    requires forall t :: t in teams ==> Consistent(teams[t], allPlayers)
    ensures DraftedAverage(teams, allPlayers) * DraftedCount(teams, teams.Keys) as real
            == WeightedAverages(teams, teams.Keys)
  {
    WeightedAveragesSum(teams, teams.Keys, allPlayers);
    DraftedSumNoEntries(teams, teams.Keys, allPlayers);
    MeanTimesCount(DraftedSum(teams, teams.Keys, allPlayers) as real, DraftedCount(teams, teams.Keys) as real);
  }

  // ---- the call into the probability engine, as written --------------------

  /** What a Python call produces: a returned dict, or the TypeError raised when
      a keyword argument names no parameter of the callee. */
  datatype CallOutcome = Returned(probs: Distribution) | TypeError

  /** The parameters compute_probabilities declares. */
  const EngineParameters: seq<string> :=
    ["team_data", "role", "all_players", "players_in_role", "global_average_mmr", "base_randomness"]

  /** The keyword arguments the draft passes to it. */
  const PassedKeywords: seq<string> :=
    ["team_data", "role", "all_players", "players_in_role", "global_average_mmr", "base_randomness",
     "team_size", "role_preference_weights", "logistic_midpoint", "logistic_slope", "blend_alpha"]

  /** Python binds a keyword call only when every keyword is a parameter. */
  predicate BindsKeywords(parameters: seq<string>, keywords: seq<string>)
  {
    forall i :: 0 <= i < |keywords| ==> keywords[i] in parameters
  }

  /** The draft's compute_probabilities, calling the engine with the given
      keyword arguments: the guards return an empty dict, and past them the call
      raises TypeError unless every keyword is a parameter. The configuration
      is taken to hold the subscripted keys the extended keywords read. With the keywords the
      source passes it always raises; with exactly the engine's parameters it
      returns the engine's distribution. */
  function ComputeProbabilitiesAsWritten(teams: map<string, Team>, pools: Pools, allPlayers: map<string, Player>,
                                         globalAverageMmr: real, randomnessLevels: map<int, real>,
                                         teamId: string, role: string, keywords: seq<string>): (r: CallOutcome)
    requires forall role :: role in pools ==> AllKnown(pools[role], allPlayers)
    ensures teamId !in teams || role !in pools || pools[role] == [] ==> r == Returned([])
    ensures keywords == PassedKeywords ==>
      (r == TypeError <==> teamId in teams && role in pools && pools[role] != [])
    ensures keywords == EngineParameters && teamId in teams && role in pools && pools[role] != [] ==>
      var n := |teams[teamId].players|;
      r == Returned(Probabilities(teams[teamId], role, allPlayers, pools[role], globalAverageMmr,
                                  if n in randomnessLevels then randomnessLevels[n] else DefaultRandomness))
  {
    assert PassedKeywords[6] !in EngineParameters;
    if teamId !in teams || role !in pools || pools[role] == [] then Returned([])
    else if !BindsKeywords(EngineParameters, keywords) then TypeError
    else
      var n := |teams[teamId].players|;
      var b := if n in randomnessLevels then randomnessLevels[n] else DefaultRandomness;
      Returned(Probabilities(teams[teamId], role, allPlayers, pools[role], globalAverageMmr, b))
  }

  /** A first pick from a one-player pool: the call as written raises, while the
      same call with only the engine's parameters returns a distribution. */
  lemma AsWrittenRaisesOnFirstPick()
    ensures var teams := map["radiant" := Team([], 0.0)];
            var allPlayers := map["anna" := Player(3000, [RolePriority("mid", 1)])];
            var pools := map["mid" := ["anna"]];
      && ComputeProbabilitiesAsWritten(teams, pools, allPlayers, 3000.0, map[], "radiant", "mid", PassedKeywords) == TypeError
      && ComputeProbabilitiesAsWritten(teams, pools, allPlayers, 3000.0, map[], "radiant", "mid", EngineParameters) != Returned([])
  {
    var allPlayers := map["anna" := Player(3000, [RolePriority("mid", 1)])];
    RolePreferenceFactorFirst(allPlayers["anna"].roles, "mid");
    assert Ranks(allPlayers["anna"].roles[0], "mid");
    ProbabilitiesEmpty(Team([], 0.0), "mid", allPlayers, ["anna"], 3000.0, DefaultRandomness);
  }

  /** The teams `register_team` leaves when called for each id in order on no teams. */
  function EmptyTeams(ids: seq<string>): (r: map<string, Team>)
    ensures forall t :: t in r <==> t in ids
    ensures forall t :: t in r ==> r[t] == Team([], 0.0)
  {
    if |ids| == 0 then map[] else Registered(EmptyTeams(ids[..|ids| - 1]), ids[|ids| - 1])
  }

  class DraftState {
    const globalAverageMmr: real
    /** The `team_size` setting. */
    const teamSize: int
    /** The blend weight per roster size. */
    const randomnessLevels: map<int, real>

    var allPlayers: map<string, Player>
    var playersByRole: Pools
    var teams: map<string, Team>
    var draftHistory: seq<DraftEvent>

    /** Every roster, pool and history name is a known player, every history
        team exists, and every team's average is its roster's mean rating. */
    predicate Valid()
      reads this
    {
      && (forall t :: t in teams ==> Consistent(teams[t], allPlayers))
      && (forall i :: 0 <= i < |draftHistory| ==>
            draftHistory[i].teamId in teams && draftHistory[i].playerName in allPlayers)
      && (forall role :: role in playersByRole ==> AllKnown(playersByRole[role], allPlayers))
    }

    /** The state after construction: an empty pool per configured role, the
        rows of the player file read into it (none when the file is missing),
        then the configured teams, all empty. */
    constructor(globalAverageMmr: real, teamSize: int, randomnessLevels: map<int, real>,
                roles: seq<string>, playerRows: seq<RemainingRow>, defaultTeams: seq<string>)
      ensures Valid()
      ensures this.globalAverageMmr == globalAverageMmr && this.teamSize == teamSize
      ensures this.randomnessLevels == randomnessLevels
      ensures var read := ReadRemaining(Snapshot(map[], map role | role in roles :: [], map[]), playerRows);
        allPlayers == read.allPlayers && playersByRole == read.pools
      ensures draftHistory == []
      ensures teams == map t | t in defaultTeams :: Team([], 0.0)
    {
      this.globalAverageMmr := globalAverageMmr;
      this.teamSize := teamSize;
      this.randomnessLevels := randomnessLevels;
      playersByRole := map role | role in roles :: [];
      allPlayers := map[];
      teams := map[];
      draftHistory := [];
      new;
      ReadRemainingRows(playerRows);
      RegisterDefaultTeams(defaultTeams);
    }

    /** The constructor's loop over the configured team ids. */
    method RegisterDefaultTeams(ids: seq<string>)
      modifies this
      requires Valid() && teams == map[] && draftHistory == []
      ensures Valid()
      ensures allPlayers == old(allPlayers) && playersByRole == old(playersByRole) && draftHistory == []
      ensures teams == map t | t in ids :: Team([], 0.0)
    {
      for i := 0 to |ids|
        invariant Valid()
        invariant teams == EmptyTeams(ids[..i])
        invariant allPlayers == old(allPlayers) && playersByRole == old(playersByRole) && draftHistory == []
      {
        assert ids[..i + 1][..i] == ids[..i];
        RegisterTeam(ids[i]);
      }
      assert ids[..|ids|] == ids;
    }

    /** Adds an empty team unless the id is taken; an existing team is never replaced. */
    method RegisterTeam(teamId: string)
      modifies this
      ensures teams == Registered(old(teams), teamId)
      ensures allPlayers == old(allPlayers) && playersByRole == old(playersByRole)
      ensures draftHistory == old(draftHistory)
      ensures old(Valid()) ==> Valid()
    {
      if teamId !in teams {
        teams := teams[teamId := Team([], 0.0)];
      }
    }

    /** Drops one occurrence of `p` from every pool that holds it. */
    method RemovePlayer(p: string)
      modifies this
      ensures playersByRole == RemovedEverywhere(old(playersByRole), p)
      ensures allPlayers == old(allPlayers) && teams == old(teams) && draftHistory == old(draftHistory)
      ensures old(Valid()) ==> Valid()
    {
      ghost var before := playersByRole;
      var pending := playersByRole.Keys;
      while pending != {}
        invariant pending <= before.Keys && playersByRole.Keys == before.Keys
        invariant forall role :: role in before ==>
          playersByRole[role] == if role in pending then before[role] else RemoveFirst(before[role], p)
        invariant allPlayers == old(allPlayers) && teams == old(teams) && draftHistory == old(draftHistory)
        decreases pending
      {
        var role :| role in pending;
        var rlist := playersByRole[role];
        if p in rlist {
          playersByRole := playersByRole[role := RemoveFirst(rlist, p)];
        }
        pending := pending - {role};
      }
      assert playersByRole == RemovedEverywhere(before, p);
      if old(Valid()) {
        RemovedKnown(before, p, allPlayers);
      }
    }

    /** Appends `(pname, role)` to the roster and recomputes the team's average. */
    method AssignToTeam(teamId: string, pname: string, role: string)
      modifies this
      requires Valid() && teamId in teams && pname in allPlayers
      ensures Valid()
      ensures allPlayers == old(allPlayers) && playersByRole == old(playersByRole)
      ensures draftHistory == old(draftHistory)
      ensures teams == old(teams)[teamId := Joined(old(teams)[teamId], RosterEntry(pname, role), allPlayers)]
    {
      var tdata := teams[teamId];
      var players := tdata.players + [RosterEntry(pname, role)];
      var mmrSum := MmrSum(players, allPlayers);
      teams := teams[teamId := Team(players, mmrSum as real / |players| as real)];
    }

    /** The player whose segment holds the position joins the team in `role`:
        they leave every pool once, join the roster and are recorded for undo.
        A position no segment holds (the last segment's end included) picks no
        one and changes nothing. */
    method PickPlayerFromPosition(teamId: string, role: string, positionPct: real, segments: seq<Segment>)
      returns (picked: Option<string>)
      modifies this
      requires Valid()
      requires Winner(segments, positionPct).Some? ==>
        teamId in teams && Winner(segments, positionPct).value in allPlayers
      ensures Valid()
      ensures allPlayers == old(allPlayers)
      ensures picked == Winner(segments, positionPct)
      ensures picked.None? ==> unchanged(this)
      ensures picked.Some? ==>
        && playersByRole == RemovedEverywhere(old(playersByRole), picked.value)
        && teams == old(teams)[teamId := Joined(old(teams)[teamId], RosterEntry(picked.value, role), allPlayers)]
        && draftHistory == old(draftHistory) + [DraftEvent(teamId, picked.value, role)]
    {
      picked := SelectWinner(segments, positionPct);
      if picked.Some? {
        var p := picked.value;
        RemovePlayer(p);
        AssignToTeam(teamId, p, role);
        draftHistory := draftHistory + [DraftEvent(teamId, p, role)];
      }
    }

    /** Appends `pname` to the pool of every role in `roles`, in order,
        creating a pool that is missing. */
    method RestoreToPools(roles: seq<RolePriority>, pname: string)
      modifies this
      ensures playersByRole == Restore(old(playersByRole), roles, pname)
      ensures allPlayers == old(allPlayers) && teams == old(teams) && draftHistory == old(draftHistory)
    {
      for i := 0 to |roles|
        invariant playersByRole == Restore(old(playersByRole), roles[..i], pname)
        invariant allPlayers == old(allPlayers) && teams == old(teams) && draftHistory == old(draftHistory)
      {
        assert roles[..i + 1][..i] == roles[..i];
        var rname := roles[i].role;
        if rname !in playersByRole {
          playersByRole := playersByRole[rname := []];
        }
        playersByRole := playersByRole[rname := playersByRole[rname] + [pname]];
      }
      assert roles[..|roles|] == roles;
    }

    /** Pops the last history entry: its first matching roster entry leaves the
        team, the average is recomputed, and the player returns to the pool of
        every role their role list names. With no history nothing changes. */
    method UndoLastPick() returns (undone: Option<string>)
      modifies this
      requires Valid()
      ensures Valid()
      ensures allPlayers == old(allPlayers)
      ensures old(draftHistory) == [] ==> undone == None && unchanged(this)
      ensures old(draftHistory) != [] ==>
        var last := old(draftHistory)[|old(draftHistory)| - 1];
        && undone == Some(last.playerName)
        && draftHistory == old(draftHistory)[..|old(draftHistory)| - 1]
        && teams == old(teams)[last.teamId := Withdrawn(old(teams)[last.teamId], RosterEntry(last.playerName, last.role), allPlayers)]
        && playersByRole == Restore(old(playersByRole), allPlayers[last.playerName].roles, last.playerName)
    {
      if draftHistory == [] {
        return None;
      }
      var last := draftHistory[|draftHistory| - 1];
      draftHistory := draftHistory[..|draftHistory| - 1];
      var tid, pname, role := last.teamId, last.playerName, last.role;

      var players := teams[tid].players;
      var entry := RosterEntry(pname, role);
      if entry in players {
        players := RemoveFirst(players, entry);
      }
      assert forall i :: 0 <= i < |players| ==> players[i] in teams[tid].players;
      var average := if players != [] then MmrSum(players, allPlayers) as real / |players| as real else 0.0;
      teams := teams[tid := Team(players, average)];

      RestoreToPools(allPlayers[pname].roles, pname);
      forall r | r in playersByRole
        ensures AllKnown(playersByRole[r], allPlayers)
      {
        assert forall i :: 0 <= i < |playersByRole[r]| ==> playersByRole[r][i] in playersByRole[r];
      }
      return Some(pname);
    }

    /** Adds the captain to the team (registered first when missing) under the
        captain marker; an unknown captain becomes a player with the given
        rating and no roles. No pool changes; the add is recorded for undo. */
    method AddCaptainToTeam(teamId: string, captainName: string, captainMmr: int)
      modifies this
      requires Valid()
      ensures Valid()
      ensures allPlayers == if captainName in old(allPlayers) then old(allPlayers)
                            else old(allPlayers)[captainName := Player(captainMmr, [])]
      ensures teamId in Registered(old(teams), teamId)
      ensures RosterKnown(Registered(old(teams), teamId)[teamId].players, allPlayers)
      ensures teams == Registered(old(teams), teamId)[teamId :=
        Joined(Registered(old(teams), teamId)[teamId], RosterEntry(captainName, Captain), allPlayers)]
      ensures playersByRole == old(playersByRole)
      ensures draftHistory == old(draftHistory) + [DraftEvent(teamId, captainName, Captain)]
    {
      if teamId !in teams {
        RegisterTeam(teamId);
      }
      if captainName !in allPlayers {
        LearnPlayer(captainName, Player(captainMmr, []));
      }
      AssignToTeam(teamId, captainName, Captain);
      draftHistory := draftHistory + [DraftEvent(teamId, captainName, Captain)];
    }

    /** A player not known so far is added; every stored average stays correct. */
    method LearnPlayer(name: string, info: Player)
      modifies this
      requires Valid() && name !in allPlayers
      ensures Valid()
      ensures allPlayers == old(allPlayers)[name := info]
      ensures playersByRole == old(playersByRole) && teams == old(teams) && draftHistory == old(draftHistory)
    {
      forall t | t in teams
        ensures Consistent(teams[t], allPlayers[name := info])
      {
        ConsistentGrow(teams[t], allPlayers, name, info);
      }
      allPlayers := allPlayers[name := info];
    }

    /** `get_ideal_mmr_for_pick` (its role argument is unused). */
    function GetIdealMmrForPick(teamId: string): (r: real)
      reads this
      requires teamId in teams
      ensures r == IdealForPick(teams[teamId], teamSize, globalAverageMmr)
    {
      IdealForPick(teams[teamId], teamSize, globalAverageMmr)
    }

    /** The blend weight for a roster of n players. */
    function BaseRandomness(n: int): real
      reads this
    {
      if n in randomnessLevels then randomnessLevels[n] else DefaultRandomness
    }

    /** No distribution for an unknown team, an unknown role or an empty pool;
        otherwise the pool's distribution, with the blend weight looked up by
        the roster size. */
    method ComputeProbabilities(teamId: string, role: string) returns (probs: Distribution)
      requires Valid()
      ensures teamId !in teams || role !in playersByRole || playersByRole[role] == [] ==> probs == []
      ensures teamId in teams && role in playersByRole && playersByRole[role] != [] ==>
        probs == Probabilities(teams[teamId], role, allPlayers, playersByRole[role], globalAverageMmr,
                               BaseRandomness(|teams[teamId].players|))
      ensures forall k :: HasKey(probs, k) ==>
        role in playersByRole && k in playersByRole[role] && k in allPlayers && FactorOf(allPlayers, k, role) > 0.0
      ensures probs != [] ==> Total(probs) == 1.0
    {
      if teamId !in teams || role !in playersByRole {
        return [];
      }
      var teamData := teams[teamId];
      var playersInRole := playersByRole[role];
      if playersInRole == [] {
        return [];
      }
      var n := |teamData.players|;
      var baseRand := BaseRandomness(n);
      probs := ProbabilityEngine.ComputeProbabilities(teamData, role, allPlayers, playersInRole, globalAverageMmr, baseRand);
      ProbabilitiesKeys(teamData, role, allPlayers, playersInRole, globalAverageMmr, baseRand);
      ProbabilitiesSumToOne(teamData, role, allPlayers, playersInRole, globalAverageMmr, baseRand);
    }

    /** The roles with a pool, numbered or not, that no numbered roster entry of
        the team fills, sorted; nothing for an unknown team. */
    method GetUnfilledRolesForTeam(teamId: string) returns (unfilled: seq<string>)
      ensures teamId !in teams ==> unfilled == []
      ensures teamId in teams ==>
        && Ascending(unfilled)
        && forall role :: role in unfilled <==> role in playersByRole && role !in FilledRoles(teams[teamId].players)
    {
      if teamId !in teams {
        return [];
      }
      var players := teams[teamId].players;
      var filled: set<string> := {};
      for i := 0 to |players|
        invariant filled == FilledRoles(players[..i])
      {
        assert players[..i + 1] == players[..i] + [players[i]];
        if players[i].role in NumberedRoles {
          filled := filled + {players[i].role};
        }
      }
      assert players[..|players|] == players;
      unfilled := SortedNames(playersByRole.Keys - filled);
    }

    /** Every pool sorted by rating, highest first (stable). */
    function GetPlayersByRole(): (r: Pools)
      reads this
      requires Valid()
      ensures r == SortedPools(playersByRole, allPlayers)
      ensures forall role :: role in r ==>
        && ByMmrDescending(r[role], allPlayers)
        && multiset(r[role]) == multiset(playersByRole[role])
        && forall mmr :: WithMmr(r[role], allPlayers, mmr) == WithMmr(playersByRole[role], allPlayers, mmr)
    {
      SortedPoolsOrdered(playersByRole, allPlayers);
      SortedPools(playersByRole, allPlayers)
    }
  
    /** `load_state` on the rows of the two files (`found` says whether both
        exist): with either missing nothing changes; otherwise every pool is
        emptied and the state rebuilt as Loaded describes, with no history. */
    method LoadState(found: bool, remaining: seq<RemainingRow>, teamRows: seq<TeamRow>)
      modifies this
      ensures !found ==> unchanged(this)
      ensures found ==>
        var r := Loaded(old(playersByRole), remaining, teamRows);
        && allPlayers == r.allPlayers && playersByRole == r.pools && teams == r.teams && draftHistory == []
      ensures found ==> Valid()
    {
      if !found {
        return;
      }
      ghost var loaded := Loaded(playersByRole, remaining, teamRows);
      allPlayers := map[];
      playersByRole := Emptied(playersByRole);
      teams := map[];
      draftHistory := [];
      assert Known(Snapshot(allPlayers, playersByRole, teams));
      ReadRemainingRows(remaining);
      var order, assignedData := GroupTeamRows(teamRows);
      GroupingSpec(teamRows);
      PlaceTeamRows(order, assignedData);
      RecomputeAverages();
      assert Snapshot(allPlayers, playersByRole, teams) == loaded;
    }

    /** The remaining-players rows: each player (re)defined and appended to the
        pool of each of its roles. */
    method ReadRemainingRows(remaining: seq<RemainingRow>)
      modifies this
      requires Known(Snapshot(allPlayers, playersByRole, teams))
      ensures Snapshot(allPlayers, playersByRole, teams)
              == ReadRemaining(old(Snapshot(allPlayers, playersByRole, teams)), remaining)
      ensures draftHistory == old(draftHistory)
    {
      ghost var start := Snapshot(allPlayers, playersByRole, teams);
      for i := 0 to |remaining|
        invariant Snapshot(allPlayers, playersByRole, teams) == ReadRemaining(start, remaining[..i])
        invariant draftHistory == old(draftHistory)
      {
        assert remaining[..i + 1][..i] == remaining[..i];
        var row := remaining[i];
        var parsed := ParseRolesWithPriority(row.roles);
        allPlayers := allPlayers[row.name := Player(row.mmr, parsed)];
        RestoreToPools(parsed, row.name);
      }
      assert remaining[..|remaining|] == remaining;
    }

    /** The team rows grouped by team id, ids in order of first appearance. */
    static method GroupTeamRows(teamRows: seq<TeamRow>) returns (order: seq<string>, groups: map<string, seq<TeamRow>>)
      ensures order == GroupOrder(teamRows) && groups == GroupRows(teamRows)
    {
      order := [];
      groups := map[];
      for i := 0 to |teamRows|
        invariant order == GroupOrder(teamRows[..i]) && groups == GroupRows(teamRows[..i])
      {
        GroupingSpec(teamRows[..i]);
        assert teamRows[..i + 1][..i] == teamRows[..i];
        var row := teamRows[i];
        if row.teamId !in groups {
          groups := groups[row.teamId := []];
          order := order + [row.teamId];
        }
        groups := groups[row.teamId := groups[row.teamId] + [row]];
      }
      assert teamRows[..|teamRows|] == teamRows;
    }

    /** Each group in order: the team registered, then its rows placed. */
    method PlaceTeamRows(order: seq<string>, groups: map<string, seq<TeamRow>>)
      modifies this
      requires Known(Snapshot(allPlayers, playersByRole, teams))
      requires forall t :: t in order ==> t in groups
      ensures Snapshot(allPlayers, playersByRole, teams)
              == PlaceGroups(old(Snapshot(allPlayers, playersByRole, teams)), order, groups)
      ensures draftHistory == old(draftHistory)
    {
      ghost var start := Snapshot(allPlayers, playersByRole, teams);
      for j := 0 to |order|
        invariant Snapshot(allPlayers, playersByRole, teams) == PlaceGroups(start, order[..j], groups)
        invariant draftHistory == old(draftHistory)
      {
        PlaceGroupsStep(start, order, groups, j);
        PlaceGroup(order[j], groups[order[j]]);
      }
      assert order[..|order|] == order;
    }

    /** One team of the teams file: registered, then its rows placed. */
    method PlaceGroup(tid: string, plist: seq<TeamRow>)
      modifies this
      requires Known(Snapshot(allPlayers, playersByRole, teams))
      ensures Snapshot(allPlayers, playersByRole, teams)
              == PlaceRows(Registering(old(Snapshot(allPlayers, playersByRole, teams)), tid), tid, plist)
      ensures draftHistory == old(draftHistory)
    {
      ghost var before := Snapshot(allPlayers, playersByRole, teams);
      RegisterTeam(tid);
      assert Snapshot(allPlayers, playersByRole, teams) == Registering(before, tid);
      PlaceGroupRows(tid, plist);
    }

    /** One group's rows: an unknown name becomes a player, the name leaves the
        pools once, and the entry joins the roster. */
    method PlaceGroupRows(tid: string, plist: seq<TeamRow>)
      modifies this
      requires Known(Snapshot(allPlayers, playersByRole, teams)) && tid in teams
      ensures Snapshot(allPlayers, playersByRole, teams)
              == PlaceRows(old(Snapshot(allPlayers, playersByRole, teams)), tid, plist)
      ensures draftHistory == old(draftHistory)
    {
      ghost var start := Snapshot(allPlayers, playersByRole, teams);
      for k := 0 to |plist|
        invariant Snapshot(allPlayers, playersByRole, teams) == PlaceRows(start, tid, plist[..k])
        invariant draftHistory == old(draftHistory)
      {
        assert plist[..k + 1][..k] == plist[..k];
        PlaceTeamRow(tid, plist[k]);
      }
      assert plist[..|plist|] == plist;
    }

    /** One row of the teams file: an unknown name is added with the row's
        rating, the name leaves the pools once, and the entry joins the roster. */
    method PlaceTeamRow(tid: string, row: TeamRow)
      modifies this
      requires Known(Snapshot(allPlayers, playersByRole, teams)) && tid in teams
      ensures Snapshot(allPlayers, playersByRole, teams)
              == PlaceRow(old(Snapshot(allPlayers, playersByRole, teams)), tid, row)
      ensures draftHistory == old(draftHistory)
    {
      if row.name !in allPlayers {
        allPlayers := allPlayers[row.name := Player(row.mmr, [])];
      }
      RemovePlayer(row.name);
      teams := teams[tid := Team(teams[tid].players + [RosterEntry(row.name, row.assignedRole)], teams[tid].averageMmr)];
    }

    /** Every team's average recomputed from its roster. */
    method RecomputeAverages()
      modifies this
      requires forall t :: t in teams ==> RosterKnown(teams[t].players, allPlayers)
      ensures allPlayers == old(allPlayers) && playersByRole == old(playersByRole)
      ensures teams == Averaged(old(teams), allPlayers)
      ensures draftHistory == old(draftHistory)
    {
      ghost var placed := teams;
      var pending := teams.Keys;
      while pending != {}
        invariant allPlayers == old(allPlayers) && playersByRole == old(playersByRole)
        invariant pending <= placed.Keys && teams.Keys == placed.Keys
        invariant forall t :: t in placed ==>
          teams[t] == if t in pending then placed[t] else Averaged(placed, allPlayers)[t]
        invariant draftHistory == old(draftHistory)
        decreases pending
      {
        var t :| t in pending;
        var data := teams[t];
        var average := if data.players != [] then MmrSum(data.players, allPlayers) as real / |data.players| as real else 0.0;
        teams := teams[t := Team(data.players, average)];
        pending := pending - {t};
      }
    }
  }
}
