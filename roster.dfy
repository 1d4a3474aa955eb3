// The values the draft state is made of, and what each of its updates does to
// them: role pools lose a drafted name and regain it on undo, rosters gain and
// lose one entry, and a team's average is the mean rating of its roster.

module Roster {
  import opened DraftTypes

  /** Role name to the ordered names still undrafted for it. */
  type Pools = map<string, seq<string>>

  // ---- list.remove -----------------------------------------------------------

  /** Python's `s.remove(x)` when `x in s`, and `s` itself otherwise: the first
      occurrence of `x` is dropped and the rest keep their order. */
  function RemoveFirst<T(==)>(s: seq<T>, x: T): (r: seq<T>)
    ensures x !in s ==> r == s
    ensures x in s ==> |r| == |s| - 1
    ensures forall y :: y in r ==> y in s
  {
    if |s| == 0 then []
    else if s[0] == x then s[1..]
    else [s[0]] + RemoveFirst(s[1..], x)
  }

  /** The position of the first occurrence of `x`: no earlier element is `x`. */
  function FirstIndex<T(==)>(s: seq<T>, x: T): (i: nat)
    requires x in s
    ensures i < |s| && s[i] == x && x !in s[..i]
  {
    if s[0] == x then 0
    else
      var i := FirstIndex(s[1..], x);
      assert s[..i + 1] == [s[0]] + s[1..][..i];
      1 + i
  }

  /** The dropped element is the first occurrence: the result is `s` with the
      first position holding `x` cut out. */
  lemma {:induction false} RemoveFirstCutsFirst<T>(s: seq<T>, x: T)
    requires x in s
    ensures RemoveFirst(s, x) == s[..FirstIndex(s, x)] + s[FirstIndex(s, x) + 1..]
  {
    if s[0] != x {
      RemoveFirstCutsFirst(s[1..], x);
      ShiftCut(s, FirstIndex(s[1..], x));
    }
  }

  /** Cutting position `i + 1` of `s` is cutting position `i` of its tail, with the head kept. */
  lemma ShiftCut<T>(s: seq<T>, i: nat)
    requires i + 1 < |s|
    ensures s[..i + 1] + s[i + 2..] == [s[0]] + (s[1..][..i] + s[1..][i + 1..])
  {
    assert s[..i + 1] == [s[0]] + s[1..][..i];
    assert s[i + 2..] == s[1..][i + 1..];
  }

  /** Exactly one copy of `x` leaves the multiset when there is one. */
  lemma {:induction false} RemoveFirstMultiset<T>(s: seq<T>, x: T)
    ensures multiset(RemoveFirst(s, x)) == multiset(s) - multiset{x}
  {
    if |s| > 0 {
      assert s == [s[0]] + s[1..];
      if s[0] != x {
        RemoveFirstMultiset(s[1..], x);
      }
    }
  }

  /** Removing an element just appended to a list that did not hold it gives the list back. */
  lemma {:induction false} RemoveFirstAppended<T>(s: seq<T>, x: T)
    requires x !in s
    ensures RemoveFirst(s + [x], x) == s
  {
    if |s| > 0 {
      assert (s + [x])[1..] == s[1..] + [x];
      RemoveFirstAppended(s[1..], x);
      assert s == [s[0]] + s[1..];
    }
  }

  // ---- role pools ------------------------------------------------------------

  function Pool(pools: Pools, role: string): seq<string>
  {
    if role in pools then pools[role] else []
  }

  /** `_remove_player`: one occurrence of `p` leaves every pool that holds it. */
  function RemovedEverywhere(pools: Pools, p: string): (r: Pools)
    ensures r.Keys == pools.Keys
  {
    map role | role in pools :: RemoveFirst(pools[role], p)
  }

  /** Each pool loses exactly one copy of `p` when it holds one, and nothing else. */
  lemma RemovedEverywhereMultiset(pools: Pools, p: string)
    ensures forall role :: role in pools ==>
      multiset(RemovedEverywhere(pools, p)[role]) == multiset(pools[role]) - multiset{p}
  {
    forall role | role in pools
      ensures multiset(RemovedEverywhere(pools, p)[role]) == multiset(pools[role]) - multiset{p}
    {
      RemoveFirstMultiset(pools[role], p);
    }
  }

  /** Removing a name from every pool leaves only known names in them. */
  lemma RemovedKnown(pools: Pools, p: string, allPlayers: map<string, Player>)
    requires forall role :: role in pools ==> AllKnown(pools[role], allPlayers)
    ensures forall role :: role in RemovedEverywhere(pools, p) ==> AllKnown(RemovedEverywhere(pools, p)[role], allPlayers)
  {
    forall role | role in pools
      ensures AllKnown(RemoveFirst(pools[role], p), allPlayers)
    {
      var rest := RemoveFirst(pools[role], p);
      assert forall i :: 0 <= i < |rest| ==> rest[i] in pools[role];
    }
  }

  /** The number of entries of a role list that name `role`. */
  function CountRole(roles: seq<RolePriority>, role: string): nat
  {
    if |roles| == 0 then 0
    else CountRole(roles[..|roles| - 1], role) + (if roles[|roles| - 1].role == role then 1 else 0)
  }

  function Repeat(p: string, n: nat): (r: seq<string>)
    ensures |r| == n && forall i :: 0 <= i < n ==> r[i] == p
  {
    if n == 0 then [] else Repeat(p, n - 1) + [p]
  }

  /** `p` appended, in list order, to the pool of each role in `roles`; a pool
      missing so far is created. */
  function Restore(pools: Pools, roles: seq<RolePriority>, p: string): (r: Pools)
    ensures forall role :: role in r ==> forall q :: q in r[role] ==> q in Pool(pools, role) || q == p
  {
    if |roles| == 0 then pools
    else
      var before := Restore(pools, roles[..|roles| - 1], p);
      var role := roles[|roles| - 1].role;
      before[role := Pool(before, role) + [p]]
  }

  /** The pools after restoring are the old ones plus the listed roles. */
  lemma {:induction false} RestoreKeys(pools: Pools, roles: seq<RolePriority>, p: string)
    ensures forall role :: role in Restore(pools, roles, p) <==> role in pools || CountRole(roles, role) > 0
  {
    if |roles| > 0 {
      RestoreKeys(pools, roles[..|roles| - 1], p);
    }
  }

  /** Each pool ends with as many copies of `p` as the list names its role, after
      what it held before. */
  lemma {:induction false} RestoreContents(pools: Pools, roles: seq<RolePriority>, p: string)
    ensures forall role :: Pool(Restore(pools, roles, p), role) == Pool(pools, role) + Repeat(p, CountRole(roles, role))
  {
    if |roles| > 0 {
      var prefix := roles[..|roles| - 1];
      RestoreContents(pools, prefix, p);
      forall role
        ensures Pool(Restore(pools, roles, p), role) == Pool(pools, role) + Repeat(p, CountRole(roles, role))
      {
        if role == roles[|roles| - 1].role {
          assert Repeat(p, CountRole(roles, role)) == Repeat(p, CountRole(prefix, role)) + [p];
        }
      }
    }
  }

  // ---- rosters and averages --------------------------------------------------

  predicate RosterKnown(players: seq<RosterEntry>, allPlayers: map<string, Player>)
  {
    forall i :: 0 <= i < |players| ==> players[i].player in allPlayers
  }

  /** The sum of the roster's ratings. */
  function MmrSum(players: seq<RosterEntry>, allPlayers: map<string, Player>): int
    requires RosterKnown(players, allPlayers)
  {
    if |players| == 0 then 0
    else MmrSum(players[..|players| - 1], allPlayers) + allPlayers[players[|players| - 1].player].mmr
  }

  /** The mean rating of the roster, 0 for an empty roster. */
  function RosterAverage(players: seq<RosterEntry>, allPlayers: map<string, Player>): real
    requires RosterKnown(players, allPlayers)
  {
    if |players| == 0 then 0.0 else MmrSum(players, allPlayers) as real / |players| as real
  }

  /** A team whose stored average is the mean rating of its roster. */
  predicate Consistent(team: Team, allPlayers: map<string, Player>)
  {
    RosterKnown(team.players, allPlayers) && team.averageMmr == RosterAverage(team.players, allPlayers)
  }

  /** Learning a new player changes no known roster's sum. */
  lemma {:induction false} MmrSumGrow(players: seq<RosterEntry>, allPlayers: map<string, Player>, name: string, info: Player)
    requires RosterKnown(players, allPlayers) && name !in allPlayers
    ensures RosterKnown(players, allPlayers[name := info])
    ensures MmrSum(players, allPlayers[name := info]) == MmrSum(players, allPlayers)
  {
    if |players| > 0 {
      MmrSumGrow(players[..|players| - 1], allPlayers, name, info);
    }
  }

  lemma ConsistentGrow(team: Team, allPlayers: map<string, Player>, name: string, info: Player)
    requires Consistent(team, allPlayers) && name !in allPlayers
    ensures Consistent(team, allPlayers[name := info])
  {
    MmrSumGrow(team.players, allPlayers, name, info);
  }

  /** `_assign_to_team` (and the captain-add): the entry is appended and the
      average recomputed over the new roster. */
  function Joined(team: Team, entry: RosterEntry, allPlayers: map<string, Player>): (r: Team)
    requires RosterKnown(team.players, allPlayers) && entry.player in allPlayers
    ensures Consistent(r, allPlayers)
  {
    var players := team.players + [entry];
    Team(players, RosterAverage(players, allPlayers))
  }

  /** The roster half of the undo: the first matching entry leaves and the
      average is recomputed, 0 once the roster is empty. */
  function Withdrawn(team: Team, entry: RosterEntry, allPlayers: map<string, Player>): (r: Team)
    requires RosterKnown(team.players, allPlayers)
    ensures Consistent(r, allPlayers)
  {
    var players := RemoveFirst(team.players, entry);
    assert forall i :: 0 <= i < |players| ==> players[i] in team.players;
    Team(players, RosterAverage(players, allPlayers))
  }

  /** A new team, or the existing one untouched. */
  function Registered(teams: map<string, Team>, teamId: string): (r: map<string, Team>)
  {
    if teamId in teams then teams else teams[teamId := Team([], 0.0)]
  }

  /** The average after appending: (old sum + the newcomer's rating) / (n + 1),
      stated through the old average when the team was consistent. */
  lemma JoinedAverage(team: Team, entry: RosterEntry, allPlayers: map<string, Player>)
    requires Consistent(team, allPlayers) && entry.player in allPlayers
    ensures var n := |team.players| as real;
      Joined(team, entry, allPlayers).averageMmr * (n + 1.0)
        == team.averageMmr * n + allPlayers[entry.player].mmr as real
  {
    var players := team.players + [entry];
    assert players[..|players| - 1] == team.players;
    var s := MmrSum(team.players, allPlayers) as real;
    var n := |team.players| as real;
    MeanTimesCount(s, n);
    MeanTimesCount(s + allPlayers[entry.player].mmr as real, n + 1.0);
  }

  /** Over the reals, a mean times the count gives the sum back (and 0 for no entries). */
  lemma MeanTimesCount(s: real, n: real)
    requires n >= 0.0 && (n == 0.0 ==> s == 0.0)
    ensures (if n == 0.0 then 0.0 else s / n) * n == s
  {
  }

  // ---- undo reverses a pick --------------------------------------------------

  /** Undoing a pick puts the roster back: the appended entry is the one removed
      (it was not on the roster before) and the average is the old one. */
  lemma {:induction false} WithdrawJoined(team: Team, entry: RosterEntry, allPlayers: map<string, Player>)
    requires Consistent(team, allPlayers) && entry.player in allPlayers
    requires entry !in team.players
    ensures Withdrawn(Joined(team, entry, allPlayers), entry, allPlayers) == team
  {
    RemoveFirstAppended(team.players, entry);
  }

  /** Undoing a pick puts the pools back, up to the order within each pool: when
      `p` sat once in the pool of each role its role list names (and in no other
      pool), removing it everywhere and restoring it by its role list leaves every
      pool with the same names. */
  lemma PoolsRestored(pools: Pools, roles: seq<RolePriority>, p: string)
    requires forall role :: CountRole(roles, role) > 0 ==> role in pools
    requires forall role :: role in pools ==> multiset(pools[role])[p] == CountRole(roles, role) <= 1
    ensures Restore(RemovedEverywhere(pools, p), roles, p).Keys == pools.Keys
    ensures forall role :: role in pools ==> multiset(Restore(RemovedEverywhere(pools, p), roles, p)[role]) == multiset(pools[role])
  {
    RestoreKeys(RemovedEverywhere(pools, p), roles, p);
    forall role | role in pools
      ensures multiset(Restore(RemovedEverywhere(pools, p), roles, p)[role]) == multiset(pools[role])
    {
      PoolRestored(pools, roles, p, role);
    }
  }

  /** One pool of PoolsRestored: `p` removed once and appended as often as the list names the role. */
  lemma PoolRestored(pools: Pools, roles: seq<RolePriority>, p: string, role: string)
    requires role in pools && multiset(pools[role])[p] == CountRole(roles, role) <= 1
    ensures role in Restore(RemovedEverywhere(pools, p), roles, p)
    ensures multiset(Restore(RemovedEverywhere(pools, p), roles, p)[role]) == multiset(pools[role])
  {
    var removed := RemovedEverywhere(pools, p);
    RestoreKeys(removed, roles, p);
    RestoreContents(removed, roles, p);
    PoolBack(pools[role], Restore(removed, roles, p)[role], p, CountRole(roles, role));
  }

  /** `p` removed once from a pool holding it `count` times, then appended `count` times. */
  lemma PoolBack(pool: seq<string>, back: seq<string>, p: string, count: nat)
    requires multiset(pool)[p] == count <= 1
    requires back == RemoveFirst(pool, p) + Repeat(p, count)
    ensures multiset(back) == multiset(pool)
  {
    RemoveFirstMultiset(pool, p);
    if count == 1 {
      assert Repeat(p, 1) == [p];
    } else {
      assert Repeat(p, 0) == [];
    }
  }
}
