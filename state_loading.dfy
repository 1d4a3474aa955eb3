// What load_state rebuilds from the rows of the two saved files: the players
// still in the pools with their parsed roles, then the teams, grouped by team
// id in order of first appearance, each drafted name taken out of the pools
// once, and finally every team's average.

module StateLoading {
  import opened DraftTypes
  import opened RoleGrammar
  import opened Roster

  /** A row of the remaining-players file, fields already stripped and the
      rating already read as an integer. */
  datatype RemainingRow = RemainingRow(name: string, mmr: int, roles: string)

  /** A row of the teams file, fields already stripped and the rating read. */
  datatype TeamRow = TeamRow(teamId: string, name: string, assignedRole: string, mmr: int)

  /** The three structures load_state refills. */
  datatype Snapshot = Snapshot(allPlayers: map<string, Player>, pools: Pools, teams: map<string, Team>)

  /** Every roster and pool name is a known player. */
  predicate Known(s: Snapshot)
  {
    && (forall t :: t in s.teams ==> RosterKnown(s.teams[t].players, s.allPlayers))
    && (forall role :: role in s.pools ==> AllKnown(s.pools[role], s.allPlayers))
  }

  /** The pools emptied, their roles kept. */
  function Emptied(pools: Pools): (r: Pools)
  {
    map role | role in pools :: []
  }

  // ---- the remaining-players file --------------------------------------------

  /** One row: the player (re)defined with its parsed roles and appended to the
      pool of each of them. */
  function ReadRemaining(s: Snapshot, rows: seq<RemainingRow>): (r: Snapshot)
    requires Known(s)
    ensures Known(r) && r.teams == s.teams
    ensures s.allPlayers.Keys <= r.allPlayers.Keys
  {
    if |rows| == 0 then s
    else
      var before := ReadRemaining(s, rows[..|rows| - 1]);
      var row := rows[|rows| - 1];
      var parsed := ParsedRoles(row.roles);
      var players := before.allPlayers[row.name := Player(row.mmr, parsed)];
      var pools := Restore(before.pools, parsed, row.name);
      assert forall t :: t in before.teams ==> RosterKnown(before.teams[t].players, players);
      assert forall role :: role in pools ==> AllKnown(pools[role], players) by {
        forall role | role in pools ensures AllKnown(pools[role], players) {
          assert forall i :: 0 <= i < |pools[role]| ==> pools[role][i] in pools[role];
        }
      }
      Snapshot(players, pools, before.teams)
  }

  // ---- the teams file: grouping ----------------------------------------------

  /** The team ids in order of first appearance. */
  function GroupOrder(rows: seq<TeamRow>): (order: seq<string>)
  {
    if |rows| == 0 then []
    else
      var before := GroupOrder(rows[..|rows| - 1]);
      var tid := rows[|rows| - 1].teamId;
      if tid in before then before else before + [tid]
  }

  /** The rows of one team id, in file order. */
  function RowsFor(rows: seq<TeamRow>, tid: string): seq<TeamRow>
  {
    if |rows| == 0 then []
    else RowsFor(rows[..|rows| - 1], tid) + (if rows[|rows| - 1].teamId == tid then [rows[|rows| - 1]] else [])
  }

  /** Team id to its rows. */
  function GroupRows(rows: seq<TeamRow>): map<string, seq<TeamRow>>
  {
    if |rows| == 0 then map[]
    else
      var before := GroupRows(rows[..|rows| - 1]);
      var row := rows[|rows| - 1];
      var group := if row.teamId in before then before[row.teamId] else [];
      before[row.teamId := group + [row]]
  }

  predicate Distinct(s: seq<string>)
  {
    forall i, j :: 0 <= i < j < |s| ==> s[i] != s[j]
  }

  /** The grouping lists every team id once, in order of first appearance, and
      each group holds exactly that team's rows in file order. */
  lemma {:induction false} GroupingSpec(rows: seq<TeamRow>)
    ensures Distinct(GroupOrder(rows))
    ensures forall t :: t in GroupOrder(rows) <==> t in GroupRows(rows)
    ensures forall t :: t in GroupRows(rows) <==> exists i :: 0 <= i < |rows| && rows[i].teamId == t
    ensures forall t :: t in GroupRows(rows) ==> GroupRows(rows)[t] == RowsFor(rows, t)
  {
    if |rows| > 0 {
      var prefix := rows[..|rows| - 1];
      GroupingSpec(prefix);
      var tid := rows[|rows| - 1].teamId;
      forall t ensures t in GroupRows(rows) <==> exists i :: 0 <= i < |rows| && rows[i].teamId == t {
        if t in GroupRows(prefix) {
          var i :| 0 <= i < |prefix| && prefix[i].teamId == t;
          assert rows[i].teamId == t;
        }
        if exists i :: 0 <= i < |rows| && rows[i].teamId == t {
          var i :| 0 <= i < |rows| && rows[i].teamId == t;
          if i < |prefix| {
            assert prefix[i].teamId == t;
          }
        }
      }
      forall t | t in GroupRows(rows) && t != tid ensures t in GroupRows(prefix) && RowsFor(prefix, t) == RowsFor(rows, t) {
      }
      if tid !in GroupRows(prefix) {
        RowsForAbsent(prefix, tid);
      }
    }
  }

  lemma {:induction false} RowsForAbsent(rows: seq<TeamRow>, tid: string)
    requires forall i :: 0 <= i < |rows| ==> rows[i].teamId != tid
    ensures RowsFor(rows, tid) == []
  {
    if |rows| > 0 {
      RowsForAbsent(rows[..|rows| - 1], tid);
    }
  }

  // ---- the teams file: placing the rows --------------------------------------

  /** One row of team `tid`: an unknown name becomes a player with the row's
      rating and no roles, one occurrence of the name leaves every pool, and the
      entry joins the roster (the average is left for the end). */
  function PlaceRow(s: Snapshot, tid: string, row: TeamRow): (r: Snapshot)
    requires Known(s) && tid in s.teams
    ensures Known(r) && r.teams.Keys == s.teams.Keys
    ensures s.allPlayers.Keys <= r.allPlayers.Keys
    ensures r.teams[tid].players == s.teams[tid].players + [RosterEntry(row.name, row.assignedRole)]
    ensures forall t :: t in s.teams && t != tid ==> r.teams[t] == s.teams[t]
  {
    var players := if row.name in s.allPlayers then s.allPlayers
                   else s.allPlayers[row.name := Player(row.mmr, [])];
    var pools := RemovedEverywhere(s.pools, row.name);
    RemovedKnown(s.pools, row.name, s.allPlayers);
    var team := s.teams[tid];
    var teams := s.teams[tid := Team(team.players + [RosterEntry(row.name, row.assignedRole)], team.averageMmr)];
    assert forall t :: t in s.teams ==> RosterKnown(s.teams[t].players, players);
    Snapshot(players, pools, teams)
  }

  /** The rows of team `tid`, placed in file order. */
  function PlaceRows(s: Snapshot, tid: string, rows: seq<TeamRow>): (r: Snapshot)
    requires Known(s) && tid in s.teams
    ensures Known(r) && r.teams.Keys == s.teams.Keys
    ensures s.allPlayers.Keys <= r.allPlayers.Keys
  {
    if |rows| == 0 then s
    else PlaceRow(PlaceRows(s, tid, rows[..|rows| - 1]), tid, rows[|rows| - 1])
  }

  /** `register_team` on a snapshot: a new id gets an empty team. */
  function Registering(s: Snapshot, tid: string): (r: Snapshot)
    requires Known(s)
    ensures Known(r)
    ensures forall t :: t in r.teams <==> t in s.teams || t == tid
    ensures forall t :: t in s.teams ==> r.teams[t] == s.teams[t]
    ensures tid !in s.teams ==> r.teams[tid].players == []
  {
    Snapshot(s.allPlayers, s.pools, Registered(s.teams, tid))
  }

  /** The groups in order: each team registered, then its rows placed. */
  function PlaceGroups(s: Snapshot, order: seq<string>, groups: map<string, seq<TeamRow>>): (r: Snapshot)
    requires Known(s)
    requires forall t :: t in order ==> t in groups
    ensures Known(r)
    ensures forall t :: t in r.teams <==> t in s.teams || t in order
    ensures s.allPlayers.Keys <= r.allPlayers.Keys
  {
    if |order| == 0 then s
    else
      var init := order[..|order| - 1];
      assert forall t :: t in init ==> t in order;
      var tid := order[|order| - 1];
      assert order == init + [tid];
      PlaceRows(Registering(PlaceGroups(s, init, groups), tid), tid, groups[tid])
  }

  /** One more group of `order`: its team registered on what the groups before
      it built, then its rows placed. */
  lemma PlaceGroupsStep(s: Snapshot, order: seq<string>, groups: map<string, seq<TeamRow>>, j: nat)
    requires Known(s) && j < |order|
    requires forall t :: t in order ==> t in groups
    ensures forall t :: t in order[..j] ==> t in groups
    ensures forall t :: t in order[..j + 1] ==> t in groups
    ensures PlaceGroups(s, order[..j + 1], groups)
            == PlaceRows(Registering(PlaceGroups(s, order[..j], groups), order[j]), order[j], groups[order[j]])
  {
    assert order[..j + 1][..j] == order[..j];
  }

  /** Every team's average recomputed from its roster. */
  function Averaged(teams: map<string, Team>, allPlayers: map<string, Player>): (r: map<string, Team>)
    requires forall t :: t in teams ==> RosterKnown(teams[t].players, allPlayers)
    ensures r.Keys == teams.Keys
    ensures forall t :: t in r ==> r[t].players == teams[t].players && Consistent(r[t], allPlayers)
  {
    map t | t in teams :: Team(teams[t].players, RosterAverage(teams[t].players, allPlayers))
  }

  /** The players file rows on emptied pools, then the team rows, then the averages. */
  function Loaded(pools: Pools, remaining: seq<RemainingRow>, teamRows: seq<TeamRow>): (r: Snapshot)
    ensures Known(r)
    ensures forall t :: t in r.teams ==> Consistent(r.teams[t], r.allPlayers)
  {
    var read := ReadRemaining(Snapshot(map[], Emptied(pools), map[]), remaining);
    GroupingSpec(teamRows);
    var placed := PlaceGroups(read, GroupOrder(teamRows), GroupRows(teamRows));
    Snapshot(placed.allPlayers, placed.pools, Averaged(placed.teams, placed.allPlayers))
  }

  // ---- what the rebuilt teams hold --------------------------------------------

  /** The roster entries of rows, in order. */
  function Entries(rows: seq<TeamRow>): (r: seq<RosterEntry>)
    ensures |r| == |rows|
    ensures forall i :: 0 <= i < |rows| ==> r[i] == RosterEntry(rows[i].name, rows[i].assignedRole)
  {
    if |rows| == 0 then [] else Entries(rows[..|rows| - 1]) + [RosterEntry(rows[|rows| - 1].name, rows[|rows| - 1].assignedRole)]
  }

  /** Placing rows appends their entries to that team's roster and touches no other team. */
  lemma {:induction false} PlaceRowsRoster(s: Snapshot, tid: string, rows: seq<TeamRow>)
    requires Known(s) && tid in s.teams
    ensures PlaceRows(s, tid, rows).teams[tid].players == s.teams[tid].players + Entries(rows)
    ensures forall t :: t in s.teams && t != tid ==> PlaceRows(s, tid, rows).teams[t] == s.teams[t]
  {
    if |rows| > 0 {
      var init := rows[..|rows| - 1];
      PlaceRowsRoster(s, tid, init);
      assert Entries(rows) == Entries(init) + [RosterEntry(rows[|rows| - 1].name, rows[|rows| - 1].assignedRole)];
    }
  }

  /** With distinct ids not yet on the books, every listed team ends up with
      exactly its group's entries, and the teams already there are untouched. */
  lemma {:induction false} PlaceGroupsRosters(s: Snapshot, order: seq<string>, groups: map<string, seq<TeamRow>>)
    requires Known(s) && Distinct(order)
    requires forall t :: t in order ==> t in groups && t !in s.teams
    ensures forall t :: t in order ==> PlaceGroups(s, order, groups).teams[t].players == Entries(groups[t])
    ensures forall t :: t in s.teams ==> PlaceGroups(s, order, groups).teams[t] == s.teams[t]
  {
    if |order| > 0 {
      var init := order[..|order| - 1];
      var tid := order[|order| - 1];
      assert forall t :: t in init ==> t in order;
      assert Distinct(init) by {
        assert forall i :: 0 <= i < |init| ==> init[i] == order[i];
      }
      assert tid !in init by {
        assert forall i :: 0 <= i < |init| ==> init[i] == order[i] && order[i] != tid;
      }
      PlaceGroupsRosters(s, init, groups);
      var before := PlaceGroups(s, init, groups);
      assert tid !in before.teams;
      var registered := Registering(before, tid);
      PlaceRowsRoster(registered, tid, groups[tid]);
      var r := PlaceGroups(s, order, groups);
      assert r == PlaceRows(registered, tid, groups[tid]);
      forall t | t in order
        ensures r.teams[t].players == Entries(groups[t])
      {
        if t != tid {
          assert t in init by {
            var i :| 0 <= i < |order| && order[i] == t;
            assert i < |init| && init[i] == t;
          }
        }
      }
    }
  }

  /** After loading, the teams are exactly the ids in the teams file, each
      roster lists that team's rows in file order, and each average is the
      roster's mean rating. */
  lemma LoadedRosters(pools: Pools, remaining: seq<RemainingRow>, teamRows: seq<TeamRow>)
    ensures var r := Loaded(pools, remaining, teamRows);
      && (forall t :: t in r.teams <==> exists i :: 0 <= i < |teamRows| && teamRows[i].teamId == t)
      && (forall t :: t in r.teams ==> r.teams[t].players == Entries(RowsFor(teamRows, t)))
  {
    var read := ReadRemaining(Snapshot(map[], Emptied(pools), map[]), remaining);
    assert read.teams == map[];
    GroupingSpec(teamRows);
    var order, groups := GroupOrder(teamRows), GroupRows(teamRows);
    PlaceGroupsRosters(read, order, groups);
    var placed := PlaceGroups(read, order, groups);
    var r := Loaded(pools, remaining, teamRows);
    assert r.teams == Averaged(placed.teams, placed.allPlayers);
    assert forall t :: t in r.teams <==> t in order;
  }
}
