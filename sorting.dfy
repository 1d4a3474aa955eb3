// The two orderings the draft state reports in: role names sorted as Python
// sorts strings (by code point, a prefix first), and a pool sorted by rating,
// highest first, with equal ratings kept in pool order (Python's sort is stable,
// also with reverse=True).

module Sorting {
  import opened DraftTypes

  // ---- str ordering ----------------------------------------------------------

  /** Python's `a <= b` on strings. */
  predicate Below(a: string, b: string)
  {
    |a| == 0 || (|b| > 0 && (a[0] < b[0] || (a[0] == b[0] && Below(a[1..], b[1..]))))
  }

  lemma BelowTotal(a: string, b: string)
    ensures Below(a, b) || Below(b, a)
  {
  }

  lemma {:induction false} BelowAntisymmetric(a: string, b: string)
    requires Below(a, b) && Below(b, a)
    ensures a == b
  {
    if |a| > 0 {
      BelowAntisymmetric(a[1..], b[1..]);
      assert a == [a[0]] + a[1..] && b == [b[0]] + b[1..];
    }
  }

  lemma {:induction false} BelowTransitive(a: string, b: string, c: string)
    requires Below(a, b) && Below(b, c)
    ensures Below(a, c)
  {
    if |a| > 0 && a[0] == b[0] && b[0] == c[0] {
      BelowTransitive(a[1..], b[1..], c[1..]);
    }
  }

  /** Strictly increasing, hence without repeats. */
  predicate Ascending(s: seq<string>)
  {
    forall i, j :: 0 <= i < j < |s| ==> Below(s[i], s[j]) && s[i] != s[j]
  }

  // ---- sorted(set) -----------------------------------------------------------

  /** `x` placed into an ascending list before the first entry above it. */
  function InsertAscending(s: seq<string>, x: string): (r: seq<string>)
    ensures multiset(r) == multiset(s) + multiset{x}
  {
    if |s| == 0 then [x]
    else if Below(x, s[0]) then [x] + s
    else
      assert s == [s[0]] + s[1..];
      [s[0]] + InsertAscending(s[1..], x)
  }

  lemma {:induction false} InsertAscendingSorted(s: seq<string>, x: string)
    requires Ascending(s) && x !in s
    ensures Ascending(InsertAscending(s, x))
  {
    if |s| == 0 {
    } else if Below(x, s[0]) {
      forall j | 0 <= j < |s| ensures Below(x, s[j]) {
        if j > 0 { BelowTransitive(x, s[0], s[j]); }
      }
    } else {
      BelowTotal(x, s[0]);
      InsertAscendingSorted(s[1..], x);
      var rest := InsertAscending(s[1..], x);
      forall i | 0 <= i < |rest| ensures Below(s[0], rest[i]) && s[0] != rest[i] {
        assert rest[i] in multiset(rest);
        if rest[i] != x {
          var k :| 0 <= k < |s[1..]| && s[1..][k] == rest[i];
          assert s[k + 1] == rest[i];
        }
      }
    }
  }

  /** Python's `sorted(names)` for a set of names: each name once, ascending. */
  method SortedNames(names: set<string>) returns (r: seq<string>)
    ensures Ascending(r) && |r| == |names|
    ensures forall x :: x in r <==> x in names
  {
    r := [];
    var rest := names;
    while rest != {}
      invariant Ascending(r)
      invariant forall x :: x in r <==> x in names && x !in rest
      invariant rest <= names
      invariant |r| + |rest| == |names|
      decreases rest
    {
      var x :| x in rest;
      InsertAscendingSorted(r, x);
      r := InsertAscending(r, x);
      assert forall y :: y in r <==> y in multiset(r);
      rest := rest - {x};
    }
  }

  /** An ascending list is fixed by its elements, so the sorted order of a set
      is the only one. */
  lemma {:induction false} AscendingUnique(s: seq<string>, t: seq<string>)
    requires Ascending(s) && Ascending(t)
    requires forall x :: x in s <==> x in t
    ensures s == t
  {
    assert |s| > 0 ==> s[0] in t;
    assert |t| > 0 ==> t[0] in s;
    if |s| > 0 && |t| > 0 {
      assert s[0] == t[0] by {
        assert s[0] in t && t[0] in s;
        var i :| 0 <= i < |t| && t[i] == s[0];
        var j :| 0 <= j < |s| && s[j] == t[0];
        if i != 0 && j != 0 {
          BelowAntisymmetric(s[0], t[0]);
        }
      }
      forall x ensures x in s[1..] <==> x in t[1..] {
        if x in s[1..] {
          var k :| 0 <= k < |s[1..]| && s[1..][k] == x;
          assert s[k + 1] == x && x != s[0] && x in s;
          var m :| 0 <= m < |t| && t[m] == x;
          assert m != 0 && t[1..][m - 1] == x;
        }
        if x in t[1..] {
          var k :| 0 <= k < |t[1..]| && t[1..][k] == x;
          assert t[k + 1] == x && x != t[0] && x in t;
          var m :| 0 <= m < |s| && s[m] == x;
          assert m != 0 && s[1..][m - 1] == x;
        }
      }
      AscendingUnique(s[1..], t[1..]);
      assert s == [s[0]] + s[1..] && t == [t[0]] + t[1..];
    }
  }

  // ---- sorted(pool, key=mmr, reverse=True) -----------------------------------

  /** Highest rating first. */
  predicate ByMmrDescending(s: seq<string>, allPlayers: map<string, Player>)
    requires AllKnown(s, allPlayers)
  {
    forall i, j :: 0 <= i < j < |s| ==> allPlayers[s[i]].mmr >= allPlayers[s[j]].mmr
  }

  /** The names whose rating is `mmr`, in list order. */
  function WithMmr(s: seq<string>, allPlayers: map<string, Player>, mmr: int): (r: seq<string>)
    requires AllKnown(s, allPlayers)
  {
    if |s| == 0 then []
    else WithMmr(s[..|s| - 1], allPlayers, mmr) + (if allPlayers[s[|s| - 1]].mmr == mmr then [s[|s| - 1]] else [])
  }

  lemma {:induction false} WithMmrConcat(a: seq<string>, b: seq<string>, allPlayers: map<string, Player>, mmr: int)
    requires AllKnown(a, allPlayers) && AllKnown(b, allPlayers)
    ensures AllKnown(a + b, allPlayers)
    ensures WithMmr(a + b, allPlayers, mmr) == WithMmr(a, allPlayers, mmr) + WithMmr(b, allPlayers, mmr)
  {
    if |b| > 0 {
      assert (a + b)[..|a + b| - 1] == a + b[..|b| - 1];
      WithMmrConcat(a, b[..|b| - 1], allPlayers, mmr);
    } else {
      assert a + b == a;
    }
  }

  /** `x` placed after every entry rated at least as high: behind its equals. */
  function InsertByMmr(s: seq<string>, x: string, allPlayers: map<string, Player>): (r: seq<string>)
    requires AllKnown(s, allPlayers) && x in allPlayers
    ensures AllKnown(r, allPlayers) && multiset(r) == multiset(s) + multiset{x}
  {
    if |s| == 0 then [x]
    else if allPlayers[s[|s| - 1]].mmr >= allPlayers[x].mmr then s + [x]
    else
      assert s == s[..|s| - 1] + [s[|s| - 1]];
      InsertByMmr(s[..|s| - 1], x, allPlayers) + [s[|s| - 1]]
  }

  /** The stable sort by rating, highest first. */
  function SortByMmr(names: seq<string>, allPlayers: map<string, Player>): (r: seq<string>)
    requires AllKnown(names, allPlayers)
    ensures AllKnown(r, allPlayers) && multiset(r) == multiset(names)
  {
    if |names| == 0 then []
    else
      assert names == names[..|names| - 1] + [names[|names| - 1]];
      InsertByMmr(SortByMmr(names[..|names| - 1], allPlayers), names[|names| - 1], allPlayers)
  }

  lemma {:induction false} InsertByMmrSorted(s: seq<string>, x: string, allPlayers: map<string, Player>)
    requires AllKnown(s, allPlayers) && x in allPlayers && ByMmrDescending(s, allPlayers)
    ensures ByMmrDescending(InsertByMmr(s, x, allPlayers), allPlayers)
  {
    if |s| > 0 && allPlayers[s[|s| - 1]].mmr < allPlayers[x].mmr {
      var init := s[..|s| - 1];
      var last := s[|s| - 1];
      InsertByMmrSorted(init, x, allPlayers);
      var ins := InsertByMmr(init, x, allPlayers);
      forall i | 0 <= i < |ins| ensures allPlayers[ins[i]].mmr >= allPlayers[last].mmr {
        assert ins[i] in multiset(ins);
        if ins[i] != x {
          var k :| 0 <= k < |init| && init[k] == ins[i];
        }
      }
    }
  }

  /** Inserting keeps every rating's names in order, with `x` behind its equals. */
  lemma {:induction false} InsertByMmrStable(s: seq<string>, x: string, allPlayers: map<string, Player>, mmr: int)
    requires AllKnown(s, allPlayers) && x in allPlayers
    ensures WithMmr(InsertByMmr(s, x, allPlayers), allPlayers, mmr)
            == WithMmr(s, allPlayers, mmr) + WithMmr([x], allPlayers, mmr)
    decreases |s|, 1
  {
    if |s| == 0 {
      assert [x][..0] == [];
    } else if allPlayers[s[|s| - 1]].mmr >= allPlayers[x].mmr {
      WithMmrConcat(s, [x], allPlayers, mmr);
    } else {
      InsertBehindLower(s, x, allPlayers, mmr);
    }
  }

  /** The case of InsertByMmrStable where `x` goes in front of the last name. */
  lemma {:induction false} InsertBehindLower(s: seq<string>, x: string, allPlayers: map<string, Player>, mmr: int)
    requires AllKnown(s, allPlayers) && x in allPlayers
    requires |s| > 0 && allPlayers[s[|s| - 1]].mmr < allPlayers[x].mmr
    ensures WithMmr(InsertByMmr(s, x, allPlayers), allPlayers, mmr)
            == WithMmr(s, allPlayers, mmr) + WithMmr([x], allPlayers, mmr)
    decreases |s|, 0
  {
    var init := s[..|s| - 1];
    var last := s[|s| - 1];
    assert init + [last] == s;
    InsertByMmrStable(init, x, allPlayers, mmr);
    var ins := InsertByMmr(init, x, allPlayers);
    assert InsertByMmr(s, x, allPlayers) == ins + [last];
    WithMmrConcat(ins, [last], allPlayers, mmr);
    WithMmrConcat(init, [last], allPlayers, mmr);
    assert [x][..0] == [] && [last][..0] == [];
    if allPlayers[x].mmr == mmr {
      assert WithMmr([last], allPlayers, mmr) == [];
    } else {
      assert WithMmr([x], allPlayers, mmr) == [];
    }
  }

  /** The result is ordered by rating, highest first, and holds the same names. */
  lemma {:induction false} SortByMmrSorted(names: seq<string>, allPlayers: map<string, Player>)
    requires AllKnown(names, allPlayers)
    ensures ByMmrDescending(SortByMmr(names, allPlayers), allPlayers)
    ensures multiset(SortByMmr(names, allPlayers)) == multiset(names)
    ensures forall mmr :: WithMmr(SortByMmr(names, allPlayers), allPlayers, mmr) == WithMmr(names, allPlayers, mmr)
  {
    if |names| > 0 {
      SortByMmrSorted(names[..|names| - 1], allPlayers);
      InsertByMmrSorted(SortByMmr(names[..|names| - 1], allPlayers), names[|names| - 1], allPlayers);
      forall mmr ensures WithMmr(SortByMmr(names, allPlayers), allPlayers, mmr) == WithMmr(names, allPlayers, mmr) {
        InsertByMmrStable(SortByMmr(names[..|names| - 1], allPlayers), names[|names| - 1], allPlayers, mmr);
      }
    }
  }
}
