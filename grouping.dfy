/**
 * The team grouping of the kill totals: every raw killer name is split into
 * a player and an optional team (by `extractPlayerAndTeam` in the parser;
 * here by any `split`), and the kills of the names that carry a team are
 * summed per player under that team.
 */
module Grouping {
  import opened Wrappers
  import opened Tallies
  import opened LogPatterns

  /** The raw names among `keys` that `split` maps to player `p` of team `t`. */
  ghost function RawNamesOf(split: string -> PlayerTeam, m: map<string, int>, keys: set<string>, t: Team, p: string): (r: set<string>)
    ensures r <= m.Keys
  {
    set r | r in keys && r in m && split(r) == PlayerTeam(p, Some(t))
  }

  /** The players of team `t` among the raw names in `keys`. */
  ghost function PlayersOf(split: string -> PlayerTeam, m: map<string, int>, keys: set<string>, t: Team): set<string> {
    set r | r in keys && r in m && split(r).team == Some(t) :: split(r).player
  }

  /** The kill table of team `t` built from the entries of `m` at `keys`. */
  ghost function TeamTable(split: string -> PlayerTeam, m: map<string, int>, keys: set<string>, t: Team): map<string, int> {
    map p | p in PlayersOf(split, m, keys, t) :: SumKeys(m, RawNamesOf(split, m, keys, t, p))
  }

  /** `table` after one raw name that splits into `pt` with count `n`, for team `t`. */
  function AddToTeam(table: map<string, int>, pt: PlayerTeam, t: Team, n: int): map<string, int> {
    if pt.team == Some(t) then Inc(table, pt.player, n) else table
  }

  /** The kill table of team `t` as the post-pass fills it, one raw name at a time, in any order. */
  ghost function TeamTally(split: string -> PlayerTeam, m: map<string, int>, keys: set<string>, t: Team)
    : map<string, int>
    requires keys <= m.Keys
    decreases |keys|
  {
    if keys == {} then map[]
    else
      var k :| k in keys;
      AddToTeam(TeamTally(split, m, keys - {k}, t), split(k), t, m[k])
  }

  /** Both team tables after the raw names in `keys`. */
  ghost function Tables(split: string -> PlayerTeam, m: map<string, int>, keys: set<string>): map<Team, map<string, int>>
    requires keys <= m.Keys
  {
    map[TERRORIST := TeamTally(split, m, keys, TERRORIST), CT := TeamTally(split, m, keys, CT)]
  }

  /** `groupedKills` as the post-pass builds it from all of `m`. */
  ghost function GroupedBy(split: string -> PlayerTeam, m: map<string, int>): map<Team, map<string, int>> {
    Tables(split, m, m.Keys)
  }

  /** One raw name folded into the tables: its count is added to its player under its team, if it has one. */
  function AddRaw(g: map<Team, map<string, int>>, pt: PlayerTeam, n: int): map<Team, map<string, int>>
    requires TERRORIST in g && CT in g
  {
    if pt.team.Some? then
      var team := pt.team.value;
      assert team == TERRORIST || team == CT;
      g[team := Inc(g[team], pt.player, n)]
    else g
  }

  lemma TablesEmpty(split: string -> PlayerTeam, m: map<string, int>)
    ensures Tables(split, m, {}) == map[TERRORIST := map[], CT := map[]]
  {
  }

  lemma TeamTableEmpty(split: string -> PlayerTeam, m: map<string, int>, t: Team)
    ensures TeamTable(split, m, {}, t) == map[]
  {
    assert PlayersOf(split, m, {}, t) == {};
  }

  lemma RawNamesAddMatching(split: string -> PlayerTeam, m: map<string, int>, keys: set<string>, raw: string, t: Team, p: string)
    requires raw in m && split(raw) == PlayerTeam(p, Some(t))
    ensures RawNamesOf(split, m, keys + {raw}, t, p) == RawNamesOf(split, m, keys, t, p) + {raw}
  {
  }

  lemma RawNamesAddOther(split: string -> PlayerTeam, m: map<string, int>, keys: set<string>, raw: string, t: Team, p: string)
    requires split(raw) != PlayerTeam(p, Some(t))
    ensures RawNamesOf(split, m, keys + {raw}, t, p) == RawNamesOf(split, m, keys, t, p)
  {
  }

  lemma PlayersOfAdd(split: string -> PlayerTeam, m: map<string, int>, keys: set<string>, raw: string, t: Team)
    requires raw in m
    ensures PlayersOf(split, m, keys + {raw}, t)
            == if split(raw).team == Some(t) then PlayersOf(split, m, keys, t) + {split(raw).player}
               else PlayersOf(split, m, keys, t)
  {
  }

  /** Every raw name grouped under `p` makes `p` a player of the team. */
  lemma RawNamesInPlayers(split: string -> PlayerTeam, m: map<string, int>, keys: set<string>, t: Team, p: string)
    ensures forall r :: r in RawNamesOf(split, m, keys, t, p) ==> p in PlayersOf(split, m, keys, t)
  {
    forall r | r in RawNamesOf(split, m, keys, t, p) ensures p in PlayersOf(split, m, keys, t) {
      assert split(r).player == p;
    }
  }

  /** The entry of the player a new raw name belongs to grows by that name's count. */
  lemma {:induction false} TeamTableAddOwn(split: string -> PlayerTeam, m: map<string, int>, keys: set<string>, raw: string, t: Team)
    requires keys <= m.Keys && raw in m && raw !in keys
    requires split(raw).team == Some(t)
    ensures var p := split(raw).player;
            TeamTable(split, m, keys + {raw}, t)[p] == Get(TeamTable(split, m, keys, t), p) + m[raw]
  {
    var p := split(raw).player;
    PlayersOfAdd(split, m, keys, raw, t);
    RawNamesAddMatching(split, m, keys, raw, t, p);
    SumKeysAdd(m, RawNamesOf(split, m, keys, t, p), raw);
    RawNamesInPlayers(split, m, keys, t, p);
    if p !in PlayersOf(split, m, keys, t) {
      assert RawNamesOf(split, m, keys, t, p) == {};
    }
  }

  lemma {:induction false} TeamTableAddMatching(split: string -> PlayerTeam, m: map<string, int>, keys: set<string>,
                                                raw: string, t: Team)
    requires keys <= m.Keys && raw in m && raw !in keys && split(raw).team == Some(t)
    ensures TeamTable(split, m, keys + {raw}, t) == Inc(TeamTable(split, m, keys, t), split(raw).player, m[raw])
  {
    var pt := split(raw);
    var after, expected := TeamTable(split, m, keys + {raw}, t), Inc(TeamTable(split, m, keys, t), pt.player, m[raw]);
    PlayersOfAdd(split, m, keys, raw, t);
    assert after.Keys == expected.Keys;
    forall p | p in after.Keys ensures after[p] == expected[p] {
      if p == pt.player {
        TeamTableAddOwn(split, m, keys, raw, t);
      } else {
        RawNamesAddOther(split, m, keys, raw, t, p);
      }
    }
  }

  lemma {:induction false} TeamTableAddOther(split: string -> PlayerTeam, m: map<string, int>, keys: set<string>,
                                             raw: string, t: Team)
    requires raw in m && split(raw).team != Some(t)
    ensures TeamTable(split, m, keys + {raw}, t) == TeamTable(split, m, keys, t)
  {
    var before, after := TeamTable(split, m, keys, t), TeamTable(split, m, keys + {raw}, t);
    PlayersOfAdd(split, m, keys, raw, t);
    forall p | p in after.Keys ensures after[p] == before[p] {
      RawNamesAddOther(split, m, keys, raw, t, p);
    }
  }

  /** Adding one raw name adds its count to its player's entry and changes nothing else. */
  lemma TeamTableAdd(split: string -> PlayerTeam, m: map<string, int>, keys: set<string>, raw: string, t: Team)
    requires keys <= m.Keys && raw in m && raw !in keys
    ensures TeamTable(split, m, keys + {raw}, t)
            == if split(raw).team == Some(t)
               then Inc(TeamTable(split, m, keys, t), split(raw).player, m[raw])
               else TeamTable(split, m, keys, t)
  {
    if split(raw).team == Some(t) {
      TeamTableAddMatching(split, m, keys, raw, t);
    } else {
      TeamTableAddOther(split, m, keys, raw, t);
    }
  }

  /**
   * Whatever order the raw names are taken in, the table holds, for each
   * player of the team, the sum of the counts of the raw names that split
   * into that player and team, and no other entry.
   */
  lemma {:induction false} TallyIsTable(split: string -> PlayerTeam, m: map<string, int>, keys: set<string>, t: Team)
    requires keys <= m.Keys
    decreases |keys|
    ensures TeamTally(split, m, keys, t) == TeamTable(split, m, keys, t)
  {
    if keys == {} {
      TeamTableEmpty(split, m, t);
    } else {
      var k :| k in keys && TeamTally(split, m, keys, t)
                            == AddToTeam(TeamTally(split, m, keys - {k}, t), split(k), t, m[k]);
      var rest := keys - {k};
      TallyIsTable(split, m, rest, t);
      TeamTableAdd(split, m, rest, k, t);
      assert rest + {k} == keys;
      assert TeamTable(split, m, rest + {k}, t) == TeamTable(split, m, keys, t);
      assert TeamTally(split, m, keys, t) == AddToTeam(TeamTally(split, m, rest, t), split(k), t, m[k]);
      assert AddToTeam(TeamTally(split, m, rest, t), split(k), t, m[k]) == AddToTeam(TeamTable(split, m, rest, t), split(k), t, m[k]);
      assert AddToTeam(TeamTable(split, m, rest, t), split(k), t, m[k]) == TeamTable(split, m, rest + {k}, t);
    }
  }

  /** Taking one more raw name adds its count to its player under its team. */
  lemma TallyAdd(split: string -> PlayerTeam, m: map<string, int>, keys: set<string>, raw: string, t: Team)
    requires keys <= m.Keys && raw in m && raw !in keys
    ensures TeamTally(split, m, keys + {raw}, t) == AddToTeam(TeamTally(split, m, keys, t), split(raw), t, m[raw])
  {
    TallyIsTable(split, m, keys + {raw}, t);
    TallyIsTable(split, m, keys, t);
    TeamTableAdd(split, m, keys, raw, t);
  }

  /** Folding in one more raw name is `AddRaw` on the tables so far. */
  lemma TablesAdd(split: string -> PlayerTeam, m: map<string, int>, keys: set<string>, raw: string)
    requires keys <= m.Keys && raw in m && raw !in keys
    ensures Tables(split, m, keys + {raw}) == AddRaw(Tables(split, m, keys), split(raw), m[raw])
  {
    TallyAdd(split, m, keys, raw, TERRORIST);
    TallyAdd(split, m, keys, raw, CT);
    var pt := split(raw);
    if pt.team.Some? {
      assert pt.team.value == TERRORIST || pt.team.value == CT;
    }
  }

  /** Each team's grouped table is exactly the per-player sum over the raw names of that team. */
  lemma GroupedIsTable(split: string -> PlayerTeam, m: map<string, int>, t: Team)
    ensures GroupedBy(split, m)[t] == TeamTable(split, m, m.Keys, t)
  {
    TallyIsTable(split, m, m.Keys, t);
  }

  /** The raw names among `keys` that `split` tags with team `t`. */
  ghost function TaggedNames(split: string -> PlayerTeam, m: map<string, int>, keys: set<string>, t: Team)
    : (r: set<string>)
    ensures r <= m.Keys
  {
    set r | r in keys && r in m && split(r).team == Some(t)
  }

  lemma TotalAddToTeam(table: map<string, int>, pt: PlayerTeam, t: Team, n: int)
    ensures Total(AddToTeam(table, pt, t, n)) == Total(table) + if pt.team == Some(t) then n else 0
  {
    if pt.team == Some(t) {
      TotalInc(table, pt.player, n);
    }
  }

  lemma TaggedSumAdd(split: string -> PlayerTeam, m: map<string, int>, rest: set<string>, k: string, t: Team)
    requires k in m && k !in rest
    ensures SumKeys(m, TaggedNames(split, m, rest + {k}, t))
            == SumKeys(m, TaggedNames(split, m, rest, t)) + if split(k).team == Some(t) then m[k] else 0
  {
    if split(k).team == Some(t) {
      assert TaggedNames(split, m, rest + {k}, t) == TaggedNames(split, m, rest, t) + {k};
      SumKeysAdd(m, TaggedNames(split, m, rest, t), k);
    } else {
      assert TaggedNames(split, m, rest + {k}, t) == TaggedNames(split, m, rest, t);
    }
  }

  /** Folding in raw names one at a time sums, over the team, the counts of the raw names tagged with it. */
  lemma {:induction false} TallyTotal(split: string -> PlayerTeam, m: map<string, int>, keys: set<string>, t: Team)
    requires keys <= m.Keys
    decreases |keys|
    ensures Total(TeamTally(split, m, keys, t)) == SumKeys(m, TaggedNames(split, m, keys, t))
  {
    if keys == {} {
      assert TaggedNames(split, m, keys, t) == {};
    } else {
      var k :| k in keys && TeamTally(split, m, keys, t)
                            == AddToTeam(TeamTally(split, m, keys - {k}, t), split(k), t, m[k]);
      var rest := keys - {k};
      TallyTotal(split, m, rest, t);
      TotalAddToTeam(TeamTally(split, m, rest, t), split(k), t, m[k]);
      TaggedSumAdd(split, m, rest, k, t);
      assert rest + {k} == keys;
    }
  }

  /** A team's grouped table adds up to the kills of all the raw names tagged with that team. */
  lemma TeamTotal(split: string -> PlayerTeam, m: map<string, int>, t: Team)
    ensures Total(GroupedBy(split, m)[t]) == SumKeys(m, TaggedNames(split, m, m.Keys, t))
  {
    TallyTotal(split, m, m.Keys, t);
  }
}
