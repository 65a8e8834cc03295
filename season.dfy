// The league side of the administration panel (src/AdminPanel.jsx): assigning players to
// divisions, correcting a league result, and creating a season (every division's fixtures,
// then one schedule week per matchday).

module Season {
  import opened Common
  import opened Scores
  import opened Sorting
  import opened Fixtures
  import opened FixtureProperties
  import opened WeekWindows

  // ----- Division assignment (`handleAssign`) ---------------------------------------------------

  /** `assignments`: the ids picked for each division, keyed by division number. */
  type Assignments = map<int, seq<UserId>>

  function Other(user: UserId): UserId -> bool
  {
    (id: UserId) => id != user
  }

  /** A division's ids with `user` filtered out. */
  function Without(ids: seq<UserId>, user: UserId): seq<UserId>
  {
    Filter(ids, Other(user))
  }

  /** Every division with `user` filtered out. */
  function Removed(m: Assignments, user: UserId): Assignments
  {
    map d | d in m :: Without(m[d], user)
  }

  /** The assignments after `handleAssign(user, div)`: the user is taken out of every division
      and, for `div > 0`, appended to division `div`. */
  function Assigned(m: Assignments, user: UserId, div: int): Assignments
    requires div <= 0 || div in m
  {
    var r := Removed(m, user);
    if div > 0 then r[div := r[div] + [user]] else r
  }

  /** `handleAssign`: a `filter` for each key of `Object.keys(newAssignments)` (given as
      `keys`), then the `push`. The target division must exist (the code would push onto
      `undefined` otherwise). */
  method HandleAssign(m: Assignments, keys: seq<int>, user: UserId, div: int) returns (r: Assignments)
    requires forall d :: d in keys <==> d in m
    requires div <= 0 || div in m
    ensures r == Assigned(m, user, div)
  {
    r := m;
    for k := 0 to |keys|
      invariant r.Keys == m.Keys
      invariant forall d :: d in m ==> r[d] == if d in keys[..k] then Without(m[d], user) else m[d]
    {
      assert forall e :: e in keys[..k + 1] <==> e in keys[..k] || e == keys[k];
      r := r[keys[k] := Without(m[keys[k]], user)];
    }
    assert keys[..|keys|] == keys;
    RemovedExt(m, r, user);
    if div > 0 {
      r := r[div := r[div] + [user]];
    }
  }

  lemma RemovedExt(m: Assignments, r: Assignments, user: UserId)
    requires r.Keys == m.Keys
    requires forall d :: d in m ==> r[d] == Without(m[d], user)
    ensures r == Removed(m, user)
  {
    var q := Removed(m, user);
    assert q.Keys == m.Keys;
    assert forall d :: d in q ==> q[d] == r[d];
  }

  /** How often `x` occurs in `s`. */
  function Count(s: seq<UserId>, x: UserId): nat
  {
    multiset(s)[x]
  }

  lemma {:induction false} WithoutCount(s: seq<UserId>, user: UserId, x: UserId)
    ensures Count(Without(s, user), x) == if x == user then 0 else Count(s, x)
    decreases |s|
  {
    if s != [] {
      WithoutCount(s[1..], user, x);
      assert s == [s[0]] + s[1..];
    }
  }

  /** The user ends up in division `div` exactly once when `div > 0`, in no other division,
      and in none at all for `div <= 0`; every other id keeps its count in every division. */
  lemma AssignedSpec(m: Assignments, user: UserId, div: int, d: int, x: UserId)
    requires div <= 0 || div in m
    requires d in m
    ensures d in Assigned(m, user, div)
    ensures Count(Assigned(m, user, div)[d], user) == if d == div && div > 0 then 1 else 0
    ensures x != user ==> Count(Assigned(m, user, div)[d], x) == Count(m[d], x)
  {
    var kept := Without(m[d], user);
    WithoutCount(m[d], user, user);
    WithoutCount(m[d], user, x);
    if d == div && div > 0 {
      assert Assigned(m, user, div)[d] == kept + [user];
      assert multiset(kept + [user]) == multiset(kept) + multiset{user};
    } else {
      assert Assigned(m, user, div)[d] == kept;
    }
  }

  /** The relative order of the other ids in a division is kept. */
  lemma AssignedKeepsOrder(m: Assignments, user: UserId, div: int, d: int)
    requires div <= 0 || div in m
    requires d in m
    ensures Assigned(m, user, div)[d][..|Without(m[d], user)|] == Without(m[d], user)
  {
  }

  // ----- League results (`handleUpdateMatch`) ---------------------------------------------------

  /** A row of the `matches` table. */
  datatype LeagueMatch = LeagueMatch(
    id: int,
    season: int,
    division: int,
    week: int,
    home: UserId,
    away: UserId,
    homeScore: Option<int>,
    awayScore: Option<int>,
    played: bool)

  /** The result columns of one row replaced. */
  function WithResult(m: LeagueMatch, h: Option<int>, a: Option<int>, played: bool): LeagueMatch
  {
    m.(homeScore := h, awayScore := a, played := played)
  }

  /** `update({ home_score, away_score, is_played }).eq('id', id)`. */
  function UpdateResult(rows: seq<LeagueMatch>, id: int, h: Option<int>, a: Option<int>, played: bool): (r: seq<LeagueMatch>)
    ensures |r| == |rows|
  {
    seq(|rows|, i requires 0 <= i < |rows| => if rows[i].id == id then WithResult(rows[i], h, a, played) else rows[i])
  }

  /** Only the rows with that id change, and only in their result columns. */
  lemma UpdateResultSpec(rows: seq<LeagueMatch>, id: int, h: Option<int>, a: Option<int>, played: bool, i: nat)
    requires i < |rows|
    ensures var r := UpdateResult(rows, id, h, a, played)[i];
      r.id == rows[i].id && r.season == rows[i].season && r.division == rows[i].division
      && r.week == rows[i].week && r.home == rows[i].home && r.away == rows[i].away
      && (rows[i].id == id ==> r.homeScore == h && r.awayScore == a && r.played == played)
      && (rows[i].id != id ==> r == rows[i])
  {
  }

  /** The `matches` table. */
  class LeagueTable {
    var rows: seq<LeagueMatch>

    constructor(initial: seq<LeagueMatch>)
      ensures rows == initial
    {
      rows := initial;
    }

    /** `handleUpdateMatch`: an empty score field is stored as `null`, any other through
        `parseInt`. */
    method UpdateMatch(id: int, hScore: string, aScore: string, played: bool)
      modifies this
      ensures rows == UpdateResult(old(rows), id, NormalizeScore(hScore), NormalizeScore(aScore), played)
    {
      rows := UpdateResult(rows, id, NormalizeScore(hScore), NormalizeScore(aScore), played);
    }

    /** A result submitted from a match card: both scores, marked played. */
    method SubmitResult(id: int, h: Option<int>, a: Option<int>)
      modifies this
      ensures rows == UpdateResult(old(rows), id, h, a, true)
    {
      rows := UpdateResult(rows, id, h, a, true);
    }
  }

  /** Typing back the stored number, or clearing the field, round-trips through the editor. */
  lemma UpdateMatchRoundTrip(rows: seq<LeagueMatch>, id: int, h: Option<int>, a: Option<int>, played: bool)
    ensures UpdateResult(rows, id,
                         NormalizeScore(if h.Some? then ShowInt(h.value) else ""),
                         NormalizeScore(if a.Some? then ShowInt(a.value) else ""), played)
         == UpdateResult(rows, id, h, a, played)
  {
    if h.Some? {
      NormalizeShown(h.value);
    }
    if a.Some? {
      NormalizeShown(a.value);
    }
  }

  // ----- Season creation (`confirmarCreacionTemporada`) ------------------------------------------

  /** A profile as the selector lists it. */
  datatype User = User(id: UserId, nick: Option<string>)

  /** A new row of `matches`: a fixture stored under a season and a division, not yet played. */
  datatype NewMatch = NewMatch(season: int, division: int, fixture: Fixture)

  function Picked(ids: seq<UserId>): User -> bool
  {
    (u: User) => u.id in ids
  }

  /** `availableUsers.filter(u => ids.includes(u.id))`, as ids. */
  function PlayerIds(users: seq<User>, ids: seq<UserId>): (r: seq<UserId>)
    ensures |r| == |Filter(users, Picked(ids))|
  {
    var players := Filter(users, Picked(ids));
    seq(|players|, i requires 0 <= i < |players| => players[i].id)
  }

  /** The permutation the shuffle of `generarCalendario` gives for a division; any order of
      the division's players may come out. */
  predicate Shuffled(roster: seq<UserId>, players: seq<UserId>)
  {
    multiset(roster) == multiset(players)
  }

  /** Whether division `d` gets fixtures: it has at least two assigned ids. */
  predicate Plays(a: Assignments, d: int)
  {
    d in a && |a[d]| >= 2
  }

  function StampAll(fs: seq<Fixture>, season: int, division: int): (r: seq<NewMatch>)
    ensures |r| == |fs|
  {
    seq(|fs|, i requires 0 <= i < |fs| => NewMatch(season, division, fs[i]))
  }

  /** `Math.max(...matches.map(m => m.week))` folded into `maxJ` (an empty list leaves it). */
  function MaxWeek(fs: seq<Fixture>, acc: int): (r: int)
    ensures r >= acc
    ensures forall i :: 0 <= i < |fs| ==> fs[i].week <= r
    ensures r == acc || exists i :: 0 <= i < |fs| && fs[i].week == r
  {
    if fs == [] then acc
    else
      var m := MaxWeek(fs[..|fs| - 1], acc);
      assert forall i :: 0 <= i < |fs| - 1 ==> fs[..|fs| - 1][i] == fs[i];
      if fs[|fs| - 1].week > m then fs[|fs| - 1].week else m
  }

  /** The rows and the last matchday after the divisions `1..k`. */
  datatype Draft = Draft(matches: seq<NewMatch>, maxJ: nat)

  function DraftUpTo(a: Assignments, shuffled: map<int, seq<UserId>>, homeAndAway: bool, season: int, k: nat): Draft
    requires forall d :: 1 <= d <= k && Plays(a, d) ==> d in shuffled
  {
    if k == 0 then Draft([], 0)
    else
      var prev := DraftUpTo(a, shuffled, homeAndAway, season, k - 1);
      if !Plays(a, k) then prev
      else
        var fs := Schedule(shuffled[k], homeAndAway);
        Draft(prev.matches + StampAll(fs, season, k), MaxWeek(fs, prev.maxJ))
  }

  /** `confirmarCreacionTemporada` with the prompts, the user list and each division's shuffle
      as inputs: every division with at least two assigned ids gets its fixtures, then weeks
      `1..maxJ` are laid out from `start`. */
  method CreateSeason(a: Assignments, users: seq<User>, shuffled: map<int, seq<UserId>>, numDivisions: nat,
                      homeAndAway: bool, season: int, start: int)
    returns (allMatches: seq<NewMatch>, schedule: seq<Window>)
    requires forall d :: 1 <= d <= numDivisions ==> d in a
    requires forall d :: 1 <= d <= numDivisions && Plays(a, d) ==>
               d in shuffled && Shuffled(shuffled[d], PlayerIds(users, a[d]))
    ensures var draft := DraftUpTo(a, shuffled, homeAndAway, season, numDivisions);
      allMatches == draft.matches && schedule == InitialWindows(start, draft.maxJ)
  {
    allMatches := [];
    var maxJ: nat := 0;
    for d := 1 to numDivisions + 1
      invariant Draft(allMatches, maxJ) == DraftUpTo(a, shuffled, homeAndAway, season, d - 1)
    {
      var ids := a[d];
      if |ids| < 2 {
        assert !Plays(a, d);
        continue;
      }
      var matches := GenerateFixtures(shuffled[d], homeAndAway);
      maxJ := MaxWeek(matches, maxJ);
      allMatches := allMatches + StampAll(matches, season, d);
    }
    schedule := BuildWindows(start, maxJ);
  }

  /** Players of a division's roster are users picked for that division. */
  lemma RosterPicked(users: seq<User>, ids: seq<UserId>, roster: seq<UserId>, x: UserId)
    requires Shuffled(roster, PlayerIds(users, ids))
    requires x in roster
    ensures x in ids
  {
    var p := PlayerIds(users, ids);
    assert x in multiset(roster);
    assert x in multiset(p);
    var i :| 0 <= i < |p| && p[i] == x;
    var players := Filter(users, Picked(ids));
    assert Picked(ids)(players[i]);
  }

  /** A new row is a fixture of division `1..k` with at least two ids, between two different
      players assigned to that division, in a matchday between 1 and `maxJ`. */
  predicate RowInDraft(a: Assignments, m: NewMatch, season: int, k: nat, maxJ: nat)
    requires forall d :: 1 <= d <= k ==> d in a
  {
    m.season == season && 1 <= m.division <= k && Plays(a, m.division)
    && m.fixture.home != m.fixture.away && m.fixture.home in a[m.division] && m.fixture.away in a[m.division]
    && 1 <= m.fixture.week <= maxJ
  }

  /** Every new row of the draft satisfies `RowInDraft`. */
  lemma {:induction false} DraftSpec(a: Assignments, users: seq<User>, shuffled: map<int, seq<UserId>>,
                                     homeAndAway: bool, season: int, k: nat, i: nat)
    requires forall d :: 1 <= d <= k ==> d in a
    requires forall d :: 1 <= d <= k && Plays(a, d) ==>
               d in shuffled && Shuffled(shuffled[d], PlayerIds(users, a[d])) && Distinct(shuffled[d])
    requires i < |DraftUpTo(a, shuffled, homeAndAway, season, k).matches|
    ensures var draft := DraftUpTo(a, shuffled, homeAndAway, season, k);
      RowInDraft(a, draft.matches[i], season, k, draft.maxJ)
    decreases k
  {
    var prev := DraftUpTo(a, shuffled, homeAndAway, season, k - 1);
    if !Plays(a, k) || i < |prev.matches| {
      DraftSpec(a, users, shuffled, homeAndAway, season, k - 1, i);
      DraftKeepsRow(a, shuffled, homeAndAway, season, k, i);
    } else {
      DraftNewRow(a, users, shuffled, homeAndAway, season, k, i);
    }
  }

  /** A row drafted for an earlier division keeps its place, and `maxJ` only grows. */
  lemma DraftKeepsRow(a: Assignments, shuffled: map<int, seq<UserId>>, homeAndAway: bool, season: int, k: nat, i: nat)
    requires k >= 1 && forall d :: 1 <= d <= k ==> d in a
    requires forall d :: 1 <= d <= k && Plays(a, d) ==> d in shuffled
    requires i < |DraftUpTo(a, shuffled, homeAndAway, season, k - 1).matches|
    requires var prev := DraftUpTo(a, shuffled, homeAndAway, season, k - 1);
      RowInDraft(a, prev.matches[i], season, k - 1, prev.maxJ)
    ensures var draft := DraftUpTo(a, shuffled, homeAndAway, season, k);
      i < |draft.matches| && RowInDraft(a, draft.matches[i], season, k, draft.maxJ)
  {
    var prev := DraftUpTo(a, shuffled, homeAndAway, season, k - 1);
    var draft := DraftUpTo(a, shuffled, homeAndAway, season, k);
    assert draft.matches[..|prev.matches|] == prev.matches && prev.maxJ <= draft.maxJ;
    assert draft.matches[i] == prev.matches[i];
  }

  /** A row drafted for division `k` is a fixture of its own schedule. */
  lemma DraftNewRow(a: Assignments, users: seq<User>, shuffled: map<int, seq<UserId>>,
                    homeAndAway: bool, season: int, k: nat, i: nat)
    requires k >= 1 && forall d :: 1 <= d <= k ==> d in a
    requires forall d :: 1 <= d <= k && Plays(a, d) ==>
               d in shuffled && Shuffled(shuffled[d], PlayerIds(users, a[d])) && Distinct(shuffled[d])
    requires Plays(a, k)
    requires |DraftUpTo(a, shuffled, homeAndAway, season, k - 1).matches| <= i
    requires i < |DraftUpTo(a, shuffled, homeAndAway, season, k).matches|
    ensures var draft := DraftUpTo(a, shuffled, homeAndAway, season, k);
      RowInDraft(a, draft.matches[i], season, k, draft.maxJ)
  {
    var prev := DraftUpTo(a, shuffled, homeAndAway, season, k - 1);
    var draft := DraftUpTo(a, shuffled, homeAndAway, season, k);
    var fs := Schedule(shuffled[k], homeAndAway);
    var j := i - |prev.matches|;
    assert draft.matches == prev.matches + StampAll(fs, season, k);
    assert draft.matches[i] == NewMatch(season, k, fs[j]);
    FixtureInDivision(users, a[k], shuffled[k], homeAndAway, j);
  }

  /** Fixture `j` of a division's schedule is between two different picked players, in a
      matchday from 1 to the division's last. */
  lemma FixtureInDivision(users: seq<User>, ids: seq<UserId>, roster: seq<UserId>, homeAndAway: bool, j: nat)
    requires Shuffled(roster, PlayerIds(users, ids)) && Distinct(roster)
    requires j < |Schedule(roster, homeAndAway)|
    ensures var f := Schedule(roster, homeAndAway)[j];
      f.home != f.away && f.home in ids && f.away in ids && 1 <= f.week <= Weeks(roster, homeAndAway)
  {
    var fs := Schedule(roster, homeAndAway);
    ScheduleShape(roster, homeAndAway);
    ShapedAt(fs, roster, 1, Weeks(roster, homeAndAway));
    RosterPicked(users, ids, roster, fs[j].home);
    RosterPicked(users, ids, roster, fs[j].away);
  }

  /** Every new match is played in a week the new schedule has: week `w` is entry `w - 1`,
      a seven-day window. */
  lemma MatchHasWeek(a: Assignments, users: seq<User>, shuffled: map<int, seq<UserId>>,
                     numDivisions: nat, homeAndAway: bool, season: int, start: int, i: nat)
    requires forall d :: 1 <= d <= numDivisions ==> d in a
    requires forall d :: 1 <= d <= numDivisions && Plays(a, d) ==>
               d in shuffled && Shuffled(shuffled[d], PlayerIds(users, a[d])) && Distinct(shuffled[d])
    requires i < |DraftUpTo(a, shuffled, homeAndAway, season, numDivisions).matches|
    ensures var draft := DraftUpTo(a, shuffled, homeAndAway, season, numDivisions);
      var w := draft.matches[i].fixture.week;
      var schedule := InitialWindows(start, draft.maxJ);
      1 <= w <= |schedule| && schedule[w - 1].week == w && schedule[w - 1].end - schedule[w - 1].start == WEEK
  {
    var draft := DraftUpTo(a, shuffled, homeAndAway, season, numDivisions);
    DraftSpec(a, users, shuffled, homeAndAway, season, numDivisions, i);
    InitialWeek(start, draft.maxJ, draft.matches[i].fixture.week);
  }

  /** The last matchday is that of the longest division: `n - 1` weeks for a padded roster of
      `n` (twice that with return legs). */
  lemma DraftMaxJ(a: Assignments, shuffled: map<int, seq<UserId>>, homeAndAway: bool, season: int, k: nat, d: int)
    requires forall e :: 1 <= e <= k && Plays(a, e) ==> e in shuffled && Distinct(shuffled[e]) && |shuffled[e]| >= 2
    requires 1 <= d <= k && Plays(a, d)
    ensures DraftUpTo(a, shuffled, homeAndAway, season, k).maxJ >= Weeks(shuffled[d], homeAndAway)
    decreases k
  {
    var prev := DraftUpTo(a, shuffled, homeAndAway, season, k - 1);
    if d < k {
      DraftMaxJ(a, shuffled, homeAndAway, season, k - 1, d);
    } else {
      LastFixtureWeek(shuffled[k], homeAndAway);
    }
  }
}
