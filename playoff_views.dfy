// What the bracket administration (src/AdminPlayoffs.jsx) derives from the rows of one
// playoff without changing them: the rounds of the bracket grid and the ties under each, the
// players a slot may be given, and the calendar of rounds with their windows.

module PlayoffViews {
  import opened Common
  import opened Text
  import opened Sorting
  import opened Playoffs
  import opened PlayoffProperties
  import opened PlayoffTable

  // ----- The bracket grid (`groupedForBracket`, `sortedRoundKeys`) ------------------------------

  /** `m.round.split(' (')[0]`: the round a row is shown under ("Semifinales" for
      "Semifinales (Ida)"). */
  function BaseOf(m: MatchRow): string
    requires m.round.Some?
  {
    SplitHead(m.round.value, " (")
  }

  function Bases(matches: seq<MatchRow>): (r: seq<string>)
    requires AllNamed(matches)
    ensures |r| == |matches|
  {
    seq(|matches|, i requires 0 <= i < |matches| => BaseOf(matches[i]))
  }

  /** `orderRondas.indexOf(name)`: the place of a round, `-1` for any other name. */
  function RoundIndex(name: string): int
  {
    IndexOf(ROUND_ORDER, name)
  }

  /** `Object.keys(groupedForBracket).sort(byRoundIndex)`: the base rounds in order of first
      appearance (the keys are not integer-like), stably sorted by their place in the round
      order. */
  function SortedRoundKeys(matches: seq<MatchRow>): seq<string>
    requires AllNamed(matches)
  {
    SortBy(Unique(Bases(matches)), RoundIndex)
  }

  /** Every base round present gets exactly one column, and columns follow the round order. */
  lemma SortedRoundKeysSpec(matches: seq<MatchRow>, base: string)
    requires AllNamed(matches)
    ensures base in SortedRoundKeys(matches) <==> exists i :: 0 <= i < |matches| && BaseOf(matches[i]) == base
    ensures Distinct(SortedRoundKeys(matches))
    ensures SortedBy(SortedRoundKeys(matches), RoundIndex)
  {
    var b := Bases(matches);
    UniqueSorted(b, RoundIndex, base);
    if exists i :: 0 <= i < |matches| && BaseOf(matches[i]) == base {
      var i :| 0 <= i < |matches| && BaseOf(matches[i]) == base;
      assert b[i] == base;
    }
    if base in b {
      var i :| 0 <= i < |b| && b[i] == base;
    }
  }

  predicate InRound(m: MatchRow, base: string)
  {
    m.round.Some? && BaseOf(m) == base
  }

  function OfRound(base: string): MatchRow -> bool
  {
    (m: MatchRow) => InRound(m, base)
  }

  function OfTie(base: string, order: int): MatchRow -> bool
  {
    (m: MatchRow) => InRound(m, base) && m.order == order
  }

  /** The match orders of the rows of a round, in fetch order. */
  function RoundOrders(matches: seq<MatchRow>, base: string): (r: seq<int>)
    ensures |r| == |Filter(matches, OfRound(base))|
  {
    var f := Filter(matches, OfRound(base));
    seq(|f|, i requires 0 <= i < |f| => f[i].order as int)
  }

  /** The keys of `groupedForBracket[base]`: match orders are integer keys, which
      `Object.values` visits in ascending order. */
  function TieOrders(matches: seq<MatchRow>, base: string): seq<int>
  {
    SortBy(Unique(RoundOrders(matches, base)), Identity)
  }

  /** `Object.values(groupedForBracket[base])`: one group per match order, each holding the
      round's rows with that order in fetch order. */
  function BracketGroups(matches: seq<MatchRow>, base: string): (r: seq<seq<MatchRow>>)
    ensures |r| == |TieOrders(matches, base)|
  {
    var os := TieOrders(matches, base);
    seq(|os|, k requires 0 <= k < |os| => Filter(matches, OfTie(base, os[k])))
  }

  /** Every row of a round lands in the group of its own match order. */
  lemma BracketGroupsCover(matches: seq<MatchRow>, base: string, i: nat)
    requires AllNamed(matches)
    requires i < |matches| && BaseOf(matches[i]) == base
    ensures exists k :: 0 <= k < |BracketGroups(matches, base)|
              && TieOrders(matches, base)[k] == matches[i].order
              && matches[i] in BracketGroups(matches, base)[k]
  {
    var m := matches[i];
    TieOrderListed(matches, base, i);
    var t := TieOrders(matches, base);
    var k :| 0 <= k < |t| && t[k] == m.order;
    FilterHas(matches, OfTie(base, t[k]), m);
    assert BracketGroups(matches, base)[k] == Filter(matches, OfTie(base, t[k]));
  }

  /** A row of the round has its match order among the round's tie orders. */
  lemma TieOrderListed(matches: seq<MatchRow>, base: string, i: nat)
    requires AllNamed(matches)
    requires i < |matches| && BaseOf(matches[i]) == base
    ensures matches[i].order as int in TieOrders(matches, base)
  {
    var m := matches[i];
    var f := Filter(matches, OfRound(base));
    var os := RoundOrders(matches, base);
    assert m in f;
    var j :| 0 <= j < |f| && f[j] == m;
    assert os[j] == m.order;
    UniqueSorted(os, Identity, m.order);
  }

  /** Groups are never empty, hold only rows of the round with the group's match order, and
      come in strictly ascending match order, so no row is in two groups. */
  lemma BracketGroupShape(matches: seq<MatchRow>, base: string, k: nat)
    requires k < |BracketGroups(matches, base)|
    ensures BracketGroups(matches, base)[k] != []
    ensures forall m :: m in BracketGroups(matches, base)[k] ==>
              m in matches && InRound(m, base) && m.order == TieOrders(matches, base)[k]
    ensures forall j :: 0 <= j < k ==> TieOrders(matches, base)[j] < TieOrders(matches, base)[k]
  {
    var f := Filter(matches, OfRound(base));
    var os := RoundOrders(matches, base);
    var t := TieOrders(matches, base);
    var g := BracketGroups(matches, base);
    UniqueSorted(os, Identity, t[k]);
    assert t[k] in os;
    var j :| 0 <= j < |os| && os[j] == t[k];
    assert f[j] in matches && OfTie(base, t[k])(f[j]);
    assert f[j] in g[k];
    forall m | m in g[k]
      ensures m in matches && InRound(m, base) && m.order == t[k]
    {
      FilterHas(matches, OfTie(base, t[k]), m);
    }
    forall j | 0 <= j < k
      ensures t[j] < t[k]
    {
      assert t[j] != t[k];
      assert Identity(t[j]) <= Identity(t[k]);
    }
  }

  // ----- Players a slot may be given (`getAvailablePlayers`) ------------------------------------

  /** An entry of the player list: `{ id, nick }`. */
  datatype Player = Player(id: UserId, nick: string)

  /** Whether `u` plays on either side of `m`. */
  predicate Seats(m: MatchRow, u: UserId)
  {
    m.home == Some(u) || m.away == Some(u)
  }

  function SidesOf(m: MatchRow): set<UserId>
  {
    (if m.home.Some? then {m.home.value} else {}) + (if m.away.Some? then {m.away.value} else {})
  }

  /** The `reduce`/`forEach` that collects the non-null sides of some rows into a set. */
  function SeatedIds(rows: seq<MatchRow>): set<UserId>
  {
    if rows == [] then {} else SeatedIds(rows[..|rows| - 1]) + SidesOf(rows[|rows| - 1])
  }

  lemma {:induction false} SeatedIdsSpec(rows: seq<MatchRow>, u: UserId)
    ensures u in SeatedIds(rows) <==> exists i :: 0 <= i < |rows| && Seats(rows[i], u)
    decreases |rows|
  {
    if rows != [] {
      var init := rows[..|rows| - 1];
      SeatedIdsSpec(init, u);
      if exists i :: 0 <= i < |rows| && Seats(rows[i], u) {
        var i :| 0 <= i < |rows| && Seats(rows[i], u);
        if i < |init| {
          assert init[i] == rows[i];
        }
      }
      if exists i :: 0 <= i < |init| && Seats(init[i], u) {
        var i :| 0 <= i < |init| && Seats(init[i], u);
        assert rows[i] == init[i];
      }
    }
  }

  /** An id seated in a kept row is seated in some row the filter accepts. */
  lemma SeatedFilterSound(rows: seq<MatchRow>, keep: MatchRow -> bool, u: UserId)
    requires u in SeatedIds(Filter(rows, keep))
    ensures exists i :: 0 <= i < |rows| && keep(rows[i]) && Seats(rows[i], u)
  {
    var f := Filter(rows, keep);
    SeatedIdsSpec(f, u);
    var j :| 0 <= j < |f| && Seats(f[j], u);
    var m := f[j];
    assert m in f;
    FilterHas(rows, keep, m);
    assert m in rows && keep(m) && Seats(m, u);
    var i :| 0 <= i < |rows| && rows[i] == m;
  }

  /** An id seated in a row the filter accepts is seated in the kept rows. */
  lemma SeatedFilterComplete(rows: seq<MatchRow>, keep: MatchRow -> bool, u: UserId, i: nat)
    requires i < |rows| && keep(rows[i]) && Seats(rows[i], u)
    ensures u in SeatedIds(Filter(rows, keep))
  {
    var f := Filter(rows, keep);
    FilterHas(rows, keep, rows[i]);
    var j :| 0 <= j < |f| && f[j] == rows[i];
    SeatedIdsSpec(f, u);
  }

  /** The ids seated in the rows a filter keeps are those seated in a kept row. */
  lemma SeatedFilter(rows: seq<MatchRow>, keep: MatchRow -> bool, u: UserId)
    ensures u in SeatedIds(Filter(rows, keep)) <==> exists i :: 0 <= i < |rows| && keep(rows[i]) && Seats(rows[i], u)
  {
    if u in SeatedIds(Filter(rows, keep)) {
      SeatedFilterSound(rows, keep, u);
    }
    if exists i :: 0 <= i < |rows| && keep(rows[i]) && Seats(rows[i], u) {
      var i :| 0 <= i < |rows| && keep(rows[i]) && Seats(rows[i], u);
      SeatedFilterComplete(rows, keep, u, i);
    }
  }

  function LabelIs(name: string): MatchRow -> bool
  {
    (m: MatchRow) => m.round == Some(name)
  }

  /** `orderRondas[roundIndex - 1]`: the round before; `undefined` for the first round and
      for any other name. */
  function PrevRound(round: string): Option<string>
  {
    var idx := RoundIndex(round);
    if idx >= 1 then Some(ROUND_ORDER[idx - 1]) else None
  }

  /** Whether `m` is one of the two ties of the previous round, orders `2k` and `2k + 1`,
      whose winners meet in tie `k` of `round`. No row matches an `undefined` round. */
  predicate FeedsInto(m: MatchRow, round: string, order: nat)
  {
    PrevRound(round).Some? && m.round == PrevRound(round) && (m.order == 2 * order || m.order == 2 * order + 1)
  }

  function Feeds(round: string, order: nat): MatchRow -> bool
  {
    (m: MatchRow) => FeedsInto(m, round, order)
  }

  function Free(taken: set<UserId>, current: Option<UserId>): Player -> bool
  {
    (p: Player) => p.id !in taken || current == Some(p.id)
  }

  function Among(ids: set<UserId>): Player -> bool
  {
    (p: Player) => p.id in ids
  }

  /** The first-round branch: everyone listed who is not seated in a row labelled exactly
      `round`, plus the slot's own occupant. */
  function FirstRoundChoices(matches: seq<MatchRow>, all: seq<Player>, round: string, current: Option<UserId>): seq<Player>
  {
    Filter(all, Free(SeatedIds(Filter(matches, LabelIs(round))), current))
  }

  /** The later-round branch: the players of the two ties that feed this one, or everyone while
      those are still empty. */
  function FeederChoices(matches: seq<MatchRow>, all: seq<Player>, round: string, order: nat): seq<Player>
  {
    var candidates := SeatedIds(Filter(matches, Feeds(round, order)));
    if candidates == {} then all else Filter(all, Among(candidates))
  }

  /** `getAvailablePlayers(round, matchOrder, currentTeamId)` over the rows of the selected
      playoff: the first branch for the grid's first column, the second for every other. */
  function AvailablePlayers(matches: seq<MatchRow>, all: seq<Player>, round: string, order: nat,
                            current: Option<UserId>): seq<Player>
    requires AllNamed(matches)
  {
    var keys := SortedRoundKeys(matches);
    if keys != [] && round == keys[0] then FirstRoundChoices(matches, all, round, current)
    else FeederChoices(matches, all, round, order)
  }

  /** The previous round is the one whose next round is `round`; only the rounds after the
      first have one. */
  lemma PrevRoundSpec(round: string)
    ensures PrevRound(round).Some? <==> exists k :: 1 <= k < |ROUND_ORDER| && ROUND_ORDER[k] == round
    ensures PrevRound(round).Some? ==> NextRound(PrevRound(round).value) == Some(round)
  {
    var idx := RoundIndex(round);
    if idx >= 1 {
      NextOfOwnName(idx - 1);
    }
    if exists k :: 1 <= k < |ROUND_ORDER| && ROUND_ORDER[k] == round {
      var k :| 1 <= k < |ROUND_ORDER| && ROUND_ORDER[k] == round;
      NamesDiffer(0, k);
      assert ROUND_ORDER[0] != round;
    }
  }

  /** First round: a player is offered exactly when listed and either not yet seated in a row
      labelled `round` or the slot's own occupant. */
  lemma FirstRoundChoicesSpec(matches: seq<MatchRow>, all: seq<Player>, round: string, current: Option<UserId>, p: Player)
    ensures p in FirstRoundChoices(matches, all, round, current) <==>
      p in all && (current == Some(p.id)
                   || !exists i :: 0 <= i < |matches| && matches[i].round == Some(round) && Seats(matches[i], p.id))
  {
    var taken := SeatedIds(Filter(matches, LabelIs(round)));
    SeatedFilter(matches, LabelIs(round), p.id);
    FilterHas(all, Free(taken, current), p);
  }

  /** The ties of the previous round that feed this one are still empty. */
  predicate NoFeeders(matches: seq<MatchRow>, round: string, order: nat)
  {
    forall i :: 0 <= i < |matches| && FeedsInto(matches[i], round, order) ==>
      matches[i].home.None? && matches[i].away.None?
  }

  /** No seated candidates exactly when the feeding ties are empty. */
  lemma NoCandidates(matches: seq<MatchRow>, round: string, order: nat)
    ensures SeatedIds(Filter(matches, Feeds(round, order))) == {} <==> NoFeeders(matches, round, order)
  {
    var candidates := SeatedIds(Filter(matches, Feeds(round, order)));
    if candidates == {} {
      forall i | 0 <= i < |matches| && FeedsInto(matches[i], round, order)
        ensures matches[i].home.None? && matches[i].away.None?
      {
        if matches[i].home.Some? {
          SeatedFilter(matches, Feeds(round, order), matches[i].home.value);
        }
        if matches[i].away.Some? {
          SeatedFilter(matches, Feeds(round, order), matches[i].away.value);
        }
      }
    } else {
      var u :| u in candidates;
      SeatedFilter(matches, Feeds(round, order), u);
    }
  }

  /** Later rounds: the players seated in the two feeding ties, or everyone listed, in list
      order, when both are still empty. */
  lemma FeederChoicesSpec(matches: seq<MatchRow>, all: seq<Player>, round: string, order: nat, p: Player)
    ensures NoFeeders(matches, round, order) ==> FeederChoices(matches, all, round, order) == all
    ensures p in FeederChoices(matches, all, round, order) <==>
      p in all && (NoFeeders(matches, round, order)
                   || exists i :: 0 <= i < |matches| && FeedsInto(matches[i], round, order) && Seats(matches[i], p.id))
  {
    var candidates := SeatedIds(Filter(matches, Feeds(round, order)));
    NoCandidates(matches, round, order);
    SeatedFilter(matches, Feeds(round, order), p.id);
    FilterHas(all, Among(candidates), p);
  }

  /** No round name contains a parenthesis. */
  lemma RoundNamesPlain(k: nat)
    requires k < |ROUND_ORDER|
    ensures '(' !in ROUND_ORDER[k]
  {
  }

  /** A filter that matches no row leaves nothing. */
  lemma FilterNone(rows: seq<MatchRow>, keep: MatchRow -> bool)
    requires forall i :: 0 <= i < |rows| ==> !keep(rows[i])
    ensures Filter(rows, keep) == []
  {
  }

  /** Labels are compared exactly: when every row carries a leg label (`X (Ida)`,
      `X (Vuelta)`) and the grid asks with a base name, both branches find no row and every
      player is offered. */
  lemma TwoLeggedOffersEveryone(matches: seq<MatchRow>, all: seq<Player>, round: string, order: nat,
                                current: Option<UserId>)
    requires AllNamed(matches)
    requires forall i :: 0 <= i < |matches| ==> '(' in matches[i].round.value
    requires '(' !in round
    ensures AvailablePlayers(matches, all, round, order, current) == all
  {
    var keys := SortedRoundKeys(matches);
    if keys != [] && round == keys[0] {
      FilterNone(matches, LabelIs(round));
      FilterAll(all, Free({}, current));
      assert FirstRoundChoices(matches, all, round, current) == all;
    } else {
      var prev := PrevRound(round);
      if prev.Some? {
        RoundNamesPlain(RoundIndex(round) - 1);
      }
      FilterNone(matches, Feeds(round, order));
    }
  }

  // ----- The calendar of rounds (`fetchMatches`) ------------------------------------------------

  /** A row of the calendar table: the round label of the rows it stands for, the caption
      shown, whether it is a second leg, and the window. */
  datatype CalendarRow = CalendarRow(round: Option<string>, caption: Option<string>, isVuelta: bool, start: int, end: int)

  /** `orderRondas.indexOf(m.round)`: only single-leg labels are round names; leg labels and a
      null round sort as `-1`. */
  function LabelKey(round: Option<string>): int
  {
    if round.Some? then RoundIndex(round.value) else -1
  }

  function Labels(data: seq<MatchRow>): (r: seq<Option<string>>)
    ensures |r| == |data|
  {
    seq(|data|, i requires 0 <= i < |data| => data[i].round)
  }

  /** `uniqueRounds`: the distinct labels, stably sorted by `LabelKey`. */
  function UniqueRounds(data: seq<MatchRow>): seq<Option<string>>
  {
    SortBy(Unique(Labels(data)), LabelKey)
  }

  /** A label in a template string: `null` prints as "null". */
  function Shown(round: Option<string>): string
  {
    if round.Some? then round.value else "null"
  }

  function RoundIs(round: Option<string>): MatchRow -> bool
  {
    (m: MatchRow) => m.round == round
  }

  function OrderZero(): MatchRow -> bool
  {
    (m: MatchRow) => m.order == 0
  }

  function StartOf(m: MatchRow): int
  {
    m.start
  }

  /** `firstMatchOrder`: the rows of tie 0 with exactly this label. */
  function TieZero(data: seq<MatchRow>, round: Option<string>): seq<MatchRow>
  {
    Filter(Filter(data, RoundIs(round)), OrderZero())
  }

  /** The rows the `forEach` pushes for one label: two (Ida and Vuelta, with the windows of the
      earliest and second-earliest tie 0 rows) when tie 0 has more than one row, else one with
      the window of the label's first row. A label taken from the rows always has a row. */
  function EntriesFor(data: seq<MatchRow>, round: Option<string>): seq<CalendarRow>
  {
    var inRound := Filter(data, RoundIs(round));
    var first := TieZero(data, round);
    if |first| > 1 then
      var sorted := SortBy(first, StartOf);
      [CalendarRow(round, Some(Shown(round) + " (Ida)"), false, sorted[0].start, sorted[0].end),
       CalendarRow(round, Some(Shown(round) + " (Vuelta)"), true, sorted[1].start, sorted[1].end)]
    else if inRound == [] then []
    else [CalendarRow(round, round, false, inRound[0].start, inRound[0].end)]
  }

  function EntriesOf(data: seq<MatchRow>): Option<string> -> seq<CalendarRow>
  {
    (round: Option<string>) => EntriesFor(data, round)
  }

  function RowStart(c: CalendarRow): int
  {
    c.start
  }

  /** `calendarData` after the final sort by start date. */
  function Calendar(data: seq<MatchRow>): seq<CalendarRow>
  {
    SortBy(FlatMap(UniqueRounds(data), EntriesOf(data)), RowStart)
  }

  /** The calendar part of `fetchMatches`: one pass over the sorted distinct labels pushing
      each label's rows, then a stable sort by start date. */
  method CalendarRows(data: seq<MatchRow>) returns (rows: seq<CalendarRow>)
    ensures rows == Calendar(data)
  {
    var rounds := UniqueRounds(data);
    var calendarData := [];
    for k := 0 to |rounds|
      invariant calendarData == FlatMap(rounds[..k], EntriesOf(data))
    {
      FlatMapSnoc(rounds, EntriesOf(data), k);
      calendarData := calendarData + EntriesFor(data, rounds[k]);
    }
    assert rounds[..|rounds|] == rounds;
    rows := SortBy(calendarData, RowStart);
  }

  /** A two-legged label: an Ida and a Vuelta row, the Ida window being the earliest of the
      tie 0 rows and starting no later than the Vuelta. */
  lemma EntriesForLegs(data: seq<MatchRow>, round: Option<string>)
    requires |TieZero(data, round)| > 1
    ensures var e := EntriesFor(data, round);
      var first := TieZero(data, round);
      |e| == 2 && e[0].caption == Some(Shown(round) + " (Ida)") && e[1].caption == Some(Shown(round) + " (Vuelta)")
      && !e[0].isVuelta && e[1].isVuelta && e[0].start <= e[1].start
      && forall j :: 0 <= j < |first| ==> e[0].start <= first[j].start
  {
    var first := TieZero(data, round);
    var sorted := SortBy(first, StartOf);
    SortByCorrect(first, StartOf);
    assert StartOf(sorted[0]) <= StartOf(sorted[1]);
    forall j | 0 <= j < |first|
      ensures sorted[0].start <= first[j].start
    {
      SortByFirstLeast(first, StartOf, j);
    }
  }

  /** A single-leg label: one row, captioned with the label itself, with the window of the
      first row in fetch order that carries it. */
  lemma EntriesForSingle(data: seq<MatchRow>, round: Option<string>, i: nat)
    requires i < |data| && data[i].round == round
    requires forall j :: 0 <= j < i ==> data[j].round != round
    requires |TieZero(data, round)| <= 1
    ensures EntriesFor(data, round) == [CalendarRow(round, round, false, data[i].start, data[i].end)]
  {
    FilterHead(data, i, RoundIs(round));
  }

  /** Every calendar row shows the window of some row of its own label. */
  lemma EntriesForFromData(data: seq<MatchRow>, round: Option<string>, t: nat) returns (i: nat)
    requires t < |EntriesFor(data, round)|
    ensures var c := EntriesFor(data, round)[t];
      c.round == round && i < |data| && data[i].round == round && data[i].start == c.start && data[i].end == c.end
  {
    var inRound := Filter(data, RoundIs(round));
    var first := TieZero(data, round);
    var m: MatchRow;
    if |first| > 1 {
      var sorted := SortBy(first, StartOf);
      SortByHas(first, StartOf, t);
      m := sorted[t];
      assert m in first;
    } else {
      m := inRound[0];
    }
    assert m in inRound;
    assert m in data;
    i := IndexOf(data, m);
  }

  /** The calendar is in start order and every row of it shows the window of a row of the
      playoff with the same label. */
  lemma CalendarFromData(data: seq<MatchRow>, t: nat)
    requires t < |Calendar(data)|
    ensures SortedBy(Calendar(data), RowStart)
    ensures var c := Calendar(data)[t];
      exists i :: 0 <= i < |data| && data[i].round == c.round && data[i].start == c.start && data[i].end == c.end
  {
    SortByCorrect(FlatMap(UniqueRounds(data), EntriesOf(data)), RowStart);
    CalendarRowFromData(data, t);
  }

  lemma CalendarRowFromData(data: seq<MatchRow>, t: nat)
    requires t < |Calendar(data)|
    ensures var c := Calendar(data)[t];
      exists i :: 0 <= i < |data| && data[i].round == c.round && data[i].start == c.start && data[i].end == c.end
  {
    var rounds := UniqueRounds(data);
    var e := FlatMap(rounds, EntriesOf(data));
    var c := Calendar(data)[t];
    assert c in e by {
      SortByHas(e, RowStart, t);
    }
    var k := FlatMapSource(rounds, EntriesOf(data), c);
    var es := EntriesFor(data, rounds[k]);
    assert c in es;
    var s := IndexOf(es, c);
    var i := EntriesForFromData(data, rounds[k], s);
  }

  /** Every label of the playoff's rows is one of the calendar's distinct labels. */
  lemma RoundListed(data: seq<MatchRow>, i: nat)
    requires i < |data|
    ensures data[i].round in UniqueRounds(data)
  {
    assert Labels(data)[i] == data[i].round;
    UniqueSorted(Labels(data), LabelKey, data[i].round);
  }

  /** A label some row carries gets at least one calendar entry. */
  lemma EntriesNonEmpty(data: seq<MatchRow>, i: nat)
    requires i < |data|
    ensures EntriesFor(data, data[i].round) != []
  {
    assert data[i] in Filter(data, RoundIs(data[i].round));
  }

  /** An entry of a listed label ends up in the calendar. */
  lemma CalendarHas(data: seq<MatchRow>, round: Option<string>, c: CalendarRow)
    requires round in UniqueRounds(data) && c in EntriesFor(data, round)
    ensures c in Calendar(data)
  {
    var rounds := UniqueRounds(data);
    var k :| 0 <= k < |rounds| && rounds[k] == round;
    FlatMapHas(rounds, EntriesOf(data), c);
    SortByKeeps(FlatMap(rounds, EntriesOf(data)), RowStart);
    assert c in multiset(Calendar(data));
  }

  /** Every label of the playoff's rows has a row in the calendar. */
  lemma CalendarCovers(data: seq<MatchRow>, i: nat)
    requires i < |data|
    ensures exists t :: 0 <= t < |Calendar(data)| && Calendar(data)[t].round == data[i].round
  {
    var round := data[i].round;
    RoundListed(data, i);
    EntriesNonEmpty(data, i);
    var es := EntriesFor(data, round);
    var _ := EntriesForFromData(data, round, 0);
    CalendarHas(data, round, es[0]);
    var t :| 0 <= t < |Calendar(data)| && Calendar(data)[t] == es[0];
  }
}
