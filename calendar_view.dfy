// What the league dashboard derives from the schedule and the fixtures (src/App.jsx): the
// "Fechas" table groups consecutive weeks that share a window, and the division selector lists
// the divisions of a season and falls back to the first when the current one is missing.

module CalendarView {
  import opened Common
  import opened Sorting
  import opened WeekWindows

  /** One row of the "Fechas" table: the weeks played in one window. */
  datatype WeekGroup = WeekGroup(weeks: seq<int>, start: int, end: int)

  /** A week with its window, as a row of the table shows it. */
  datatype Dated = Dated(week: int, start: int, end: int)

  /** The grouping the `forEach` builds over the schedule ordered by week. */
  function Grouped(data: seq<Window>): seq<WeekGroup>
  {
    if data == [] then []
    else
      var g := Grouped(data[..|data| - 1]);
      var item := data[|data| - 1];
      if g != [] && g[|g| - 1].start == item.start && g[|g| - 1].end == item.end then
        g[..|g| - 1] + [WeekGroup(g[|g| - 1].weeks + [item.week], item.start, item.end)]
      else
        g + [WeekGroup([item.week], item.start, item.end)]
  }

  /** `CalendarioFechas`: a new group whenever the window changes, else the week joins the
      last group. */
  method GroupWeeks(data: seq<Window>) returns (groups: seq<WeekGroup>)
    ensures groups == Grouped(data)
  {
    groups := [];
    for i := 0 to |data|
      invariant groups == Grouped(data[..i])
    {
      var item := data[i];
      assert data[..i + 1][..i] == data[..i];
      if groups != [] && groups[|groups| - 1].start == item.start && groups[|groups| - 1].end == item.end {
        var ultimo := groups[|groups| - 1];
        groups := groups[..|groups| - 1] + [WeekGroup(ultimo.weeks + [item.week], ultimo.start, ultimo.end)];
      } else {
        groups := groups + [WeekGroup([item.week], item.start, item.end)];
      }
    }
    assert data[..|data|] == data;
  }

  /** Each week of a group, with the group's window. */
  function Spread(g: WeekGroup): (r: seq<Dated>)
    ensures |r| == |g.weeks|
  {
    seq(|g.weeks|, i requires 0 <= i < |g.weeks| => Dated(g.weeks[i], g.start, g.end))
  }

  /** The table read back row by row, week by week. */
  function Expand(gs: seq<WeekGroup>): seq<Dated>
  {
    if gs == [] then [] else Expand(gs[..|gs| - 1]) + Spread(gs[|gs| - 1])
  }

  /** The schedule as the table should show it: every week with its own window. */
  function Dates(data: seq<Window>): (r: seq<Dated>)
    ensures |r| == |data|
  {
    seq(|data|, i requires 0 <= i < |data| => Dated(data[i].week, data[i].start, data[i].end))
  }

  /** Whether neighbouring groups always have different windows and no group is empty. */
  predicate Separated(gs: seq<WeekGroup>)
  {
    (forall i :: 0 <= i < |gs| ==> gs[i].weeks != [])
    && forall i :: 0 < i < |gs| ==> (gs[i - 1].start, gs[i - 1].end) != (gs[i].start, gs[i].end)
  }

  lemma ExpandSnoc(gs: seq<WeekGroup>, g: WeekGroup)
    ensures Expand(gs + [g]) == Expand(gs) + Spread(g)
  {
    assert (gs + [g])[..|gs|] == gs;
  }

  /** The last group carries the window of the last week. */
  lemma GroupedLast(data: seq<Window>)
    requires data != []
    ensures Grouped(data) != []
    ensures Grouped(data)[|Grouped(data)| - 1].start == data[|data| - 1].start
    ensures Grouped(data)[|Grouped(data)| - 1].end == data[|data| - 1].end
  {
  }

  lemma SpreadSnoc(weeks: seq<int>, week: int, start: int, end: int)
    ensures Spread(WeekGroup(weeks + [week], start, end)) == Spread(WeekGroup(weeks, start, end)) + [Dated(week, start, end)]
  {
    var a := Spread(WeekGroup(weeks + [week], start, end));
    var b := Spread(WeekGroup(weeks, start, end)) + [Dated(week, start, end)];
    assert |a| == |b|;
    forall i | 0 <= i < |a|
      ensures a[i] == b[i]
    {
    }
  }

  lemma ExpandGrow(pre: seq<WeekGroup>, last: WeekGroup, week: int)
    ensures Expand(pre + [WeekGroup(last.weeks + [week], last.start, last.end)])
            == Expand(pre + [last]) + [Dated(week, last.start, last.end)]
  {
    var merged := WeekGroup(last.weeks + [week], last.start, last.end);
    ExpandSnoc(pre, last);
    ExpandSnoc(pre, merged);
    SpreadSnoc(last.weeks, week, last.start, last.end);
    assert Expand(pre) + (Spread(last) + [Dated(week, last.start, last.end)])
        == (Expand(pre) + Spread(last)) + [Dated(week, last.start, last.end)];
  }

  /** Adding a week to the last group adds it, with that group's window, at the end. */
  lemma ExpandMerge(g: seq<WeekGroup>, week: int)
    requires g != []
    ensures var last := g[|g| - 1];
            Expand(g[..|g| - 1] + [WeekGroup(last.weeks + [week], last.start, last.end)])
            == Expand(g) + [Dated(week, last.start, last.end)]
  {
    var last := g[|g| - 1];
    assert g[..|g| - 1] + [last] == g;
    ExpandGrow(g[..|g| - 1], last, week);
  }

  lemma DatesSnoc(data: seq<Window>)
    requires data != []
    ensures var item := data[|data| - 1];
            Dates(data) == Dates(data[..|data| - 1]) + [Dated(item.week, item.start, item.end)]
  {
  }

  /** Reading the groups back gives every week, in order, with its own window. */
  lemma {:induction false} GroupedExpand(data: seq<Window>)
    ensures Expand(Grouped(data)) == Dates(data)
    decreases |data|
  {
    if data != [] {
      var init := data[..|data| - 1];
      var item := data[|data| - 1];
      var g := Grouped(init);
      GroupedExpand(init);
      DatesSnoc(data);
      if g != [] && g[|g| - 1].start == item.start && g[|g| - 1].end == item.end {
        ExpandMerge(g, item.week);
      } else {
        ExpandSnoc(g, WeekGroup([item.week], item.start, item.end));
      }
    }
  }

  /** Groups are never empty and neighbours differ in their window. */
  lemma {:induction false} GroupedSeparated(data: seq<Window>)
    ensures Separated(Grouped(data))
    decreases |data|
  {
    if data != [] {
      var init := data[..|data| - 1];
      GroupedSeparated(init);
    }
  }

  /** Grouping loses nothing: reading the groups back gives every week, in order, with its
      own window; groups are never empty and neighbours differ in their window. */
  lemma GroupedExact(data: seq<Window>)
    ensures Expand(Grouped(data)) == Dates(data)
    ensures Separated(Grouped(data))
    ensures data != [] ==>
              Grouped(data) != []
              && Grouped(data)[|Grouped(data)| - 1].start == data[|data| - 1].start
              && Grouped(data)[|Grouped(data)| - 1].end == data[|data| - 1].end
  {
    GroupedExpand(data);
    GroupedSeparated(data);
    if data != [] {
      GroupedLast(data);
    }
  }

  /** `f.weeks.includes(config.current_week)`. */
  predicate Highlighted(g: WeekGroup, current: int)
  {
    current in g.weeks
  }

  lemma {:induction false} ExpandHas(gs: seq<WeekGroup>, current: int)
    ensures (exists i :: 0 <= i < |gs| && Highlighted(gs[i], current))
        <==> exists k :: 0 <= k < |Expand(gs)| && Expand(gs)[k].week == current
    decreases |gs|
  {
    if gs != [] {
      var init := gs[..|gs| - 1];
      var g := gs[|gs| - 1];
      ExpandHas(init, current);
      var e := Expand(init);
      var all := Expand(gs);
      if current in g.weeks {
        var j :| 0 <= j < |g.weeks| && g.weeks[j] == current;
        assert all[|e| + j] == Spread(g)[j];
      }
      if exists k :: 0 <= k < |all| && all[k].week == current {
        var k :| 0 <= k < |all| && all[k].week == current;
        if k >= |e| {
          assert Spread(g)[k - |e|].week == current;
          assert g.weeks[k - |e|] == current;
          assert Highlighted(gs[|gs| - 1], current);
        } else {
          assert e[k].week == current;
          var i :| 0 <= i < |init| && Highlighted(init[i], current);
          assert gs[i] == init[i];
        }
      }
      if exists i :: 0 <= i < |gs| && Highlighted(gs[i], current) {
        var i :| 0 <= i < |gs| && Highlighted(gs[i], current);
        if i < |init| {
          assert init[i] == gs[i];
          var k :| 0 <= k < |e| && e[k].week == current;
          assert all[k] == e[k];
        }
      }
    }
  }

  /** Some row is highlighted exactly when the current week is in the schedule. */
  lemma HighlightExact(data: seq<Window>, current: int)
    ensures (exists i :: 0 <= i < |Grouped(data)| && Highlighted(Grouped(data)[i], current))
        <==> exists k :: 0 <= k < |data| && data[k].week == current
  {
    var g := Grouped(data);
    GroupedExpand(data);
    ExpandHas(g, current);
    var e := Expand(g);
    assert |e| == |data|;
    if exists k :: 0 <= k < |data| && data[k].week == current {
      var k :| 0 <= k < |data| && data[k].week == current;
      assert e[k] == Dates(data)[k];
    }
    if exists k :: 0 <= k < |e| && e[k].week == current {
      var k :| 0 <= k < |e| && e[k].week == current;
      assert e[k] == Dates(data)[k];
    }
  }

  // ----- Division selector --------------------------------------------------------------------

  /** `[...new Set(divisions)].sort((a, b) => a - b)`. */
  function DivisionList(divisions: seq<int>): seq<int>
  {
    SortBy(Unique(divisions), Identity)
  }

  /** The selector lists every division once, in ascending order. */
  lemma DivisionListSpec(divisions: seq<int>, x: int)
    ensures x in DivisionList(divisions) <==> x in divisions
    ensures forall i, j :: 0 <= i < j < |DivisionList(divisions)| ==>
      DivisionList(divisions)[i] < DivisionList(divisions)[j]
  {
    var r := DivisionList(divisions);
    UniqueSorted(divisions, Identity, x);
    assert Distinct(r) && SortedBy(r, Identity);
    forall i, j | 0 <= i < j < |r|
      ensures r[i] < r[j]
    {
      assert r[i] != r[j];
      assert Identity(r[i]) <= Identity(r[j]);
    }
  }

  /** The division shown after loading: the current one if the season has it, otherwise the
      first of the list (the list is empty only for a season without matches). */
  function SelectedDivision(list: seq<int>, current: int): int
  {
    if |list| > 0 && current !in list then list[0] else current
  }

  /** After loading, a season with divisions always shows one of them, and the fallback is the
      lowest division. */
  lemma SelectedDivisionSpec(divisions: seq<int>, current: int)
    ensures var list := DivisionList(divisions);
      var s := SelectedDivision(list, current);
      (current in divisions ==> s == current)
      && (divisions != [] ==> s in divisions)
      && (current !in divisions && divisions != [] ==> forall d :: d in divisions ==> s <= d)
  {
    var list := DivisionList(divisions);
    forall i | 0 <= i < |list|
      ensures list[i] in divisions
    {
      DivisionListSpec(divisions, list[i]);
    }
    forall i | 0 <= i < |divisions|
      ensures divisions[i] in list
    {
      DivisionListSpec(divisions, divisions[i]);
    }
    DivisionListSpec(divisions, current);
    SelectedFromAscending(list, divisions, current);
  }

  /** The selection rule on any ascending list holding exactly the season's divisions. */
  lemma SelectedFromAscending(list: seq<int>, divisions: seq<int>, current: int)
    requires forall i :: 0 <= i < |list| ==> list[i] in divisions
    requires forall i :: 0 <= i < |divisions| ==> divisions[i] in list
    requires forall i, j :: 0 <= i < j < |list| ==> list[i] < list[j]
    ensures var s := SelectedDivision(list, current);
      (current in divisions ==> s == current)
      && (divisions != [] ==> s in divisions)
      && (current !in divisions && divisions != [] ==> forall d :: d in divisions ==> s <= d)
  {
    if divisions != [] {
      assert divisions[0] in list;
      forall d | d in divisions
        ensures list[0] <= d
      {
        var i :| 0 <= i < |divisions| && divisions[i] == d;
        var j :| 0 <= j < |list| && list[j] == d;
      }
    }
  }
}
