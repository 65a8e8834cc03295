// The league's week windows (`weeks_schedule` rows) and the three in-place
// walks that edit them in src/AdminPanel.jsx: an edited date, a toggled link
// flag and the reset to one-week intervals. Timestamps are integer minutes.

module WeekWindows {
  import opened Common

  /** One `weeks_schedule` row of the season being edited. */
  datatype Window = Window(week: int, start: int, end: int, linked: bool)

  /** The date field an edit writes. */
  datatype Field = StartAt | EndAt

  /** The rule for week `next` given the already updated week before it: a linked week copies
      it; an unlinked week starts where it ends and lasts either its own previous duration
      (`keepDuration`) or seven days. */
  function Follow(prev: Window, next: Window, keepDuration: bool): (r: Window)
    ensures r.week == next.week && r.linked == next.linked
    ensures next.linked ==> r.start == prev.start && r.end == prev.end
    ensures !next.linked ==> r.start == prev.end
    ensures !next.linked && keepDuration ==> r.end - r.start == next.end - next.start
    ensures !next.linked && !keepDuration ==> r.end - r.start == WEEK
  {
    if next.linked then next.(start := prev.start, end := prev.end)
    else next.(start := prev.end, end := prev.end + (if keepDuration then next.end - next.start else WEEK))
  }

  /** The forward walk from position `from`: every later week is rebuilt from its predecessor. */
  function Cascade(s: seq<Window>, from: nat, keepDuration: bool): (r: seq<Window>)
    requires from <= |s|
    ensures |r| == |s|
    ensures forall k :: 0 <= k < |s| ==> r[k].week == s[k].week && r[k].linked == s[k].linked
    decreases |s| - from
  {
    if from + 1 >= |s| then s
    else Cascade(s[from + 1 := Follow(s[from], s[from + 1], keepDuration)], from + 1, keepDuration)
  }

  /** The walk leaves weeks up to `from` alone and rebuilds each later week by `Follow`
      from its rebuilt predecessor and its own previous value. */
  lemma {:induction false} CascadeShape(s: seq<Window>, from: nat, keepDuration: bool)
    requires from <= |s|
    ensures forall k :: 0 <= k <= from && k < |s| ==> Cascade(s, from, keepDuration)[k] == s[k]
    ensures forall k :: from < k < |s| ==>
      Cascade(s, from, keepDuration)[k] == Follow(Cascade(s, from, keepDuration)[k - 1], s[k], keepDuration)
    decreases |s| - from
  {
    if from + 1 < |s| {
      var t := s[from + 1 := Follow(s[from], s[from + 1], keepDuration)];
      CascadeShape(t, from + 1, keepDuration);
    }
  }

  /** `handleDateChange`'s edit of one field. */
  function Edited(w: Window, field: Field, value: int): Window
  {
    match field
    case StartAt => w.(start := value)
    case EndAt => w.(end := value)
  }

  /** The schedule after editing `field` of week `index` to `value`. */
  function DateChanged(s: seq<Window>, index: nat, field: Field, value: int): seq<Window>
    requires index < |s|
  {
    Cascade(s[index := Edited(s[index], field, value)], index, true)
  }

  /** The window `toggleLink` gives week `w` after `prev`: the flag flips, then a newly linked
      week copies `prev` and a newly unlinked one starts at its end for seven days. */
  function Toggled(prev: Window, w: Window): (r: Window)
    ensures r.linked == !w.linked && r.week == w.week
  {
    Follow(prev, w.(linked := !w.linked), false)
  }

  /** The schedule after toggling the link of week `index`. */
  function LinkToggled(s: seq<Window>, index: nat): seq<Window>
    requires 1 <= index < |s|
  {
    Cascade(s[index := Toggled(s[index - 1], s[index])], index, true)
  }

  /** The schedule after `resetCalendarioSemanas`. */
  function Reset(s: seq<Window>): seq<Window>
  {
    Cascade(s, 0, false)
  }

  /** `handleDateChange`: write the field, then walk forward rebuilding each next week. */
  method HandleDateChange(a: array<Window>, index: nat, field: Field, value: int)
    requires index < a.Length
    modifies a
    ensures a[..] == DateChanged(old(a[..]), index, field, value)
  {
    a[index] := Edited(a[index], field, value);
    ghost var edited := a[..];
    var i := index;
    while i < a.Length
      invariant index <= i <= a.Length
      invariant Cascade(a[..], i, true) == Cascade(edited, index, true)
    {
      if i + 1 < a.Length {
        var current, next := a[i], a[i + 1];
        a[i + 1] := Follow(current, next, true);
      }
      i := i + 1;
    }
  }

  /** `toggleLink`; the control exists only from the second week on. */
  method ToggleLink(a: array<Window>, index: nat)
    requires 1 <= index < a.Length
    modifies a
    ensures a[..] == LinkToggled(old(a[..]), index)
  {
    a[index] := Toggled(a[index - 1], a[index]);
    ghost var toggled := a[..];
    var i := index;
    while i < a.Length - 1
      invariant index <= i <= a.Length - 1
      invariant Cascade(a[..], i, true) == Cascade(toggled, index, true)
    {
      var current, next := a[i], a[i + 1];
      a[i + 1] := Follow(current, next, true);
      i := i + 1;
    }
  }

  /** `resetCalendarioSemanas` (after the confirmation): every week after the first is
      rebuilt from its predecessor. */
  method ResetWeeks(a: array<Window>)
    modifies a
    ensures a[..] == Reset(old(a[..]))
  {
    var i := 0;
    while i < a.Length
      invariant 0 <= i <= a.Length
      invariant i == 0 ==> a[..] == old(a[..])
      invariant i > 0 ==> Cascade(a[..], i - 1, false) == Reset(old(a[..]))
    {
      if i > 0 {
        a[i] := Follow(a[i - 1], a[i], false);
      }
      i := i + 1;
    }
  }

  // What the walks guarantee.

  /** Rebuilding an already rebuilt week changes nothing. */
  lemma FollowStable(prev: Window, x: Window, keepDuration: bool)
    ensures Follow(prev, Follow(prev, x, keepDuration), keepDuration) == Follow(prev, x, keepDuration)
  {
  }

  lemma {:induction false} CascadeStableAt(s: seq<Window>, from: nat, keepDuration: bool, k: nat)
    requires from <= |s| && k < |s|
    ensures var r := Cascade(s, from, keepDuration);
      Cascade(r, from, keepDuration)[k] == r[k]
  {
    var r := Cascade(s, from, keepDuration);
    CascadeShape(s, from, keepDuration);
    CascadeShape(r, from, keepDuration);
    if k > from {
      CascadeStableAt(s, from, keepDuration, k - 1);
      FollowStable(r[k - 1], s[k], keepDuration);
    }
  }

  /** Walking twice from the same week gives the same schedule as walking once; in
      particular `resetCalendarioSemanas` is idempotent. */
  lemma CascadeIdempotent(s: seq<Window>, from: nat, keepDuration: bool)
    requires from <= |s|
    ensures Cascade(Cascade(s, from, keepDuration), from, keepDuration) == Cascade(s, from, keepDuration)
  {
    var r := Cascade(s, from, keepDuration);
    CascadeShape(s, from, keepDuration);
    CascadeShape(r, from, keepDuration);
    forall k | 0 <= k < |s|
      ensures Cascade(r, from, keepDuration)[k] == r[k]
    {
      CascadeStableAt(s, from, keepDuration, k);
    }
  }

  lemma ResetIdempotent(s: seq<Window>)
    ensures Reset(Reset(s)) == Reset(s)
  {
    CascadeIdempotent(s, 0, false);
  }

  /** After a date edit: earlier weeks untouched, the edited field set, and every later
      week a copy of its predecessor (linked) or starting at its end with its old length. */
  lemma DateChangeRule(s: seq<Window>, index: nat, field: Field, value: int)
    requires index < |s|
    ensures var r := DateChanged(s, index, field, value);
      |r| == |s| && r[..index] == s[..index] && r[index] == Edited(s[index], field, value) &&
      (forall k :: 0 <= k < |s| ==> r[k].week == s[k].week && r[k].linked == s[k].linked) &&
      (forall k :: index < k < |s| && s[k].linked ==>
        r[k].start == r[k - 1].start && r[k].end == r[k - 1].end) &&
      (forall k :: index < k < |s| && !s[k].linked ==>
        r[k].start == r[k - 1].end && r[k].end - r[k].start == s[k].end - s[k].start)
  {
    var e := s[index := Edited(s[index], field, value)];
    CascadeShape(e, index, true);
    var r := DateChanged(s, index, field, value);
    assert r == Cascade(e, index, true);
    assert r[..index] == s[..index];
    forall k | index < k < |s| && !s[k].linked
      ensures r[k].start == r[k - 1].end && r[k].end - r[k].start == s[k].end - s[k].start
    {
      assert r[k] == Follow(r[k - 1], s[k], true);
    }
  }

  /** After a toggle: the flag flips; a newly linked week copies its predecessor; a newly
      unlinked one starts at the predecessor's end and lasts seven days; later weeks follow. */
  lemma ToggleRule(s: seq<Window>, index: nat)
    requires 1 <= index < |s|
    ensures var r := LinkToggled(s, index);
      |r| == |s| && r[..index] == s[..index] && r[index].linked == !s[index].linked &&
      (s[index].linked ==> r[index].start == s[index - 1].end && r[index].end == s[index - 1].end + WEEK) &&
      (!s[index].linked ==> r[index].start == s[index - 1].start && r[index].end == s[index - 1].end) &&
      (forall k :: index < k < |s| ==> r[k].linked == s[k].linked) &&
      (forall k :: index < k < |s| && s[k].linked ==>
        r[k].start == r[k - 1].start && r[k].end == r[k - 1].end) &&
      (forall k :: index < k < |s| && !s[k].linked ==>
        r[k].start == r[k - 1].end && r[k].end - r[k].start == s[k].end - s[k].start)
  {
    var e := s[index := Toggled(s[index - 1], s[index])];
    CascadeShape(e, index, true);
    var r := LinkToggled(s, index);
    assert r == Cascade(e, index, true);
    assert r[..index] == s[..index];
    forall k | index < k < |s| && !s[k].linked
      ensures r[k].start == r[k - 1].end && r[k].end - r[k].start == s[k].end - s[k].start
    {
      assert r[k] == Follow(r[k - 1], s[k], true);
    }
  }

  /** After a reset: the first week untouched; every later week a copy of its predecessor
      (linked) or the seven days from its predecessor's end. */
  lemma ResetRule(s: seq<Window>)
    ensures var r := Reset(s);
      |r| == |s| && (|s| > 0 ==> r[0] == s[0]) &&
      (forall k :: 0 <= k < |s| ==> r[k].week == s[k].week && r[k].linked == s[k].linked) &&
      (forall k :: 0 < k < |s| && s[k].linked ==>
        r[k].start == r[k - 1].start && r[k].end == r[k - 1].end) &&
      (forall k :: 0 < k < |s| && !s[k].linked ==>
        r[k].start == r[k - 1].end && r[k].end == r[k].start + WEEK)
  {
    CascadeShape(s, 0, false);
    var r := Reset(s);
    forall k | 0 < k < |s| && !s[k].linked
      ensures r[k].start == r[k - 1].end && r[k].end == r[k].start + WEEK
    {
      assert r[k] == Follow(r[k - 1], s[k], false);
    }
  }

  // The schedule a new season starts with.

  /** Weeks `1..weeks` of seven days each, back to back from `start`, none linked. */
  function InitialWindows(start: int, weeks: nat): (r: seq<Window>)
    ensures |r| == weeks
    ensures forall k :: 0 <= k < weeks ==> r[k] == Window(k + 1, start + k * WEEK, start + (k + 1) * WEEK, false)
  {
    if weeks == 0 then [] else InitialWindows(start, weeks - 1) + [Window(weeks, start + (weeks - 1) * WEEK, start + weeks * WEEK, false)]
  }

  /** Week `w` of a fresh schedule is entry `w - 1`, seven days long. */
  lemma InitialWeek(start: int, weeks: nat, w: int)
    requires 1 <= w <= weeks
    ensures var r := InitialWindows(start, weeks);
      r[w - 1].week == w && r[w - 1].end - r[w - 1].start == WEEK
  {
    assert (w - 1 + 1) * WEEK == (w - 1) * WEEK + WEEK;
  }

  /** The schedule loop of `confirmarCreacionTemporada`. */
  method BuildWindows(start: int, maxWeek: int) returns (entries: seq<Window>)
    ensures entries == InitialWindows(start, if maxWeek > 0 then maxWeek else 0)
  {
    entries := [];
    var currentStart := start;
    var i := 1;
    while i <= maxWeek
      invariant 1 <= i <= if maxWeek > 0 then maxWeek + 1 else 1
      invariant entries == InitialWindows(start, i - 1)
      invariant currentStart == start + (i - 1) * WEEK
    {
      var currentEnd := currentStart + WEEK;
      entries := entries + [Window(i, currentStart, currentEnd, false)];
      assert currentEnd == start + i * WEEK;
      currentStart := currentEnd;
      i := i + 1;
    }
  }

  /** A freshly created schedule is already in one-week intervals: a reset leaves it as is. */
  lemma InitialIsReset(start: int, weeks: nat)
    ensures Reset(InitialWindows(start, weeks)) == InitialWindows(start, weeks)
  {
    var s := InitialWindows(start, weeks);
    CascadeShape(s, 0, false);
    var r := Reset(s);
    forall k | 0 <= k < weeks
      ensures r[k] == s[k]
    {
      InitialAgree(start, weeks, k);
    }
  }

  lemma {:induction false} InitialAgree(start: int, weeks: nat, k: nat)
    requires k < weeks
    ensures Reset(InitialWindows(start, weeks))[k] == InitialWindows(start, weeks)[k]
  {
    CascadeShape(InitialWindows(start, weeks), 0, false);
    if k > 0 {
      InitialAgree(start, weeks, k - 1);
    }
  }
}
