// What the circle method guarantees about the generated league schedule:
// every two players of the roster meet exactly once in the first half, and
// once at each home in a home-and-away season.

module FixtureProperties {
  import opened Common
  import opened Fixtures

  /** `f` is a match between `a` and `b`, whichever is at home. */
  predicate Between(f: Fixture, a: UserId, b: UserId)
  {
    (f.home == a && f.away == b) || (f.home == b && f.away == a)
  }

  /** How many fixtures of `fs` are between `a` and `b`. */
  function Meetings(fs: seq<Fixture>, a: UserId, b: UserId): nat
  {
    if fs == [] then 0
    else Meetings(fs[..|fs| - 1], a, b) + (if Between(fs[|fs| - 1], a, b) then 1 else 0)
  }

  /** How many fixtures of `fs` have `a` at home against `b`. */
  function HomeMeetings(fs: seq<Fixture>, a: UserId, b: UserId): nat
  {
    if fs == [] then 0
    else
      var f := fs[|fs| - 1];
      HomeMeetings(fs[..|fs| - 1], a, b) + (if f.home == a && f.away == b then 1 else 0)
  }

  lemma {:induction false} MeetingsAppend(xs: seq<Fixture>, ys: seq<Fixture>, a: UserId, b: UserId)
    ensures Meetings(xs + ys, a, b) == Meetings(xs, a, b) + Meetings(ys, a, b)
    ensures HomeMeetings(xs + ys, a, b) == HomeMeetings(xs, a, b) + HomeMeetings(ys, a, b)
    decreases |ys|
  {
    if ys == [] {
      assert xs + ys == xs;
    } else {
      var zs := xs + ys;
      assert zs[..|zs| - 1] == xs + ys[..|ys| - 1] && zs[|zs| - 1] == ys[|ys| - 1];
      MeetingsAppend(xs, ys[..|ys| - 1], a, b);
    }
  }

  /** Between two different players, a meeting is a home game of one of them. */
  lemma {:induction false} MeetingsSplit(fs: seq<Fixture>, a: UserId, b: UserId)
    requires a != b
    ensures Meetings(fs, a, b) == HomeMeetings(fs, a, b) + HomeMeetings(fs, b, a)
  {
    if fs != [] {
      MeetingsSplit(fs[..|fs| - 1], a, b);
    }
  }

  /** The second half gives `a` a home game for every away game of the first half. */
  lemma {:induction false} MirroredHome(fs: seq<Fixture>, offset: int, a: UserId, b: UserId)
    ensures HomeMeetings(Mirrored(fs, offset), a, b) == HomeMeetings(fs, b, a)
  {
    if fs != [] {
      assert Mirrored(fs, offset)[..|fs| - 1] == Mirrored(fs[..|fs| - 1], offset);
      MirroredHome(fs[..|fs| - 1], offset, a, b);
    }
  }

  // Positions. With n slots and m = n - 1, slot 0 never moves and the other
  // slots turn one step per week.

  /** The padded-roster index found at position `k` in week `j`. */
  function Src(n: nat, k: nat, j: nat): (x: nat)
    requires 2 <= n && k < n && j < n - 1
    ensures x < n
  {
    if k == 0 then 0 else if k - 1 >= j then k - j else k - j + n - 1
  }

  /** The position of padded-roster index `x` in week `j`. */
  function Pos(n: nat, x: nat, j: nat): (k: nat)
    requires 2 <= n && x < n && j < n - 1
    ensures k < n
  {
    if x == 0 then 0 else if x - 1 + j < n - 1 then x + j else x + j - (n - 1)
  }

  lemma PosOfSrc(n: nat, k: nat, j: nat)
    requires 2 <= n && k < n && j < n - 1
    ensures Pos(n, Src(n, k, j), j) == k
  {
  }

  lemma SrcOfPos(n: nat, x: nat, j: nat)
    requires 2 <= n && x < n && j < n - 1
    ensures Src(n, Pos(n, x, j), j) == x
  {
  }

  /** Position `k` of week `j` holds `p[x]` exactly when `x` sits at position `k`. */
  lemma HoldsAt(p: seq<Option<UserId>>, j: nat, k: nat, x: nat)
    requires |p| >= 2 && Distinct(p) && j < |p| - 1 && k < |p| && x < |p|
    ensures Arrangement(p, j)[k] == p[x] <==> Pos(|p|, x, j) == k
  {
    ArrangementAt(p, j, k);
    PosOfSrc(|p|, k, j);
    SrcOfPos(|p|, x, j);
  }

  /** Closed form of the rotation: week `j` holds the roster turned `j` steps. */
  lemma {:induction false} ArrangementAt(p: seq<Option<UserId>>, j: nat, k: nat)
    requires |p| >= 2 && j < |p| - 1 && k < |p|
    ensures Arrangement(p, j)[k] == p[Src(|p|, k, j)]
    decreases j
  {
    if j > 0 {
      var i: nat := j - 1;
      var n := |p|;
      var k' := Before(n, k);
      ArrangementStep(p, i, k);
      ArrangementAt(p, i, k');
      SrcStep(n, k, i);
    }
  }

  /** The position a slot at `k` occupied one turn earlier. */
  function Before(n: nat, k: nat): nat
    requires k < n
  {
    if k == 0 then 0 else if k == 1 then n - 1 else k - 1
  }

  /** One turn of the rotation, read at position `k`. */
  lemma ArrangementStep(p: seq<Option<UserId>>, i: nat, k: nat)
    requires |p| >= 2 && k < |p|
    ensures Before(|p|, k) < |p|
    ensures Arrangement(p, i + 1)[k] == Arrangement(p, i)[Before(|p|, k)]
  {
    RotateAt(Arrangement(p, i), k);
  }

  /** The closed form agrees with one more turn. */
  lemma SrcStep(n: nat, k: nat, i: nat)
    requires 2 <= n && k < n && i + 1 < n - 1
    ensures Before(n, k) < n && Src(n, k, i + 1) == Src(n, Before(n, k), i)
  {
  }

  /** Players `x` and `y` face each other in week `j`: their positions are mirror images. */
  predicate MeetIn(n: nat, j: nat, x: nat, y: nat)
    requires 2 <= n && x < n && y < n && j < n - 1
  {
    Pos(n, x, j) + Pos(n, y, j) == n - 1
  }

  /** The week in which `x` and `y` meet. */
  function MeetWeek(n: nat, x: nat, y: nat): int
    requires 2 <= n && n % 2 == 0 && x < n && y < n && x != y
  {
    var m := n - 1;
    if x == 0 then m - y
    else if y == 0 then m - x
    else Twice(m, x, y) / 2
  }

  /** Position of a moving slot `x` after `j` turns of `m` moving seats. */
  function Turn(m: int, x: int, j: int): int
  {
    if x - 1 + j < m then x + j else x + j - m
  }

  /** Twice the week in which moving slots `x` and `y` sit on mirror positions. */
  function Twice(m: int, x: int, y: int): int
  {
    if (x + y) % 2 == 0 then 2 * m - x - y else if x + y <= m then m - x - y else 3 * m - x - y
  }

  /** With an odd number `m` of moving seats, two moving slots face each other
      in exactly one week of `m`. */
  lemma Circle(m: int, x: int, y: int, j: int)
    requires m % 2 == 1 && 1 <= x <= m && 1 <= y <= m && x != y && 0 <= j < m
    ensures Twice(m, x, y) % 2 == 0 && 0 <= Twice(m, x, y) < 2 * m
    ensures Turn(m, x, j) + Turn(m, y, j) == m <==> 2 * j == Twice(m, x, y)
  {
    if (x + y) % 2 == 0 {
      assert (x - y) % 2 == 0;
    }
  }

  /** Exactly one week of the first half pairs `x` with `y`. */
  lemma MeetWeekUnique(n: nat, x: nat, y: nat, j: nat)
    requires 2 <= n && n % 2 == 0 && x < n && y < n && x != y && j < n - 1
    ensures 0 <= MeetWeek(n, x, y) < n - 1
    ensures MeetIn(n, j, x, y) <==> j == MeetWeek(n, x, y)
  {
    var m := n - 1;
    if x != 0 && y != 0 {
      assert Pos(n, x, j) == Turn(m, x, j) && Pos(n, y, j) == Turn(m, y, j);
      Circle(m, x, y, j);
    }
  }

  /** The padded roster of a roster without repeats has no repeats either. */
  lemma PaddedDistinct(roster: seq<UserId>)
    requires Distinct(roster)
    ensures Distinct(Padded(roster))
  {
    var p := Padded(roster);
    forall i, j | 0 <= i < j < |p|
      ensures p[i] != p[j]
    {
      PaddedAt(roster, i);
      PaddedAt(roster, j);
    }
  }

  /** Table `i` holds a meeting of `u` and `v` exactly when they sit on its two ends. */
  lemma TablePair(t: seq<Option<UserId>>, j: nat, i: nat, u: Option<UserId>, v: Option<UserId>)
    requires i < |t| && u.Some? && v.Some? && u != v
    ensures Meetings(TableFixture(t, j, i), u.value, v.value)
         == if (t[i] == u && t[|t| - 1 - i] == v) || (t[i] == v && t[|t| - 1 - i] == u) then 1 else 0
  {
    var fs := TableFixture(t, j, i);
    if t[i].Some? && t[|t| - 1 - i].Some? {
      assert |fs| == 1 && fs[..0] == [];
    } else {
      assert fs == [];
    }
  }

  /** In an arrangement `t` where `u` sits only at position `pu` and `v` only at `pv`, the
      first `i` tables hold their meeting exactly when the two positions are mirror images
      and one of them is below `i`. */
  lemma {:induction false} WeekPair(t: seq<Option<UserId>>, j: nat, i: nat, u: Option<UserId>, v: Option<UserId>, pu: nat, pv: nat)
    requires i <= |t| / 2 && u.Some? && v.Some? && u != v && pu < |t| && pv < |t|
    requires forall k :: 0 <= k < |t| ==> (t[k] == u <==> k == pu)
    requires forall k :: 0 <= k < |t| ==> (t[k] == v <==> k == pv)
    ensures Meetings(WeekFixtures(t, j, i), u.value, v.value)
         == if pu + pv == |t| - 1 && (pu < i || pv < i) then 1 else 0
  {
    if i > 0 {
      var k := i - 1;
      var a, b := u.value, v.value;
      assert Meetings(WeekFixtures(t, j, i), a, b)
          == Meetings(WeekFixtures(t, j, k), a, b) + Meetings(TableFixture(t, j, k), a, b) by {
        assert WeekFixtures(t, j, i) == WeekFixtures(t, j, k) + TableFixture(t, j, k);
        MeetingsAppend(WeekFixtures(t, j, k), TableFixture(t, j, k), a, b);
      }
      assert Meetings(WeekFixtures(t, j, k), a, b) == if pu + pv == |t| - 1 && (pu < k || pv < k) then 1 else 0 by {
        WeekPair(t, j, k, u, v, pu, pv);
      }
      var here := (t[k] == u && t[|t| - 1 - k] == v) || (t[k] == v && t[|t| - 1 - k] == u);
      assert Meetings(TableFixture(t, j, k), a, b) == if here then 1 else 0 by {
        TablePair(t, j, k, u, v);
      }
      assert here <==> pu + pv == |t| - 1 && (pu == k || pv == k) by {
        assert t[k] == u <==> k == pu;
        assert t[|t| - 1 - k] == u <==> |t| - 1 - k == pu;
        assert t[k] == v <==> k == pv;
        assert t[|t| - 1 - k] == v <==> |t| - 1 - k == pv;
      }
    }
  }

  /** In week `j`, `p[x]` sits at position `Pos(n, x, j)` and nowhere else. */
  lemma Positions(p: seq<Option<UserId>>, j: nat, x: nat)
    requires |p| >= 2 && Distinct(p) && j < |p| - 1 && x < |p|
    ensures forall k :: 0 <= k < |p| ==> (Arrangement(p, j)[k] == p[x] <==> k == Pos(|p|, x, j))
  {
    forall k | 0 <= k < |p|
      ensures Arrangement(p, j)[k] == p[x] <==> k == Pos(|p|, x, j)
    {
      HoldsAt(p, j, k, x);
    }
  }

  /** A whole week holds the meeting of `p[x]` and `p[y]` exactly when it is their week. */
  lemma WholeWeekMeetings(p: seq<Option<UserId>>, j: nat, x: nat, y: nat)
    requires |p| >= 2 && |p| % 2 == 0 && Distinct(p) && j < |p| - 1
    requires x < |p| && y < |p| && x != y && p[x].Some? && p[y].Some?
    ensures Meetings(Week(p, j), p[x].value, p[y].value) == if MeetWeek(|p|, x, y) == j then 1 else 0
  {
    var n := |p|;
    Positions(p, j, x);
    Positions(p, j, y);
    WeekPair(Arrangement(p, j), j, n / 2, p[x], p[y], Pos(n, x, j), Pos(n, y, j));
    MeetWeekUnique(n, x, y, j);
  }

  /** If `a` and `b` meet once in week `mw` and in no other week, the first `w` weeks
      hold their meeting exactly when `mw` is among them. */
  /** Of weeks `0..w-1`, `a` and `b` meet once in week `mw` and in no other. */
  predicate OnlyIn(p: seq<Option<UserId>>, w: nat, a: UserId, b: UserId, mw: int)
    requires |p| >= 2
  {
    forall j :: 0 <= j < w ==> Meetings(Week(p, j), a, b) == if j == mw then 1 else 0
  }

  lemma {:induction false} HalfMeetings(p: seq<Option<UserId>>, w: nat, a: UserId, b: UserId, mw: int)
    requires |p| >= 2 && w <= |p| - 1 && OnlyIn(p, w, a, b, mw)
    ensures Meetings(FirstHalf(p, w), a, b) == if 0 <= mw < w then 1 else 0
  {
    if w > 0 {
      var v: nat := w - 1;
      assert OnlyIn(p, v, a, b, mw);
      assert Meetings(Week(p, v), a, b) == if v == mw then 1 else 0;
      HalfMeetings(p, v, a, b, mw);
      HalfStep(p, v, a, b);
    }
  }

  lemma HalfStep(p: seq<Option<UserId>>, v: nat, a: UserId, b: UserId)
    requires |p| >= 2
    ensures Meetings(FirstHalf(p, v + 1), a, b) == Meetings(FirstHalf(p, v), a, b) + Meetings(Week(p, v), a, b)
  {
    MeetingsAppend(FirstHalf(p, v), Week(p, v), a, b);
  }

  lemma MeetingWeek(p: seq<Option<UserId>>, x: nat, y: nat) returns (mw: int)
    requires |p| >= 2 && |p| % 2 == 0 && Distinct(p)
    requires x < |p| && y < |p| && x != y && p[x].Some? && p[y].Some?
    ensures 0 <= mw < |p| - 1 && OnlyIn(p, |p| - 1, p[x].value, p[y].value, mw)
  {
    mw := MeetWeek(|p|, x, y);
    MeetWeekUnique(|p|, x, y, 0);
    forall j | 0 <= j < |p| - 1
      ensures Meetings(Week(p, j), p[x].value, p[y].value) == if j == mw then 1 else 0
    {
      WholeWeekMeetings(p, j, x, y);
    }
  }

  lemma SlotsMeetOnce(p: seq<Option<UserId>>, x: nat, y: nat)
    requires |p| >= 2 && |p| % 2 == 0 && Distinct(p)
    requires x < |p| && y < |p| && x != y && p[x].Some? && p[y].Some?
    ensures Meetings(FirstHalf(p, |p| - 1), p[x].value, p[y].value) == 1
  {
    var mw := MeetingWeek(p, x, y);
    HalfOnce(p, p[x].value, p[y].value, mw);
  }

  lemma HalfOnce(p: seq<Option<UserId>>, a: UserId, b: UserId, mw: int)
    requires |p| >= 2 && 0 <= mw < |p| - 1 && OnlyIn(p, |p| - 1, a, b, mw)
    ensures Meetings(FirstHalf(p, |p| - 1), a, b) == 1
  {
    HalfMeetings(p, |p| - 1, a, b, mw);
  }

  /** A position of `a` in the roster. */
  lemma PositionOf(roster: seq<UserId>, a: UserId) returns (x: nat)
    requires a in roster
    ensures x < |roster| && roster[x] == a
  {
    x :| 0 <= x < |roster| && roster[x] == a;
  }

  /** A single round robin: any two different players of the roster meet exactly once. */
  lemma EveryPairMeetsOnce(roster: seq<UserId>, a: UserId, b: UserId)
    requires Distinct(roster) && a in roster && b in roster && a != b
    ensures Meetings(Schedule(roster, false), a, b) == 1
  {
    var p := Padded(roster);
    var x := PositionOf(roster, a);
    var y := PositionOf(roster, b);
    PaddedAt(roster, x);
    PaddedAt(roster, y);
    PaddedDistinct(roster);
    SlotsMeetOnce(p, x, y);
    assert Schedule(roster, false) == FirstHalf(p, |p| - 1);
  }

  /** A home-and-away season: any two different players meet exactly twice,
      once at each player's home. */
  lemma HomeAndAwayOnce(roster: seq<UserId>, a: UserId, b: UserId)
    requires Distinct(roster) && a in roster && b in roster && a != b
    ensures Meetings(Schedule(roster, true), a, b) == 2
    ensures HomeMeetings(Schedule(roster, true), a, b) == 1
  {
    var p := Padded(roster);
    var ida := FirstHalfOf(p);
    assert Meetings(ida, a, b) == 1 by {
      EveryPairMeetsOnce(roster, a, b);
    }
    MirroredMeetings(ida, |p| - 1, a, b);
    ScheduleHalves(roster);
  }

  /** The schedule is the first half, followed by its mirror image in a home-and-away season. */
  lemma ScheduleHalves(roster: seq<UserId>)
    ensures var p := Padded(roster);
      Schedule(roster, true) == FirstHalfOf(p) + Mirrored(FirstHalfOf(p), |p| - 1) &&
      Schedule(roster, false) == FirstHalfOf(p)
  {
  }

  /** Appending the mirrored half doubles every meeting and gives each side one home game
      per meeting of the first half. */
  lemma MirroredMeetings(ida: seq<Fixture>, offset: int, a: UserId, b: UserId)
    requires a != b
    ensures Meetings(ida + Mirrored(ida, offset), a, b) == 2 * Meetings(ida, a, b)
    ensures HomeMeetings(ida + Mirrored(ida, offset), a, b) == Meetings(ida, a, b)
  {
    var vuelta := Mirrored(ida, offset);
    MeetingsAppend(ida, vuelta, a, b);
    MeetingsSplit(ida, a, b);
    MeetingsSplit(vuelta, a, b);
    MirroredHome(ida, offset, a, b);
    MirroredHome(ida, offset, b, a);
  }

  // The shape of the schedule: real players only, never a player against
  // themselves, weeks in order, and a fixed number of fixtures per week.

  /** A fixture between two different players of the roster. */
  predicate Proper(f: Fixture, roster: seq<UserId>)
  {
    f.home != f.away && f.home in roster && f.away in roster
  }

  /** The occupied slots of the padded roster are the roster itself. */
  lemma SlotOf(roster: seq<UserId>, s: nat)
    requires s < |Padded(roster)|
    ensures Padded(roster)[s].Some? <==> s < |roster|
    ensures s < |roster| ==> Padded(roster)[s].value == roster[s]
  {
    PaddedAt(roster, s);
  }

  /** Positions `i` and `n-1-i` of a week hold different slots. */
  lemma TableSlotsDiffer(n: nat, j: nat, i: nat)
    requires 2 <= n && n % 2 == 0 && j < n - 1 && i < n / 2
    ensures Src(n, i, j) != Src(n, n - 1 - i, j)
  {
    PosOfSrc(n, i, j);
    PosOfSrc(n, n - 1 - i, j);
  }

  /** Fixtures between different players of the roster, in weeks `lo..hi`, never going back. */
  predicate Shaped(fs: seq<Fixture>, roster: seq<UserId>, lo: int, hi: int)
    decreases |fs|
  {
    fs == [] ||
    var last := fs[|fs| - 1];
    Shaped(fs[..|fs| - 1], roster, lo, last.week) && Proper(last, roster) && lo <= last.week <= hi
  }

  /** What `Shaped` means fixture by fixture. */
  lemma {:induction false} ShapedAt(fs: seq<Fixture>, roster: seq<UserId>, lo: int, hi: int)
    requires Shaped(fs, roster, lo, hi)
    ensures forall k :: 0 <= k < |fs| ==> Proper(fs[k], roster) && lo <= fs[k].week <= hi
    ensures forall k, l :: 0 <= k < l < |fs| ==> fs[k].week <= fs[l].week
    decreases |fs|
  {
    if fs != [] {
      var init := fs[..|fs| - 1];
      ShapedAt(init, roster, lo, fs[|fs| - 1].week);
      assert forall k :: 0 <= k < |init| ==> fs[k] == init[k];
    }
  }

  lemma {:induction false} AppendShaped(xs: seq<Fixture>, ys: seq<Fixture>, roster: seq<UserId>, lo: int, mid: int, hi: int)
    requires lo <= mid <= hi
    requires Shaped(xs, roster, lo, mid) && Shaped(ys, roster, mid, hi)
    ensures Shaped(xs + ys, roster, lo, hi)
    decreases |ys|
  {
    if ys == [] {
      assert xs + ys == xs;
    } else {
      var zs := xs + ys;
      var last := ys[|ys| - 1];
      assert zs[..|zs| - 1] == xs + ys[..|ys| - 1] && zs[|zs| - 1] == last;
      AppendShaped(xs, ys[..|ys| - 1], roster, lo, mid, last.week);
    }
  }

  lemma {:induction false} ShapedWiden(fs: seq<Fixture>, roster: seq<UserId>, lo: int, hi: int, lo': int, hi': int)
    requires lo' <= lo && hi <= hi' && Shaped(fs, roster, lo, hi)
    ensures Shaped(fs, roster, lo', hi')
    decreases |fs|
  {
    if fs != [] {
      var last := fs[|fs| - 1];
      ShapedWiden(fs[..|fs| - 1], roster, lo, last.week, lo', last.week);
    }
  }

  lemma {:induction false} MirroredShaped(fs: seq<Fixture>, roster: seq<UserId>, lo: int, hi: int, offset: int, lo': int, hi': int)
    requires Shaped(fs, roster, lo, hi) && lo' == lo + offset && hi' == hi + offset
    ensures Shaped(Mirrored(fs, offset), roster, lo', hi')
    decreases |fs|
  {
    if fs != [] {
      var last := fs[|fs| - 1];
      assert Mirrored(fs, offset)[..|fs| - 1] == Mirrored(fs[..|fs| - 1], offset);
      MirroredShaped(fs[..|fs| - 1], roster, lo, last.week, offset, lo', last.week + offset);
    }
  }

  /** The slots seat players of the roster, none of them twice. */
  predicate Seats(p: seq<Option<UserId>>, roster: seq<UserId>)
  {
    |p| >= 2 && |p| % 2 == 0 && Distinct(p) &&
    forall s :: 0 <= s < |p| && p[s].Some? ==> p[s].value in roster
  }

  /** The padded roster seats the roster. */
  lemma PaddedSeats(roster: seq<UserId>)
    requires Distinct(roster) && roster != []
    ensures Seats(Padded(roster), roster)
  {
    var p := Padded(roster);
    PaddedDistinct(roster);
    forall s | 0 <= s < |p| && p[s].Some?
      ensures p[s].value in roster
    {
      SlotOf(roster, s);
    }
  }

  /** The fixture of table `i` of week `j`, if any, is between different players of the roster. */
  lemma TableShape(p: seq<Option<UserId>>, roster: seq<UserId>, j: nat, i: nat)
    requires Seats(p, roster) && j < |p| - 1 && i < |p| / 2
    ensures Shaped(TableFixture(Arrangement(p, j), j, i), roster, j + 1, j + 1)
  {
    var n := |p|;
    var t := Arrangement(p, j);
    var s1, s2 := Src(n, i, j), Src(n, n - 1 - i, j);
    assert t[i] == p[s1] && t[n - 1 - i] == p[s2] by {
      ArrangementAt(p, j, i);
      ArrangementAt(p, j, n - 1 - i);
    }
    assert p[s1] != p[s2] by {
      TableSlotsDiffer(n, j, i);
    }
    assert (p[s1].Some? ==> p[s1].value in roster) && (p[s2].Some? ==> p[s2].value in roster);
    TableProper(t, roster, j, i);
  }

  /** A table whose two ends hold different slots, each a player of the roster or the bye,
      gives a fixture between different players of the roster, or none. */
  lemma TableProper(t: seq<Option<UserId>>, roster: seq<UserId>, j: nat, i: nat)
    requires i < |t| && t[i] != t[|t| - 1 - i]
    requires t[i].Some? ==> t[i].value in roster
    requires t[|t| - 1 - i].Some? ==> t[|t| - 1 - i].value in roster
    ensures Shaped(TableFixture(t, j, i), roster, j + 1, j + 1)
  {
    var f := TableFixture(t, j, i);
    if t[i].Some? && t[|t| - 1 - i].Some? {
      assert f == [f[0]] && f[..0] == [] && Proper(f[0], roster) && f[0].week == j + 1;
    }
  }

  /** Tables `0..i-1` of `t` each give a fixture between different players of the roster,
      or none. */
  predicate TablesShaped(t: seq<Option<UserId>>, roster: seq<UserId>, j: nat, i: nat)
    requires i <= |t|
  {
    i == 0 || (TablesShaped(t, roster, j, i - 1) && Shaped(TableFixture(t, j, i - 1), roster, j + 1, j + 1))
  }

  lemma {:induction false} WeekShapeOf(t: seq<Option<UserId>>, roster: seq<UserId>, j: nat, i: nat)
    requires i <= |t| && TablesShaped(t, roster, j, i)
    ensures Shaped(WeekFixtures(t, j, i), roster, j + 1, j + 1)
  {
    if i > 0 {
      WeekShapeOf(t, roster, j, i - 1);
      AppendShaped(WeekFixtures(t, j, i - 1), TableFixture(t, j, i - 1), roster, j + 1, j + 1, j + 1);
    }
  }

  lemma {:induction false} AllTablesShaped(p: seq<Option<UserId>>, roster: seq<UserId>, j: nat, i: nat)
    requires Seats(p, roster) && j < |p| - 1 && i <= |p| / 2
    ensures TablesShaped(Arrangement(p, j), roster, j, i)
  {
    if i > 0 {
      AllTablesShaped(p, roster, j, i - 1);
      TableShape(p, roster, j, i - 1);
    }
  }

  /** The fixtures of a week are between different players of the roster and carry the
      week number `j + 1`. */
  lemma WeekShape(p: seq<Option<UserId>>, roster: seq<UserId>, j: nat)
    requires Seats(p, roster) && j < |p| - 1
    ensures Shaped(Week(p, j), roster, j + 1, j + 1)
  {
    AllTablesShaped(p, roster, j, |p| / 2);
    WeekShapeOf(Arrangement(p, j), roster, j, |p| / 2);
  }

  /** Weeks `0..w-1` each hold fixtures between different players, numbered with the week. */
  predicate WeeksShaped(p: seq<Option<UserId>>, roster: seq<UserId>, w: nat)
    requires |p| >= 2
  {
    w == 0 || (WeeksShaped(p, roster, w - 1) && Shaped(Week(p, w - 1), roster, w, w))
  }

  lemma {:induction false} HalfShapeOf(p: seq<Option<UserId>>, roster: seq<UserId>, w: nat)
    requires |p| >= 2 && w >= 1 && WeeksShaped(p, roster, w)
    ensures Shaped(FirstHalf(p, w), roster, 1, w)
  {
    if w > 1 {
      HalfShapeOf(p, roster, w - 1);
      AppendShaped(FirstHalf(p, w - 1), Week(p, w - 1), roster, 1, w, w);
    } else if w == 1 {
      assert FirstHalf(p, 1) == [] + Week(p, 0) == Week(p, 0);
    }
  }

  lemma AllWeeksShaped(p: seq<Option<UserId>>, roster: seq<UserId>, w: nat)
    requires Seats(p, roster) && w <= |p| - 1
    ensures WeeksShaped(p, roster, w)
  {
    for i := 0 to w
      invariant WeeksShaped(p, roster, i)
    {
      WeekShape(p, roster, i);
      assert WeeksShaped(p, roster, i + 1);
    }
  }

  /** The first half is played in weeks `1..n-1`. */
  lemma FirstHalfShape(p: seq<Option<UserId>>, roster: seq<UserId>)
    requires Seats(p, roster)
    ensures Shaped(FirstHalfOf(p), roster, 1, |p| - 1)
  {
    var w := |p| - 1;
    assert WeeksShaped(p, roster, w) by {
      AllWeeksShaped(p, roster, w);
    }
    assert Shaped(FirstHalf(p, w), roster, 1, w) by {
      HalfShapeOf(p, roster, w);
    }
  }

  /** Every fixture is between two different players of the roster, and the weeks run
      from 1 to the schedule's last week without ever going back. */
  lemma ScheduleShape(roster: seq<UserId>, homeAndAway: bool)
    requires Distinct(roster)
    ensures Shaped(Schedule(roster, homeAndAway), roster, 1, Weeks(roster, homeAndAway))
  {
    var p := Padded(roster);
    var ida := FirstHalfOf(p);
    if roster == [] {
      assert Schedule(roster, homeAndAway) == [] by {
        ScheduleHalves(roster);
      }
    } else {
      assert Shaped(ida, roster, 1, |p| - 1) by {
        PaddedSeats(roster);
        FirstHalfShape(p, roster);
      }
      assert Shaped(ida + Mirrored(ida, |p| - 1), roster, 1, 2 * (|p| - 1)) by {
        HalvesShape(ida, roster, |p| - 1);
      }
      if homeAndAway {
        assert Schedule(roster, true) == ida + Mirrored(ida, |p| - 1) by {
          ScheduleHalves(roster);
        }
        assert Weeks(roster, true) == 2 * |p| - 2;
      } else {
        assert Schedule(roster, false) == ida by {
          ScheduleHalves(roster);
        }
        assert Weeks(roster, false) == |p| - 1;
      }
    }
  }

  /** A first half played in weeks `1..m`, followed by its mirror image, is played in
      weeks `1..2m`. */
  lemma HalvesShape(ida: seq<Fixture>, roster: seq<UserId>, m: int)
    requires Shaped(ida, roster, 1, m) && m >= 1
    ensures Shaped(ida + Mirrored(ida, m), roster, 1, 2 * m)
  {
    var vuelta := Mirrored(ida, m);
    assert Shaped(ida, roster, 1, m + 1) by {
      ShapedWiden(ida, roster, 1, m, 1, m + 1);
    }
    assert Shaped(vuelta, roster, m + 1, 2 * m) by {
      MirroredShaped(ida, roster, 1, m, m, m + 1, 2 * m);
    }
    AppendShaped(ida, vuelta, roster, 1, m + 1, 2 * m);
  }

  /** The first `r` slots hold players and the rest, at most one, is the bye. */
  predicate Filled(p: seq<Option<UserId>>, r: nat)
  {
    |p| >= 2 && |p| % 2 == 0 && |p| - 1 <= r <= |p| &&
    forall s :: 0 <= s < |p| ==> (p[s].Some? <==> s < r)
  }

  lemma PaddedFilled(roster: seq<UserId>)
    requires |roster| >= 1
    ensures Filled(Padded(roster), |roster|)
  {
    forall s | 0 <= s < |Padded(roster)|
      ensures Padded(roster)[s].Some? <==> s < |roster|
    {
      PaddedAt(roster, s);
    }
  }

  /** Table `i` produces a fixture unless the bye sits on it. */
  lemma TableSize(p: seq<Option<UserId>>, r: nat, j: nat, i: nat)
    requires Filled(p, r) && j < |p| - 1 && i < |p| / 2
    ensures var n := |p|; var b := Pos(n, n - 1, j);
      |TableFixture(Arrangement(p, j), j, i)| == if r < n && (b == i || b == n - 1 - i) then 0 else 1
  {
    var n := |p|;
    ArrangementAt(p, j, i);
    ArrangementAt(p, j, n - 1 - i);
    PosOfSrc(n, i, j);
    PosOfSrc(n, n - 1 - i, j);
    SrcOfPos(n, n - 1, j);
  }

  /** The first `i` tables of a week produce one fixture each, except the table of the bye. */
  lemma {:induction false} WeekSize(p: seq<Option<UserId>>, r: nat, j: nat, i: nat)
    requires Filled(p, r) && j < |p| - 1 && i <= |p| / 2
    ensures var n := |p|; var b := Pos(n, n - 1, j);
      |WeekFixtures(Arrangement(p, j), j, i)| == i - (if r < n && (b < i || n - 1 - b < i) then 1 else 0)
  {
    if i > 0 {
      var t := Arrangement(p, j);
      WeekSize(p, r, j, i - 1);
      assert |WeekFixtures(t, j, i)| == |WeekFixtures(t, j, i - 1)| + |TableFixture(t, j, i - 1)|;
      TableSize(p, r, j, i - 1);
    }
  }

  /** Each week holds `r / 2` fixtures: with an odd number of players one of them rests. */
  lemma WholeWeekSize(p: seq<Option<UserId>>, r: nat, j: nat)
    requires Filled(p, r) && j < |p| - 1
    ensures |Week(p, j)| == r / 2
  {
    WeekSize(p, r, j, |p| / 2);
  }

  lemma FirstHalfSize(p: seq<Option<UserId>>, r: nat, w: nat)
    requires Filled(p, r) && w <= |p| - 1
    ensures |FirstHalf(p, w)| == w * (r / 2)
  {
    forall j | 0 <= j < w
      ensures |Week(p, j)| == r / 2
    {
      WholeWeekSize(p, r, j);
    }
    HalfSize(p, r / 2, w);
  }

  /** Weeks of `h` fixtures each add up to `w * h` fixtures. */
  lemma {:induction false} HalfSize(p: seq<Option<UserId>>, h: nat, w: nat)
    requires |p| >= 2 && w <= |p| - 1
    requires forall j :: 0 <= j < w ==> |Week(p, j)| == h
    ensures |FirstHalf(p, w)| == w * h
  {
    if w > 0 {
      assert |FirstHalf(p, w)| == (w - 1) * h + h by {
        assert |FirstHalf(p, w)| == |FirstHalf(p, w - 1)| + |Week(p, w - 1)|;
        HalfSize(p, h, w - 1);
      }
      OneMore(w - 1, h);
    }
  }

  lemma OneMore(k: nat, h: nat)
    ensures k * h + h == (k + 1) * h
  {
  }

  /** A roster of `r` players gets `n - 1` weeks of `r / 2` fixtures per half,
      `n` being `r` rounded up to even. */
  lemma ScheduleSize(roster: seq<UserId>, homeAndAway: bool)
    ensures var n := |Padded(roster)|;
      |Schedule(roster, homeAndAway)|
        == (if homeAndAway then 2 else 1) * (if n >= 2 then (n - 1) * (|roster| / 2) else 0)
  {
    var p := Padded(roster);
    ScheduleHalves(roster);
    if |p| >= 2 {
      assert |FirstHalfOf(p)| == (|p| - 1) * (|roster| / 2) by {
        PaddedFilled(roster);
        FirstHalfSize(p, |roster|, |p| - 1);
      }
    }
  }

  /** The number of weeks a schedule spans: `n - 1` for one half, `2n - 2` for two. */
  function Weeks(roster: seq<UserId>, homeAndAway: bool): int
  {
    var n := |Padded(roster)|;
    if homeAndAway then 2 * (n - 1) else n - 1
  }

  /** Every fixture of week `j` carries the number `j + 1`. */
  lemma {:induction false} WeekNumbers(t: seq<Option<UserId>>, j: nat, i: nat)
    requires i <= |t|
    ensures forall k :: 0 <= k < |WeekFixtures(t, j, i)| ==> WeekFixtures(t, j, i)[k].week == j + 1
  {
    if i > 0 {
      WeekNumbers(t, j, i - 1);
    }
  }

  /** If week `w` is not empty, the first `w` weeks end with a fixture of week `w`. */
  lemma HalfEndsWith(p: seq<Option<UserId>>, w: nat)
    requires |p| >= 2 && 1 <= w <= |p| - 1
    requires |Week(p, w - 1)| > 0
    ensures |FirstHalf(p, w)| > 0 && FirstHalf(p, w)[|FirstHalf(p, w)| - 1].week == w
  {
    var last := Week(p, w - 1);
    var before := FirstHalf(p, w - 1);
    var all := FirstHalf(p, w);
    WeekNumbers(Arrangement(p, w - 1), w - 1, |p| / 2);
    assert last[|last| - 1].week == w;
    assert all == before + last;
    assert all[|all| - 1] == last[|last| - 1];
  }

  lemma FirstHalfLast(roster: seq<UserId>)
    requires Distinct(roster) && |roster| >= 2
    ensures var ida := FirstHalfOf(Padded(roster));
      |ida| > 0 && ida[|ida| - 1].week == |Padded(roster)| - 1
  {
    var p := Padded(roster);
    assert |Week(p, |p| - 2)| > 0 by {
      PaddedFilled(roster);
      WholeWeekSize(p, |roster|, |p| - 2);
    }
    HalfLast(p);
  }

  lemma HalfLast(p: seq<Option<UserId>>)
    requires |p| >= 2 && |Week(p, |p| - 2)| > 0
    ensures var ida := FirstHalfOf(p);
      |ida| > 0 && ida[|ida| - 1].week == |p| - 1
  {
    HalfEndsWith(p, |p| - 1);
  }

  /** With at least two players the last fixture is played in the schedule's last week. */
  lemma LastFixtureWeek(roster: seq<UserId>, homeAndAway: bool)
    requires Distinct(roster) && |roster| >= 2
    ensures var s := Schedule(roster, homeAndAway);
      |s| > 0 && s[|s| - 1].week == Weeks(roster, homeAndAway)
  {
    var p := Padded(roster);
    var n := |p|;
    var ida := FirstHalfOf(p);
    FirstHalfLast(roster);
    ScheduleHalves(roster);
    if homeAndAway {
      var vuelta := Mirrored(ida, n - 1);
      MirroredAt(ida, n - 1, |ida| - 1);
      assert (ida + vuelta)[|ida + vuelta| - 1] == vuelta[|ida| - 1];
    }
  }
}
