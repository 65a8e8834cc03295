// League fixture generation by the circle method (generarCalendario in
// src/AdminPanel.jsx). The random shuffle that precedes it is not modelled:
// the roster is taken in the order the shuffle left it.

module Fixtures {
  import opened Common

  /** One league match as inserted into the `matches` table. */
  datatype Fixture = Fixture(home: UserId, away: UserId, week: int)

  /** The roster as slots; the bye is the slot whose id is null. */
  function AsSlots(roster: seq<UserId>): (r: seq<Option<UserId>>)
    ensures |r| == |roster|
  {
    if roster == [] then [] else AsSlots(roster[..|roster| - 1]) + [Some(roster[|roster| - 1])]
  }

  lemma {:induction false} AsSlotsAt(roster: seq<UserId>, i: nat)
    requires i < |roster|
    ensures AsSlots(roster)[i] == Some(roster[i])
  {
    if i < |roster| - 1 {
      AsSlotsAt(roster[..|roster| - 1], i);
    }
  }

  /** An odd roster gets a bye appended, so the padded roster has even length. */
  function Padded(roster: seq<UserId>): (p: seq<Option<UserId>>)
    ensures |p| % 2 == 0 && |roster| <= |p| <= |roster| + 1
    ensures |roster| < |p| ==> p[|roster|] == None
  {
    AsSlots(roster) + (if |roster| % 2 != 0 then [None] else [])
  }

  /** Slot `i` of the padded roster holds player `i`, or the bye past the end of the roster. */
  lemma PaddedAt(roster: seq<UserId>, i: nat)
    requires i < |Padded(roster)|
    ensures Padded(roster)[i] == if i < |roster| then Some(roster[i]) else None
  {
    if i < |roster| {
      AsSlotsAt(roster, i);
    }
  }

  /** `temp.splice(1, 0, temp.pop())`: the last slot moves to position 1, slot 0 stays. */
  function Rotate(t: seq<Option<UserId>>): (r: seq<Option<UserId>>)
    requires |t| >= 2
    ensures |r| == |t|
  {
    [t[0], t[|t| - 1]] + t[1..|t| - 1]
  }

  /** After a turn, slot 0 stays, the last slot comes to position 1 and the rest move up one. */
  lemma RotateAt(t: seq<Option<UserId>>, k: nat)
    requires |t| >= 2 && k < |t|
    ensures Rotate(t)[k] == if k == 0 then t[0] else if k == 1 then t[|t| - 1] else t[k - 1]
  {
  }

  /** `temp.splice(1, 0, temp.pop())` on a copy of the slots. */
  method PopSplice(temp: seq<Option<UserId>>) returns (r: seq<Option<UserId>>)
    requires |temp| >= 2
    ensures r == Rotate(temp)
  {
    var last := temp[|temp| - 1];
    var rest := temp[..|temp| - 1];
    r := rest[..1] + [last] + rest[1..];
    assert rest[..1] == [temp[0]] && rest[1..] == temp[1..|temp| - 1];
  }

  /** The arrangement of the slots in week `j` (0-based): `j` rotations of the padded roster. */
  function Arrangement(p: seq<Option<UserId>>, j: nat): (t: seq<Option<UserId>>)
    requires |p| >= 2
    ensures |t| == |p|
  {
    if j == 0 then p else Rotate(Arrangement(p, j - 1))
  }

  /** The fixture played on table `i` of week `j`: slot `i` against slot `n-1-i`,
      the home side alternating with the parity of the week; none if either is the bye. */
  function TableFixture(t: seq<Option<UserId>>, j: nat, i: nat): seq<Fixture>
    requires i < |t|
  {
    match (t[i], t[|t| - 1 - i])
    case (Some(local), Some(visitor)) =>
      if j % 2 == 0 then [Fixture(local, visitor, j + 1)] else [Fixture(visitor, local, j + 1)]
    case _ => []
  }

  /** The fixtures of tables `0..i-1` of week `j`. */
  function WeekFixtures(t: seq<Option<UserId>>, j: nat, i: nat): seq<Fixture>
    requires i <= |t|
  {
    if i == 0 then [] else WeekFixtures(t, j, i - 1) + TableFixture(t, j, i - 1)
  }

  /** All fixtures of week `j` (0-based). */
  function Week(p: seq<Option<UserId>>, j: nat): seq<Fixture>
    requires |p| >= 2
  {
    WeekFixtures(Arrangement(p, j), j, |p| / 2)
  }

  /** The fixtures of weeks `0..w-1` (the first half, `jornadasIda`, when `w = n-1`). */
  function FirstHalf(p: seq<Option<UserId>>, w: nat): seq<Fixture>
    requires |p| >= 2
  {
    if w == 0 then [] else FirstHalf(p, w - 1) + Week(p, w - 1)
  }

  /** The second half: every fixture with home and away swapped, `offset` weeks later. */
  function Mirrored(fs: seq<Fixture>, offset: int): (r: seq<Fixture>)
    ensures |r| == |fs|
  {
    if fs == [] then []
    else
      var f := fs[|fs| - 1];
      Mirrored(fs[..|fs| - 1], offset) + [Fixture(f.away, f.home, f.week + offset)]
  }

  /** Fixture `k` of the second half is fixture `k` of the first with the sides swapped. */
  lemma {:induction false} MirroredAt(fs: seq<Fixture>, offset: int, k: nat)
    requires k < |fs|
    ensures Mirrored(fs, offset)[k] == Fixture(fs[k].away, fs[k].home, fs[k].week + offset)
  {
    if k < |fs| - 1 {
      MirroredAt(fs[..|fs| - 1], offset, k);
    }
  }

  /** The schedule the generator returns for a roster in shuffled order. */
  function Schedule(roster: seq<UserId>, homeAndAway: bool): seq<Fixture>
  {
    var p := Padded(roster);
    if homeAndAway then FirstHalfOf(p) + Mirrored(FirstHalfOf(p), |p| - 1) else FirstHalfOf(p)
  }

  /** All `n-1` weeks of the first half (nothing for an empty roster). */
  function FirstHalfOf(p: seq<Option<UserId>>): seq<Fixture>
  {
    if |p| >= 2 then FirstHalf(p, |p| - 1) else []
  }

  /** The inner loop of generarCalendario: the tables of one week, in order. */
  method PlayWeek(temp: seq<Option<UserId>>, j: nat) returns (week: seq<Fixture>)
    ensures week == WeekFixtures(temp, j, |temp| / 2)
  {
    var n := |temp|;
    week := [];
    var i := 0;
    while i < n / 2
      invariant i <= n / 2
      invariant week == WeekFixtures(temp, j, i)
    {
      var local := temp[i];
      var visitor := temp[n - 1 - i];
      if local.Some? && visitor.Some? {
        if j % 2 == 0 {
          week := week + [Fixture(local.value, visitor.value, j + 1)];
        } else {
          week := week + [Fixture(visitor.value, local.value, j + 1)];
        }
      }
      i := i + 1;
    }
  }

  /** The week loop of generarCalendario over the padded slots. */
  method FirstHalfLoop(players: seq<Option<UserId>>) returns (ida: seq<Fixture>)
    ensures ida == FirstHalfOf(players)
  {
    var n := |players|;
    ida := [];
    var temp := players;
    var j := 0;
    while j < n - 1
      invariant n >= 2 ==> j <= n - 1 && temp == Arrangement(players, j) && ida == FirstHalf(players, j)
      invariant n < 2 ==> j == 0 && ida == []
    {
      var week := PlayWeek(temp, j);
      WeekStep(players, j, temp, ida, week);
      ida := ida + week;
      temp := PopSplice(temp);
      j := j + 1;
    }
  }

  /** One pass of the week loop extends the first half by week `j` and turns the slots. */
  lemma WeekStep(p: seq<Option<UserId>>, j: nat, temp: seq<Option<UserId>>, ida: seq<Fixture>,
                 week: seq<Fixture>)
    requires |p| >= 2 && temp == Arrangement(p, j) && ida == FirstHalf(p, j)
    requires week == WeekFixtures(temp, j, |temp| / 2)
    ensures ida + week == FirstHalf(p, j + 1) && Rotate(temp) == Arrangement(p, j + 1)
  {
  }

  /** generarCalendario, with the shuffle taken as given. */
  method GenerateFixtures(roster: seq<UserId>, homeAndAway: bool) returns (fixtures: seq<Fixture>)
    ensures fixtures == Schedule(roster, homeAndAway)
  {
    var players := AsSlots(roster);
    if |players| % 2 != 0 {
      players := players + [None];
    }
    assert players == Padded(roster);
    var ida := FirstHalfLoop(players);
    if !homeAndAway {
      return ida;
    }
    var vuelta := Mirrored(ida, |players| - 1);
    fixtures := ida + vuelta;
  }
}
