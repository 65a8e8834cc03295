// What `generarPlayoff` guarantees about the rows it inserts: the bracket is the smallest
// power of two that fits, every entrant is seated exactly once in the first round, later
// rounds start empty, each round lists its ties in order with mirrored second legs (none for
// byes), rounds follow one another from the first to the Final, and their date windows never
// overlap.

module PlayoffProperties {
  import opened Common
  import opened Text
  import opened Playoffs

  // ----- Bracket size -----------------------------------------------------------------------

  lemma {:induction false} Pow2Below(a: nat, b: nat)
    requires IsPow2(a) && IsPow2(b) && a < 2 * b
    ensures a <= b
    decreases b
  {
    if b > 1 && a > 1 {
      Pow2Below(a / 2, b / 2);
    }
  }

  /** `BracketSize(n)` is below every power of two that holds `n` entrants. */
  lemma BracketSizeSmallest(n: nat, p: nat)
    requires n >= 1 && IsPow2(p) && n <= p
    ensures BracketSize(n) <= p
  {
    Pow2Below(BracketSize(n), p);
  }

  // ----- Round names ------------------------------------------------------------------------

  lemma NamesDiffer(j: nat, k: nat)
    requires j < k < |ROUND_ORDER|
    ensures !SameName(ROUND_ORDER[j], ROUND_ORDER[k])
  {
    var a, b := ROUND_ORDER[j], ROUND_ORDER[k];
    assert Lower(a)[0] == LowerChar(a[0]) && Lower(b)[0] == LowerChar(b[0]);
  }

  /** The lower-case names are the round names in lower case. */
  lemma RoundKeysLower(k: nat)
    requires k < |ROUND_ORDER|
    ensures ROUND_KEYS[k] == Lower(ROUND_ORDER[k])
  {
    var name := ROUND_ORDER[k];
    var low := Lower(name);
    assert |low| == |ROUND_KEYS[k]|;
    forall i | 0 <= i < |low|
      ensures low[i] == ROUND_KEYS[k][i]
    {
      assert low[i] == LowerChar(name[i]);
    }
  }

  /** Each round name is found at its own position. */
  lemma FindOwnName(k: nat)
    requires k < |ROUND_ORDER|
    ensures FindRound(ROUND_ORDER[k]) == k
  {
    RoundKeysLower(k);
    FindFromFirst(ROUND_KEYS, Lower(ROUND_ORDER[k]), 0);
  }

  lemma NextOfOwnName(k: nat)
    requires k < |ROUND_ORDER|
    ensures NextRound(ROUND_ORDER[k]) == if k + 1 < |ROUND_ORDER| then Some(ROUND_ORDER[k + 1]) else None
  {
    FindOwnName(k);
  }

  /** The round after the one played by `size` entrants is the one played by half as many,
      and nothing follows the Final. */
  lemma NextRoundHalves(size: nat)
    requires size in {2, 4, 8, 16, 32}
    ensures RoundName(size).Some?
    ensures NextRound(RoundName(size).value) == RoundName(size / 2)
  {
    var k := if size == 32 then 0 else if size == 16 then 1 else if size == 8 then 2 else if size == 4 then 3 else 4;
    assert RoundName(size) == Some(ROUND_ORDER[k]);
    assert RoundName(size / 2) == if k < 4 then Some(ROUND_ORDER[k + 1]) else None;
    NextOfOwnName(k);
  }

  /** A name that is not a round (e.g. a label with a typo) has index `-1`, so `orderRondas[0]`
      is taken as its next round. */
  lemma NextRoundOfUnknown(base: string)
    requires forall k :: 0 <= k < |ROUND_ORDER| ==> !SameName(ROUND_ORDER[k], base)
    ensures NextRound(base) == Some(ROUND_ORDER[0])
  {
    FindFromFirst(ROUND_KEYS, Lower(base), 0);
    forall k | 0 <= k < |ROUND_KEYS|
      ensures ROUND_KEYS[k] != Lower(base)
    {
      RoundKeysLower(k);
    }
  }

  // ----- Round structure --------------------------------------------------------------------

  /** `size` halved `j` times. */
  function Halve(size: nat, j: nat): nat
  {
    if j == 0 then size else Halve(size / 2, j - 1)
  }

  /** The number of halvings from `size` down to the Final. */
  function Log2(size: nat): nat
  {
    if size < 2 then 0 else 1 + Log2(size / 2)
  }

  /** The start date of the `j`-th round generated from `size` entrants. */
  function RoundStart(d: Draw, size: nat, date: int, j: nat): int
    requires d.Valid() && size <= d.bracket
    decreases j
  {
    if j == 0 || size < 2 then date else RoundStart(d, size / 2, NextRoundDate(date, d.Legs(size)), j - 1)
  }

  lemma {:induction false} HalveBelow(size: nat, j: nat)
    ensures Halve(size, j) <= size
    ensures j >= 1 && size >= 1 ==> Halve(size, j) < size
    decreases j
  {
    if j > 0 {
      HalveBelow(size / 2, j - 1);
    }
  }

  /** There is one round per halving, and round `j` is the round of `Halve(size, j)` entrants
      starting at `RoundStart`. */
  lemma {:induction false} RoundsAt(d: Draw, size: nat, date: int, j: nat)
    requires d.Valid() && size <= d.bracket
    ensures |Rounds(d, size, date)| == Log2(size)
    ensures j < Log2(size) ==>
      2 <= Halve(size, j) <= d.bracket
      && Rounds(d, size, date)[j] == RoundRows(d, Halve(size, j), Halve(size, j) / 2, RoundStart(d, size, date, j))
    decreases size
  {
    if size >= 2 {
      var next := NextRoundDate(date, d.Legs(size));
      RoundsAt(d, size / 2, next, if j == 0 then 0 else j - 1);
      if j > 0 && j < Log2(size) {
        HalveBelow(size / 2, j - 1);
      }
    }
  }

  /** From a power of two, the last round is the Final (two entrants). */
  lemma {:induction false} LastRoundIsFinal(size: nat)
    requires IsPow2(size) && size >= 2
    ensures Halve(size, Log2(size) - 1) == 2
    decreases size
  {
    if size > 2 {
      LastRoundIsFinal(size / 2);
    }
  }

  // ----- First round --------------------------------------------------------------------------

  /** The ids on the two sides of a row. */
  function SideIds(m: PlannedMatch): multiset<UserId>
  {
    (if m.home.Some? then multiset{m.home.value} else multiset{})
    + (if m.away.Some? then multiset{m.away.value} else multiset{})
  }

  /** The rows of `rows` whose window opens at `date`: the first legs of a round starting then. */
  function FirstLegs(rows: seq<PlannedMatch>, date: int): seq<PlannedMatch>
  {
    if rows == [] then []
    else FirstLegs(rows[..|rows| - 1], date) + (if rows[|rows| - 1].start == date then [rows[|rows| - 1]] else [])
  }

  /** Everyone seated in the first legs. */
  function Entrants(rows: seq<PlannedMatch>): multiset<UserId>
  {
    if rows == [] then multiset{} else Entrants(rows[..|rows| - 1]) + SideIds(rows[|rows| - 1])
  }

  lemma {:induction false} FirstLegsAppend(a: seq<PlannedMatch>, b: seq<PlannedMatch>, date: int)
    ensures FirstLegs(a + b, date) == FirstLegs(a, date) + FirstLegs(b, date)
    decreases |b|
  {
    if b != [] {
      var c := b[..|b| - 1];
      assert (a + b)[..|a + b| - 1] == a + c;
      assert (a + b)[|a + b| - 1] == b[|b| - 1];
      FirstLegsAppend(a, c, date);
      var tail := if b[|b| - 1].start == date then [b[|b| - 1]] else [];
      assert FirstLegs(a + b, date) == FirstLegs(a + c, date) + tail;
      assert FirstLegs(b, date) == FirstLegs(c, date) + tail;
      Associative(FirstLegs(a, date), FirstLegs(c, date), tail);
    } else {
      assert a + b == a;
    }
  }

  lemma EntrantsSnoc(rows: seq<PlannedMatch>, m: PlannedMatch)
    ensures Entrants(rows + [m]) == Entrants(rows) + SideIds(m)
  {
    assert (rows + [m])[..|rows|] == rows;
  }

  /** Whether tie `i` of the round of `size` entrants has a second leg. */
  predicate SecondLegDue(d: Draw, size: nat, i: nat)
  {
    d.Legs(size) && (size != d.bracket || i < d.Real())
  }

  /** The second leg: same tie, home and away swapped, window one week and a minute later. */
  function Mirror(m: PlannedMatch, name: string): PlannedMatch
  {
    PlannedMatch(Some(SecondLegLabel(name)), m.order, m.away, m.home, m.start + WEEK + 1, m.end + WEEK + 1)
  }

  /** The rows of one tie: the first leg, then its mirror when a second leg is due. */
  lemma TieShape(d: Draw, size: nat, i: nat, date: int)
    requires d.Valid() && i < size / 2 && size <= d.bracket
    ensures var t := TieRows(d, size, i, date);
      |t| == (if SecondLegDue(d, size, i) then 2 else 1)
      && t[0] == PlannedMatch(FirstLegLabel(RoundName(size), d.Legs(size)), i,
                              Sides(d, size, i).0, Sides(d, size, i).1, date, FirstLegEnd(date))
      && (|t| == 2 ==> RoundName(size).Some? && t[1] == Mirror(t[0], RoundName(size).value))
  {
    if size == d.bracket {
      if i < d.Real() {
        RealTieSides(d, i);
      } else {
        ByeSides(d, i);
      }
    }
  }

  /** Only the first row of a tie opens at the round's start date. */
  lemma FirstLegOfTie(d: Draw, size: nat, i: nat, date: int)
    requires d.Valid() && i < size / 2 && size <= d.bracket
    ensures FirstLegs(TieRows(d, size, i, date), date) == [TieRows(d, size, i, date)[0]]
  {
    var t := TieRows(d, size, i, date);
    TieShape(d, size, i, date);
    assert FirstLegs([t[0]], date) == [t[0]] by {
      assert [t[0]][..0] == [];
    }
    if |t| == 2 {
      assert t[..1] == [t[0]];
      assert t[1].start != date;
    }
  }

  /** A first-round tie always has a home entrant; its away side is empty exactly for the byes,
      ties `Real() ..` of the round. */
  lemma FirstRoundBye(d: Draw, i: nat, date: int)
    requires d.Valid() && i < d.bracket / 2
    ensures TieRows(d, d.bracket, i, date)[0].home.Some?
    ensures TieRows(d, d.bracket, i, date)[0].away.None? <==> i >= d.Real()
    ensures |TieRows(d, d.bracket, i, date)| == 2 <==> d.Legs(d.bracket) && i < d.Real()
  {
    TieShape(d, d.bracket, i, date);
    if i < d.Real() {
      RealTieSides(d, i);
    } else {
      ByeSides(d, i);
    }
  }

  lemma SeatNext(i: nat, reals: nat)
    ensures Seat(i + 1, reals) == Seat(i, reals) + (if i < reals then 2 else 1)
  {
  }

  /** The first leg of first-round tie `i` seats `players[Seat(i) .. Seat(i + 1)]`. */
  lemma FirstRoundSeats(d: Draw, i: nat, date: int)
    requires d.Valid() && i < d.bracket / 2
    ensures Seat(i + 1, d.Real()) <= |d.players|
    ensures SideIds(TieRows(d, d.bracket, i, date)[0])
      == multiset(d.players[Seat(i, d.Real())..Seat(i + 1, d.Real())])
  {
    SeatNext(i, d.Real());
    TieShape(d, d.bracket, i, date);
    if i < d.Real() {
      RealTieSeats(d, i, date);
    } else {
      ByeTieSeats(d, i, date);
    }
  }

  lemma RealTieSeats(d: Draw, i: nat, date: int)
    requires d.Valid() && i < d.bracket / 2 && i < d.Real()
    ensures Seat(i, d.Real()) + 2 <= |d.players|
    ensures SideIds(TieRows(d, d.bracket, i, date)[0])
      == multiset(d.players[Seat(i, d.Real())..Seat(i, d.Real()) + 2])
  {
    var t := TieRows(d, d.bracket, i, date);
    var s := Seat(i, d.Real());
    RealTieSides(d, i);
    var x, y := d.players[s], d.players[s + 1];
    assert t[0].home == Some(x) && t[0].away == Some(y) by {
      TieShape(d, d.bracket, i, date);
    }
    PairSlice(d.players, s);
  }

  lemma ByeTieSeats(d: Draw, i: nat, date: int)
    requires d.Valid() && i < d.bracket / 2 && i >= d.Real()
    ensures Seat(i, d.Real()) + 1 <= |d.players|
    ensures SideIds(TieRows(d, d.bracket, i, date)[0])
      == multiset(d.players[Seat(i, d.Real())..Seat(i, d.Real()) + 1])
  {
    var t := TieRows(d, d.bracket, i, date);
    var s := Seat(i, d.Real());
    ByeSides(d, i);
    var x := d.players[s];
    assert t[0].home == Some(x) && t[0].away == None by {
      TieShape(d, d.bracket, i, date);
    }
    assert d.players[s..s + 1] == [x];
  }

  /** The two players at `s` and `s + 1`, as a multiset. */
  lemma PairSlice(p: seq<UserId>, s: nat)
    requires s + 2 <= |p|
    ensures multiset(p[s..s + 2]) == multiset{p[s]} + multiset{p[s + 1]}
  {
    assert p[s..s + 2] == [p[s], p[s + 1]];
    assert multiset([p[s], p[s + 1]]) == multiset{p[s]} + multiset{p[s + 1]};
  }

  lemma {:induction false} FirstRoundPrefix(d: Draw, k: nat, date: int)
    requires d.Valid() && k <= d.bracket / 2
    ensures Seat(k, d.Real()) <= |d.players|
    ensures Entrants(FirstLegs(RoundRows(d, d.bracket, k, date), date)) == multiset(d.players[..Seat(k, d.Real())])
    decreases k
  {
    RealTiesRange(|d.players|);
    if k > 0 {
      var i: nat := k - 1;
      FirstRoundPrefix(d, i, date);
      PrefixNextTie(d, i, date);
      assert i + 1 == k;
    }
  }

  /** One more first-round tie seats the next slice of the roster. */
  lemma PrefixNextTie(d: Draw, i: nat, date: int)
    requires d.Valid() && i < d.bracket / 2
    requires Seat(i, d.Real()) <= |d.players|
    requires Entrants(FirstLegs(RoundRows(d, d.bracket, i, date), date)) == multiset(d.players[..Seat(i, d.Real())])
    ensures Seat(i + 1, d.Real()) <= |d.players|
    ensures Entrants(FirstLegs(RoundRows(d, d.bracket, i + 1, date), date)) == multiset(d.players[..Seat(i + 1, d.Real())])
  {
    var f := FirstLegs(RoundRows(d, d.bracket, i, date), date);
    var m := TieRows(d, d.bracket, i, date)[0];
    var a, b := Seat(i, d.Real()), Seat(i + 1, d.Real());
    assert FirstLegs(RoundRows(d, d.bracket, i + 1, date), date) == f + [m] by {
      FirstLegsStep(d, d.bracket, i, date);
    }
    assert a <= b by {
      SeatNext(i, d.Real());
    }
    assert b <= |d.players| && SideIds(m) == multiset(d.players[a..b]) by {
      FirstRoundSeats(d, i, date);
    }
    SnocSlice(f, m, d.players, a, b);
  }

  /** Seating one more row whose sides are the next slice extends the seated prefix. */
  lemma SnocSlice(f: seq<PlannedMatch>, m: PlannedMatch, p: seq<UserId>, a: nat, b: nat)
    requires a <= b <= |p|
    requires Entrants(f) == multiset(p[..a])
    requires SideIds(m) == multiset(p[a..b])
    ensures Entrants(f + [m]) == multiset(p[..b])
  {
    EntrantsSnoc(f, m);
    SliceUnion(p, a, b);
  }

  lemma SliceUnion(p: seq<UserId>, a: nat, b: nat)
    requires a <= b <= |p|
    ensures multiset(p[..b]) == multiset(p[..a]) + multiset(p[a..b])
  {
    assert p[..b] == p[..a] + p[a..b];
  }

  /** Every shuffled entrant is seated exactly once in the first legs of the first round. */
  lemma FirstRoundSeatsEveryone(d: Draw, start: int)
    requires d.Valid()
    ensures |Rounds(d, d.bracket, start)| >= 1
    ensures Entrants(FirstLegs(Rounds(d, d.bracket, start)[0], start)) == multiset(d.players)
  {
    RealTiesRange(|d.players|);
    FirstRoundPrefix(d, d.bracket / 2, start);
    assert d.players[..Seat(d.bracket / 2, d.Real())] == d.players;
  }

  /** Every round after the first starts with both sides empty. */
  lemma {:induction false} LaterRoundEmpty(d: Draw, size: nat, k: nat, date: int)
    requires d.Valid() && k <= size / 2 && size < d.bracket
    ensures forall r :: r in RoundRows(d, size, k, date) ==> r.home.None? && r.away.None?
    decreases k
  {
    if k > 0 {
      LaterRoundEmpty(d, size, k - 1, date);
      TieShape(d, size, k - 1, date);
    }
  }

  lemma LaterRoundsEmpty(d: Draw, start: int, j: nat)
    requires d.Valid() && 1 <= j < |Rounds(d, d.bracket, start)|
    ensures forall r :: r in Rounds(d, d.bracket, start)[j] ==> r.home.None? && r.away.None?
  {
    RoundsAt(d, d.bracket, start, j);
    HalveBelow(d.bracket, j);
    var size := Halve(d.bracket, j);
    LaterRoundEmpty(d, size, size / 2, RoundStart(d, d.bracket, start, j));
  }

  // ----- Ties of a round ----------------------------------------------------------------------

  /** Adding tie `i` to a round adds exactly its first leg to the round's first legs. */
  lemma FirstLegsStep(d: Draw, size: nat, i: nat, date: int)
    requires d.Valid() && i < size / 2 && size <= d.bracket
    ensures FirstLegs(RoundRows(d, size, i + 1, date), date)
      == FirstLegs(RoundRows(d, size, i, date), date) + [TieRows(d, size, i, date)[0]]
  {
    var rows := RoundRows(d, size, i, date);
    var t := TieRows(d, size, i, date);
    FirstLegOfTie(d, size, i, date);
    FirstLegsAppend(rows, t, date);
    assert RoundRows(d, size, i + 1, date) == rows + t;
  }

  /** The first legs `f` of a round: one per tie in tie order, labelled with the round's name
      (with ` (Ida)` when two-legged) and sharing the first-leg window. */
  predicate InTieOrder(f: seq<PlannedMatch>, title: Option<string>, date: int)
  {
    forall o :: 0 <= o < |f| ==>
      f[o].order == o && f[o].round == title && f[o].start == date && f[o].end == FirstLegEnd(date)
  }

  lemma InTieOrderSnoc(f: seq<PlannedMatch>, m: PlannedMatch, title: Option<string>, date: int)
    requires InTieOrder(f, title, date)
    requires m.order == |f| && m.round == title && m.start == date && m.end == FirstLegEnd(date)
    ensures InTieOrder(f + [m], title, date)
  {
    var g := f + [m];
    forall o | 0 <= o < |g|
      ensures g[o].order == o && g[o].round == title && g[o].start == date && g[o].end == FirstLegEnd(date)
    {
      if o < |f| {
        assert g[o] == f[o];
      }
    }
  }

  lemma {:induction false} FirstLegsInOrder(d: Draw, size: nat, k: nat, date: int)
    requires d.Valid() && k <= size / 2 && size <= d.bracket
    ensures |FirstLegs(RoundRows(d, size, k, date), date)| == k
    ensures InTieOrder(FirstLegs(RoundRows(d, size, k, date), date), FirstLegLabel(RoundName(size), d.Legs(size)), date)
    decreases k
  {
    if k > 0 {
      var i: nat := k - 1;
      FirstLegsInOrder(d, size, i, date);
      FirstLegsStep(d, size, i, date);
      TieShape(d, size, i, date);
      InTieOrderSnoc(FirstLegs(RoundRows(d, size, i, date), date), TieRows(d, size, i, date)[0],
                     FirstLegLabel(RoundName(size), d.Legs(size)), date);
      assert i + 1 == k;
    }
  }

  /** Every row of `rows` outside the first-leg window is the mirror of the first leg `f[o]` of
      its tie `o`, and tie `o` is one whose second leg is due. */
  predicate Mirrored(d: Draw, size: nat, rows: seq<PlannedMatch>, f: seq<PlannedMatch>, date: int)
  {
    forall j :: 0 <= j < |rows| && rows[j].start != date ==>
      rows[j].order < |f| && RoundName(size).Some? && SecondLegDue(d, size, rows[j].order)
      && rows[j] == Mirror(f[rows[j].order], RoundName(size).value)
  }

  lemma MirroredSnoc(d: Draw, size: nat, rows: seq<PlannedMatch>, f: seq<PlannedMatch>, t: seq<PlannedMatch>, date: int)
    requires Mirrored(d, size, rows, f, date)
    requires 1 <= |t| <= 2 && t[0].start == date && t[0].order == |f|
    requires |t| == 2 ==> RoundName(size).Some? && SecondLegDue(d, size, |f|)
                          && t[1] == Mirror(t[0], RoundName(size).value)
    ensures Mirrored(d, size, rows + t, f + [t[0]], date)
  {
    var all, g := rows + t, f + [t[0]];
    forall j | 0 <= j < |all| && all[j].start != date
      ensures all[j].order < |g| && RoundName(size).Some? && SecondLegDue(d, size, all[j].order)
              && all[j] == Mirror(g[all[j].order], RoundName(size).value)
    {
      if j < |rows| {
        assert all[j] == rows[j];
        assert g[rows[j].order] == f[rows[j].order];
      } else {
        assert j == |rows| + 1 && all[j] == t[1];
        assert g[|f|] == t[0];
      }
    }
  }

  /** Every other row is the mirror of the first leg of its tie: home and away swapped, label
      ` (Vuelta)`, window one week and a minute later. */
  lemma {:induction false} SecondLegsMirror(d: Draw, size: nat, k: nat, date: int)
    requires d.Valid() && k <= size / 2 && size <= d.bracket
    ensures Mirrored(d, size, RoundRows(d, size, k, date), FirstLegs(RoundRows(d, size, k, date), date), date)
    decreases k
  {
    if k > 0 {
      var i: nat := k - 1;
      SecondLegsMirror(d, size, i, date);
      FirstLegsInOrder(d, size, i, date);
      FirstLegsStep(d, size, i, date);
      TieShape(d, size, i, date);
      var rows := RoundRows(d, size, i, date);
      MirroredSnoc(d, size, rows, FirstLegs(rows, date), TieRows(d, size, i, date), date);
      assert RoundRows(d, size, k, date) == rows + TieRows(d, size, i, date);
    }
  }

  function Min(a: int, b: int): int
  {
    if a < b then a else b
  }

  /** A round has one row per tie plus one per second leg: every tie in a two-legged round,
      except the byes of the first round. */
  lemma {:induction false} RoundRowCount(d: Draw, size: nat, k: nat, date: int)
    requires d.Valid() && k <= size / 2 && size <= d.bracket
    ensures |RoundRows(d, size, k, date)|
      == k + (if !d.Legs(size) then 0 else if size == d.bracket then Min(k, d.Real()) else k)
    decreases k
  {
    if k > 0 {
      RoundRowCount(d, size, k - 1, date);
      TieShape(d, size, k - 1, date);
    }
  }

  /** The rows of `rows` outside the first-leg window come in strictly increasing tie order. */
  predicate SecondLegsIncreasing(rows: seq<PlannedMatch>, date: int)
  {
    forall a, b :: 0 <= a < b < |rows| && rows[a].start != date && rows[b].start != date ==>
      rows[a].order < rows[b].order
  }

  lemma IncreasingSnoc(rows: seq<PlannedMatch>, t: seq<PlannedMatch>, date: int, i: nat)
    requires SecondLegsIncreasing(rows, date)
    requires forall j :: 0 <= j < |rows| && rows[j].start != date ==> rows[j].order < i
    requires 1 <= |t| <= 2 && t[0].start == date && (|t| == 2 ==> t[1].order == i)
    ensures SecondLegsIncreasing(rows + t, date)
  {
    var all := rows + t;
    forall a, b | 0 <= a < b < |all| && all[a].start != date && all[b].start != date
      ensures all[a].order < all[b].order
    {
      assert a < |rows| && all[a] == rows[a];
      if b < |rows| {
        assert all[b] == rows[b];
      } else {
        assert all[b] == t[1];
      }
    }
  }

  /** Second legs appear in tie order, so no tie has two of them. */
  lemma {:induction false} SecondLegsOrdered(d: Draw, size: nat, k: nat, date: int)
    requires d.Valid() && k <= size / 2 && size <= d.bracket
    ensures SecondLegsIncreasing(RoundRows(d, size, k, date), date)
    decreases k
  {
    if k > 0 {
      var i: nat := k - 1;
      var rows := RoundRows(d, size, i, date);
      SecondLegsOrdered(d, size, i, date);
      SecondLegsMirror(d, size, i, date);
      FirstLegsInOrder(d, size, i, date);
      TieShape(d, size, i, date);
      IncreasingSnoc(rows, TieRows(d, size, i, date), date, i);
      assert RoundRows(d, size, k, date) == rows + TieRows(d, size, i, date);
    }
  }

  // ----- Date windows ---------------------------------------------------------------------------

  /** Every row of a round lies between the round's start and the next round's start. */
  lemma {:induction false} RoundWithin(d: Draw, size: nat, k: nat, date: int)
    requires d.Valid() && k <= size / 2 && size <= d.bracket
    ensures forall r :: r in RoundRows(d, size, k, date) ==>
      date <= r.start < r.end < NextRoundDate(date, d.Legs(size))
    decreases k
  {
    if k > 0 {
      RoundWithin(d, size, k - 1, date);
      TieShape(d, size, k - 1, date);
    }
  }

  lemma {:induction false} RoundsStartAfter(d: Draw, size: nat, date: int)
    requires d.Valid() && size <= d.bracket
    ensures forall j, r :: 0 <= j < |Rounds(d, size, date)| && r in Rounds(d, size, date)[j] ==> date <= r.start
    decreases size
  {
    if size >= 2 {
      var next := NextRoundDate(date, d.Legs(size));
      RoundWithin(d, size, size / 2, date);
      RoundsStartAfter(d, size / 2, next);
      var rs := Rounds(d, size, date);
      assert forall j :: 1 <= j < |rs| ==> rs[j] == Rounds(d, size / 2, next)[j - 1];
    }
  }

  /** Every row of an earlier round closes before any row of a later round opens. */
  lemma {:induction false} RoundsDisjoint(d: Draw, size: nat, date: int)
    requires d.Valid() && size <= d.bracket
    ensures var rs := Rounds(d, size, date);
      forall j1, j2, a, b :: 0 <= j1 < j2 < |rs| && a in rs[j1] && b in rs[j2] ==> a.end < b.start
    decreases size
  {
    if size >= 2 {
      var next := NextRoundDate(date, d.Legs(size));
      RoundWithin(d, size, size / 2, date);
      RoundsStartAfter(d, size / 2, next);
      RoundsDisjoint(d, size / 2, next);
      var rs := Rounds(d, size, date);
      assert forall j :: 1 <= j < |rs| ==> rs[j] == Rounds(d, size / 2, next)[j - 1];
    }
  }
}
