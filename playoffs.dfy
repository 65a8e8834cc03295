// Knockout bracket generation (`generarPlayoff`): the bracket is the smallest power of two
// that holds the entrants, the first round pairs the shuffled entrants and gives the rest a
// bye, every later round starts empty, two-legged rounds get a mirrored second leg, and each
// round has its own date windows. The shuffle is an input: `players` is already in the
// shuffled order.

module Playoffs {
  import opened Common
  import opened Text

  /** `orderRondas`: rounds from the earliest to the Final. */
  const ROUND_ORDER: seq<string> := ["Dieciseisavos", "Octavos", "Cuartos", "Semifinales", "Final"]

  /** `rondasNombres`: the name of the round played by `size` entrants; larger sizes have none. */
  function RoundName(size: nat): Option<string>
  {
    if size == 2 then Some("Final")
    else if size == 4 then Some("Semifinales")
    else if size == 8 then Some("Cuartos")
    else if size == 16 then Some("Octavos")
    else if size == 32 then Some("Dieciseisavos")
    else None
  }

  /** `a.toLowerCase() === b.toLowerCase()`. */
  predicate SameName(a: string, b: string)
  {
    Lower(a) == Lower(b)
  }

  /** `orderRondas` as `findIndex` compares it: each name in lower case. */
  const ROUND_KEYS: seq<string> := ["dieciseisavos", "octavos", "cuartos", "semifinales", "final"]

  /** `orderRondas.findIndex(r => r.toLowerCase() === base.toLowerCase())`, `-1` when absent. */
  function FindRound(base: string): (r: int)
    ensures -1 <= r < |ROUND_ORDER|
  {
    FindFrom(ROUND_KEYS, Lower(base), 0)
  }

  /** The first index at or after `k` holding `key`, else `-1`. */
  function FindFrom(keys: seq<string>, key: string, k: nat): (r: int)
    requires k <= |keys|
    ensures r == -1 || k <= r < |keys|
    decreases |keys| - k
  {
    if k == |keys| then -1
    else if keys[k] == key then k
    else FindFrom(keys, key, k + 1)
  }

  lemma {:induction false} FindFromFirst(keys: seq<string>, key: string, k: nat)
    requires k <= |keys|
    ensures var r := FindFrom(keys, key, k);
      (r >= 0 ==> keys[r] == key) &&
      forall j :: k <= j < |keys| && (r == -1 || j < r) ==> keys[j] != key
    decreases |keys| - k
  {
    if k < |keys| && keys[k] != key {
      FindFromFirst(keys, key, k + 1);
    }
  }

  /** `orderRondas[idx + 1]`: the round after `base`. An unknown name has index `-1`, so its
      "next" round is the first one. */
  function NextRound(base: string): Option<string>
  {
    var idx := FindRound(base);
    if idx + 1 < |ROUND_ORDER| then Some(ROUND_ORDER[idx + 1]) else None
  }

  /** A power of two. */
  predicate IsPow2(n: nat)
  {
    if n <= 1 then n == 1 else n % 2 == 0 && IsPow2(n / 2)
  }

  /** `Math.pow(2, Math.ceil(Math.log2(n)))` on integers: the smallest power of two that is at
      least `n`. */
  function BracketSize(n: nat): (b: nat)
    ensures IsPow2(b) && n <= b
    ensures n >= 1 ==> b < 2 * n
    decreases n
  {
    if n <= 1 then 1
    else
      var half := BracketSize((n + 1) / 2);
      assert half >= 2 ==> half % 2 == 0;
      2 * half
  }

  /** `numPartidosReales`: first-round ties between two entrants. */
  function RealTies(n: nat): nat
  {
    var b := BracketSize(n);
    assert n >= 1 ==> b / 2 < n;
    n - b / 2
  }

  /** Whether the round is played over two legs; a round without a name never is. */
  predicate TwoLegged(settings: map<string, bool>, name: Option<string>)
  {
    name.Some? && name.value in settings && settings[name.value]
  }

  /** The label of a round's first leg: `X (Ida)` when two-legged, else `X`. */
  function FirstLegLabel(name: Option<string>, legs: bool): Option<string>
  {
    if name.Some? && legs then Some(name.value + " (Ida)") else name
  }

  function SecondLegLabel(name: string): string
  {
    name + " (Vuelta)"
  }

  /** One planned row of `playoff_matches`. */
  datatype PlannedMatch = PlannedMatch(
    round: Option<string>, order: nat, home: Option<UserId>, away: Option<UserId>, start: int, end: int)

  /** The inputs of one generation: shuffled entrants, bracket size and the per-round
      two-legged settings. */
  datatype Draw = Draw(players: seq<UserId>, bracket: nat, settings: map<string, bool>)
  {
    predicate Valid()
    {
      |players| >= 2 && bracket == BracketSize(|players|)
    }

    function Real(): nat
    {
      RealTies(|players|)
    }

    predicate Legs(size: nat)
    {
      TwoLegged(settings, RoundName(size))
    }
  }

  /** Where the entrants of first-round tie `i` start in the shuffled list: real ties take two
      entrants each, byes one. */
  function Seat(i: nat, reals: nat): nat
  {
    if i < reals then 2 * i else i + reals
  }

  lemma RealTiesRange(n: nat)
    requires n >= 2
    ensures 1 <= RealTies(n) <= BracketSize(n) / 2
  {
  }

  /** The two sides of tie `i` of the round with `size` entrants. */
  function Sides(d: Draw, size: nat, i: nat): (Option<UserId>, Option<UserId>)
    requires d.Valid() && i < size / 2 && size <= d.bracket
  {
    if size == d.bracket then
      RealTiesRange(|d.players|);
      var reals := d.Real();
      var s := Seat(i, reals);
      if i < reals then (Some(d.players[s]), Some(d.players[s + 1])) else (Some(d.players[s]), None)
    else (None, None)
  }

  lemma RealTieSides(d: Draw, i: nat)
    requires d.Valid() && i < d.Real()
    ensures Seat(i, d.Real()) + 1 < |d.players|
    ensures Sides(d, d.bracket, i) == (Some(d.players[Seat(i, d.Real())]), Some(d.players[Seat(i, d.Real()) + 1]))
  {
    RealTiesRange(|d.players|);
  }

  lemma ByeSides(d: Draw, i: nat)
    requires d.Valid() && d.Real() <= i < d.bracket / 2
    ensures Seat(i, d.Real()) < |d.players|
    ensures Sides(d, d.bracket, i) == (Some(d.players[Seat(i, d.Real())]), None)
  {
    RealTiesRange(|d.players|);
  }

  function FirstLegEnd(date: int): int { date + WEEK }
  function SecondLegStart(date: int): int { FirstLegEnd(date) + 1 }
  function SecondLegEnd(date: int): int { SecondLegStart(date) + WEEK }

  /** The next round starts one hour after this round's last window closes. */
  function NextRoundDate(date: int, legs: bool): int
  {
    (if legs then SecondLegEnd(date) else FirstLegEnd(date)) + HOUR
  }

  /** The rows pushed for one tie of round `name` between `p1` and `p2`: the first leg, then,
      in a two-legged round, the second leg with home and away swapped, except for a bye of the
      first round. */
  function LegRows(name: Option<string>, legs: bool, firstRound: bool, i: nat,
                   p1: Option<UserId>, p2: Option<UserId>, date: int): seq<PlannedMatch>
    requires legs ==> name.Some?
  {
    var first := PlannedMatch(FirstLegLabel(name, legs), i, p1, p2, date, FirstLegEnd(date));
    if legs && (!firstRound || (p1.Some? && p2.Some?)) then
      [first, PlannedMatch(Some(SecondLegLabel(name.value)), i, p2, p1, SecondLegStart(date), SecondLegEnd(date))]
    else [first]
  }

  /** The rows of tie `i` of the round with `size` entrants. */
  function TieRows(d: Draw, size: nat, i: nat, date: int): seq<PlannedMatch>
    requires d.Valid() && i < size / 2 && size <= d.bracket
  {
    var (p1, p2) := Sides(d, size, i);
    LegRows(RoundName(size), d.Legs(size), size == d.bracket, i, p1, p2, date)
  }

  /** The rows of ties `0 .. k-1` of a round, in push order. */
  function RoundRows(d: Draw, size: nat, k: nat, date: int): seq<PlannedMatch>
    requires d.Valid() && k <= size / 2 && size <= d.bracket
  {
    if k == 0 then [] else RoundRows(d, size, k - 1, date) + TieRows(d, size, k - 1, date)
  }

  /** The rounds from `size` entrants down to the Final, each with its own start date. */
  function Rounds(d: Draw, size: nat, date: int): seq<seq<PlannedMatch>>
    requires d.Valid() && size <= d.bracket
    decreases size
  {
    if size < 2 then []
    else [RoundRows(d, size, size / 2, date)] + Rounds(d, size / 2, NextRoundDate(date, d.Legs(size)))
  }

  function Flatten(rs: seq<seq<PlannedMatch>>): seq<PlannedMatch>
  {
    if rs == [] then [] else rs[0] + Flatten(rs[1..])
  }

  /** Every row `generarPlayoff` inserts, in insertion order. */
  function Plan(d: Draw, start: int): seq<PlannedMatch>
    requires d.Valid()
  {
    Flatten(Rounds(d, d.bracket, start))
  }

  lemma Associative<T>(a: seq<T>, b: seq<T>, c: seq<T>)
    ensures (a + b) + c == a + (b + c)
  {
  }

  /** One pass of `generarPlayoff`'s round loop: the round's date windows, then its ties in
      order, taking entrants from the shuffled list at `playerIdx` in the first round. */
  method GenerateRound(d: Draw, size: nat, date: int, playerIdx: nat)
    returns (rows: seq<PlannedMatch>, nextIdx: nat, nextDate: int)
    requires d.Valid() && 2 <= size <= d.bracket
    requires playerIdx == if size == d.bracket then 0 else |d.players|
    ensures rows == RoundRows(d, size, size / 2, date)
    ensures nextIdx == |d.players|
    ensures nextDate == NextRoundDate(date, d.Legs(size))
  {
    var name := RoundName(size);
    var legs := TwoLegged(d.settings, name);
    var reals := |d.players| - d.bracket / 2;
    assert reals == d.Real();
    var currentDate := date;
    currentDate := currentDate + WEEK;
    if legs {
      currentDate := currentDate + 1;
      currentDate := currentDate + WEEK;
    }
    nextDate := currentDate + HOUR;
    nextIdx := playerIdx;
    rows := [];
    for i := 0 to size / 2
      invariant rows == RoundRows(d, size, i, date)
      invariant nextIdx == if size == d.bracket then Seat(i, reals) else |d.players|
    {
      var p1: Option<UserId> := None;
      var p2: Option<UserId> := None;
      if size == d.bracket {
        if i < reals {
          RealTieSides(d, i);
          p1 := Some(d.players[nextIdx]);
          nextIdx := nextIdx + 1;
          p2 := Some(d.players[nextIdx]);
          nextIdx := nextIdx + 1;
        } else {
          ByeSides(d, i);
          p1 := Some(d.players[nextIdx]);
          nextIdx := nextIdx + 1;
        }
      }
      NextTie(d, size, i, date, p1, p2);
      rows := rows + LegRows(name, legs, size == d.bracket, i, p1, p2, date);
    }
  }

  lemma NextTie(d: Draw, size: nat, i: nat, date: int, p1: Option<UserId>, p2: Option<UserId>)
    requires d.Valid() && i < size / 2 && size <= d.bracket
    requires (p1, p2) == Sides(d, size, i)
    ensures RoundRows(d, size, i + 1, date)
      == RoundRows(d, size, i, date) + LegRows(RoundName(size), d.Legs(size), size == d.bracket, i, p1, p2, date)
  {
  }

  /** `generarPlayoff` up to the insert: fewer than two entrants is refused; otherwise the
      rounds are generated from the first one to the Final. */
  method GeneratePlayoff(players: seq<UserId>, settings: map<string, bool>, start: int)
    returns (result: Option<seq<PlannedMatch>>)
    ensures |players| < 2 ==> result == None
    ensures |players| >= 2 ==> result == Some(Plan(Draw(players, BracketSize(|players|), settings), start))
  {
    if |players| < 2 {
      return None;
    }
    var bracketSize := BracketSize(|players|);
    var d := Draw(players, bracketSize, settings);
    var inserts: seq<PlannedMatch> := [];
    var playerIdx := 0;
    var currentDate := start;
    var currentRoundSize := bracketSize;
    while currentRoundSize >= 2
      invariant currentRoundSize <= bracketSize
      invariant playerIdx == if currentRoundSize == bracketSize then 0 else |players|
      invariant inserts + Flatten(Rounds(d, currentRoundSize, currentDate)) == Plan(d, start)
      decreases currentRoundSize
    {
      var rows, nextDate;
      rows, playerIdx, nextDate := GenerateRound(d, currentRoundSize, currentDate, playerIdx);
      assert Flatten(Rounds(d, currentRoundSize, currentDate)) == rows + Flatten(Rounds(d, currentRoundSize / 2, nextDate));
      Associative(inserts, rows, Flatten(Rounds(d, currentRoundSize / 2, nextDate)));
      inserts := inserts + rows;
      currentRoundSize := currentRoundSize / 2;
      currentDate := nextDate;
    }
    assert Flatten(Rounds(d, currentRoundSize, currentDate)) == [];
    assert inserts == Plan(d, start);
    return Some(inserts);
  }
}
