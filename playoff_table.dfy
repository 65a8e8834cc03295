// The `playoff_matches` table as the bracket administration (src/AdminPlayoffs.jsx) changes
// it: every `update().eq()...` becomes a rewrite of the matching rows. Bye promotion, score
// saving with promotion into the next round, player assignment and the bye sweep that follows
// bracket generation are methods of `Table`, each proved against a function of the old rows.

module PlayoffTable {
  import opened Common
  import opened Text
  import opened Scores
  import opened Sorting
  import opened Playoffs
  import opened PlayoffProperties

  /** The two player columns of a row. */
  datatype Side = HomeTeam | AwayTeam

  function Opposite(s: Side): Side
  {
    if s == HomeTeam then AwayTeam else HomeTeam
  }

  /** A row of `playoff_matches`. */
  datatype MatchRow = MatchRow(
    id: int,
    playoff: int,
    round: Option<string>,
    order: nat,
    home: Option<UserId>,
    away: Option<UserId>,
    homeScore: Option<int>,
    awayScore: Option<int>,
    played: bool,
    start: int,
    end: int)

  function Get(r: MatchRow, s: Side): Option<UserId>
  {
    if s == HomeTeam then r.home else r.away
  }

  /** `update({ [column]: v })` on one row. */
  function With(r: MatchRow, s: Side, v: Option<UserId>): MatchRow
  {
    if s == HomeTeam then r.(home := v) else r.(away := v)
  }

  /** Whether two rows agree on everything but the player columns. */
  predicate SameShape(a: MatchRow, b: MatchRow)
  {
    a.id == b.id && a.playoff == b.playoff && a.round == b.round && a.order == b.order
    && a.homeScore == b.homeScore && a.awayScore == b.awayScore && a.played == b.played
    && a.start == b.start && a.end == b.end
  }

  /** `update(...).eq(...)`: every selected row is rewritten by `f`, the others are kept. */
  function Rewrite(rows: seq<MatchRow>, sel: MatchRow -> bool, f: MatchRow -> MatchRow): (r: seq<MatchRow>)
    ensures |r| == |rows|
    ensures forall i :: 0 <= i < |rows| ==> r[i] == if sel(rows[i]) then f(rows[i]) else rows[i]
  {
    seq(|rows|, i requires 0 <= i < |rows| => if sel(rows[i]) then f(rows[i]) else rows[i])
  }

  /** `.eq('playoff_id', playoff).eq('match_order', order).ilike('round', prefix + '%')`. */
  predicate InSlot(r: MatchRow, playoff: int, order: nat, prefix: string)
  {
    r.playoff == playoff && r.order == order && r.round.Some? && ILikePrefix(r.round.value, prefix)
  }

  function Slot(playoff: int, order: nat, prefix: string): MatchRow -> bool
  {
    (r: MatchRow) => InSlot(r, playoff, order, prefix)
  }

  function HasId(id: int): MatchRow -> bool
  {
    (r: MatchRow) => r.id == id
  }

  function SetSide(s: Side, v: Option<UserId>): MatchRow -> MatchRow
  {
    (r: MatchRow) => With(r, s, v)
  }

  /** The column a tie's winner takes in the next round: home for an even order. */
  function Column(order: nat): Side
  {
    if order % 2 == 0 then HomeTeam else AwayTeam
  }

  // ----- Bye promotion -------------------------------------------------------------------------

  /** The side of a tie that is present when exactly one is; otherwise none. */
  function ByeEntrant(first: MatchRow): (w: Option<UserId>)
    ensures w.Some? <==> first.home.Some? != first.away.Some?
    ensures w.Some? ==> w == first.home || w == first.away
  {
    if first.home.Some? == first.away.Some? then None
    else if first.home.Some? then first.home else first.away
  }

  /** `checkAndPromoteBye`, decided on the first row of the group; `next` is the label of the
      round after it (`NextRound` of the round's base name). */
  function PromoteBye(rows: seq<MatchRow>, first: MatchRow, playoff: int, next: Option<string>, order: nat): (r: seq<MatchRow>)
    ensures |r| == |rows|
  {
    var w := ByeEntrant(first);
    if w.Some? && next.Some? then Rewrite(rows, Slot(playoff, order / 2, next.value), SetSide(Column(order), w))
    else rows
  }

  /** Promotion changes at most the winner's column (home for an even order, away for an odd
      one), and only on the rows of tie `order / 2` of the next round. */
  lemma PromoteByeFrame(rows: seq<MatchRow>, first: MatchRow, playoff: int, next: Option<string>, order: nat, i: nat)
    requires i < |rows|
    ensures var r := PromoteBye(rows, first, playoff, next, order);
      r[i] == With(rows[i], Column(order), Get(r[i], Column(order)))
      && (next.None? || !InSlot(rows[i], playoff, order / 2, next.value) ==> r[i] == rows[i])
  {
  }

  /** When exactly one side of the tie is present and a round follows, that player is seated
      in the winner's column on every row of the next-round tie; otherwise nothing changes. */
  lemma PromoteByeSeats(rows: seq<MatchRow>, first: MatchRow, playoff: int, next: Option<string>, order: nat, i: nat)
    requires i < |rows|
    ensures var r := PromoteBye(rows, first, playoff, next, order);
      (first.home.Some? == first.away.Some? ==> r == rows)
      && (first.home.Some? != first.away.Some? && next.Some?
          && InSlot(rows[i], playoff, order / 2, next.value) ==>
            Get(r[i], Column(order)) == (if first.home.Some? then first.home else first.away))
  {
  }

  /** Nothing follows the Final, so a bye there promotes nobody. */
  lemma NoPromotionFromFinal(rows: seq<MatchRow>, first: MatchRow, playoff: int, order: nat)
    ensures PromoteBye(rows, first, playoff, NextRound("Final"), order) == rows
  {
    assert ROUND_ORDER[4] == "Final";
    NextOfOwnName(4);
  }

  /** Whether the second leg swaps the sides of the first. */
  predicate Mirrored(ida: MatchRow, vuelta: MatchRow)
  {
    vuelta.home == ida.away && vuelta.away == ida.home
  }

  /** As written, promotion writes the same column on both legs of a two-legged next round: on
      a fresh bracket the legs of that tie are no longer mirrored. */
  lemma PromotionBreaksMirror(rows: seq<MatchRow>, first: MatchRow, playoff: int, next: Option<string>,
                              order: nat, i: nat, j: nat)
    requires i < |rows| && j < |rows|
    requires first.home.Some? != first.away.Some? && next.Some?
    requires InSlot(rows[i], playoff, order / 2, next.value)
    requires InSlot(rows[j], playoff, order / 2, next.value)
    requires rows[i].home.None? && rows[i].away.None? && rows[j].home.None? && rows[j].away.None?
    ensures var r := PromoteBye(rows, first, playoff, next, order);
      Mirrored(rows[i], rows[j]) && !Mirrored(r[i], r[j])
  {
    var r := PromoteBye(rows, first, playoff, next, order);
    var c := Column(order);
    PromoteByeFrame(rows, first, playoff, next, order, i);
    PromoteByeFrame(rows, first, playoff, next, order, j);
    PromoteByeSeats(rows, first, playoff, next, order, i);
    PromoteByeSeats(rows, first, playoff, next, order, j);
    assert Get(r[i], c).Some? && Get(r[j], c).Some?;
  }

  /** Whether a row is the second leg of its tie. */
  predicate IsVuelta(r: MatchRow)
  {
    r.round.Some? && Contains(r.round.value, "(Vuelta)")
  }

  /** A promotion that keeps legs mirrored: the second leg gets the entrant in the other
      column. */
  function SetLegSide(s: Side, v: Option<UserId>): MatchRow -> MatchRow
  {
    (r: MatchRow) => With(r, if IsVuelta(r) then Opposite(s) else s, v)
  }

  function PromoteByeMirrored(rows: seq<MatchRow>, first: MatchRow, playoff: int, next: Option<string>, order: nat): seq<MatchRow>
  {
    var w := ByeEntrant(first);
    if w.Some? && next.Some? then Rewrite(rows, Slot(playoff, order / 2, next.value), SetLegSide(Column(order), w))
    else rows
  }

  /** The corrected promotion still seats the entrant on the first leg in its column, puts it
      in the other column on the second leg, and keeps mirrored legs mirrored. */
  lemma PromoteByeMirroredSpec(rows: seq<MatchRow>, first: MatchRow, playoff: int, next: Option<string>,
                               order: nat, i: nat, j: nat)
    requires i < |rows| && j < |rows|
    requires first.home.Some? != first.away.Some? && next.Some?
    requires InSlot(rows[i], playoff, order / 2, next.value) && !IsVuelta(rows[i])
    requires InSlot(rows[j], playoff, order / 2, next.value) && IsVuelta(rows[j])
    ensures var r := PromoteByeMirrored(rows, first, playoff, next, order);
      var w := if first.home.Some? then first.home else first.away;
      Get(r[i], Column(order)) == w && Get(r[j], Opposite(Column(order))) == w
      && (Mirrored(rows[i], rows[j]) ==> Mirrored(r[i], r[j]))
  {
    var c := Column(order);
    var r := PromoteByeMirrored(rows, first, playoff, next, order);
    assert r[i] == With(rows[i], c, ByeEntrant(first));
    assert r[j] == With(rows[j], Opposite(c), ByeEntrant(first));
  }

  // ----- Score saving --------------------------------------------------------------------------

  /** The saved row: both scores (`NaN` is stored as null) and `played`. */
  function Scored(sL: Option<int>, sV: Option<int>): MatchRow -> MatchRow
  {
    (r: MatchRow) => r.(homeScore := sL, awayScore := sV, played := true)
  }

  /** `m.round.includes(mark)`. */
  predicate HasMark(m: MatchRow, mark: string)
  {
    m.round.Some? && Contains(m.round.value, mark)
  }

  /** `enfrentamiento.find(m => m.round.includes(mark))`: the first leg whose label has the
      mark, or none exactly when no leg has it. */
  function FirstWith(legs: seq<MatchRow>, mark: string): (r: Option<MatchRow>)
    ensures r.Some? ==> r.value in legs && HasMark(r.value, mark)
    ensures r.None? <==> forall k :: 0 <= k < |legs| ==> !HasMark(legs[k], mark)
    ensures r.Some? ==> exists k :: 0 <= k < |legs| && legs[k] == r.value
                                    && forall j :: 0 <= j < k ==> !HasMark(legs[j], mark)
  {
    if legs == [] then None
    else if HasMark(legs[0], mark) then Some(legs[0])
    else
      var r := FirstWith(legs[1..], mark);
      FirstWithCons(legs, mark, r);
      r
  }

  /** A search past a first leg without the mark finds what the search of the rest finds. */
  lemma FirstWithCons(legs: seq<MatchRow>, mark: string, r: Option<MatchRow>)
    requires legs != [] && !HasMark(legs[0], mark)
    requires r.None? <==> forall k :: 0 <= k < |legs[1..]| ==> !HasMark(legs[1..][k], mark)
    requires r.Some? ==> exists k :: 0 <= k < |legs[1..]| && legs[1..][k] == r.value
                                     && forall j :: 0 <= j < k ==> !HasMark(legs[1..][j], mark)
    ensures r.None? <==> forall k :: 0 <= k < |legs| ==> !HasMark(legs[k], mark)
    ensures r.Some? ==> exists k :: 0 <= k < |legs| && legs[k] == r.value
                                    && forall j :: 0 <= j < k ==> !HasMark(legs[j], mark)
  {
    if r.Some? {
      var k :| 0 <= k < |legs[1..]| && legs[1..][k] == r.value
               && forall j :: 0 <= j < k ==> !HasMark(legs[1..][j], mark);
      assert legs[k + 1] == r.value;
      forall j | 0 <= j < k + 1
        ensures !HasMark(legs[j], mark)
      {
        if j > 0 {
          assert legs[j] == legs[1..][j - 1];
        }
      }
    } else {
      forall k | 0 <= k < |legs|
        ensures !HasMark(legs[k], mark)
      {
        if k > 0 {
          assert legs[k] == legs[1..][k - 1];
        }
      }
    }
  }

  /** Whether a label names one leg of a two-legged tie. */
  predicate IsTwoLegged(round: string)
  {
    Contains(round, "(Ida)") || Contains(round, "(Vuelta)")
  }

  /** The winner `saveBracketScore` computes: by the scores just typed for a single leg; over
      both legs, once both are played, with A = first leg home + second leg away against
      B = first leg away + second leg home. A draw, a missing leg or an unplayed leg gives none. */
  function BracketWinner(saved: seq<MatchRow>, partido: MatchRow, faseBase: string, sL: Option<int>, sV: Option<int>): Option<UserId>
    requires partido.round.Some?
  {
    if !IsTwoLegged(partido.round.value) then
      if Beats(sL, sV) then partido.home else if Beats(sV, sL) then partido.away else None
    else
      var legs := Filter(saved, Slot(partido.playoff, partido.order, faseBase));
      var ida := FirstWith(legs, "(Ida)");
      var vuelta := FirstWith(legs, "(Vuelta)");
      if ida.Some? && vuelta.Some? && ida.value.played && vuelta.value.played then
        var a := OrZero(ida.value.homeScore) + OrZero(vuelta.value.awayScore);
        var b := OrZero(ida.value.awayScore) + OrZero(vuelta.value.homeScore);
        if a > b then ida.value.home else if b > a then ida.value.away else None
      else None
  }

  /** `faseBase`: the label before " (", trimmed. */
  function FaseBase(round: string): string
  {
    Trim(SplitHead(round, " ("))
  }

  /** The label of the round after the match's own (`siguienteRonda`). */
  function NextAfter(partido: MatchRow): Option<string>
  {
    if partido.round.Some? then NextRound(FaseBase(partido.round.value)) else None
  }

  /** The rows after the first update of `saveBracketScore`. */
  function SavedRows(rows: seq<MatchRow>, id: int, scoreL: ScoreArg, scoreV: ScoreArg): (r: seq<MatchRow>)
    ensures |r| == |rows|
  {
    Rewrite(rows, HasId(id), Scored(ParseArg(scoreL), ParseArg(scoreV)))
  }

  /** `saveBracketScore(partido, scoreL, scoreV)` with `next` the label of the following round.
      A row without a round label makes the code throw after the score is written. */
  function SaveScore(rows: seq<MatchRow>, partido: MatchRow, scoreL: ScoreArg, scoreV: ScoreArg, next: Option<string>): (r: seq<MatchRow>)
    ensures |r| == |rows|
  {
    if IsBlank(scoreL) || IsBlank(scoreV) then rows
    else
      var saved := SavedRows(rows, partido.id, scoreL, scoreV);
      if partido.round.None? || next.None? then saved
      else
        var w := BracketWinner(saved, partido, FaseBase(partido.round.value), ParseArg(scoreL), ParseArg(scoreV));
        Rewrite(saved, Slot(partido.playoff, partido.order / 2, next.value), SetSide(Column(partido.order), w))
  }

  /** An empty score field saves nothing. */
  lemma SaveScoreBlank(rows: seq<MatchRow>, partido: MatchRow, scoreL: ScoreArg, scoreV: ScoreArg, next: Option<string>)
    requires IsBlank(scoreL) || IsBlank(scoreV)
    ensures SaveScore(rows, partido, scoreL, scoreV, next) == rows
  {
  }

  /** Writing a player column leaves the scores and the played flag of every row alone. */
  lemma SideRewriteKeepsScores(rows: seq<MatchRow>, sel: MatchRow -> bool, s: Side, w: Option<UserId>, i: nat)
    requires i < |rows|
    ensures var r := Rewrite(rows, sel, SetSide(s, w));
      r[i].homeScore == rows[i].homeScore && r[i].awayScore == rows[i].awayScore && r[i].played == rows[i].played
  {
  }

  /** Otherwise the match's row is stored as played with the two parsed scores (the later
      promotion only writes a player column). */
  lemma SaveScoreStores(rows: seq<MatchRow>, partido: MatchRow, scoreL: ScoreArg, scoreV: ScoreArg, next: Option<string>, i: nat)
    requires !IsBlank(scoreL) && !IsBlank(scoreV)
    requires i < |rows| && rows[i].id == partido.id
    ensures var r := SaveScore(rows, partido, scoreL, scoreV, next);
      r[i].homeScore == ParseArg(scoreL) && r[i].awayScore == ParseArg(scoreV) && r[i].played
  {
    var saved := SavedRows(rows, partido.id, scoreL, scoreV);
    assert saved[i] == Scored(ParseArg(scoreL), ParseArg(scoreV))(rows[i]);
    if partido.round.Some? && next.Some? {
      var w := BracketWinner(saved, partido, FaseBase(partido.round.value), ParseArg(scoreL), ParseArg(scoreV));
      SideRewriteKeepsScores(saved, Slot(partido.playoff, partido.order / 2, next.value), Column(partido.order), w, i);
    }
  }

  /** The next-round tie `order / 2` is always overwritten in the winner's column with the
      winner, which may be none: a draw or an unfinished two-legged tie clears an earlier
      promotion. */
  lemma SaveScorePromotes(rows: seq<MatchRow>, partido: MatchRow, scoreL: ScoreArg, scoreV: ScoreArg, next: Option<string>, i: nat)
    requires !IsBlank(scoreL) && !IsBlank(scoreV) && partido.round.Some? && next.Some?
    requires i < |rows| && InSlot(rows[i], partido.playoff, partido.order / 2, next.value)
    ensures var r := SaveScore(rows, partido, scoreL, scoreV, next);
      var saved := SavedRows(rows, partido.id, scoreL, scoreV);
      Get(r[i], Column(partido.order))
        == BracketWinner(saved, partido, FaseBase(partido.round.value), ParseArg(scoreL), ParseArg(scoreV))
  {
    var saved := SavedRows(rows, partido.id, scoreL, scoreV);
    assert SameShape(saved[i], rows[i]) || saved[i] == Scored(ParseArg(scoreL), ParseArg(scoreV))(rows[i]);
  }

  /** No other row changes. */
  lemma SaveScoreFrame(rows: seq<MatchRow>, partido: MatchRow, scoreL: ScoreArg, scoreV: ScoreArg, next: Option<string>, i: nat)
    requires i < |rows| && rows[i].id != partido.id
    requires partido.round.None? || next.None? || !InSlot(rows[i], partido.playoff, partido.order / 2, next.value)
    ensures SaveScore(rows, partido, scoreL, scoreV, next)[i] == rows[i]
  {
    var saved := SavedRows(rows, partido.id, scoreL, scoreV);
    assert saved[i] == rows[i];
  }

  /** The goals player `p` scored in one leg. */
  function GoalsFor(m: MatchRow, p: UserId): int
  {
    if m.home == Some(p) then OrZero(m.homeScore)
    else if m.away == Some(p) then OrZero(m.awayScore)
    else 0
  }

  /** On mirrored legs the two sums are the aggregates of the two players, so the winner is the
      player who scored more over both legs; a single leg is won by the strictly higher score. */
  lemma BracketWinnerSpec(saved: seq<MatchRow>, partido: MatchRow, faseBase: string, sL: Option<int>, sV: Option<int>)
    requires partido.round.Some?
    ensures var w := BracketWinner(saved, partido, faseBase, sL, sV);
      (!IsTwoLegged(partido.round.value) ==>
         (Beats(sL, sV) ==> w == partido.home) && (Beats(sV, sL) ==> w == partido.away)
         && (!Beats(sL, sV) && !Beats(sV, sL) ==> w.None?))
      && (IsTwoLegged(partido.round.value) ==>
         var legs := Filter(saved, Slot(partido.playoff, partido.order, faseBase));
         var ida := FirstWith(legs, "(Ida)");
         var vuelta := FirstWith(legs, "(Vuelta)");
         (w.Some? ==> ida.Some? && vuelta.Some? && ida.value.played && vuelta.value.played)
         && (ida.Some? && vuelta.Some? && Mirrored(ida.value, vuelta.value)
             && ida.value.home.Some? && ida.value.away.Some? && ida.value.home != ida.value.away ==>
               var a := ida.value.home.value;
               var b := ida.value.away.value;
               var goalsA := GoalsFor(ida.value, a) + GoalsFor(vuelta.value, a);
               var goalsB := GoalsFor(ida.value, b) + GoalsFor(vuelta.value, b);
               (ida.value.played && vuelta.value.played && goalsA > goalsB ==> w == Some(a))
               && (ida.value.played && vuelta.value.played && goalsB > goalsA ==> w == Some(b))
               && (goalsA == goalsB ==> w.None?)))
  {
  }

  // ----- Player assignment ---------------------------------------------------------------------

  /** Whether every row has a round label (the code calls string methods on it). */
  predicate AllNamed(rows: seq<MatchRow>)
  {
    forall i :: 0 <= i < |rows| ==> rows[i].round.Some?
  }

  function OfPlayoff(playoff: int): MatchRow -> bool
  {
    (r: MatchRow) => r.playoff == playoff
  }

  /** `m.round.startsWith(roundBase) && m.match_order === matchOrder`. */
  function InTie(roundBase: string, order: nat): MatchRow -> bool
  {
    (r: MatchRow) => r.round.Some? && StartsWith(r.round.value, roundBase) && r.order == order
  }

  /** The two legs as the two-element sort leaves them: the engine compares the second row with
      the first, and the rows swap unless the second is the `(Vuelta)` leg. */
  function LegOrder(x: MatchRow, y: MatchRow): (MatchRow, MatchRow)
  {
    if y.round.Some? && Contains(y.round.value, "(Vuelta)") then (x, y) else (y, x)
  }

  /** `matchesToUpdate`: the rows of the tie among the playoff's rows. */
  function TieGroup(matches: seq<MatchRow>, roundBase: string, order: nat): seq<MatchRow>
  {
    Filter(matches, InTie(roundBase, order))
  }

  /** `updateMatchPlayer(roundBase, matchOrder, field, val)` on the rows of one playoff, with
      `val` none for the empty selection. */
  function AssignPlayer(rows: seq<MatchRow>, playoff: int, roundBase: string, order: nat, field: Side, val: Option<UserId>,
                        next: Option<string>): (r: seq<MatchRow>)
    ensures |r| == |rows|
  {
    var matches := Filter(rows, OfPlayoff(playoff));
    if !AllNamed(matches) then rows
    else
      var group := TieGroup(matches, roundBase, order);
      if group == [] then rows
      else
        var written :=
          if |group| == 1 then Rewrite(rows, HasId(group[0].id), SetSide(field, val))
          else
            var legs := LegOrder(group[0], group[1]);
            Rewrite(Rewrite(rows, HasId(legs.0.id), SetSide(field, val)), HasId(legs.1.id), SetSide(Opposite(field), val));
        PromoteBye(written, With(group[0], field, val), playoff, next, order)
  }

  /** The two rows the assignment writes are the legs in the order `LegOrder` gives them. */
  lemma LegOrderPicks(x: MatchRow, y: MatchRow, ida: MatchRow, vuelta: MatchRow)
    requires (x == ida && y == vuelta) || (x == vuelta && y == ida)
    requires !IsVuelta(ida) && IsVuelta(vuelta)
    ensures LegOrder(x, y) == (ida, vuelta)
  {
  }

  /** The two-row case of the assignment, unfolded. */
  lemma AssignTwoRows(rows: seq<MatchRow>, playoff: int, roundBase: string, order: nat, field: Side, val: Option<UserId>,
                      next: Option<string>)
    requires AllNamed(Filter(rows, OfPlayoff(playoff)))
    requires |TieGroup(Filter(rows, OfPlayoff(playoff)), roundBase, order)| >= 2
    ensures var group := TieGroup(Filter(rows, OfPlayoff(playoff)), roundBase, order);
      var legs := LegOrder(group[0], group[1]);
      AssignPlayer(rows, playoff, roundBase, order, field, val, next)
      == PromoteBye(Rewrite(Rewrite(rows, HasId(legs.0.id), SetSide(field, val)), HasId(legs.1.id), SetSide(Opposite(field), val)),
                    With(group[0], field, val), playoff, next, order)
  {
  }

  /** In a two-legged tie the choice goes into `field` on the first leg and into the other
      column on the second, so mirrored legs stay mirrored (the promotion that follows only
      touches the next round). */
  lemma AssignKeepsMirror(rows: seq<MatchRow>, playoff: int, roundBase: string, order: nat,
                          field: Side, val: Option<UserId>, next: Option<string>, i: nat, j: nat)
    requires i < |rows| && j < |rows| && rows[i].id != rows[j].id
    requires AllNamed(Filter(rows, OfPlayoff(playoff)))
    requires var group := TieGroup(Filter(rows, OfPlayoff(playoff)), roundBase, order);
      |group| >= 2 && ((group[0] == rows[i] && group[1] == rows[j]) || (group[0] == rows[j] && group[1] == rows[i]))
    requires !IsVuelta(rows[i]) && IsVuelta(rows[j])
    requires next.None? || (!InSlot(rows[i], playoff, order / 2, next.value) && !InSlot(rows[j], playoff, order / 2, next.value))
    ensures var r := AssignPlayer(rows, playoff, roundBase, order, field, val, next);
      Get(r[i], field) == val && Get(r[j], Opposite(field)) == val
      && (Mirrored(rows[i], rows[j]) ==> Mirrored(r[i], r[j]))
  {
    var group := TieGroup(Filter(rows, OfPlayoff(playoff)), roundBase, order);
    LegOrderPicks(group[0], group[1], rows[i], rows[j]);
    var w1 := Rewrite(rows, HasId(rows[i].id), SetSide(field, val));
    var w2 := Rewrite(w1, HasId(rows[j].id), SetSide(Opposite(field), val));
    var first := With(group[0], field, val);
    var r := PromoteBye(w2, first, playoff, next, order);
    AssignTwoRows(rows, playoff, roundBase, order, field, val, next);
    assert w2[i] == With(rows[i], field, val);
    assert w2[j] == With(rows[j], Opposite(field), val);
    PromoteByeFrame(w2, first, playoff, next, order, i);
    PromoteByeFrame(w2, first, playoff, next, order, j);
    assert r[i] == w2[i] && r[j] == w2[j];
  }

  // ----- The table -----------------------------------------------------------------------------

  /** One planned row stored under `playoff` with the id the database gives it; scores start
      empty and unplayed. */
  function Inserted(plan: seq<PlannedMatch>, playoff: int, firstId: int): (r: seq<MatchRow>)
    ensures |r| == |plan|
  {
    seq(|plan|, i requires 0 <= i < |plan| =>
      MatchRow(firstId + i, playoff, plan[i].round, plan[i].order, plan[i].home, plan[i].away,
               None, None, false, plan[i].start, plan[i].end))
  }

  /** `firstRoundMatches`: the rows of `playoff` whose label equals the first inserted label
      (`.eq('round', null)` matches nothing). */
  function FirstRoundOf(playoff: int, firstLabel: Option<string>): MatchRow -> bool
  {
    (r: MatchRow) => r.playoff == playoff && firstLabel.Some? && r.round == firstLabel
  }

  function HasOrder(order: nat): MatchRow -> bool
  {
    (r: MatchRow) => r.order == order
  }

  function OrdersOf(rows: seq<MatchRow>): (r: seq<nat>)
    ensures |r| == |rows|
  {
    seq(|rows|, i requires 0 <= i < |rows| => rows[i].order)
  }

  /** The bye check of one first-round tie, on the snapshot `snap` read after the insert. */
  function SweepOne(rows: seq<MatchRow>, snap: seq<MatchRow>, playoff: int, order: nat): seq<MatchRow>
  {
    var group := Filter(snap, HasOrder(order));
    if group == [] || group[0].round.None? then rows
    else PromoteBye(rows, group[0], playoff, NextRound(SplitHead(group[0].round.value, " (")), order)
  }

  /** The sweep over the distinct orders of the first round, in the order they were read. */
  function Sweep(rows: seq<MatchRow>, snap: seq<MatchRow>, playoff: int, orders: seq<nat>): (r: seq<MatchRow>)
    ensures |r| == |rows|
  {
    if orders == [] then rows
    else SweepOne(Sweep(rows, snap, playoff, orders[..|orders| - 1]), snap, playoff, orders[|orders| - 1])
  }

  lemma SweepSnoc(rows: seq<MatchRow>, snap: seq<MatchRow>, playoff: int, orders: seq<nat>, k: nat)
    requires k < |orders|
    ensures Sweep(rows, snap, playoff, orders[..k + 1]) == SweepOne(Sweep(rows, snap, playoff, orders[..k]), snap, playoff, orders[k])
  {
    assert orders[..k + 1][..k] == orders[..k];
  }

  /** The bye sweep only writes player columns: ids, labels, orders, scores and dates stay. */
  lemma {:induction false} SweepKeepsShape(rows: seq<MatchRow>, snap: seq<MatchRow>, playoff: int, orders: seq<nat>, i: nat)
    requires i < |rows|
    ensures var r := Sweep(rows, snap, playoff, orders);
      |r| == |rows| && SameShape(r[i], rows[i])
    decreases |orders|
  {
    if orders != [] {
      var prev := Sweep(rows, snap, playoff, orders[..|orders| - 1]);
      SweepKeepsShape(rows, snap, playoff, orders[..|orders| - 1], i);
      var group := Filter(snap, HasOrder(orders[|orders| - 1]));
      if group != [] && group[0].round.Some? {
        PromoteByeFrame(prev, group[0], playoff, NextRound(SplitHead(group[0].round.value, " (")), orders[|orders| - 1], i);
      }
    }
  }

  /** Ties `a` and `b` that feed the same next-round tie (`a / 2 == b / 2`) write different
      columns. */
  lemma ColumnsApart(a: nat, b: nat)
    requires a != b && a / 2 == b / 2
    ensures Column(a) != Column(b)
  {
  }

  /** The entrant that `SweepOne` promotes for `order` (if any) and the label of its round. */
  function SweepEntrant(snap: seq<MatchRow>, order: nat): Option<UserId>
  {
    var group := Filter(snap, HasOrder(order));
    if group == [] || group[0].round.None? then None else ByeEntrant(group[0])
  }

  function SweepNext(snap: seq<MatchRow>, order: nat): Option<string>
  {
    var group := Filter(snap, HasOrder(order));
    if group == [] || group[0].round.None? then None else NextRound(SplitHead(group[0].round.value, " ("))
  }

  /** The check of tie `o` seats its bye entrant, if any, in its column of the next-round tie. */
  lemma SweepOneSeats(prev: seq<MatchRow>, snap: seq<MatchRow>, playoff: int, o: nat, i: nat)
    requires i < |prev|
    requires SweepEntrant(snap, o).Some? && SweepNext(snap, o).Some?
    requires InSlot(prev[i], playoff, o / 2, SweepNext(snap, o).value)
    ensures Get(SweepOne(prev, snap, playoff, o)[i], Column(o)) == SweepEntrant(snap, o)
  {
    var group := Filter(snap, HasOrder(o));
    PromoteByeSeats(prev, group[0], playoff, SweepNext(snap, o), o, i);
  }

  /** The check of another tie `o` leaves the column of tie `ok` alone on a row of the
      next-round tie `ok / 2`. */
  lemma SweepOneOther(prev: seq<MatchRow>, snap: seq<MatchRow>, playoff: int, o: nat, ok: nat, i: nat)
    requires i < |prev| && o != ok && prev[i].order == ok / 2
    ensures Get(SweepOne(prev, snap, playoff, o)[i], Column(ok)) == Get(prev[i], Column(ok))
  {
    var group := Filter(snap, HasOrder(o));
    if group != [] && group[0].round.Some? {
      var next := NextRound(SplitHead(group[0].round.value, " ("));
      PromoteByeFrame(prev, group[0], playoff, next, o, i);
      if next.Some? && InSlot(prev[i], playoff, o / 2, next.value) {
        ColumnsApart(o, ok);
      }
    }
  }

  /** After the whole sweep over distinct orders, every first-round tie with exactly one player
      has that player in its column (home for an even order, away for an odd one) on every row of
      tie `order / 2` of the next round: a later tie never overwrites it. */
  lemma {:induction false} SweepSeatsByes(rows: seq<MatchRow>, snap: seq<MatchRow>, playoff: int, orders: seq<nat>,
                                          k: nat, i: nat)
    requires Distinct(orders) && k < |orders| && i < |rows|
    requires SweepEntrant(snap, orders[k]).Some? && SweepNext(snap, orders[k]).Some?
    requires InSlot(rows[i], playoff, orders[k] / 2, SweepNext(snap, orders[k]).value)
    ensures Get(Sweep(rows, snap, playoff, orders)[i], Column(orders[k])) == SweepEntrant(snap, orders[k])
    decreases |orders|
  {
    var n := |orders| - 1;
    var front := orders[..n];
    var prev := Sweep(rows, snap, playoff, front);
    assert Sweep(rows, snap, playoff, orders) == SweepOne(prev, snap, playoff, orders[n]);
    SweepKeepsShape(rows, snap, playoff, front, i);
    assert prev[i].playoff == rows[i].playoff && prev[i].order == rows[i].order && prev[i].round == rows[i].round;
    if k == n {
      assert InSlot(prev[i], playoff, orders[n] / 2, SweepNext(snap, orders[n]).value);
      SweepOneSeats(prev, snap, playoff, orders[n], i);
    } else {
      assert front[k] == orders[k];
      assert Distinct(front) by {
        forall a, b | 0 <= a < b < |front|
          ensures front[a] != front[b]
        {
          assert front[a] == orders[a] && front[b] == orders[b];
        }
      }
      SweepSeatsByes(rows, snap, playoff, front, k, i);
      SweepOneOther(prev, snap, playoff, orders[n], orders[k], i);
    }
  }

  class Table {
    var rows: seq<MatchRow>

    constructor(initial: seq<MatchRow>)
      ensures rows == initial
    {
      rows := initial;
    }

    /** `checkAndPromoteBye(matchGroup, playoffId, roundBase, matchOrder)`. */
    method CheckAndPromoteBye(group: seq<MatchRow>, playoff: int, roundBase: string, matchOrder: nat)
      requires group != []
      modifies this
      ensures rows == PromoteBye(old(rows), group[0], playoff, NextRound(roundBase), matchOrder)
    {
      var p1 := group[0].home;
      var p2 := group[0].away;
      if (p1.None? && p2.None?) || (p1.Some? && p2.Some?) {
        return;
      }
      var ganador := if p1.Some? then p1 else p2;
      var sigRonda := NextRound(roundBase);
      if sigRonda.Some? && ganador.Some? {
        var columna := if matchOrder % 2 == 0 then HomeTeam else AwayTeam;
        rows := Rewrite(rows, Slot(playoff, matchOrder / 2, sigRonda.value), SetSide(columna, ganador));
      }
    }

    /** `saveBracketScore(partido, scoreL, scoreV)`. */
    method SaveBracketScore(partido: MatchRow, scoreL: ScoreArg, scoreV: ScoreArg)
      modifies this
      ensures rows == SaveScore(old(rows), partido, scoreL, scoreV, NextAfter(partido))
    {
      if IsBlank(scoreL) || IsBlank(scoreV) {
        return;
      }
      var sL := ParseArg(scoreL);
      var sV := ParseArg(scoreV);
      rows := Rewrite(rows, HasId(partido.id), Scored(sL, sV));
      assert rows == SavedRows(old(rows), partido.id, scoreL, scoreV);
      if partido.round.None? {
        return;
      }
      var faseBase := FaseBase(partido.round.value);
      var ganador := BracketWinner(rows, partido, faseBase, sL, sV);
      var sigRonda := NextRound(faseBase);
      assert sigRonda == NextAfter(partido);
      if sigRonda.Some? {
        rows := Rewrite(rows, Slot(partido.playoff, partido.order / 2, sigRonda.value), SetSide(Column(partido.order), ganador));
      }
    }

    /** `updateMatchPlayer(roundBase, matchOrder, field, userId)`. */
    method UpdateMatchPlayer(playoff: int, roundBase: string, matchOrder: nat, field: Side, val: Option<UserId>)
      modifies this
      ensures rows == AssignPlayer(old(rows), playoff, roundBase, matchOrder, field, val, NextRound(roundBase))
    {
      var matches := Filter(rows, OfPlayoff(playoff));
      if !AllNamed(matches) {
        return;
      }
      var matchesToUpdate := TieGroup(matches, roundBase, matchOrder);
      if |matchesToUpdate| >= 1 {
        if |matchesToUpdate| == 1 {
          rows := Rewrite(rows, HasId(matchesToUpdate[0].id), SetSide(field, val));
        } else {
          var sorted := LegOrder(matchesToUpdate[0], matchesToUpdate[1]);
          rows := Rewrite(rows, HasId(sorted.0.id), SetSide(field, val));
          rows := Rewrite(rows, HasId(sorted.1.id), SetSide(Opposite(field), val));
        }
        CheckAndPromoteBye([With(matchesToUpdate[0], field, val)], playoff, roundBase, matchOrder);
      }
    }

    /** The end of `generarPlayoff`: insert the planned rows, read back the first round and run
        the bye check on each of its ties. */
    method InsertAndPromoteByes(plan: seq<PlannedMatch>, playoff: int, firstId: int)
      modifies this
      ensures var snap := Filter(old(rows) + Inserted(plan, playoff, firstId),
                                 FirstRoundOf(playoff, if plan == [] then None else plan[0].round));
        rows == Sweep(old(rows) + Inserted(plan, playoff, firstId), snap, playoff, Unique(OrdersOf(snap)))
      ensures var all := old(rows) + Inserted(plan, playoff, firstId);
        var snap := Filter(all, FirstRoundOf(playoff, if plan == [] then None else plan[0].round));
        forall o, i :: o in OrdersOf(snap) && 0 <= i < |all| && SweepEntrant(snap, o).Some? && SweepNext(snap, o).Some?
                       && InSlot(all[i], playoff, o / 2, SweepNext(snap, o).value)
                       ==> Get(rows[i], Column(o)) == SweepEntrant(snap, o)
    {
      rows := rows + Inserted(plan, playoff, firstId);
      var firstLabel := if plan == [] then None else plan[0].round;
      var snap := Filter(rows, FirstRoundOf(playoff, firstLabel));
      var orders := Unique(OrdersOf(snap));
      ghost var inserted := rows;
      for k := 0 to |orders|
        invariant rows == Sweep(inserted, snap, playoff, orders[..k])
      {
        SweepSnoc(inserted, snap, playoff, orders, k);
        var group := Filter(snap, HasOrder(orders[k]));
        if group != [] && group[0].round.Some? {
          CheckAndPromoteBye(group, playoff, SplitHead(group[0].round.value, " ("), orders[k]);
        }
      }
      assert orders[..|orders|] == orders;
      forall o, i | o in OrdersOf(snap) && 0 <= i < |inserted| && SweepEntrant(snap, o).Some? && SweepNext(snap, o).Some?
                    && InSlot(inserted[i], playoff, o / 2, SweepNext(snap, o).value)
        ensures Get(rows[i], Column(o)) == SweepEntrant(snap, o)
      {
        var k :| 0 <= k < |orders| && orders[k] == o;
        SweepSeatsByes(inserted, snap, playoff, orders, k, i);
      }
    }
  }
}
