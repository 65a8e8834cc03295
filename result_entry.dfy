// A player's match card (src/Partido.jsx): posting a result for a league or playoff match,
// with the card's own winner computation and promotion into the next round, and the choice
// of the playoff matches shown to the player.

module ResultEntry {
  import opened Common
  import opened Text
  import opened Scores
  import opened Sorting
  import opened Playoffs
  import opened PlayoffProperties
  import opened PlayoffTable
  import opened Season

  /** A match card: a row of `partidos_detallados` or `playoff_matches_detallados`, the
      table's columns plus the resolved player ids `local_id` and `visitante_id`. A league
      match has no `playoff_id`. */
  datatype Card = Card(
    id: int,
    playoff: Option<int>,
    round: Option<string>,
    order: nat,
    homeTeam: Option<UserId>,
    awayTeam: Option<UserId>,
    localId: Option<UserId>,
    visitorId: Option<UserId>,
    start: int,
    end: int)

  /** `a || b` on ids. */
  function Either(a: Option<UserId>, b: Option<UserId>): Option<UserId>
  {
    if a.Some? then a else b
  }

  function HomeId(c: Card): Option<UserId>
  {
    Either(c.homeTeam, c.localId)
  }

  function AwayId(c: Card): Option<UserId>
  {
    Either(c.awayTeam, c.visitorId)
  }

  /** What the player is told: asked for the goals, told that ids are missing, told that the
      result was saved, or shown the error of a playoff row without a round label (it is
      thrown after the score is written). */
  datatype Outcome = NeedsGoals | MissingIds | Saved | Failed

  /** The outcome of `guardar`. */
  function Submit(c: Card, gL: ScoreArg, gV: ScoreArg): Outcome
  {
    if IsBlank(gL) || IsBlank(gV) then NeedsGoals
    else if HomeId(c).None? || AwayId(c).None? then MissingIds
    else if c.playoff.Some? && c.round.None? then Failed
    else Saved
  }

  /** An empty score is refused first; then a card without its two player ids (neither
      `home_team` nor `local_id`, or neither `away_team` nor `visitante_id`); any other card is
      saved, except that a playoff row without a round fails after its score is written. */
  lemma SubmitSpec(c: Card, gL: ScoreArg, gV: ScoreArg)
    ensures var r := Submit(c, gL, gV);
      (r == NeedsGoals <==> gL == Typed("") || gV == Typed(""))
      && (r == MissingIds <==> gL != Typed("") && gV != Typed("")
                               && ((c.homeTeam.None? && c.localId.None?) || (c.awayTeam.None? && c.visitorId.None?)))
      && (r == Failed <==> !Rejected(c, gL, gV) && c.playoff.Some? && c.round.None?)
      && (r == Saved ==> (c.homeTeam.Some? || c.localId.Some?) && (c.awayTeam.Some? || c.visitorId.Some?))
  {
  }

  /** Whether nothing is written: a blank score or a missing id. */
  predicate Rejected(c: Card, gL: ScoreArg, gV: ScoreArg)
  {
    IsBlank(gL) || IsBlank(gV) || HomeId(c).None? || AwayId(c).None?
  }

  // ----- The card's winner ---------------------------------------------------------------------

  /** A single leg: the strictly higher score wins; a draw (or `NaN`) gives none. */
  function SingleLegWinner(sL: Option<int>, sV: Option<int>, idL: UserId, idV: UserId): Option<UserId>
  {
    if Beats(sL, sV) then Some(idL) else if Beats(sV, sL) then Some(idV) else None
  }

  /** A first leg posted after the second: the card's home player adds the other row's away
      score, the card's away player its home score. */
  function IdaWinner(o: MatchRow, sL: Option<int>, sV: Option<int>, idL: UserId, idV: UserId): Option<UserId>
  {
    SingleLegWinner(Plus(sL, OrZero(o.awayScore)), Plus(sV, OrZero(o.homeScore)), idL, idV)
  }

  /** A second leg posted after the first, as written: the first leg's home score is added to
      this card's home score, and the first leg's players are promoted by that sum. */
  function VueltaWinnerAsWritten(o: MatchRow, sL: Option<int>, sV: Option<int>): Option<UserId>
  {
    var l := Plus(sL, OrZero(o.homeScore));
    var v := Plus(sV, OrZero(o.awayScore));
    if Beats(l, v) then o.home else if Beats(v, l) then o.away else None
  }

  /** A second leg posted after the first, corrected: the first leg's home player played away
      on this card, so their aggregate is the first leg's home score plus this card's away
      score. */
  function VueltaWinner(o: MatchRow, sL: Option<int>, sV: Option<int>): Option<UserId>
  {
    var first := Plus(sV, OrZero(o.homeScore));
    var second := Plus(sL, OrZero(o.awayScore));
    if Beats(first, second) then o.home else if Beats(second, first) then o.away else None
  }

  /** `ganadorId` in `guardar`: a single leg by its own scores; a leg of a two-legged tie only
      once the other leg is played. */
  function CardWinner(round: string, partner: Option<MatchRow>, sL: Option<int>, sV: Option<int>,
                      idL: UserId, idV: UserId): Option<UserId>
  {
    if !IsTwoLegged(round) then SingleLegWinner(sL, sV, idL, idV)
    else if partner.None? || !partner.value.played then None
    else if Contains(round, "(Ida)") then IdaWinner(partner.value, sL, sV, idL, idV)
    else VueltaWinnerAsWritten(partner.value, sL, sV)
  }

  /** The winner the card evidently intends: the same, with the corrected second-leg sum. */
  function IntendedCardWinner(round: string, partner: Option<MatchRow>, sL: Option<int>, sV: Option<int>,
                              idL: UserId, idV: UserId): Option<UserId>
  {
    if !IsTwoLegged(round) then SingleLegWinner(sL, sV, idL, idV)
    else if partner.None? || !partner.value.played then None
    else if Contains(round, "(Ida)") then IdaWinner(partner.value, sL, sV, idL, idV)
    else VueltaWinner(partner.value, sL, sV)
  }

  /** A single leg is won by the strictly higher score; equal scores give no winner, and
      neither does a score that is not a number. */
  lemma SingleLegWinnerSpec(sL: Option<int>, sV: Option<int>, idL: UserId, idV: UserId)
    ensures var w := SingleLegWinner(sL, sV, idL, idV);
      (sL.Some? && sV.Some? && sL.value > sV.value ==> w == Some(idL))
      && (sL.Some? && sV.Some? && sV.value > sL.value ==> w == Some(idV))
      && (w.None? <==> sL.None? || sV.None? || sL == sV)
  {
  }

  /** The goals a player scored on the card being posted. */
  function CardGoals(sL: int, sV: int, idL: UserId, idV: UserId, p: UserId): int
  {
    if p == idL then sL else if p == idV then sV else 0
  }

  /** With the other leg mirrored (its home player is the card's away player), the first-leg
      sum is each player's aggregate, so the player with more goals over both legs wins. */
  lemma IdaWinnerSpec(o: MatchRow, sL: int, sV: int, idL: UserId, idV: UserId)
    requires idL != idV && o.home == Some(idV) && o.away == Some(idL)
    ensures var w := IdaWinner(o, Some(sL), Some(sV), idL, idV);
      var aggL := CardGoals(sL, sV, idL, idV, idL) + GoalsFor(o, idL);
      var aggV := CardGoals(sL, sV, idL, idV, idV) + GoalsFor(o, idV);
      (w == Some(idL) <==> aggL > aggV) && (w == Some(idV) <==> aggV > aggL) && (w.None? <==> aggL == aggV)
  {
  }

  /** Corrected: on a second leg that mirrors the first, the first leg's home player wins
      exactly when their aggregate is higher, and symmetrically. */
  lemma VueltaWinnerSpec(o: MatchRow, sL: int, sV: int, idL: UserId, idV: UserId)
    requires idL != idV && o.home == Some(idV) && o.away == Some(idL)
    ensures var w := VueltaWinner(o, Some(sL), Some(sV));
      var aggL := CardGoals(sL, sV, idL, idV, idL) + GoalsFor(o, idL);
      var aggV := CardGoals(sL, sV, idL, idV, idV) + GoalsFor(o, idV);
      (w == Some(idL) <==> aggL > aggV) && (w == Some(idV) <==> aggV > aggL) && (w.None? <==> aggL == aggV)
  {
  }

  /** "Final (Vuelta)" is a second-leg label. */
  lemma VueltaLabel()
    ensures IsTwoLegged("Final (Vuelta)") && !Contains("Final (Vuelta)", "(Ida)")
  {
    ContainsInfix("Final ", "(Vuelta)", "");
    assert "Final " + "(Vuelta)" + "" == "Final (Vuelta)";
    NotContains("Final (Vuelta)", "(Ida)", 1);
  }

  /** As written the second-leg sum mixes the two players: first leg A 1-0 B, second leg
      B 2-0 A (a second-leg label such as "Final (Vuelta)"). B leads 2-1 on aggregate, but the
      code adds 1 + 2 for A against 0 + 0 for B and promotes A; the corrected sum promotes B. */
  lemma VueltaSumMixesPlayers(round: string)
    requires IsTwoLegged(round) && !Contains(round, "(Ida)")
    ensures var ida := MatchRow(1, 7, Some("Final (Ida)"), 0, Some(10), Some(20), Some(1), Some(0), true, 0, 0);
      var agg10 := GoalsFor(ida, 10) + CardGoals(2, 0, 20, 10, 10);
      var agg20 := GoalsFor(ida, 20) + CardGoals(2, 0, 20, 10, 20);
      agg20 > agg10
      && CardWinner(round, Some(ida), Some(2), Some(0), 20, 10) == Some(10)
      && IntendedCardWinner(round, Some(ida), Some(2), Some(0), 20, 10) == Some(20)
  {
  }

  // ----- The other leg -------------------------------------------------------------------------

  /** A row of the same playoff and tie number other than the posted one, whatever its round. */
  function OtherLeg(playoff: int, order: nat, id: int): MatchRow -> bool
  {
    (r: MatchRow) => r.playoff == playoff && r.order == order && r.id != id
  }

  /** `enfrentamiento.find(m => m.id !== partido.id)`, in table order. */
  function Partner(rows: seq<MatchRow>, playoff: int, order: nat, id: int): Option<MatchRow>
  {
    var others := Filter(rows, OtherLeg(playoff, order, id));
    if others == [] then None else Some(others[0])
  }

  /** There is a partner exactly when another row shares the playoff and the tie number, and
      it is the first such row. */
  lemma PartnerSpec(rows: seq<MatchRow>, playoff: int, order: nat, id: int, k: nat)
    ensures Partner(rows, playoff, order, id).None? <==>
      forall i :: 0 <= i < |rows| ==> !OtherLeg(playoff, order, id)(rows[i])
    ensures k < |rows| && OtherLeg(playoff, order, id)(rows[k])
      && (forall j :: 0 <= j < k ==> !OtherLeg(playoff, order, id)(rows[j]))
      ==> Partner(rows, playoff, order, id) == Some(rows[k])
  {
    var others := Filter(rows, OtherLeg(playoff, order, id));
    if others != [] {
      assert others[0] in rows;
    }
    if k < |rows| && OtherLeg(playoff, order, id)(rows[k]) && forall j :: 0 <= j < k ==> !OtherLeg(playoff, order, id)(rows[j]) {
      FilterHead(rows, k, OtherLeg(playoff, order, id));
    }
  }

  // ----- Posting a result ----------------------------------------------------------------------

  /** The league table after `guardar`. */
  function LeagueAfter(rows: seq<LeagueMatch>, c: Card, gL: ScoreArg, gV: ScoreArg): seq<LeagueMatch>
  {
    if Rejected(c, gL, gV) || c.playoff.Some? then rows
    else UpdateResult(rows, c.id, ParseArg(gL), ParseArg(gV), true)
  }

  /** The winner the card computes once its row is saved. */
  function PostedWinner(saved: seq<MatchRow>, c: Card, gL: ScoreArg, gV: ScoreArg): Option<UserId>
    requires c.playoff.Some? && c.round.Some? && HomeId(c).Some? && AwayId(c).Some?
  {
    CardWinner(c.round.value, Partner(saved, c.playoff.value, c.order, c.id),
               ParseArg(gL), ParseArg(gV), HomeId(c).value, AwayId(c).value)
  }

  /** The winner `w` written into tie `order / 2` of round `next`, when both exist. */
  function Promote(saved: seq<MatchRow>, playoff: int, order: nat, w: Option<UserId>, next: Option<string>): (r: seq<MatchRow>)
    ensures |r| == |saved|
  {
    if w.Some? && next.Some? then Rewrite(saved, Slot(playoff, order / 2, next.value), SetSide(Column(order), w))
    else saved
  }

  /** Promotion writes one player column and nothing else. */
  lemma PromoteShape(saved: seq<MatchRow>, playoff: int, order: nat, w: Option<UserId>, next: Option<string>, i: nat)
    requires i < |saved|
    ensures SameShape(Promote(saved, playoff, order, w, next)[i], saved[i])
    ensures w.None? || next.None? || !InSlot(saved[i], playoff, order / 2, next.value) ==>
      Promote(saved, playoff, order, w, next)[i] == saved[i]
    ensures w.Some? && next.Some? && InSlot(saved[i], playoff, order / 2, next.value) ==>
      Get(Promote(saved, playoff, order, w, next)[i], Column(order)) == w
  {
  }

  /** The playoff table after `guardar`, with `next` the round after the card's. */
  function BracketAfter(rows: seq<MatchRow>, c: Card, gL: ScoreArg, gV: ScoreArg, next: Option<string>): (r: seq<MatchRow>)
    ensures |r| == |rows|
  {
    if Rejected(c, gL, gV) || c.playoff.None? then rows
    else
      var saved := SavedRows(rows, c.id, gL, gV);
      if c.round.None? then saved
      else Promote(saved, c.playoff.value, c.order, PostedWinner(saved, c, gL, gV), next)
  }

  /** The round after the card's, from the label before " (". */
  function NextOfCard(c: Card): Option<string>
  {
    if c.round.Some? then NextRound(FaseBase(c.round.value)) else None
  }

  /** `guardar`: the score goes to `matches` or `playoff_matches` by id; a playoff card then
      looks up the other leg and, when there is a winner, writes it into the next round. */
  method Guardar(c: Card, gL: ScoreArg, gV: ScoreArg, league: LeagueTable, bracket: Table) returns (outcome: Outcome)
    modifies league, bracket
    ensures outcome == Submit(c, gL, gV)
    ensures league.rows == LeagueAfter(old(league.rows), c, gL, gV)
    ensures bracket.rows == BracketAfter(old(bracket.rows), c, gL, gV, NextOfCard(c))
  {
    if IsBlank(gL) || IsBlank(gV) {
      return NeedsGoals;
    }
    var idLocal := Either(c.homeTeam, c.localId);
    var idVisitante := Either(c.awayTeam, c.visitorId);
    if idLocal.None? || idVisitante.None? {
      return MissingIds;
    }
    if c.playoff.None? {
      league.SubmitResult(c.id, ParseArg(gL), ParseArg(gV));
      return Saved;
    }
    outcome := PostPlayoffCard(c, gL, gV, bracket);
  }

  /** The playoff path of `guardar`, once the card is accepted. */
  method PostPlayoffCard(c: Card, gL: ScoreArg, gV: ScoreArg, bracket: Table) returns (outcome: Outcome)
    requires !Rejected(c, gL, gV) && c.playoff.Some?
    modifies bracket
    ensures outcome == Submit(c, gL, gV)
    ensures bracket.rows == BracketAfter(old(bracket.rows), c, gL, gV, NextOfCard(c))
  {
    var scoreL := ParseArg(gL);
    var scoreV := ParseArg(gV);
    bracket.rows := Rewrite(bracket.rows, HasId(c.id), Scored(scoreL, scoreV));
    if c.round.None? {
      return Failed;
    }
    var pId := c.playoff.value;
    var faseBase := FaseBase(c.round.value);
    var otro := Partner(bracket.rows, pId, c.order, c.id);
    var ganadorId := CardWinner(c.round.value, otro, scoreL, scoreV, HomeId(c).value, AwayId(c).value);
    if ganadorId.Some? {
      var sigRonda := NextRound(faseBase);
      if sigRonda.Some? {
        bracket.rows := Rewrite(bracket.rows, Slot(pId, c.order / 2, sigRonda.value), SetSide(Column(c.order), ganadorId));
      }
    }
    return Saved;
  }

  /** A rejected card writes nothing; a league card never touches the playoff table and a
      playoff card never touches the league table. */
  lemma GuardarTouchesOneTable(league: seq<LeagueMatch>, bracket: seq<MatchRow>, c: Card, gL: ScoreArg, gV: ScoreArg, next: Option<string>)
    ensures Submit(c, gL, gV) in {NeedsGoals, MissingIds} ==>
      LeagueAfter(league, c, gL, gV) == league && BracketAfter(bracket, c, gL, gV, next) == bracket
    ensures c.playoff.None? ==> BracketAfter(bracket, c, gL, gV, next) == bracket
    ensures c.playoff.Some? ==> LeagueAfter(league, c, gL, gV) == league
  {
  }

  /** An accepted playoff card stores both parsed scores on its own row, marked played. */
  lemma GuardarStores(rows: seq<MatchRow>, c: Card, gL: ScoreArg, gV: ScoreArg, next: Option<string>, i: nat)
    requires !Rejected(c, gL, gV) && c.playoff.Some?
    requires i < |rows| && rows[i].id == c.id
    ensures var r := BracketAfter(rows, c, gL, gV, next)[i];
      r.homeScore == ParseArg(gL) && r.awayScore == ParseArg(gV) && r.played
      && r.id == rows[i].id && r.round == rows[i].round && r.order == rows[i].order
  {
    var saved := SavedRows(rows, c.id, gL, gV);
    assert saved[i] == Scored(ParseArg(gL), ParseArg(gV))(rows[i]);
    if c.round.Some? {
      PromoteShape(saved, c.playoff.value, c.order, PostedWinner(saved, c, gL, gV), next, i);
    }
  }

  /** With a winner and a next round, every row of tie `order / 2` of that round gets the
      winner in its column (home for an even order, away for an odd one). */
  lemma GuardarPromotes(rows: seq<MatchRow>, c: Card, gL: ScoreArg, gV: ScoreArg, next: Option<string>, i: nat)
    requires !Rejected(c, gL, gV) && c.playoff.Some? && c.round.Some? && next.Some?
    requires PostedWinner(SavedRows(rows, c.id, gL, gV), c, gL, gV).Some?
    requires i < |rows| && InSlot(rows[i], c.playoff.value, c.order / 2, next.value)
    ensures Get(BracketAfter(rows, c, gL, gV, next)[i], Column(c.order))
         == PostedWinner(SavedRows(rows, c.id, gL, gV), c, gL, gV)
  {
    var saved := SavedRows(rows, c.id, gL, gV);
    assert SameShape(saved[i], rows[i]) || saved[i] == Scored(ParseArg(gL), ParseArg(gV))(rows[i]);
    PromoteShape(saved, c.playoff.value, c.order, PostedWinner(saved, c, gL, gV), next, i);
  }

  /** Without a winner (a draw, or the other leg not played yet) only the card's own row
      changes: an earlier promotion into the next round is left as it is. */
  lemma GuardarDrawKeepsSlot(rows: seq<MatchRow>, c: Card, gL: ScoreArg, gV: ScoreArg, next: Option<string>, i: nat)
    requires !Rejected(c, gL, gV) && c.playoff.Some? && c.round.Some?
    requires PostedWinner(SavedRows(rows, c.id, gL, gV), c, gL, gV).None?
    requires i < |rows| && rows[i].id != c.id
    ensures BracketAfter(rows, c, gL, gV, next)[i] == rows[i]
  {
    var saved := SavedRows(rows, c.id, gL, gV);
    assert saved[i] == rows[i];
    PromoteShape(saved, c.playoff.value, c.order, PostedWinner(saved, c, gL, gV), next, i);
  }

  /** Only the card's row and the next-round slot are written. */
  lemma GuardarFrame(rows: seq<MatchRow>, c: Card, gL: ScoreArg, gV: ScoreArg, next: Option<string>, i: nat)
    requires i < |rows| && rows[i].id != c.id
    requires c.playoff.None? || next.None? || !InSlot(rows[i], c.playoff.value, c.order / 2, next.value)
    ensures BracketAfter(rows, c, gL, gV, next)[i] == rows[i]
  {
    if !Rejected(c, gL, gV) && c.playoff.Some? {
      var saved := SavedRows(rows, c.id, gL, gV);
      assert saved[i] == rows[i];
      if c.round.Some? {
        PromoteShape(saved, c.playoff.value, c.order, PostedWinner(saved, c, gL, gV), next, i);
      }
    }
  }

  /** Nothing is promoted past the Final: its card only saves its own row. */
  lemma NoPromotionPastFinal(rows: seq<MatchRow>, c: Card, gL: ScoreArg, gV: ScoreArg)
    requires c.round.Some? && FaseBase(c.round.value) == "Final"
    ensures BracketAfter(rows, c, gL, gV, NextOfCard(c))
         == if Rejected(c, gL, gV) || c.playoff.None? then rows else SavedRows(rows, c.id, gL, gV)
  {
    assert ROUND_ORDER[4] == "Final";
    NextOfOwnName(4);
  }

  // ----- The playoff matches on the card list (`cargar`) ----------------------------------------

  /** A row of `playoffs`. */
  datatype Playoff = Playoff(id: int, name: string, currentRound: Option<string>)

  /** `.not('current_round', 'is', null).neq('current_round', 'Finalizado')`. */
  predicate Active(po: Playoff)
  {
    po.currentRound.Some? && po.currentRound.value != "Finalizado"
  }

  function IsActive(): Playoff -> bool
  {
    (po: Playoff) => Active(po)
  }

  /** A card shown with its playoff's name. */
  datatype TaggedCard = TaggedCard(card: Card, playoffName: string)

  function IsReference(po: Playoff): Card -> bool
  {
    (m: Card) => m.playoff == Some(po.id) && m.round == po.currentRound
  }

  /** `partidoReferencia`: the player's first row of the playoff in its current round. */
  function Reference(mine: seq<Card>, po: Playoff): (r: Option<Card>)
    ensures r.Some? ==> r.value in mine && IsReference(po)(r.value)
    ensures r.Some? ==> exists k :: 0 <= k < |mine| && mine[k] == r.value
                                    && forall j :: 0 <= j < k ==> !IsReference(po)(mine[j])
  {
    var refs := Filter(mine, IsReference(po));
    if refs == [] then None
    else
      FilterFirst(mine, IsReference(po));
      Some(refs[0])
  }

  /** Same playoff, same window as the reference, and both sides known. */
  function InWindow(po: Playoff, ref: Card): Card -> bool
  {
    (m: Card) => m.playoff == Some(po.id) && m.start == ref.start && m.end == ref.end
                 && m.localId.Some? && m.visitorId.Some?
  }

  function Tag(cs: seq<Card>, name: string): (r: seq<TaggedCard>)
    ensures |r| == |cs|
  {
    seq(|cs|, i requires 0 <= i < |cs| => TaggedCard(cs[i], name))
  }

  /** The cards one active playoff contributes. */
  function CardsOf(mine: seq<Card>): Playoff -> seq<TaggedCard>
  {
    (po: Playoff) =>
      var ref := Reference(mine, po);
      if ref.None? then [] else Tag(Filter(mine, InWindow(po, ref.value)), po.name)
  }

  /** `playoffTemp` before its final sort. */
  function PlayoffCards(playoffs: seq<Playoff>, mine: seq<Card>): seq<TaggedCard>
  {
    FlatMap(Filter(playoffs, IsActive()), CardsOf(mine))
  }

  /** The playoff part of `cargar`: the season's playoffs and the player's playoff rows are
      inputs; each active playoff appends its cards in turn. */
  method LoadPlayoffCards(playoffs: seq<Playoff>, mine: seq<Card>) returns (playoffTemp: seq<TaggedCard>)
    ensures playoffTemp == PlayoffCards(playoffs, mine)
  {
    var activos := Filter(playoffs, IsActive());
    playoffTemp := [];
    for k := 0 to |activos|
      invariant playoffTemp == FlatMap(activos[..k], CardsOf(mine))
    {
      var po := activos[k];
      var partidoReferencia := Reference(mine, po);
      if partidoReferencia.Some? {
        var partidosEnFecha := Filter(mine, InWindow(po, partidoReferencia.value));
        playoffTemp := playoffTemp + Tag(partidosEnFecha, po.name);
        assert CardsOf(mine)(po) == Tag(partidosEnFecha, po.name);
      } else {
        assert CardsOf(mine)(po) == [];
      }
      FlatMapSnoc(activos, CardsOf(mine), k);
    }
    assert activos[..|activos|] == activos;
  }

  /** The reference row exists exactly when the player has a row of the playoff in its
      current round. */
  lemma ReferenceSpec(mine: seq<Card>, po: Playoff)
    ensures Reference(mine, po).None? <==> forall i :: 0 <= i < |mine| ==> !IsReference(po)(mine[i])
  {
    var refs := Filter(mine, IsReference(po));
    if refs != [] {
      assert refs[0] in mine;
    }
  }

  /** One playoff's cards are exactly the player's rows of that playoff in the reference's
      window with both sides known, tagged with the playoff's name. */
  lemma CardsOfHas(mine: seq<Card>, po: Playoff, t: TaggedCard)
    ensures t in CardsOf(mine)(po) <==>
      Reference(mine, po).Some? && t.playoffName == po.name && t.card in mine
      && InWindow(po, Reference(mine, po).value)(t.card)
  {
    var ref := Reference(mine, po);
    if ref.Some? {
      var inWindow := Filter(mine, InWindow(po, ref.value));
      FilterHas(mine, InWindow(po, ref.value), t.card);
      var tagged := Tag(inWindow, po.name);
      if t in tagged {
        var i :| 0 <= i < |tagged| && tagged[i] == t;
        assert t.card == inWindow[i];
      }
      if t.playoffName == po.name && t.card in inWindow {
        var i :| 0 <= i < |inWindow| && inWindow[i] == t.card;
        assert tagged[i] == t;
      }
    }
  }

  /** Every listed card comes from an active playoff. */
  lemma PlayoffCardsSound(playoffs: seq<Playoff>, mine: seq<Card>, t: TaggedCard)
    requires t in PlayoffCards(playoffs, mine)
    ensures exists k :: 0 <= k < |playoffs| && Active(playoffs[k]) && t in CardsOf(mine)(playoffs[k])
  {
    var activos := Filter(playoffs, IsActive());
    FlatMapHas(activos, CardsOf(mine), t);
    var j :| 0 <= j < |activos| && t in CardsOf(mine)(activos[j]);
    var k :| 0 <= k < |playoffs| && playoffs[k] == activos[j];
  }

  /** Every card of every active playoff is listed. */
  lemma PlayoffCardsComplete(playoffs: seq<Playoff>, mine: seq<Card>, t: TaggedCard, k: nat)
    requires k < |playoffs| && Active(playoffs[k]) && t in CardsOf(mine)(playoffs[k])
    ensures t in PlayoffCards(playoffs, mine)
  {
    var activos := Filter(playoffs, IsActive());
    FilterHas(playoffs, IsActive(), playoffs[k]);
    var j :| 0 <= j < |activos| && activos[j] == playoffs[k];
    FlatMapHas(activos, CardsOf(mine), t);
  }
}
