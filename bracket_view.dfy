// The public bracket of a playoff (src/Clasificacion.jsx, `renderPlayoffBrackets`): rows of
// `playoff_matches_detallados` are grouped by base round, the legs of each tie are paired by
// the nicks on them, and each tie shows its aggregate, whether it is finished and who won.

module BracketView {
  import opened Common
  import opened Text
  import opened Scores
  import opened Sorting
  import opened Playoffs

  /** A row of the detailed match view, as the bracket reads it. `played` stands for
      `played === true || played === 'true' || is_played === true`. */
  datatype LegRow = LegRow(
    id: int,
    round: Option<string>,
    localNick: Option<string>,
    visitanteNick: Option<string>,
    homeScore: Option<int>,
    awayScore: Option<int>,
    played: bool)

  // ----- Base round of a label -------------------------------------------------------------------

  /** The characters a regular expression's `.` does not match. */
  predicate IsLineTerminator(c: char)
  {
    c == '\n' || c == '\r' || c == '\U{2028}' || c == '\U{2029}'
  }

  /** The text before the first line terminator. */
  function Line(s: string): (r: string)
    ensures |r| <= |s|
  {
    if s == [] || IsLineTerminator(s[0]) then [] else [s[0]] + Line(s[1..])
  }

  /** The position of the last `c` in `s`. */
  function LastIndexOf(s: string, c: char): (r: nat)
    requires c in s
    ensures r < |s| && s[r] == c
    ensures c !in s[r + 1..]
  {
    if s[|s| - 1] == c then |s| - 1
    else
      var r := LastIndexOf(s[..|s| - 1], c);
      assert s[r + 1..] == s[..|s| - 1][r + 1..] + [s[|s| - 1]];
      r
  }

  /** `s.replace(/\(.*\)/g, '')`: from each `(` the greedy match runs to the last `)` before
      the end of the line; matching resumes after it. */
  function StripParens(s: string): (r: string)
    ensures |r| <= |s|
    decreases |s|
  {
    if s == [] then []
    else if OpensMark(s) then StripParens(AfterMark(s))
    else [s[0]] + StripParens(s[1..])
  }

  /** Whether `s` starts with `(` and its line has a `)` later on. */
  predicate OpensMark(s: string)
  {
    s != [] && s[0] == '(' && ')' in Line(s[1..])
  }

  /** What follows the last `)` of the line that `s` opens with `(`. */
  function AfterMark(s: string): (r: string)
    requires OpensMark(s)
    ensures |r| < |s|
  {
    s[LastIndexOf(Line(s[1..]), ')') + 2..]
  }

  /** Whether `s` starts with "ida" in any case. */
  predicate IdaAt(s: string)
  {
    |s| >= 3 && Lower(s[..3]) == "ida"
  }

  /** Whether `s` starts with "vuelta" in any case. */
  predicate VueltaAt(s: string)
  {
    |s| >= 6 && Lower(s[..6]) == "vuelta"
  }

  /** `s.replace(/Ida|Vuelta|IDA|VUELTA/gi, '')`: every occurrence of either word, in any case,
      scanned left to right. */
  function RemoveLegWords(s: string): (r: string)
    ensures |r| <= |s|
    decreases |s|
  {
    if IdaAt(s) then RemoveLegWords(s[3..])
    else if VueltaAt(s) then RemoveLegWords(s[6..])
    else if s == [] then []
    else [s[0]] + RemoveLegWords(s[1..])
  }

  /** `getBaseRound`: the label without its leg marks; a missing or empty label is "OTRA". */
  function GetBaseRound(r: Option<string>): string
  {
    if r.Some? && r.value != "" then Trim(RemoveLegWords(StripParens(r.value))) else "OTRA"
  }

  lemma {:induction false} StripParensNone(s: string)
    requires '(' !in s
    ensures StripParens(s) == s
    decreases |s|
  {
    if s != [] {
      StripParensNone(s[1..]);
      assert s == [s[0]] + s[1..];
    }
  }

  lemma {:induction false} LineWhole(s: string)
    requires forall i :: 0 <= i < |s| ==> !IsLineTerminator(s[i])
    ensures Line(s) == s
    decreases |s|
  {
    if s != [] {
      LineWhole(s[1..]);
      assert s == [s[0]] + s[1..];
    }
  }

  lemma MarkLine(mark: string)
    requires forall i :: 0 <= i < |mark| ==> !IsLineTerminator(mark[i])
    ensures Line(mark + ")") == mark + ")"
  {
    var t := mark + ")";
    forall i | 0 <= i < |t|
      ensures !IsLineTerminator(t[i])
    {
      if i < |mark| {
        assert t[i] == mark[i];
      }
    }
    LineWhole(t);
  }

  lemma MarkClose(mark: string)
    requires ')' !in mark
    ensures var t := mark + ")"; ')' in t && LastIndexOf(t, ')') == |mark|
  {
    var t := mark + ")";
    assert t[|mark|] == ')';
  }

  /** The parenthesised mark on its own, from its `(` to its `)`, is dropped. */
  lemma StripMarkAlone(mark: string)
    requires ')' !in mark && forall i :: 0 <= i < |mark| ==> !IsLineTerminator(mark[i])
    ensures StripParens("(" + mark + ")") == []
  {
    MarkSkipped(mark);
  }

  lemma MarkSkipped(mark: string)
    requires ')' !in mark && forall i :: 0 <= i < |mark| ==> !IsLineTerminator(mark[i])
    ensures OpensMark("(" + mark + ")") && AfterMark("(" + mark + ")") == []
  {
    var s := "(" + mark + ")";
    assert s[0] == '(' && s[1..] == mark + ")";
    MarkLine(mark);
    MarkClose(mark);
  }

  /** A parenthesised mark after a name without parentheses is removed whole. */
  lemma {:induction false} StripMark(name: string, mark: string)
    requires '(' !in name
    requires ')' !in mark && forall i :: 0 <= i < |mark| ==> !IsLineTerminator(mark[i])
    ensures StripParens(name + " (" + mark + ")") == name + " "
    decreases |name|
  {
    var s := name + " (" + mark + ")";
    if name == [] {
      StripMarkAlone(mark);
      assert s[1..] == "(" + mark + ")";
    } else {
      assert s[1..] == name[1..] + " (" + mark + ")";
      StripMark(name[1..], mark);
      assert name == [name[0]] + name[1..];
    }
  }

  lemma WordsBeforeSpace(n: string)
    ensures IdaAt(n + " ") == IdaAt(n)
    ensures VueltaAt(n + " ") == VueltaAt(n)
  {
    var s := n + " ";
    if |n| >= 3 {
      assert s[..3] == n[..3];
    } else if |s| >= 3 {
      assert Lower(s[..3])[|n|] == ' ';
    }
    if |n| >= 6 {
      assert s[..6] == n[..6];
    } else if |s| >= 6 {
      assert Lower(s[..6])[|n|] == ' ';
    }
  }

  /** The leg words cannot span a trailing space. */
  lemma {:induction false} RemoveLegWordsSpace(n: string)
    ensures RemoveLegWords(n + " ") == RemoveLegWords(n) + " "
    decreases |n|
  {
    var s := n + " ";
    WordsBeforeSpace(n);
    if IdaAt(n) {
      assert s[3..] == n[3..] + " ";
      RemoveLegWordsSpace(n[3..]);
    } else if VueltaAt(n) {
      assert s[6..] == n[6..] + " ";
      RemoveLegWordsSpace(n[6..]);
    } else if n != [] {
      assert s[1..] == n[1..] + " ";
      RemoveLegWordsSpace(n[1..]);
    } else {
      assert !IdaAt(" ") && !VueltaAt(" ");
    }
  }

  lemma {:induction false} TrimEndSpace(s: string)
    ensures TrimEnd(s + " ") == TrimEnd(s)
  {
    assert (s + " ")[..|s|] == s;
  }

  lemma {:induction false} TrimStartSpace(s: string)
    ensures TrimStart(s + " ") == if TrimStart(s) == [] then [] else TrimStart(s) + " "
    decreases |s|
  {
    if s == [] {
      assert (s + " ")[1..] == [];
    } else if IsJsSpace(s[0]) {
      assert (s + " ")[1..] == s[1..] + " ";
      TrimStartSpace(s[1..]);
    }
  }

  lemma TrimSpace(s: string)
    ensures Trim(s + " ") == Trim(s)
  {
    TrimStartSpace(s);
    if TrimStart(s) != [] {
      TrimEndSpace(TrimStart(s));
    }
  }

  /** A leg label (`name (Ida)`, `name (Vuelta)`) has the same base round as the bare name of
      the round, whatever that name is, as long as it has no parenthesis of its own: both legs
      of a tie land in the column of their round. */
  lemma BaseOfLegLabel(name: string)
    requires '(' !in name && name != ""
    ensures GetBaseRound(Some(name + " (Ida)")) == GetBaseRound(Some(name))
    ensures GetBaseRound(Some(name + " (Vuelta)")) == GetBaseRound(Some(name))
  {
    LegMarks();
    BaseOfMarked(name, "Ida");
    BaseOfMarked(name, "Vuelta");
  }

  /** The two suffixes the generator appends, as a word in parentheses. */
  lemma LegMarks()
    ensures " (Ida)" == " (" + "Ida" + ")" && " (Vuelta)" == " (" + "Vuelta" + ")"
  {
  }

  /** A leg mark `name (word)` has the base round of `name`. */
  lemma BaseOfMarked(name: string, word: string)
    requires '(' !in name && name != "" && (word == "Ida" || word == "Vuelta")
    ensures GetBaseRound(Some(name + (" (" + word + ")"))) == GetBaseRound(Some(name))
  {
    assert name + (" (" + word + ")") == name + " (" + word + ")";
    StripMark(name, word);
    StripParensNone(name);
    RemoveLegWordsSpace(name);
    TrimSpace(RemoveLegWords(name));
  }

  /** Every label the generator writes, for a first or a second leg, has the base round of the
      round's own name. */
  lemma BaseOfLabels(size: nat, legs: bool)
    requires RoundName(size).Some?
    ensures GetBaseRound(FirstLegLabel(RoundName(size), legs)) == GetBaseRound(RoundName(size))
    ensures GetBaseRound(Some(SecondLegLabel(RoundName(size).value))) == GetBaseRound(RoundName(size))
  {
    var name := RoundName(size).value;
    assert '(' !in name && name != "" by {
      assert name in ROUND_ORDER;
    }
    BaseOfLegLabel(name);
  }

  // ----- Columns ----------------------------------------------------------------------------------

  const BRACKET_ORDER: seq<string> := ["OCTAVOS", "CUARTOS", "SEMIFINALES", "FINAL", "TERCER Y CUARTO PUESTO"]

  /** `toUpperCase` restricted to ASCII letters. */
  function UpperChar(c: char): char
  {
    if 'a' <= c <= 'z' then (c as int - 32) as char else c
  }

  function Upper(s: string): (r: string)
    ensures |r| == |s|
  {
    if s == [] then [] else [UpperChar(s[0])] + Upper(s[1..])
  }

  /** The column order of a base round: its place in `ordenRondas`, `-1` for other names. */
  function RoundKey(base: string): int
  {
    IndexOf(BRACKET_ORDER, Upper(base))
  }

  function BaseRounds(rows: seq<LegRow>): (r: seq<string>)
    ensures |r| == |rows|
  {
    seq(|rows|, i requires 0 <= i < |rows| => GetBaseRound(rows[i].round))
  }

  /** `rondasUnicas`: the distinct base rounds, ordered by `ordenRondas` (a stable sort, so
      unknown names keep their order of appearance, ahead of the known ones). */
  function RoundColumns(rows: seq<LegRow>): seq<string>
  {
    SortBy(Unique(BaseRounds(rows)), RoundKey)
  }

  /** Every base round present gets exactly one column, and columns follow `ordenRondas`. */
  lemma RoundColumnsSpec(rows: seq<LegRow>, base: string)
    ensures base in RoundColumns(rows) <==> exists i :: 0 <= i < |rows| && GetBaseRound(rows[i].round) == base
    ensures Distinct(RoundColumns(rows))
    ensures SortedBy(RoundColumns(rows), RoundKey)
  {
    var b := BaseRounds(rows);
    UniqueSorted(b, RoundKey, base);
    if exists i :: 0 <= i < |rows| && GetBaseRound(rows[i].round) == base {
      var i :| 0 <= i < |rows| && GetBaseRound(rows[i].round) == base;
      assert b[i] == base;
    }
    if base in b {
      var i :| 0 <= i < |b| && b[i] == base;
    }
  }

  /** `matchesInRound`: the rows whose base round is `base`, in fetch order. */
  function RowsOfRound(rows: seq<LegRow>, base: string): (r: seq<LegRow>)
    ensures forall i :: 0 <= i < |r| ==> r[i] in rows && GetBaseRound(r[i].round) == base
    ensures forall i :: 0 <= i < |rows| && GetBaseRound(rows[i].round) == base ==> rows[i] in r
  {
    Filter(rows, OfBase(base))
  }

  function OfBase(base: string): LegRow -> bool
  {
    (m: LegRow) => GetBaseRound(m.round) == base
  }

  // ----- Pairing legs into ties -------------------------------------------------------------------

  /** `m.local_nick?.trim().toLowerCase() || 'tbd'`. */
  function NickKey(nick: Option<string>): (r: string)
    ensures r != ""
  {
    if nick.None? then "tbd"
    else
      var t := Lower(Trim(nick.value));
      if t == "" then "tbd" else t
  }

  /** String order by character code, as `Array.prototype.sort` compares strings. */
  predicate StrBefore(a: string, b: string)
  {
    if a == [] then b != []
    else if b == [] then false
    else a[0] < b[0] || (a[0] == b[0] && StrBefore(a[1..], b[1..]))
  }

  /** `[n1, n2].sort().join(' vs ')`. */
  function PairKey(m: LegRow): string
  {
    var n1 := NickKey(m.localNick);
    var n2 := NickKey(m.visitanteNick);
    if StrBefore(n2, n1) then n2 + " vs " + n1 else n1 + " vs " + n2
  }

  /** `compartenNombres`: a named side of `m` plays in `pm`. */
  predicate SharesName(m: LegRow, pm: LegRow)
  {
    var n1 := NickKey(m.localNick);
    var n2 := NickKey(m.visitanteNick);
    var p1 := NickKey(pm.localNick);
    var p2 := NickKey(pm.visitanteNick);
    (n1 != "tbd" && (n1 == p1 || n1 == p2)) || (n2 != "tbd" && (n2 == p1 || n2 == p2))
  }

  /** Whether `pm` belongs to the tie `m` opens: the same pair of nicks, or a shared name when
      the pair still has an undecided side. */
  predicate Joins(m: LegRow, pm: LegRow)
  {
    PairKey(pm) == PairKey(m) || (Contains(PairKey(m), "tbd") && SharesName(m, pm))
  }

  /** A relation deciding which rows share a tie, reflexive as `Joins` is. */
  type JoinRel = (LegRow, LegRow) -> bool

  lemma JoinsReflexive(m: LegRow)
    ensures Joins(m, m)
  {
  }

  /** The `pareja` test: not processed yet, and in `m`'s tie. */
  function Unplaced(m: LegRow, done: set<int>, joins: JoinRel): LegRow -> bool
  {
    (pm: LegRow) => pm.id !in done && joins(m, pm)
  }

  /** `pareja`: the rows not yet processed that join `m`'s tie, in fetch order. */
  function Partner(rows: seq<LegRow>, m: LegRow, done: set<int>, joins: JoinRel): (r: seq<LegRow>)
    ensures forall i :: 0 <= i < |r| ==> r[i] in rows && r[i].id !in done && joins(m, r[i])
    ensures forall i :: 0 <= i < |rows| && rows[i].id !in done && joins(m, rows[i]) ==> rows[i] in r
  {
    Filter(rows, Unplaced(m, done, joins))
  }

  /** No two rows share an id. */
  predicate UniqueIds(s: seq<LegRow>)
  {
    forall i, j :: 0 <= i < j < |s| ==> s[i].id != s[j].id
  }

  function IdsOf(s: seq<LegRow>): set<int>
  {
    set i | 0 <= i < |s| :: s[i].id
  }

  lemma {:induction false} FilterUnique(rows: seq<LegRow>, keep: LegRow -> bool)
    requires UniqueIds(rows)
    ensures UniqueIds(Filter(rows, keep))
    decreases |rows|
  {
    if rows != [] {
      var rest := Filter(rows[1..], keep);
      assert UniqueIds(rows[1..]);
      FilterUnique(rows[1..], keep);
      forall i | 0 <= i < |rest|
        ensures rest[i].id != rows[0].id
      {
        var j :| 0 <= j < |rows[1..]| && rows[1..][j] == rest[i];
        assert rows[j + 1] == rest[i];
      }
    }
  }

  /** The row that opens a tie comes first in it when every earlier row is processed. */
  lemma PartnerHead(rows: seq<LegRow>, k: nat, done: set<int>, joins: JoinRel)
    requires k < |rows| && rows[k].id !in done && joins(rows[k], rows[k])
    requires forall j :: 0 <= j < k ==> rows[j].id in done
    ensures Partner(rows, rows[k], done, joins) != [] && Partner(rows, rows[k], done, joins)[0] == rows[k]
  {
    FilterHead(rows, k, Unplaced(rows[k], done, joins));
  }

  /** The ties found so far and the ids already placed in one. */
  datatype Pairing = Pairing(ties: seq<seq<LegRow>>, done: set<int>)

  /** The state of the `forEach` over `matchesInRound` after its first `k` rows. */
  function PairsUpTo(rows: seq<LegRow>, k: nat, joins: JoinRel): Pairing
    requires k <= |rows|
  {
    if k == 0 then Pairing([], {})
    else
      var st := PairsUpTo(rows, k - 1, joins);
      var m := rows[k - 1];
      if m.id in st.done then st
      else
        var p := Partner(rows, m, st.done, joins);
        Pairing(st.ties + [p], st.done + IdsOf(p))
  }

  /** The leg pairing of one round: each unprocessed row opens a tie with every unprocessed
      row that joins it. The order of legs inside a tie is the fetch order. */
  method PairLegs(rows: seq<LegRow>) returns (ties: seq<seq<LegRow>>)
    ensures ties == PairsUpTo(rows, |rows|, Joins).ties
  {
    ties := [];
    var processed: set<int> := {};
    for k := 0 to |rows|
      invariant Pairing(ties, processed) == PairsUpTo(rows, k, Joins)
    {
      var m := rows[k];
      if m.id !in processed {
        var pareja := Partner(rows, m, processed, Joins);
        ties := ties + [pareja];
        processed := processed + IdsOf(pareja);
      }
    }
  }

  /** All legs of all ties, in order. */
  function Flatten(ties: seq<seq<LegRow>>): seq<LegRow>
  {
    if ties == [] then [] else Flatten(ties[..|ties| - 1]) + ties[|ties| - 1]
  }

  /** Every tie is opened by its first row, and every row of it joins that row. */
  predicate Anchored(ties: seq<seq<LegRow>>, joins: JoinRel)
  {
    forall t :: 0 <= t < |ties| ==>
      ties[t] != [] && forall x :: 0 <= x < |ties[t]| ==> joins(ties[t][0], ties[t][x])
  }

  /** The ties hold rows of the round, none twice, and `done` is the set of their ids. */
  predicate Placed(rows: seq<LegRow>, ties: seq<seq<LegRow>>, done: set<int>)
  {
    var f := Flatten(ties);
    (forall i :: 0 <= i < |f| ==> f[i] in rows) && UniqueIds(f) && done == IdsOf(f)
  }

  /** The first `k` rows are placed. */
  predicate Covered(rows: seq<LegRow>, k: nat, done: set<int>)
  {
    forall j :: 0 <= j < k && j < |rows| ==> rows[j].id in done
  }

  /** What holds after `k` steps of the pairing. */
  predicate PairingInvariant(rows: seq<LegRow>, k: nat, st: Pairing, joins: JoinRel)
  {
    Placed(rows, st.ties, st.done) && Covered(rows, k, st.done) && Anchored(st.ties, joins)
  }

  lemma FlattenSnoc(ties: seq<seq<LegRow>>, p: seq<LegRow>)
    ensures Flatten(ties + [p]) == Flatten(ties) + p
  {
    assert (ties + [p])[..|ties|] == ties;
  }

  lemma UniqueAppend(f: seq<LegRow>, p: seq<LegRow>)
    requires UniqueIds(f) && UniqueIds(p)
    requires forall i :: 0 <= i < |p| ==> p[i].id !in IdsOf(f)
    ensures UniqueIds(f + p)
    ensures IdsOf(f + p) == IdsOf(f) + IdsOf(p)
  {
    var g := f + p;
    forall i, j | 0 <= i < j < |g|
      ensures g[i].id != g[j].id
    {
      if i < |f| && j >= |f| {
        assert g[j] == p[j - |f|];
        assert g[i].id in IdsOf(f);
      } else if i >= |f| {
        assert g[i] == p[i - |f|] && g[j] == p[j - |f|];
      }
    }
    forall x | x in IdsOf(f + p)
      ensures x in IdsOf(f) + IdsOf(p)
    {
      var i :| 0 <= i < |g| && g[i].id == x;
      if i >= |f| {
        assert g[i] == p[i - |f|];
      }
    }
    forall x | x in IdsOf(f) + IdsOf(p)
      ensures x in IdsOf(f + p)
    {
      if x in IdsOf(f) {
        var i :| 0 <= i < |f| && f[i].id == x;
        assert g[i] == f[i];
      } else {
        var i :| 0 <= i < |p| && p[i].id == x;
        assert g[|f| + i] == p[i];
      }
    }
  }

  lemma AnchoredSnoc(ties: seq<seq<LegRow>>, p: seq<LegRow>, joins: JoinRel)
    requires Anchored(ties, joins)
    requires p != [] && forall x :: 0 <= x < |p| ==> joins(p[0], p[x])
    ensures Anchored(ties + [p], joins)
  {
    var t := ties + [p];
    forall i | 0 <= i < |t|
      ensures t[i] != [] && forall x :: 0 <= x < |t[i]| ==> joins(t[i][0], t[i][x])
    {
      if i < |ties| {
        assert t[i] == ties[i];
      }
    }
  }

  /** A new tie `p` of rows not placed yet keeps the flattened ties duplicate-free. */
  lemma PlacedSnoc(rows: seq<LegRow>, ties: seq<seq<LegRow>>, done: set<int>, p: seq<LegRow>)
    requires Placed(rows, ties, done)
    requires (forall i :: 0 <= i < |p| ==> p[i] in rows && p[i].id !in done) && UniqueIds(p)
    ensures Placed(rows, ties + [p], done + IdsOf(p))
  {
    var f := Flatten(ties);
    FlattenSnoc(ties, p);
    UniqueAppend(f, p);
    var g := f + p;
    forall i | 0 <= i < |g|
      ensures g[i] in rows
    {
      if i >= |f| {
        assert g[i] == p[i - |f|];
      }
    }
  }

  /** Opening the tie of row `k` keeps the invariant. */
  lemma PairingOpen(rows: seq<LegRow>, k: nat, st: Pairing, joins: JoinRel, p: seq<LegRow>)
    requires k < |rows| && PairingInvariant(rows, k, st, joins) && rows[k].id !in st.done
    requires joins(rows[k], rows[k]) && UniqueIds(rows)
    requires p == Partner(rows, rows[k], st.done, joins)
    ensures PairingInvariant(rows, k + 1, Pairing(st.ties + [p], st.done + IdsOf(p)), joins)
  {
    FilterUnique(rows, Unplaced(rows[k], st.done, joins));
    PartnerHead(rows, k, st.done, joins);
    PlacedSnoc(rows, st.ties, st.done, p);
    AnchoredSnoc(st.ties, p, joins);
    assert rows[k].id in IdsOf(p) by {
      assert p[0] == rows[k];
    }
  }

  lemma PairingStep(rows: seq<LegRow>, i: nat, joins: JoinRel)
    requires i < |rows| && UniqueIds(rows)
    requires joins(rows[i], rows[i])
    requires PairingInvariant(rows, i, PairsUpTo(rows, i, joins), joins)
    ensures PairingInvariant(rows, i + 1, PairsUpTo(rows, i + 1, joins), joins)
  {
    var st := PairsUpTo(rows, i, joins);
    var m := rows[i];
    if m.id !in st.done {
      var p := Partner(rows, m, st.done, joins);
      assert PairsUpTo(rows, i + 1, joins) == Pairing(st.ties + [p], st.done + IdsOf(p));
      PairingOpen(rows, i, st, joins, p);
    } else {
      assert PairsUpTo(rows, i + 1, joins) == st;
      PairingSkip(rows, i, st, joins);
    }
  }

  /** A row already placed by an earlier tie is skipped and the invariant carries over. */
  lemma PairingSkip(rows: seq<LegRow>, k: nat, st: Pairing, joins: JoinRel)
    requires k < |rows| && PairingInvariant(rows, k, st, joins) && rows[k].id in st.done
    ensures PairingInvariant(rows, k + 1, st, joins)
  {
    assert Covered(rows, k + 1, st.done);
  }

  lemma PairingStart(rows: seq<LegRow>, joins: JoinRel)
    ensures PairingInvariant(rows, 0, PairsUpTo(rows, 0, joins), joins)
  {
    assert Flatten([]) == [];
  }

  lemma {:induction false} PairingHolds(rows: seq<LegRow>, k: nat, joins: JoinRel)
    requires k <= |rows| && UniqueIds(rows)
    requires forall j :: 0 <= j < k ==> joins(rows[j], rows[j])
    ensures PairingInvariant(rows, k, PairsUpTo(rows, k, joins), joins)
    decreases k
  {
    if k == 0 {
      PairingStart(rows, joins);
    } else {
      PairingHolds(rows, k - 1, joins);
      // The invariant after `k - 1` steps, conjunct by conjunct, as the next step needs it.
      var st := PairsUpTo(rows, k - 1, joins);
      var f := Flatten(st.ties);
      assert forall i :: 0 <= i < |f| ==> f[i] in rows;
      assert UniqueIds(f) && st.done == IdsOf(f);
      assert Covered(rows, k - 1, st.done) && Anchored(st.ties, joins);
      var i: nat := k - 1;
      assert joins(rows[i], rows[i]);
      PairingStep(rows, i, joins);
    }
  }

  /** Every row of a round lands in exactly one tie: the ties hold only rows of the round,
      each at most once, and all of them; every tie is non-empty, and each of its rows joins
      the row that opened it. */
  lemma PairLegsExact(rows: seq<LegRow>)
    requires UniqueIds(rows)
    ensures var ties := PairsUpTo(rows, |rows|, Joins).ties;
      var f := Flatten(ties);
      (forall i :: 0 <= i < |f| ==> f[i] in rows)
      && UniqueIds(f)
      && (forall j :: 0 <= j < |rows| ==> rows[j] in f)
      && Anchored(ties, Joins)
  {
    forall m
      ensures Joins(m, m)
    {
      JoinsReflexive(m);
    }
    PairingHolds(rows, |rows|, Joins);
    var st := PairsUpTo(rows, |rows|, Joins);
    var f := Flatten(st.ties);
    forall j | 0 <= j < |rows|
      ensures rows[j] in f
    {
      assert rows[j].id in st.done;
      assert rows[j].id in IdsOf(f);
      var i :| 0 <= i < |f| && f[i].id == rows[j].id;
      var j' :| 0 <= j' < |rows| && rows[j'] == f[i];
      assert j' == j;
    }
  }

  // ----- Outcome of a tie -------------------------------------------------------------------------

  /** `checkPlayed`. */
  predicate CheckPlayed(m: LegRow)
  {
    m.played || m.homeScore.Some?
  }

  /** `!nick || nick.toLowerCase() === 'tbd'`. */
  predicate IsTbd(nick: Option<string>)
  {
    nick.None? || nick.value == "" || Lower(nick.value) == "tbd"
  }

  /** What a tie's card shows. */
  datatype TieView = TieView(bye: bool, finished: bool, gL: int, gV: int, winL: bool, winV: bool)

  /** The card of a tie: `m1` is its first leg, `m2` its second if there is one. */
  function Outcome(tie: seq<LegRow>, firstRound: bool): TieView
    requires tie != []
  {
    var m1 := tie[0];
    var localTbd := IsTbd(m1.localNick);
    var visitanteTbd := IsTbd(m1.visitanteNick);
    var bye := firstRound && (localTbd || visitanteTbd);
    var finished := bye || (if |tie| > 1 then CheckPlayed(m1) && CheckPlayed(tie[1]) else CheckPlayed(m1));
    var gL := OrZero(m1.homeScore)
      + (if |tie| > 1 then (if tie[1].localNick == m1.localNick then OrZero(tie[1].homeScore) else OrZero(tie[1].awayScore)) else 0);
    var gV := OrZero(m1.awayScore)
      + (if |tie| > 1 then (if tie[1].localNick == m1.localNick then OrZero(tie[1].awayScore) else OrZero(tie[1].homeScore)) else 0);
    TieView(bye, finished, gL, gV,
      finished && ((bye && !localTbd) || (!bye && gL > gV)),
      finished && ((bye && !visitanteTbd) || (!bye && gV > gL)))
  }

  /** At most one side of a card is marked the winner, only on a finished tie; a bye is a
      first-round tie with a TBD side, it is finished and its present side wins; any other tie is
      finished when each of its (at most two) legs is played, and the higher aggregate wins. */
  lemma OutcomeWinners(tie: seq<LegRow>, firstRound: bool)
    requires tie != []
    ensures var o := Outcome(tie, firstRound);
      !(o.winL && o.winV)
      && (o.winL || o.winV ==> o.finished)
      && (o.bye ==> o.finished && o.winL == !IsTbd(tie[0].localNick) && o.winV == !IsTbd(tie[0].visitanteNick))
      && (o.finished && !o.bye ==> (o.winL <==> o.gL > o.gV) && (o.winV <==> o.gV > o.gL))
      && (!firstRound ==> !o.bye)
      && (o.bye ==> IsTbd(tie[0].localNick) || IsTbd(tie[0].visitanteNick))
      && (firstRound && (IsTbd(tie[0].localNick) || IsTbd(tie[0].visitanteNick)) ==> o.bye)
      && (o.finished <==> o.bye || forall j :: 0 <= j < |tie| && j < 2 ==> CheckPlayed(tie[j]))
  {
  }

  /** The goals `nick` scored in one leg (nothing when `nick` is on neither side). */
  function GoalsOf(m: LegRow, nick: Option<string>): int
  {
    if m.localNick == nick then OrZero(m.homeScore)
    else if m.visitanteNick == nick then OrZero(m.awayScore)
    else 0
  }

  /** The aggregate counts each player's goals over both legs, whether the second leg swaps
      the sides or repeats them; every goal is counted once. */
  lemma AggregateIsGoals(tie: seq<LegRow>, firstRound: bool)
    requires |tie| >= 2
    requires tie[0].localNick != tie[0].visitanteNick
    requires (tie[1].localNick, tie[1].visitanteNick) == (tie[0].localNick, tie[0].visitanteNick)
          || (tie[1].localNick, tie[1].visitanteNick) == (tie[0].visitanteNick, tie[0].localNick)
    ensures var o := Outcome(tie, firstRound);
      o.gL == GoalsOf(tie[0], tie[0].localNick) + GoalsOf(tie[1], tie[0].localNick)
      && o.gV == GoalsOf(tie[0], tie[0].visitanteNick) + GoalsOf(tie[1], tie[0].visitanteNick)
      && o.gL + o.gV == OrZero(tie[0].homeScore) + OrZero(tie[0].awayScore)
                        + OrZero(tie[1].homeScore) + OrZero(tie[1].awayScore)
  {
  }
}
