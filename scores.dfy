// Goal counts as the components read them: JavaScript's `parseInt` on the text of a score
// field, the `'' -> null` normalisation of the league editor, and the `|| 0` / `>` arithmetic
// applied to possibly missing scores. `NaN` is `None`: it compares false with everything and
// is stored as `null`.

module Scores {
  import opened Common
  import opened Text

  function DigitValue(c: char): nat
  {
    if '0' <= c <= '9' then c as int - '0' as int
    else if 'a' <= c <= 'f' then c as int - 'a' as int + 10
    else if 'A' <= c <= 'F' then c as int - 'A' as int + 10
    else 0
  }

  predicate IsHexDigit(c: char)
  {
    IsDigit(c) || ('a' <= c <= 'f') || ('A' <= c <= 'F')
  }

  predicate IsRadixDigit(c: char, hex: bool)
  {
    if hex then IsHexDigit(c) else IsDigit(c)
  }

  /** The longest prefix of `s` made of digits of the radix. */
  function DigitPrefix(s: string, hex: bool): (r: string)
    ensures |r| <= |s| && StartsWith(s, r)
    ensures forall i :: 0 <= i < |r| ==> IsRadixDigit(r[i], hex)
    ensures |r| < |s| ==> !IsRadixDigit(s[|r|], hex)
  {
    if s != [] && IsRadixDigit(s[0], hex) then [s[0]] + DigitPrefix(s[1..], hex) else []
  }

  /** The number a digit string denotes in base 10 or 16. */
  function Value(s: string, hex: bool): nat
  {
    if s == [] then 0 else Value(s[..|s| - 1], hex) * (if hex then 16 else 10) + DigitValue(s[|s| - 1])
  }

  /** The digits after the sign: a `0x` prefix selects base 16, then the longest run of digits
      of that base is read; no digit at all is `NaN`. */
  function Unsigned(u: string): (r: Option<nat>)
  {
    var hex := |u| >= 2 && u[0] == '0' && (u[1] == 'x' || u[1] == 'X');
    var body := if hex then u[2..] else u;
    var digits := DigitPrefix(body, hex);
    if digits == [] then None else Some(Value(digits, hex))
  }

  /** `parseInt(s)` with no radix: leading white space and one sign are skipped, then the
      digits are read as `Unsigned` does. */
  function ParseInt(s: string): Option<int>
  {
    var t := TrimStart(s);
    var negative := t != [] && t[0] == '-';
    var u := if t != [] && (t[0] == '-' || t[0] == '+') then t[1..] else t;
    match Unsigned(u)
    case None => None
    case Some(v) => Some(if negative then -(v as int) else v as int)
  }

  function DecimalDigit(d: nat): char
    requires d < 10
  {
    ('0' as int + d) as char
  }

  /** `String(n)` for a natural number: its decimal digits, no leading zero. */
  function ShowNat(n: nat): (r: string)
    ensures r != [] && forall i :: 0 <= i < |r| ==> IsDigit(r[i])
    ensures |r| >= 2 ==> r[0] != '0'
  {
    if n < 10 then [DecimalDigit(n)] else ShowNat(n / 10) + [DecimalDigit(n % 10)]
  }

  /** `String(n)` for an integer. */
  function ShowInt(n: int): string
  {
    if n < 0 then ['-'] + ShowNat(-n) else ShowNat(n)
  }

  lemma {:induction false} ValueOfShow(n: nat)
    ensures Value(ShowNat(n), false) == n
    decreases n
  {
    if n >= 10 {
      var s := ShowNat(n);
      assert s[..|s| - 1] == ShowNat(n / 10);
      ValueOfShow(n / 10);
    }
  }

  lemma {:induction false} DigitPrefixAll(s: string)
    requires forall i :: 0 <= i < |s| ==> IsDigit(s[i])
    ensures DigitPrefix(s, false) == s
    decreases |s|
  {
    if s != [] {
      DigitPrefixAll(s[1..]);
    }
  }

  lemma UnsignedDecimal(s: string)
    requires s != [] && forall i :: 0 <= i < |s| ==> IsDigit(s[i])
    ensures Unsigned(s) == Some(Value(s, false))
  {
    DigitPrefixAll(s);
    DecimalBody(s);
  }

  /** Text without a `0x` prefix whose digit run is all of it reads as its decimal value. */
  lemma DecimalBody(s: string)
    requires s != [] && (|s| >= 2 ==> IsDigit(s[1])) && DigitPrefix(s, false) == s
    ensures Unsigned(s) == Some(Value(s, false))
  {
  }

  lemma TrimStartNoSpace(s: string)
    requires s != [] && !IsJsSpace(s[0])
    ensures TrimStart(s) == s
  {
  }

  /** Reading back the text of a stored score gives the score. */
  lemma ParseShow(n: int)
    ensures ParseInt(ShowInt(n)) == Some(n)
  {
    var m: nat := if n < 0 then -n else n;
    var digits := ShowNat(m);
    var s := ShowInt(n);
    TrimStartNoSpace(s);
    UnsignedDecimal(digits);
    ValueOfShow(m);
    if n < 0 {
      assert s[1..] == digits;
    }
  }

  /** The league editor's `hScore === '' ? null : parseInt(hScore)`; `NaN` is stored as `null`. */
  function NormalizeScore(s: string): (r: Option<int>)
    ensures s == "" ==> r == None
  {
    if s == "" then None else ParseInt(s)
  }

  /** A score field holding a plain decimal number is stored as that number. */
  lemma NormalizeShown(n: int)
    ensures NormalizeScore(ShowInt(n)) == Some(n)
  {
    ParseShow(n);
  }

  /** What a score argument can be: text typed in an input, or a score read back from a row
      (`m.away_score`), which `parseInt` first turns into text (`null` reads as `"null"`). */
  datatype ScoreArg = Typed(text: string) | Stored(score: Option<int>)

  predicate IsBlank(a: ScoreArg)
  {
    a == Typed("")
  }

  function ParseArg(a: ScoreArg): (r: Option<int>)
    ensures a.Stored? ==> r == a.score
  {
    match a
    case Typed(s) => ParseInt(s)
    case Stored(None) =>
      assert ParseInt("null") == None by {
        assert TrimStart("null") == "null";
        assert DigitPrefix("null", false) == [];
      }
      ParseInt("null")
    case Stored(Some(n)) =>
      ParseShow(n);
      ParseInt(ShowInt(n))
  }

  /** `x > y` on numbers that may be `NaN`. */
  predicate Beats(x: Option<int>, y: Option<int>)
  {
    x.Some? && y.Some? && x.value > y.value
  }

  /** `x || 0`: a missing score (or `NaN`, or `0`) counts as nothing. */
  function OrZero(x: Option<int>): int
  {
    if x.Some? then x.value else 0
  }

  /** `x + y` where `x` may be `NaN`. */
  function Plus(x: Option<int>, y: int): Option<int>
  {
    if x.Some? then Some(x.value + y) else None
  }

  lemma BeatsAsymmetric(x: Option<int>, y: Option<int>)
    ensures !(Beats(x, y) && Beats(y, x))
    ensures x.Some? && y.Some? ==> Beats(x, y) || Beats(y, x) || x == y
  {
  }
}
