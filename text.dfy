// String operations the components apply to round labels, nicks and contact
// handles, on `seq<char>`. Case mapping is ASCII only.

module Text {

  import opened Sorting

  /** `toLowerCase` restricted to ASCII letters. */
  function LowerChar(c: char): char
  {
    if 'A' <= c <= 'Z' then (c as int + 32) as char else c
  }

  function Lower(s: string): (r: string)
    ensures |r| == |s|
  {
    seq(|s|, i requires 0 <= i < |s| => LowerChar(s[i]))
  }

  /** `s.startsWith(p)`. */
  predicate StartsWith(s: string, p: string)
  {
    |p| <= |s| && s[..|p|] == p
  }

  /** `s.includes(t)`: `t` occurs somewhere in `s`. */
  predicate Contains(s: string, t: string)
    decreases |s|
  {
    StartsWith(s, t) || (s != [] && Contains(s[1..], t))
  }

  /** `s.split(sep)[0]`: the text before the first occurrence of `sep`, or all of `s`. */
  function SplitHead(s: string, sep: string): (r: string)
    requires sep != []
    ensures StartsWith(s, r)
    ensures !Contains(s, sep) ==> r == s
    ensures Contains(s, sep) ==> StartsWith(s[|r|..], sep)
    decreases |s|
  {
    if StartsWith(s, sep) then
      assert s[0..] == s;
      []
    else if s == [] then []
    else
      var r := SplitHead(s[1..], sep);
      assert s[1 + |r|..] == s[1..][|r|..];
      assert s == [s[0]] + s[1..];
      [s[0]] + r
  }

  /** The characters JavaScript's `trim` removes (white space and line terminators). */
  predicate IsJsSpace(c: char)
  {
    c == ' ' || c == '\t' || c == '\n' || c == '\r' || c == '\U{000B}' || c == '\U{000C}'
    || c == '\U{00A0}' || c == '\U{1680}' || ('\U{2000}' <= c <= '\U{200A}')
    || c == '\U{2028}' || c == '\U{2029}' || c == '\U{202F}' || c == '\U{205F}'
    || c == '\U{3000}' || c == '\U{FEFF}'
  }

  /** Every character of `s[lo..hi]` is white space. */
  predicate SpaceRun(s: string, lo: int, hi: int)
    requires 0 <= lo <= hi <= |s|
  {
    forall i :: lo <= i < hi ==> IsJsSpace(s[i])
  }

  function TrimStart(s: string): (r: string)
    ensures r == [] || !IsJsSpace(r[0])
    ensures exists k :: 0 <= k <= |s| && r == s[k..] && SpaceRun(s, 0, k)
    decreases |s|
  {
    if s != [] && IsJsSpace(s[0]) then
      var r := TrimStart(s[1..]);
      var k :| 0 <= k <= |s[1..]| && r == s[1..][k..] && SpaceRun(s[1..], 0, k);
      assert r == s[k + 1..];
      assert forall i :: 1 <= i < k + 1 ==> s[i] == s[1..][i - 1];
      assert SpaceRun(s, 0, k + 1);
      r
    else
      assert s == s[0..];
      assert SpaceRun(s, 0, 0);
      s
  }

  function TrimEnd(s: string): (r: string)
    ensures r == [] || !IsJsSpace(r[|r| - 1])
    ensures StartsWith(s, r)
    ensures SpaceRun(s, |r|, |s|)
    decreases |s|
  {
    if s != [] && IsJsSpace(s[|s| - 1]) then
      var r := TrimEnd(s[..|s| - 1]);
      assert forall i :: |r| <= i < |s| - 1 ==> s[i] == s[..|s| - 1][i];
      r
    else s
  }

  /** `s.trim()`: `s` without its leading and its trailing run of white space. */
  function Trim(s: string): (r: string)
    ensures r == [] || (!IsJsSpace(r[0]) && !IsJsSpace(r[|r| - 1]))
    ensures exists a, b :: 0 <= a <= b <= |s| && r == s[a..b] && SpaceRun(s, 0, a) && SpaceRun(s, b, |s|)
  {
    var t := TrimStart(s);
    var r := TrimEnd(t);
    TrimSlice(s, t, r);
    assert r != [] ==> r[0] == t[0];
    r
  }

  lemma TrimSlice(s: string, t: string, r: string)
    requires exists a :: 0 <= a <= |s| && t == s[a..] && SpaceRun(s, 0, a)
    requires StartsWith(t, r) && SpaceRun(t, |r|, |t|)
    ensures exists a, b :: 0 <= a <= b <= |s| && r == s[a..b] && SpaceRun(s, 0, a) && SpaceRun(s, b, |s|)
  {
    var a :| 0 <= a <= |s| && t == s[a..] && SpaceRun(s, 0, a);
    TrimSliceAt(s, t, r, a);
    assert 0 <= a <= a + |r| <= |s| && r == s[a..a + |r|] && SpaceRun(s, 0, a) && SpaceRun(s, a + |r|, |s|);
  }

  /** Trimming the end of the suffix `s[a..]` leaves the slice `s[a..a + |r|]`, followed in `s` by
      white space only. */
  lemma TrimSliceAt(s: string, t: string, r: string, a: int)
    requires 0 <= a <= |s| && t == s[a..]
    requires StartsWith(t, r) && SpaceRun(t, |r|, |t|)
    ensures a + |r| <= |s| && r == s[a..a + |r|] && SpaceRun(s, a + |r|, |s|)
  {
    forall i | a + |r| <= i < |s|
      ensures IsJsSpace(s[i])
    {
      assert s[i] == t[i - a];
    }
  }

  /** `s.replace(c, '')` with a one-character string pattern: only the first occurrence goes. */
  function RemoveFirst(s: string, c: char): (r: string)
    ensures c !in s ==> r == s
    ensures c in s ==> |r| == |s| - 1 && multiset(r) == multiset(s) - multiset{c}
    ensures c in s ==> exists i :: 0 <= i < |s| && s[i] == c && c !in s[..i] && r == s[..i] + s[i + 1..]
  {
    if s == [] then []
    else if s[0] == c then
      RemoveFirstHead(s, c);
      s[1..]
    else
      var r := RemoveFirst(s[1..], c);
      RemoveFirstCons(s, c, r);
      [s[0]] + r
  }

  /** Removing a leading `c`. */
  lemma RemoveFirstHead(s: string, c: char)
    requires s != [] && s[0] == c
    ensures |s[1..]| == |s| - 1 && multiset(s[1..]) == multiset(s) - multiset{c}
    ensures exists i :: 0 <= i < |s| && s[i] == c && c !in s[..i] && s[1..] == s[..i] + s[i + 1..]
  {
    assert s == [s[0]] + s[1..];
    assert s[..0] == [] && s[1..] == s[..0] + s[0 + 1..];
  }

  /** Removing the first `c` from `s[1..]`, when `s[0]` is not `c`, removes the first `c` of `s`. */
  lemma RemoveFirstCons(s: string, c: char, r: string)
    requires s != [] && s[0] != c
    requires c !in s[1..] ==> r == s[1..]
    requires c in s[1..] ==> |r| == |s[1..]| - 1 && multiset(r) == multiset(s[1..]) - multiset{c}
    requires c in s[1..] ==> exists j :: 0 <= j < |s[1..]| && s[1..][j] == c && c !in s[1..][..j]
                                          && r == s[1..][..j] + s[1..][j + 1..]
    ensures c !in s ==> [s[0]] + r == s
    ensures c in s ==> |[s[0]] + r| == |s| - 1 && multiset([s[0]] + r) == multiset(s) - multiset{c}
    ensures c in s ==> exists i :: 0 <= i < |s| && s[i] == c && c !in s[..i] && [s[0]] + r == s[..i] + s[i + 1..]
  {
    assert s == [s[0]] + s[1..];
    if c in s {
      assert c in s[1..];
      RemoveFirstConsCount(s, c, r);
      var j :| 0 <= j < |s[1..]| && s[1..][j] == c && c !in s[1..][..j] && r == s[1..][..j] + s[1..][j + 1..];
      RemoveFirstAt(s, c, r, j);
    }
  }

  lemma RemoveFirstConsCount(s: string, c: char, r: string)
    requires s != [] && s[0] != c && c in s[1..]
    requires |r| == |s[1..]| - 1 && multiset(r) == multiset(s[1..]) - multiset{c}
    ensures |[s[0]] + r| == |s| - 1 && multiset([s[0]] + r) == multiset(s) - multiset{c}
  {
    assert s == [s[0]] + s[1..];
    assert multiset(s) == multiset{s[0]} + multiset(s[1..]);
  }

  lemma RemoveFirstAt(s: string, c: char, r: string, j: int)
    requires s != [] && s[0] != c
    requires 0 <= j < |s| - 1 && s[1..][j] == c && c !in s[1..][..j] && r == s[1..][..j] + s[1..][j + 1..]
    ensures s[j + 1] == c && c !in s[..j + 1] && [s[0]] + r == s[..j + 1] + s[j + 2..]
  {
    assert s[..j + 1] == [s[0]] + s[1..][..j];
    assert s[j + 2..] == s[1..][j + 1..];
  }

  predicate IsDigit(c: char)
  {
    '0' <= c <= '9'
  }

  /** `s.replace(/\D/g, '')`: the digits of `s`, in order. */
  function DigitsOnly(s: string): (r: string)
    ensures forall i :: 0 <= i < |r| ==> IsDigit(r[i])
    ensures (forall i :: 0 <= i < |s| ==> IsDigit(s[i])) ==> r == s
    ensures |r| <= |s|
    ensures r == Filter(s, IsDigit)
  {
    if s == [] then []
    else if IsDigit(s[0]) then [s[0]] + DigitsOnly(s[1..])
    else DigitsOnly(s[1..])
  }

  /** SQL `round ILIKE prefix || '%'` for a prefix without wildcards; a null column never matches. */
  predicate ILikePrefix(s: string, prefix: string)
  {
    StartsWith(Lower(s), Lower(prefix))
  }

  lemma {:induction false} ContainsInfix(a: string, t: string, b: string)
    ensures Contains(a + t + b, t)
    decreases |a|
  {
    if a == [] {
      assert (a + t + b)[..|t|] == t;
    } else {
      assert (a + t + b)[1..] == a[1..] + t + b;
      ContainsInfix(a[1..], t, b);
    }
  }

  /** `t` does not occur in `s` when one of its characters is missing from `s`. */
  lemma {:induction false} NotContains(s: string, t: string, j: nat)
    requires j < |t| && t[j] !in s
    ensures !Contains(s, t)
    decreases |s|
  {
    if |t| <= |s| {
      assert s[..|t|][j] == s[j];
    }
    if s != [] {
      NotContains(s[1..], t, j);
    }
  }

  /** Splitting `a + sep + b` at `sep` gives back `a` when `sep` cannot start inside `a`. */
  lemma {:induction false} SplitHeadAt(a: string, sep: string, b: string)
    requires sep != []
    requires forall i :: 0 <= i < |a| ==> !StartsWith(a[i..] + sep + b, sep)
    ensures SplitHead(a + sep + b, sep) == a
    decreases |a|
  {
    var s := a + sep + b;
    if a == [] {
      assert s[..|sep|] == sep;
    } else {
      assert a[0..] == a;
      assert s[1..] == a[1..] + sep + b;
      forall i | 0 <= i < |a[1..]|
        ensures !StartsWith(a[1..][i..] + sep + b, sep)
      {
        assert a[1..][i..] == a[i + 1..];
      }
      SplitHeadAt(a[1..], sep, b);
    }
  }
}
