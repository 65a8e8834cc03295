// The players directory (src/Jugadores.jsx): who takes part in a division, the nick search
// box, and the Telegram link behind each player's contact button.

module Directory {
  import opened Common
  import opened Text
  import opened Sorting

  /** The two sides of a league match as the directory reads them. */
  datatype Sides = Sides(home: Option<UserId>, away: Option<UserId>)

  /** A profile as listed: nick, Telegram handle and phone, each possibly null. */
  datatype Profile = Profile(nick: Option<string>, telegram: Option<string>, phone: Option<string>)

  /** `flatMap(m => [m.home_team, m.away_team])`. */
  function SideSlots(ms: seq<Sides>): (r: seq<Option<UserId>>)
    ensures |r| == 2 * |ms|
  {
    if ms == [] then [] else SideSlots(ms[..|ms| - 1]) + [ms[|ms| - 1].home, ms[|ms| - 1].away]
  }

  /** `.filter(id => id !== null)`. */
  function Present(s: seq<Option<UserId>>): seq<UserId>
  {
    if s == [] then []
    else Present(s[..|s| - 1]) + (if s[|s| - 1].Some? then [s[|s| - 1].value] else [])
  }

  /** The participant ids of a division: distinct, non-null, in order of first appearance. */
  function ParticipantIds(ms: seq<Sides>): seq<UserId>
  {
    Present(Unique(SideSlots(ms)))
  }

  /** Whether `id` plays on either side of some match. */
  predicate Plays(ms: seq<Sides>, id: UserId)
  {
    exists k :: 0 <= k < |ms| && (ms[k].home == Some(id) || ms[k].away == Some(id))
  }

  lemma {:induction false} SideSlotsAt(ms: seq<Sides>, k: nat)
    requires k < |ms|
    ensures SideSlots(ms)[2 * k] == ms[k].home && SideSlots(ms)[2 * k + 1] == ms[k].away
    decreases |ms|
  {
    if k < |ms| - 1 {
      SideSlotsAt(ms[..|ms| - 1], k);
    }
  }

  lemma SideSlotsHas(ms: seq<Sides>, x: Option<UserId>)
    ensures x in SideSlots(ms) <==> exists k :: 0 <= k < |ms| && (ms[k].home == x || ms[k].away == x)
  {
    var s := SideSlots(ms);
    if x in s {
      var i :| 0 <= i < |s| && s[i] == x;
      SideSlotsAt(ms, i / 2);
    }
    if exists k :: 0 <= k < |ms| && (ms[k].home == x || ms[k].away == x) {
      var k :| 0 <= k < |ms| && (ms[k].home == x || ms[k].away == x);
      SideSlotsAt(ms, k);
    }
  }

  lemma {:induction false} PresentHas(s: seq<Option<UserId>>, id: UserId)
    ensures id in Present(s) <==> Some(id) in s
    decreases |s|
  {
    if s != [] {
      var init := s[..|s| - 1];
      PresentHas(init, id);
      assert s == init + [s[|s| - 1]];
    }
  }

  lemma {:induction false} PresentDistinct(s: seq<Option<UserId>>)
    requires Distinct(s)
    ensures Distinct(Present(s))
    decreases |s|
  {
    if s != [] {
      var init := s[..|s| - 1];
      assert Distinct(init);
      PresentDistinct(init);
      var last := s[|s| - 1];
      if last.Some? {
        PresentHas(init, last.value);
        assert last !in init;
      }
    }
  }

  /** Participant ids are distinct, and an id is listed exactly when it plays some match. */
  lemma ParticipantsExact(ms: seq<Sides>, id: UserId)
    ensures Distinct(ParticipantIds(ms))
    ensures id in ParticipantIds(ms) <==> Plays(ms, id)
  {
    var u := Unique(SideSlots(ms));
    PresentDistinct(u);
    PresentHas(u, id);
    SideSlotsHas(ms, Some(id));
  }

  // ----- Nick search ---------------------------------------------------------------------------

  /** `u.nick?.toLowerCase().includes(filtro.toLowerCase())`; a null nick never matches. */
  predicate NickMatches(u: Profile, filter: string)
  {
    u.nick.Some? && Contains(Lower(u.nick.value), Lower(filter))
  }

  function FilterByNick(users: seq<Profile>, filter: string): (r: seq<Profile>)
    ensures forall i :: 0 <= i < |r| ==> r[i] in users && NickMatches(r[i], filter)
    ensures forall i :: 0 <= i < |users| && NickMatches(users[i], filter) ==> users[i] in r
  {
    if users == [] then []
    else
      var init := users[..|users| - 1];
      assert forall i :: 0 <= i < |users| - 1 ==> users[i] == init[i];
      FilterByNick(init, filter)
      + (if NickMatches(users[|users| - 1], filter) then [users[|users| - 1]] else [])
  }

  /** The search keeps list order: filtering a concatenation filters each part. */
  lemma {:induction false} FilterByNickAppend(a: seq<Profile>, b: seq<Profile>, filter: string)
    ensures FilterByNick(a + b, filter) == FilterByNick(a, filter) + FilterByNick(b, filter)
    decreases |b|
  {
    if b == [] {
      assert a + b == a;
    } else {
      var c := b[..|b| - 1];
      assert (a + b)[..|a + b| - 1] == a + c;
      FilterByNickAppend(a, c, filter);
    }
  }

  lemma {:induction false} ContainsEmpty(s: string)
    ensures Contains(s, "")
  {
    assert s[..0] == "";
  }

  /** An empty search box lists every user who has a nick. */
  lemma {:induction false} EmptyFilterKeepsNicked(users: seq<Profile>, u: Profile)
    ensures u in FilterByNick(users, "") <==> u in users && u.nick.Some?
  {
    if u in users && u.nick.Some? {
      ContainsEmpty(Lower(u.nick.value));
      var i :| 0 <= i < |users| && users[i] == u;
      assert NickMatches(users[i], "");
    }
  }

  // ----- Contact link --------------------------------------------------------------------------

  /** A JavaScript string is truthy when it is present and non-empty. */
  predicate Truthy(s: Option<string>)
  {
    s.Some? && s.value != ""
  }

  const TELEGRAM: string := "https://t.me/"

  /** `abrirTelegram`: the Telegram handle without its first `@`, else `+` and the digits of
      the phone, else no link (the user is told there is no contact). */
  function ContactUrl(u: Profile): (r: Option<string>)
    ensures Truthy(u.telegram) && '@' !in u.telegram.value ==> r == Some(TELEGRAM + u.telegram.value)
    ensures Truthy(u.telegram) && '@' in u.telegram.value ==>
      var h := u.telegram.value;
      exists i :: 0 <= i < |h| && h[i] == '@' && '@' !in h[..i] && r == Some(TELEGRAM + (h[..i] + h[i + 1..]))
    ensures !Truthy(u.telegram) && Truthy(u.phone) ==> r == Some(TELEGRAM + "+" + Filter(u.phone.value, IsDigit))
    ensures !Truthy(u.telegram) && !Truthy(u.phone) ==> r == None
  {
    if Truthy(u.telegram) then
      HandleUrl(u.telegram.value);
      Some(TELEGRAM + RemoveFirst(u.telegram.value, '@'))
    else if Truthy(u.phone) then Some(TELEGRAM + "+" + DigitsOnly(u.phone.value))
    else None
  }

  /** The handle link is the prefix followed by the handle without its first `@`. */
  lemma HandleUrl(h: string)
    ensures '@' in h ==>
      exists i :: 0 <= i < |h| && h[i] == '@' && '@' !in h[..i]
                  && TELEGRAM + RemoveFirst(h, '@') == TELEGRAM + (h[..i] + h[i + 1..])
  {
    if '@' in h {
      var r := RemoveFirst(h, '@');
      var i :| 0 <= i < |h| && h[i] == '@' && '@' !in h[..i] && r == h[..i] + h[i + 1..];
    }
  }

  /** `(u.telegram_user || u.phone)`: whether the contact button is rendered. */
  predicate ShowsButton(u: Profile)
  {
    Truthy(u.telegram) || Truthy(u.phone)
  }

  /** The button is shown exactly for the users the link can be built for; the handle takes
      precedence, it loses only its first `@`, and a phone link carries only digits. */
  lemma ContactUrlSpec(u: Profile)
    ensures ShowsButton(u) <==> ContactUrl(u).Some?
    ensures Truthy(u.telegram) ==> ContactUrl(u) == Some(TELEGRAM + RemoveFirst(u.telegram.value, '@'))
    ensures Truthy(u.telegram) ==> |ContactUrl(u).value| == |TELEGRAM| + |u.telegram.value|
                                    - (if '@' in u.telegram.value then 1 else 0)
    ensures !Truthy(u.telegram) && Truthy(u.phone) ==>
      var url := ContactUrl(u).value;
      url == TELEGRAM + "+" + Filter(u.phone.value, IsDigit)
      && |url| > |TELEGRAM| && url[..|TELEGRAM| + 1] == TELEGRAM + "+"
      && forall i :: |TELEGRAM| < i < |url| ==> IsDigit(url[i])
  {
    if !Truthy(u.telegram) && Truthy(u.phone) {
      var d := DigitsOnly(u.phone.value);
      var url := TELEGRAM + "+" + d;
      assert url[..|TELEGRAM| + 1] == TELEGRAM + "+";
      forall i | |TELEGRAM| < i < |url|
        ensures IsDigit(url[i])
      {
        assert url[i] == d[i - |TELEGRAM| - 1];
      }
    }
  }
}
