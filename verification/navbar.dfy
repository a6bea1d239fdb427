/**
 The navigation bar of `components/layout/navbar.jsx`: nothing without a
 user, the avatar initials, and the role-dependent home link and menu.
 */
module Navbar {
  import opened Optional
  import opened Text
  import PageGuards

  /** `n[0]` of one part, as a string: `undefined` for an empty part joins
      as the empty string. */
  function Head(part: string): string {
    if part == [] then [] else [part[0]]
  }

  /** `parts.map(n => n[0])`. */
  function MapHeads(parts: seq<string>): seq<string> {
    seq(|parts|, k requires 0 <= k < |parts| => Head(parts[k]))
  }

  /** The first character of each part, joined; an empty part contributes
      nothing. */
  function Heads(parts: seq<string>): (r: string)
    ensures r == Concat(MapHeads(parts))
    ensures |r| <= |parts|
    ensures forall c :: c in r ==> exists k :: 0 <= k < |parts| && parts[k] != [] && parts[k][0] == c
    decreases |parts|
  {
    if parts == [] then []
    else
      var rest := Heads(parts[1..]);
      assert forall c :: c in rest ==> exists k :: 1 <= k < |parts| && parts[k] != [] && parts[k][0] == c by {
        forall c | c in rest ensures exists k :: 1 <= k < |parts| && parts[k] != [] && parts[k][0] == c {
          var k :| 0 <= k < |parts[1..]| && parts[1..][k] != [] && parts[1..][k][0] == c;
          assert parts[k + 1] == parts[1..][k];
        }
      }
      assert MapHeads(parts)[1..] == MapHeads(parts[1..]);
      (if parts[0] == [] then [] else [parts[0][0]]) + rest
  }

  /** `name.split(" ").map(n => n[0]).join("").toUpperCase()`. */
  function Initials(name: string): (r: string)
    ensures r == ToUpper(WordStarts(name, true))
    ensures |r| <= |name|
  {
    HeadsAreWordStarts(name);
    ToUpper(Heads(Split(name, ' ')))
  }

  /** Reference definition: the characters that start a word, that is the
      non-space characters at the front of the name or right after a space. */
  function WordStarts(s: string, afterSpace: bool): (r: string)
    ensures |r| <= |s|
    ensures forall c :: c in r ==> c in s && c != ' '
    decreases |s|
  {
    if s == [] then []
    else (if s[0] != ' ' && afterSpace then [s[0]] else []) + WordStarts(s[1..], s[0] == ' ')
  }

  /** The split-map-join pipeline picks exactly the word starts: repeated,
      leading and trailing spaces produce empty parts that add nothing. */
  lemma {:induction false} HeadsAreWordStarts(s: string)
    ensures Heads(Split(s, ' ')) == WordStarts(s, true)
    ensures Heads(Split(s, ' ')[1..]) == WordStarts(s, false)
    decreases |s|
  {
    if s != [] {
      HeadsAreWordStarts(s[1..]);
      var rest := Split(s[1..], ' ');
      if s[0] == ' ' {
        assert Split(s, ' ') == [[]] + rest;
        assert Split(s, ' ')[1..] == rest;
      } else {
        var parts := Split(s, ' ');
        assert parts == [[s[0]] + rest[0]] + rest[1..];
        assert parts[1..] == rest[1..];
        assert Heads(parts) == [s[0]] + Heads(rest[1..]);
      }
    }
  }

  /** The initials never contain a space, however the name is spaced. */
  lemma InitialsHaveNoSpace(name: string)
    ensures ' ' !in Initials(name)
  {
    var w := WordStarts(name, true);
    forall i | 0 <= i < |w| ensures Initials(name)[i] != ' ' {
      assert w[i] in w;
    }
  }

  /** The home link of the logo. */
  function HomeLink(role: string): (href: string)
    ensures href == "/admin" <==> role == "admin"
    ensures href != "/admin" ==> href == "/dashboard"
  {
    if role == "admin" then "/admin" else "/dashboard"
  }

  datatype Link = Link(caption: string, href: string)

  /** The menu: four administrator links or three student links. */
  function MenuLinks(role: string): (links: seq<Link>)
    ensures role == "admin" ==> |links| == 4 && forall l :: l in links ==> PageGuards.IsAdminRoute(l.href)
    ensures role != "admin" ==> |links| == 3 && forall l :: l in links ==> !PageGuards.IsAdminRoute(l.href)
    ensures links[0].href == HomeLink(role)
  {
    if role == "admin" then
      [Link("Dashboard", "/admin"), Link("Events", "/admin/events"),
       Link("Registrations", "/admin/registrations"), Link("Reports", "/admin/reports")]
    else
      [Link("Home", "/dashboard"), Link("Events", "/events"), Link("My Activities", "/my-activities")]
  }

  /** Every menu link leads to a page that lets its viewer stay. */
  lemma MenuLinksAdmitViewer(role: string, l: Link)
    requires l in MenuLinks(role)
    ensures PageGuards.GuardFor(l.href, false, Some(PageGuards.Viewer(role))) == None
  {
  }

  datatype SessionUser = SessionUser(name: string, email: string, role: string)

  datatype Bar = Bar(home: string, links: seq<Link>, initials: string, name: string, email: string, role: string)

  /** The component: `null` without a user. */
  function Render(user: Option<SessionUser>): (r: Option<Bar>)
    ensures r.None? <==> user.None?
    ensures r.Some? ==> r.value.home == HomeLink(user.value.role)
    ensures r.Some? ==> |r.value.links| >= 3 && r.value.links[0].href == r.value.home
    ensures r.Some? ==> r.value.initials == ToUpper(WordStarts(user.value.name, true))
    ensures r.Some? ==> r.value.links == MenuLinks(user.value.role)
    ensures r.Some? ==> (r.value.name == user.value.name && r.value.email == user.value.email &&
                         r.value.role == user.value.role)
  {
    match user
    case None => None
    case Some(u) => Some(Bar(HomeLink(u.role), MenuLinks(u.role), Initials(u.name), u.name, u.email, u.role))
  }

  /** A word with no space inside it ends, at the next space, having
      contributed nothing after its first character. */
  lemma {:induction false} RestOfWord(w: string, rest: string)
    requires ' ' !in w
    ensures WordStarts(w + [' '] + rest, false) == WordStarts(rest, true)
    ensures WordStarts(w, false) == []
    decreases |w|
  {
    if w == [] {
      assert w + [' '] + rest == [' '] + rest;
      assert ([' '] + rest)[1..] == rest;
    } else {
      assert (w + [' '] + rest)[1..] == w[1..] + [' '] + rest;
      RestOfWord(w[1..], rest);
    }
  }

  /** A leading word contributes its first character. */
  lemma LeadingWord(w: string, rest: string)
    requires w != [] && ' ' !in w
    ensures WordStarts(w + [' '] + rest, true) == [w[0]] + WordStarts(rest, true)
  {
    var s := w + [' '] + rest;
    assert s[0] == w[0] && s[1..] == w[1..] + [' '] + rest;
    RestOfWord(w[1..], rest);
    assert WordStarts(s, true) == [w[0]] + WordStarts(s[1..], false);
  }

  /** A last word contributes its first character. */
  lemma LastWord(w: string)
    requires w != [] && ' ' !in w
    ensures WordStarts(w, true) == [w[0]]
  {
    RestOfWord(w[1..], []);
    assert WordStarts(w, true) == [w[0]] + WordStarts(w[1..], false);
  }

  /** Two and three space-separated words give two and three initials, as
      for the demo accounts "Alex Morgan" and "Dr. Sarah Johnson". */
  lemma TwoWords(a: string, b: string)
    requires a != [] && ' ' !in a && b != [] && ' ' !in b
    ensures Initials(a + [' '] + b) == ToUpper([a[0], b[0]])
  {
    LastWord(b);
    LeadingWord(a, b);
  }

  lemma ThreeWords(a: string, b: string, c: string)
    requires a != [] && ' ' !in a && b != [] && ' ' !in b && c != [] && ' ' !in c
    ensures Initials(a + [' '] + (b + [' '] + c)) == ToUpper([a[0], b[0], c[0]])
  {
    LastWord(c);
    LeadingWord(b, c);
    LeadingWord(a, b + [' '] + c);
  }
}
