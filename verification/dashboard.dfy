/**
 The student dashboard of `app/dashboard/page.jsx`: what it shows once the
 guard lets a student through — the student's registrations, the first
 three upcoming events, the unread notifications — and the two badges and
 the button caption it derives from statuses.
 */
module Dashboard {
  import opened Optional
  import opened Lists
  import opened MockData
  import PageGuards
  import AdminRegistrations
  import EventsPage

  /** `myRegistrations`: the registrations filed by this student. */
  function MyRegistrations(regs: seq<Registration>, studentId: string): (r: seq<Registration>)
    ensures forall x :: x in r <==> x in regs && x.studentId == studentId
    ensures forall x {:trigger multiset(r)[x]} :: multiset(r)[x] == if x.studentId == studentId then multiset(regs)[x] else 0
  {
    FilterKeepsMultiplicity(regs, (x: Registration) => x.studentId == studentId);
    Filter(regs, (x: Registration) => x.studentId == studentId)
  }

  function AllUpcoming(events: seq<Event>): (r: seq<Event>)
    ensures forall e :: e in r <==> e in events && e.status == "upcoming"
    ensures forall e {:trigger multiset(r)[e]} :: multiset(r)[e] == if e.status == "upcoming" then multiset(events)[e] else 0
  {
    FilterKeepsMultiplicity(events, (e: Event) => e.status == "upcoming");
    Filter(events, (e: Event) => e.status == "upcoming")
  }

  /** `upcomingEvents`: at most three, all upcoming, and the first ones in
      fixture order. */
  function UpcomingEvents(events: seq<Event>): (r: seq<Event>)
    ensures |r| <= 3
    ensures forall i :: 0 <= i < |r| ==> r[i].status == "upcoming" && r[i] in events
    ensures r <= AllUpcoming(events)
    ensures |r| == 3 || r == AllUpcoming(events)
  {
    var all := AllUpcoming(events);
    var r := Take(all, 3);
    assert forall i :: 0 <= i < |r| ==> r[i] == all[i] && r[i] in all;
    r
  }

  /** `unreadNotifications`. */
  function UnreadNotifications(ns: seq<Notification>): (r: seq<Notification>)
    ensures forall n :: n in r <==> n in ns && !n.read
    ensures forall n {:trigger multiset(r)[n]} :: multiset(r)[n] == if !n.read then multiset(ns)[n] else 0
  {
    FilterKeepsMultiplicity(ns, (n: Notification) => !n.read);
    Filter(ns, (n: Notification) => !n.read)
  }

  /** All three lists keep the order of the data they are drawn from. */
  lemma ListsKeepOrder(regs: seq<Registration>, events: seq<Event>, ns: seq<Notification>, studentId: string)
    ensures IsSubsequence(MyRegistrations(regs, studentId), regs)
    ensures IsSubsequence(UpcomingEvents(events), events)
    ensures IsSubsequence(UnreadNotifications(ns), ns)
  {
    FilterIsSubsequence(regs, (x: Registration) => x.studentId == studentId);
    FilterIsSubsequence(ns, (n: Notification) => !n.read);
    var all := AllUpcoming(events);
    FilterIsSubsequence(events, (e: Event) => e.status == "upcoming");
    PrefixIsSubsequence(UpcomingEvents(events), all, events);
  }

  lemma {:induction false} PrefixIsSubsequence<T>(p: seq<T>, s: seq<T>, t: seq<T>)
    requires p <= s && IsSubsequence(s, t)
    ensures IsSubsequence(p, t)
    decreases |t|
  {
    if p != [] {
      assert s != [] && t != [];
      if s[0] == t[0] && IsSubsequence(s[1..], t[1..]) {
        PrefixIsSubsequence(p[1..], s[1..], t[1..]);
      } else {
        PrefixIsSubsequence(p, s, t[1..]);
      }
    }
  }

  /** The caption of the button on an upcoming-event card. */
  function EventCardLabel(status: string): (caption: string)
    ensures caption == "Join Waitlist" <==> status == "full"
    ensures caption != "Join Waitlist" ==> caption == "Register Now"
  {
    if status == "full" then "Join Waitlist" else "Register Now"
  }

  /** The dashboard card and the event browser's card offer the waitlist on
      exactly the same events, and otherwise differ only in wording. */
  lemma LabelsOfferWaitlistAlike(status: string)
    ensures EventCardLabel(status) == "Join Waitlist" <==> EventsPage.RegisterLabel(status) == "Join Waitlist"
    ensures EventCardLabel(status) == "Register Now" <==> EventsPage.RegisterLabel(status) == "Register"
  {
  }

  /** The badge on each of the student's registrations. */
  function RegistrationBadge(status: string): (v: AdminRegistrations.Variant)
    ensures v != AdminRegistrations.Destructive
    ensures v == AdminRegistrations.Default <==> status == "approved"
    ensures v == AdminRegistrations.Secondary <==> status == "waitlist"
  {
    if status == "approved" then AdminRegistrations.Default
    else if status == "waitlist" then AdminRegistrations.Secondary
    else AdminRegistrations.Outline
  }

  /** The student's badge and the administrator's badge agree only on
      approved registrations: pending and waitlisted swap their styles, and
      unknown statuses are outlined here but destructive there. */
  lemma BadgesAgreeOnlyWhenApproved(status: string)
    ensures RegistrationBadge(status) == AdminRegistrations.Badge(status) <==> status == "approved"
  {
  }

  // ---------------------------------------------------------------------------
  // The page as rendered

  datatype Student = Student(id: string, role: string)

  datatype View =
    | Placeholder
    | Content(registrations: seq<Registration>, upcoming: seq<Event>, unread: seq<Notification>)

  /** The page body: the placeholder while loading or signed out, otherwise
      the three lists. The page draws them from the fixture, passed here as
      `regs`, `events` and `ns`. */
  function Render(regs: seq<Registration>, events: seq<Event>, ns: seq<Notification>,
                  loading: bool, user: Option<Student>): (v: View)
    ensures v.Placeholder? <==> PageGuards.ShowsPlaceholder(loading, Viewer(user))
    ensures v.Content? ==> forall x :: x in v.registrations <==> x in regs && x.studentId == user.value.id
    ensures v.Content? ==> |v.upcoming| <= 3 && forall e :: e in v.upcoming ==> e in events && e.status == "upcoming"
    ensures v.Content? ==> forall n :: n in v.unread <==> n in ns && !n.read
    ensures v.Content? ==> (v.upcoming <= AllUpcoming(events) &&
                            (|v.upcoming| == 3 || v.upcoming == AllUpcoming(events)))
    ensures v.Content? ==> (v.registrations == MyRegistrations(regs, user.value.id) &&
                            v.upcoming == UpcomingEvents(events) && v.unread == UnreadNotifications(ns))
  {
    if loading || user.None? then Placeholder
    else
      var up := UpcomingEvents(events);
      assert forall e :: e in up ==> e in events && e.status == "upcoming" by {
        forall e | e in up ensures e in events && e.status == "upcoming" {
          var k :| 0 <= k < |up| && up[k] == e;
        }
      }
      Content(MyRegistrations(regs, user.value.id), up, UnreadNotifications(ns))
  }

  function Viewer(user: Option<Student>): Option<PageGuards.Viewer> {
    if user.Some? then Some(PageGuards.Viewer(user.value.role)) else None
  }

  /** Content is rendered only for a user the guard does not redirect, or
      for an administrator on the way out to `/admin`. */
  lemma ContentMeansNoLoginRedirect(regs: seq<Registration>, events: seq<Event>, ns: seq<Notification>,
                                    loading: bool, user: Option<Student>)
    requires Render(regs, events, ns, loading, user).Content?
    ensures PageGuards.DashboardGuard(loading, Viewer(user)) != Some("/login")
    ensures PageGuards.DashboardGuard(loading, Viewer(user)) == None <==> user.value.role != "admin"
  {
  }

  /** Over the fixture, the demo student (id "2") sees three registrations,
      the first three events as upcoming, and two unread notifications. */
  lemma FixtureMyRegistrations()
    ensures MyRegistrations(Registrations, "2") == [Registrations[0], Registrations[1], Registrations[3]]
  {
    var r := Registrations;
    assert r[2].studentId != "2";
    assert MyRegistrations(r[3..], "2") == [r[3]];
    assert MyRegistrations(r[2..], "2") == [r[3]];
  }

  /** When the first three events are upcoming, they are the ones shown. */
  lemma LeadingUpcomingShown(events: seq<Event>)
    requires |events| >= 3
    requires forall i :: 0 <= i < 3 ==> events[i].status == "upcoming"
    ensures UpcomingEvents(events) == events[..3]
  {
    assert events == events[..3] + events[3..];
    FilterPassingFront(events[..3], events[3..], (e: Event) => e.status == "upcoming");
  }

  lemma FixtureUpcoming()
    ensures UpcomingEvents(Events) == Events[..3]
  {
    LeadingUpcomingShown(Events);
  }

  lemma FixtureUnread()
    ensures UnreadNotifications(Notifications) == Notifications[..2]
  {
    var n := Notifications;
    assert UnreadNotifications(n[2..]) == [];
  }
}
