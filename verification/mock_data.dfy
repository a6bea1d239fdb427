/**
 The in-memory fixture every page reads: clubs, events, registrations and
 notifications, with the invariants the data satisfies.
 */
module MockData {

  datatype Club = Club(id: string, name: string, category: string, description: string, members: nat)

  datatype Event = Event(
    id: string, title: string, club: string, category: string,
    date: string, time: string, venue: string,
    capacity: nat, registered: nat, status: string,
    description: string, organizer: string)

  datatype Registration = Registration(
    id: string, eventId: string, studentId: string, studentName: string,
    status: string, registeredAt: string)

  /** `type` in the source; renamed because `type` is a Dafny keyword. */
  datatype Notification = Notification(
    id: string, kind: string, title: string, message: string, time: string, read: bool)

  const Clubs: seq<Club> := [
    Club("1", "Tech Innovators", "Technology", "Coding, AI, and tech projects", 45),
    Club("2", "Drama Society", "Arts", "Theater and performing arts", 32),
    Club("3", "Sports Club", "Sports", "Various sports activities", 67),
    Club("4", "Music Ensemble", "Arts", "Orchestra and band", 28),
    Club("5", "Debate Team", "Academic", "Competitive debating", 24)
  ]

  const Events: seq<Event> := [
    Event("1", "Annual Tech Hackathon", "Tech Innovators", "Technology",
          "2025-11-15", "09:00 AM", "Computer Lab A", 50, 35, "upcoming",
          "24-hour coding competition with amazing prizes", "Dr. Sarah Johnson"),
    Event("2", "Spring Musical Performance", "Drama Society", "Arts",
          "2025-11-20", "06:00 PM", "Main Auditorium", 200, 180, "upcoming",
          "Annual spring musical showcase", "Prof. Maria Garcia"),
    Event("3", "Basketball Tournament Finals", "Sports Club", "Sports",
          "2025-11-12", "04:00 PM", "Sports Complex", 100, 89, "upcoming",
          "Championship match for inter-college tournament", "Coach Mike Williams"),
    Event("4", "Workshop: React Advanced Patterns", "Tech Innovators", "Technology",
          "2025-11-08", "02:00 PM", "Seminar Hall", 40, 40, "full",
          "Advanced React hooks and patterns", "Dr. Sarah Johnson"),
    Event("5", "Debate Championship", "Debate Team", "Academic",
          "2025-11-25", "10:00 AM", "Conference Room", 30, 18, "upcoming",
          "Inter-college debate competition", "Prof. James Chen")
  ]

  const Registrations: seq<Registration> := [
    Registration("1", "1", "2", "Alex Morgan", "approved", "2025-10-28"),
    Registration("2", "2", "2", "Alex Morgan", "approved", "2025-10-25"),
    Registration("3", "3", "3", "Emma Davis", "pending", "2025-11-01"),
    Registration("4", "4", "2", "Alex Morgan", "waitlist", "2025-11-02")
  ]

  const Notifications: seq<Notification> := [
    Notification("1", "reminder", "Event Tomorrow", "Tech Hackathon starts tomorrow at 9 AM", "2 hours ago", false),
    Notification("2", "approved", "Registration Approved", "Your registration for Spring Musical has been approved", "1 day ago", false),
    Notification("3", "update", "Venue Changed", "Basketball Finals venue updated to Sports Complex", "3 days ago", true)
  ]

  // ---------------------------------------------------------------------------
  // Invariants of the data

  /** No event is booked beyond its capacity. */
  ghost predicate WithinCapacity(events: seq<Event>) {
    forall i :: 0 <= i < |events| ==> events[i].registered <= events[i].capacity
  }

  /** The status an event carries is the one its fill level implies:
      "full" exactly when every place is taken, "upcoming" otherwise. */
  ghost predicate StatusReflectsFill(events: seq<Event>) {
    forall i :: 0 <= i < |events| ==>
      (events[i].status == "full" <==> events[i].registered == events[i].capacity) &&
      (events[i].status != "full" ==> events[i].status == "upcoming")
  }

  ghost predicate DistinctEventIds(events: seq<Event>) {
    forall i, j :: 0 <= i < j < |events| ==> events[i].id != events[j].id
  }

  ghost predicate DistinctRegistrationIds(regs: seq<Registration>) {
    forall i, j :: 0 <= i < j < |regs| ==> regs[i].id != regs[j].id
  }

  ghost predicate HasEvent(events: seq<Event>, id: string) {
    exists k :: 0 <= k < |events| && events[k].id == id
  }

  ghost predicate HasClubNamed(clubs: seq<Club>, name: string) {
    exists k :: 0 <= k < |clubs| && clubs[k].name == name
  }

  /** Every registration names an event, and every event names a club. */
  ghost predicate ReferencesResolve(clubs: seq<Club>, events: seq<Event>, regs: seq<Registration>) {
    && (forall i :: 0 <= i < |regs| ==> HasEvent(events, regs[i].eventId))
    && (forall i :: 0 <= i < |events| ==> HasClubNamed(clubs, events[i].club))
  }

  /** A student holds at most one registration per event. */
  ghost predicate OneRegistrationPerPair(regs: seq<Registration>) {
    forall i, j :: 0 <= i < j < |regs| ==>
      regs[i].eventId != regs[j].eventId || regs[i].studentId != regs[j].studentId
  }

  /** Only a full event has anyone on its waitlist. */
  ghost predicate WaitlistOnlyWhenFull(events: seq<Event>, regs: seq<Registration>) {
    forall i, k ::
      (0 <= i < |regs| && 0 <= k < |events| && regs[i].status == "waitlist" && events[k].id == regs[i].eventId)
      ==> events[k].status == "full"
  }

  ghost predicate Consistent(clubs: seq<Club>, events: seq<Event>, regs: seq<Registration>) {
    && WithinCapacity(events)
    && StatusReflectsFill(events)
    && DistinctEventIds(events)
    && DistinctRegistrationIds(regs)
    && ReferencesResolve(clubs, events, regs)
    && OneRegistrationPerPair(regs)
    && WaitlistOnlyWhenFull(events, regs)
  }

  lemma FixtureEventsWellFormed()
    ensures WithinCapacity(Events) && StatusReflectsFill(Events)
  {
  }

  lemma FixtureIdsDistinct()
    ensures DistinctEventIds(Events) && DistinctRegistrationIds(Registrations)
  {
  }

  lemma FixtureRegistrationsResolve()
    ensures forall i :: 0 <= i < |Registrations| ==> HasEvent(Events, Registrations[i].eventId)
  {
    assert Events[0].id == Registrations[0].eventId;
    assert Events[1].id == Registrations[1].eventId;
    assert Events[2].id == Registrations[2].eventId;
    assert Events[3].id == Registrations[3].eventId;
  }

  lemma FixtureClubsResolve()
    ensures forall i :: 0 <= i < |Events| ==> HasClubNamed(Clubs, Events[i].club)
  {
    assert Clubs[0].name == Events[0].club && Clubs[0].name == Events[3].club;
    assert Clubs[1].name == Events[1].club;
    assert Clubs[2].name == Events[2].club;
    assert Clubs[4].name == Events[4].club;
  }

  lemma FixtureReferencesResolve()
    ensures ReferencesResolve(Clubs, Events, Registrations)
  {
    FixtureRegistrationsResolve();
    FixtureClubsResolve();
  }

  lemma FixtureRegistrationsWellFormed()
    ensures OneRegistrationPerPair(Registrations)
    ensures WaitlistOnlyWhenFull(Events, Registrations)
  {
  }

  /** The fixture satisfies every invariant above. */
  lemma FixtureConsistent()
    ensures Consistent(Clubs, Events, Registrations)
  {
    FixtureEventsWellFormed();
    FixtureIdsDistinct();
    FixtureReferencesResolve();
    FixtureRegistrationsWellFormed();
  }

  /** Event 4 is the one full event, and the one waitlisted registration is on it. */
  lemma FixtureFullEvent()
    ensures forall i :: 0 <= i < |Events| ==> (Events[i].status == "full" <==> Events[i].id == "4")
    ensures forall i :: 0 <= i < |Registrations| ==>
      (Registrations[i].status == "waitlist" <==> Registrations[i].id == "4")
    ensures Registrations[3].eventId == "4"
  {
  }
}
