/**
 The administrator's registration table of
 `app/admin/registrations/page.jsx`: the status filter, the three counters,
 the status badge and which action each row offers. Approve and reject only
 announce themselves; nothing in the page changes a registration.
 */
module AdminRegistrations {
  import opened Lists
  import opened MockData

  predicate ShownBy(filter: string, r: Registration) {
    filter == "all" || r.status == filter
  }

  /** `filteredRegistrations`. */
  function Filtered(regs: seq<Registration>, filter: string): (r: seq<Registration>)
    ensures filter == "all" ==> r == regs
    ensures filter != "all" ==> forall x :: x in r <==> x in regs && x.status == filter
    ensures filter != "all" ==> forall x {:trigger multiset(r)[x]} :: multiset(r)[x] == if x.status == filter then multiset(regs)[x] else 0
  {
    FilterAllPassIfAll(regs, filter);
    FilterKeepsMultiplicity(regs, x => ShownBy(filter, x));
    Filter(regs, x => ShownBy(filter, x))
  }

  lemma FilterAllPassIfAll(regs: seq<Registration>, filter: string)
    ensures filter == "all" ==> Filter(regs, x => ShownBy(filter, x)) == regs
  {
    if filter == "all" {
      FilterAllPass(regs, x => ShownBy(filter, x));
    }
  }

  lemma FilteredInOrder(regs: seq<Registration>, filter: string)
    ensures IsSubsequence(Filtered(regs, filter), regs)
  {
    FilterIsSubsequence(regs, x => ShownBy(filter, x));
  }

  function CountWithStatus(regs: seq<Registration>, status: string): nat {
    |Filter(regs, (r: Registration) => r.status == status)|
  }

  /** The three counters on the stat cards: pending, approved and waitlist,
      each the number of rows the matching filter shows. */
  function Counters(regs: seq<Registration>): (c: (nat, nat, nat))
    ensures c == (|Filtered(regs, "pending")|, |Filtered(regs, "approved")|, |Filtered(regs, "waitlist")|)
    ensures c.0 + c.1 + c.2 <= |regs|
    ensures c.0 + c.1 + c.2 == |regs| <==>
      forall i :: 0 <= i < |regs| ==> regs[i].status in {"pending", "approved", "waitlist"}
  {
    ThreeWayCount(regs, (r: Registration) => r.status == "pending", (r: Registration) => r.status == "approved", (r: Registration) => r.status == "waitlist");
    CounterMatchesFilter(regs, "pending");
    CounterMatchesFilter(regs, "approved");
    CounterMatchesFilter(regs, "waitlist");
    (CountWithStatus(regs, "pending"), CountWithStatus(regs, "approved"), CountWithStatus(regs, "waitlist"))
  }

  /** Each counter is the length of the table under the matching filter. */
  lemma CounterMatchesFilter(regs: seq<Registration>, status: string)
    requires status != "all"
    ensures CountWithStatus(regs, status) == |Filtered(regs, status)|
  {
    FilterAgree(regs, (r: Registration) => r.status == status, x => ShownBy(status, x));
  }


  datatype Variant = Default | Secondary | Outline | Destructive

  /** The status badge. */
  function Badge(status: string): (v: Variant)
    ensures v == Default <==> status == "approved"
    ensures v == Secondary <==> status == "pending"
    ensures v == Outline <==> status == "waitlist"
    ensures v == Destructive <==> status !in {"approved", "pending", "waitlist"}
  {
    if status == "approved" then Default
    else if status == "pending" then Secondary
    else if status == "waitlist" then Outline
    else Destructive
  }

  /** The three independent conditions of the actions cell. */
  predicate OffersApproveReject(status: string) { status == "pending" }
  predicate ShowsConfirmed(status: string) { status == "approved" }
  predicate OffersPromote(status: string) { status == "waitlist" }

  /** At most one kind of action per row, and a row offers one exactly when
      its badge is not the destructive one. */
  lemma ActionsExclusive(status: string)
    ensures !(OffersApproveReject(status) && ShowsConfirmed(status))
    ensures !(OffersApproveReject(status) && OffersPromote(status))
    ensures !(ShowsConfirmed(status) && OffersPromote(status))
    ensures (OffersApproveReject(status) || ShowsConfirmed(status) || OffersPromote(status)) <==>
      Badge(status) != Destructive
  {
  }

  // ---------------------------------------------------------------------------
  // The page as a state machine over its one piece of state, the filter

  datatype Page = Page(filter: string)

  datatype Click =
    | StatCard(status: string)
    | FilterButton(filter: string)
    | Approve(id: string)
    | Reject(id: string)

  function OnClick(p: Page, c: Click): (r: Page)
    ensures c.StatCard? ==> r.filter == c.status
    ensures c.FilterButton? ==> r.filter == c.filter
    ensures c.Approve? || c.Reject? ==> r == p
  {
    match c
    case StatCard(s) => Page(s)
    case FilterButton(f) => Page(f)
    case Approve(_) => p
    case Reject(_) => p
  }

  /** Clicking a counter shows exactly the rows that counter counts. */
  lemma StatCardShowsItsRows(p: Page, status: string)
    requires status in {"pending", "approved", "waitlist"}
    ensures |Filtered(Registrations, OnClick(p, StatCard(status)).filter)| == CountWithStatus(Registrations, status)
  {
    CounterMatchesFilter(Registrations, status);
  }

  /** Approving or rejecting changes neither the rows shown nor the counters. */
  lemma ApproveRejectChangeNothing(p: Page, id: string)
    ensures Filtered(Registrations, OnClick(p, Approve(id)).filter) == Filtered(Registrations, p.filter)
    ensures Filtered(Registrations, OnClick(p, Reject(id)).filter) == Filtered(Registrations, p.filter)
  {
  }

  /** Over the fixture: one pending, two approved, one waitlisted, and these
      account for all four registrations. */
  lemma FixtureCounters()
    ensures Counters(Registrations) == (1, 2, 1)
  {
    var r := Registrations;
    assert r == [r[0], r[1], r[2], r[3]];
    assert r[0].status == "approved" && r[1].status == "approved";
    assert r[2].status == "pending" && r[3].status == "waitlist";
    CountersOfFour(r[0], r[1], r[2], r[3]);
  }

  /** Two approved rows, then a pending one and a waitlisted one. */
  lemma CountersOfFour(a: Registration, b: Registration, c: Registration, d: Registration)
    requires a.status == "approved" && b.status == "approved" && c.status == "pending" && d.status == "waitlist"
    ensures Counters([a, b, c, d]) == (1, 2, 1)
  {
    CountOfFour(a, b, c, d, "pending");
    CountOfFour(a, b, c, d, "approved");
    CountOfFour(a, b, c, d, "waitlist");
  }

  function Hit(r: Registration, status: string): nat {
    if r.status == status then 1 else 0
  }

  /** A status count over four rows, row by row. */
  lemma CountOfFour(a: Registration, b: Registration, c: Registration, d: Registration, status: string)
    ensures CountWithStatus([a, b, c, d], status) == Hit(a, status) + Hit(b, status) + Hit(c, status) + Hit(d, status)
  {
    var p := (x: Registration) => x.status == status;
    var r := [a, b, c, d];
    assert r[1..] == [b, c, d] && r[2..] == [c, d] && r[3..] == [d] && r[4..] == [];
    assert |Filter(r[3..], p)| == Hit(d, status);
    assert |Filter(r[2..], p)| == Hit(c, status) + Hit(d, status);
    assert |Filter(r[1..], p)| == Hit(b, status) + Hit(c, status) + Hit(d, status);
  }
}
