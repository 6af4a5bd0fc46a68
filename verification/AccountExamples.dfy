/** Sites where the account rules meet their limits. */
module AccountExamples {
  import opened Outcomes
  import opened Text
  import opened Accounts
  import opened EmailChange
  import opened AccountRuns
  import Address = AddressLaws
  import Recovery = RecoveryLaws
  import Roles = RoleLaws

  const WEEK: nat := 604_800_000_000

  lemma WeekInTicks()
    ensures UNDO_TIMEOUT * SECOND == WEEK && SECOND == 1_000_000
  {
  }

  /** An address of one lower-case letter is its own stripped and lowered form. */
  lemma OneLetter(c: char)
    requires IsLowerChar(c)
    ensures Strip([c]) == [c] && Lower([c]) == [c] && NormalizedEmail([c]) == [c]
  {
  }

  /** A member or a donor, open, with a password. */
  function Ordinary(email: string, hash: nat, kind: Kind): Account {
    Account(email, false, false, "", "", None, None, Password(hash, true), kind, true, false, false, {}, false, false)
  }

  /** A verified account that moved to `email` and keeps `recovery` until `until`. */
  function MovedFrom(email: string, recovery: string, until: nat, roles: set<Role>): Account {
    Account(email, true, false, "", recovery, Some(until), None, Password(0, true), Member, true, false, false, roles,
            false, false)
  }

  function SiteOf(rows: map<Pk, Account>, nextPk: Pk, now: nat, undoLinks: set<UndoLink>): Site {
    Site(rows, nextPk, now, nextPk, 1, {}, undoLinks, 1, {}, {})
  }

  lemma SoundMoved(email: char, recovery: char, until: nat, roles: set<Role>, now: nat)
    requires IsLowerChar(email) && IsLowerChar(recovery) && WEEK <= until <= now + WEEK
    ensures Sound(MovedFrom([email], [recovery], until, roles), now, 1)
  {
    WeekInTicks();
  }

  /** A site of one account that moved from `r` to `n`, with the links `undoLinks` out. */
  lemma OneMovedAccount(until: nat, roles: set<Role>, now: nat, undoLinks: set<UndoLink>)
    requires WEEK <= until <= now + WEEK && UndoLink(0, ['r'], ['n'], until - WEEK) in undoLinks
    requires forall l :: l in undoLinks ==> l.user == 0 && l.previous == ['r'] && l.at <= now
    ensures Inv(SiteOf(map[0 := MovedFrom(['n'], ['r'], until, roles)], 1, now, undoLinks))
  {
    WeekInTicks();
    SoundMoved('n', 'r', until, roles, now);
    var site := SiteOf(map[0 := MovedFrom(['n'], ['r'], until, roles)], 1, now, undoLinks);
    var first := UndoLink(0, ['r'], ['n'], until - WEEK);
    assert first.at + UNDO_TIMEOUT * SECOND == until;
    assert LinkOut(site, 0, site.rows[0]);
  }

  /** In the last part of a second a recovery address is kept, none of its links may be good any more. */
  lemma LastSecond() returns (site: Site)
    ensures Inv(site) && 0 in site.rows && RecoveryAddress(site.rows[0], site.now) != ""
    ensures forall link :: UndoChange(site, link) == Reply(UndoInvalid, site)
    ensures !Recovery.CanTakeBack(site, 0)
  {
    WeekInTicks();
    var only := UndoLink(0, ['r'], ['n'], 5);
    site := SiteOf(map[0 := MovedFrom(['n'], ['r'], WEEK + 5, {})], 1, WEEK + 3, {only});
    OneMovedAccount(WEEK + 5, {}, WEEK + 3, {only});
    assert Lapsed(5, UNDO_TIMEOUT, WEEK + 3);
    forall link ensures UndoChange(site, link) == Reply(UndoInvalid, site) {
      assert link in site.undoLinks ==> link == only;
    }
  }

  lemma RunOfOne(site: Site, event: Event)
    ensures Run(site, [event]) == Apply(site, event)
  {
    assert [event][1..] == [];
  }

  lemma RunOfTwo(site: Site, first: Event, second: Event)
    ensures Run(site, [first, second]) == Apply(Apply(site, first), second)
  {
    assert [first, second][1..] == [second];
    RunOfOne(Apply(site, first), second);
  }

  lemma RunOfThree(site: Site, first: Event, second: Event, third: Event)
    ensures Run(site, [first, second, third]) == Apply(Apply(Apply(site, first), second), third)
  {
    assert [first, second, third][1..] == [second, third];
    RunOfTwo(Apply(site, first), second, third);
  }

  /**
   A notice sent ten seconds into the keeping outlives it.  Once the recovery address has lapsed and another
   account has opened at it, following that notice's link closes the only administrator.
   */
  lemma LastAdminClosed() returns (start: Site, events: seq<Event>)
    ensures Inv(start) && Roles.AdminLeft(start) && !Roles.AdminLeft(Run(start, events))
  {
    var first, later := UndoLink(0, ['r'], ['n'], 0), UndoLink(0, ['r'], ['n'], 10_000_000);
    var admin := MovedFrom(['n'], ['r'], WEEK, {SystemAdmin});
    start := SiteOf(map[0 := admin], 1, 10_000_000, {first, later});
    OneMovedAccount(WEEK, {SystemAdmin}, 10_000_000, {first, later});
    assert Roles.IsActiveAdmin(start.rows[0]);
    var opening, undoing := Event(WEEK - 10_000_000, Open(['r'], Member, true)), Event(0, Undo(later));
    events := [opening, undoing];
    RunOfTwo(start, opening, undoing);
    OpensAtLapsed(start, opening);
    ClosesTheLast(Apply(start, opening), later);
  }

  lemma ClosesTheLast(site: Site, later: UndoLink)
    requires site.rows.Keys == {0, 1} && site.rows[0] == MovedFrom(['n'], ['r'], WEEK, {SystemAdmin})
    requires site.rows[1].email == ['r'] && site.rows[1].roles == {MemberRole} && !site.rows[1].isSuperuser
    requires later == UndoLink(0, ['r'], ['n'], 10_000_000) && later in site.undoLinks && site.now == WEEK + 1
    ensures !Roles.AdminLeft(Apply(site, Event(0, Undo(later))))
  {
    WeekInTicks();
    OneLetter('n');
    OneLetter('r');
    var ticked := Tick(site, 0);
    assert Holds(ticked.rows[1], ['r'], ticked.now);
    assert AddressTaken(ticked, ['r'], Some(0));
    assert UndoHonored(ticked, later);
    assert UndoChange(ticked, later).outcome == Undone(false, true);
  }

  lemma OpensAtLapsed(start: Site, opening: Event)
    requires 0 in start.rows && start.rows.Keys == {0} && start.nextPk == 1
    requires start.rows[0].email == ['n'] && start.rows[0].recoveryUntil.Some?
    requires opening.step == Open(['r'], Member, true) && start.rows[0].recoveryUntil.value <= start.now + 1 + opening.wait
    ensures
      var settled := Apply(start, opening);
      && settled.rows.Keys == {0, 1} && settled.rows[0] == start.rows[0]
      && settled.rows[1].email == ['r'] && settled.rows[1].roles == {MemberRole} && !settled.rows[1].isSuperuser
      && settled.now == start.now + 1 + opening.wait && settled.undoLinks == start.undoLinks
  {
    OneLetter('n');
    OneLetter('r');
    var ticked := Tick(start, opening.wait);
    assert !AddressTaken(ticked, ['r'], None);
  }

  /** A member who closes the account, comes back, and asks for the same address again can follow the old link. */
  lemma ClosedLinkRevives() returns (start: Site, link: ChangeLink, events: seq<Event>)
    ensures Inv(start) && link in start.changeLinks && |events| == 3
    ensures events[0].step == LeaveOwn(0) && events[1].step == ReturnOwn(0)
    ensures link.user == 0 && CompleteChange(Run(start, events), link).outcome == Moved
  {
    OneLetter('n');
    OneLetter('m');
    var user := Ordinary(['n'], 0, Member);
    link := ChangeLink(0, ['n'], ['m'], Some(0), 0, 0);
    start := Site(map[0 := user.(pendingEmail := ['m'])], 1, 0, 1, 1, {link}, {}, 1, {}, {});
    var leave, back, ask := Event(0, LeaveOwn(0)), Event(0, ReturnOwn(0)), Event(0, AskOwn(0, ['m']));
    events := [leave, back, ask];
    RunOfThree(start, leave, back, ask);
    LeavesAndReturns(start, leave, back, link);
    AsksAgain(Apply(Apply(start, leave), back), ask, link);
  }

  lemma LeavesAndReturns(start: Site, leave: Event, back: Event, link: ChangeLink)
    requires start.rows == map[0 := Ordinary(['n'], 0, Member).(pendingEmail := ['m'])] && start.now == 0
    requires leave == Event(0, LeaveOwn(0)) && back == Event(0, ReturnOwn(0)) && link in start.changeLinks
    ensures
      var returned := Apply(Apply(start, leave), back);
      && returned.rows == map[0 := Ordinary(['n'], 0, Member)] && returned.now == 2
      && link in returned.changeLinks && returned.verificationTimeout == start.verificationTimeout
  {
    var left := Apply(start, leave);
    assert left.rows == map[0 := Ordinary(['n'], 0, Member).(isActive := false)] && left.now == 1;
  }

  lemma AsksAgain(site: Site, ask: Event, link: ChangeLink)
    requires site.rows == map[0 := Ordinary(['n'], 0, Member)] && site.now <= 2 && site.verificationTimeout == 1
    requires ask == Event(0, AskOwn(0, ['m'])) && link == ChangeLink(0, ['n'], ['m'], Some(0), 0, 0)
    requires link in site.changeLinks
    ensures CompleteChange(Apply(site, ask), link).outcome == Moved
  {
    OneLetter('n');
    OneLetter('m');
    WeekInTicks();
    var ticked := Tick(site, 0);
    assert AccountRoles(ticked.rows[0]) - EffectiveRoles(ticked, Person(0)) == {};
    Recovery.AskedRow(ticked, Person(0), 0, ['m']);
    var asked := AskedSite(ticked, Person(0), 0, ['m']);
    assert Apply(site, ask) == asked;
    assert asked.rows[0] == Ordinary(['n'], 0, Member).(pendingEmail := ['m']);
    assert !AddressTaken(asked, ['m'], Some(0));
  }

  /** A donor asks quietly for the address another account keeps for recovery. */
  lemma QuietDonor() returns (site: Site)
    ensures Inv(site) && 1 in site.rows && IsDonor(site.rows[1])
    ensures RequestChange(site, Command, 1, ['r'], true).outcome == DonorWritten
    ensures !AddressesUnique(RequestChange(site, Command, 1, ['r'], true).site)
  {
    var only := UndoLink(0, ['r'], ['n'], 1);
    OneMovedAccount(WEEK + 1, {}, 2, {only});
    var alone := SiteOf(map[0 := MovedFrom(['n'], ['r'], WEEK + 1, {})], 1, 2, {only});
    OneLetter('d');
    OneLetter('n');
    OneLetter('r');
    assert !AddressTaken(alone, ['d'], None);
    site := Register(alone, ['d'], Donor, false);
    Address.RegisterKeepsInv(alone, ['d'], Donor, false);
    var after := RequestChange(site, Command, 1, ['r'], true).site;
    assert after.rows[1].email == ['r'] && after.rows[0] == alone.rows[0];
    assert Holds(after.rows[0], ['r'], 2) && Holds(after.rows[1], ['r'], 2);
    assert !Apart(after.rows[0], after.rows[1], 2);
  }
}
