/** End-to-end runs of the session handlers, proved from their contracts alone. */
module Scenarios {
  import opened Text
  import opened Records
  import opened Cache
  import opened Allocator
  import opened Gate
  import opened Session

  /** The user sees one challenge, types it, leaves the submission view and
      comes back to a different challenge: submitting the old code is refused. */
  method StaleChallengeScenario(s: Session, first: nat, second: nat, today: CalendarDate,
                                insert: WriteResult, refetch: FetchResult)
    returns (outcome: SubmitOutcome)
    requires s.Valid() && s.view == HomeView && ValidDate(today)
    requires 1000 <= first <= 9999 && 1000 <= second <= 9999 && first != second
    modifies s
    ensures outcome == CodeRejected
  {
    s.SetView(SubmitView, first);
    s.EditVerificationCode(s.generatedCode);
    s.SetView(HomeView, first);
    s.SetView(SubmitView, second);
    assert s.enteredCode == Challenge(first) && s.generatedCode == Challenge(second);
    outcome := s.Submit(today, insert, refetch);
  }

  /** On a day with no ticket yet, two submissions from the same session, the
      second after the refreshed cache holds the first, are numbered 00001 and
      00002. */
  method TwoSubmissionsScenario(s: Session, today: CalendarDate, first: Ticket)
    returns (one: SubmitOutcome, two: SubmitOutcome)
    requires s.Valid() && ValidDate(today)
    requires s.generatedCode != "" && s.enteredCode == s.generatedCode
    requires forall i :: 0 <= i < |s.tickets| ==> !StartsWith(s.tickets[i].ticketNumber, DatePrefix(today))
    requires first.ticketNumber == DatePrefix(today) + "00001"
    modifies s
    ensures one.Submitted? && one.draft.ticketNumber == DatePrefix(today) + "00001"
    ensures two.Submitted? && two.draft.ticketNumber == DatePrefix(today) + "00002"
  {
    // The allocator lemmas carry the reasoning; the definitions are not needed.
    hide NextTicketNumber;
    hide ParseDigits;
    hide StartsWith;
    hide DatePrefix;
    hide SameDayCount;
    var before := s.tickets;
    FirstOfDay(before, today);
    one := s.Submit(today, WriteOk, Fetched(Some([first] + before)));
    assert [] + before == before && s.tickets == [] + [first] + before;
    SequentialSubmissions([], before, first, today);
    s.EditVerificationCode(s.generatedCode);
    two := s.Submit(today, WriteOk, Fetched(Some(s.tickets)));
  }
}
