/** The client session of the repair desk: the state the app keeps between
    events and the handlers that change it (view changes with their challenge,
    fetching tickets and the broadcast message, submitting, tracking, admin
    login and logout, ticket updates and deletes, the tutorial overlay). Store,
    authentication, clock and random draw are inputs to the handlers. */
module Session {
  import opened Text
  import opened Records
  import opened Cache
  import opened Allocator
  import opened Gate

  datatype View = HomeView | SubmitView | TrackView | AdminLoginView | AdminView

  datatype LoginData = LoginData(email: string, password: string, code: string)

  /** What signInWithPassword returns: an error, or the signed-in user. */
  datatype AuthResult = AuthFailed(message: string) | SignedIn(user: string)

  /** What a select on the broadcast-message table returns: an error, or the
      message column of the rows (null where a row has none). */
  datatype MessageFetch = MessageFetchFailed(message: string) | MessagesFetched(rows: seq<Option<string>>)

  datatype SubmitOutcome = CodeRejected | InsertFailed(message: string) | Submitted(draft: TicketDraft)

  datatype LoginOutcome = LoginCodeRejected | LoginFailed(message: string) | LoggedIn

  /** The titles of the six tutorial steps, in order. */
  const TutorialTitles: seq<string> := [
    "Welcome to ICT Repair System",
    "Step 1: Submit a Ticket",
    "Step 2: Verification Code",
    "Step 3: Save Your Ticket Number",
    "Step 4: Track Your Ticket",
    "Step 5: Status Updates"
  ]

  const EmptyInputError := "Please enter a ticket number."
  const NotFoundError := "Ticket not found. Please check the ticket number."

  /** The record a submission inserts: the form's five fields, status Evaluation
      and the allocated number. */
  function NewTicketDraft(form: FormData, number: string): (d: TicketDraft)
    ensures d.status == Evaluation && d.ticketNumber == number
    ensures FormData(d.office, d.repairType, d.equipment, d.problem, d.requestee) == form
  {
    TicketDraft(form.office, form.repairType, form.equipment, form.problem, form.requestee,
                Evaluation, number)
  }

  /** data[0]?.message || '': the newest row's message, or empty when there is
      no row or its message is null or empty. */
  function LatestMessage(rows: seq<Option<string>>): (m: string)
    ensures rows == [] ==> m == ""
    ensures rows != [] && rows[0].Some? ==> m == rows[0].value
    ensures rows != [] && rows[0].None? ==> m == ""
  {
    if rows == [] then "" else match rows[0] case None => "" case Some(text) => text
  }

  class Session {
    var view: View
    var user: Option<string>
    var tickets: seq<Ticket>
    var adminMessage: string
    var form: FormData
    var ticketNumberInput: string
    var trackedTicket: Option<Ticket>
    var trackingError: string
    var showModal: bool
    var newTicketNumber: string
    var loginData: LoginData
    var generatedCode: string
    var enteredCode: string
    var showTutorial: bool
    var tutorialStep: nat

    /** The tutorial step indexes the step list and is back at the first step
        whenever the overlay is closed; the generated code is empty or a
        four-digit challenge; the typed codes hold digits only. */
    ghost predicate Valid()
      reads this
    {
      && tutorialStep < |TutorialTitles|
      && (!showTutorial ==> tutorialStep == 0)
      && WellFormedChallenge(generatedCode)
      && AllDigits(enteredCode)
      && AllDigits(loginData.code)
    }

    /** The state of a freshly mounted app. */
    constructor ()
      ensures Valid()
      ensures view == HomeView && user == None && tickets == [] && adminMessage == ""
      ensures form == InitialForm && ticketNumberInput == ""
      ensures trackedTicket == None && trackingError == ""
      ensures !showModal && newTicketNumber == ""
      ensures loginData == LoginData("", "", "") && generatedCode == "" && enteredCode == ""
      ensures !showTutorial && tutorialStep == 0
    {
      view := HomeView;
      user := None;
      tickets := [];
      adminMessage := "";
      form := InitialForm;
      ticketNumberInput := "";
      trackedTicket := None;
      trackingError := "";
      showModal := false;
      newTicketNumber := "";
      loginData := LoginData("", "", "");
      generatedCode := "";
      enteredCode := "";
      showTutorial := false;
      tutorialStep := 0;
    }

    /** A change of view. Entering the submission or admin-login view from
        another view draws a fresh challenge (draw is the random integer);
        setting the view it already shows changes nothing. */
    method SetView(v: View, draw: nat)
      requires Valid()
      requires 1000 <= draw <= 9999
      modifies this`view, this`generatedCode
      ensures Valid()
      ensures view == v
      ensures generatedCode == if v != old(view) && (v == SubmitView || v == AdminLoginView)
                               then Challenge(draw) else old(generatedCode)
    {
      if v != view {
        view := v;
        if v == SubmitView || v == AdminLoginView {
          generatedCode := Challenge(draw);
        }
      }
    }

    /** fetchTickets: replace the cache with the fetched rows (none when the
        store returns null); on error keep the cache as it is. */
    method FetchTickets(result: FetchResult)
      modifies this`tickets
      ensures tickets == Refreshed(old(tickets), result)
      ensures result.FetchFailed? ==> tickets == old(tickets)
      ensures result == Fetched(None) ==> tickets == []
      ensures result.Fetched? && result.data.Some? ==> tickets == result.data.value
    {
      tickets := Refreshed(tickets, result);
    }

    /** fetchAdminMessage: show the newest broadcast, keep the old one on error. */
    method FetchAdminMessage(result: MessageFetch)
      modifies this`adminMessage
      ensures result.MessageFetchFailed? ==> adminMessage == old(adminMessage)
      ensures result.MessagesFetched? ==> adminMessage == LatestMessage(result.rows)
    {
      if result.MessagesFetched? {
        adminMessage := LatestMessage(result.rows);
      }
    }

    /** The mount effect: restore a signed-in user into the admin view, then
        load the tickets and the broadcast message. */
    method Start(current: Option<string>, ticketsResult: FetchResult, messageResult: MessageFetch)
      requires Valid()
      modifies this`user, this`view, this`tickets, this`adminMessage
      ensures Valid()
      ensures current.Some? ==> user == current && view == AdminView
      ensures current.None? ==> user == old(user) && view == old(view)
      ensures tickets == Refreshed(old(tickets), ticketsResult)
      ensures messageResult.MessageFetchFailed? ==> adminMessage == old(adminMessage)
      ensures messageResult.MessagesFetched? ==> adminMessage == LatestMessage(messageResult.rows)
    {
      if current.Some? {
        user := current;
        view := AdminView;
      }
      FetchTickets(ticketsResult);
      FetchAdminMessage(messageResult);
    }

    /** A change to the submission form's fields. */
    method EditForm(f: FormData)
      modifies this`form
      ensures form == f
    {
      form := f;
    }

    /** Typing into the verification-code box: only the digits are kept. */
    method EditVerificationCode(raw: string)
      requires Valid()
      modifies this`enteredCode
      ensures Valid()
      ensures enteredCode == KeepDigits(raw)
    {
      enteredCode := KeepDigits(raw);
    }

    /** Typing into the login form: the code box keeps only the digits. */
    method EditLoginData(email: string, password: string, rawCode: string)
      requires Valid()
      modifies this`loginData
      ensures Valid()
      ensures loginData == LoginData(email, password, KeepDigits(rawCode))
    {
      loginData := LoginData(email, password, KeepDigits(rawCode));
    }

    method EditTicketNumberInput(s: string)
      modifies this`ticketNumberInput
      ensures ticketNumberInput == s
    {
      ticketNumberInput := s;
    }

    /** None of the fields a submission may change has changed. */
    twostate predicate SubmitUnchanged()
      reads this
    {
      tickets == old(tickets) && form == old(form) && newTicketNumber == old(newTicketNumber)
      && enteredCode == old(enteredCode) && showModal == old(showModal)
    }

    /** handleSubmit on the local date today. A missing or wrong code is
        refused before anything else happens, and a failed insert changes
        nothing. After a successful insert the cache is refreshed with what the
        store returned, the form and the typed code are reset and the success
        dialog shows the new number. */
    method Submit(today: CalendarDate, insert: WriteResult, refetch: FetchResult)
      returns (outcome: SubmitOutcome)
      requires Valid() && ValidDate(today)
      modifies this`tickets, this`form, this`newTicketNumber, this`enteredCode, this`showModal
      ensures Valid()
      ensures !SubmissionCodeAccepted(old(enteredCode), generatedCode) ==>
                outcome == CodeRejected && SubmitUnchanged()
      ensures SubmissionCodeAccepted(old(enteredCode), generatedCode) && insert.WriteFailed? ==>
                outcome == InsertFailed(insert.message) && SubmitUnchanged()
      ensures SubmissionCodeAccepted(old(enteredCode), generatedCode) && insert.WriteOk? ==>
                && outcome == Submitted(NewTicketDraft(old(form), NextTicketNumber(old(tickets), today)))
                && tickets == Refreshed(old(tickets), refetch)
                && form == InitialForm && enteredCode == ""
                && newTicketNumber == outcome.draft.ticketNumber && showModal
    {
      // The allocator's contract is enough here; its definition is not needed.
      hide NextTicketNumber;
      hide ParseDigits;
      hide StartsWith;
      hide DatePrefix;
      hide SameDayCount;
      if enteredCode == "" || enteredCode != generatedCode {
        outcome := CodeRejected;
      } else if insert.WriteFailed? {
        outcome := InsertFailed(insert.message);
      } else {
        var draft := NewTicketDraft(form, NextTicketNumber(tickets, today));
        FetchTickets(refetch);
        form := InitialForm;
        newTicketNumber := draft.ticketNumber;
        enteredCode := "";
        showModal := true;
        outcome := Submitted(draft);
      }
    }

    /** handleTrackTicket: look the trimmed input up in the cache. An empty or
        all-whitespace input and a number not in the cache each set their own
        message and clear the tracked ticket; a match shows the first cached
        ticket with that number and clears the message. The cache is not touched. */
    method TrackTicket()
      modifies this`trackedTicket, this`trackingError
      ensures Trim(ticketNumberInput) == "" ==> trackedTicket == None && trackingError == EmptyInputError
      ensures Trim(ticketNumberInput) != "" && FindByNumber(tickets, Trim(ticketNumberInput)).Some? ==>
              trackedTicket == FindByNumber(tickets, Trim(ticketNumberInput)) && trackingError == ""
      ensures Trim(ticketNumberInput) != "" && FindByNumber(tickets, Trim(ticketNumberInput)).None? ==>
              trackedTicket == None && trackingError == NotFoundError
    {
      // Only the contracts of the trim and the lookup are needed here.
      hide Trim;
      hide FindByNumber;
      var input := Trim(ticketNumberInput);
      if input == "" {
        trackingError := EmptyInputError;
        trackedTicket := None;
      } else {
        var found := FindByNumber(tickets, input);
        if found.Some? {
          trackedTicket := found;
          trackingError := "";
        } else {
          trackedTicket := None;
          trackingError := NotFoundError;
        }
      }
    }

    /** handleAdminLogin: a code other than the generated one is refused before
        signing in; a failed sign-in changes nothing; otherwise the user is
        recorded and the admin view is shown. */
    method AdminLogin(auth: AuthResult) returns (outcome: LoginOutcome)
      requires Valid()
      modifies this`user, this`view
      ensures Valid()
      ensures !LoginCodeAccepted(loginData.code, generatedCode) ==>
                outcome == LoginCodeRejected && unchanged(this)
      ensures LoginCodeAccepted(loginData.code, generatedCode) && auth.AuthFailed? ==>
                outcome == LoginFailed(auth.message) && unchanged(this)
      ensures LoginCodeAccepted(loginData.code, generatedCode) && auth.SignedIn? ==>
                outcome == LoggedIn && user == Some(auth.user) && view == AdminView
    {
      if loginData.code != generatedCode {
        return LoginCodeRejected;
      }
      if auth.AuthFailed? {
        return LoginFailed(auth.message);
      }
      user := Some(auth.user);
      view := AdminView;
      outcome := LoggedIn;
    }

    /** The logout button: forget the user and go home. */
    method Logout()
      modifies this`user, this`view
      ensures user == None && view == HomeView
    {
      user := None;
      view := HomeView;
    }

    /** handleUpdateTicket (also used by "Mark as Repaired" with the record
        MarkRepaired gives): the cache is refreshed only after the store
        accepted the update. */
    method UpdateTicket(write: WriteResult, refetch: FetchResult)
      modifies this`tickets
      ensures write.WriteOk? ==> tickets == Refreshed(old(tickets), refetch)
      ensures write.WriteFailed? ==> tickets == old(tickets)
    {
      if write.WriteOk? {
        FetchTickets(refetch);
      }
    }

    /** handleDeleteTicket: the cache is refreshed only after the store
        accepted the delete. */
    method DeleteTicket(write: WriteResult, refetch: FetchResult)
      modifies this`tickets
      ensures write.WriteOk? ==> tickets == Refreshed(old(tickets), refetch)
      ensures write.WriteFailed? ==> tickets == old(tickets)
    {
      if write.WriteOk? {
        FetchTickets(refetch);
      }
    }

    /** The tutorial button shows the overlay; opened from the closed state it
        always starts at the first step. */
    method OpenTutorial()
      requires Valid()
      modifies this`showTutorial
      ensures Valid()
      ensures showTutorial
      ensures !old(showTutorial) ==> tutorialStep == 0
    {
      showTutorial := true;
    }

    /** The overlay's close button: hide the overlay and go back to the first step. */
    method CloseTutorial()
      requires Valid()
      modifies this`showTutorial, this`tutorialStep
      ensures Valid()
      ensures !showTutorial && tutorialStep == 0
    {
      showTutorial := false;
      tutorialStep := 0;
    }

    /** nextTutorialStep: advance while a later step exists; on the last step
        close the overlay and go back to the first step. */
    method NextTutorialStep()
      requires Valid() && showTutorial
      modifies this`tutorialStep, this`showTutorial
      ensures Valid()
      ensures old(tutorialStep) < |TutorialTitles| - 1 ==>
                tutorialStep == old(tutorialStep) + 1 && showTutorial == old(showTutorial)
      ensures old(tutorialStep) == |TutorialTitles| - 1 ==> tutorialStep == 0 && !showTutorial
    {
      if tutorialStep < |TutorialTitles| - 1 {
        tutorialStep := tutorialStep + 1;
      } else {
        showTutorial := false;
        tutorialStep := 0;
      }
    }

    /** prevTutorialStep: go back one step unless already on the first. Like
        nextTutorialStep, its button exists only while the overlay is shown. */
    method PrevTutorialStep()
      requires Valid() && showTutorial
      modifies this`tutorialStep
      ensures Valid()
      ensures tutorialStep == if old(tutorialStep) > 0 then old(tutorialStep) - 1 else 0
    {
      if tutorialStep > 0 {
        tutorialStep := tutorialStep - 1;
      }
    }
  }
}
