/** The japa counter page (client/src/Pages/JapaPage.js): a tap counter, a reset with a
    confirmation, a save that adds the count to the user's stored total, and a
    first-visit tour flag kept in the browser's storage.

    The page's handlers are stated as transitions of its state; the class below makes
    the same transitions on its fields, with the save both as written and corrected.
    Saving is split into the moment the request is sent and the moment its answer
    arrives, because the counter button stays enabled in between. As written, a successful save sets the counter to 0, which also wipes
    the taps made while the request was pending (`SaveAnsweredAsWritten`); the corrected
    save (`SaveSent`, `SaveAnswered`) moves the taps it sends out of the counter and puts
    them back if the save fails, so every tap stays accounted for. */
module JapaPage {
  import opened Wrappers
  import opened JsValues
  import opened ClientRequests
  import JapaRoutes
  import ServerModels

  /** The page's state: the counter, the three flags, and the count carried by the save
      request in flight (0 when there is none). */
  datatype Japa = Japa(count: nat, isSaving: bool, isResetModalOpen: bool, isTourOpen: bool, inFlight: nat)

  /** The value stored under 'hasSeenJapaTour' once the tour is done. */
  const SeenFlag := "true"

  /** `!localStorage.getItem('hasSeenJapaTour')`: the item is absent or empty. */
  predicate TourOpens(stored: Option<string>)
  {
    stored.None? || stored.value == ""
  }

  /** The state after the mount effect. */
  function Initial(stored: Option<string>): (st: Japa)
    ensures st.count == 0 && !st.isSaving && !st.isResetModalOpen && st.inFlight == 0
    ensures st.isTourOpen <==> TourOpens(stored)
  {
    Japa(0, false, false, TourOpens(stored), 0)
  }

  /** handleTourComplete: the flag is stored and the tour closes; a later visit does not
      open it again. */
  function AfterTourComplete(st: Japa): (r: (Japa, string))
    ensures !r.0.isTourOpen && r.0 == st.(isTourOpen := false)
    ensures !TourOpens(Some(r.1))
  {
    (st.(isTourOpen := false), SeenFlag)
  }

  /** handleClick: exactly one more. */
  function AfterClick(st: Japa): (st': Japa)
    ensures st'.count == st.count + 1 && st' == st.(count := st'.count)
  {
    st.(count := st.count + 1)
  }

  /** handleReset: the confirmation opens only for a positive count. */
  function AfterReset(st: Japa): (st': Japa)
    ensures st'.isResetModalOpen <==> st.isResetModalOpen || st.count > 0
    ensures st'.count == st.count && st' == st.(isResetModalOpen := st'.isResetModalOpen)
  {
    if st.count > 0 then st.(isResetModalOpen := true) else st
  }

  /** confirmReset: the counter goes to 0 and the confirmation closes. */
  function AfterConfirmReset(st: Japa): (st': Japa)
    ensures st'.count == 0 && !st'.isResetModalOpen
    ensures st' == st.(count := 0, isResetModalOpen := false)
  {
    st.(count := 0, isResetModalOpen := false)
  }

  /** The confirmation's cancel button. */
  function AfterCancelReset(st: Japa): (st': Japa)
    ensures !st'.isResetModalOpen && st' == st.(isResetModalOpen := false)
  {
    st.(isResetModalOpen := false)
  }

  /** The state after a press of Save, and the `count` field of the PUT it sends. */
  datatype SaveStart = SaveStart(state: Japa, sent: Option<Json>)

  /** handleSave's guards: a user, a positive count, and a Save button that is not
      disabled by a save in flight. */
  predicate SaveAllowed(loggedIn: bool, st: Japa)
  {
    loggedIn && st.count > 0 && !st.isSaving
  }

  /** The press of Save as written: the counter keeps showing the taps being sent. */
  function SaveSentAsWritten(loggedIn: bool, st: Japa): (r: SaveStart)
    ensures !SaveAllowed(loggedIn, st) ==> r == SaveStart(st, None)
    ensures SaveAllowed(loggedIn, st) ==>
              r.sent == Some(Num(st.count)) && r.state == st.(isSaving := true, inFlight := st.count)
  {
    if !SaveAllowed(loggedIn, st) then SaveStart(st, None)
    else SaveStart(st.(isSaving := true, inFlight := st.count), Some(Num(st.count)))
  }

  /** The answer to the save as written: success sets the counter to 0, anything else
      leaves it. */
  function SaveAnsweredAsWritten(st: Japa, outcome: Outcome): (st': Japa)
    ensures !st'.isSaving && st'.inFlight == 0
    ensures st'.count == if outcome.Succeeded? then 0 else st.count
  {
    st.(isSaving := false, inFlight := 0, count := if outcome.Succeeded? then 0 else st.count)
  }

  /** The corrected press of Save: the taps sent leave the counter. */
  function SaveSent(loggedIn: bool, st: Japa): (r: SaveStart)
    ensures !SaveAllowed(loggedIn, st) ==> r == SaveStart(st, None)
    ensures SaveAllowed(loggedIn, st) ==>
              r.sent == Some(Num(st.count)) && r.state == st.(isSaving := true, inFlight := st.count, count := 0)
  {
    if !SaveAllowed(loggedIn, st) then SaveStart(st, None)
    else SaveStart(st.(isSaving := true, inFlight := st.count, count := 0), Some(Num(st.count)))
  }

  /** The corrected answer: a success keeps the taps made meanwhile, anything else puts
      the taps sent back on the counter. */
  function SaveAnswered(st: Japa, outcome: Outcome): (st': Japa)
    ensures !st'.isSaving && st'.inFlight == 0
    ensures st'.count == if outcome.Succeeded? then st.count else st.count + st.inFlight
  {
    st.(isSaving := false, inFlight := 0, count := if outcome.Succeeded? then st.count else st.count + st.inFlight)
  }

  /** Whatever the guards let through is a count the server accepts. */
  lemma SentCountAccepted(loggedIn: bool, st: Japa)
    ensures SaveSent(loggedIn, st).sent.Some? <==> SaveAllowed(loggedIn, st)
    ensures SaveSent(loggedIn, st).sent.Some? ==> JapaRoutes.ValidCount(SaveSent(loggedIn, st).sent.value)
    ensures SaveSentAsWritten(loggedIn, st).sent == SaveSent(loggedIn, st).sent
  {
  }

  /** Every tap is saved, discarded by a reset, in flight, or on the counter. */
  predicate Accounted(st: Japa, taps: nat, saved: nat, discarded: nat)
  {
    taps == saved + discarded + st.inFlight + st.count && (!st.isSaving ==> st.inFlight == 0)
  }

  /** Every transition of the corrected page keeps the account, whatever the order of
      taps, resets and answers. */
  lemma CorrectedKeepsEveryTap(st: Japa, taps: nat, saved: nat, discarded: nat, loggedIn: bool, outcome: Outcome)
    requires Accounted(st, taps, saved, discarded)
    ensures Accounted(AfterClick(st), taps + 1, saved, discarded)
    ensures Accounted(AfterReset(st), taps, saved, discarded) && Accounted(AfterCancelReset(st), taps, saved, discarded)
    ensures Accounted(AfterConfirmReset(st), taps, saved, discarded + st.count)
    ensures Accounted(SaveSent(loggedIn, st).state, taps, saved, discarded)
    ensures st.isSaving ==>
              if outcome.Succeeded? then Accounted(SaveAnswered(st, outcome), taps, saved + st.inFlight, discarded)
              else Accounted(SaveAnswered(st, outcome), taps, saved, discarded)
  {
  }

  /** The account of the page as written, where the counter also shows the taps in
      flight. A success with taps made during the save drops those taps: they are
      neither saved nor shown nor discarded. */
  lemma AsWrittenLosesTapsDuringSave(st: Japa, taps: nat, saved: nat, discarded: nat)
    requires taps == saved + discarded + st.count
    requires st.isSaving && st.count > st.inFlight
    ensures var after := SaveAnsweredAsWritten(st, Succeeded);
            after.count == 0 && taps - (saved + st.inFlight + discarded + after.count) == st.count - st.inFlight > 0
  {
  }

  /** Three taps, Save, one more tap, and the save succeeds: the server receives 3, the
      counter shows 0, and the fourth tap is gone. The corrected page shows it. */
  lemma LostTapExample()
    ensures var s0 := AfterClick(AfterClick(AfterClick(Initial(Some(SeenFlag)))));
            var start := SaveSentAsWritten(true, s0);
            var done := SaveAnsweredAsWritten(AfterClick(start.state), Succeeded);
            start.sent == Some(Num(3)) && done.count == 0
    ensures var s0 := AfterClick(AfterClick(AfterClick(Initial(Some(SeenFlag)))));
            var start := SaveSent(true, s0);
            var done := SaveAnswered(AfterClick(start.state), Succeeded);
            start.sent == Some(Num(3)) && done.count == 1
  {
  }

  /** Without a tap or a reset during the save, the corrected page ends where the page as
      written does. */
  lemma CorrectedAgreesWhenIdle(loggedIn: bool, st: Japa, outcome: Outcome)
    requires SaveAllowed(loggedIn, st)
    ensures SaveAnswered(SaveSent(loggedIn, st).state, outcome).count
            == SaveAnsweredAsWritten(SaveSentAsWritten(loggedIn, st).state, outcome).count
  {
  }

  /** A successful save adds exactly the taps it removed from the counter to the user's
      stored total. */
  lemma SaveAddsToTotal(users: seq<ServerModels.User>, id: nat, st: Japa)
    requires id < |users| && SaveAllowed(true, st)
    ensures var start := SaveSent(true, st);
            JapaRoutes.AddJapa(users, id, start.sent.value)[id].japaCount
              == users[id].japaCount + start.state.inFlight
  {
  }

  class JapaPageState {
    var count: nat
    var isSaving: bool
    var isResetModalOpen: bool
    var isTourOpen: bool
    var inFlight: nat

    function State(): Japa
      reads this
    {
      Japa(count, isSaving, isResetModalOpen, isTourOpen, inFlight)
    }

    /** The first render and the mount effect that reads the tour flag. */
    constructor (stored: Option<string>)
      ensures State() == Initial(stored)
    {
      count := 0;
      isSaving := false;
      isResetModalOpen := false;
      isTourOpen := stored.None? || stored.value == "";
      inFlight := 0;
    }

    method HandleTourComplete() returns (stored: string)
      modifies this
      ensures (State(), stored) == AfterTourComplete(old(State()))
    {
      stored := SeenFlag;
      isTourOpen := false;
    }

    method HandleClick()
      modifies this
      ensures State() == AfterClick(old(State()))
    {
      count := count + 1;
    }

    method HandleReset()
      modifies this
      ensures State() == AfterReset(old(State()))
    {
      if count > 0 {
        isResetModalOpen := true;
      }
    }

    method ConfirmReset()
      modifies this
      ensures State() == AfterConfirmReset(old(State()))
    {
      count := 0;
      isResetModalOpen := false;
    }

    method CancelReset()
      modifies this
      ensures State() == AfterCancelReset(old(State()))
    {
      isResetModalOpen := false;
    }

    /** The corrected handleSave up to the request; returns the `count` field sent (None:
        no request). */
    method BeginSave(loggedIn: bool) returns (sent: Option<Json>)
      modifies this
      ensures SaveStart(State(), sent) == SaveSent(loggedIn, old(State()))
    {
      if !loggedIn || count <= 0 || isSaving {
        return None;
      }
      sent := Some(Num(count));
      isSaving := true;
      inFlight := count;
      count := 0;
    }

    /** handleSave up to the request, as written: the counter keeps the taps sent. */
    method BeginSaveAsWritten(loggedIn: bool) returns (sent: Option<Json>)
      modifies this
      ensures SaveStart(State(), sent) == SaveSentAsWritten(loggedIn, old(State()))
    {
      if !loggedIn || count <= 0 || isSaving {
        return None;
      }
      sent := Some(Num(count));
      isSaving := true;
      inFlight := count;
    }

    /** handleSave after the request's answer, as written: `setCount(0)` on success. */
    method FinishSaveAsWritten(outcome: Outcome)
      modifies this
      ensures State() == SaveAnsweredAsWritten(old(State()), outcome)
    {
      if outcome.Succeeded? {
        count := 0;
      }
      inFlight := 0;
      isSaving := false;
    }

    /** The corrected handleSave after the request's answer. */
    method FinishSave(outcome: Outcome)
      modifies this
      ensures State() == SaveAnswered(old(State()), outcome)
    {
      if !outcome.Succeeded? {
        count := count + inFlight;
      }
      inFlight := 0;
      isSaving := false;
    }
  }
}
