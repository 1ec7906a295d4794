/** The pop-up sign-in form (client/src/Components/AuthModal.js): two steps, a looser
    e-mail check than the card's, and a close action that resets the form. */
module AuthModal {
  import opened Wrappers
  import opened Text
  import opened JsValues
  import AuthRoutes
  import AuthCard

  datatype Step = EnterEmail | EnterOtp

  datatype ModalState = ModalState(step: Step, name: string, email: string, otpId: string, otp: string,
                                   devOtp: Option<string>, sending: bool, verifying: bool, verified: bool)

  function InitialModal(): ModalState
  {
    ModalState(EnterEmail, "", "", "", "", None, false, false, false)
  }

  /** sendOtp's check: a non-empty address containing an '@'. */
  predicate ModalEmailOk(email: string)
  {
    email != "" && Contains(email, "@")
  }

  lemma HasAt(email: string, i: nat)
    requires i < |email| && email[i] == '@'
    ensures Contains(email, "@")
  {
    assert OccursAt(email, "@", i) by {
      assert email[i..i + 1] == [email[i]];
    }
  }

  /** Every address the card accepts is accepted by the modal. */
  lemma CardCheckIsStricter(email: string)
    requires AuthCard.IsEmailValid(email)
    ensures ModalEmailOk(email)
  {
    HasAt(email, AuthCard.AtIndex(email));
  }

  /** An address the modal lets through passes send-otp's checks. */
  lemma ModalEmailAcceptedByServer(email: string)
    requires ModalEmailOk(email)
    ensures AuthRoutes.SendOtpCheck(AuthRoutes.SendOtpBody(Undefined, Str(email))).None?
  {
  }

  /** The outcome of the send-otp request: the ok reply's fields, or anything else. */
  datatype SendResult = SendOk(otpId: string, devOtp: Option<string>) | SendFailed

  datatype VerifyResult = VerifyOk | VerifyFailed

  /** sendOtp, with the request's outcome. A refused address makes no request. */
  function SendOtp(st: ModalState, result: SendResult): (st': ModalState)
    ensures !ModalEmailOk(st.email) ==> st' == st
    ensures ModalEmailOk(st.email) && result.SendOk? ==>
              st' == st.(otpId := result.otpId, devOtp := result.devOtp, step := EnterOtp, sending := false)
    ensures ModalEmailOk(st.email) && result.SendFailed? ==> st' == st.(sending := false)
  {
    if !ModalEmailOk(st.email) then st
    else if result.SendOk? then st.(otpId := result.otpId, devOtp := result.devOtp, step := EnterOtp, sending := false)
    else st.(sending := false)
  }

  /** verifyOtp, with the request's outcome. An empty code makes no request. */
  function VerifyOtp(st: ModalState, result: VerifyResult): (st': ModalState)
    ensures st'.verified <==> st.verified || (st.otp != "" && result.VerifyOk?)
    ensures st'.step == st.step && st'.otp == st.otp && st'.email == st.email
  {
    if st.otp == "" then st
    else if result.VerifyOk? then st.(verified := true, verifying := false)
    else st.(verifying := false)
  }

  /** The Back button on the code step. */
  function Back(st: ModalState): (st': ModalState)
    ensures st'.step == EnterEmail && st'.otp == ""
    ensures st'.email == st.email && st'.name == st.name && st'.otpId == st.otpId
  {
    st.(step := EnterEmail, otp := "")
  }

  /** `close()`: every form field returns to its initial value; the two request flags
      are not touched. */
  function Close(st: ModalState): (st': ModalState)
    ensures st' == InitialModal().(sending := st.sending, verifying := st.verifying, verified := st.verified)
  {
    st.(step := EnterEmail, name := "", email := "", otp := "", otpId := "", devOtp := None)
  }

  /** Closing twice is closing once, and a closed form is on the e-mail step with empty
      fields whatever happened before. */
  lemma CloseIdempotent(st: ModalState)
    ensures Close(Close(st)) == Close(st)
    ensures Close(st).step == EnterEmail && Close(st).email == "" && Close(st).otp == ""
  {
  }

  /** A closed form makes no send request until an address is typed again. */
  lemma ClosedFormSendsNothing(st: ModalState, result: SendResult)
    ensures SendOtp(Close(st), result) == Close(st)
  {
  }
  /** The modal's state variables, set by its handlers. */
  class ModalForm {
    var step: Step
    var name: string
    var email: string
    var otpId: string
    var otp: string
    var devOtp: Option<string>
    var sending: bool
    var verifying: bool
    var verified: bool

    function State(): ModalState
      reads this
    {
      ModalState(step, name, email, otpId, otp, devOtp, sending, verifying, verified)
    }

    constructor ()
      ensures State() == InitialModal()
    {
      step, name, email, otpId, otp, devOtp := EnterEmail, "", "", "", "", None;
      sending, verifying, verified := false, false, false;
    }

    /** sendOtp */
    method HandleSend(result: SendResult)
      modifies this
      ensures State() == SendOtp(old(State()), result)
    {
      if !ModalEmailOk(email) {
        return;
      }
      sending := true;
      if result.SendOk? {
        otpId := result.otpId;
        devOtp := result.devOtp;
        step := EnterOtp;
      }
      sending := false;
    }

    /** verifyOtp */
    method HandleVerify(result: VerifyResult)
      modifies this
      ensures State() == VerifyOtp(old(State()), result)
    {
      if otp == "" {
        return;
      }
      verifying := true;
      if result.VerifyOk? {
        verified := true;
      }
      verifying := false;
    }

    method GoBack()
      modifies this
      ensures State() == Back(old(State()))
    {
      step := EnterEmail;
      otp := "";
    }

    /** close */
    method CloseForm()
      modifies this
      ensures State() == Close(old(State()))
    {
      step := EnterEmail;
      name := "";
      email := "";
      otp := "";
      otpId := "";
      devOtp := None;
    }
  }
}
