/**
 The referral programme's registration form: validate, normalise the phone,
 log in the existing user with that phone or create a new one that carries
 the referrer id of the inbound link. The store's failures are a parameter;
 a document id and the clock reading are inputs.
 */
module Landing {
  import opened Base
  import opened Phone
  import opened Users
  import opened Referrals
  import opened Login

  /** The form fields as typed. */
  datatype Form = Form(name: string, phone: string)

  /** Which store call, if any, raises. */
  datatype Fault = NoFault | LookupFails | CreateFails

  /** What the submission leads to. */
  datatype Outcome =
    | Ignored                                       // validation failed, nothing happens
    | Registered(userId: string, redirectPhone: string) // redirect to the login page with `?phone=`
    | Failed                                        // the alert; the form can be sent again

  datatype Submission = Submission(users: seq<User>, outcome: Outcome, submitting: bool)

  /** The mount effect: a non-empty `ref` link parameter becomes the referrer id. */
  function ReferrerFromLink(param: Option<string>): (r: Option<string>)
    ensures r.Some? ==> r.value != "" && param == r
    ensures param.Some? && param.value != "" ==> r == param
  {
    match param
    case Some(ref) => if ref != "" then Some(ref) else None
    case None => None
  }

  /** The value stored in `referredBy`: the referrer id when it is non-empty,
      otherwise null. */
  function StoredReferrer(referrerId: Option<string>): (r: Option<string>)
    ensures r.Some? <==> referrerId.Some? && referrerId.value != ""
    ensures r.Some? ==> r == referrerId
  {
    match referrerId
    case Some(ref) => if ref != "" then Some(ref) else None
    case None => None
  }

  /** The record appended for a new phone. */
  function NewUser(form: Form, referrerId: Option<string>, newId: string, now: int): User {
    User(newId, form.name, Normalize(form.phone), now, StoredReferrer(referrerId))
  }

  /** The form's submit handler. */
  function Submit(users: seq<User>, form: Form, referrerId: Option<string>,
                  newId: string, now: int, fault: Fault, submitting: bool): (r: Submission)
    // Validation: an empty field returns before any store access.
    ensures form.name == "" || form.phone == "" ==> r == Submission(users, Ignored, submitting)
    // A failing store call changes nothing and re-enables the form.
    ensures r.outcome.Failed? ==> r.users == users && !r.submitting
    ensures form.name != "" && form.phone != ""
            && (fault == LookupFails
                || (fault == CreateFails && FirstWithPhone(users, Normalize(form.phone)).None?))
            ==> r == Submission(users, Failed, false)
    ensures r.outcome.Registered? ==> r.submitting
    ensures r.outcome.Registered? ==> r.outcome.redirectPhone == Normalize(form.phone)
    // Existing phone: the first such user's id, and the store is untouched.
    ensures form.name != "" && form.phone != "" && fault != LookupFails
            && FirstWithPhone(users, Normalize(form.phone)).Some?
            ==> r.users == users
                && r.outcome == Registered(users[FirstWithPhone(users, Normalize(form.phone)).value].id,
                                           Normalize(form.phone))
    // New phone: exactly one record is appended, the others stay as they were.
    ensures form.name != "" && form.phone != "" && fault == NoFault
            && FirstWithPhone(users, Normalize(form.phone)).None?
            ==> |r.users| == |users| + 1 && r.users[..|users|] == users
                && r.users[|users|].id == newId && r.outcome.Registered? && r.outcome.userId == newId
                && r.users[|users|].name == form.name
                && r.users[|users|].phone == Normalize(form.phone)
                && r.users[|users|].timestamp == now
                && r.users[|users|].referredBy == StoredReferrer(referrerId)
    ensures r.users == users || r.users == users + [NewUser(form, referrerId, newId, now)]
  {
    if form.name == "" || form.phone == "" then Submission(users, Ignored, submitting)
    else
      var clean := Normalize(form.phone);
      if fault == LookupFails then Submission(users, Failed, false)
      else
        match FirstWithPhone(users, clean)
        case Some(k) => Submission(users, Registered(users[k].id, clean), true)
        case None =>
          if fault == CreateFails then Submission(users, Failed, false)
          else
            var u := NewUser(form, referrerId, newId, now);
            assert (users + [u])[..|users|] == users;
            Submission(users + [u], Registered(newId, clean), true)
  }

  /** Registering the same phone twice gives the same id both times, the second
      call changes nothing, and the phone ends up on exactly one record when it
      was on none before. */
  lemma RegisterTwice(users: seq<User>, f1: Form, f2: Form, ref1: Option<string>, ref2: Option<string>,
                      id1: string, id2: string, t1: int, t2: int)
    requires f1.name != "" && f1.phone != "" && f2.name != "" && f2.phone != ""
    requires Normalize(f1.phone) == Normalize(f2.phone)
    ensures var s1 := Submit(users, f1, ref1, id1, t1, NoFault, false);
            var s2 := Submit(s1.users, f2, ref2, id2, t2, NoFault, false);
            && s1.outcome.Registered? && s2.outcome == s1.outcome
            && s2.users == s1.users
            && CountWithPhone(s2.users, Normalize(f1.phone))
               == (if CountWithPhone(users, Normalize(f1.phone)) == 0 then 1
                   else CountWithPhone(users, Normalize(f1.phone)))
  {
    var p := Normalize(f1.phone);
    var s1 := Submit(users, f1, ref1, id1, t1, NoFault, false);
    if FirstWithPhone(users, p).Some? {
      FirstWithPhoneAppend(users, NewUser(f1, ref1, id1, t1), p);
    } else {
      var u := NewUser(f1, ref1, id1, t1);
      CountWithPhoneAppend(users, u, p);
      assert s1.users == users + [u];
      assert FirstWithPhone(s1.users, p) == Some(|users|) by {
        assert s1.users[|users|].phone == p;
        assert forall j :: 0 <= j < |users| ==> s1.users[j] == users[j];
      }
    }
  }

  /** No two records share a phone. */
  predicate PhonesUnique(users: seq<User>) {
    forall i, j :: 0 <= i < j < |users| ==> users[i].phone != users[j].phone
  }

  /** Sequential registration never introduces a duplicate phone. */
  lemma SubmitKeepsPhonesUnique(users: seq<User>, form: Form, referrerId: Option<string>,
                                newId: string, now: int, fault: Fault, submitting: bool)
    requires PhonesUnique(users)
    ensures PhonesUnique(Submit(users, form, referrerId, newId, now, fault, submitting).users)
  {
  }

  /** A new user who came in through `ref` shows up in the referrer's list and
      adds exactly one to the referrer's count; nobody else's count moves. */
  lemma ReferredRegistration(users: seq<User>, form: Form, ref: string,
                             newId: string, now: int, other: string)
    requires form.name != "" && form.phone != "" && ref != ""
    requires FirstWithPhone(users, Normalize(form.phone)).None?
    requires other != ref
    ensures var s := Submit(users, form, Some(ref), newId, now, NoFault, false);
            && s.users[|users|] in ListReferrals(s.users, ref)
            && ReferralCount(s.users, ref) == ReferralCount(users, ref) + 1
            && ReferralCount(s.users, other) == ReferralCount(users, other)
  {
    var u := NewUser(form, Some(ref), newId, now);
    ReferralAdded(users, u, ref);
    ReferralUnrelated(users, u, other);
  }

  /** A login of an existing phone never changes any referral count. */
  lemma ExistingLoginKeepsCounts(users: seq<User>, form: Form, referrerId: Option<string>,
                                 newId: string, now: int, id: string)
    requires FirstWithPhone(users, Normalize(form.phone)).Some?
    ensures ReferralCount(Submit(users, form, referrerId, newId, now, NoFault, false).users, id)
            == ReferralCount(users, id)
  {
  }

  /** Following the redirect logs the registered user in: the login page
      finds the id the registration returned. */
  lemma RedirectLogsIn(users: seq<User>, form: Form, referrerId: Option<string>,
                       newId: string, now: int, st: LoginState)
    requires form.name != "" && form.phone != ""
    requires Normalize(form.phone) != ""
    ensures var s := Submit(users, form, referrerId, newId, now, NoFault, false);
            var after := AutoLogin(st, Some(s.outcome.redirectPhone), s.users, true);
            && after.user.Some? && after.user.value.id == s.outcome.userId
            && after.error == NoError
  {
    var s := Submit(users, form, referrerId, newId, now, NoFault, false);
    var p := Normalize(form.phone);
    NormalizeIdempotent(form.phone);
    if FirstWithPhone(users, p).None? {
      assert FirstWithPhone(s.users, p) == Some(|users|) by {
        assert s.users[|users|].phone == p;
        assert forall j :: 0 <= j < |users| ==> s.users[j] == users[j];
      }
    }
  }

  /** A phone field without digits is accepted, stored as the empty phone and
      redirected with an empty `phone` parameter, so the login page does not log
      the new user in automatically. */
  lemma DigitFreePhoneNotLoggedIn(users: seq<User>, form: Form, referrerId: Option<string>,
                                  newId: string, now: int, st: LoginState)
    requires form.name != "" && form.phone != ""
    requires forall i :: 0 <= i < |form.phone| ==> !IsDigit(form.phone[i])
    ensures var s := Submit(users, form, referrerId, newId, now, NoFault, false);
            && s.outcome.Registered? && s.outcome.redirectPhone == ""
            && AutoLogin(st, Some(s.outcome.redirectPhone), s.users, true) == st
  {
    DigitFreeEmpty(form.phone);
  }
}
