/**
 The referral-programme login screen and dashboard: login by phone, the live
 referral list of the logged-in user, the gamification panel and logout.
 The store read is a parameter: the user collection as it is when the query
 runs, and whether the query reached the server at all.
 */
module Login {
  import opened Base
  import opened Phone
  import opened Users
  import opened Referrals

  /** The message under the phone field. */
  datatype LoginError = NoError | NumberNotFound | ServerUnreachable

  /** The screen's state: the phone field, the logged-in user, the referral
      list fed by the subscription, and the error message. */
  datatype LoginState = LoginState(
    phone: string,
    user: Option<User>,
    referrals: seq<User>,
    error: LoginError)

  /** The login handler: an empty input does nothing; otherwise the input is
      normalised and the first user with that phone is logged in. */
  function HandleLogin(st: LoginState, input: string, users: seq<User>, reachable: bool): (r: LoginState)
    ensures input == "" ==> r == st
    ensures r.phone == st.phone && r.referrals == st.referrals
    ensures input != "" && !reachable ==> r.error == ServerUnreachable && r.user == st.user
    ensures input != "" && reachable && r.error == NoError
            ==> exists k :: 0 <= k < |users| && r.user == Some(users[k])
                            && users[k].phone == Normalize(input)
                            && (forall j :: 0 <= j < k ==> users[j].phone != Normalize(input))
    ensures input != "" && reachable
            ==> (r.error == NumberNotFound
                 <==> forall j :: 0 <= j < |users| ==> users[j].phone != Normalize(input))
    ensures input != "" && reachable
            ==> (r.error == NoError
                 <==> exists j :: 0 <= j < |users| && users[j].phone == Normalize(input))
    ensures r.error == NumberNotFound ==> r.user == st.user
  {
    if input == "" then st
    else if !reachable then st.(error := ServerUnreachable)
    else
      match FirstWithPhone(users, Normalize(input))
      case Some(k) => st.(user := Some(users[k]), error := NoError)
      case None => st.(error := NumberNotFound)
  }

  /** The mount effect: a non-empty `phone` link parameter fills the field and logs in. */
  function AutoLogin(st: LoginState, param: Option<string>, users: seq<User>, reachable: bool): (r: LoginState)
    ensures (param.None? || param == Some("")) ==> r == st
    ensures param.Some? && param.value != "" ==> r.phone == param.value
    ensures param.Some? && param.value != "" ==> r == HandleLogin(st.(phone := param.value), param.value, users, reachable)
  {
    match param
    case Some(p) => if p != "" then HandleLogin(st.(phone := p), p, users, reachable) else st
    case None => st
  }

  /** The subscription callback: with a user logged in, the referral list is
      replaced by that user's referrals, most recent first. */
  function Listen(st: LoginState, users: seq<User>): (r: LoginState)
    ensures st.user.None? ==> r == st
    ensures r.user == st.user && r.phone == st.phone && r.error == st.error
    ensures st.user.Some? ==> NewestFirst(r.referrals)
    ensures st.user.Some? ==> forall u :: u in r.referrals <==> u in users && u.referredBy == Some(st.user.value.id)
    ensures st.user.Some? ==> |r.referrals| == ReferralCount(users, st.user.value.id)
    ensures st.user.Some? ==> multiset(r.referrals) == multiset(ReferredBy(users, st.user.value.id))
    ensures st.user.Some? ==> r.referrals == ListReferrals(users, st.user.value.id)
  {
    match st.user
    case None => st
    case Some(u) => st.(referrals := ListReferrals(users, u.id))
  }

  /** Logout: back to the login screen with an empty field and list. */
  function HandleLogout(st: LoginState): (r: LoginState)
    ensures r.user.None? && r.phone == "" && r.referrals == []
    ensures r.error == st.error
  {
    st.(user := None, phone := "", referrals := [])
  }

  /** The dashboard's gamification panel, shown only while a user is logged in. */
  function Dashboard(st: LoginState): (r: Option<Progress>)
    ensures r.Some? <==> st.user.Some?
    ensures r.Some? ==> r.value.count == |st.referrals|
    ensures r.Some? ==> r.value == ProgressOf(|st.referrals|)
  {
    if st.user.Some? then Some(ProgressOf(|st.referrals|)) else None
  }

  /** Two phone inputs with the same digits reach the same account. */
  lemma LoginIgnoresFormatting(st: LoginState, a: string, b: string, users: seq<User>)
    requires a != "" && b != "" && Normalize(a) == Normalize(b)
    ensures HandleLogin(st, a, users, true) == HandleLogin(st, b, users, true)
  {
  }
}
