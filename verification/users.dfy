/**
 The `bienestar_users` collection: the registered users of the referral
 programme and the two lookups the components perform on it (by phone and
 by id). The collection is a sequence in the order the store returns it;
 "the first match" is the first element of that order.
 */
module Users {
  import opened Base

  /** One document of `bienestar_users`. `referredBy` is a weak reference:
      an opaque id that need not denote any user. */
  datatype User = User(
    id: string,
    name: string,
    phone: string,
    timestamp: int,
    referredBy: Option<string>)

  /** Index of the first user whose phone equals `phone`, if any. */
  function FirstWithPhone(users: seq<User>, phone: string): (r: Option<nat>)
    ensures r.Some? ==> r.value < |users| && users[r.value].phone == phone
    ensures r.Some? ==> forall j :: 0 <= j < r.value ==> users[j].phone != phone
    ensures r.None? <==> forall j :: 0 <= j < |users| ==> users[j].phone != phone
  {
    if users == [] then None
    else if users[0].phone == phone then Some(0)
    else match FirstWithPhone(users[1..], phone)
      case None => None
      case Some(k) => Some(k + 1)
  }

  /** The first loaded user carrying `id`, if any. */
  function FirstWithId(users: seq<User>, id: string): (r: Option<User>)
    ensures r.Some? ==> exists k :: 0 <= k < |users| && users[k] == r.value
                                    && (forall j :: 0 <= j < k ==> users[j].id != id)
    ensures r.Some? ==> r.value.id == id
    ensures r.None? <==> forall j :: 0 <= j < |users| ==> users[j].id != id
  {
    if users == [] then None
    else if users[0].id == id then Some(users[0])
    else
      var r := FirstWithId(users[1..], id);
      assert r.Some? ==> exists k :: 0 <= k < |users| && users[k] == r.value
                                     && (forall j :: 0 <= j < k ==> users[j].id != id) by {
        if r.Some? {
          var k :| 0 <= k < |users| - 1 && users[1..][k] == r.value
                   && (forall j :: 0 <= j < k ==> users[1..][j].id != id);
          assert users[k + 1] == r.value;
          assert forall j :: 0 <= j < k + 1 ==> users[j].id != id by {
            forall j | 0 <= j < k + 1 ensures users[j].id != id {
              if j > 0 { assert users[j] == users[1..][j - 1]; }
            }
          }
        }
      }
      r
  }

  /** Number of users whose phone equals `phone`. */
  function CountWithPhone(users: seq<User>, phone: string): (n: nat)
    ensures n <= |users|
    ensures n == 0 <==> FirstWithPhone(users, phone).None?
  {
    if users == [] then 0
    else (if users[0].phone == phone then 1 else 0) + CountWithPhone(users[1..], phone)
  }

  lemma {:induction false} CountWithPhoneAppend(users: seq<User>, u: User, phone: string)
    ensures CountWithPhone(users + [u], phone)
            == CountWithPhone(users, phone) + (if u.phone == phone then 1 else 0)
    decreases |users|
  {
    if users == [] {
      assert [u][1..] == [];
    } else {
      assert (users + [u])[1..] == users[1..] + [u];
      CountWithPhoneAppend(users[1..], u, phone);
    }
  }

  /** Appending a record does not change which earlier record is found first. */
  lemma FirstWithPhoneAppend(users: seq<User>, u: User, phone: string)
    requires FirstWithPhone(users, phone).Some?
    ensures FirstWithPhone(users + [u], phone) == FirstWithPhone(users, phone)
  {
    var k := FirstWithPhone(users, phone).value;
    assert (users + [u])[k] == users[k];
    assert forall j :: 0 <= j < k ==> (users + [u])[j] == users[j];
  }
}
