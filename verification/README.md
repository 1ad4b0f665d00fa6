# Funnel metrics and referral programme — a Dafny model

This project models the decision logic of three React components of the
funnel site: the admin dashboard (`AdminPanel`), the referral-programme
login and progress page (`BienestarLogin`) and the referral-programme
registration form (`BienestarLanding`). The logic is lifted out of the
components as pure functions over an abstract record store:

- the `bienestar_users` collection is a `seq<User>` in store order;
- the dashboard's session window is a `seq<Session>`;
- the server totals, the clock reading, a document id, the link
  parameters (`ref`, `phone`) and the store's failures are inputs.

Modules, leaf first:

| module | file | what it holds |
|---|---|---|
| `Base` | base.dfy | `Option`, the exact `Math.round` percentage, subsequences |
| `Phone` | phone.dfy | digits-only phone normalisation |
| `Users` | users.dfy | the user record and lookups by phone and by id |
| `Funnel` | funnel.dfy | step conversion, progress steps, lead conversion, referrer column |
| `Referrals` | referrals.dfy | the referral list, its count, progress percentage and tiers |
| `Login` | login.dfy | login by phone, auto-login, the live list, logout, the dashboard |
| `Landing` | landing.dfy | register-or-login with an optional referrer |

`FunnelStep` is defined in a types file that is not part of this model. It is
modelled as a closed datatype `Admin | SalesPage | Stage(title)`. The
enum's declaration order, which `Object.values` walks, is a parameter
`declared`.

Three behaviours of the code are worth knowing, and the model keeps them as written:

- Registration checks only that name and phone are non-empty. A phone
  without any digit is accepted and stored as the empty string.
  `Landing.DigitFreePhoneNotLoggedIn` shows the consequence: the redirect
  carries an empty `phone` parameter, so the login page does not log the
  new user in automatically.
- The middle tier (10 to 14 referrals) shows the fixed next goal, 15
  (`Tier.GoalReached(next)`), not the number of referrals still missing.
- A failed or unsuccessful login leaves any previously logged-in user in
  place. Only the error message changes.

## Model

| member | source | states |
|---|---|---|
| Base.RoundPercent | components/AdminPanel.tsx:176 | the result is the integer nearest to 100·part/whole, with halves rounded up (`Math.round` of a nonnegative percentage) |
| Base.RoundPercentUnique | components/AdminPanel.tsx:176 | no other integer is nearest with ties up, so the rounding characterisation determines the percentage |
| Base.RoundPercentAtMost100 | components/AdminPanel.tsx:175-176 | a part no bigger than the whole rounds to at most 100 |
| Base.RoundPercentMonotone | components/AdminPanel.tsx:175-176 | a larger part never gives a smaller percentage of the same whole |
| Phone.Normalize | components/BienestarLogin.tsx:59 | the normalised phone holds only digits and is no longer than the input |
| Phone.NormalizeAppend | components/BienestarLanding.tsx:35 | normalising a concatenation is concatenating the normalisations |
| Phone.NormalizeIdempotent | components/BienestarLogin.tsx:59 | normalising twice equals normalising once |
| Phone.NormalizeKeepsDigits | components/BienestarLogin.tsx:59 | each digit occurs in the output exactly as often as in the input, and no other character occurs |
| Phone.NormalizeIsSubsequence | components/BienestarLogin.tsx:59 | the output is the input with characters deleted, so the digits keep their order |
| Phone.DigitFreeCollapse | components/BienestarLanding.tsx:29-35 | any two inputs without digits normalise to the same empty key |
| Users.FirstWithPhone | components/BienestarLogin.tsx:60-64 | finds the first record whose phone matches; none is found exactly when no record matches |
| Users.FirstWithId | components/AdminPanel.tsx:473 | `find` by id: returns the first loaded user with the id; nothing is returned exactly when no user has it |
| Users.FirstWithPhoneAppend | components/BienestarLanding.tsx:44-56 | appending a record never changes which earlier record a phone lookup finds |
| Funnel.CountReached | components/AdminPanel.tsx:175 | the count of sessions that reached the step is at most the session count; it is 0 exactly when none reached it and the full count exactly when all did; an absent `stepsReached` counts as not reached |
| Funnel.CountReachedAppend | components/AdminPanel.tsx:175 | a session appended to the window adds one to the reached count exactly when it reached the step, so the count is the number of reaching sessions |
| Funnel.Conversion | components/AdminPanel.tsx:173-177 | 0 for an empty window; otherwise the rounded percentage of sessions that reached the step; always within 0..100 |
| Funnel.OneInFourIsTwentyFive | components/AdminPanel.tsx:173-177 | one reaching session out of four gives 25 |
| Funnel.CountReachedMonotone | components/AdminPanel.tsx:175 | adding a step to one session never lowers the reached count of any step |
| Funnel.ConversionMonotone | components/AdminPanel.tsx:175-176 | adding a step to one session never lowers the conversion of any step |
| Funnel.ProgressSteps | components/AdminPanel.tsx:179 | the progress steps exclude `Admin` and contain every other declared step |
| Funnel.ProgressStepsKeepOrder | components/AdminPanel.tsx:179 | the progress steps are a subsequence of the declaration, so they keep the declaration order |
| Funnel.ProgressStepsLength | components/AdminPanel.tsx:179 | for a declaration without repeats, exactly one element (`Admin`) is dropped when it is declared |
| Funnel.LeadConversion | components/AdminPanel.tsx:278 | 0 when there are no sessions; otherwise the rounded percentage of leads over sessions, which is at most 100 when leads do not exceed sessions |
| Funnel.LeadConversionExample | components/AdminPanel.tsx:278 | 10 leads over 50 sessions give 20, and 0 over 0 gives 0 |
| Funnel.LeadConversionUnclamped | components/AdminPanel.tsx:278 | 2 leads over 1 session give 200: the value is not clamped |
| Funnel.ResolveReferrer | components/AdminPanel.tsx:473 | a null, absent or empty `referredBy` gives no referrer; a reference that no loaded user carries also gives no referrer; otherwise the result is the first loaded user with exactly that id |
| Funnel.ReferrerCell | components/AdminPanel.tsx:491-499 | the cell names a referrer exactly when some loaded user carries the referenced non-empty id; the name is that of the first such user; every other row shows "Orgánico", never an error |
| Referrals.ReferredBy | components/BienestarLogin.tsx:35-38 | the query result holds exactly the users whose `referredBy` is the id |
| Referrals.ReferredByAppend | components/BienestarLogin.tsx:35-38 | a new record joins the query result at the end exactly when it names the id |
| Referrals.Insert | components/BienestarLogin.tsx:46 | inserting into a newest-first list keeps it newest first and adds exactly that element |
| Referrals.SortNewestFirst | components/BienestarLogin.tsx:46 | the sorted list has non-increasing timestamps and is a permutation of the input |
| Referrals.InsertStable | components/BienestarLogin.tsx:46 | an inserted element goes ahead of every element with its timestamp and behind none of them |
| Referrals.SortStable | components/BienestarLogin.tsx:46 | among elements with one timestamp, the sorted list keeps the input order (a stable sort) |
| Referrals.ListReferrals | components/BienestarLogin.tsx:35-47 | the referral list is newest first, is a permutation of the query result, and holds exactly the users that name the id |
| Referrals.ReferralCount | components/BienestarLogin.tsx:95 | the count equals the number of store records that name the id |
| Referrals.ReferralAdded | components/BienestarLogin.tsx:35-47 | a new record naming the id appears in the list, and the count rises by exactly one |
| Referrals.ReferralUnrelated | components/BienestarLogin.tsx:35-47 | a new record naming another referrer, or none, leaves the list and the count unchanged |
| Referrals.ProgressPercent | components/BienestarLogin.tsx:96-98 | the percentage lies in 0..100, equals 100 exactly when the count reaches the goal of 10, and is 10 per referral below it |
| Referrals.ProgressOf | components/BienestarLogin.tsx:95-100 | the goal flag holds exactly from 10 referrals and the ultimate flag exactly from 15, so the ultimate flag implies the goal flag; exactly one tier holds: in progress with 10 − count ≥ 1 remaining below 10, first goal for 10..14 with next goal 15, ultimate goal from 15; the badge and the banner show exactly in the middle and top tiers; the bar is full exactly when the goal is met |
| Referrals.TierBoundaries | components/BienestarLogin.tsx:211-231 | 9 referrals leave 1 remaining, 10 and 14 reach the first goal, 15 reaches the ultimate goal |
| Login.HandleLogin | components/BienestarLogin.tsx:53-77 | empty input changes nothing; with the server unreachable only the error is set; with the server reachable, the login succeeds exactly when some user has the normalised phone, and then the first such user is logged in; "not found" is reported exactly when no user has that phone and leaves the user unchanged; the field and the list are never touched |
| Login.AutoLogin | components/BienestarLogin.tsx:22-29 | an absent or empty `phone` parameter changes nothing; a non-empty one fills the field and logs in with it |
| Login.Listen | components/BienestarLogin.tsx:32-51 | with nobody logged in nothing changes; otherwise the list is the stable newest-first sort of the query for users referred by the logged-in user: it holds exactly those users with their multiplicities, and its length is their count |
| Login.HandleLogout | components/BienestarLogin.tsx:88-93 | logout clears the user, the phone field and the referral list |
| Login.Dashboard | components/BienestarLogin.tsx:95-102 | the gamification panel exists exactly when a user is logged in, counts the loaded referrals, and carries the percentage, flags and tier of that count |
| Login.LoginIgnoresFormatting | components/BienestarLogin.tsx:59-60 | two inputs with the same digits log into the same account |
| Landing.ReferrerFromLink | components/BienestarLanding.tsx:15-22 | only a non-empty `ref` parameter becomes the referrer id, unchanged |
| Landing.StoredReferrer | components/BienestarLanding.tsx:53 | `referredBy` is set exactly when the referrer id is non-empty, to that id unchanged; no existence check is made |
| Landing.Submit | components/BienestarLanding.tsx:27-67 | an empty name or phone returns before any store access; a failing lookup, or a failing create for a new phone, always yields the failure outcome, changes nothing and makes the form submittable again; an existing phone returns the first matching id and leaves the store unchanged; a new phone appends exactly one record with the given name, the normalised phone, the timestamp, the new id and the stored referrer, and leaves the others unchanged; the redirect carries the normalised phone |
| Landing.RegisterTwice | components/BienestarLanding.tsx:39-57 | two sequential registrations of one phone return the same id; the second changes nothing; the phone ends on exactly one record when it was on none |
| Landing.SubmitKeepsPhonesUnique | components/BienestarLanding.tsx:37-57 | sequential registration never creates a second record with a phone already present |
| Landing.ReferredRegistration | components/BienestarLanding.tsx:48-56 | a new user registered through `ref` appears in the referrer's list, the referrer's count rises by one, and every other count stays the same |
| Landing.ExistingLoginKeepsCounts | components/BienestarLanding.tsx:44-46 | registering an existing phone changes no referral count, whatever referrer is supplied |
| Landing.RedirectLogsIn | components/BienestarLanding.tsx:59-61 | for a phone with at least one digit, following the redirect logs in the user whose id the registration returned |
| Landing.DigitFreePhoneNotLoggedIn | components/BienestarLanding.tsx:29-61 | a phone without digits still registers, under the empty phone, and the redirect does not log the user in |

## Left out

- Store I/O: the live `onSnapshot` subscriptions and their unsubscribe, the `getDocs`, `addDoc` and `getCountFromServer` calls. The store is a sequence, the query result is passed in, and the totals are inputs.
- The dashboard's 100-record windows, ordered by `lastActive` or `timestamp`. They are store queries, so the window is passed in as a parameter.
- The order of a store query result. "First match" means first in the given sequence.
- The document id the store assigns on `addDoc`. It is an input, and its freshness is neither assumed nor needed.
- The lookup-then-create race between concurrent registrations. Registration is modelled sequentially.
- The admin password gate, the refresh button, the disabled mass-delete alert, and the `isLoading`, `isRefreshing` and `copiedLine` flags. They are presentation state.
- WhatsApp links, copying the referral link to the clipboard, and rewriting the URL with `history.replaceState`. The `location.href` redirect is modelled only as the phone it carries.
- `URLSearchParams` parsing. The `ref` and `phone` parameters are given as options.
- The video, feed and mock-login screens, rendering, CSS, and `Date` formatting. Timestamps are opaque integers.
- Base.RoundPercent: computes exact rational rounding. JavaScript computes `Math.round((part / whole) * 100)` in binary floating point, so values within rounding error of a .5 boundary can differ. This also affects Funnel.Conversion, Funnel.LeadConversion and Referrals.ProgressPercent.
- Referrals.SortNewestFirst: timestamps are integers. The comparator `b.timestamp - a.timestamp` on missing or non-numeric timestamps is not modelled.
- Funnel.ProgressSteps: if `FunnelStep` were a numeric enum, `Object.values` would also return its member names. The types file is not part of this model, so a string enum is assumed.
- Recording a step reached in a session, and recording a lead. That code is not in the modelled components. `Funnel.AddStep` exists only to state that conversion is monotone.
