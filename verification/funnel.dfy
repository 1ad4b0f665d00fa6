/**
 The admin dashboard's metrics: per-step conversion over the loaded session
 window, the list of progress-relevant funnel steps, lead conversion over
 the server totals, and the tolerant "referred by" column of the user table.
 */
module Funnel {
  import opened Base
  import opened Users

  /** The funnel's closed set of stages. Only `Admin` and `SalesPage` are
      referred to by name; every other stage is an opaque titled value. */
  datatype FunnelStep = Admin | SalesPage | Stage(title: string)

  /** A visitor session. `stepsReached` is absent on records that never stored it. */
  datatype Session = Session(
    id: string,
    currentStep: FunnelStep,
    stepsReached: Option<seq<FunnelStep>>,
    lastActive: int)

  /** The session has a `stepsReached` list and the step is in it. */
  predicate Reached(s: Session, step: FunnelStep) {
    s.stepsReached.Some? && step in s.stepsReached.value
  }

  /** Number of sessions that reached `step`. */
  function CountReached(sessions: seq<Session>, step: FunnelStep): (n: nat)
    ensures n <= |sessions|
    ensures n == 0 <==> forall i :: 0 <= i < |sessions| ==> !Reached(sessions[i], step)
    ensures n == |sessions| <==> forall i :: 0 <= i < |sessions| ==> Reached(sessions[i], step)
  {
    if sessions == [] then 0
    else
      var rest := CountReached(sessions[1..], step);
      assert forall i :: 1 <= i < |sessions| ==> sessions[i] == sessions[1..][i - 1];
      (if Reached(sessions[0], step) then 1 else 0) + rest
  }

  /** A session appended to the window adds one to the count exactly when it
      reached the step. */
  lemma {:induction false} CountReachedAppend(sessions: seq<Session>, s: Session, step: FunnelStep)
    ensures CountReached(sessions + [s], step)
            == CountReached(sessions, step) + (if Reached(s, step) then 1 else 0)
    decreases |sessions|
  {
    if sessions == [] {
      assert [s][1..] == [];
    } else {
      assert (sessions + [s])[1..] == sessions[1..] + [s];
      CountReachedAppend(sessions[1..], s, step);
    }
  }

  /** Step conversion: rounded percentage of the loaded sessions
      that reached `step`, or 0 when no session is loaded. */
  function Conversion(sessions: seq<Session>, step: FunnelStep): (r: nat)
    ensures |sessions| == 0 ==> r == 0
    ensures |sessions| > 0 ==> IsRoundedPercent(CountReached(sessions, step), |sessions|, r)
    ensures r <= 100
  {
    if |sessions| == 0 then 0
    else
      RoundPercentAtMost100(CountReached(sessions, step), |sessions|);
      RoundPercent(CountReached(sessions, step), |sessions|)
  }

  /** Example from the dashboard: one session in four reached the step. */
  lemma OneInFourIsTwentyFive(sessions: seq<Session>, step: FunnelStep)
    requires |sessions| == 4 && CountReached(sessions, step) == 1
    ensures Conversion(sessions, step) == 25
  {
  }

  /** The session after `step` has been added to its reached list. */
  function AddStep(s: Session, step: FunnelStep): (r: Session)
    ensures Reached(r, step)
    ensures forall t :: Reached(s, t) ==> Reached(r, t)
  {
    match s.stepsReached
    case None => s.(stepsReached := Some([step]))
    case Some(steps) => s.(stepsReached := Some(steps + [step]))
  }

  /** Adding a step to one session never lowers the count of any step. */
  lemma {:induction false} CountReachedMonotone(sessions: seq<Session>, i: nat, added: FunnelStep, step: FunnelStep)
    requires i < |sessions|
    ensures CountReached(sessions[i := AddStep(sessions[i], added)], step) >= CountReached(sessions, step)
    decreases |sessions|
  {
    var updated := sessions[i := AddStep(sessions[i], added)];
    if i == 0 {
      assert updated[1..] == sessions[1..];
    } else {
      assert updated[1..] == sessions[1..][i - 1 := AddStep(sessions[i], added)];
      CountReachedMonotone(sessions[1..], i - 1, added, step);
    }
  }

  /** Adding a step to any session never decreases any step's conversion. */
  lemma ConversionMonotone(sessions: seq<Session>, i: nat, added: FunnelStep, step: FunnelStep)
    requires i < |sessions|
    ensures Conversion(sessions[i := AddStep(sessions[i], added)], step) >= Conversion(sessions, step)
  {
    CountReachedMonotone(sessions, i, added, step);
    RoundPercentMonotone(CountReached(sessions, step),
                         CountReached(sessions[i := AddStep(sessions[i], added)], step),
                         |sessions|);
  }

  /** The progress-relevant stages: every declared stage, in declaration
      order, except the admin marker. */
  function ProgressSteps(declared: seq<FunnelStep>): (r: seq<FunnelStep>)
    ensures forall s :: s in r <==> s in declared && s != Admin
    ensures |r| <= |declared|
  {
    if declared == [] then []
    else if declared[0] == Admin then ProgressSteps(declared[1..])
    else [declared[0]] + ProgressSteps(declared[1..])
  }

  /** The progress list keeps the declaration order: it is the declaration
      with some stages deleted. */
  lemma {:induction false} ProgressStepsKeepOrder(declared: seq<FunnelStep>)
    ensures IsSubsequence(ProgressSteps(declared), declared)
    decreases |declared|
  {
    if declared != [] {
      ProgressStepsKeepOrder(declared[1..]);
      var tail := ProgressSteps(declared[1..]);
      if declared[0] == Admin {
        SubsequenceSkip(tail, declared);
      } else {
        assert ([declared[0]] + tail)[1..] == tail;
      }
    }
  }

  /** Without repetitions in the declaration, exactly the admin marker is dropped. */
  lemma {:induction false} ProgressStepsLength(declared: seq<FunnelStep>)
    requires forall a, b :: 0 <= a < b < |declared| ==> declared[a] != declared[b]
    ensures |ProgressSteps(declared)| == if Admin in declared then |declared| - 1 else |declared|
    decreases |declared|
  {
    if declared != [] {
      ProgressStepsLength(declared[1..]);
      if declared[0] == Admin {
        assert Admin !in declared[1..];
      }
    }
  }

  /** Lead conversion of the KPI card: leads as a rounded percentage of sessions, or 0
      when the session total is 0. It is not clamped at 100. */
  function LeadConversion(totalSessions: nat, totalLeads: nat): (r: nat)
    ensures totalSessions == 0 ==> r == 0
    ensures totalSessions > 0 ==> IsRoundedPercent(totalLeads, totalSessions, r)
    ensures totalSessions > 0 && totalLeads <= totalSessions ==> r <= 100
  {
    if totalSessions > 0 then
      assert totalLeads <= totalSessions ==> RoundPercent(totalLeads, totalSessions) <= 100 by {
        if totalLeads <= totalSessions {
          RoundPercentAtMost100(totalLeads, totalSessions);
        }
      }
      RoundPercent(totalLeads, totalSessions)
    else 0
  }

  /** Ten leads over fifty sessions show 20 percent. */
  lemma LeadConversionExample()
    ensures LeadConversion(50, 10) == 20
    ensures LeadConversion(0, 0) == 0
  {
  }

  /** More leads than sessions show more than 100 percent: nothing clamps it. */
  lemma LeadConversionUnclamped()
    ensures LeadConversion(1, 2) == 200
  {
  }

  /** The referrer of a table row: the first loaded user whose id is the
      row's non-empty `referredBy`. A null, absent or empty reference, and one
      that matches no loaded user, all give "no referrer". */
  function ResolveReferrer(loaded: seq<User>, user: User): (r: Option<User>)
    ensures (user.referredBy.None? || user.referredBy == Some("")) ==> r.None?
    ensures r.Some? ==> user.referredBy == Some(r.value.id) && r.value in loaded
    ensures r.Some? ==> exists k :: 0 <= k < |loaded| && loaded[k] == r.value
                                    && forall j :: 0 <= j < k ==> loaded[j].id != r.value.id
    ensures user.referredBy.Some? && user.referredBy.value != ""
            ==> (r.None? <==> forall j :: 0 <= j < |loaded| ==> loaded[j].id != user.referredBy.value)
  {
    match user.referredBy
    case None => None
    case Some(ref) => if ref == "" then None else FirstWithId(loaded, ref)
  }

  /** What the "Referido Por" cell shows. */
  datatype ReferrerLabel = Named(name: string) | Organic

  /** The cell shows the first loaded user with the referenced id, and
      "Orgánico" for every other row, never an error. */
  function ReferrerCell(loaded: seq<User>, user: User): (r: ReferrerLabel)
    ensures r.Named? <==> exists k :: 0 <= k < |loaded| && user.referredBy == Some(loaded[k].id)
                                          && loaded[k].id != ""
    ensures r.Named? ==> exists k :: 0 <= k < |loaded| && loaded[k].name == r.name
                                    && user.referredBy == Some(loaded[k].id)
                                    && (forall j :: 0 <= j < k ==> loaded[j].id != loaded[k].id)
  {
    match ResolveReferrer(loaded, user)
    case Some(u) => Named(u.name)
    case None => Organic
  }
}
