/**
 * The access policy of a user account: paid accounts always have access, other accounts
 * only while their trial has not ended. Time is an integer number of seconds and the
 * current instant is a parameter.
 */
module Access {
  import opened Wrappers

  const SecondsPerDay: int := 86400

  /** The fields of a user account that the policy and the progress views read. */
  datatype User = User(id: int, trialEndDate: Option<int>, isPaid: bool, currentQuizId: Option<int>)

  /** `User.has_access`: paid, or a trial end that is still in the future. */
  predicate HasAccess(u: User, now: int) {
    if u.isPaid then true
    else if u.trialEndDate.Some? && now < u.trialEndDate.value then true
    else false
  }

  /**
   * `User.get_trial_days_left`: the whole days (`timedelta.days`, a floor) until the trial
   * ends, never negative, and 0 when no trial end is recorded.
   */
  function TrialDaysLeft(u: User, now: int): (days: nat)
    ensures u.trialEndDate.None? ==> days == 0
    ensures u.trialEndDate.Some? ==>
      var diff := u.trialEndDate.value - now;
      days * SecondsPerDay <= (if diff < 0 then 0 else diff) && diff < (days + 1) * SecondsPerDay
  {
    match u.trialEndDate
    case None => 0
    case Some(end) =>
      var days := (end - now) / SecondsPerDay;
      if days < 0 then 0 else days
  }

  /** A positive day count is only ever shown to a user who has access; no access means 0 days. */
  lemma DaysLeftImpliesAccess(u: User, now: int)
    ensures TrialDaysLeft(u, now) > 0 ==> HasAccess(u, now)
    ensures !HasAccess(u, now) ==> TrialDaysLeft(u, now) == 0
  {
    var days := TrialDaysLeft(u, now);
    if days > 0 {
      assert u.trialEndDate.Some?;
      assert days * SecondsPerDay <= u.trialEndDate.value - now;
    }
  }

  /** The last partial day of a trial still grants access although 0 days are shown. */
  lemma LastPartialDay(u: User, now: int)
    requires !u.isPaid && u.trialEndDate == Some(now + 3600)
    ensures HasAccess(u, now) && TrialDaysLeft(u, now) == 0
  {
    assert TrialDaysLeft(u, now) * SecondsPerDay <= 3600;
  }

  /** As time passes the day count never goes up. */
  lemma TrialDaysLeftNonIncreasing(u: User, earlier: int, later: int)
    requires earlier <= later
    ensures TrialDaysLeft(u, later) <= TrialDaysLeft(u, earlier)
  {
    var d1 := TrialDaysLeft(u, earlier);
    var d2 := TrialDaysLeft(u, later);
    if u.trialEndDate.Some? {
      var end := u.trialEndDate.value;
      assert d2 * SecondsPerDay <= (if end - later < 0 then 0 else end - later);
      assert (if end - later < 0 then 0 else end - later) <= (if end - earlier < 0 then 0 else end - earlier);
      assert (if end - earlier < 0 then 0 else end - earlier) < (d1 + 1) * SecondsPerDay;
    }
  }

  /** Access that holds now held at every earlier instant. */
  lemma AccessMonotoneInTime(u: User, earlier: int, later: int)
    requires earlier <= later && HasAccess(u, later)
    ensures HasAccess(u, earlier)
  {
  }

  /** A trial that ends two days from now: access, and 2 days left. */
  lemma TwoDayTrial(u: User, now: int)
    requires !u.isPaid && u.trialEndDate == Some(now + 2 * SecondsPerDay)
    ensures HasAccess(u, now) && TrialDaysLeft(u, now) == 2
  {
  }
}
