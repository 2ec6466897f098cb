/** Launch errors, and which of them let a launch go on with the next choice. */
module LaunchErrors {
  datatype Code = LimitExceeded | QuotaExceeded | OtherCode(code: string)

  /** `Panic` stands for the panic where the source follows a nil proposal. */
  datatype LaunchError =
    | NoCapacityError
    | ServiceError(code: Code, message: string)
    | OtherError(message: string)
    | Panic

  const OUT_OF_HOST_CAPACITY := "Out of host capacity"

  predicate Contains(s: string, t: string) {
    |t| <= |s| && (s[..|t|] == t || (s != [] && Contains(s[1..], t)))
  }

  predicate IsOutOfHostCapacity(e: LaunchError) {
    (e.ServiceError? || e.OtherError?) && Contains(e.message, OUT_OF_HOST_CAPACITY)
  }

  predicate IsServiceLimitExceeded(e: LaunchError) {
    e.ServiceError? && (e.code == LimitExceeded || e.code == QuotaExceeded)
  }

  predicate IsQuotaExceeded(e: LaunchError) {
    e.ServiceError? && e.code == QuotaExceeded
  }

  predicate IsNoCapacityError(e: LaunchError) {
    e == NoCapacityError || IsOutOfHostCapacity(e)
  }

  /** Capacity errors always, limits and quotas only if the fallback is enabled. */
  predicate IsSkippableLaunchError(e: LaunchError, limitFallback: bool) {
    IsNoCapacityError(e) || (limitFallback && IsServiceLimitExceeded(e))
  }

  /** The text stands somewhere in the message. */
  ghost predicate StandsIn(s: string, t: string) {
    exists before, after :: s == before + t + after
  }

  lemma {:induction false} ContainedStands(s: string, t: string) returns (before: string, after: string)
    requires Contains(s, t)
    ensures s == before + t + after
  {
    if s[..|t|] == t {
      before, after := "", s[|t|..];
    } else {
      before, after := ContainedStands(s[1..], t);
      before := [s[0]] + before;
    }
  }

  lemma {:induction false} StandingContained(before: string, t: string, after: string)
    ensures Contains(before + t + after, t)
  {
    var s := before + t + after;
    if before == "" {
      assert s[..|t|] == t;
    } else {
      StandingContained(before[1..], t, after);
      assert s[1..] == before[1..] + t + after;
    }
  }

  lemma ContainsMeans(s: string, t: string)
    ensures Contains(s, t) <==> StandsIn(s, t)
  {
    if Contains(s, t) {
      var before, after := ContainedStands(s, t);
    }
    if StandsIn(s, t) {
      var before, after :| s == before + t + after;
      StandingContained(before, t, after);
    }
  }

  /** Which failures let a launch go on: a lack of capacity, recognised by its message, always; an exceeded limit or
      quota only if the fallback is enabled; and nothing else. */
  lemma SkippableMeans(limitFallback: bool, code: Code, message: string)
    ensures IsSkippableLaunchError(NoCapacityError, limitFallback) && !IsSkippableLaunchError(Panic, limitFallback)
    ensures var full := StandsIn(message, "Out of host capacity");
            && (IsSkippableLaunchError(OtherError(message), limitFallback) <==> full)
            && (IsSkippableLaunchError(ServiceError(code, message), limitFallback) <==>
                  full || (limitFallback && !code.OtherCode?))
    ensures IsQuotaExceeded(ServiceError(code, message)) <==> code == QuotaExceeded
    ensures !IsQuotaExceeded(NoCapacityError) && !IsQuotaExceeded(OtherError(message))
  {
    ContainsMeans(message, OUT_OF_HOST_CAPACITY);
  }
}
