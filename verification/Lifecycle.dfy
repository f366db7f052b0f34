/**
 * The lifecycle rules of src/core/lifecycle.ts:39-212 over an instance's decoded tags, and what an extension leaves in
 * them.
 */
module Lifecycle {
  import opened Basics
  import J = JsonText
  import D = Duration
  import LC = LaunchConfig
  import T = Tags
  import opened TagDecode

  datatype Action = Terminate | Stop | Hibernate | NoAction

  datatype Rule = Completion | Ttl | CostLimit | Idle

  datatype Decision = Nothing | Decide(action: Action, rule: Rule)

  /** The action an on-complete setting names; `exit` terminates, and anything else is applied as nothing. */
  function ActionOf(text: J.Text): Action {
    if text == LC.Units("exit") || text == LC.Units("terminate") then Terminate
    else if text == LC.Units("stop") then Stop
    else if text == LC.Units("hibernate") then Hibernate
    else NoAction
  }

  function AccumulatedCost(pricePerHour: real, computeSeconds: real): real {
    if pricePerHour <= 0.0 then 0.0 else computeSeconds / 3600.0 * pricePerHour
  }

  /** 0 when there is no TTL. */
  function TtlDeadline(c: Config): real {
    if c.ttlDeadlineMs > 0 then c.ttlDeadlineMs as real
    else if c.ttlMs > 0.0 && c.launchTimeMs > 0 then c.launchTimeMs as real + c.ttlMs
    else 0.0
  }

  predicate TtlFires(c: Config, now: int) {
    TtlDeadline(c) > 0.0 && TtlDeadline(c) - now as real <= 0.0
  }

  predicate CostFires(c: Config) {
    c.costLimit > 0.0 && c.pricePerHour > 0.0 && AccumulatedCost(c.pricePerHour, c.computeSeconds) >= c.costLimit
  }

  predicate IdleFires(c: Config, lastActivityMs: int, now: int, isIdle: bool) {
    c.idleTimeoutMs > 0.0 && isIdle && (now - lastActivityMs) as real >= c.idleTimeoutMs
  }

  /** At most one decision: completion, then TTL, then cost, then idle. */
  function Evaluate(running: bool, c: Config, lastActivityMs: int, now: int, completionFile: bool,
      isIdle: bool): Decision {
    if !running then Nothing
    else if c.onComplete != [] && completionFile then Decide(ActionOf(c.onComplete), Completion)
    else if TtlFires(c, now) then Decide(Terminate, Ttl)
    else if CostFires(c) then Decide(Terminate, CostLimit)
    else if IdleFires(c, lastActivityMs, now, isIdle) then Decide(if c.hibernateOnIdle then Hibernate else Stop, Idle)
    else Nothing
  }

  // ---- Extension ----

  datatype Extension = Extension(deadlineMs: real, clamped: bool, tags: T.TagMap)

  function ComputeExtension(c: Config, byMs: real, now: int): Extension {
    var floor := now as real + byMs;
    var proposed := TtlDeadline(c) + byMs;
    var deadline := if proposed < floor then floor else proposed;
    Extension(deadline, deadline > proposed,
      map[T.Field(T.TTL_DEADLINE) := T.Instant(Trunc(deadline))]
      + (if c.launchTimeMs > 0 && deadline > c.launchTimeMs as real
         then map[T.Field(T.TTL) := T.Duration(D.FormatDuration(deadline - c.launchTimeMs as real))]
         else map[]))
  }

  /** A tag not overwritten reads as before. */
  lemma ReadsSame(tags: T.TagMap, more: T.TagMap, n: nat)
    requires T.Field(n) !in more
    ensures TextAt(tags + more, n) == TextAt(tags, n) && SpanAt(tags + more, n) == SpanAt(tags, n)
    ensures AmountAt(tags + more, n) == AmountAt(tags, n) && InstantAt(tags + more, n) == InstantAt(tags, n)
    ensures forall w :: WordAt(tags + more, n, w) == WordAt(tags, n, w)
  {
  }

  /** Writing the TTL pair changes what is read of it, and nothing else. */
  lemma PairDecodes(tags: T.TagMap, more: T.TagMap)
    requires more.Keys <= {T.Field(T.TTL), T.Field(T.TTL_DEADLINE)}
    ensures DecodeConfig(tags + more) == DecodeConfig(tags).(
              ttlDeadlineMs := InstantAt(tags + more, T.TTL_DEADLINE), ttlMs := SpanOrZero(SpanAt(tags + more, T.TTL)))
  {
    ReadsSame(tags, more, T.LAUNCH_TIME);
    ReadsSame(tags, more, T.IDLE_TIMEOUT);
    ReadsSame(tags, more, T.HIBERNATE_ON_IDLE);
    ReadsSame(tags, more, T.IDLE_CPU);
    ReadsSame(tags, more, T.COST_LIMIT);
    ReadsSame(tags, more, T.PRICE_PER_HOUR);
    ReadsSame(tags, more, T.ON_COMPLETE);
    ReadsSame(tags, more, T.COMPLETION_FILE);
    ReadsSame(tags, more, T.COMPLETION_DELAY);
    ReadsSame(tags, more, T.COMPUTE_SECONDS);
  }

  /**
   * What the extension's tags do to the settings read back: the TTL pair, each to its millisecond, and nothing else.
   */
  lemma ExtensionDecodes(tags: T.TagMap, byMs: real, now: int)
    ensures var c, e := DecodeConfig(tags), ComputeExtension(DecodeConfig(tags), byMs, now);
            DecodeConfig(tags + e.tags) == c.(
              ttlDeadlineMs := Trunc(e.deadlineMs),
              ttlMs := if c.launchTimeMs > 0 && e.deadlineMs > c.launchTimeMs as real
                       then Round(e.deadlineMs - c.launchTimeMs as real) as real else c.ttlMs)
  {
    var c := DecodeConfig(tags);
    var e := ComputeExtension(c, byMs, now);
    var launch := c.launchTimeMs as real;
    PairDecodes(tags, e.tags);
    PairReads(tags, e.tags, Trunc(e.deadlineMs), e.deadlineMs - launch, c.launchTimeMs > 0 && e.deadlineMs > launch);
  }

  lemma PairReads(tags: T.TagMap, more: T.TagMap, deadline: int, ttl: real, both: bool)
    requires both ==> ttl > 0.0
    requires more == map[T.Field(T.TTL_DEADLINE) := T.Instant(deadline)]
                     + (if both then map[T.Field(T.TTL) := T.Duration(D.FormatDuration(ttl))] else map[])
    ensures InstantAt(tags + more, T.TTL_DEADLINE) == deadline
    ensures SpanAt(tags + more, T.TTL) == if both then Ms(Round(ttl) as real) else SpanAt(tags, T.TTL)
  {
    if both {
      D.FormattedReadsAs(ttl);
    } else {
      ReadsSame(tags, more, T.TTL);
    }
  }

  /** The tag pair agrees: launch time plus TTL is the deadline. */
  predicate PairAgrees(c: Config) {
    c.ttlMs == (c.ttlDeadlineMs - c.launchTimeMs) as real
  }

  /** It does, or the TTL is one millisecond longer; or there is neither. */
  predicate Anchored(c: Config) {
    && c.launchTimeMs > 0
    && (if c.ttlDeadlineMs > 0
        then
          && c.ttlDeadlineMs >= c.launchTimeMs
          && (PairAgrees(c) || c.ttlMs == (c.ttlDeadlineMs - c.launchTimeMs + 1) as real)
        else c.ttlDeadlineMs == 0 && c.ttlMs == 0.0)
  }

  /**
   * The pair written for a duration ms from the moment `base`: the deadline is cut to its millisecond and the TTL
   * rounded to it, so they agree exactly when rounding and cutting are the same for the fraction of ms.
   */
  lemma PairOf(c: Config, base: int, ms: real)
    requires 0 < c.launchTimeMs <= base && ms > 0.0
    requires c.ttlDeadlineMs == base + ms.Floor && c.ttlMs == (base - c.launchTimeMs + Round(ms)) as real
    ensures Anchored(c) && (PairAgrees(c) <==> !RoundsUp(ms))
  {
    RoundFloor(ms);
  }

  /** Where an extension lands before it is written: after the later of the old deadline and now. */
  lemma ExtensionTarget(c: Config, byMs: real, now: int)
    requires c.ttlDeadlineMs > 0 && byMs > 0.0
    ensures ComputeExtension(c, byMs, now).deadlineMs == Max(c.ttlDeadlineMs, now) as real + byMs
  {
  }

  lemma WrittenPair(launch: int, base: int, ms: real, deadline: real)
    requires 0 < launch <= base && ms > 0.0 && deadline == base as real + ms
    ensures Trunc(deadline) == base + ms.Floor && deadline > launch as real
    ensures Round(deadline - launch as real) == base - launch + Round(ms)
  {
    TruncAdd(base, ms);
    RoundAdd(base - launch, ms);
    assert deadline - launch as real == (base - launch) as real + ms;
  }

  /** What an extension makes of the settings c. */
  predicate Lands(c: Config, d: Config, byMs: real, now: int) {
    && d.ttlDeadlineMs == Max(c.ttlDeadlineMs, now) + byMs.Floor
    && Anchored(d) && (PairAgrees(d) <==> !RoundsUp(byMs))
    && (TtlFires(d, now) <==> c.ttlDeadlineMs <= now && byMs < 1.0)
    && d == c.(ttlDeadlineMs := d.ttlDeadlineMs, ttlMs := d.ttlMs)
  }

  lemma LandsAt(c: Config, d: Config, base: int, ms: real, now: int)
    requires Anchored(c) && c.ttlDeadlineMs > 0 && base == Max(c.ttlDeadlineMs, now) && ms > 0.0
    requires d == c.(ttlDeadlineMs := base + ms.Floor, ttlMs := (base - c.launchTimeMs + Round(ms)) as real)
    ensures Lands(c, d, ms, now)
  {
    PairOf(d, base, ms);
    assert TtlFires(d, now) <==> base + ms.Floor <= now;
  }

  lemma ExtensionSettings(tags: T.TagMap, c: Config, d: Config, byMs: real, now: int)
    requires c == DecodeConfig(tags) && Anchored(c) && c.ttlDeadlineMs > 0 && byMs > 0.0
    requires d == DecodeConfig(tags + ComputeExtension(c, byMs, now).tags)
    ensures var base := Max(c.ttlDeadlineMs, now);
            d == c.(ttlDeadlineMs := base + byMs.Floor, ttlMs := (base - c.launchTimeMs + Round(byMs)) as real)
  {
    ExtensionDecodes(tags, byMs, now);
    ExtensionTarget(c, byMs, now);
    WrittenPair(c.launchTimeMs, Max(c.ttlDeadlineMs, now), byMs, ComputeExtension(c, byMs, now).deadlineMs);
  }

  /**
   * An extension lands exactly at the later of the old deadline and now, plus what was asked, cut to its millisecond.
   * The pair still agrees exactly when the fraction of what was asked is below one half, and the TTL rule fires at
   * that moment exactly when an overdue instance got less than a millisecond. Nothing else changes.
   */
  lemma ExtensionLands(tags: T.TagMap, c: Config, d: Config, byMs: real, now: int)
    requires c == DecodeConfig(tags) && Anchored(c) && c.ttlDeadlineMs > 0 && byMs > 0.0
    requires d == DecodeConfig(tags + ComputeExtension(c, byMs, now).tags)
    ensures Lands(c, d, byMs, now)
  {
    ExtensionSettings(tags, c, d, byMs, now);
    LandsAt(c, d, Max(c.ttlDeadlineMs, now), byMs, now);
  }

  // ---- Cost ----

  lemma CostSplit(pricePerHour: real, a: real, b: real)
    requires pricePerHour > 0.0
    ensures AccumulatedCost(pricePerHour, a + b) == AccumulatedCost(pricePerHour, a) + pricePerHour * b / 3600.0
  {
    assert (a + b) / 3600.0 == a / 3600.0 + b / 3600.0;
    Distribute(a / 3600.0, b / 3600.0, pricePerHour);
  }

  lemma Distribute(x: real, y: real, p: real)
    ensures (x + y) * p == x * p + y * p
  {
  }

  lemma CostMono(pricePerHour: real, a: real, b: real)
    requires pricePerHour > 0.0 && a <= b
    ensures AccumulatedCost(pricePerHour, a) <= AccumulatedCost(pricePerHour, b)
  {
    MulMonoReal(a / 3600.0, b / 3600.0, pricePerHour);
  }

  lemma MulMonoReal(x: real, y: real, p: real)
    requires x <= y && p > 0.0
    ensures x * p <= y * p
  {
  }

  lemma RoundNear(x: real)
    ensures x - 0.5 <= Round(x) as real <= x + 0.5
    ensures Round(Round(x) as real) == Round(x)
  {
  }
}
