/**
 * What refuses a launch before anything is created: the durations read by `toSpec` (src/core/client.ts:609-647), the
 * bounds guard (src/core/bounds.ts:87-196, src/core/client.ts:437-438) and the provider's own checks
 * (src/aws/ec2.ts:155-164, src/core/tags.ts:659-663).
 */
module LaunchGuard {
  import opened Basics
  import J = JsonText
  import D = Duration
  import LC = LaunchConfig
  import T = Tags

  /** A duration as a caller gives it: text, or a number of milliseconds. */
  datatype DurationInput = Unset | Number(ms: real) | NotFinite | Given(text: string)

  datatype DurationField = TtlField | IdleTimeoutField | CompletionDelayField | SessionTimeoutField

  datatype Refusal =
    | BadNumber(field: DurationField)
    | BadText(field: DurationField, error: D.LifetimeError)
    | Unbounded
    | NestedNeedsTtl
    | SpotCannotStop
    | IdleCpuOutOfRange

  /** `base` holds whatever is no duration; `toSpec` fills the durations in. */
  datatype LaunchInput = LaunchInput(
    base: T.Spec, ttl: DurationInput, idleTimeout: DurationInput, completionDelay: DurationInput,
    sessionTimeout: DurationInput, allowUnbounded: bool)

  /**
   * The in-memory provider, or EC2 (src/aws/ec2.ts:88-95): behind a test endpoint nothing is billed. `nestedProfile`:
   * its instances run under a profile that may launch further instances.
   */
  datatype Provider = InMemory | Ec2(testEndpoint: bool, nestedProfile: bool)
  {
    predicate IsReal() {
      Ec2? && !testEndpoint
    }
  }

  datatype DurationRead = Ms(ms: real) | Bad(refusal: Refusal)

  /** `dur` of `toSpec`: unset, "", "0" and 0 all mean none. */
  function ReadDuration(field: DurationField, v: DurationInput): DurationRead {
    match v
    case Unset => Ms(0.0)
    case NotFinite => Bad(BadNumber(field))
    case Number(ms) => if ms < 0.0 then Bad(BadNumber(field)) else Ms(ms)
    case Given(text) =>
      if text == "" || text == "0" then Ms(0.0)
      else
        match D.ParseLifetime(text)
        case Accepted(ms) => Ms(ms)
        case Refused(error) => Bad(BadText(field, error))
  }

  // ---- The bounds guard ----

  datatype Verdict = Verdict(refuse: bool, warn: bool)

  function EvaluateBounds(spec: T.Spec, isReal: bool): Verdict {
    var bounded := spec.ttlMs > 0.0 || spec.idleTimeoutMs > 0.0 || spec.costLimit > 0.0;
    Verdict(!bounded && isReal, bounded && spec.ttlMs <= 0.0)
  }

  /** A lifecycle that asks EC2 to stop or hibernate the instance. */
  predicate NeedsStoppable(spec: T.Spec) {
    spec.idleTimeoutMs > 0.0 || spec.onComplete == LC.Units("stop") || spec.onComplete == LC.Units("hibernate")
  }

  // ---- The launch ----

  datatype Admission = Admitted(spec: T.Spec) | Refused(refusal: Refusal)

  /** The durations in the order in which `toSpec` reads them. */
  function ToSpec(input: LaunchInput): Admission {
    var ttl := ReadDuration(TtlField, input.ttl);
    var idle := ReadDuration(IdleTimeoutField, input.idleTimeout);
    var delay := ReadDuration(CompletionDelayField, input.completionDelay);
    var session := ReadDuration(SessionTimeoutField, input.sessionTimeout);
    if ttl.Bad? then Refused(ttl.refusal)
    else if idle.Bad? then Refused(idle.refusal)
    else if delay.Bad? then Refused(delay.refusal)
    else if session.Bad? then Refused(session.refusal)
    else
      Admitted(input.base.(
        ttlMs := ttl.ms, idleTimeoutMs := idle.ms, completionDelayMs := delay.ms, sessionTimeoutMs := session.ms))
  }

  /** The checks of the provider, before its first request; the in-memory one only builds tags. */
  function ProviderChecks(spec: T.Spec, p: Provider): Admission {
    if p.Ec2? && p.nestedProfile && spec.ttlMs <= 0.0 then Refused(NestedNeedsTtl)
    else if p.Ec2? && spec.spot && NeedsStoppable(spec) then Refused(SpotCannotStop)
    else if !(0.0 <= spec.idleCpuPercent <= 100.0) then Refused(IdleCpuOutOfRange)
    else Admitted(spec)
  }

  function Admit(input: LaunchInput, p: Provider): Admission {
    var a := ToSpec(input);
    if a.Refused? then a
    else if EvaluateBounds(a.spec, p.IsReal()).refuse && !input.allowUnbounded then Refused(Unbounded)
    else ProviderChecks(a.spec, p)
  }

  /** An admitted launch is one whose tags can be built, given a sweep that can be. */
  lemma AdmittedIsValid(input: LaunchInput, p: Provider)
    requires Admit(input, p).Admitted? && T.ValidSweep(input.base.sweep)
    ensures T.ValidSpec(Admit(input, p).spec)
  {
  }

  // ---- What depends on the lifetime, and what does not ----

  /** Nothing but the lifetime stands in the way: with an hour of it, the launch goes ahead. */
  predicate OthersOk(input: LaunchInput, p: Provider) {
    Admit(input.(ttl := Number(3600000.0)), p).Admitted?
  }

  /** A launch that must not go without a lifetime: its instance could launch others, or nothing else bounds it. */
  predicate NeedsTtl(input: LaunchInput, p: Provider) {
    || (p.Ec2? && p.nestedProfile)
    || (p.IsReal() && !input.allowUnbounded && input.base.costLimit <= 0.0
        && ReadDuration(IdleTimeoutField, input.idleTimeout) == Ms(0.0))
  }

  lemma ReadsNonNegative(field: DurationField, v: DurationInput)
    ensures var r := ReadDuration(field, v); r.Ms? ==> r.ms >= 0.0
  {
    if v.Given? { D.LifetimeNonNegative(v.text); }
  }

  /**
   * A launch goes ahead exactly when the rest of it is in order, its lifetime reads, and it has one or needs none; the
   * lifetime is then the one read.
   */
  lemma AdmitIff(input: LaunchInput, p: Provider)
    ensures var ttl := ReadDuration(TtlField, input.ttl);
            && (Admit(input, p).Admitted? <==>
                  OthersOk(input, p) && ttl.Ms? && (ttl.ms == 0.0 ==> !NeedsTtl(input, p)))
            && (Admit(input, p).Admitted? ==> Admit(input, p).spec.ttlMs == ttl.ms)
  {
    ReadsNonNegative(TtlField, input.ttl);
    ReadsNonNegative(IdleTimeoutField, input.idleTimeout);
  }

  // ---- Every refusal and its cause ----

  function FieldOf(input: LaunchInput, field: DurationField): DurationInput {
    match field
    case TtlField => input.ttl
    case IdleTimeoutField => input.idleTimeout
    case CompletionDelayField => input.completionDelay
    case SessionTimeoutField => input.sessionTimeout
  }

  /** A duration that asks for none. */
  predicate IsNone(v: DurationInput) {
    v == Unset || v == Number(0.0) || v == Given("") || v == Given("0")
    || (v.Given? && D.ParseLifetime(v.text) == D.Accepted(0.0))
  }

  /** The refusal is due, whatever else is. */
  predicate Due(input: LaunchInput, p: Provider, r: Refusal) {
    match r
    case BadNumber(field) =>
      FieldOf(input, field).NotFinite? || (FieldOf(input, field).Number? && FieldOf(input, field).ms < 0.0)
    case BadText(field, error) =>
      && FieldOf(input, field).Given? && !IsNone(FieldOf(input, field))
      && D.ParseLifetime(FieldOf(input, field).text) == D.Refused(error)
    case Unbounded =>
      && p.Ec2? && !p.testEndpoint && !input.allowUnbounded
      && IsNone(input.ttl) && IsNone(input.idleTimeout) && input.base.costLimit <= 0.0
    case NestedNeedsTtl => p.Ec2? && p.nestedProfile && IsNone(input.ttl)
    case SpotCannotStop =>
      && p.Ec2? && input.base.spot
      && (!IsNone(input.idleTimeout)
          || LC.Spells(input.base.onComplete, "stop") || LC.Spells(input.base.onComplete, "hibernate"))
    case IdleCpuOutOfRange => input.base.idleCpuPercent < 0.0 || input.base.idleCpuPercent > 100.0
  }

  lemma ReadingFails(field: DurationField, v: DurationInput, input: LaunchInput, p: Provider)
    requires v == FieldOf(input, field)
    ensures var r := ReadDuration(field, v);
            && (r.Bad? ==> Due(input, p, r.refusal))
            && (r.Ms? ==> !Due(input, p, BadNumber(field)) && forall e :: !Due(input, p, BadText(field, e)))
            && (r == Ms(0.0) <==> IsNone(v))
  {
  }

  lemma SpelledOut(t: J.Text, name: string)
    requires forall i :: 0 <= i < |name| ==> name[i] as int < 0x80
    ensures t == LC.Units(name) <==> LC.Spells(t, name)
  {
  }

  lemma StoppableIff(input: LaunchInput, spec: T.Spec)
    requires ToSpec(input) == Admitted(spec)
    ensures NeedsStoppable(spec) <==>
              !IsNone(input.idleTimeout) || LC.Spells(input.base.onComplete, "stop")
              || LC.Spells(input.base.onComplete, "hibernate")
  {
    ReadsNonNegative(IdleTimeoutField, input.idleTimeout);
    ReadingFails(IdleTimeoutField, input.idleTimeout, input, InMemory);
    SpelledOut(spec.onComplete, "stop");
    SpelledOut(spec.onComplete, "hibernate");
  }

  lemma UnboundedIff(input: LaunchInput, p: Provider, spec: T.Spec)
    requires ToSpec(input) == Admitted(spec)
    ensures EvaluateBounds(spec, p.IsReal()).refuse && !input.allowUnbounded <==> Due(input, p, Unbounded)
    ensures spec.ttlMs <= 0.0 <==> IsNone(input.ttl)
  {
    ReadsNonNegative(TtlField, input.ttl);
    ReadsNonNegative(IdleTimeoutField, input.idleTimeout);
    ReadingFails(TtlField, input.ttl, input, p);
    ReadingFails(IdleTimeoutField, input.idleTimeout, input, p);
  }

  /** Either all four durations read, or one does not and that is what is reported. */
  lemma DurationsRead(input: LaunchInput)
    ensures ToSpec(input).Admitted? ==> forall field :: ReadDuration(field, FieldOf(input, field)).Ms?
    ensures ToSpec(input).Refused? ==>
              exists field :: ReadDuration(field, FieldOf(input, field)) == Bad(ToSpec(input).refusal)
  {
    forall field ensures ToSpec(input).Admitted? ==> ReadDuration(field, FieldOf(input, field)).Ms? {
      match field
      case TtlField =>
      case IdleTimeoutField =>
      case CompletionDelayField =>
      case SessionTimeoutField =>
    }
    assert FieldOf(input, TtlField) == input.ttl && FieldOf(input, IdleTimeoutField) == input.idleTimeout;
    assert FieldOf(input, CompletionDelayField) == input.completionDelay;
    assert FieldOf(input, SessionTimeoutField) == input.sessionTimeout;
  }

  /** A launch is refused exactly when some refusal is due, and the one given is. */
  lemma RefusedIffDue(input: LaunchInput, p: Provider)
    ensures Admit(input, p).Refused? ==> Due(input, p, Admit(input, p).refusal)
    ensures Admit(input, p).Admitted? ==> forall r :: !Due(input, p, r)
  {
    DurationsRead(input);
    var a := ToSpec(input);
    forall field { ReadingFails(field, FieldOf(input, field), input, p); }
    if a.Admitted? {
      UnboundedIff(input, p, a.spec);
      StoppableIff(input, a.spec);
      if Admit(input, p).Admitted? {
        forall r ensures !Due(input, p, r) {
          match r
          case BadNumber(field) => assert !Due(input, p, BadNumber(field));
          case BadText(field, e) => assert !Due(input, p, BadText(field, e));
          case _ =>
        }
      }
    }
  }

  /** So many milliseconds were asked for. */
  predicate Asked(v: DurationInput, ms: real) {
    if IsNone(v) then ms == 0.0
    else v == Number(ms) || (v.Given? && D.ParseLifetime(v.text) == D.Accepted(ms))
  }

  /** The lifecycle of an admitted launch is the one asked for, duration by duration; nothing else of it changes. */
  lemma AdmittedAsAsked(input: LaunchInput, p: Provider, spec: T.Spec)
    requires Admit(input, p) == Admitted(spec)
    ensures Asked(input.ttl, spec.ttlMs) && Asked(input.idleTimeout, spec.idleTimeoutMs)
    ensures Asked(input.completionDelay, spec.completionDelayMs) && Asked(input.sessionTimeout, spec.sessionTimeoutMs)
    ensures spec == input.base.(ttlMs := spec.ttlMs, idleTimeoutMs := spec.idleTimeoutMs,
                                completionDelayMs := spec.completionDelayMs, sessionTimeoutMs := spec.sessionTimeoutMs)
  {
  }
}
