/**
 * The launch of a queue's job (src/core/queue.ts:192-217, src/core/fanout.ts:386, src/core/client.ts:433-461): when a
 * config the validator accepts is still refused there, and with which lifetime it runs otherwise.
 */
module QueueLaunch {
  import opened Basics
  import opened LaunchGuard
  import opened QueueBuild
  import T = Tags
  import TopoSort
  import B = TagBudget
  import D = Duration
  import J = JsonText
  import TD = TagDecode
  import LI = Lifecycle

  /** The launch input of a member: its lifetime is the job's, whatever `rest` holds otherwise. */
  function MemberInput(m: QueueMember, rest: LaunchInput): LaunchInput {
    rest.(ttl := Given(m.ttl))
  }

  /** How the launch reads a timeout that validation accepted. */
  predicate TextRefused(ttl: string) {
    D.Signed(ttl) || D.Trim(ttl) != ttl || (D.ParseDuration(ttl).Value? && D.ParseDuration(ttl).ms > D.MAX_DURATION_MS)
  }

  lemma TimeoutReads(ttl: string)
    requires ttl != "" && D.ParseDuration(ttl).Value?
    ensures var r := ReadDuration(TtlField, Given(ttl));
            && (r.Ms? <==> !TextRefused(ttl))
            && (r.Ms? ==> r.ms == D.ParseDuration(ttl).ms >= 0.0)
  {
    D.LaunchInputIff(ttl);
    D.LifetimeNonNegative(ttl);
  }

  /** A member of a valid queue has its job's timeout, which is not empty. */
  lemma MemberTimeout(cfg: QueueConfig, b: BuiltQueue, p: nat)
    requires ValidQueue(cfg) && BuiltFrom(cfg, b) && p < |b.members|
    ensures b.members[p].ttl != ""
  {
    assert FromJob(cfg, b.members[p], p);
    var i :| 0 <= i < |cfg.jobs| && Carries(cfg, i, b.members[p], p);
    assert FieldsOk(cfg.jobs[i]);
  }

  /**
   * The launch of a validated job is refused exactly when its other inputs are in the way, or its timeout is signed,
   * padded with white space or above Go's ceiling, or is zero where the launch needs a lifetime. Otherwise the job has
   * the validated timeout for its lifetime.
   */
  lemma JobLaunchIff(cfg: QueueConfig, b: BuiltQueue, p: nat, rest: LaunchInput, provider: Provider)
    requires ValidQueue(cfg) && BuiltFrom(cfg, b) && p < |b.members|
    ensures var ttl := b.members[p].ttl;
            var input := MemberInput(b.members[p], rest);
            && D.ParseDuration(ttl).Value?
            && (Admit(input, provider).Refused? <==>
                  || !OthersOk(rest, provider)
                  || TextRefused(ttl)
                  || (D.ParseDuration(ttl).ms == 0.0 && NeedsTtl(rest, provider)))
            && (Admit(input, provider).Admitted? ==> Admit(input, provider).spec.ttlMs == D.ParseDuration(ttl).ms)
  {
    ValidatedTimeoutAtLaunch(cfg, b, p);
    MemberTimeout(cfg, b, p);
    var input := MemberInput(b.members[p], rest);
    TimeoutReads(b.members[p].ttl);
    AdmitIff(input, provider);
    assert input.(ttl := Number(3600000.0)) == rest.(ttl := Number(3600000.0));
  }

  // ---- A job that runs without a lifetime ----

  /** Never terminated for its age, whatever the time. */
  ghost predicate NoLifetime(c: TD.Config) {
    forall now :: !LI.TtlFires(c, now)
  }

  lemma LifetimeIff(c: TD.Config)
    ensures NoLifetime(c) <==> LI.TtlDeadline(c) <= 0.0
  {
    if LI.TtlDeadline(c) > 0.0 {
      var now := LI.TtlDeadline(c).Floor + 1;
      assert LI.TtlFires(c, now);
    }
  }

  lemma DeadlineIff(spec: T.Spec, t: int, c: TD.Config)
    requires t > 0 && spec.ttlMs >= 0.0
    requires c.ttlDeadlineMs == TD.NormalConfig(spec, t).ttlDeadlineMs && c.ttlMs == TD.NormalConfig(spec, t).ttlMs
    ensures LI.TtlDeadline(c) == if spec.ttlMs > 0.0 then (t + spec.ttlMs.Floor) as real else 0.0
  {
    if spec.ttlMs > 0.0 { TruncAdd(t, spec.ttlMs); }
  }

  /** The lifecycle settings the provider reads of a launch: EC2 of the tags it sent, the in-memory one of all. */
  function ReadBack(spec: T.Spec, t: int, id: Option<T.Identity>, provider: Provider, username: J.Text,
      digest: J.Text): TD.Config
    requires T.ValidSpec(spec)
  {
    var tags := T.LaunchTags(spec, t, id);
    TD.DecodeConfig(if provider.Ec2? then B.SentOf(tags, username, digest) else tags)
  }

  lemma LifetimeReadBack(spec: T.Spec, t: int, id: Option<T.Identity>, provider: Provider, username: J.Text,
      digest: J.Text, c: TD.Config)
    requires T.ValidSpec(spec) && c == ReadBack(spec, t, id, provider, username, digest)
    ensures c.ttlDeadlineMs == TD.NormalConfig(spec, t).ttlDeadlineMs && c.ttlMs == TD.NormalConfig(spec, t).ttlMs
  {
    TD.ConfigDecodes(spec, t, id);
    TD.SentConfigDecodes(spec, t, id, username, digest);
  }

  /**
   * A job that is launched has its deadline in the tags the provider reads, the launch time plus the timeout cut to its
   * millisecond, unless the timeout is zero: then nothing ever ends it for its age.
   */
  lemma JobLifetime(cfg: QueueConfig, b: BuiltQueue, p: nat, rest: LaunchInput, provider: Provider, spec: T.Spec,
      t: int, id: Option<T.Identity>, username: J.Text, digest: J.Text, c: TD.Config)
    requires ValidQueue(cfg) && BuiltFrom(cfg, b) && p < |b.members| && t > 0
    requires Admit(MemberInput(b.members[p], rest), provider) == Admitted(spec) && T.ValidSpec(spec)
    requires c == ReadBack(spec, t, id, provider, username, digest)
    ensures var timeout := D.ParseDuration(b.members[p].ttl);
            && timeout.Value? && timeout.ms >= 0.0
            && LI.TtlDeadline(c) == (if timeout.ms > 0.0 then (t + timeout.ms.Floor) as real else 0.0)
            && (NoLifetime(c) <==> timeout.ms == 0.0)
  {
    JobTimeout(cfg, b, p, rest, provider, spec);
    LifetimeReadBack(spec, t, id, provider, username, digest, c);
    DeadlineIff(spec, t, c);
    LifetimeIff(c);
  }

  lemma JobTimeout(cfg: QueueConfig, b: BuiltQueue, p: nat, rest: LaunchInput, provider: Provider, spec: T.Spec)
    requires ValidQueue(cfg) && BuiltFrom(cfg, b) && p < |b.members|
    requires Admit(MemberInput(b.members[p], rest), provider) == Admitted(spec)
    ensures D.ParseDuration(b.members[p].ttl) == D.Value(spec.ttlMs) && spec.ttlMs >= 0.0
  {
    JobLaunchIff(cfg, b, p, rest, provider);
    MemberTimeout(cfg, b, p);
    TimeoutReads(b.members[p].ttl);
  }

  // ---- A timeout of zero ----

  const ZERO_JOB := TopoSort.Job("a", "true", "0s", [], None)

  const ZERO_QUEUE := QueueConfig("", "", [ZERO_JOB], "", "")

  lemma ZeroSeconds()
    ensures D.ParseDuration("0s") == D.Value(0.0) && !TextRefused("0s")
  {
    var s := "0s";
    assert D.Trim(s) == s;
    assert D.NumberEnd(s, 0) == 1;
    var seg := D.Seg("0", "", D.Seconds);
    assert D.Segment(s, 0) == D.Match(2, seg);
    assert D.Segments(s, 2) == D.List([]);
    assert D.Digits("0") == 0 && seg.Value() == 0.0;
    assert D.Total([seg]) == 0.0;
  }

  /** A queue of one job with a timeout of no seconds is valid. */
  lemma ZeroQueueIsValid()
    ensures ValidQueue(ZERO_QUEUE)
  {
    ZeroSeconds();
    forall cycle ensures !TopoSort.IsCycle(ZERO_QUEUE.jobs, cycle) {
      if |cycle| >= 2 { assert !TopoSort.Needs(ZERO_QUEUE.jobs, cycle[0], cycle[1]); }
    }
  }

  /** Its job is refused by a real provider unless something else bounds it, or the caller allows it to be unbounded. */
  lemma ZeroJobRefused(b: BuiltQueue, rest: LaunchInput, nested: bool)
    requires BuiltFrom(ZERO_QUEUE, b) && OthersOk(rest, Ec2(false, nested))
    requires rest.idleTimeout == Unset && rest.base.costLimit == 0.0 && !rest.allowUnbounded
    ensures Admit(MemberInput(b.members[0], rest), Ec2(false, nested)) == Refused(Unbounded)
  {
    assert FromJob(ZERO_QUEUE, b.members[0], 0);
    ZeroSeconds();
    TimeoutReads("0s");
  }
}
