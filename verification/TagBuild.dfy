/**
 * `buildLaunchTags` as the source writes it, filling a record statement by statement (src/core/tags.ts:179-283), proved
 * against the table of `Tags`.
 */
module TagBuild {
  import opened Basics
  import J = JsonText
  import D = Duration
  import opened Tags

  /** One statement: the next key is set, or left out. */
  lemma Step(spec: Spec, t: int, id: Option<Identity>, n: nat)
    ensures Upto(spec, t, id, n + 1) ==
      if PlainSlot(spec, t, id, n).Present? then Upto(spec, t, id, n)[Field(n) := PlainSlot(spec, t, id, n).v]
      else Upto(spec, t, id, n)
  {
  }

  method WriteNames(spec: Spec, t: int, id: Option<Identity>) returns (tags: TagMap)
    ensures tags == Upto(spec, t, id, ROOT)
  {
    Step(spec, t, id, NAME);
    Step(spec, t, id, MANAGED);
    tags := map[Field(NAME) := Text(spec.name)];
    tags := tags[Field(MANAGED) := Word("true")];
  }

  lemma IdentityStep(spec: Spec, t: int, id: Option<Identity>, n: nat)
    requires ROOT <= n <= ACCOUNT_NAME
    ensures var slot := IdentityPart(id, n);
            Upto(spec, t, id, n + 1) ==
              if slot.Present? then Upto(spec, t, id, n)[Field(n) := slot.v] else Upto(spec, t, id, n)
  {
    Step(spec, t, id, n);
  }

  method WriteClocks(spec: Spec, t: int, id: Option<Identity>, before: TagMap) returns (tags: TagMap)
    requires before == Upto(spec, t, id, LAUNCH_TIME)
    ensures tags == Upto(spec, t, id, LOCAL_USERNAME)
  {
    tags := before;
    Step(spec, t, id, LAUNCH_TIME);
    Step(spec, t, id, COMPUTE_SECONDS);
    Step(spec, t, id, OS);
    tags := tags[Field(LAUNCH_TIME) := Instant(t)];
    tags := tags[Field(COMPUTE_SECONDS) := Amount(0.0)];
    tags := tags[Field(OS) := Word("linux")];
  }

  lemma BaseStep(spec: Spec, t: int, id: Option<Identity>, n: nat)
    requires LOCAL_USERNAME <= n <= DNS_NAME
    ensures var slot := Given(if n == LOCAL_USERNAME then spec.localUsername else spec.dnsLabel);
            Upto(spec, t, id, n + 1) ==
              if slot.Present? then Upto(spec, t, id, n)[Field(n) := slot.v] else Upto(spec, t, id, n)
  {
    Step(spec, t, id, n);
  }

  method WriteBase(spec: Spec, t: int, id: Option<Identity>, before: TagMap) returns (tags: TagMap)
    requires before == Upto(spec, t, id, LOCAL_USERNAME)
    ensures tags == Upto(spec, t, id, TTL)
  {
    tags := before;
    BaseStep(spec, t, id, LOCAL_USERNAME);
    BaseStep(spec, t, id, DNS_NAME);
    if spec.localUsername != [] { tags := tags[Field(LOCAL_USERNAME) := Text(spec.localUsername)]; }
    if spec.dnsLabel != [] { tags := tags[Field(DNS_NAME) := Text(spec.dnsLabel)]; }
  }

  method WriteLauncher(spec: Spec, t: int, id: Option<Identity>, before: TagMap) returns (tags: TagMap)
    requires before == Upto(spec, t, id, ROOT)
    ensures tags == Upto(spec, t, id, ACCOUNT_ID)
  {
    tags := before;
    IdentityStep(spec, t, id, ROOT);
    IdentityStep(spec, t, id, CREATED_BY);
    IdentityStep(spec, t, id, VERSION);
    if id.Some? {
      tags := tags[Field(ROOT) := Word("true")];
      tags := tags[Field(CREATED_BY) := Word("spawn-ts")];
      tags := tags[Field(VERSION) := Word("0.8.1")];
    }
  }

  method WriteAccount(spec: Spec, t: int, id: Option<Identity>, before: TagMap) returns (tags: TagMap)
    requires before == Upto(spec, t, id, ACCOUNT_ID)
    ensures tags == Upto(spec, t, id, LAUNCH_TIME)
  {
    tags := before;
    IdentityStep(spec, t, id, ACCOUNT_ID);
    IdentityStep(spec, t, id, ACCOUNT_BASE36);
    IdentityStep(spec, t, id, IAM_USER);
    IdentityStep(spec, t, id, ACCOUNT_NAME);
    if id.Some? {
      tags := tags[Field(ACCOUNT_ID) := Text(id.value.accountId)];
      tags := tags[Field(ACCOUNT_BASE36) := Text(id.value.base36)];
      tags := tags[Field(IAM_USER) := Text(id.value.userArn)];
      if id.value.accountName != [] { tags := tags[Field(ACCOUNT_NAME) := Text(id.value.accountName)]; }
    }
  }

  method WriteTtl(spec: Spec, t: int, id: Option<Identity>, before: TagMap) returns (tags: TagMap)
    requires before == Upto(spec, t, id, TTL)
    ensures tags == Upto(spec, t, id, IDLE_TIMEOUT)
  {
    tags := before;
    Step(spec, t, id, TTL);
    Step(spec, t, id, TTL_DEADLINE);
    if spec.ttlMs > 0.0 {
      tags := tags[Field(TTL) := Duration(D.FormatDuration(spec.ttlMs))];
      tags := tags[Field(TTL_DEADLINE) := Instant(Trunc(t as real + spec.ttlMs))];
    }
  }

  method WriteIdle(spec: Spec, t: int, id: Option<Identity>, before: TagMap) returns (tags: TagMap)
    requires before == Upto(spec, t, id, IDLE_TIMEOUT)
    ensures tags == Upto(spec, t, id, SPOT_REQUEST_TYPE)
  {
    tags := before;
    Step(spec, t, id, IDLE_TIMEOUT);
    Step(spec, t, id, HIBERNATE_ON_IDLE);
    Step(spec, t, id, IDLE_CPU);
    if spec.idleTimeoutMs > 0.0 {
      tags := tags[Field(IDLE_TIMEOUT) := Duration(D.FormatDuration(spec.idleTimeoutMs))];
      if spec.hibernateOnIdle { tags := tags[Field(HIBERNATE_ON_IDLE) := Word("true")]; }
      if spec.idleCpuPercent > 0.0 { tags := tags[Field(IDLE_CPU) := Amount(spec.idleCpuPercent)]; }
    }
  }

  method WriteCostLimits(spec: Spec, t: int, id: Option<Identity>, before: TagMap) returns (tags: TagMap)
    requires before == Upto(spec, t, id, SPOT_REQUEST_TYPE)
    ensures tags == Upto(spec, t, id, ON_COMPLETE)
  {
    tags := before;
    Step(spec, t, id, SPOT_REQUEST_TYPE);
    Step(spec, t, id, COST_LIMIT);
    Step(spec, t, id, PRICE_PER_HOUR);
    if spec.spot { tags := tags[Field(SPOT_REQUEST_TYPE) := Word("one-time")]; }
    if spec.costLimit > 0.0 { tags := tags[Field(COST_LIMIT) := Amount(spec.costLimit)]; }
    if spec.pricePerHour > 0.0 { tags := tags[Field(PRICE_PER_HOUR) := Amount(spec.pricePerHour)]; }
  }

  method WriteCompletion(spec: Spec, t: int, id: Option<Identity>, before: TagMap) returns (tags: TagMap)
    requires before == Upto(spec, t, id, ON_COMPLETE)
    ensures tags == Upto(spec, t, id, SESSION_TIMEOUT)
  {
    tags := before;
    Step(spec, t, id, ON_COMPLETE);
    Step(spec, t, id, COMPLETION_FILE);
    Step(spec, t, id, COMPLETION_DELAY);
    if spec.onComplete != [] {
      tags := tags[Field(ON_COMPLETE) := Text(spec.onComplete)];
      if spec.completionFile != [] { tags := tags[Field(COMPLETION_FILE) := Text(spec.completionFile)]; }
      if spec.completionDelayMs > 0.0 {
        tags := tags[Field(COMPLETION_DELAY) := Duration(D.FormatDuration(spec.completionDelayMs))];
      }
    }
  }

  method WriteSessionTimeout(spec: Spec, t: int, id: Option<Identity>, before: TagMap) returns (tags: TagMap)
    requires before == Upto(spec, t, id, SESSION_TIMEOUT)
    ensures tags == Upto(spec, t, id, PRE_STOP)
  {
    tags := before;
    Step(spec, t, id, SESSION_TIMEOUT);
    if spec.sessionTimeoutMs > 0.0 {
      tags := tags[Field(SESSION_TIMEOUT) := Duration(D.FormatDuration(spec.sessionTimeoutMs))];
    }
  }

  lemma HookStep(spec: Spec, t: int, id: Option<Identity>, n: nat)
    requires PRE_STOP <= n <= ACTIVE_PORTS
    ensures var slot := HookPart(spec.hooks, n);
            Upto(spec, t, id, n + 1) ==
              if slot.Present? then Upto(spec, t, id, n)[Field(n) := slot.v] else Upto(spec, t, id, n)
  {
    Step(spec, t, id, n);
  }

  /** `buildHookTags`, in four stretches. */
  method WriteStopHooks(spec: Spec, t: int, id: Option<Identity>, before: TagMap) returns (tags: TagMap)
    requires before == Upto(spec, t, id, PRE_STOP)
    ensures tags == Upto(spec, t, id, SPOT_WEBHOOK_URL)
  {
    tags := before;
    HookStep(spec, t, id, PRE_STOP);
    HookStep(spec, t, id, PRE_STOP_TIMEOUT);
    if spec.hooks.Some? && spec.hooks.value.preStop != [] {
      var h := spec.hooks.value;
      tags := tags[Field(PRE_STOP) := Text(h.preStop)];
      if h.preStopTimeoutMs > 0.0 {
        tags := tags[Field(PRE_STOP_TIMEOUT) := Duration(D.FormatDuration(h.preStopTimeoutMs))];
      }
    }
  }

  method WriteWebhook(spec: Spec, t: int, id: Option<Identity>, before: TagMap) returns (tags: TagMap)
    requires before == Upto(spec, t, id, SPOT_WEBHOOK_URL)
    ensures tags == Upto(spec, t, id, NOTIFY_URL)
  {
    tags := before;
    HookStep(spec, t, id, SPOT_WEBHOOK_URL);
    HookStep(spec, t, id, WEBHOOK_CORRELATION);
    HookStep(spec, t, id, WEBHOOK_TIMEOUT);
    if spec.hooks.Some? && spec.hooks.value.spotWebhookUrl != [] {
      var h := spec.hooks.value;
      tags := tags[Field(SPOT_WEBHOOK_URL) := Text(h.spotWebhookUrl)];
      if h.webhookCorrelation != [] { tags := tags[Field(WEBHOOK_CORRELATION) := Text(h.webhookCorrelation)]; }
      if h.webhookTimeoutMs > 0.0 {
        tags := tags[Field(WEBHOOK_TIMEOUT) := Duration(D.FormatDuration(h.webhookTimeoutMs))];
      }
    }
  }

  method WriteNotifyHooks(spec: Spec, t: int, id: Option<Identity>, before: TagMap) returns (tags: TagMap)
    requires before == Upto(spec, t, id, NOTIFY_URL)
    ensures tags == Upto(spec, t, id, ACTIVE_PROCESSES)
  {
    tags := before;
    HookStep(spec, t, id, NOTIFY_URL);
    HookStep(spec, t, id, NOTIFY_PLATFORM);
    HookStep(spec, t, id, NOTIFY_COMMAND);
    if spec.hooks.Some? {
      var h := spec.hooks.value;
      if h.notifyUrl != [] { tags := tags[Field(NOTIFY_URL) := Text(h.notifyUrl)]; }
      if h.notifyPlatform != [] { tags := tags[Field(NOTIFY_PLATFORM) := Text(h.notifyPlatform)]; }
      if h.notifyCommand != [] { tags := tags[Field(NOTIFY_COMMAND) := Text(h.notifyCommand)]; }
    }
  }

  method WriteActiveHooks(spec: Spec, t: int, id: Option<Identity>, before: TagMap) returns (tags: TagMap)
    requires before == Upto(spec, t, id, ACTIVE_PROCESSES)
    ensures tags == Upto(spec, t, id, ARRAY_ID)
  {
    tags := before;
    HookStep(spec, t, id, ACTIVE_PROCESSES);
    HookStep(spec, t, id, ACTIVE_PORTS);
    if spec.hooks.Some? {
      var h := spec.hooks.value;
      if h.activeProcesses != [] { tags := tags[Field(ACTIVE_PROCESSES) := Text(h.activeProcesses)]; }
      if h.activePorts != [] { tags := tags[Field(ACTIVE_PORTS) := Text(h.activePorts)]; }
    }
  }

  /** `buildJobArrayTags`. */
  method WriteJobArray(spec: Spec, t: int, id: Option<Identity>, before: TagMap) returns (tags: TagMap)
    requires before == Upto(spec, t, id, ARRAY_ID)
    ensures tags == Upto(spec, t, id, MPI_ENABLED)
  {
    tags := before;
    Step(spec, t, id, ARRAY_ID);
    Step(spec, t, id, ARRAY_NAME);
    Step(spec, t, id, ARRAY_SIZE);
    Step(spec, t, id, ARRAY_INDEX);
    if spec.jobArray.Some? {
      var m := spec.jobArray.value;
      tags := tags[Field(ARRAY_ID) := Text(m.id)];
      tags := tags[Field(ARRAY_NAME) := Text(m.name)];
      tags := tags[Field(ARRAY_SIZE) := Whole(m.size)];
      tags := tags[Field(ARRAY_INDEX) := Whole(m.index)];
    }
  }

  /** `buildMpiTags`. */
  method WriteMpi(spec: Spec, t: int, id: Option<Identity>, before: TagMap) returns (tags: TagMap)
    requires before == Upto(spec, t, id, MPI_ENABLED)
    ensures tags == Upto(spec, t, id, SWEEP_ID)
  {
    tags := before;
    Step(spec, t, id, MPI_ENABLED);
    Step(spec, t, id, MPI_PROCESSES);
    if spec.mpi.Some? && spec.mpi.value.enabled {
      tags := tags[Field(MPI_ENABLED) := Word("true")];
      var n := spec.mpi.value.processesPerNode;
      if n.Some? && n.value > 0 { tags := tags[Field(MPI_PROCESSES) := Whole(n.value)]; }
    }
  }

  method WritePlain(spec: Spec, t: int, id: Option<Identity>) returns (tags: TagMap)
    ensures tags == PlainTags(spec, t, id)
  {
    tags := WriteNames(spec, t, id);
    tags := WriteLauncher(spec, t, id, tags);
    tags := WriteAccount(spec, t, id, tags);
    tags := WriteClocks(spec, t, id, tags);
    tags := WriteBase(spec, t, id, tags);
    tags := WriteTtl(spec, t, id, tags);
    tags := WriteIdle(spec, t, id, tags);
    tags := WriteCostLimits(spec, t, id, tags);
    tags := WriteCompletion(spec, t, id, tags);
    tags := WriteSessionTimeout(spec, t, id, tags);
    tags := WriteStopHooks(spec, t, id, tags);
    tags := WriteWebhook(spec, t, id, tags);
    tags := WriteNotifyHooks(spec, t, id, tags);
    tags := WriteActiveHooks(spec, t, id, tags);
    tags := WriteJobArray(spec, t, id, tags);
    tags := WriteMpi(spec, t, id, tags);
  }

  method AddSweep(plain: TagMap, sweep: Option<Sweep>) returns (tags: TagMap)
    requires ValidSweep(sweep)
    ensures tags == WithSweep(plain, sweep)
  {
    tags := plain;
    if sweep.Some? {
      var count := CountLaunchTags(plain);
      var sweepTags := BuildSweepTags(sweep.value, count + |Reserve(plain)|);
      tags := plain + sweepTags;
    }
  }

  /** None where `validateIdleCpu` throws. */
  method BuildLaunchTags(spec: Spec, t: int, id: Option<Identity>) returns (r: Option<TagMap>)
    requires ValidSweep(spec.sweep)
    ensures r.None? <==> spec.idleCpuPercent < 0.0 || spec.idleCpuPercent > 100.0
    ensures r.Some? ==> ValidSpec(spec) && r.value == LaunchTags(spec, t, id)
  {
    if spec.idleCpuPercent < 0.0 || spec.idleCpuPercent > 100.0 { return None; }
    var plain := WritePlain(spec, t, id);
    var tags := AddSweep(plain, spec.sweep);
    return Some(tags);
  }
}
