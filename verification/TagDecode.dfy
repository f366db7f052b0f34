/**
 * The readers of src/core/tags.ts:286-496: what a launch wrote comes back, block by block, whichever other blocks are
 * there.
 */
module TagDecode {
  import opened Basics
  import J = JsonText
  import D = Duration
  import opened Tags
  import B = TagBudget

  // ---- Reading one tag ----

  function TextAt(tags: TagMap, n: nat): J.Text {
    if Field(n) in tags && tags[Field(n)].Text? then tags[Field(n)].text else []
  }

  predicate WordAt(tags: TagMap, n: nat, word: string) {
    Field(n) in tags && tags[Field(n)] == Word(word)
  }

  datatype Span = NoSpan | Ms(ms: real)

  /** A duration tag, if it parses. */
  function SpanAt(tags: TagMap, n: nat): Span {
    if Field(n) in tags && tags[Field(n)].Duration? then
      var parsed := D.ParseDuration(tags[Field(n)].duration);
      if parsed.Value? then Ms(parsed.ms) else NoSpan
    else NoSpan
  }

  function SpanOrZero(s: Span): real {
    if s.Ms? then s.ms else 0.0
  }

  function AmountAt(tags: TagMap, n: nat): real {
    if Field(n) in tags && tags[Field(n)].Amount? then tags[Field(n)].amount else 0.0
  }

  function WholeAt(tags: TagMap, n: nat): int {
    if Field(n) in tags && tags[Field(n)].Whole? then tags[Field(n)].whole else 0
  }

  function InstantAt(tags: TagMap, n: nat): int {
    if Field(n) in tags && tags[Field(n)].Instant? then tags[Field(n)].ms else 0
  }

  // ---- The readers ----

  datatype Config = Config(
    launchTimeMs: int, ttlDeadlineMs: int, ttlMs: real, idleTimeoutMs: real, hibernateOnIdle: bool,
    idleCpuPercent: real, costLimit: real, pricePerHour: real, onComplete: J.Text, completionFile: J.Text,
    completionDelayMs: real, computeSeconds: real)

  function DecodeConfig(tags: TagMap): Config {
    Config(
      InstantAt(tags, LAUNCH_TIME), InstantAt(tags, TTL_DEADLINE), SpanOrZero(SpanAt(tags, TTL)),
      SpanOrZero(SpanAt(tags, IDLE_TIMEOUT)), WordAt(tags, HIBERNATE_ON_IDLE, "true"), AmountAt(tags, IDLE_CPU),
      AmountAt(tags, COST_LIMIT), AmountAt(tags, PRICE_PER_HOUR), TextAt(tags, ON_COMPLETE),
      TextAt(tags, COMPLETION_FILE), SpanOrZero(SpanAt(tags, COMPLETION_DELAY)), AmountAt(tags, COMPUTE_SECONDS))
  }

  datatype HooksRead = NoHooks | HooksRead(
    preStop: J.Text, preStopTimeout: Span, spotWebhookUrl: J.Text, webhookCorrelation: J.Text, webhookTimeout: Span,
    notifyUrl: J.Text, notifyPlatform: J.Text, notifyCommand: J.Text, activeProcesses: J.Text, activePorts: J.Text)

  const NOTHING := HooksRead([], NoSpan, [], [], NoSpan, [], [], [], [], [])

  function OrNone(h: HooksRead): HooksRead {
    if h == NOTHING then NoHooks else h
  }

  function DecodeHooks(tags: TagMap): HooksRead {
    OrNone(HooksRead(
      TextAt(tags, PRE_STOP), SpanAt(tags, PRE_STOP_TIMEOUT), TextAt(tags, SPOT_WEBHOOK_URL),
      TextAt(tags, WEBHOOK_CORRELATION), SpanAt(tags, WEBHOOK_TIMEOUT), TextAt(tags, NOTIFY_URL),
      TextAt(tags, NOTIFY_PLATFORM), TextAt(tags, NOTIFY_COMMAND), TextAt(tags, ACTIVE_PROCESSES),
      TextAt(tags, ACTIVE_PORTS)))
  }

  function DecodeJobArray(tags: TagMap): Option<JobArray> {
    if TextAt(tags, ARRAY_ID) == [] then None
    else
      Some(JobArray(
        TextAt(tags, ARRAY_ID), TextAt(tags, ARRAY_NAME), WholeAt(tags, ARRAY_INDEX), WholeAt(tags, ARRAY_SIZE)))
  }

  function DecodeMpi(tags: TagMap): Option<Mpi> {
    if !WordAt(tags, MPI_ENABLED, "true") then None
    else Some(Mpi(true, if WholeAt(tags, MPI_PROCESSES) > 0 then Some(WholeAt(tags, MPI_PROCESSES)) else None))
  }

  datatype SweepRead = SweepRead(id: J.Text, name: J.Text, index: int, size: int, parameters: map<J.Text, J.Text>)

  function DecodeParameters(tags: TagMap): map<J.Text, J.Text> {
    map t | t in ParamsOf(tags) :: if tags[Param(t)].Text? then tags[Param(t)].text else []
  }

  function DecodeSweep(tags: TagMap): Option<SweepRead> {
    if TextAt(tags, SWEEP_ID) == [] then None
    else
      Some(SweepRead(
        TextAt(tags, SWEEP_ID), TextAt(tags, SWEEP_NAME), WholeAt(tags, SWEEP_INDEX), WholeAt(tags, SWEEP_SIZE),
        DecodeParameters(tags)))
  }

  // ---- What a launch asked for, as far as it is recorded ----

  /** A duration that is set, to the nearest millisecond. */
  function Recorded(ms: real): Span {
    if ms > 0.0 then Ms(Round(ms) as real) else NoSpan
  }

  function Positive(x: real): real {
    if x > 0.0 then x else 0.0
  }

  /** The lifecycle settings of a spec, the ones that are off at their defaults. */
  function NormalConfig(spec: Spec, launchTimeMs: int): Config {
    Config(
      launchTimeMs, if spec.ttlMs > 0.0 then Trunc(launchTimeMs as real + spec.ttlMs) else 0,
      SpanOrZero(Recorded(spec.ttlMs)),
      SpanOrZero(Recorded(spec.idleTimeoutMs)), spec.idleTimeoutMs > 0.0 && spec.hibernateOnIdle,
      if spec.idleTimeoutMs > 0.0 then Positive(spec.idleCpuPercent) else 0.0,
      Positive(spec.costLimit), Positive(spec.pricePerHour), spec.onComplete,
      if spec.onComplete != [] then spec.completionFile else [],
      if spec.onComplete != [] then SpanOrZero(Recorded(spec.completionDelayMs)) else 0.0, 0.0)
  }

  /** Timeout and correlation only with what they belong to. */
  function NormalHooks(h: Hooks): HooksRead {
    OrNone(HooksRead(
      h.preStop, if h.preStop != [] then Recorded(h.preStopTimeoutMs) else NoSpan,
      h.spotWebhookUrl, if h.spotWebhookUrl != [] then h.webhookCorrelation else [],
      if h.spotWebhookUrl != [] then Recorded(h.webhookTimeoutMs) else NoSpan,
      h.notifyUrl, h.notifyPlatform, h.notifyCommand, h.activeProcesses, h.activePorts))
  }

  // ---- The fixed tags ----

  /** Every fixed tag before the sweep block is what its slot says. */
  predicate Holds(tags: TagMap, n: nat, slot: Slot) {
    (Field(n) in tags <==> slot.Present?) && (slot.Present? ==> tags[Field(n)] == slot.v)
  }

  lemma PlainHolds(spec: Spec, t: int, id: Option<Identity>, n: nat)
    requires n < SWEEP_ID
    ensures Holds(PlainTags(spec, t, id), n, PlainSlot(spec, t, id, n))
  {
  }

  lemma SweepTagsAreNotPlain(m: Sweep, used: nat, n: nat)
    requires ValidSweep(Some(m)) && n < SWEEP_ID
    ensures Field(n) !in SweepTags(m, used)
  {
    B.ChosenCard(m, used);
    B.ParamTagKeys(Chosen(m, used));
    NotInBlock(m, ParamTags(Chosen(m, used)), n);
  }

  lemma NotInBlock(m: Sweep, params: TagMap, n: nat)
    requires n < SWEEP_ID && forall k :: k in params ==> k.Param?
    ensures Field(n) !in SweepBlock(m) + params
  {
  }

  lemma LaunchHolds(spec: Spec, t: int, id: Option<Identity>, n: nat)
    requires ValidSpec(spec) && n < SWEEP_ID
    ensures Holds(LaunchTags(spec, t, id), n, PlainSlot(spec, t, id, n))
  {
    PlainHolds(spec, t, id, n);
    if spec.sweep.Some? {
      var plain := PlainTags(spec, t, id);
      SweepTagsAreNotPlain(spec.sweep.value, LaunchTagCount(plain) + |Reserve(plain)|, n);
    }
  }

  /** All of them at once. */
  predicate HoldsAll(tags: TagMap, spec: Spec, t: int, id: Option<Identity>) {
    forall n: nat :: n < SWEEP_ID ==> Holds(tags, n, PlainSlot(spec, t, id, n))
  }

  lemma LaunchHoldsAll(spec: Spec, t: int, id: Option<Identity>)
    requires ValidSpec(spec)
    ensures HoldsAll(LaunchTags(spec, t, id), spec, t, id)
  {
    forall n: nat | n < SWEEP_ID ensures Holds(LaunchTags(spec, t, id), n, PlainSlot(spec, t, id, n)) {
      LaunchHolds(spec, t, id, n);
    }
  }

  // ---- Slot by slot ----

  lemma TimeReads(tags: TagMap, n: nat, ms: real)
    requires Holds(tags, n, Time(ms))
    ensures SpanAt(tags, n) == Recorded(ms)
  {
    if ms > 0.0 { D.FormattedReadsAs(ms); }
  }

  /**
   * A duration is recorded as it is exactly when it is a whole number of milliseconds; one below half of one is lost.
   */
  lemma RecordedIff(ms: real)
    requires ms > 0.0
    ensures SpanOrZero(Recorded(ms)) == ms <==> IsWhole(ms)
    ensures SpanOrZero(Recorded(ms)) == 0.0 <==> ms < 0.5
  {
    RoundWhole(ms);
    RoundFloor(ms);
  }

  lemma GivenReads(tags: TagMap, n: nat, text: J.Text)
    requires Holds(tags, n, Given(text))
    ensures TextAt(tags, n) == text
  {
  }

  lemma AbsentReads(tags: TagMap, n: nat)
    requires Holds(tags, n, Absent)
    ensures TextAt(tags, n) == [] && SpanAt(tags, n) == NoSpan && AmountAt(tags, n) == 0.0 && WholeAt(tags, n) == 0
    ensures InstantAt(tags, n) == 0 && forall w :: !WordAt(tags, n, w)
  {
  }

  lemma AmountReads(tags: TagMap, n: nat, c: bool, x: real)
    requires Holds(tags, n, When(c && x > 0.0, Amount(x)))
    ensures AmountAt(tags, n) == if c then Positive(x) else 0.0
  {
  }

  // ---- The blocks ----

  lemma TimesDecode(tags: TagMap, spec: Spec, t: int, id: Option<Identity>)
    requires HoldsAll(tags, spec, t, id)
    ensures InstantAt(tags, LAUNCH_TIME) == t
    ensures InstantAt(tags, TTL_DEADLINE) == if spec.ttlMs > 0.0 then Trunc(t as real + spec.ttlMs) else 0
    ensures SpanAt(tags, TTL) == Recorded(spec.ttlMs)
    ensures SpanAt(tags, IDLE_TIMEOUT) == Recorded(spec.idleTimeoutMs)
    ensures SpanAt(tags, COMPLETION_DELAY) == if spec.onComplete != [] then Recorded(spec.completionDelayMs) else NoSpan
  {
    assert Holds(tags, LAUNCH_TIME, PlainSlot(spec, t, id, LAUNCH_TIME));
    assert Holds(tags, TTL_DEADLINE, PlainSlot(spec, t, id, TTL_DEADLINE));
    assert Holds(tags, TTL, PlainSlot(spec, t, id, TTL));
    TimeReads(tags, TTL, spec.ttlMs);
    assert Holds(tags, IDLE_TIMEOUT, PlainSlot(spec, t, id, IDLE_TIMEOUT));
    TimeReads(tags, IDLE_TIMEOUT, spec.idleTimeoutMs);
    assert Holds(tags, COMPLETION_DELAY, PlainSlot(spec, t, id, COMPLETION_DELAY));
    if spec.onComplete != [] {
      TimeReads(tags, COMPLETION_DELAY, spec.completionDelayMs);
    } else {
      AbsentReads(tags, COMPLETION_DELAY);
    }
  }

  lemma AmountsDecode(tags: TagMap, spec: Spec, t: int, id: Option<Identity>)
    requires HoldsAll(tags, spec, t, id)
    ensures AmountAt(tags, IDLE_CPU) == if spec.idleTimeoutMs > 0.0 then Positive(spec.idleCpuPercent) else 0.0
    ensures AmountAt(tags, COST_LIMIT) == Positive(spec.costLimit)
    ensures AmountAt(tags, PRICE_PER_HOUR) == Positive(spec.pricePerHour)
    ensures AmountAt(tags, COMPUTE_SECONDS) == 0.0
  {
    assert Holds(tags, IDLE_CPU, PlainSlot(spec, t, id, IDLE_CPU));
    AmountReads(tags, IDLE_CPU, spec.idleTimeoutMs > 0.0, spec.idleCpuPercent);
    assert Holds(tags, COST_LIMIT, PlainSlot(spec, t, id, COST_LIMIT));
    AmountReads(tags, COST_LIMIT, true, spec.costLimit);
    assert Holds(tags, PRICE_PER_HOUR, PlainSlot(spec, t, id, PRICE_PER_HOUR));
    AmountReads(tags, PRICE_PER_HOUR, true, spec.pricePerHour);
    assert Holds(tags, COMPUTE_SECONDS, PlainSlot(spec, t, id, COMPUTE_SECONDS));
  }

  lemma TextsDecode(tags: TagMap, spec: Spec, t: int, id: Option<Identity>)
    requires HoldsAll(tags, spec, t, id)
    ensures WordAt(tags, HIBERNATE_ON_IDLE, "true") == (spec.idleTimeoutMs > 0.0 && spec.hibernateOnIdle)
    ensures TextAt(tags, ON_COMPLETE) == spec.onComplete
    ensures TextAt(tags, COMPLETION_FILE) == if spec.onComplete != [] then spec.completionFile else []
  {
    assert Holds(tags, HIBERNATE_ON_IDLE, PlainSlot(spec, t, id, HIBERNATE_ON_IDLE));
    assert Holds(tags, ON_COMPLETE, PlainSlot(spec, t, id, ON_COMPLETE));
    GivenReads(tags, ON_COMPLETE, spec.onComplete);
    assert Holds(tags, COMPLETION_FILE, PlainSlot(spec, t, id, COMPLETION_FILE));
  }

  /** The lifecycle settings come back. */
  lemma ConfigDecodes(spec: Spec, t: int, id: Option<Identity>)
    requires ValidSpec(spec)
    ensures DecodeConfig(LaunchTags(spec, t, id)) == NormalConfig(spec, t)
  {
    var tags := LaunchTags(spec, t, id);
    LaunchHoldsAll(spec, t, id);
    TimesDecode(tags, spec, t, id);
    AmountsDecode(tags, spec, t, id);
    TextsDecode(tags, spec, t, id);
  }

  lemma HookTextsDecode(tags: TagMap, h: Hooks)
    requires forall n: nat :: PRE_STOP <= n <= ACTIVE_PORTS ==> Holds(tags, n, HookSlot(h, n))
    ensures TextAt(tags, PRE_STOP) == h.preStop && TextAt(tags, SPOT_WEBHOOK_URL) == h.spotWebhookUrl
    ensures TextAt(tags, WEBHOOK_CORRELATION) == if h.spotWebhookUrl != [] then h.webhookCorrelation else []
    ensures TextAt(tags, NOTIFY_URL) == h.notifyUrl && TextAt(tags, NOTIFY_PLATFORM) == h.notifyPlatform
    ensures TextAt(tags, NOTIFY_COMMAND) == h.notifyCommand && TextAt(tags, ACTIVE_PROCESSES) == h.activeProcesses
    ensures TextAt(tags, ACTIVE_PORTS) == h.activePorts
  {
    assert Holds(tags, PRE_STOP, HookSlot(h, PRE_STOP));
    assert Holds(tags, SPOT_WEBHOOK_URL, HookSlot(h, SPOT_WEBHOOK_URL));
    assert Holds(tags, WEBHOOK_CORRELATION, HookSlot(h, WEBHOOK_CORRELATION));
    assert Holds(tags, NOTIFY_URL, HookSlot(h, NOTIFY_URL));
    assert Holds(tags, NOTIFY_PLATFORM, HookSlot(h, NOTIFY_PLATFORM));
    assert Holds(tags, NOTIFY_COMMAND, HookSlot(h, NOTIFY_COMMAND));
    assert Holds(tags, ACTIVE_PROCESSES, HookSlot(h, ACTIVE_PROCESSES));
    assert Holds(tags, ACTIVE_PORTS, HookSlot(h, ACTIVE_PORTS));
  }

  lemma HookSpansDecode(tags: TagMap, h: Hooks)
    requires forall n: nat :: PRE_STOP <= n <= ACTIVE_PORTS ==> Holds(tags, n, HookSlot(h, n))
    ensures SpanAt(tags, PRE_STOP_TIMEOUT) == if h.preStop != [] then Recorded(h.preStopTimeoutMs) else NoSpan
    ensures SpanAt(tags, WEBHOOK_TIMEOUT) == if h.spotWebhookUrl != [] then Recorded(h.webhookTimeoutMs) else NoSpan
  {
    assert Holds(tags, PRE_STOP_TIMEOUT, HookSlot(h, PRE_STOP_TIMEOUT));
    if h.preStop != [] {
      TimeReads(tags, PRE_STOP_TIMEOUT, h.preStopTimeoutMs);
    } else {
      AbsentReads(tags, PRE_STOP_TIMEOUT);
    }
    assert Holds(tags, WEBHOOK_TIMEOUT, HookSlot(h, WEBHOOK_TIMEOUT));
    if h.spotWebhookUrl != [] {
      TimeReads(tags, WEBHOOK_TIMEOUT, h.webhookTimeoutMs);
    } else {
      AbsentReads(tags, WEBHOOK_TIMEOUT);
    }
  }

  lemma NoHooksDecode(tags: TagMap)
    requires forall n: nat :: PRE_STOP <= n <= ACTIVE_PORTS ==> Holds(tags, n, Absent)
    ensures DecodeHooks(tags) == NoHooks
  {
    forall n: nat | PRE_STOP <= n <= ACTIVE_PORTS ensures TextAt(tags, n) == [] && SpanAt(tags, n) == NoSpan {
      AbsentReads(tags, n);
    }
  }

  lemma HookRange(tags: TagMap, spec: Spec, t: int, id: Option<Identity>)
    requires HoldsAll(tags, spec, t, id)
    ensures forall n: nat :: PRE_STOP <= n <= ACTIVE_PORTS ==> Holds(tags, n, HookPart(spec.hooks, n))
  {
    forall n: nat | PRE_STOP <= n <= ACTIVE_PORTS ensures Holds(tags, n, HookPart(spec.hooks, n)) {
      assert Holds(tags, n, PlainSlot(spec, t, id, n));
    }
  }

  /** The hooks come back. */
  lemma HooksDecode(spec: Spec, t: int, id: Option<Identity>)
    requires ValidSpec(spec)
    ensures DecodeHooks(LaunchTags(spec, t, id)) == if spec.hooks.Some? then NormalHooks(spec.hooks.value) else NoHooks
  {
    var tags := LaunchTags(spec, t, id);
    LaunchHoldsAll(spec, t, id);
    HookRange(tags, spec, t, id);
    assert forall n: nat :: PRE_STOP <= n <= ACTIVE_PORTS ==> Holds(tags, n, HookPart(spec.hooks, n));
    if spec.hooks.Some? {
      HookTextsDecode(tags, spec.hooks.value);
      HookSpansDecode(tags, spec.hooks.value);
    } else {
      NoHooksDecode(tags);
    }
  }

  /** The job array comes back, unless its id is empty. */
  lemma JobArrayDecodes(spec: Spec, t: int, id: Option<Identity>)
    requires ValidSpec(spec)
    ensures DecodeJobArray(LaunchTags(spec, t, id)) ==
      if spec.jobArray.Some? && spec.jobArray.value.id != [] then spec.jobArray else None
  {
    var tags := LaunchTags(spec, t, id);
    LaunchHoldsAll(spec, t, id);
    assert Holds(tags, ARRAY_ID, PlainSlot(spec, t, id, ARRAY_ID));
    assert Holds(tags, ARRAY_NAME, PlainSlot(spec, t, id, ARRAY_NAME));
    assert Holds(tags, ARRAY_SIZE, PlainSlot(spec, t, id, ARRAY_SIZE));
    assert Holds(tags, ARRAY_INDEX, PlainSlot(spec, t, id, ARRAY_INDEX));
  }

  /** The MPI declaration comes back, a process count that is not positive dropped. */
  lemma MpiDecodes(spec: Spec, t: int, id: Option<Identity>)
    requires ValidSpec(spec)
    ensures DecodeMpi(LaunchTags(spec, t, id)) ==
      if spec.mpi.Some? && spec.mpi.value.enabled then
        var n := spec.mpi.value.processesPerNode;
        Some(Mpi(true, if n.Some? && n.value > 0 then n else None))
      else None
  {
    var tags := LaunchTags(spec, t, id);
    LaunchHoldsAll(spec, t, id);
    assert Holds(tags, MPI_ENABLED, PlainSlot(spec, t, id, MPI_ENABLED));
    assert Holds(tags, MPI_PROCESSES, PlainSlot(spec, t, id, MPI_PROCESSES));
  }

  // ---- The sweep ----

  /** Parameters as a record. */
  function AsRecord(entries: seq<J.Entry>): map<J.Text, J.Text>
    requires Texts(entries)
  {
    if |entries| == 0 then map[]
    else
      var n := |entries| - 1;
      AsRecord(entries[..n])[entries[n].key := entries[n].value.s]
  }

  lemma {:induction false} ParametersDecode(entries: seq<J.Entry>)
    requires Texts(entries)
    ensures DecodeParameters(ParamTags(entries)) == AsRecord(entries)
  {
    if |entries| > 0 {
      var n := |entries| - 1;
      ParametersDecode(entries[..n]);
      ParameterStep(ParamTags(entries[..n]), entries[n].key, entries[n].value.s);
    }
  }

  lemma ParameterStep(tags: TagMap, key: J.Text, value: J.Text)
    ensures DecodeParameters(tags[Param(key) := Text(value)]) == DecodeParameters(tags)[key := value]
  {
    var more := tags[Param(key) := Text(value)];
    forall t ensures t in ParamsOf(more) <==> t in ParamsOf(tags) || t == key {
      assert t in ParamsOf(more) <==> Param(t) in more;
      assert t in ParamsOf(tags) <==> Param(t) in tags;
    }
  }

  lemma SameParameters(tags: TagMap, params: TagMap)
    requires forall t ::
               (Param(t) in tags <==> Param(t) in params) && (Param(t) in params ==> tags[Param(t)] == params[Param(t)])
    ensures DecodeParameters(tags) == DecodeParameters(params)
  {
    forall t ensures t in ParamsOf(tags) <==> t in ParamsOf(params) {
      assert t in ParamsOf(tags) <==> Param(t) in tags;
      assert t in ParamsOf(params) <==> Param(t) in params;
    }
  }

  /** What a block of parameters over fixed tags reads as. */
  lemma OverlaidParameters(plain: TagMap, block: TagMap, params: TagMap)
    requires (forall k :: k in plain ==> k.Field?) && (forall k :: k in block ==> k.Field?)
    ensures DecodeParameters(plain + (block + params)) == DecodeParameters(params)
  {
    var tags := plain + (block + params);
    forall t ensures (Param(t) in tags <==> Param(t) in params) &&
      (Param(t) in params ==> tags[Param(t)] == params[Param(t)]) {
      assert Param(t) !in plain && Param(t) !in block;
    }
    SameParameters(tags, params);
  }

  lemma OverlaidBlock(plain: TagMap, m: Sweep, params: TagMap)
    requires forall k :: k in params ==> k.Param?
    ensures var tags := plain + (SweepBlock(m) + params);
            && TextAt(tags, SWEEP_ID) == m.id && TextAt(tags, SWEEP_NAME) == m.name
            && WholeAt(tags, SWEEP_INDEX) == m.index && WholeAt(tags, SWEEP_SIZE) == m.size
  {
    assert Field(SWEEP_ID) !in params && Field(SWEEP_NAME) !in params;
    assert Field(SWEEP_INDEX) !in params && Field(SWEEP_SIZE) !in params;
  }

  lemma OverlaidSweep(plain: TagMap, m: Sweep, params: TagMap)
    requires (forall k :: k in plain ==> k.Field?) && (forall k :: k in params ==> k.Param?)
    ensures DecodeSweep(plain + (SweepBlock(m) + params)) ==
      if m.id == [] then None else Some(SweepRead(m.id, m.name, m.index, m.size, DecodeParameters(params)))
  {
    OverlaidBlock(plain, m, params);
    OverlaidParameters(plain, SweepBlock(m), params);
  }

  /** The parameters of a launch's sweep that fitted: the first of the sorted list. */
  function Fitting(spec: Spec, t: int, id: Option<Identity>): (chosen: seq<J.Entry>)
    requires ValidSpec(spec) && spec.sweep.Some?
    ensures Texts(chosen) && chosen <= J.SortEntries(spec.sweep.value.parameters)
  {
    var plain := PlainTags(spec, t, id);
    SortedAreTexts(spec.sweep.value.parameters);
    Chosen(spec.sweep.value, LaunchTagCount(plain) + |Reserve(plain)|)
  }

  /** The sweep comes back with the parameters that fitted, unless its id is empty. */
  lemma SweepDecodes(spec: Spec, t: int, id: Option<Identity>)
    requires ValidSpec(spec)
    ensures DecodeSweep(LaunchTags(spec, t, id)) ==
      if spec.sweep.None? || spec.sweep.value.id == [] then None
      else
        var m := spec.sweep.value;
        Some(SweepRead(m.id, m.name, m.index, m.size, AsRecord(Fitting(spec, t, id))))
  {
    var plain := PlainTags(spec, t, id);
    B.PlainIsPlain(spec, t, id);
    if spec.sweep.None? {
      assert Field(SWEEP_ID) !in plain;
    } else {
      var chosen := Fitting(spec, t, id);
      B.ParamTagKeys(chosen);
      OverlaidSweep(plain, spec.sweep.value, ParamTags(chosen));
      ParametersDecode(chosen);
    }
  }

  // ---- What a real launch sends ----

  /** The hooks that stay tags. */
  function TaggedHooks(h: HooksRead): HooksRead {
    if h.NoHooks? then NoHooks else OrNone(NOTHING.(preStop := h.preStop, preStopTimeout := h.preStopTimeout))
  }

  /** A tag that is sent reads as before. */
  lemma SentReads(tags: TagMap, username: J.Text, digest: J.Text, f: TagMap, n: nat)
    requires f == B.SentOf(tags, username, digest) && n != LOCAL_USERNAME && n != CONFIG && !IsSetting(Field(n))
    ensures TextAt(f, n) == TextAt(tags, n) && SpanAt(f, n) == SpanAt(tags, n) && AmountAt(f, n) == AmountAt(tags, n)
    ensures WholeAt(f, n) == WholeAt(tags, n) && InstantAt(f, n) == InstantAt(tags, n)
    ensures forall w :: WordAt(f, n, w) == WordAt(tags, n, w)
  {
    B.SentKeeps(tags, username, digest, n);
  }

  /** A setting is not sent. */
  lemma SettingUnread(tags: TagMap, username: J.Text, digest: J.Text, f: TagMap, n: nat)
    requires f == B.SentOf(tags, username, digest) && IsSetting(Field(n))
    ensures TextAt(f, n) == [] && SpanAt(f, n) == NoSpan && AmountAt(f, n) == 0.0
  {
    assert Field(n) !in f;
  }

  /** Of the lifecycle settings only the idle CPU threshold is missing. */
  lemma SentConfig(tags: TagMap, username: J.Text, digest: J.Text)
    ensures DecodeConfig(B.SentOf(tags, username, digest)) == DecodeConfig(tags).(idleCpuPercent := 0.0)
  {
    var f := B.SentOf(tags, username, digest);
    SettingUnread(tags, username, digest, f, IDLE_CPU);
    SentReads(tags, username, digest, f, LAUNCH_TIME);
    SentReads(tags, username, digest, f, TTL_DEADLINE);
    SentReads(tags, username, digest, f, TTL);
    SentReads(tags, username, digest, f, IDLE_TIMEOUT);
    SentReads(tags, username, digest, f, HIBERNATE_ON_IDLE);
    SentReads(tags, username, digest, f, COST_LIMIT);
    SentReads(tags, username, digest, f, PRICE_PER_HOUR);
    SentReads(tags, username, digest, f, ON_COMPLETE);
    SentReads(tags, username, digest, f, COMPLETION_FILE);
    SentReads(tags, username, digest, f, COMPLETION_DELAY);
    SentReads(tags, username, digest, f, COMPUTE_SECONDS);
  }

  /** Of the hooks only the pre-stop command and its timeout are left. */
  lemma SentHooks(tags: TagMap, username: J.Text, digest: J.Text)
    ensures DecodeHooks(B.SentOf(tags, username, digest)) == TaggedHooks(DecodeHooks(tags))
  {
    var f := B.SentOf(tags, username, digest);
    SentReads(tags, username, digest, f, PRE_STOP);
    SentReads(tags, username, digest, f, PRE_STOP_TIMEOUT);
    forall n: nat | SPOT_WEBHOOK_URL <= n <= ACTIVE_PORTS ensures TextAt(f, n) == [] && SpanAt(f, n) == NoSpan {
      SettingUnread(tags, username, digest, f, n);
    }
  }

  lemma SentArray(tags: TagMap, username: J.Text, digest: J.Text)
    ensures DecodeJobArray(B.SentOf(tags, username, digest)) == DecodeJobArray(tags)
    ensures DecodeMpi(B.SentOf(tags, username, digest)) == DecodeMpi(tags)
  {
    var f := B.SentOf(tags, username, digest);
    SentReads(tags, username, digest, f, ARRAY_ID);
    SentReads(tags, username, digest, f, ARRAY_NAME);
    SentReads(tags, username, digest, f, ARRAY_INDEX);
    SentReads(tags, username, digest, f, ARRAY_SIZE);
    SentReads(tags, username, digest, f, MPI_ENABLED);
    SentReads(tags, username, digest, f, MPI_PROCESSES);
  }

  lemma SentSweep(tags: TagMap, username: J.Text, digest: J.Text)
    ensures DecodeSweep(B.SentOf(tags, username, digest)) == DecodeSweep(tags)
  {
    var f := B.SentOf(tags, username, digest);
    SentReads(tags, username, digest, f, SWEEP_ID);
    SentReads(tags, username, digest, f, SWEEP_NAME);
    SentReads(tags, username, digest, f, SWEEP_INDEX);
    SentReads(tags, username, digest, f, SWEEP_SIZE);
    SameParameters(f, tags);
  }

  /** What the real provider reads of its own launch: the lifecycle settings but for the idle CPU threshold. */
  lemma SentConfigDecodes(spec: Spec, t: int, id: Option<Identity>, username: J.Text, digest: J.Text)
    requires ValidSpec(spec)
    ensures DecodeConfig(B.SentOf(LaunchTags(spec, t, id), username, digest)) ==
              NormalConfig(spec, t).(idleCpuPercent := 0.0)
  {
    SentConfig(LaunchTags(spec, t, id), username, digest);
    ConfigDecodes(spec, t, id);
  }

  /** Of the hooks the pre-stop command and its timeout. */
  lemma SentHooksDecode(spec: Spec, t: int, id: Option<Identity>, username: J.Text, digest: J.Text)
    requires ValidSpec(spec)
    ensures DecodeHooks(B.SentOf(LaunchTags(spec, t, id), username, digest)) ==
      if spec.hooks.None? || spec.hooks.value.preStop == [] then NoHooks
      else NOTHING.(preStop := spec.hooks.value.preStop, preStopTimeout := Recorded(spec.hooks.value.preStopTimeoutMs))
  {
    SentHooks(LaunchTags(spec, t, id), username, digest);
    HooksDecode(spec, t, id);
  }

  /** Job array, MPI declaration and sweep are read as from the whole tag set. */
  lemma SentMembershipDecodes(spec: Spec, t: int, id: Option<Identity>, username: J.Text, digest: J.Text)
    requires ValidSpec(spec)
    ensures var tags := LaunchTags(spec, t, id);
            var f := B.SentOf(tags, username, digest);
            DecodeJobArray(f) == DecodeJobArray(tags) && DecodeMpi(f) == DecodeMpi(tags) &&
              DecodeSweep(f) == DecodeSweep(tags)
  {
    SentArray(LaunchTags(spec, t, id), username, digest);
    SentSweep(LaunchTags(spec, t, id), username, digest);
  }

  /** A setting that is set shows in what the whole tag set says, and not in what is sent. */
  lemma SettingShows(spec: Spec, t: int, id: Option<Identity>, n: nat)
    requires IsSetting(Field(n)) && PlainSlot(spec, t, id, n).Present?
    ensures NormalConfig(spec, t).idleCpuPercent > 0.0
         || (spec.hooks.Some? && NormalHooks(spec.hooks.value) != TaggedHooks(NormalHooks(spec.hooks.value)))
  {
  }

  lemma NoSettingShows(spec: Spec, t: int, id: Option<Identity>)
    requires ValidSpec(spec) && forall n: nat :: IsSetting(Field(n)) ==> PlainSlot(spec, t, id, n).Absent?
    ensures NormalConfig(spec, t).idleCpuPercent == 0.0
    ensures spec.hooks.Some? ==> NormalHooks(spec.hooks.value) == TaggedHooks(NormalHooks(spec.hooks.value))
  {
    assert PlainSlot(spec, t, id, IDLE_CPU).Absent?;
    if spec.hooks.Some? {
      var h := spec.hooks.value;
      assert PlainSlot(spec, t, id, SPOT_WEBHOOK_URL) == Given(h.spotWebhookUrl);
      assert PlainSlot(spec, t, id, NOTIFY_URL) == Given(h.notifyUrl);
      assert PlainSlot(spec, t, id, NOTIFY_PLATFORM) == Given(h.notifyPlatform);
      assert PlainSlot(spec, t, id, NOTIFY_COMMAND) == Given(h.notifyCommand);
      assert PlainSlot(spec, t, id, ACTIVE_PROCESSES) == Given(h.activeProcesses);
      assert PlainSlot(spec, t, id, ACTIVE_PORTS) == Given(h.activePorts);
    }
  }

  /** A launch gets a config object exactly when some setting is set. */
  lemma ObjectIff(spec: Spec, t: int, id: Option<Identity>)
    requires ValidSpec(spec)
    ensures HasObject(LaunchTags(spec, t, id)) <==>
              exists n: nat :: IsSetting(Field(n)) && PlainSlot(spec, t, id, n).Present?
  {
    var tags := LaunchTags(spec, t, id);
    LaunchHoldsAll(spec, t, id);
    if HasObject(tags) {
      var k :| k in tags && IsSetting(k) && tags[k] != Text([]);
      assert Holds(tags, k.n, PlainSlot(spec, t, id, k.n));
    }
    forall n: nat | IsSetting(Field(n)) && PlainSlot(spec, t, id, n).Present? ensures HasObject(tags) {
      assert Holds(tags, n, PlainSlot(spec, t, id, n));
      assert Field(n) in tags && tags[Field(n)] != Text([]);
    }
  }

  /** All lifecycle settings and hooks come back from what is sent exactly when the launch needs no config object. */
  lemma NothingLostIff(spec: Spec, t: int, id: Option<Identity>, username: J.Text, digest: J.Text)
    requires ValidSpec(spec)
    ensures var tags := LaunchTags(spec, t, id);
            var f := B.SentOf(tags, username, digest);
            DecodeConfig(f) == DecodeConfig(tags) && DecodeHooks(f) == DecodeHooks(tags) <==> !HasObject(tags)
  {
    var tags := LaunchTags(spec, t, id);
    SentConfig(tags, username, digest);
    SentHooks(tags, username, digest);
    ConfigDecodes(spec, t, id);
    HooksDecode(spec, t, id);
    ObjectIff(spec, t, id);
    if HasObject(tags) {
      var n: nat :| IsSetting(Field(n)) && PlainSlot(spec, t, id, n).Present?;
      SettingShows(spec, t, id, n);
    } else {
      NoSettingShows(spec, t, id);
    }
  }
}
