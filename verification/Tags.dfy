/**
 * The tag contract of src/core/tags.ts: what a launch writes, what the readers get back, and the budget of AWS's 50
 * tags (src/core/tags.ts:93-102, 179-496, 590-652; src/aws/ec2.ts:165-213; src/core/launchconfig.ts:74-85).
 *
 * A fixed tag key is the position of its name in TagName; a parameter tag `spawn:param:<name>` is `Param(name)`.
 */
module Tags {
  import opened Basics
  import J = JsonText
  import D = Duration

  datatype Key = Field(n: nat) | Param(name: J.Text)

  /** A tag's value by what it was printed from: user text, a fixed word, a duration, a time or a number. */
  datatype TagValue =
    | Text(text: J.Text)
    | Word(word: string)
    | Duration(duration: string)
    | Instant(ms: int)
    | Amount(amount: real)
    | Whole(whole: int)

  type TagMap = map<Key, TagValue>

  const NAME := 0
  const MANAGED := 1
  const ROOT := 2
  const CREATED_BY := 3
  const VERSION := 4
  const ACCOUNT_ID := 5
  const ACCOUNT_BASE36 := 6
  const IAM_USER := 7
  const ACCOUNT_NAME := 8
  const LAUNCH_TIME := 9
  const COMPUTE_SECONDS := 10
  const OS := 11
  const LOCAL_USERNAME := 12
  const DNS_NAME := 13
  const TTL := 14
  const TTL_DEADLINE := 15
  const IDLE_TIMEOUT := 16
  const HIBERNATE_ON_IDLE := 17
  const IDLE_CPU := 18
  const SPOT_REQUEST_TYPE := 19
  const COST_LIMIT := 20
  const PRICE_PER_HOUR := 21
  const ON_COMPLETE := 22
  const COMPLETION_FILE := 23
  const COMPLETION_DELAY := 24
  const SESSION_TIMEOUT := 25
  const PRE_STOP := 26
  const PRE_STOP_TIMEOUT := 27
  const SPOT_WEBHOOK_URL := 28
  const WEBHOOK_CORRELATION := 29
  const WEBHOOK_TIMEOUT := 30
  const NOTIFY_URL := 31
  const NOTIFY_PLATFORM := 32
  const NOTIFY_COMMAND := 33
  const ACTIVE_PROCESSES := 34
  const ACTIVE_PORTS := 35
  const ARRAY_ID := 36
  const ARRAY_NAME := 37
  const ARRAY_SIZE := 38
  const ARRAY_INDEX := 39
  const MPI_ENABLED := 40
  const MPI_PROCESSES := 41
  const SWEEP_ID := 42
  const SWEEP_NAME := 43
  const SWEEP_SIZE := 44
  const SWEEP_INDEX := 45
  const CONFIG := 46
  const LAST_HEARTBEAT := 47
  const SPORED_VERSION := 48
  const LOGGED_IN_COUNT := 49
  const COST_FOOTPRINT := 50
  const DNS_STATUS := 51
  const DNS_ERROR := 52

  /** The wire names, all but the first after `spawn:`, in the order in which a launch writes them. */
  function TagName(n: nat): string {
    match n
    case 0 => "Name"
    case 1 => "managed"
    case 2 => "root"
    case 3 => "created-by"
    case 4 => "version"
    case 5 => "account-id"
    case 6 => "account-base36"
    case 7 => "iam-user"
    case 8 => "account-name"
    case 9 => "launch-time"
    case 10 => "compute-seconds"
    case 11 => "os"
    case 12 => "local-username"
    case 13 => "dns-name"
    case 14 => "ttl"
    case 15 => "ttl-deadline"
    case 16 => "idle-timeout"
    case 17 => "hibernate-on-idle"
    case 18 => "idle-cpu"
    case 19 => "spot-request-type"
    case 20 => "cost-limit"
    case 21 => "price-per-hour"
    case 22 => "on-complete"
    case 23 => "completion-file"
    case 24 => "completion-delay"
    case 25 => "session-timeout"
    case 26 => "pre-stop"
    case 27 => "pre-stop-timeout"
    case 28 => "spot-webhook-url"
    case 29 => "webhook-correlation"
    case 30 => "webhook-timeout"
    case 31 => "notify-url"
    case 32 => "notify-platform"
    case 33 => "notify-command"
    case 34 => "active-processes"
    case 35 => "active-ports"
    case 36 => "job-array-id"
    case 37 => "job-array-name"
    case 38 => "job-array-size"
    case 39 => "job-array-index"
    case 40 => "mpi-enabled"
    case 41 => "mpi-processes-per-node"
    case 42 => "sweep-id"
    case 43 => "sweep-name"
    case 44 => "sweep-size"
    case 45 => "sweep-index"
    case 46 => "config"
    case 47 => "last-heartbeat"
    case 48 => "spored-version"
    case 49 => "logged-in-count"
    case 50 => "cost-footprint"
    case 51 => "dns-status"
    case 52 => "dns-error"
    case _ => ""
  }

  /** The settings that leave the tags for the launch config object. */
  predicate IsSetting(k: Key) {
    k.Field? && (k.n == IDLE_CPU || SPOT_WEBHOOK_URL <= k.n <= ACTIVE_PORTS)
  }

  const AWS_TAG_LIMIT := 50

  // ---- What is launched ----

  datatype Hooks = Hooks(
    preStop: J.Text, preStopTimeoutMs: real, spotWebhookUrl: J.Text, webhookCorrelation: J.Text, webhookTimeoutMs: real,
    notifyUrl: J.Text, notifyPlatform: J.Text, notifyCommand: J.Text, activeProcesses: J.Text, activePorts: J.Text)

  datatype JobArray = JobArray(id: J.Text, name: J.Text, index: int, size: int)

  datatype Mpi = Mpi(enabled: bool, processesPerNode: Option<int>)

  /** `parameters` in insertion order, keys distinct, values strings. */
  datatype Sweep = Sweep(id: J.Text, name: J.Text, index: int, size: int, parameters: seq<J.Entry>)

  /** Absent texts are empty. `dnsLabel` and `accountName` are the slugs the source computes. */
  datatype Spec = Spec(
    name: J.Text, dnsLabel: J.Text, localUsername: J.Text, spot: bool,
    ttlMs: real, idleTimeoutMs: real, hibernateOnIdle: bool, idleCpuPercent: real,
    costLimit: real, pricePerHour: real,
    onComplete: J.Text, completionFile: J.Text, completionDelayMs: real, sessionTimeoutMs: real,
    hooks: Option<Hooks>, jobArray: Option<JobArray>, mpi: Option<Mpi>, sweep: Option<Sweep>)

  datatype Identity = Identity(accountId: J.Text, base36: J.Text, userArn: J.Text, accountName: J.Text)

  predicate Texts(entries: seq<J.Entry>) {
    forall i :: 0 <= i < |entries| ==> entries[i].value.Str?
  }

  predicate ValidSweep(sweep: Option<Sweep>) {
    sweep.Some? ==> J.DistinctKeys(sweep.value.parameters) && Texts(sweep.value.parameters)
  }

  predicate ValidSpec(spec: Spec) {
    0.0 <= spec.idleCpuPercent <= 100.0 && ValidSweep(spec.sweep)
  }

  // ---- The fixed tags, key by key ----

  datatype Slot = Absent | Present(v: TagValue)

  function When(c: bool, v: TagValue): Slot {
    if c then Present(v) else Absent
  }

  function Given(text: J.Text): Slot {
    When(text != [], Text(text))
  }

  function Time(ms: real): Slot {
    When(ms > 0.0, Duration(D.FormatDuration(ms)))
  }

  function IdentitySlot(id: Identity, n: nat): Slot {
    if n == ROOT then Present(Word("true"))
    else if n == CREATED_BY then Present(Word("spawn-ts"))
    else if n == VERSION then Present(Word("0.8.1"))
    else if n == ACCOUNT_ID then Present(Text(id.accountId))
    else if n == ACCOUNT_BASE36 then Present(Text(id.base36))
    else if n == IAM_USER then Present(Text(id.userArn))
    else if n == ACCOUNT_NAME then Given(id.accountName)
    else Absent
  }

  function IdentityPart(id: Option<Identity>, n: nat): Slot {
    if id.Some? then IdentitySlot(id.value, n) else Absent
  }

  function BaseSlot(spec: Spec, launchTimeMs: int, id: Option<Identity>, n: nat): Slot {
    if n == NAME then Present(Text(spec.name))
    else if n == MANAGED then Present(Word("true"))
    else if n <= ACCOUNT_NAME then IdentityPart(id, n)
    else if n == LAUNCH_TIME then Present(Instant(launchTimeMs))
    else if n == COMPUTE_SECONDS then Present(Amount(0.0))
    else if n == OS then Present(Word("linux"))
    else if n == LOCAL_USERNAME then Given(spec.localUsername)
    else if n == DNS_NAME then Given(spec.dnsLabel)
    else Absent
  }

  function LimitSlot(spec: Spec, launchTimeMs: int, n: nat): Slot {
    if n == TTL then Time(spec.ttlMs)
    else if n == TTL_DEADLINE then When(spec.ttlMs > 0.0, Instant(Trunc(launchTimeMs as real + spec.ttlMs)))
    else if n == IDLE_TIMEOUT then Time(spec.idleTimeoutMs)
    else if n == HIBERNATE_ON_IDLE then When(spec.idleTimeoutMs > 0.0 && spec.hibernateOnIdle, Word("true"))
    else if n == IDLE_CPU then When(spec.idleTimeoutMs > 0.0 && spec.idleCpuPercent > 0.0, Amount(spec.idleCpuPercent))
    else if n == SPOT_REQUEST_TYPE then When(spec.spot, Word("one-time"))
    else if n == COST_LIMIT then When(spec.costLimit > 0.0, Amount(spec.costLimit))
    else if n == PRICE_PER_HOUR then When(spec.pricePerHour > 0.0, Amount(spec.pricePerHour))
    else if n == ON_COMPLETE then Given(spec.onComplete)
    else if n == COMPLETION_FILE
      then When(spec.onComplete != [] && spec.completionFile != [], Text(spec.completionFile))
    else if n == COMPLETION_DELAY then if spec.onComplete != [] then Time(spec.completionDelayMs) else Absent
    else if n == SESSION_TIMEOUT then Time(spec.sessionTimeoutMs)
    else Absent
  }

  function HookSlot(h: Hooks, n: nat): Slot {
    if n == PRE_STOP then Given(h.preStop)
    else if n == PRE_STOP_TIMEOUT then if h.preStop != [] then Time(h.preStopTimeoutMs) else Absent
    else if n == SPOT_WEBHOOK_URL then Given(h.spotWebhookUrl)
    else if n == WEBHOOK_CORRELATION then if h.spotWebhookUrl != [] then Given(h.webhookCorrelation) else Absent
    else if n == WEBHOOK_TIMEOUT then if h.spotWebhookUrl != [] then Time(h.webhookTimeoutMs) else Absent
    else if n == NOTIFY_URL then Given(h.notifyUrl)
    else if n == NOTIFY_PLATFORM then Given(h.notifyPlatform)
    else if n == NOTIFY_COMMAND then Given(h.notifyCommand)
    else if n == ACTIVE_PROCESSES then Given(h.activeProcesses)
    else if n == ACTIVE_PORTS then Given(h.activePorts)
    else Absent
  }

  function HookPart(hooks: Option<Hooks>, n: nat): Slot {
    if hooks.Some? then HookSlot(hooks.value, n) else Absent
  }

  function JobArraySlot(m: JobArray, n: nat): Slot {
    if n == ARRAY_ID then Present(Text(m.id))
    else if n == ARRAY_NAME then Present(Text(m.name))
    else if n == ARRAY_SIZE then Present(Whole(m.size))
    else if n == ARRAY_INDEX then Present(Whole(m.index))
    else Absent
  }

  function MpiSlot(m: Mpi, n: nat): Slot {
    if !m.enabled then Absent
    else if n == MPI_ENABLED then Present(Word("true"))
    else if n == MPI_PROCESSES && m.processesPerNode.Some?
    then When(m.processesPerNode.value > 0, Whole(m.processesPerNode.value))
    else Absent
  }

  /** The fixed tag n of a launch, the sweep block aside. */
  function PlainSlot(spec: Spec, launchTimeMs: int, id: Option<Identity>, n: nat): Slot {
    if n <= DNS_NAME then BaseSlot(spec, launchTimeMs, id, n)
    else if n <= SESSION_TIMEOUT then LimitSlot(spec, launchTimeMs, n)
    else if n <= ACTIVE_PORTS then HookPart(spec.hooks, n)
    else if n <= ARRAY_INDEX then if spec.jobArray.Some? then JobArraySlot(spec.jobArray.value, n) else Absent
    else if n <= MPI_PROCESSES then if spec.mpi.Some? then MpiSlot(spec.mpi.value, n) else Absent
    else Absent
  }

  /** The first tags of a launch, in the order of the keys. */
  function Upto(spec: Spec, launchTimeMs: int, id: Option<Identity>, end: nat): TagMap {
    map n: nat | n < end && PlainSlot(spec, launchTimeMs, id, n).Present? ::
      Field(n) := PlainSlot(spec, launchTimeMs, id, n).v
  }

  /** Everything but the sweep. */
  function PlainTags(spec: Spec, launchTimeMs: int, id: Option<Identity>): TagMap {
    Upto(spec, launchTimeMs, id, SWEEP_ID)
  }

  function SweepBlock(m: Sweep): TagMap {
    map[Field(SWEEP_ID) := Text(m.id), Field(SWEEP_NAME) := Text(m.name),
        Field(SWEEP_SIZE) := Whole(m.size), Field(SWEEP_INDEX) := Whole(m.index)]
  }

  /** A tag for each of these parameters. */
  function ParamTags(entries: seq<J.Entry>): TagMap
    requires Texts(entries)
  {
    if |entries| == 0 then map[]
    else
      var n := |entries| - 1;
      ParamTags(entries[..n])[Param(entries[n].key) := Text(entries[n].value.s)]
  }

  // ---- The limit ----

  /** The fixed tags present. */
  function FieldsOf(tags: TagMap): set<nat> {
    set n: nat | n <= DNS_ERROR && Field(n) in tags
  }

  /** The names of the parameters present. */
  function ParamsOf(tags: TagMap): set<J.Text> {
    set k | k in tags && k.Param? :: k.name
  }

  /** Some setting with a non-empty value: the launch gets an object. */
  predicate HasObject(tags: TagMap) {
    exists k :: k in tags && IsSetting(k) && tags[k] != Text([])
  }

  function Kept(tags: TagMap): set<Key> {
    set k | k in tags && !IsSetting(k)
  }

  /** `launchTagCount`: the slots RunInstances will need. */
  function LaunchTagCount(tags: TagMap): nat {
    |Kept(tags)|
    + (if Field(LOCAL_USERNAME) in tags then 0 else 1)
    + (if HasObject(tags) && Field(CONFIG) !in tags then 1 else 0)
  }

  /** Tags of spored that need a slot and may apply. */
  predicate SporedTag(tags: TagMap, n: nat) {
    || n == COMPUTE_SECONDS || LAST_HEARTBEAT <= n <= COST_FOOTPRINT
    || (DNS_STATUS <= n <= DNS_ERROR && Field(DNS_NAME) in tags && tags[Field(DNS_NAME)] != Text([]))
  }

  /** `tagReserve`. */
  function Reserve(tags: TagMap): set<nat> {
    set n: nat | n <= DNS_ERROR && SporedTag(tags, n) && Field(n) !in tags
  }

  function ParamBudget(used: nat): nat {
    Max(0, AWS_TAG_LIMIT - used)
  }

  /** The parameters that get a tag: the first of the sorted list. */
  function Chosen(m: Sweep, used: nat): seq<J.Entry> {
    J.SortEntries(m.parameters)[..Min(ParamBudget(used + 4), |m.parameters|)]
  }

  function SweepTags(m: Sweep, used: nat): TagMap
    requires Texts(m.parameters)
  {
    SortedAreTexts(m.parameters);
    SweepBlock(m) + ParamTags(Chosen(m, used))
  }

  lemma SortedAreTexts(entries: seq<J.Entry>)
    requires Texts(entries)
    ensures Texts(J.SortEntries(entries))
  {
    var s := J.SortEntries(entries);
    forall i | 0 <= i < |s| ensures s[i].value.Str? {
      assert s[i] in entries;
    }
  }

  /** The sweep block comes last, its parameters within what the rest leaves. */
  function WithSweep(plain: TagMap, sweep: Option<Sweep>): TagMap
    requires ValidSweep(sweep)
  {
    if sweep.Some? then plain + SweepTags(sweep.value, LaunchTagCount(plain) + |Reserve(plain)|) else plain
  }

  /** `buildLaunchTags`. */
  function LaunchTags(spec: Spec, launchTimeMs: int, id: Option<Identity>): TagMap
    requires ValidSpec(spec)
  {
    WithSweep(PlainTags(spec, launchTimeMs, id), spec.sweep)
  }

  /** What RunInstances gets: the user name set, the settings taken out, the object's digest put in. */
  function Sent(tags: TagMap, username: J.Text, hasObject: bool, digest: J.Text): TagMap {
    (map k | k in tags[Field(LOCAL_USERNAME) := Text(username)] && !IsSetting(k) ::
       tags[Field(LOCAL_USERNAME) := Text(username)][k])
    + (if hasObject then map[Field(CONFIG) := Text(digest)] else map[])
  }

  /** `checkTagLimit` passes. */
  predicate WithinLimit(tags: TagMap) {
    |tags| + |Reserve(tags)| <= AWS_TAG_LIMIT
  }

  // ---- The loops ----

  lemma KeptStep(tags: TagMap, rest: set<Key>, k: Key)
    requires rest <= tags.Keys && k in rest
    ensures |Kept(tags) - (rest - {k})| == |Kept(tags) - rest| + (if IsSetting(k) then 0 else 1)
  {
    if IsSetting(k) {
      assert Kept(tags) - (rest - {k}) == Kept(tags) - rest;
    } else {
      assert Kept(tags) - (rest - {k}) == (Kept(tags) - rest) + {k};
    }
  }

  /** The loop of `launchTagCount`. */
  method CountLaunchTags(tags: TagMap) returns (n: nat)
    ensures n == LaunchTagCount(tags)
  {
    n := 0;
    var hasObject, rest := false, tags.Keys;
    while rest != {}
      invariant rest <= tags.Keys
      invariant n == |Kept(tags) - rest|
      invariant hasObject <==> exists k :: k in tags.Keys - rest && IsSetting(k) && tags[k] != Text([])
      decreases |rest|
    {
      var k :| k in rest;
      KeptStep(tags, rest, k);
      if IsSetting(k) {
        hasObject := hasObject || tags[k] != Text([]);
      } else {
        n := n + 1;
      }
      rest := rest - {k};
    }
    assert Kept(tags) - {} == Kept(tags);
    if Field(LOCAL_USERNAME) !in tags { n := n + 1; }
    if hasObject && Field(CONFIG) !in tags { n := n + 1; }
  }

  lemma ParamTagsStep(block: TagMap, entries: seq<J.Entry>, n: nat)
    requires n < |entries| && Texts(entries)
    ensures block + ParamTags(entries[..n + 1])
            == (block + ParamTags(entries[..n]))[Param(entries[n].key) := Text(entries[n].value.s)]
  {
    assert entries[..n + 1][..n] == entries[..n];
  }

  /** The loop of `buildSweepTags`. */
  method BuildSweepTags(m: Sweep, used: nat) returns (tags: TagMap)
    requires Texts(m.parameters)
    ensures tags == SweepTags(m, used)
  {
    var budget, sorted := ParamBudget(used + 4), J.SortEntries(m.parameters);
    SortedAreTexts(m.parameters);
    tags := SweepBlock(m);
    var count := 0;
    while count < |sorted| && count < budget
      invariant count <= |sorted| && count <= budget
      invariant tags == Partial(m, sorted, count)
    {
      ParamTagsStep(SweepBlock(m), sorted, count);
      tags := tags[Param(sorted[count].key) := Text(sorted[count].value.s)];
      count := count + 1;
    }
    PartialIsSweep(m, used, count);
  }

  /** The sweep block and the first parameters. */
  function Partial(m: Sweep, sorted: seq<J.Entry>, count: nat): TagMap
    requires count <= |sorted| && Texts(sorted)
  {
    SweepBlock(m) + ParamTags(sorted[..count])
  }

  lemma PartialIsSweep(m: Sweep, used: nat, count: nat)
    requires Texts(m.parameters) && Texts(J.SortEntries(m.parameters)) &&
               count == Min(ParamBudget(used + 4), |m.parameters|)
    ensures Partial(m, J.SortEntries(m.parameters), count) == SweepTags(m, used)
  {
    assert Chosen(m, used) == J.SortEntries(m.parameters)[..count];
  }
}
