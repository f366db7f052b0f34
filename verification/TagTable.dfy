/**
 * The tags of a launch by their wire names (src/core/tags.ts:104-253): those that no reader here decodes, so that no
 * round trip speaks of them, the slots kept for spored, and which settings leave the tags.
 */
module TagTable {
  import opened Basics
  import J = JsonText
  import LC = LaunchConfig
  import opened Tags
  import B = TagBudget
  import TD = TagDecode

  /** A tag leaves the tags exactly when its name is one of the launch config's settings. */
  lemma SettingsLeave(n: nat)
    ensures IsSetting(Field(n)) <==> TagName(n) in LC.SETTING_NAMES
  {
  }

  // ---- Tags nothing reads back ----

  /** The value of a fixed tag, if it is there. */
  function At(tags: TagMap, n: nat): Slot {
    if Field(n) in tags then Present(tags[Field(n)]) else Absent
  }

  /** A text that is written unless it is empty. */
  predicate Optional(slot: Slot, text: J.Text) {
    if text == [] then slot == Absent else slot == Present(Text(text))
  }

  lemma Slots(spec: Spec, t: int, id: Option<Identity>, n: nat)
    requires ValidSpec(spec) && n < SWEEP_ID
    ensures At(LaunchTags(spec, t, id), n) == PlainSlot(spec, t, id, n)
  {
    TD.LaunchHolds(spec, t, id, n);
  }

  lemma SessionTag(spec: Spec, t: int, id: Option<Identity>)
    requires ValidSpec(spec)
    ensures TD.SpanAt(LaunchTags(spec, t, id), SESSION_TIMEOUT) == TD.Recorded(spec.sessionTimeoutMs)
  {
    TD.LaunchHolds(spec, t, id, SESSION_TIMEOUT);
    TD.TimeReads(LaunchTags(spec, t, id), SESSION_TIMEOUT, spec.sessionTimeoutMs);
  }

  /** Every launch is marked as managed, and as Linux, and carries its name, user and DNS label. */
  lemma BaseTags(spec: Spec, t: int, id: Option<Identity>)
    requires ValidSpec(spec)
    ensures var tags := LaunchTags(spec, t, id);
            && At(tags, MANAGED) == Present(Word("true")) && At(tags, OS) == Present(Word("linux"))
            && At(tags, NAME) == Present(Text(spec.name))
            && Optional(At(tags, LOCAL_USERNAME), spec.localUsername) && Optional(At(tags, DNS_NAME), spec.dnsLabel)
            && At(tags, COMPUTE_SECONDS) == Present(Amount(0.0))
            && (At(tags, SPOT_REQUEST_TYPE) == if spec.spot then Present(Word("one-time")) else Absent)
            && TD.SpanAt(tags, SESSION_TIMEOUT) == TD.Recorded(spec.sessionTimeoutMs)
  {
    var tags := LaunchTags(spec, t, id);
    Slots(spec, t, id, MANAGED);
    Slots(spec, t, id, OS);
    Slots(spec, t, id, NAME);
    Slots(spec, t, id, LOCAL_USERNAME);
    Slots(spec, t, id, DNS_NAME);
    Slots(spec, t, id, COMPUTE_SECONDS);
    Slots(spec, t, id, SPOT_REQUEST_TYPE);
    SessionTag(spec, t, id);
  }

  /** A launch with an identity says who launched it and with what; one without says nothing of it. */
  lemma IdentityTags(spec: Spec, t: int, id: Option<Identity>)
    requires ValidSpec(spec)
    ensures var tags := LaunchTags(spec, t, id);
            match id
            case None => forall n: nat :: ROOT <= n <= ACCOUNT_NAME ==> At(tags, n) == Absent
            case Some(i) =>
              && At(tags, ROOT) == Present(Word("true")) && At(tags, CREATED_BY) == Present(Word("spawn-ts"))
              && At(tags, VERSION) == Present(Word("0.8.1"))
              && At(tags, ACCOUNT_ID) == Present(Text(i.accountId))
              && At(tags, ACCOUNT_BASE36) == Present(Text(i.base36))
              && At(tags, IAM_USER) == Present(Text(i.userArn))
              && Optional(At(tags, ACCOUNT_NAME), i.accountName)
  {
    forall n: nat | ROOT <= n <= ACCOUNT_NAME ensures At(LaunchTags(spec, t, id), n) == IdentityPart(id, n) {
      Slots(spec, t, id, n);
    }
  }

  /** The MPI declaration is written if it is enabled, and its process count if that is positive too. */
  lemma MpiTags(spec: Spec, t: int, id: Option<Identity>)
    requires ValidSpec(spec)
    ensures var tags := LaunchTags(spec, t, id);
            if spec.mpi.Some? && spec.mpi.value.enabled then
              && At(tags, MPI_ENABLED) == Present(Word("true"))
              && (match spec.mpi.value.processesPerNode
                  case Some(n) => At(tags, MPI_PROCESSES) == if n > 0 then Present(Whole(n)) else Absent
                  case None => At(tags, MPI_PROCESSES) == Absent)
            else At(tags, MPI_ENABLED) == Absent && At(tags, MPI_PROCESSES) == Absent
  {
    Slots(spec, t, id, MPI_ENABLED);
    Slots(spec, t, id, MPI_PROCESSES);
  }

  // ---- The slots kept for spored ----

  /**
   * A launch keeps a slot for each of the four tags spored always writes, and two more exactly if it has a DNS name.
   */
  lemma ReservedTags(spec: Spec, t: int, id: Option<Identity>)
    ensures Reserve(PlainTags(spec, t, id)) ==
            {LAST_HEARTBEAT, SPORED_VERSION, LOGGED_IN_COUNT, COST_FOOTPRINT}
            + (if spec.dnsLabel != [] then {DNS_STATUS, DNS_ERROR} else {})
  {
    var plain := PlainTags(spec, t, id);
    assert PlainSlot(spec, t, id, COMPUTE_SECONDS).Present?;
    assert PlainSlot(spec, t, id, DNS_NAME) == Given(spec.dnsLabel);
    forall n: nat ensures n in Reserve(plain) <==>
      LAST_HEARTBEAT <= n <= COST_FOOTPRINT || (DNS_STATUS <= n <= DNS_ERROR && spec.dnsLabel != [])
    {
      assert n >= SWEEP_ID ==> Field(n) !in plain;
    }
  }

  // ---- The tags sent ----

  /** What stands under k in the tags sent. */
  predicate SentAs(tags: TagMap, sent: TagMap, k: Key, v: TagValue) {
    k in sent && sent[k] == v
  }

  lemma ObjectIff(tags: TagMap)
    ensures HasObject(tags) <==>
              exists n: nat :: TagName(n) in LC.SETTING_NAMES && Field(n) in tags && tags[Field(n)] != Text([])
  {
    if k :| k in tags && IsSetting(k) && tags[k] != Text([]) { SettingsLeave(k.n); }
    if n: nat :| TagName(n) in LC.SETTING_NAMES && Field(n) in tags && tags[Field(n)] != Text([]) { SettingsLeave(n); }
  }

  /**
   * A launch sends the user name it was given, the digest of its object exactly if some setting is not empty, no
   * setting, and every other tag as it is.
   */
  lemma SentExactly(tags: TagMap, username: J.Text, digest: J.Text, k: Key)
    ensures var sent := B.SentOf(tags, username, digest);
            if k == Field(LOCAL_USERNAME) then SentAs(tags, sent, k, Text(username))
            else if k.Field? && TagName(k.n) in LC.SETTING_NAMES then k !in sent
            else if k == Field(CONFIG) && exists n: nat :: TagName(n) in LC.SETTING_NAMES && Field(n) in tags
                                                          && tags[Field(n)] != Text([])
              then SentAs(tags, sent, k, Text(digest))
            else if k in tags then SentAs(tags, sent, k, tags[k]) else k !in sent
  {
    if k.Field? { SettingsLeave(k.n); }
    SettingsLeave(LOCAL_USERNAME);
    SettingsLeave(CONFIG);
    ObjectIff(tags);
  }
}
