/**
 * Every launch fits AWS's tag limit: the tags sent and the slots kept for spored come to the lesser of 50 and what the
 * launch asked for (src/core/tags.ts:93-102, 179-283, 590-652; src/aws/ec2.ts:175-212).
 */
module TagBudget {
  import opened Basics
  import J = JsonText
  import opened Tags

  // ---- Counting keys ----

  predicate KnownFields(tags: TagMap) {
    forall k :: k in tags && k.Field? ==> k.n <= DNS_ERROR
  }

  lemma {:induction false} FieldImage(s: set<nat>)
    ensures |set n | n in s :: Field(n)| == |s|
  {
    if s != {} {
      var x :| x in s;
      FieldImage(s - {x});
      assert (set n | n in s :: Field(n)) == (set n | n in s - {x} :: Field(n)) + {Field(x)};
    }
  }

  lemma {:induction false} ParamImage(s: set<J.Text>)
    ensures |set t | t in s :: Param(t)| == |s|
  {
    if s != {} {
      var x :| x in s;
      ParamImage(s - {x});
      assert (set t | t in s :: Param(t)) == (set t | t in s - {x} :: Param(t)) + {Param(x)};
    }
  }

  lemma KeysSplit(tags: TagMap)
    requires KnownFields(tags)
    ensures |tags| == |FieldsOf(tags)| + |ParamsOf(tags)|
  {
    var a, b := set n | n in FieldsOf(tags) :: Field(n), set t | t in ParamsOf(tags) :: Param(t);
    FieldImage(FieldsOf(tags));
    ParamImage(ParamsOf(tags));
    forall k | k in tags.Keys ensures k in a + b {
      if k.Field? { assert k == Field(k.n); } else { assert k == Param(k.name); }
    }
    assert tags.Keys == a + b;
    assert a !! b;
  }

  function Range(lo: nat, hi: nat): (r: set<nat>)
    ensures forall n :: n in r <==> lo <= n < hi
  {
    if lo >= hi then {} else Range(lo, hi - 1) + {hi - 1}
  }

  lemma {:induction false} RangeCard(lo: nat, hi: nat)
    requires lo <= hi
    ensures |Range(lo, hi)| == hi - lo
  {
    if lo < hi {
      RangeCard(lo, hi - 1);
      assert Range(lo, hi) == Range(lo, hi - 1) + {hi - 1};
    }
  }

  lemma {:induction false} SubsetSize<T>(a: set<T>, b: set<T>)
    requires a <= b
    ensures |a| <= |b|
  {
    if a != {} {
      var x :| x in a;
      SubsetSize(a - {x}, b - {x});
    }
  }

  lemma DisjointCard<T>(a: set<T>, b: set<T>)
    requires a !! b
    ensures |a + b| == |a| + |b|
  {
  }

  /** The fixed keys below `end` that are no settings. */
  function FixedKeys(end: nat): (r: set<nat>)
    ensures forall n: nat :: n in r <==> n < end && !IsSetting(Field(n))
  {
    if end == 0 then {} else FixedKeys(end - 1) + (if IsSetting(Field(end - 1)) then {} else {end - 1})
  }

  lemma {:induction false} FixedKeysCard(end: nat)
    ensures |FixedKeys(end)| == if end <= IDLE_CPU then end
                                else if end <= SPOT_WEBHOOK_URL then end - 1
                                else if end <= ACTIVE_PORTS then SPOT_WEBHOOK_URL - 1
                                else end - 9
  {
    if end > 0 { FixedKeysCard(end - 1); }
  }

  /** Only the keys the code has: 38 fixed tags and 6 reserved slots at most. */
  lemma FixedBound(fields: set<nat>, reserve: set<nat>, end: nat)
    requires end == CONFIG + 1 && fields <= FixedKeys(end) && reserve <= Range(LAST_HEARTBEAT, DNS_ERROR + 1)
    ensures |fields| + |reserve| <= 44
  {
    FixedKeysCard(end);
    RangeCard(LAST_HEARTBEAT, DNS_ERROR + 1);
    SubsetSize(fields, FixedKeys(end));
    SubsetSize(reserve, Range(LAST_HEARTBEAT, DNS_ERROR + 1));
  }

  // ---- The tags before the sweep block ----

  /** Fixed keys before the sweep block only, and spored's clock among them. */
  predicate AllPlain(tags: TagMap) {
    Field(COMPUTE_SECONDS) in tags && forall k :: k in tags ==> k.Field? && k.n < SWEEP_ID
  }

  lemma PlainIsPlain(spec: Spec, t: int, id: Option<Identity>)
    ensures AllPlain(PlainTags(spec, t, id))
  {
    assert PlainSlot(spec, t, id, COMPUTE_SECONDS).Present?;
  }

  lemma ReserveRange(plain: TagMap)
    requires AllPlain(plain)
    ensures Reserve(plain) <= Range(LAST_HEARTBEAT, DNS_ERROR + 1)
  {
  }

  /** The fixed tags that are no settings. */
  function KeptFields(tags: TagMap): set<nat> {
    set n | n in FieldsOf(tags) && !IsSetting(Field(n))
  }

  function ConfigField(hasObject: bool): set<nat> {
    if hasObject then {CONFIG} else {}
  }

  /** The fixed tags sent, the sweep block aside. */
  function BeforeSweep(plain: TagMap): set<nat> {
    KeptFields(plain) + {LOCAL_USERNAME} + ConfigField(HasObject(plain))
  }

  /** `launchTagCount` counts what will be sent. */
  lemma KeptCount(plain: TagMap)
    requires AllPlain(plain)
    ensures LaunchTagCount(plain) == |BeforeSweep(plain)|
  {
    var kf := KeptFields(plain);
    FieldImage(kf);
    assert Kept(plain) == set n | n in kf :: Field(n);
    if Field(LOCAL_USERNAME) in plain {
      assert kf + {LOCAL_USERNAME} == kf;
    }
  }

  lemma BeforeSweepKeys(plain: TagMap)
    requires AllPlain(plain)
    ensures forall n :: n in BeforeSweep(plain) ==> n <= CONFIG && !IsSetting(Field(n)) && (n < SWEEP_ID || n == CONFIG)
  {
    forall n | n in KeptFields(plain) ensures n < SWEEP_ID && !IsSetting(Field(n)) {
      assert Field(n) in plain;
    }
  }

  /** The keys of the sweep block, if there is one. */
  function SweepFields(isSweep: bool): (r: set<nat>)
    ensures forall n :: n in r ==> SWEEP_ID <= n <= SWEEP_INDEX
    ensures |r| == if isSweep then 4 else 0
  {
    if isSweep then {SWEEP_ID, SWEEP_NAME, SWEEP_SIZE, SWEEP_INDEX} else {}
  }

  /** The fixed part: what the code counts before the sweep, and the sweep block. */
  lemma FixedCount(plain: TagMap, isSweep: bool, end: nat)
    requires AllPlain(plain) && end == CONFIG + 1
    ensures |BeforeSweep(plain) + SweepFields(isSweep)| == LaunchTagCount(plain) + (if isSweep then 4 else 0)
    ensures |BeforeSweep(plain) + SweepFields(isSweep)| + |Reserve(plain)| <= 44
  {
    KeptCount(plain);
    BeforeSweepKeys(plain);
    ReserveRange(plain);
    var all := BeforeSweep(plain) + SweepFields(isSweep);
    assert all <= FixedKeys(end) by {
      forall n | n in all ensures n in FixedKeys(end) {
      }
    }
    DisjointCard(BeforeSweep(plain), SweepFields(isSweep));
    FixedBound(all, Reserve(plain), end);
  }

  // ---- The full set ----

  /** What the sweep does to the set: its own keys, and nothing else changed. */
  predicate Extends(plain: TagMap, isSweep: bool, names: set<J.Text>, tags: TagMap) {
    && FieldsOf(tags) == FieldsOf(plain) + SweepFields(isSweep)
    && ParamsOf(tags) == names
    && KnownFields(tags)
    && forall k :: k in plain ==> k in tags && tags[k] == plain[k]
  }

  /** The sweep adds no fixed key but its own. */
  lemma SweepAdds(plain: TagMap, isSweep: bool, names: set<J.Text>, tags: TagMap, n: nat)
    requires Extends(plain, isSweep, names, tags) && n <= DNS_ERROR && n !in SweepFields(isSweep)
    ensures Field(n) in tags <==> Field(n) in plain
  {
    assert Field(n) in tags <==> n in FieldsOf(tags);
    assert Field(n) in plain <==> n in FieldsOf(plain);
  }

  lemma KeptOfLaunch(plain: TagMap, isSweep: bool, names: set<J.Text>, tags: TagMap)
    requires Extends(plain, isSweep, names, tags)
    ensures KeptFields(tags) == KeptFields(plain) + SweepFields(isSweep)
  {
  }

  lemma ObjectOfPlain(plain: TagMap, isSweep: bool, names: set<J.Text>, tags: TagMap)
    requires Extends(plain, isSweep, names, tags)
    ensures HasObject(tags) == HasObject(plain)
  {
    forall k | IsSetting(k) ensures k in tags <==> k in plain {
      SweepAdds(plain, isSweep, names, tags, k.n);
    }
  }

  // ---- What is sent ----

  /** What RunInstances gets. */
  function SentOf(tags: TagMap, username: J.Text, digest: J.Text): TagMap {
    Sent(tags, username, HasObject(tags), digest)
  }

  lemma SentKeys(tags: TagMap, username: J.Text, hasObject: bool, digest: J.Text)
    requires KnownFields(tags)
    ensures FieldsOf(Sent(tags, username, hasObject, digest)) ==
              KeptFields(tags) + {LOCAL_USERNAME} + ConfigField(hasObject)
    ensures KnownFields(Sent(tags, username, hasObject, digest))
  {
    var s := Sent(tags, username, hasObject, digest);
    assert FieldsOf(s) == KeptFields(tags) + {LOCAL_USERNAME} + ConfigField(hasObject);
  }

  lemma SentParams(tags: TagMap, username: J.Text, hasObject: bool, digest: J.Text)
    ensures ParamsOf(Sent(tags, username, hasObject, digest)) == ParamsOf(tags)
  {
    var s := Sent(tags, username, hasObject, digest);
    forall t | t in ParamsOf(tags) ensures t in ParamsOf(s) { assert Param(t) in s; }
    forall t | t in ParamsOf(s) ensures t in ParamsOf(tags) { assert Param(t) in tags; }
  }

  lemma SentFields(plain: TagMap, isSweep: bool, names: set<J.Text>, tags: TagMap, username: J.Text, digest: J.Text)
    requires Extends(plain, isSweep, names, tags)
    ensures FieldsOf(SentOf(tags, username, digest)) == BeforeSweep(plain) + SweepFields(isSweep)
    ensures KnownFields(SentOf(tags, username, digest))
  {
    var more, config := SweepFields(isSweep), ConfigField(HasObject(tags));
    SentKeys(tags, username, HasObject(tags), digest);
    ObjectOfPlain(plain, isSweep, names, tags);
    KeptOfLaunch(plain, isSweep, names, tags);
    Reorder(KeptFields(plain), more, config);
  }

  lemma Reorder(kept: set<nat>, more: set<nat>, config: set<nat>)
    ensures kept + more + {LOCAL_USERNAME} + config == kept + {LOCAL_USERNAME} + config + more
  {
  }

  /** What the reserve looks at is sent unchanged. */
  lemma SentKeeps(tags: TagMap, username: J.Text, digest: J.Text, n: nat)
    requires n != LOCAL_USERNAME && n != CONFIG && !IsSetting(Field(n))
    ensures Field(n) in SentOf(tags, username, digest) <==> Field(n) in tags
    ensures Field(n) in tags ==> SentOf(tags, username, digest)[Field(n)] == tags[Field(n)]
  {
  }

  predicate SporedKey(n: nat) {
    n == COMPUTE_SECONDS || LAST_HEARTBEAT <= n <= DNS_ERROR
  }

  lemma SameReserve(plain: TagMap, f: TagMap)
    requires forall n: nat :: SporedKey(n) ==> (Field(n) in plain <==> Field(n) in f)
    requires Field(DNS_NAME) in plain <==> Field(DNS_NAME) in f
    requires Field(DNS_NAME) in plain ==> f[Field(DNS_NAME)] == plain[Field(DNS_NAME)]
    ensures Reserve(plain) == Reserve(f)
  {
    forall n: nat ensures n in Reserve(plain) <==> n in Reserve(f) {
      assert SporedTag(plain, n) || SporedTag(f, n) ==> SporedKey(n);
    }
  }

  lemma KeyOfSent(plain: TagMap, isSweep: bool, names: set<J.Text>, tags: TagMap, username: J.Text, digest: J.Text,
      n: nat)
    requires Extends(plain, isSweep, names, tags) && (SporedKey(n) || n == DNS_NAME)
    ensures Field(n) in plain <==> Field(n) in SentOf(tags, username, digest)
    ensures Field(n) in plain ==> SentOf(tags, username, digest)[Field(n)] == plain[Field(n)]
  {
    SweepAdds(plain, isSweep, names, tags, n);
    SentKeeps(tags, username, digest, n);
  }

  lemma ReserveOfSent(plain: TagMap, isSweep: bool, names: set<J.Text>, tags: TagMap, username: J.Text, digest: J.Text)
    requires Extends(plain, isSweep, names, tags)
    ensures Reserve(SentOf(tags, username, digest)) == Reserve(plain)
  {
    var f := SentOf(tags, username, digest);
    forall n: nat | SporedKey(n) ensures Field(n) in plain <==> Field(n) in f {
      KeyOfSent(plain, isSweep, names, tags, username, digest, n);
    }
    KeyOfSent(plain, isSweep, names, tags, username, digest, DNS_NAME);
    SameReserve(plain, f);
  }

  /** The slots of a launch: fixed tags, reserve and parameters. */
  predicate FitsLimit(f: TagMap, asked: nat) {
    var fixed := |FieldsOf(f)| + |Reserve(f)|;
    && fixed <= 44
    && |f| + |Reserve(f)| == Min(50, fixed + asked)
    && |ParamsOf(f)| >= Min(6, asked)
  }

  /** As many parameters as the budget leaves. */
  predicate WithinBudget(plain: TagMap, isSweep: bool, chosen: nat, asked: nat) {
    if isSweep then chosen == Min(ParamBudget(LaunchTagCount(plain) + |Reserve(plain)| + 4), asked)
      else chosen == 0 == asked
  }

  lemma SlotsOfSent(plain: TagMap, isSweep: bool, names: set<J.Text>, tags: TagMap, username: J.Text, digest: J.Text)
    requires AllPlain(plain) && Extends(plain, isSweep, names, tags)
    ensures var f := SentOf(tags, username, digest);
            && FieldsOf(f) == BeforeSweep(plain) + SweepFields(isSweep)
            && ParamsOf(f) == names
            && |f| == |FieldsOf(f)| + |names|
            && Reserve(f) == Reserve(plain)
  {
    SentFields(plain, isSweep, names, tags, username, digest);
    SentParams(tags, username, HasObject(tags), digest);
    ReserveOfSent(plain, isSweep, names, tags, username, digest);
    KeysSplit(SentOf(tags, username, digest));
  }

  lemma TagsFit(plain: TagMap, isSweep: bool, names: set<J.Text>, tags: TagMap, f: TagMap, asked: nat, username: J.Text,
      digest: J.Text)
    requires AllPlain(plain) && Extends(plain, isSweep, names, tags) && WithinBudget(plain, isSweep, |names|, asked)
    requires f == SentOf(tags, username, digest)
    ensures FitsLimit(f, asked)
  {
    SlotsOfSent(plain, isSweep, names, tags, username, digest);
    FixedCount(plain, isSweep, CONFIG + 1);
    Total(f, LaunchTagCount(plain), |Reserve(plain)|, isSweep, asked);
  }

  lemma Total(f: TagMap, count: nat, reserve: nat, isSweep: bool, asked: nat)
    requires |FieldsOf(f)| == count + (if isSweep then 4 else 0) && |Reserve(f)| == reserve &&
               |FieldsOf(f)| + reserve <= 44
    requires |f| == |FieldsOf(f)| + |ParamsOf(f)|
    requires if isSweep then |ParamsOf(f)| == Min(ParamBudget(count + reserve + 4), asked)
               else |ParamsOf(f)| == 0 == asked
    ensures FitsLimit(f, asked)
  {
    Arithmetic(count, reserve, isSweep, |ParamsOf(f)|, asked);
  }

  lemma Arithmetic(count: nat, reserve: nat, isSweep: bool, chosen: nat, asked: nat)
    requires if isSweep then chosen == Min(ParamBudget(count + reserve + 4), asked) else chosen == 0 == asked
    requires count + (if isSweep then 4 else 0) + reserve <= 44
    ensures count + (if isSweep then 4 else 0) + reserve + chosen
         == Min(50, count + (if isSweep then 4 else 0) + reserve + asked)
    ensures chosen >= Min(6, asked)
  {
  }

  // ---- The parameters chosen ----

  function Names(entries: seq<J.Entry>): set<J.Text> {
    set i | 0 <= i < |entries| :: entries[i].key
  }

  lemma {:induction false} ParamTagKeys(entries: seq<J.Entry>)
    requires Texts(entries)
    ensures ParamsOf(ParamTags(entries)) == Names(entries)
    ensures forall k :: k in ParamTags(entries) ==> k.Param?
  {
    if |entries| > 0 {
      var n := |entries| - 1;
      ParamTagKeys(entries[..n]);
      assert Names(entries) == Names(entries[..n]) + {entries[n].key};
      var m := ParamTags(entries[..n]);
      assert ParamsOf(m[Param(entries[n].key) := Text(entries[n].value.s)]) == ParamsOf(m) + {entries[n].key};
    }
  }

  lemma {:induction false} NamesCard(entries: seq<J.Entry>)
    requires J.DistinctKeys(entries)
    ensures |Names(entries)| == |entries|
  {
    if |entries| > 0 {
      var n := |entries| - 1;
      NamesCard(entries[..n]);
      assert Names(entries) == Names(entries[..n]) + {entries[n].key};
    }
  }

  lemma SortedDistinct(entries: seq<J.Entry>)
    requires J.DistinctKeys(entries)
    ensures J.DistinctKeys(J.SortEntries(entries))
  {
    var s := J.SortEntries(entries);
    J.SortEntriesSorted(entries);
    forall i, j | 0 <= i < j < |s| ensures s[i].key != s[j].key {
      J.LessIrreflexive(s[i].key);
    }
  }

  lemma ChosenCard(m: Sweep, used: nat)
    requires ValidSweep(Some(m))
    ensures Texts(Chosen(m, used)) && |Names(Chosen(m, used))| == Min(ParamBudget(used + 4), |m.parameters|)
  {
    SortedAreTexts(m.parameters);
    SortedDistinct(m.parameters);
    NamesCard(Chosen(m, used));
  }

  lemma SweepExtends(plain: TagMap, block: TagMap, params: TagMap)
    requires AllPlain(plain)
    requires block.Keys == {Field(SWEEP_ID), Field(SWEEP_NAME), Field(SWEEP_SIZE), Field(SWEEP_INDEX)}
    requires forall k :: k in params ==> k.Param?
    ensures Extends(plain, true, ParamsOf(params), plain + (block + params))
  {
    var all := plain + (block + params);
    SweepFieldsOf(plain, block, params, all);
    SweepParamsOf(plain, block, params, all);
  }

  lemma SweepFieldsOf(plain: TagMap, block: TagMap, params: TagMap, all: TagMap)
    requires AllPlain(plain) && all == plain + (block + params)
    requires block.Keys == {Field(SWEEP_ID), Field(SWEEP_NAME), Field(SWEEP_SIZE), Field(SWEEP_INDEX)}
    requires forall k :: k in params ==> k.Param?
    ensures FieldsOf(all) == FieldsOf(plain) + SweepFields(true)
  {
    forall n: nat ensures n in FieldsOf(all) <==> n in FieldsOf(plain) + SweepFields(true) {
      assert Field(n) in all <==> Field(n) in plain || Field(n) in block;
    }
  }

  lemma SweepParamsOf(plain: TagMap, block: TagMap, params: TagMap, all: TagMap)
    requires AllPlain(plain) && all == plain + (block + params) && forall k :: k in block ==> k.Field?
    ensures ParamsOf(all) == ParamsOf(params)
  {
    forall t ensures t in ParamsOf(all) <==> t in ParamsOf(params) {
      assert Param(t) in all <==> Param(t) in params;
      assert t in ParamsOf(all) <==> Param(t) in all;
      assert t in ParamsOf(params) <==> Param(t) in params;
    }
  }

  lemma PlainExtends(plain: TagMap)
    requires AllPlain(plain)
    ensures Extends(plain, false, {}, plain)
  {
    assert ParamsOf(plain) == {};
  }

  function Asked(sweep: Option<Sweep>): nat {
    if sweep.Some? then |sweep.value.parameters| else 0
  }

  lemma PlainLaunchFits(plain: TagMap, sweep: Option<Sweep>, username: J.Text, digest: J.Text)
    requires AllPlain(plain) && ValidSweep(sweep)
    ensures FitsLimit(SentOf(WithSweep(plain, sweep), username, digest), Asked(sweep))
  {
    if sweep.Some? {
      var m, used := sweep.value, LaunchTagCount(plain) + |Reserve(plain)|;
      ChosenCard(m, used);
      ParamTagKeys(Chosen(m, used));
      var params := ParamTags(Chosen(m, used));
      SweepExtends(plain, SweepBlock(m), params);
      var tags := plain + (SweepBlock(m) + params);
      TagsFit(plain, true, ParamsOf(params), tags, SentOf(tags, username, digest), |m.parameters|, username, digest);
    } else {
      PlainExtends(plain);
      TagsFit(plain, false, {}, plain, SentOf(plain, username, digest), 0, username, digest);
    }
  }

  /**
   * For every spec and identity the tags sent and the slots reserved come to the lesser of 50 and what was asked for:
   * the fixed part is at most 44, so at least six parameters survive, and the limit check never refuses a launch.
   */
  lemma EveryLaunchFits(spec: Spec, t: int, id: Option<Identity>, username: J.Text, digest: J.Text)
    requires ValidSpec(spec)
    ensures FitsLimit(SentOf(LaunchTags(spec, t, id), username, digest), Asked(spec.sweep))
    ensures WithinLimit(SentOf(LaunchTags(spec, t, id), username, digest))
  {
    PlainIsPlain(spec, t, id);
    PlainLaunchFits(PlainTags(spec, t, id), spec.sweep, username, digest);
  }

  /** The settings a launch moves to its object do not depend on who launches, so the preflight set already has them. */
  lemma PreflightSettings(spec: Spec, t: int, a: Option<Identity>, b: Option<Identity>, k: Key)
    requires ValidSpec(spec) && IsSetting(k)
    ensures k in PlainTags(spec, t, a) <==> k in PlainTags(spec, t, b)
    ensures k in PlainTags(spec, t, a) ==> PlainTags(spec, t, a)[k] == PlainTags(spec, t, b)[k]
  {
    assert PlainSlot(spec, t, a, k.n) == PlainSlot(spec, t, b, k.n);
    assert k == Field(k.n);
  }
}
