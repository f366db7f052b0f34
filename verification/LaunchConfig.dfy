/**
 * The launch config object of src/core/launchconfig.ts:46-125: its body determines the settings it was made from.
 */
module LaunchConfig {
  import opened Basics
  import opened JsonText
  import GoJson
  import opened JsonRoundTrip
  import opened JsonCanonical

  /** Settings as a JavaScript record, in insertion order. */
  datatype Setting = Setting(key: Text, value: Text)

  const SETTING_NAMES: set<string> := {
    "active-ports", "active-processes", "app-mode", "completion-webhook-url", "idle-cpu", "metrics-bind",
    "metrics-path", "metrics-port", "notify-command", "notify-platform", "notify-url", "ready-path", "ready-port",
    "slack-workspace-id", "spot-webhook-url", "tracing-enabled", "tracing-exporter", "tracing-sampling", "web-auth",
    "webhook-correlation", "webhook-timeout" }

  /** The code units of an ASCII string. */
  function Units(s: string): (t: Text)
    requires forall i :: 0 <= i < |s| ==> s[i] as int < 0x80
    ensures |t| == |s| && forall i :: 0 <= i < |s| ==> t[i] == s[i] as int
  {
    seq(|s|, i requires 0 <= i < |s| => s[i] as int)
  }

  /** The text of code units that are all ASCII. */
  function Ascii(t: Text): string {
    seq(|t|, i requires 0 <= i < |t| => if t[i] < 0x80 then t[i] as char else '?')
  }

  predicate IsSetting(key: Text) {
    (forall i :: 0 <= i < |key| ==> key[i] < 0x80) && Ascii(key) in SETTING_NAMES
  }

  /** The two are the same ASCII text, code unit by code unit. */
  predicate Spells(key: Text, name: string) {
    |key| == |name| && forall i :: 0 <= i < |key| ==> key[i] == name[i] as int < 0x80
  }

  /** A key is a setting exactly when it spells one of the names. */
  lemma SettingIff(key: Text)
    ensures IsSetting(key) <==> exists name :: name in SETTING_NAMES && Spells(key, name)
  {
    if IsSetting(key) {
      assert Spells(key, Ascii(key));
    }
    if name :| name in SETTING_NAMES && Spells(key, name) {
      assert Ascii(key) == name;
    }
  }

  predicate AllSettings(settings: seq<Setting>) {
    forall i :: 0 <= i < |settings| ==> IsSetting(settings[i].key)
  }

  predicate UniqueSettings(settings: seq<Setting>) {
    forall i, j :: 0 <= i < j < |settings| ==> settings[i].key != settings[j].key
  }

  /** The settings kept: those with a value. */
  function Clean(settings: seq<Setting>): (r: seq<Setting>)
    ensures forall k :: 0 <= k < |r| ==> r[k].value != [] && r[k] in settings
  {
    if |settings| == 0 then []
    else
      var n := |settings| - 1;
      Clean(settings[..n]) + (if settings[n].value != [] then [settings[n]] else [])
  }

  function ToEntries(settings: seq<Setting>): (r: seq<Entry>)
    ensures |r| == |settings|
    ensures forall i :: 0 <= i < |r| ==> r[i] == Entry(settings[i].key, Str(settings[i].value))
  {
    seq(|settings|, i requires 0 <= i < |settings| => Entry(settings[i].key, Str(settings[i].value)))
  }

  const SCHEMA_KEY: Text := Units("schema")
  const SETTINGS_KEY: Text := Units("settings")

  function BodyValue(clean: seq<Setting>): Value {
    Struct([Entry(SCHEMA_KEY, Num(Finite(1, 0))), Entry(SETTINGS_KEY, Obj(ToEntries(clean)))])
  }

  function Body(clean: seq<Setting>): GoJson.Printed {
    GoJson.GoMarshal(BodyValue(clean), false)
  }

  /** No object for no settings; the key that is no setting is an error. */
  datatype Encoded = NoObject | Object(body: Text, digest: Text) | NotASetting(key: Text)

  /** The first key, in the order of the record, that is no setting. */
  predicate FirstBadKey(settings: seq<Setting>, key: Text) {
    exists i :: 0 <= i < |settings| && settings[i].key == key && !IsSetting(key) && AllSettings(settings[..i])
  }

  /** `encodeLaunchConfig`; `settings` are in the order in which `Object.entries` gives them. */
  method EncodeLaunchConfig(settings: seq<Setting>, sha256: Text -> Text) returns (r: Encoded)
    requires UniqueSettings(settings)
    ensures r.NotASetting? <==> !AllSettings(settings)
    ensures r.NotASetting? ==> FirstBadKey(settings, r.key)
    ensures r.NoObject? <==> AllSettings(settings) && Clean(settings) == []
    ensures r.Object? ==> Body(Clean(settings)) == GoJson.Text(r.body) && r.digest == sha256(r.body)
  {
    var clean := [];
    for i := 0 to |settings|
      invariant AllSettings(settings[..i]) && clean == Clean(settings[..i])
    {
      assert settings[..i + 1][..i] == settings[..i];
      if !IsSetting(settings[i].key) { return NotASetting(settings[i].key); }
      if settings[i].value != [] { clean := clean + [settings[i]]; }
    }
    assert settings[..|settings|] == settings;
    if |clean| == 0 { return NoObject; }
    BodyPrints(clean);
    var body := Body(clean).text;
    return Object(body, sha256(body));
  }

  lemma {:induction false} StringsPrint(entries: seq<Entry>)
    requires forall i :: 0 <= i < |entries| ==> entries[i].value.Str?
    ensures IntegerEntries(entries) && ProperEntries(entries)
  {
    if |entries| > 0 { StringsPrint(entries[1..]); }
  }

  lemma BodyPrints(clean: seq<Setting>)
    ensures Body(clean).Text?
  {
    StringsPrint(ToEntries(clean));
    var v := BodyValue(clean);
    assert v.fields[1..] == [v.fields[1]];
    assert AllIntegers(v.fields[0].value) && AllIntegers(v.fields[1].value);
    assert IntegerEntries(v.fields[1..]);
    PrintableIff(v, false);
  }

  // ---- The body's text ----

  /** Exactly the settings with a value are kept. */
  lemma {:induction false} KeptExactly(settings: seq<Setting>, s: Setting)
    ensures s in Clean(settings) <==> s in settings && s.value != []
  {
    if |settings| > 0 {
      var n := |settings| - 1;
      KeptExactly(settings[..n], s);
      assert settings == settings[..n] + [settings[n]];
    }
  }

  /** A name in quotes, and a colon. */
  function Named(key: Text): Text {
    [0x22] + key + [0x22] + [0x3a]
  }

  lemma KeysPlain()
    ensures Plain(SCHEMA_KEY) && Plain(SETTINGS_KEY)
  {
    KeyNames();
    var a: Text, b: Text := [0x73, 0x63, 0x68, 0x65, 0x6d, 0x61], [0x73, 0x65, 0x74, 0x74, 0x69, 0x6e, 0x67, 0x73];
    assert Plain(a) && Plain(b);
  }

  /** The body is the schema, which is 1, and the settings as an object, without a space or a line feed. */
  lemma BodyLayout(clean: seq<Setting>)
    ensures Body(clean).Text? && GoJson.GoMarshal(Obj(ToEntries(clean)), false).Text?
    ensures Body(clean).text == [0x7b] + Named(SCHEMA_KEY) + [0x31] + [0x2c] + Named(SETTINGS_KEY)
                                + GoJson.GoMarshal(Obj(ToEntries(clean)), false).text + [0x7d]
  {
    BodyPrints(clean);
    KeysPrint();
    LayoutOf(BodyValue(clean).fields[0], BodyValue(clean).fields[1], SCHEMA_KEY, SETTINGS_KEY);
  }

  lemma KeysPrint()
    ensures GoJson.GoJsonString(SCHEMA_KEY, false) == [0x22] + SCHEMA_KEY + [0x22]
    ensures GoJson.GoJsonString(SETTINGS_KEY, false) == [0x22] + SETTINGS_KEY + [0x22]
  {
    KeysPlain();
    PlainKey(SCHEMA_KEY);
    PlainKey(SETTINGS_KEY);
  }

  /** The two names, as code units. */
  lemma KeyNames()
    ensures SCHEMA_KEY == [0x73, 0x63, 0x68, 0x65, 0x6d, 0x61]
    ensures SETTINGS_KEY == [0x73, 0x65, 0x74, 0x74, 0x69, 0x6e, 0x67, 0x73]
  {
  }

  lemma LayoutOf(first: Entry, second: Entry, a: Text, b: Text)
    requires first.key == a && first.value == Num(Finite(1, 0)) && GoJson.GoJsonString(a, false) == [0x22] + a + [0x22]
    requires second.key == b && GoJson.GoJsonString(b, false) == [0x22] + b + [0x22]
    requires GoJson.GoMarshal(Struct([first, second]), false).Text?
    ensures GoJson.GoMarshal(second.value, false).Text?
    ensures GoJson.GoMarshal(Struct([first, second]), false).text
         == [0x7b] + Named(a) + [0x31] + [0x2c] + Named(b) + GoJson.GoMarshal(second.value, false).text + [0x7d]
  {
    TwoFields(first, second);
    MemberText(first, a, [0x31]);
    var r := GoJson.GoMarshal(second.value, false);
    MemberFails(second);
    MemberText(second, b, r.text);
    Joint(Named(a), [0x31], Named(b), r.text);
  }

  lemma MemberFails(e: Entry)
    ensures GoJson.MarshalMember(e, false).Text? <==> GoJson.GoMarshal(e.value, false).Text?
  {
  }

  lemma TwoFields(first: Entry, second: Entry)
    ensures GoJson.GoMarshal(Struct([first, second]), false)
         == GoJson.Joined(GoJson.MarshalMember(first, false), [0x2c],
           GoJson.MarshalMember(second, false)).Between([0x7b], [0x7d])
  {
    assert [first, second][1..] == [second];
    assert GoJson.MarshalMembers([second], false) == GoJson.MarshalMember(second, false);
    assert GoJson.MarshalMembers([first, second], false)
        == GoJson.Joined(GoJson.MarshalMember(first, false), [0x2c], GoJson.MarshalMember(second, false));
  }

  lemma MemberText(e: Entry, key: Text, text: Text)
    requires e.key == key && GoJson.GoMarshal(e.value, false) == GoJson.Text(text)
    requires GoJson.GoJsonString(key, false) == [0x22] + key + [0x22]
    ensures GoJson.MarshalMember(e, false) == GoJson.Text(Named(key) + text)
  {
    assert Named(key) + text + [] == Named(key) + text;
  }

  lemma Joint(a: Text, b: Text, c: Text, d: Text)
    ensures [0x7b] + (a + b + [0x2c] + (c + d)) + [0x7d] == [0x7b] + a + b + [0x2c] + c + d + [0x7d]
  {
  }

  /** Printable ASCII that needs no escape. */
  predicate Plain(t: Text) {
    forall k :: 0 <= k < |t| ==> 0x20 <= t[k] < 0x80 && t[k] != 0x22 && t[k] != 0x5c
  }

  lemma PlainKey(t: Text)
    requires Plain(t)
    ensures GoJson.GoJsonString(t, false) == [0x22] + t + [0x22]
  {
    PlainFrom(t, 0);
    assert t[0..] == t;
  }

  lemma {:induction false} PlainFrom(t: Text, i: nat)
    requires i <= |t| && Plain(t)
    ensures GoJson.EscapedFrom(t, i, false) == t[i..]
    decreases |t| - i
  {
    if i < |t| {
      PlainFrom(t, i + 1);
      assert t[i..] == [t[i]] + t[i + 1..];
    }
  }

  // ---- The body determines the settings ----

  /** The keys and values are well-formed UTF-16. */
  predicate AllWellFormed(settings: seq<Setting>) {
    forall i :: 0 <= i < |settings| ==> WellFormed(settings[i].key) && WellFormed(settings[i].value)
  }

  /** As a set of pairs. */
  predicate SameSettings(a: seq<Setting>, b: seq<Setting>) {
    (forall i :: 0 <= i < |a| ==> a[i] in b) && (forall i :: 0 <= i < |b| ==> b[i] in a)
  }

  predicate WellFormedEntry(e: Entry) {
    e.value.Str? && WellFormed(e.key) && WellFormed(e.value.s)
  }

  lemma NormKeepsEntry(e: Entry)
    requires WellFormedEntry(e)
    ensures NormEntry(e) == e
  {
    RepairWellFormed(e.key);
    RepairWellFormed(e.value.s);
    assert Norm(e.value) == Str(Repair(e.value.s));
  }

  lemma {:induction false} NormKeeps(entries: seq<Entry>)
    requires forall i :: 0 <= i < |entries| ==> WellFormedEntry(entries[i])
    ensures NormEntries(entries) == entries
  {
    if |entries| > 0 {
      NormKeepsEntry(entries[0]);
      NormKeeps(entries[1..]);
      assert NormEntries(entries) == [NormEntry(entries[0])] + NormEntries(entries[1..]);
    }
  }

  lemma SortedWellFormed(clean: seq<Setting>)
    requires AllWellFormed(clean)
    ensures NormEntries(SortEntries(ToEntries(clean))) == SortEntries(ToEntries(clean))
  {
    var sorted := SortEntries(ToEntries(clean));
    forall i | 0 <= i < |sorted| ensures WellFormedEntry(sorted[i]) {
      assert sorted[i] in ToEntries(clean);
    }
    NormKeeps(sorted);
  }

  lemma NormOfSettings(clean: seq<Setting>)
    requires AllWellFormed(clean)
    ensures Norm(Obj(ToEntries(clean))) == Obj(SortEntries(ToEntries(clean)))
  {
    SortedWellFormed(clean);
  }

  lemma NormOfBody(a: Entry, b: Entry)
    ensures Norm(Struct([a, b])).Obj? && |Norm(Struct([a, b])).entries| == 2
    ensures Norm(Struct([a, b])).entries[1].value == Norm(b.value)
  {
    NormPair(a, b);
    assert Norm(Struct([a, b])) == Obj(NormEntries([a, b]));
  }

  lemma NormPair(a: Entry, b: Entry)
    ensures NormEntries([a, b]) == [NormEntry(a), NormEntry(b)]
  {
    assert [a, b][1..] == [b] && [b][1..] == [];
    assert NormEntries([b]) == [NormEntry(b)] + NormEntries([b][1..]);
  }

  lemma SamePair(a: Entry, b: Entry, c: Entry, d: Entry)
    requires a.key == c.key && Same(a.value, c.value) && b.key == d.key && Same(b.value, d.value)
    ensures SameFields([a, b], [c, d])
  {
    assert [a, b][1..] == [b] && [c, d][1..] == [d];
    assert SameFields([b][1..], [d][1..]);
  }

  lemma ProperPair(a: Entry, b: Entry)
    requires Proper(a.value) && Proper(b.value)
    ensures ProperEntries([a, b])
  {
    assert [a, b][1..] == [b];
    assert ProperEntries([b][1..]);
  }

  lemma SortedDetermines(a: seq<Setting>, b: seq<Setting>)
    requires SortEntries(ToEntries(a)) == SortEntries(ToEntries(b))
    ensures forall i :: 0 <= i < |a| ==> a[i] in b
  {
    var x, y, s := ToEntries(a), ToEntries(b), SortEntries(ToEntries(a));
    forall i | 0 <= i < |a| ensures a[i] in b {
      assert x[i] in s;
      var k :| 0 <= k < |s| && s[k] == x[i];
      assert s[k] in y;
      var j :| 0 <= j < |y| && y[j] == x[i];
      assert b[j] == a[i];
    }
  }

  lemma EntriesAreSame(a: seq<Setting>, b: seq<Setting>)
    requires SameSettings(a, b)
    ensures Same(Obj(ToEntries(a)), Obj(ToEntries(b)))
  {
    var x, y := ToEntries(a), ToEntries(b);
    forall i | 0 <= i < |x| ensures HasSame(x[i], y) {
      var j :| 0 <= j < |b| && b[j] == a[i];
      assert y[j] == x[i];
    }
    EachHasSame(x, y);
    forall j | 0 <= j < |y| ensures HasKey(x, y[j].key) {
      var i :| 0 <= i < |a| && a[i] == b[j];
      assert x[i].key == y[j].key;
    }
  }

  lemma SettingsAreSame(a: seq<Setting>, b: seq<Setting>)
    requires UniqueSettings(a) && SameSettings(a, b)
    ensures Same(BodyValue(a), BodyValue(b)) && Proper(BodyValue(a))
  {
    EntriesAreSame(a, b);
    StringsPrint(ToEntries(a));
    var v, w := BodyValue(a).fields, BodyValue(b).fields;
    SamePair(v[0], v[1], w[0], w[1]);
    ProperPair(v[0], v[1]);
  }

  lemma {:induction false} EachHasSame(x: seq<Entry>, y: seq<Entry>)
    requires forall i :: 0 <= i < |x| ==> HasSame(x[i], y)
    ensures SameEntries(x, y)
  {
    if |x| > 0 { EachHasSame(x[1..], y); }
  }

  /**
   * Two configs have the same body exactly when they hold the same settings, in whatever order, provided their texts
   * are well-formed.
   */
  lemma BodyIffSettings(a: seq<Setting>, b: seq<Setting>)
    requires UniqueSettings(a) && UniqueSettings(b) && AllWellFormed(a) && AllWellFormed(b)
    ensures Body(a) == Body(b) <==> SameSettings(a, b)
  {
    if Body(a) == Body(b) {
      BodyPrints(a);
      TextDeterminesValue(BodyValue(a), BodyValue(b), false);
      NormOfBody(BodyValue(a).fields[0], BodyValue(a).fields[1]);
      NormOfBody(BodyValue(b).fields[0], BodyValue(b).fields[1]);
      NormOfSettings(a);
      NormOfSettings(b);
      SortedDetermines(a, b);
      SortedDetermines(b, a);
    }
    if SameSettings(a, b) {
      SettingsAreSame(a, b);
      SettingsAreSame(b, a);
      SamePrintSame(BodyValue(a), BodyValue(b), false);
    }
  }

  function BodyText(clean: seq<Setting>): Text {
    BodyPrints(clean);
    Body(clean).text
  }

  /** So does the digest that names the object, for any hash under which the two bodies do not collide. */
  lemma DigestIffSettings(a: seq<Setting>, b: seq<Setting>, sha256: Text -> Text)
    requires UniqueSettings(a) && UniqueSettings(b) && AllWellFormed(a) && AllWellFormed(b)
    requires sha256(BodyText(a)) == sha256(BodyText(b)) ==> BodyText(a) == BodyText(b)
    ensures sha256(BodyText(a)) == sha256(BodyText(b)) <==> SameSettings(a, b)
  {
    BodyPrints(a);
    BodyPrints(b);
    BodyIffSettings(a, b);
  }
}
