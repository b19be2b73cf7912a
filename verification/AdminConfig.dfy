/** The read-only base configuration, the console's override file laid over it, and the saves that rewrite that file. */
module AdminConfig {
  import opened Prelude

  /** time.ParseDuration, in nanoseconds. */
  type Parser = string -> Option<int>

  datatype Policy = Policy(store: bool, forward: bool, history: int, compliance: int)

  datatype Settings = Settings(ttlHours: int, ttlDays: int, maxMsgs: int, relay: bool, reservations: int, duration: string)

  datatype Config = Config(policy: Policy, pending: bool, settings: Settings)

  datatype SettingOverrides = SettingOverrides(ttlHours: Option<int>, ttlDays: Option<int>, maxMsgs: Option<int>,
    relay: Option<bool>, reservations: Option<int>, duration: Option<string>)

  datatype Overrides = Overrides(store: Option<bool>, forward: Option<bool>, history: Option<int>, compliance: Option<int>,
    pending: bool, settings: SettingOverrides)

  /** What no console write changes: the base file, the duration parser, and whether a compliance policy is loaded. */
  datatype Env = Env(parse: Parser, policy: Policy, settings: Settings, compliance: bool)

  datatype Key = TtlHours | TtlDays | MaxMsgs | RelayOn | Reservations | Duration | Unknown(name: string)

  datatype Value = IntV(i: int) | BoolV(b: bool) | TextV(s: string)

  /** A requested JSON value; `Num` is an integer that fits an int, everything else unlisted is `Other`. */
  datatype Json = Num(n: int) | Bool(b: bool) | Text(s: string) | Null | Other

  const EDITABLE: seq<Key> := [TtlHours, TtlDays, MaxMsgs, RelayOn, Reservations, Duration]

  function Get(s: Settings, k: Key): Option<Value> {
    match k
    case TtlHours => Some(IntV(s.ttlHours))
    case TtlDays => Some(IntV(s.ttlDays))
    case MaxMsgs => Some(IntV(s.maxMsgs))
    case RelayOn => Some(BoolV(s.relay))
    case Reservations => Some(IntV(s.reservations))
    case Duration => Some(TextV(s.duration))
    case Unknown(_) => None
  }

  function Override(o: SettingOverrides, k: Key): Option<Value> {
    match k
    case TtlHours => if o.ttlHours.Some? then Some(IntV(o.ttlHours.value)) else None
    case TtlDays => if o.ttlDays.Some? then Some(IntV(o.ttlDays.value)) else None
    case MaxMsgs => if o.maxMsgs.Some? then Some(IntV(o.maxMsgs.value)) else None
    case RelayOn => if o.relay.Some? then Some(BoolV(o.relay.value)) else None
    case Reservations => if o.reservations.Some? then Some(IntV(o.reservations.value)) else None
    case Duration => if o.duration.Some? then Some(TextV(o.duration.value)) else None
    case Unknown(_) => None
  }

  predicate ComplianceInRange(days: int) {
    0 <= days <= 36500
  }

  /** ValidateAdminEditableSetting. */
  predicate Valid(parse: Parser, s: Settings, k: Key) {
    match k
    case TtlHours => 1 <= s.ttlHours <= 8760
    case TtlDays => 1 <= s.ttlDays <= 3650
    case MaxMsgs => 1 <= s.maxMsgs <= 100000
    case RelayOn => true
    case Reservations => 1 <= s.reservations <= 100000
    case Duration => parse(s.duration).Some? && 10 * NANOS <= parse(s.duration).value <= 24 * 3600 * NANOS
    case Unknown(_) => false
  }

  // ---- Loading ------------------------------------------------------------

  function Or<T>(o: Option<T>, base: T): T {
    if o.Some? then o.value else base
  }

  function Overlay(base: Settings, o: SettingOverrides): Settings {
    Settings(Or(o.ttlHours, base.ttlHours), Or(o.ttlDays, base.ttlDays), Or(o.maxMsgs, base.maxMsgs),
             Or(o.relay, base.relay), Or(o.reservations, base.reservations), Or(o.duration, base.duration))
  }

  /** What a start of the platform runs with. */
  function Effective(env: Env, o: Overrides): Config {
    Config(Policy(Or(o.store, env.policy.store), Or(o.forward, env.policy.forward),
                  Or(o.history, env.policy.history), Or(o.compliance, env.policy.compliance)),
           o.pending, Overlay(env.settings, o.settings))
  }

  /** The loader refuses a negative history override, any retention out of range, and an override outside its range. */
  predicate Loads(env: Env, o: Overrides) {
    && (o.history.Some? ==> o.history.value >= 0)
    && ComplianceInRange(Effective(env, o).policy.compliance)
    && forall k | k in EDITABLE && Override(o.settings, k).Some? :: Valid(env.parse, Overlay(env.settings, o.settings), k)
  }

  /** LoadAdminPolicies, then the retention check of Load. */
  method LoadAdminPolicies(env: Env, o: Overrides) returns (r: Option<Config>)
    ensures r == if Loads(env, o) then Some(Effective(env, o)) else None
  {
    var cfg := Config(env.policy, false, env.settings);
    if o.history.Some? && o.history.value < 0 {
      return None;
    }
    if o.compliance.Some? {
      if !ComplianceInRange(o.compliance.value) {
        return None;
      }
      cfg := cfg.(policy := cfg.policy.(compliance := o.compliance.value));
    }
    if o.store.Some? {
      cfg := cfg.(policy := cfg.policy.(store := o.store.value));
    }
    if o.forward.Some? {
      cfg := cfg.(policy := cfg.policy.(forward := o.forward.value));
    }
    if o.history.Some? {
      cfg := cfg.(policy := cfg.policy.(history := o.history.value));
    }
    var s := LoadSettings(cfg.settings, o.settings);
    cfg := cfg.(settings := s);
    for i := 0 to |EDITABLE|
      invariant forall j | 0 <= j < i :: Override(o.settings, EDITABLE[j]).Some? ==> Valid(env.parse, s, EDITABLE[j])
    {
      if Override(o.settings, EDITABLE[i]).Some? && !Valid(env.parse, s, EDITABLE[i]) {
        return None;
      }
    }
    cfg := cfg.(pending := o.pending);
    if !ComplianceInRange(cfg.policy.compliance) {
      return None;
    }
    return Some(cfg);
  }

  method LoadSettings(base: Settings, o: SettingOverrides) returns (s: Settings)
    ensures s == Overlay(base, o)
  {
    s := base;
    if o.ttlHours.Some? { s := s.(ttlHours := o.ttlHours.value); }
    if o.ttlDays.Some? { s := s.(ttlDays := o.ttlDays.value); }
    if o.maxMsgs.Some? { s := s.(maxMsgs := o.maxMsgs.value); }
    if o.relay.Some? { s := s.(relay := o.relay.value); }
    if o.reservations.Some? { s := s.(reservations := o.reservations.value); }
    if o.duration.Some? { s := s.(duration := o.duration.value); }
  }

  // ---- Saving -------------------------------------------------------------

  predicate Savable(p: Policy) {
    ComplianceInRange(p.compliance) && p.history >= 0
  }

  /** The file a save leaves: all four live policies and the marker, over the settings `kept`. */
  function Written(p: Policy, pending: bool, kept: SettingOverrides): Overrides {
    Overrides(Some(p.store), Some(p.forward), Some(p.history), Some(p.compliance), pending, kept)
  }

  /** SaveAdminPolicies; `io` is whether reading and atomically replacing the file succeed. */
  function Saved(o: Overrides, p: Policy, pending: bool, io: bool): Option<Overrides> {
    if io && Savable(p) then Some(Written(p, pending, o.settings)) else None
  }

  function SetOverride(o: SettingOverrides, s: Settings, k: Key): SettingOverrides {
    match k
    case TtlHours => o.(ttlHours := Some(s.ttlHours))
    case TtlDays => o.(ttlDays := Some(s.ttlDays))
    case MaxMsgs => o.(maxMsgs := Some(s.maxMsgs))
    case RelayOn => o.(relay := Some(s.relay))
    case Reservations => o.(reservations := Some(s.reservations))
    case Duration => o.(duration := Some(s.duration))
    case Unknown(_) => o
  }

  function SetOverrides(o: SettingOverrides, s: Settings, keys: seq<Key>): SettingOverrides {
    if keys == [] then o else SetOverride(SetOverrides(o, s, keys[..|keys| - 1]), s, keys[|keys| - 1])
  }

  /** SaveAdminEditableSettings: the named settings join the file. */
  function SavedSettings(env: Env, o: Overrides, cfg: Config, keys: seq<Key>, io: bool): Option<Overrides> {
    if (forall k | k in keys :: Valid(env.parse, cfg.settings, k)) && io && Savable(cfg.policy)
    then Some(Written(cfg.policy, cfg.pending, SetOverrides(o.settings, cfg.settings, keys)))
    else None
  }

  method SaveAdminEditableSettings(env: Env, o: Overrides, cfg: Config, keys: seq<Key>, io: bool) returns (r: Option<Overrides>)
    ensures r == SavedSettings(env, o, cfg, keys, io)
  {
    var s := o.settings;
    for i := 0 to |keys|
      invariant forall k | k in keys[..i] :: Valid(env.parse, cfg.settings, k)
      invariant s == SetOverrides(o.settings, cfg.settings, keys[..i])
    {
      if !Valid(env.parse, cfg.settings, keys[i]) {
        return None;
      }
      assert keys[..i + 1][..i] == keys[..i];
      s := SetOverride(s, cfg.settings, keys[i]);
    }
    assert keys[..|keys|] == keys;
    return if io && Savable(cfg.policy) then Some(Written(cfg.policy, cfg.pending, s)) else None;
  }

  // ---- Console edits ------------------------------------------------------

  /** json.Unmarshal into the setting's type: null reads as zero or the empty text, but is no boolean. */
  function Decoded(k: Key, j: Json): Option<Value> {
    match k
    case RelayOn => if j.Bool? then Some(BoolV(j.b)) else None
    case Duration => if j.Text? then Some(TextV(j.s)) else if j.Null? then Some(TextV("")) else None
    case Unknown(_) => None
    case _ => if j.Num? then Some(IntV(j.n)) else if j.Null? then Some(IntV(0)) else None
  }

  predicate WellTyped(changes: map<Key, Json>) {
    forall k | k in changes :: Decoded(k, changes[k]).Some?
  }

  function Asked(changes: map<Key, Json>, s: Settings, k: Key): Option<Value> {
    if k in changes then Decoded(k, changes[k]) else Get(s, k)
  }

  /** The settings with every requested value in place. */
  function Requested(changes: map<Key, Json>, s: Settings): Settings
    requires WellTyped(changes)
  {
    Settings(Asked(changes, s, TtlHours).value.i, Asked(changes, s, TtlDays).value.i, Asked(changes, s, MaxMsgs).value.i,
             Asked(changes, s, RelayOn).value.b, Asked(changes, s, Reservations).value.i, Asked(changes, s, Duration).value.s)
  }

  /** When an edit of the running settings is accepted. */
  predicate Editable(env: Env, changes: map<Key, Json>, s: Settings) {
    && WellTyped(changes)
    && var target := Requested(changes, s);
      && (forall k | k in changes :: Valid(env.parse, target, k))
      && (!s.relay && target.relay ==> Valid(env.parse, target, Reservations) && Valid(env.parse, target, Duration))
      && !(env.compliance && target.relay)
  }

  /** One case of the request: the named setting takes the decoded value, every other one stays. */
  method ApplyOne(s: Settings, k: Key, j: Json) returns (r: Option<Settings>)
    ensures r.Some? <==> Decoded(k, j).Some?
    ensures r.Some? ==> forall x :: Get(r.value, x) == if x == k then Decoded(k, j) else Get(s, x)
  {
    var v := Decoded(k, j);
    if v.None? {
      return None;
    }
    match k
    case TtlHours => return Some(s.(ttlHours := v.value.i));
    case TtlDays => return Some(s.(ttlDays := v.value.i));
    case MaxMsgs => return Some(s.(maxMsgs := v.value.i));
    case RelayOn => return Some(s.(relay := v.value.b));
    case Reservations => return Some(s.(reservations := v.value.i));
    case Duration => return Some(s.(duration := v.value.s));
  }

  /** applyEditableChanges. The request is read in any order. */
  method ApplyEditableChanges(env: Env, changes: map<Key, Json>, s: Settings) returns (r: Option<Settings>)
    ensures r == if Editable(env, changes, s) then Some(Requested(changes, s)) else None
  {
    var target := s;
    var todo := changes.Keys;
    while todo != {}
      invariant todo <= changes.Keys
      invariant forall k | k in changes && k !in todo :: Decoded(k, changes[k]).Some?
      invariant forall k :: Get(target, k) == if k in todo then Get(s, k) else Asked(changes, s, k)
      decreases todo
    {
      var k :| k in todo;
      var next := ApplyOne(target, k, changes[k]);
      if next.None? {
        return None;
      }
      target := next.value;
      todo := todo - {k};
    }
    SameSettings(target, Requested(changes, s));
    todo := changes.Keys;
    while todo != {}
      invariant todo <= changes.Keys
      invariant forall k | k in changes && k !in todo :: Valid(env.parse, target, k)
      decreases todo
    {
      var k :| k in todo;
      if !Valid(env.parse, target, k) {
        return None;
      }
      todo := todo - {k};
    }
    if !s.relay && target.relay && !(Valid(env.parse, target, Reservations) && Valid(env.parse, target, Duration)) {
      return None;
    }
    if env.compliance && target.relay {
      return None;
    }
    return Some(target);
  }

  lemma SameSettings(a: Settings, b: Settings)
    requires forall k | k in EDITABLE :: Get(a, k) == Get(b, k)
    ensures a == b
  {
    assert forall i | 0 <= i < |EDITABLE| :: EDITABLE[i] in EDITABLE;
    assert Get(a, EDITABLE[0]) == Get(b, EDITABLE[0]) && Get(a, EDITABLE[1]) == Get(b, EDITABLE[1])
        && Get(a, EDITABLE[2]) == Get(b, EDITABLE[2]) && Get(a, EDITABLE[3]) == Get(b, EDITABLE[3])
        && Get(a, EDITABLE[4]) == Get(b, EDITABLE[4]) && Get(a, EDITABLE[5]) == Get(b, EDITABLE[5]);
  }

  /** editableChanges: the keys whose value differs, in the console's order. */
  function Changed(current: Settings, target: Settings, n: nat): (keys: seq<Key>)
    requires n <= |EDITABLE|
    ensures forall k :: k in keys <==> k in EDITABLE[..n] && Get(current, k) != Get(target, k)
  {
    if n == 0 then []
    else
      assert EDITABLE[..n] == EDITABLE[..n - 1] + [EDITABLE[n - 1]];
      Changed(current, target, n - 1) + (if Get(current, EDITABLE[n - 1]) != Get(target, EDITABLE[n - 1]) then [EDITABLE[n - 1]] else [])
  }

  function ChangedKeys(current: Settings, target: Settings): seq<Key> {
    Changed(current, target, |EDITABLE|)
  }

  method EditableChanges(current: Settings, target: Settings) returns (keys: seq<Key>)
    ensures keys == ChangedKeys(current, target)
  {
    keys := [];
    for i := 0 to |EDITABLE|
      invariant keys == Changed(current, target, i)
    {
      if Get(current, EDITABLE[i]) != Get(target, EDITABLE[i]) {
        keys := keys + [EDITABLE[i]];
      }
    }
  }

  // ---- Startup ------------------------------------------------------------

  /** The circuit limit the relay is started with; an unreadable duration leaves its default of two minutes. */
  function CircuitNanos(parse: Parser, s: Settings): int {
    if parse(s.duration).Some? then parse(s.duration).value else 120 * NANOS
  }

  predicate RelayStarts(parse: Parser, s: Settings) {
    s.relay ==> s.reservations > 0 && CircuitNanos(parse, s) > 0
  }

  /** The startup refusals: the file loads, compliance forbids the relay, and the relay's limits are positive. */
  predicate StartsUp(env: Env, o: Overrides) {
    && Loads(env, o)
    && !(env.compliance && Effective(env, o).settings.relay)
    && RelayStarts(env.parse, Effective(env, o).settings)
  }

  // ---- What saves and loads promise each other ----------------------------

  lemma OverlayAt(base: Settings, o: SettingOverrides, k: Key)
    ensures Get(Overlay(base, o), k) == if Override(o, k).Some? then Override(o, k) else Get(base, k)
  {
  }

  lemma ValidDependsOnValue(parse: Parser, a: Settings, b: Settings, k: Key)
    requires Get(a, k) == Get(b, k)
    ensures Valid(parse, a, k) == Valid(parse, b, k)
  {
  }

  lemma {:induction false} OverridesSet(o: SettingOverrides, s: Settings, keys: seq<Key>, k: Key)
    ensures Override(SetOverrides(o, s, keys), k) == if k in keys then Get(s, k) else Override(o, k)
  {
    if keys != [] {
      OverridesSet(o, s, keys[..|keys| - 1], k);
      assert keys == keys[..|keys| - 1] + [keys[|keys| - 1]];
    }
  }

  /** A save of the live policies loads back as exactly those policies; settings stay as they were, and startup still accepts. */
  lemma PoliciesRoundTrip(env: Env, o: Overrides, p: Policy, pending: bool)
    requires StartsUp(env, o)
    ensures var r := Saved(o, p, pending, true);
      && (r.Some? <==> Savable(p))
      && (r.Some? ==> StartsUp(env, r.value) && Effective(env, r.value) == Config(p, pending, Effective(env, o).settings))
  {
  }

  /** The overrides hold the target's value at every setting that changes, and what they held before at every other key. */
  ghost predicate ChangedExactly(before: SettingOverrides, after: SettingOverrides, s: Settings, target: Settings) {
    forall k :: Override(after, k) == if Get(s, k) != Get(target, k) then Get(target, k) else Override(before, k)
  }

  /**
   * An accepted edit of the running settings: the file it leaves loads back as the requested target with the live
   * policies, its overrides differ from before exactly at the changed keys, and the next start accepts it.
   */
  lemma EditRoundTrip(env: Env, o: Overrides, changes: map<Key, Json>, p: Policy, pending: bool)
    requires StartsUp(env, o) && Editable(env, changes, Effective(env, o).settings)
    ensures var s := Effective(env, o).settings;
      var target := Requested(changes, s);
      var r := SavedSettings(env, o, Config(p, pending, target), ChangedKeys(s, target), true);
      && (r.Some? <==> Savable(p))
      && (r.Some? ==>
        && StartsUp(env, r.value)
        && Effective(env, r.value) == Config(p, pending, target)
        && ChangedExactly(o.settings, r.value.settings, s, target))
  {
    var s := Effective(env, o).settings;
    var target := Requested(changes, s);
    var keys := ChangedKeys(s, target);
    var written := SetOverrides(o.settings, target, keys);
    assert EDITABLE[..|EDITABLE|] == EDITABLE;
    forall k ensures Get(s, k) != Get(target, k) ==> k in changes && k in keys {
      UnaskedStays(changes, s, k);
      EditableHasValue(s, k);
    }
    forall k ensures Override(written, k) == if Get(s, k) != Get(target, k) then Get(target, k) else Override(o.settings, k) {
      OverridesSet(o.settings, target, keys, k);
    }
    WrittenOverlay(env, o, target, written);
    forall k | k in EDITABLE && Override(written, k).Some?
      ensures Valid(env.parse, target, k)
    {
      if Get(s, k) == Get(target, k) {
        ValidDependsOnValue(env.parse, s, target, k);
      }
    }
    RelayStillStarts(env, changes, s);
  }

  lemma UnaskedStays(changes: map<Key, Json>, s: Settings, k: Key)
    requires WellTyped(changes)
    ensures Get(Requested(changes, s), k) == Asked(changes, s, k)
    ensures k !in changes ==> Get(Requested(changes, s), k) == Get(s, k)
  {
  }

  lemma EditableHasValue(s: Settings, k: Key)
    ensures k in EDITABLE <==> Get(s, k).Some?
  {
    assert EDITABLE[0] == TtlHours && EDITABLE[1] == TtlDays && EDITABLE[2] == MaxMsgs
        && EDITABLE[3] == RelayOn && EDITABLE[4] == Reservations && EDITABLE[5] == Duration;
  }

  lemma WrittenOverlay(env: Env, o: Overrides, target: Settings, written: SettingOverrides)
    requires ChangedExactly(o.settings, written, Overlay(env.settings, o.settings), target)
    ensures Overlay(env.settings, written) == target
  {
    forall k | k in EDITABLE ensures Get(Overlay(env.settings, written), k) == Get(target, k) {
      OverlayAt(env.settings, written, k);
      OverlayAt(env.settings, o.settings, k);
      EditableHasValue(target, k);
    }
    SameSettings(Overlay(env.settings, written), target);
  }

  lemma RelayStillStarts(env: Env, changes: map<Key, Json>, s: Settings)
    requires Editable(env, changes, s) && RelayStarts(env.parse, s)
    ensures RelayStarts(env.parse, Requested(changes, s))
  {
    var target := Requested(changes, s);
    if target.relay && s.relay {
      UnaskedStays(changes, s, Reservations);
      UnaskedStays(changes, s, Duration);
    }
  }
}
