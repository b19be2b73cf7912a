/**
 * The crash-safe policy protocol, one atomic effect at a time: a save of the override file (which may fail), the
 * clearing of the registry, each store to a live policy, each step of a start. A crash may come between any two.
 * The policy mutex keeps at most one handler under way; registry writes need no mutex and come at any time.
 */
module AdminPolicy {
  import opened Prelude
  import opened AdminConfig

  type Urn = string

  /** `drift` is history: the last save was of a compliance change to another value, neither applied nor taken back. */
  datatype Live = Live(policy: Policy, resetPending: bool, configPending: bool, drift: bool)

  /** Where the handler that holds the mutex stands. */
  datatype Pc = Idle
    | StorageSaved(next: bool) | RegistryCleared(next: bool) | ClearFailed | StorageStored
    | ForwardSaved(next: bool)
    | HistorySaved(days: int)
    | ComplianceSaved(days: int) | ApplyFailed(days: int)
    | SettingsSaved

  datatype Proc = Down | Loaded(cfg: Config) | Cleared(cfg: Config) | Starting(cfg: Config) | Serving(cfg: Config, live: Live, pc: Pc)

  /** `rows` tags every registry row with the storage policy in force when it was written. */
  datatype State = State(disk: Overrides, rows: map<Urn, bool>, proc: Proc)

  /** `io` and `ok` say whether the save, or the next effect, succeeds. */
  datatype Event =
    | Crash
    | Boot
    | Go(ok: bool)
    | Put(urn: Urn)
    | Drop(urn: Urn)
    | Storage(desired: Option<bool>, io: bool)
    | Forward(desired: Option<bool>, io: bool)
    | Retain(days: int, io: bool)
    | Compliance(days: int, io: bool)
    | Edit(changes: map<Key, Json>, confirmed: bool, io: bool)

  // ---- Steps --------------------------------------------------------------

  /** A live policy as its atomics hold it: the history days are an int32. */
  function Installed(p: Policy): Policy {
    p.(history := Wrap32(p.history))
  }

  function Start(env: Env, st: State, ok: bool): State
    requires st.proc.Loaded? || st.proc.Cleared? || st.proc.Starting?
  {
    var cfg := st.proc.cfg;
    match st.proc
    case Loaded(_) =>
      if !cfg.pending then st.(proc := Starting(cfg))
      else if ok then st.(rows := map[], proc := Cleared(cfg))
      else st.(proc := Down)
    case Cleared(_) =>
      var r := Saved(st.disk, cfg.policy, false, ok);
      if r.Some? then st.(disk := r.value, proc := Starting(cfg.(pending := false))) else st.(proc := Down)
    case Starting(_) =>
      if ok && !(env.compliance && cfg.settings.relay) && RelayStarts(env.parse, cfg.settings)
      then st.(proc := Serving(cfg, Live(Installed(cfg.policy), cfg.pending, false, false), Idle))
      else st.(proc := Down)
  }

  /** The next effect of the handler under way. */
  function Continue(st: State, ok: bool): State
    requires st.proc.Serving?
  {
    var p, live := st.proc, st.proc.live;
    match p.pc
    case Idle => st
    case StorageSaved(next) =>
      if ok then st.(rows := map[], proc := p.(pc := RegistryCleared(next))) else st.(proc := p.(pc := ClearFailed))
    case ClearFailed =>
      var r := Saved(st.disk, live.policy, live.resetPending, ok);
      if r.Some? then st.(disk := r.value, proc := p.(pc := Idle))
      else st.(proc := p.(live := live.(resetPending := true), pc := Idle))
    case RegistryCleared(next) => st.(proc := p.(live := live.(policy := live.policy.(store := next)), pc := StorageStored))
    case StorageStored => st.(proc := p.(live := live.(resetPending := true), pc := Idle))
    case ForwardSaved(next) => st.(proc := p.(live := live.(policy := live.policy.(forward := next)), pc := Idle))
    case HistorySaved(days) => st.(proc := p.(live := live.(policy := Installed(live.policy.(history := days))), pc := Idle))
    case ComplianceSaved(days) =>
      if ok then st.(proc := p.(live := live.(policy := live.policy.(compliance := days), drift := false), pc := Idle))
      else st.(proc := p.(pc := ApplyFailed(days)))
    case ApplyFailed(days) =>
      var r := Saved(st.disk, live.policy, live.resetPending, ok);
      if r.Some? then st.(disk := r.value, proc := p.(live := live.(drift := false), pc := Idle))
      else st.(proc := p.(live := live.(drift := days != live.policy.compliance), pc := Idle))
    case SettingsSaved => st.(proc := p.(live := live.(configPending := true), pc := Idle))
  }

  /** A handler whose first save went through, or did not. */
  function Began(st: State, saved: Option<Overrides>, pc: Pc): State
    requires st.proc.Serving?
  {
    if saved.None? then st
    else st.(disk := saved.value, proc := st.proc.(live := st.proc.live.(drift := false), pc := pc))
  }

  function Wanted(desired: Option<bool>, current: bool): bool {
    if desired.Some? then desired.value else !current
  }

  function BeginStorage(st: State, desired: Option<bool>, io: bool): State
    requires st.proc.Serving?
  {
    var live := st.proc.live;
    var next := Wanted(desired, live.policy.store);
    if live.resetPending || next == live.policy.store then st
    else Began(st, Saved(st.disk, live.policy.(store := next), true, io), StorageSaved(next))
  }

  function BeginForward(st: State, desired: Option<bool>, io: bool): State
    requires st.proc.Serving?
  {
    var live := st.proc.live;
    var next := Wanted(desired, live.policy.forward);
    if next == live.policy.forward then st
    else Began(st, Saved(st.disk, live.policy.(forward := next), live.resetPending, io), ForwardSaved(next))
  }

  function BeginRetain(st: State, days: int, io: bool): State
    requires st.proc.Serving?
  {
    var live := st.proc.live;
    if !(0 <= days <= 36500) || live.resetPending then st
    else Began(st, Saved(st.disk, live.policy.(history := days), live.resetPending, io), HistorySaved(days))
  }

  function BeginCompliance(st: State, days: int, io: bool): State
    requires st.proc.Serving?
  {
    var live := st.proc.live;
    if !ComplianceInRange(days) || live.resetPending || live.configPending then st
    else Began(st, Saved(st.disk, live.policy.(compliance := days), live.resetPending, io), ComplianceSaved(days))
  }

  /** An edit that reaches its save: no restart pending, accepted, confirmed, and changing something. */
  predicate EditProceeds(env: Env, st: State, changes: map<Key, Json>, confirmed: bool)
    requires st.proc.Serving?
  {
    && 1 <= |changes| <= |EDITABLE|
    && !st.proc.live.resetPending && !st.proc.live.configPending
    && Editable(env, changes, st.proc.cfg.settings)
    && confirmed
    && ChangedKeys(st.proc.cfg.settings, Requested(changes, st.proc.cfg.settings)) != []
  }

  function BeginEdit(env: Env, st: State, changes: map<Key, Json>, confirmed: bool, io: bool): State
    requires st.proc.Serving?
  {
    if !EditProceeds(env, st, changes, confirmed) then st
    else
      var live, s := st.proc.live, st.proc.cfg.settings;
      var target := Requested(changes, s);
      Began(st, SavedSettings(env, st.disk, Config(live.policy, live.resetPending, target), ChangedKeys(s, target), io), SettingsSaved)
  }

  predicate Free(st: State) {
    st.proc.Serving? && st.proc.pc == Idle
  }

  function Next(env: Env, st: State, e: Event): State {
    match e
    case Crash => st.(proc := Down)
    case Boot => if st.proc.Down? && Loads(env, st.disk) then st.(proc := Loaded(Effective(env, st.disk))) else st
    case Go(ok) => if st.proc.Down? then st else if st.proc.Serving? then Continue(st, ok) else Start(env, st, ok)
    case Put(urn) =>
      if st.proc.Starting? then st.(rows := st.rows[urn := st.proc.cfg.policy.store])
      else if st.proc.Serving? then st.(rows := st.rows[urn := st.proc.live.policy.store])
      else st
    case Drop(urn) => if st.proc.Starting? || st.proc.Serving? then st.(rows := st.rows - {urn}) else st
    case Storage(desired, io) => if Free(st) then BeginStorage(st, desired, io) else st
    case Forward(desired, io) => if Free(st) then BeginForward(st, desired, io) else st
    case Retain(days, io) => if Free(st) then BeginRetain(st, days, io) else st
    case Compliance(days, io) => if Free(st) then BeginCompliance(st, days, io) else st
    case Edit(changes, confirmed, io) => if Free(st) then BeginEdit(env, st, changes, confirmed, io) else st
  }

  function After(env: Env, st: State, es: seq<Event>): State {
    if es == [] then st else Next(env, After(env, st, es[..|es| - 1]), es[|es| - 1])
  }

  // ---- The invariant ------------------------------------------------------

  predicate Tagged(rows: map<Urn, bool>, store: bool) {
    forall urn | urn in rows :: rows[urn] == store
  }

  /** Between the first save of a storage change and the handler's last effect. */
  predicate Switching(pc: Pc) {
    pc.StorageSaved? || pc.RegistryCleared? || pc.ClearFailed? || pc.StorageStored?
  }

  predicate MarkerAgrees(eff: Config, rows: map<Urn, bool>, live: Live, pc: Pc) {
    && (live.resetPending ==> eff.pending)
    && (Switching(pc) ==> eff.pending && !live.resetPending)
    && (!Switching(pc) && !live.resetPending ==> !eff.pending && eff.policy.store == live.policy.store)
    && (!live.resetPending && !pc.StorageStored? ==> Tagged(rows, live.policy.store))
  }

  predicate PoliciesAgree(p: Policy, live: Live, pc: Pc) {
    && (p.forward == if pc.ForwardSaved? then pc.next else live.policy.forward)
    && live.policy.history == Wrap32(live.policy.history)
    && (if pc.HistorySaved? then p.history == pc.days && 0 <= pc.days <= 36500 else Wrap32(p.history) == live.policy.history)
    && (pc != Idle ==> !live.drift)
    && (if pc.ComplianceSaved? || pc.ApplyFailed? then p.compliance == pc.days
        else live.drift <==> p.compliance != live.policy.compliance)
  }

  predicate SettingsAgree(eff: Config, cfg: Config, live: Live, pc: Pc) {
    !live.configPending && !pc.SettingsSaved? ==> eff.settings == cfg.settings
  }

  predicate ProcAgrees(env: Env, st: State) {
    var eff := Effective(env, st.disk);
    match st.proc
    case Down => !eff.pending ==> Tagged(st.rows, eff.policy.store)
    case Loaded(cfg) => cfg == eff && (!eff.pending ==> Tagged(st.rows, eff.policy.store))
    case Cleared(cfg) => cfg == eff && eff.pending && st.rows == map[]
    case Starting(cfg) => cfg == eff && !eff.pending && Tagged(st.rows, eff.policy.store)
    case Serving(cfg, live, pc) =>
      MarkerAgrees(eff, st.rows, live, pc) && PoliciesAgree(eff.policy, live, pc) && SettingsAgree(eff, cfg, live, pc)
  }

  /** What every reachable state satisfies. A pending marker is only ever written together with a history override. */
  predicate Sound(env: Env, st: State) {
    && StartsUp(env, st.disk)
    && (st.disk.pending ==> st.disk.history.Some?)
    && ProcAgrees(env, st)
  }

  lemma StartKeeps(env: Env, st: State, ok: bool)
    requires Sound(env, st) && (st.proc.Loaded? || st.proc.Cleared? || st.proc.Starting?)
    ensures Sound(env, Start(env, st, ok))
  {
    hide RelayStarts;
    if st.proc.Cleared? {
      PoliciesRoundTrip(env, st.disk, st.proc.cfg.policy, false);
    }
    hide Loads;
  }

  /** The two effects that put the old policies back on disk. */
  lemma RollbackKeeps(env: Env, st: State, ok: bool)
    requires Sound(env, st) && st.proc.Serving? && (st.proc.pc.ClearFailed? || st.proc.pc.ApplyFailed?)
    ensures Sound(env, Continue(st, ok))
  {
    PoliciesRoundTrip(env, st.disk, st.proc.live.policy, st.proc.live.resetPending);
    hide StartsUp, Effective, Tagged;
  }

  /** The effects that leave the file alone. */
  lemma EffectKeeps(env: Env, st: State, ok: bool)
    requires Sound(env, st) && st.proc.Serving? && !st.proc.pc.ClearFailed? && !st.proc.pc.ApplyFailed?
    ensures Sound(env, Continue(st, ok))
  {
    hide StartsUp, Effective, Saved;
  }

  lemma BeginKeeps(env: Env, st: State, e: Event)
    requires Sound(env, st) && Free(st) && (e.Storage? || e.Forward? || e.Retain? || e.Compliance?)
    ensures Sound(env, Next(env, st, e))
  {
    var live := st.proc.live;
    var p, pending := live.policy, live.resetPending;
    match e {
      case Storage(desired, _) => PoliciesRoundTrip(env, st.disk, p.(store := Wanted(desired, p.store)), true);
      case Forward(desired, _) => PoliciesRoundTrip(env, st.disk, p.(forward := Wanted(desired, p.forward)), pending);
      case Retain(days, _) => PoliciesRoundTrip(env, st.disk, p.(history := days), pending);
      case Compliance(days, _) => PoliciesRoundTrip(env, st.disk, p.(compliance := days), pending);
    }
    hide StartsUp, Effective, Tagged;
  }

  lemma EditKeeps(env: Env, st: State, changes: map<Key, Json>, confirmed: bool, io: bool)
    requires Sound(env, st) && Free(st)
    ensures Sound(env, BeginEdit(env, st, changes, confirmed, io))
  {
    if EditProceeds(env, st, changes, confirmed) {
      EditRoundTrip(env, st.disk, changes, st.proc.live.policy, st.proc.live.resetPending);
    }
    hide StartsUp, Effective, Editable, Requested, ChangedKeys, Tagged;
  }

  lemma NextKeeps(env: Env, st: State, e: Event)
    requires Sound(env, st)
    ensures Sound(env, Next(env, st, e))
  {
    if e.Go? && st.proc.Serving? {
      if st.proc.pc.ClearFailed? || st.proc.pc.ApplyFailed? {
        RollbackKeeps(env, st, e.ok);
      } else {
        EffectKeeps(env, st, e.ok);
      }
    } else if e.Go? && !st.proc.Down? {
      StartKeeps(env, st, e.ok);
    } else if e.Edit? && Free(st) {
      EditKeeps(env, st, e.changes, e.confirmed, e.io);
    } else if (e.Storage? || e.Forward? || e.Retain? || e.Compliance?) && Free(st) {
      BeginKeeps(env, st, e);
    }
    hide StartsUp;
  }

  lemma {:induction false} AlwaysSound(env: Env, st: State, es: seq<Event>)
    requires Sound(env, st)
    ensures Sound(env, After(env, st, es))
    decreases |es|
  {
    if es != [] {
      AlwaysSound(env, st, es[..|es| - 1]);
      NextKeeps(env, After(env, st, es[..|es| - 1]), es[|es| - 1]);
    }
  }

  // ---- Main results -------------------------------------------------------

  /** The platform is down with a file it would start with, and no row of another policy unless a reset is owed. */
  predicate Installable(env: Env, st: State) {
    && st.proc.Down?
    && StartsUp(env, st.disk)
    && (st.disk.pending ==> st.disk.history.Some?)
    && (!st.disk.pending ==> Tagged(st.rows, Effective(env, st.disk).policy.store))
  }

  /**
   * Whatever crashes, fails and interleaves: a platform that serves without a marker on disk runs the persisted storage
   * policy, and holds no row written under the other one. Between handlers the marker in memory is the marker on disk,
   * and the other live policies are the persisted ones, history days as an int32; the live compliance retention differs from
   * the persisted one exactly when the last save was of a change to it that was neither applied nor taken back.
   */
  lemma CrashSafe(env: Env, st: State, es: seq<Event>)
    requires Installable(env, st)
    ensures var now := After(env, st, es);
      var p := Effective(env, now.disk).policy;
      && (now.proc.Serving? && !now.disk.pending ==>
        now.proc.live.policy.store == p.store && Tagged(now.rows, p.store))
      && (Free(now) ==>
        && now.proc.live.resetPending == now.disk.pending
        && now.proc.live.policy.forward == p.forward
        && now.proc.live.policy.history == Wrap32(p.history)
        && (now.proc.live.drift <==> now.proc.live.policy.compliance != p.compliance))
  {
    AlwaysSound(env, st, es);
    hide StartsUp, After;
  }

  function Restarted(env: Env, st: State): State {
    Next(env, Next(env, Next(env, Next(env, Next(env, st, Crash), Boot), Go(true)), Go(true)), Go(true))
  }

  /**
   * At any moment of any run, the file on disk starts the platform again: a crash and an undisturbed start lead to
   * serving with exactly the persisted policies and settings, the marker gone, and the registry empty if it was set.
   */
  lemma RestartIsAccepted(env: Env, st: State, es: seq<Event>)
    requires Installable(env, st)
    ensures var now := After(env, st, es);
      var eff, r := Effective(env, now.disk), Restarted(env, now);
      && !(env.compliance && eff.settings.relay)
      && Free(r) && !r.disk.pending
      && r.proc.live == Live(Installed(eff.policy), false, false, false)
      && r.proc.cfg == eff.(pending := false)
      && r.disk.settings == now.disk.settings
      && (now.disk.pending ==> r.rows == map[])
      && Tagged(r.rows, eff.policy.store)
  {
    AlwaysSound(env, st, es);
    var now := After(env, st, es);
    RestartFrom(env, now);
  }

  lemma RestartFrom(env: Env, now: State)
    requires Sound(env, now)
    ensures var eff, r := Effective(env, now.disk), Restarted(env, now);
      && Free(r) && !r.disk.pending
      && r.proc.live == Live(Installed(eff.policy), false, false, false)
      && r.proc.cfg == eff.(pending := false)
      && r.disk.settings == now.disk.settings
      && (now.disk.pending ==> r.rows == map[])
      && Tagged(r.rows, eff.policy.store)
  {
    var eff := Effective(env, now.disk);
    var down := Next(env, now, Crash);
    NextKeeps(env, now, Crash);
    var loaded := Next(env, down, Boot);
    assert loaded == State(now.disk, now.rows, Loaded(eff));
    if now.disk.pending {
      PoliciesRoundTrip(env, now.disk, eff.policy, false);
    }
  }

  /** One accepted, confirmed edit: the file gains exactly the changed keys and names the target and the live policies. */
  lemma EditChangesExactlyTheRequest(env: Env, st: State, es: seq<Event>, changes: map<Key, Json>, confirmed: bool)
    requires Installable(env, st)
    requires Free(After(env, st, es)) && EditProceeds(env, After(env, st, es), changes, confirmed)
    ensures var now := After(env, st, es);
      var live, s, target := now.proc.live, now.proc.cfg.settings, Requested(changes, now.proc.cfg.settings);
      var disk := Next(env, now, Edit(changes, confirmed, true)).disk;
      && (forall k :: Get(target, k) == Asked(changes, s, k))
      && (if Savable(live.policy)
          then Effective(env, disk) == Config(live.policy, false, target) && ChangedExactly(now.disk.settings, disk.settings, s, target)
          else disk == now.disk)
  {
    AlwaysSound(env, st, es);
    var now := After(env, st, es);
    EditRoundTrip(env, now.disk, changes, now.proc.live.policy, now.proc.live.resetPending);
    forall k ensures Get(Requested(changes, now.proc.cfg.settings), k) == Asked(changes, now.proc.cfg.settings, k) {
      UnaskedStays(changes, now.proc.cfg.settings, k);
    }
    hide StartsUp, After, Editable, ChangedKeys;
  }

  /** No step but an edit touches an override, and an edit touches none it was not asked for. */
  lemma {:induction false} UnrequestedOverridesStay(env: Env, st: State, es: seq<Event>, k: Key)
    requires Sound(env, st)
    requires forall i | 0 <= i < |es| && es[i].Edit? :: k !in es[i].changes
    ensures Override(After(env, st, es).disk.settings, k) == Override(st.disk.settings, k)
    decreases |es|
  {
    if es != [] {
      var n := |es| - 1;
      UnrequestedOverridesStay(env, st, es[..n], k);
      AlwaysSound(env, st, es[..n]);
      OverrideStays(env, After(env, st, es[..n]), es[n], k);
    }
  }

  lemma OverrideStays(env: Env, st: State, e: Event, k: Key)
    requires Sound(env, st)
    requires e.Edit? ==> k !in e.changes
    ensures Override(Next(env, st, e).disk.settings, k) == Override(st.disk.settings, k)
  {
    if e.Edit? && Free(st) && EditProceeds(env, st, e.changes, e.confirmed) {
      EditRoundTrip(env, st.disk, e.changes, st.proc.live.policy, st.proc.live.resetPending);
      UnaskedStays(e.changes, st.proc.cfg.settings, k);
    }
    hide StartsUp, Effective, Editable, ChangedKeys, Requested;
  }

  /**
   * What one compliance request does to the agreement of file and process, for every outcome of its three effects: once its
   * save went through, they part if and only if the change to another value is neither applied nor taken back; a request
   * that saves nothing leaves them as they were.
   */
  lemma RetentionDriftsIff(env: Env, st: State, days: int, saves: bool, applies: bool, restores: bool)
    requires Sound(env, st) && Free(st) && ComplianceInRange(days)
    requires !st.proc.live.resetPending && !st.proc.live.configPending
    ensures var live := st.proc.live;
      var r := Next(env, Next(env, Next(env, st, Compliance(days, saves)), Go(applies)), Go(restores));
      var lost := !applies && !(restores && Savable(live.policy)) && days != live.policy.compliance;
      && Free(r) && !r.disk.pending
      && (Effective(env, r.disk).policy.compliance != r.proc.live.policy.compliance <==>
          if saves && live.policy.history >= 0 then lost else live.drift)
      && r.proc.live.policy.compliance == (if saves && live.policy.history >= 0 && applies then days else live.policy.compliance)
  {
    PoliciesRoundTrip(env, st.disk, st.proc.live.policy.(compliance := days), false);
    hide StartsUp, Overlay;
  }

  /** The owed reset of a storage change whose rollback failed: the new value is on disk, the old one is live. */
  predicate HalfSwitched(env: Env, st: State) {
    && st.proc.Serving? && (st.proc.pc.Idle? || st.proc.pc.ForwardSaved?)
    && st.proc.live.resetPending && st.disk.pending && Savable(st.proc.live.policy)
    && Effective(env, st.disk).policy.store != st.proc.live.policy.store
  }

  /** A forwarding request that reaches its save: the mutex is free, the value differs, the save succeeds. */
  predicate ForwardLands(st: State, e: Event) {
    && e.Forward? && Free(st) && e.io
    && Wanted(e.desired, st.proc.live.policy.forward) != st.proc.live.policy.forward
  }

  lemma FailedRollbackHalfSwitches(env: Env, st: State)
    requires Sound(env, st) && Free(st) && !st.proc.live.resetPending && Savable(st.proc.live.policy)
    ensures HalfSwitched(env, Next(env, Next(env, Next(env, st, Storage(None, true)), Go(false)), Go(false)))
  {
    var live := st.proc.live;
    PoliciesRoundTrip(env, st.disk, live.policy.(store := !live.policy.store), true);
    hide Sound, StartsUp;
  }

  /** Until the restart nothing but forwarding saves: the half-switched policies stay as they are. */
  predicate Owes(st: State, store: bool) {
    && st.proc.Serving? && (st.proc.pc.Idle? || st.proc.pc.ForwardSaved?)
    && st.proc.live.resetPending && Savable(st.proc.live.policy) && st.proc.live.policy.store == store
  }

  lemma OwedStep(env: Env, st: State, e: Event, store: bool)
    requires Owes(st, store) && !e.Crash?
    ensures Owes(Next(env, st, e), store)
    ensures Effective(env, Next(env, st, e).disk).policy.store ==
      if ForwardLands(st, e) then store else Effective(env, st.disk).policy.store
  {
    hide Editable, Requested, ChangedKeys, Overlay;
  }

  /** No forwarding request of the run reached its save. */
  ghost predicate Quiet(env: Env, st: State, es: seq<Event>) {
    forall i | 0 <= i < |es| :: !ForwardLands(After(env, st, es[..i]), es[i])
  }

  lemma QuietUnfolds(env: Env, st: State, es: seq<Event>)
    requires es != []
    ensures var n := |es| - 1; Quiet(env, st, es) <==> Quiet(env, st, es[..n]) && !ForwardLands(After(env, st, es[..n]), es[n])
  {
    hide After, ForwardLands;
    var n := |es| - 1;
    forall i | 0 <= i < n ensures es[..n][..i] == es[..i] && es[..n][i] == es[i] {
    }
  }

  lemma {:induction false} OwedRun(env: Env, st: State, es: seq<Event>)
    requires HalfSwitched(env, st) && forall e | e in es :: !e.Crash?
    ensures Owes(After(env, st, es), st.proc.live.policy.store)
    ensures Effective(env, After(env, st, es).disk).policy.store != st.proc.live.policy.store <==> Quiet(env, st, es)
    decreases |es|
  {
    hide Next, ForwardLands, Effective, Owes;
    if es == [] {
      HalfSwitchedOwes(env, st);
    } else {
      var n := |es| - 1;
      OwedRun(env, st, es[..n]);
      OwedStep(env, After(env, st, es[..n]), es[n], st.proc.live.policy.store);
      QuietUnfolds(env, st, es);
      hide Quiet;
    }
  }

  lemma HalfSwitchedOwes(env: Env, st: State)
    requires HalfSwitched(env, st)
    ensures Owes(st, st.proc.live.policy.store)
    ensures Effective(env, st.disk).policy.store != st.proc.live.policy.store
  {
  }

  /**
   * When the promise of a failed rollback holds, that the new policy remains pending on disk: up to the next crash the file
   * names it, and a restart adopts it, if and only if no forwarding change has been saved in between.
   */
  lemma PendingSwitchSurvivesIffNoForwarding(env: Env, st: State, es: seq<Event>)
    requires Sound(env, st) && HalfSwitched(env, st) && forall e | e in es :: !e.Crash?
    ensures var quiet := Quiet(env, st, es);
      var now := After(env, st, es);
      && (Effective(env, now.disk).policy.store == !st.proc.live.policy.store <==> quiet)
      && Free(Restarted(env, now))
      && (Restarted(env, now).proc.live.policy.store == !st.proc.live.policy.store <==> quiet)
  {
    OwedRun(env, st, es);
    AlwaysSound(env, st, es);
    RestartFrom(env, After(env, st, es));
    hide After, Next, Restarted, Quiet, Sound, HalfSwitched, Owes;
  }

  // ---- What requests reach ------------------------------------------------

  /** An undisturbed storage change ends with the requested value live and on disk, the registry empty, and a restart owed. */
  lemma StorageReaches(env: Env, st: State, b: bool)
    requires Sound(env, st) && Free(st) && !st.proc.live.resetPending && st.proc.live.policy.store != b && Savable(st.proc.live.policy)
    ensures var begun := Next(env, st, Storage(Some(b), true));
      var r := Next(env, Next(env, Next(env, begun, Go(true)), Go(true)), Go(true));
      && Free(r) && r.proc.live.policy.store == b && r.disk.store == Some(b)
      && r.proc.live.resetPending && r.disk.pending && r.rows == map[]
    ensures Next(env, st, Storage(None, true)) == Next(env, st, Storage(Some(!st.proc.live.policy.store), true))
    ensures forall io :: Next(env, st, Storage(Some(st.proc.live.policy.store), io)) == st
  {
    hide StartsUp, Overlay;
  }

  /** The same for forwarding, history days and compliance days. */
  lemma SettingsReach(env: Env, st: State, b: bool, days: int)
    requires Sound(env, st) && Free(st) && !st.proc.live.resetPending && !st.proc.live.configPending && Savable(st.proc.live.policy)
    requires 0 <= days <= 36500
    ensures st.proc.live.policy.forward != b ==>
      var r := Next(env, Next(env, st, Forward(Some(b), true)), Go(true));
      Free(r) && r.proc.live.policy.forward == b && r.disk.forward == Some(b)
    ensures Next(env, st, Forward(None, true)) == Next(env, st, Forward(Some(!st.proc.live.policy.forward), true))
    ensures forall io :: Next(env, st, Forward(Some(st.proc.live.policy.forward), io)) == st
    ensures var r := Next(env, Next(env, st, Retain(days, true)), Go(true));
      Free(r) && r.proc.live.policy.history == days && r.disk.history == Some(days)
    ensures var r := Next(env, Next(env, st, Compliance(days, true)), Go(true));
      Free(r) && r.proc.live.policy.compliance == days && r.disk.compliance == Some(days)
  {
    hide StartsUp, Overlay;
  }
}
