/**
 * The console's handlers as they run under the policy mutex, and the recovery a start performs. Each is proved to have
 * the effect of its sequence of atomic steps, so what holds of every run of the steps holds of every sequence of calls.
 */
module AdminConsole {
  import opened Prelude
  import opened AdminConfig
  import opened AdminPolicy

  datatype Reply = Rejected | Conflict | Unchanged | ServerError | RecoveryPending | Done

  /** Where a storage request ends when nothing crashes it. */
  function StorageOutcome(st: State, desired: Option<bool>, saves: bool, clears: bool, restores: bool): State
    requires Free(st)
  {
    var live := st.proc.live.(drift := false);
    var next := Wanted(desired, live.policy.store);
    var taken := Saved(st.disk, live.policy.(store := next), true, saves);
    if live.resetPending || next == live.policy.store || taken.None? then st
    else if clears then
      State(taken.value, map[], st.proc.(live := live.(policy := live.policy.(store := next), resetPending := true)))
    else
      var back := Saved(taken.value, live.policy, false, restores);
      if back.Some? then State(back.value, st.rows, st.proc.(live := live))
      else State(taken.value, st.rows, st.proc.(live := live.(resetPending := true)))
  }

  lemma StorageRuns(env: Env, st: State, desired: Option<bool>, saves: bool, clears: bool, restores: bool)
    requires Free(st)
    ensures Next(env, Next(env, Next(env, Next(env, st, Storage(desired, saves)), Go(clears)), Go(restores)), Go(true))
         == StorageOutcome(st, desired, saves, clears, restores)
  {
    hide Saved;
  }

  function EditOutcome(env: Env, st: State, changes: map<Key, Json>, confirmed: bool, saves: bool): State
    requires Free(st)
  {
    if !EditProceeds(env, st, changes, confirmed) then st
    else
      var live, s := st.proc.live.(drift := false), st.proc.cfg.settings;
      var target := Requested(changes, s);
      var taken := SavedSettings(env, st.disk, Config(live.policy, live.resetPending, target), ChangedKeys(s, target), saves);
      if taken.None? then st else State(taken.value, st.rows, st.proc.(live := live.(configPending := true)))
  }

  lemma EditRuns(env: Env, st: State, changes: map<Key, Json>, confirmed: bool, saves: bool)
    requires Free(st)
    ensures Next(env, Next(env, st, Edit(changes, confirmed, saves)), Go(true)) == EditOutcome(env, st, changes, confirmed, saves)
  {
    hide EditProceeds, SavedSettings, Requested, ChangedKeys;
  }

  class Platform {
    const env: Env
    var disk: Overrides
    var rows: map<Urn, bool>
    var cfg: Config
    var storeUserData: bool
    var forwardToStorage: bool
    var historyDays: int
    var complianceDays: int
    var registryResetPending: bool
    var configRestartPending: bool
    ghost var drift: bool

    function Policies(): Policy
      reads this
    {
      Policy(storeUserData, forwardToStorage, historyDays, complianceDays)
    }

    /** The serving platform with the mutex free. */
    ghost function Now(): State
      reads this
    {
      State(disk, rows, Serving(cfg, Live(Policies(), registryResetPending, configRestartPending, drift), Idle))
    }

    /** A process that has loaded its configuration but is not ready to serve. */
    constructor (env: Env, disk: Overrides, rows: map<Urn, bool>)
      ensures this.env == env && this.disk == disk && this.rows == rows && cfg == Effective(env, disk)
    {
      this.env, this.disk, this.rows, cfg := env, disk, rows, Effective(env, disk);
    }

    /** SaveAdminPolicies: the policies and marker of `p` and `pending` replace those on disk, or nothing changes. */
    method SaveAdminPolicies(p: Policy, pending: bool, io: bool) returns (ok: bool)
      modifies this`disk
      ensures Saved(old(disk), p, pending, io) == if ok then Some(disk) else None
      ensures disk == if ok then Written(p, pending, old(disk).settings) else old(disk)
    {
      if !ComplianceInRange(p.compliance) || p.history < 0 || !io {
        return false;
      }
      disk := disk.(store := Some(p.store), forward := Some(p.forward), history := Some(p.history),
                    compliance := Some(p.compliance), pending := pending);
      return true;
    }

    /** recoverPendingRegistryReset: clear, then take the marker off disk; a failure leaves the marker for the next start. */
    method RecoverPendingRegistryReset(clears: bool, saves: bool) returns (ok: bool)
      requires cfg.pending == disk.pending
      modifies this`disk, this`rows, this`cfg
      ensures State(disk, rows, if ok then Starting(cfg) else Down) ==
        if old(cfg).pending then Next(env, Next(env, State(old(disk), old(rows), Loaded(old(cfg))), Go(clears)), Go(saves))
        else Next(env, State(old(disk), old(rows), Loaded(old(cfg))), Go(clears))
      ensures cfg == if ok then old(cfg).(pending := false) else old(cfg)
      ensures disk.pending ==> !ok
    {
      if !cfg.pending {
        return true;
      }
      if !clears {
        return false;
      }
      rows := map[];
      cfg := cfg.(pending := false);
      ok := SaveAdminPolicies(cfg.policy, false, saves);
      if !ok {
        cfg := cfg.(pending := true);
      }
    }

    /** updateStorage. */
    method UpdateStorage(desired: Option<bool>, saves: bool, clears: bool, restores: bool) returns (reply: Reply)
      modifies this
      ensures Now() == Next(env, Next(env, Next(env, Next(env, old(Now()), Storage(desired, saves)), Go(clears)), Go(restores)), Go(true))
      ensures reply == Conflict <==> old(registryResetPending)
      ensures reply == Done ==> registryResetPending && disk.pending && rows == map[] && disk.store == Some(storeUserData)
      ensures reply == Done && desired.Some? ==> storeUserData == desired.value
      ensures reply == Done && desired.None? ==> storeUserData == !old(storeUserData)
      ensures reply == Unchanged <==> !old(registryResetPending) && desired == Some(old(storeUserData))
      ensures reply == Unchanged || reply == Conflict ==> Now() == old(Now())
      ensures reply == RecoveryPending ==> registryResetPending && disk.pending && disk.store == Some(!old(storeUserData))
      ensures forwardToStorage == old(forwardToStorage) && historyDays == old(historyDays) && complianceDays == old(complianceDays)
      ensures reply != Done ==> storeUserData == old(storeUserData) && rows == old(rows)
      ensures reply == ServerError ==> disk == old(disk) || (disk.store == Some(storeUserData) && !disk.pending)
    {
      StorageRuns(env, Now(), desired, saves, clears, restores);
      hide Next, Saved;
      if registryResetPending {
        return Conflict;
      }
      var current := storeUserData;
      var next := Wanted(desired, current);
      if next == current {
        return Unchanged;
      }
      var updated := Policies().(store := next);
      var ok := SaveAdminPolicies(updated, true, saves);
      if !ok {
        return ServerError;
      }
      drift := false;
      if !clears {
        updated := updated.(store := current);
        ok := SaveAdminPolicies(updated, registryResetPending, restores);
        if !ok {
          registryResetPending := true;
          return RecoveryPending;
        }
        return ServerError;
      }
      rows := map[];
      storeUserData := next;
      registryResetPending := true;
      return Done;
    }

    /** updateForwarding: allowed while a restart is pending, and keeping its marker. */
    method UpdateForwarding(desired: Option<bool>, saves: bool) returns (reply: Reply)
      modifies this
      ensures Now() == Next(env, Next(env, old(Now()), Forward(desired, saves)), Go(true))
      ensures reply == Done ==> disk.forward == Some(forwardToStorage) && disk.pending == registryResetPending
      ensures reply == Done && desired.Some? ==> forwardToStorage == desired.value
      ensures reply == Done && desired.None? ==> forwardToStorage == !old(forwardToStorage)
      ensures reply == Unchanged <==> desired == Some(old(forwardToStorage))
      ensures reply == Unchanged ==> Now() == old(Now())
      ensures storeUserData == old(storeUserData) && historyDays == old(historyDays) && complianceDays == old(complianceDays)
      ensures reply == ServerError ==> disk == old(disk) && forwardToStorage == old(forwardToStorage)
    {
      var current := forwardToStorage;
      var next := Wanted(desired, current);
      if next == current {
        return Unchanged;
      }
      var ok := SaveAdminPolicies(Policies().(forward := next), registryResetPending, saves);
      if !ok {
        return ServerError;
      }
      drift := false;
      forwardToStorage := next;
      return Done;
    }

    /** handleSetRetention, from the parsed days on. */
    method SetRetention(days: int, saves: bool) returns (reply: Reply)
      modifies this
      ensures Now() == Next(env, Next(env, old(Now()), Retain(days, saves)), Go(true))
      ensures reply == Done ==> historyDays == days && disk.history == Some(days)
      ensures reply == Rejected <==> days < 0 || 36_500 < days
      ensures reply == Conflict <==> 0 <= days <= 36_500 && old(registryResetPending)
      ensures reply != Done ==> Now() == old(Now())
    {
      if days < 0 || days > 36500 {
        return Rejected;
      }
      if registryResetPending {
        return Conflict;
      }
      var ok := SaveAdminPolicies(Policies().(history := days), registryResetPending, saves);
      if !ok {
        return ServerError;
      }
      drift := false;
      historyDays := Wrap32(days);
      return Done;
    }

    /** handleSetComplianceRetention: persist, apply to the archive, and take the file back when that fails. */
    method SetComplianceRetention(days: int, saves: bool, applies: bool, restores: bool) returns (reply: Reply)
      modifies this
      ensures Now() == Next(env, Next(env, Next(env, old(Now()), Compliance(days, saves)), Go(applies)), Go(restores))
      ensures reply == Done ==> complianceDays == days && disk.compliance == Some(days)
      ensures reply == Rejected <==> days < 0 || 36_500 < days
      ensures reply == Conflict <==> 0 <= days <= 36_500 && (old(registryResetPending) || old(configRestartPending))
      ensures reply != Done ==> complianceDays == old(complianceDays)
      ensures reply == ServerError && !drift ==> disk == old(disk) || disk.compliance == Some(complianceDays)
    {
      if !ComplianceInRange(days) {
        return Rejected;
      }
      if registryResetPending || configRestartPending {
        return Conflict;
      }
      var updated := Policies().(compliance := days);
      var ok := SaveAdminPolicies(updated, registryResetPending, saves);
      if !ok {
        return ServerError;
      }
      drift := false;
      if !applies {
        updated := updated.(compliance := complianceDays);
        ok := SaveAdminPolicies(updated, registryResetPending, restores);
        drift := !ok && days != complianceDays;
        return ServerError;
      }
      complianceDays := days;
      return Done;
    }

    /** handleEditableConfigSave; `confirmed` is the revision and confirmation-token check. */
    method SaveEditableConfig(changes: map<Key, Json>, confirmed: bool, saves: bool) returns (reply: Reply)
      modifies this
      ensures Now() == Next(env, Next(env, old(Now()), Edit(changes, confirmed, saves)), Go(true))
      ensures reply == Done ==> EditProceeds(env, old(Now()), changes, confirmed) && configRestartPending
      ensures reply == Done ==> confirmed && 1 <= |changes| <= 6 && !old(registryResetPending) && !old(configRestartPending)
      ensures reply == Conflict <==> 1 <= |changes| <= 6 && (old(registryResetPending) || old(configRestartPending))
      ensures reply != Done ==> Now() == old(Now())
      ensures cfg == old(cfg) && Policies() == old(Policies())
    {
      EditRuns(env, Now(), changes, confirmed, saves);
      hide Next, Editable, Requested, ChangedKeys, SavedSettings;
      if !(1 <= |changes| <= |EDITABLE|) {
        return Rejected;
      }
      if registryResetPending || configRestartPending {
        return Conflict;
      }
      var target := ApplyEditableChanges(env, changes, cfg.settings);
      if target.None? || !confirmed {
        return Rejected;
      }
      var keys := EditableChanges(cfg.settings, target.value);
      if keys == [] {
        return Unchanged;
      }
      var r := SaveAdminEditableSettings(env, disk, Config(Policies(), registryResetPending, target.value), keys, saves);
      if r.None? {
        return ServerError;
      }
      disk := r.value;
      drift := false;
      configRestartPending := true;
      return Done;
    }
  }
}
