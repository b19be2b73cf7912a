/** The console's rules in the units an operator sees, and the values that come back from the file. */
module AdminLaws {
  import opened Prelude
  import opened AdminConfig

  /** The ranges of the six settings; durations run from ten seconds to a day. */
  lemma InRangeIff(parse: Parser, s: Settings)
    ensures Valid(parse, s, TtlHours) <==> 1 <= s.ttlHours <= 8760
    ensures Valid(parse, s, TtlDays) <==> 1 <= s.ttlDays <= 3650
    ensures Valid(parse, s, MaxMsgs) <==> 1 <= s.maxMsgs <= 100_000
    ensures Valid(parse, s, RelayOn)
    ensures Valid(parse, s, Reservations) <==> 1 <= s.reservations <= 100_000
    ensures Valid(parse, s, Duration) <==>
      parse(s.duration).Some? && 10_000_000_000 <= parse(s.duration).value <= 86_400_000_000_000
    ensures forall name :: !Valid(parse, s, Unknown(name))
  {
  }

  /** How a requested value is read: a number for a number, a flag for a flag, a text for the duration, null for none of them but zero and "". */
  lemma ReadIff(k: Key, j: Json, n: int, b: bool, text: string)
    ensures k == TtlHours || k == TtlDays || k == MaxMsgs || k == Reservations ==>
      (Decoded(k, j) == Some(IntV(n)) <==> j == Num(n) || (j == Null && n == 0)) && (Decoded(k, j).Some? <==> j.Num? || j.Null?)
    ensures k == RelayOn ==> (Decoded(k, j) == Some(BoolV(b)) <==> j == Bool(b)) && (Decoded(k, j).Some? <==> j.Bool?)
    ensures k == Duration ==>
      (Decoded(k, j) == Some(TextV(text)) <==> j == Text(text) || (j == Null && text == "")) && (Decoded(k, j).Some? <==> j.Text? || j.Null?)
    ensures k.Unknown? ==> Decoded(k, j).None?
  {
  }

  /** An accepted edit, saved, loads back with every requested value and nothing else changed. */
  lemma EditLoadsBack(env: Env, o: Overrides, changes: map<Key, Json>, p: Policy, pending: bool)
    requires StartsUp(env, o) && Editable(env, changes, Effective(env, o).settings) && Savable(p)
    ensures var s := Effective(env, o).settings;
      var target := Requested(changes, s);
      var r := SavedSettings(env, o, Config(p, pending, target), ChangedKeys(s, target), true);
      && r.Some?
      && var loaded := Effective(env, r.value).settings;
      && (TtlHours in changes && changes[TtlHours].Num? ==> loaded.ttlHours == changes[TtlHours].n)
      && (TtlDays in changes && changes[TtlDays].Num? ==> loaded.ttlDays == changes[TtlDays].n)
      && (MaxMsgs in changes && changes[MaxMsgs].Num? ==> loaded.maxMsgs == changes[MaxMsgs].n)
      && (RelayOn in changes ==> changes[RelayOn] == Bool(loaded.relay))
      && (Reservations in changes && changes[Reservations].Num? ==> loaded.reservations == changes[Reservations].n)
      && (Duration in changes && changes[Duration].Text? ==> loaded.duration == changes[Duration].s)
      && (TtlHours !in changes ==> loaded.ttlHours == s.ttlHours)
      && (TtlDays !in changes ==> loaded.ttlDays == s.ttlDays)
      && (MaxMsgs !in changes ==> loaded.maxMsgs == s.maxMsgs)
      && (RelayOn !in changes ==> loaded.relay == s.relay)
      && (Reservations !in changes ==> loaded.reservations == s.reservations)
      && (Duration !in changes ==> loaded.duration == s.duration)
  {
    EditRoundTrip(env, o, changes, p, pending);
    hide StartsUp, Effective, ChangedKeys, SavedSettings, Valid;
  }

  /** When a running platform accepts an edit. */
  lemma AcceptedIff(env: Env, changes: map<Key, Json>, s: Settings)
    ensures Editable(env, changes, s) <==>
      && (forall k | k in changes :: Decoded(k, changes[k]).Some?)
      && var target := Requested(changes, s);
      && (forall k | k in changes :: Valid(env.parse, target, k))
      && (target.relay && !s.relay ==>
          && 1 <= target.reservations <= 100_000
          && env.parse(target.duration).Some? && 10_000_000_000 <= env.parse(target.duration).value <= 86_400_000_000_000)
      && !(env.compliance && target.relay)
  {
    hide Requested, Decoded;
    if WellTyped(changes) {
      InRangeIff(env.parse, Requested(changes, s));
    }
  }

  /** What a start runs with: the override where the file has one, the base otherwise. */
  lemma StartsWith(env: Env, o: Overrides)
    ensures var c := Effective(env, o);
      && (o.store.Some? ==> c.policy.store == o.store.value) && (o.store.None? ==> c.policy.store == env.policy.store)
      && (o.forward.Some? ==> c.policy.forward == o.forward.value) && (o.forward.None? ==> c.policy.forward == env.policy.forward)
      && (o.history.Some? ==> c.policy.history == o.history.value) && (o.history.None? ==> c.policy.history == env.policy.history)
      && (o.compliance.Some? ==> c.policy.compliance == o.compliance.value)
      && (o.compliance.None? ==> c.policy.compliance == env.policy.compliance)
      && c.pending == o.pending
    ensures forall k | Override(o.settings, k).Some? :: Get(Effective(env, o).settings, k) == Override(o.settings, k)
    ensures forall k | Override(o.settings, k).None? :: Get(Effective(env, o).settings, k) == Get(env.settings, k)
  {
    forall k {
      OverlayAt(env.settings, o.settings, k);
    }
  }

  /** Which files load. */
  lemma LoadsIff(env: Env, o: Overrides)
    ensures Loads(env, o) <==>
      && (o.history.Some? ==> 0 <= o.history.value)
      && 0 <= (if o.compliance.Some? then o.compliance.value else env.policy.compliance) <= 36_500
      && (o.settings.ttlHours.Some? ==> 1 <= o.settings.ttlHours.value <= 8760)
      && (o.settings.ttlDays.Some? ==> 1 <= o.settings.ttlDays.value <= 3650)
      && (o.settings.maxMsgs.Some? ==> 1 <= o.settings.maxMsgs.value <= 100_000)
      && (o.settings.reservations.Some? ==> 1 <= o.settings.reservations.value <= 100_000)
      && (o.settings.duration.Some? ==>
          var d := env.parse(o.settings.duration.value);
          d.Some? && 10_000_000_000 <= d.value <= 86_400_000_000_000)
  {
    assert EDITABLE[0] == TtlHours && EDITABLE[1] == TtlDays && EDITABLE[2] == MaxMsgs
        && EDITABLE[3] == RelayOn && EDITABLE[4] == Reservations && EDITABLE[5] == Duration;
    InRangeIff(env.parse, Overlay(env.settings, o.settings));
    hide Valid;
  }

  /** A save writes all four policies and the marker and touches no setting; it needs the file system and policies in range. */
  lemma SavedIff(o: Overrides, p: Policy, pending: bool, io: bool)
    ensures var r := Saved(o, p, pending, io);
      && (r.Some? <==> io && 0 <= p.compliance <= 36_500 && 0 <= p.history)
      && (r.Some? ==>
          && r.value.store == Some(p.store) && r.value.forward == Some(p.forward)
          && r.value.history == Some(p.history) && r.value.compliance == Some(p.compliance)
          && r.value.pending == pending && r.value.settings == o.settings)
  {
  }

  /** The relay starts with positive limits; a duration that cannot be read leaves its two minutes. */
  lemma RelayStartsIff(parse: Parser, s: Settings)
    ensures RelayStarts(parse, s) <==>
      !s.relay || (1 <= s.reservations && (parse(s.duration).Some? ==> 1 <= parse(s.duration).value))
  {
  }
}
