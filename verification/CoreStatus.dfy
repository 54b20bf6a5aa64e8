/** What the core tells the plugin about itself: the dock's overrides and the status snapshot built from them,
    and the sliding window of protocol errors. Times are clock readings in milliseconds. */
module CoreStatus {
  import opened Options

  // ----- Overrides and snapshots -----

  datatype Mode = Studio | Irl

  datatype StateMode = StudioState | IrlConnecting | IrlActive | IrlGrace | Degraded

  /** What a snapshot reads besides the overrides: OBS's connection and the relay session's status, if there is one. */
  datatype World = World(obsConnected: bool, relay: Option<string>)

  /** The overrides of one session; a setting never accepted is absent. */
  datatype Overrides = Overrides(mode: Option<Mode>, settings: map<string, bool>)

  datatype StatusPayload = StatusPayload(
    mode: Mode, stateMode: StateMode, overrideEnabled: bool, settings: Option<map<string, bool>>)

  const NO_OVERRIDES := Overrides(None, map[])

  const SETTING_KEYS: set<string> :=
    {"auto_scene_switch", "low_quality_fallback", "manual_override", "chat_bot", "alerts"}

  predicate Supported(key: string) { key in SETTING_KEYS }

  function DeriveStateMode(w: World): StateMode {
    if !w.obsConnected then Degraded
    else if w.relay == Some("provisioning") then IrlConnecting
    else if w.relay == Some("active") then IrlActive
    else if w.relay == Some("grace") then IrlGrace
    else StudioState
  }

  function Snapshot(w: World, o: Overrides): StatusPayload {
    var state := DeriveStateMode(w);
    var derived := if state == IrlConnecting || state == IrlActive || state == IrlGrace then Irl else Studio;
    StatusPayload(
      if o.mode.Some? then o.mode.value else derived,
      state,
      "manual_override" in o.settings && o.settings["manual_override"],
      if o.settings == map[] then None else Some(o.settings))
  }

  function ParseMode(text: string): Option<Mode> {
    if text == "studio" then Some(Studio) else if text == "irl" then Some(Irl) else None
  }

  /** The values of the supported settings, as a map. */
  function Collected(get: string -> Option<bool>): map<string, bool> {
    map key | key in SETTING_KEYS && get(key).Some? :: get(key).value
  }

  lemma OneSetting(get: string -> Option<bool>, get': string -> Option<bool>, key: string, v: bool)
    requires Supported(key) && get'(key) == Some(v)
    requires forall k | k in SETTING_KEYS && k != key :: get'(k) == get(k)
    ensures Collected(get') == Collected(get)[key := v]
  {
  }

  class SessionOverrides {
    var mode: Option<Mode>
    var autoSceneSwitch: Option<bool>
    var lowQualityFallback: Option<bool>
    var manualOverride: Option<bool>
    var chatBot: Option<bool>
    var alerts: Option<bool>

    function View(): Overrides reads this {
      Overrides(mode, Collected(Get()))
    }

    /** The value of a setting by its key. */
    function Get(): string -> Option<bool> reads this {
      var (a, b, c, d, e) := (autoSceneSwitch, lowQualityFallback, manualOverride, chatBot, alerts);
      (key: string) =>
        if key == "auto_scene_switch" then a
        else if key == "low_quality_fallback" then b
        else if key == "manual_override" then c
        else if key == "chat_bot" then d
        else if key == "alerts" then e
        else None
    }

    constructor ()
      ensures View() == NO_OVERRIDES
    {
      mode, autoSceneSwitch, lowQualityFallback, manualOverride, chatBot, alerts := None, None, None, None, None, None;
    }

    method SetModeIfChanged(m: Mode) returns (changed: bool)
      modifies this
      ensures changed <==> old(View()).mode != Some(m)
      ensures View() == old(View()).(mode := Some(m))
    {
      if mode == Some(m) {
        return false;
      }
      mode := Some(m);
      return true;
    }

    /** `None` for a key the core does not know, and then nothing changes. */
    method ApplySettingIfChanged(key: string, value: bool) returns (changed: Option<bool>)
      modifies this
      ensures changed.None? <==> !Supported(key)
      ensures changed.None? ==> View() == old(View())
      ensures changed.Some? ==> View() == old(View()).(settings := old(View()).settings[key := value])
      ensures changed.Some? ==>
        (changed.value <==> !(key in old(View()).settings && old(View()).settings[key] == value))
    {
      changed := Some(true);
      if key == "auto_scene_switch" {
        changed := Some(autoSceneSwitch != Some(value));
        autoSceneSwitch := Some(value);
      } else if key == "low_quality_fallback" {
        changed := Some(lowQualityFallback != Some(value));
        lowQualityFallback := Some(value);
      } else if key == "manual_override" {
        changed := Some(manualOverride != Some(value));
        manualOverride := Some(value);
      } else if key == "chat_bot" {
        changed := Some(chatBot != Some(value));
        chatBot := Some(value);
      } else if key == "alerts" {
        changed := Some(alerts != Some(value));
        alerts := Some(value);
      } else {
        changed := None;
      }
      if changed.Some? { OneSetting(old(Get()), Get(), key, value); }
    }

    method HasAnySettings() returns (any: bool)
      ensures any <==> View().settings != map[]
    {
      any := autoSceneSwitch.Some? || lowQualityFallback.Some? || manualOverride.Some? || chatBot.Some? || alerts.Some?;
      assert manualOverride.Some? ==> "manual_override" in View().settings;
      assert autoSceneSwitch.Some? ==> "auto_scene_switch" in View().settings;
      assert lowQualityFallback.Some? ==> "low_quality_fallback" in View().settings;
      assert chatBot.Some? ==> "chat_bot" in View().settings;
      assert alerts.Some? ==> "alerts" in View().settings;
    }
  }

  // ----- The window of protocol errors -----

  const PROTOCOL_ERROR_WINDOW: int := 10_000
  const PROTOCOL_ERROR_RESET_THRESHOLD: nat := 5

  function CountSince(errors: seq<int>, from: int): nat {
    if errors == [] then 0
    else CountSince(errors[..|errors| - 1], from) + (if errors[|errors| - 1] >= from then 1 else 0)
  }

  /** More than five errors, this latest one included, lie in the last ten seconds. */
  predicate Resets(errors: seq<int>)
    requires errors != []
  {
    CountSince(errors, Last(errors) - PROTOCOL_ERROR_WINDOW) > PROTOCOL_ERROR_RESET_THRESHOLD
  }

  function Last(errors: seq<int>): int
    requires errors != []
  {
    errors[|errors| - 1]
  }

  lemma {:induction false} CountSinceFront(errors: seq<int>, from: int)
    requires errors != []
    ensures CountSince(errors, from) == CountSince(errors[1..], from) + (if errors[0] >= from then 1 else 0)
  {
    if |errors| > 1 {
      var front := errors[..|errors| - 1];
      assert front[1..] == errors[1..][..|errors| - 2];
      CountSinceFront(front, from);
    }
  }

  lemma {:induction false} CountSinceAll(errors: seq<int>, from: int)
    requires forall i | 0 <= i < |errors| :: errors[i] >= from
    ensures CountSince(errors, from) == |errors|
  {
    if errors != [] {
      CountSinceAll(errors[..|errors| - 1], from);
    }
  }

  /** `recent`, in order of time, counts like `errors` from any point inside the window that ends at `now`. */
  ghost predicate CountsAlike(recent: seq<int>, errors: seq<int>, now: int) {
    && (forall i, j | 0 <= i < j < |recent| :: recent[i] <= recent[j])
    && (forall i | 0 <= i < |recent| :: recent[i] <= now)
    && (forall from | from >= now - PROTOCOL_ERROR_WINDOW :: CountSince(recent, from) == CountSince(errors, from))
  }

  lemma OneMoreCountsAlike(recent: seq<int>, errors: seq<int>, before: int, now: int)
    requires CountsAlike(recent, errors, before) && before <= now
    ensures CountsAlike(recent + [now], errors + [now], now)
  {
    assert (recent + [now])[..|recent|] == recent && (errors + [now])[..|errors|] == errors;
  }

  lemma OldestOutCountsAlike(recent: seq<int>, errors: seq<int>, now: int)
    requires CountsAlike(recent, errors, now) && recent != [] && now - recent[0] > PROTOCOL_ERROR_WINDOW
    ensures CountsAlike(recent[1..], errors, now)
  {
    forall from | from >= now - PROTOCOL_ERROR_WINDOW
      ensures CountSince(recent[1..], from) == CountSince(errors, from)
    {
      CountSinceFront(recent, from);
    }
  }

  class ProtocolErrorTracker {
    var recent: seq<int>
    /** Every error ever recorded, oldest first. */
    ghost var errors: seq<int>

    ghost predicate Valid() reads this {
      if errors == [] then recent == [] else CountsAlike(recent, errors, Last(errors))
    }

    constructor ()
      ensures Valid() && errors == []
    {
      recent, errors := [], [];
    }

    method RecordAndShouldReset(now: int) returns (reset: bool)
      requires Valid() && (errors != [] ==> Last(errors) <= now)
      modifies this
      ensures Valid() && errors == old(errors) + [now]
      ensures reset <==> Resets(errors)
    {
      OneMoreCountsAlike(recent, errors, if errors == [] then now else Last(errors), now);
      recent := recent + [now];
      errors := errors + [now];
      while recent != [] && now - recent[0] > PROTOCOL_ERROR_WINDOW
        invariant errors == old(errors) + [now] && CountsAlike(recent, errors, now)
        decreases |recent|
      {
        OldestOutCountsAlike(recent, errors, now);
        recent := recent[1..];
      }
      CountSinceAll(recent, now - PROTOCOL_ERROR_WINDOW);
      reset := |recent| > PROTOCOL_ERROR_RESET_THRESHOLD;
    }
  }
}
