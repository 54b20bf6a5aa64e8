/** What status snapshots show, field by field, by the requests that a core session read before them. */
module CoreRequests {
  import opened Options
  import opened CoreStatus
  import opened CoreSession
  import opened CoreSwitches
  import opened CoreTiming
  import opened CoreHandshake

  // ----- Requests -----

  predicate AsksMode(r: Read) { r.Message? && r.body.SetMode? && (r.body.mode == "studio" || r.body.mode == "irl") }

  predicate AsksSetting(r: Read, key: string) {
    && r.Message? && r.body.SetSetting? && r.body.key == key
    && key in {"auto_scene_switch", "low_quality_fallback", "manual_override", "chat_bot", "alerts"}
  }

  /** Turn `i` is the last that reads a request for a mode. */
  predicate LastMode(turns: seq<Turn>, i: nat) {
    i < |turns| && AsksMode(turns[i].read) && forall j | i < j < |turns| :: !AsksMode(turns[j].read)
  }

  predicate LastSetting(turns: seq<Turn>, key: string, i: nat) {
    i < |turns| && AsksSetting(turns[i].read, key) && forall j | i < j < |turns| :: !AsksSetting(turns[j].read, key)
  }

  // ----- What a status shows of them -----

  ghost predicate ShowsMode(status: StatusPayload, w: World, turns: seq<Turn>) {
    && (forall i: nat | LastMode(turns, i) :: status.mode == if turns[i].read.body.mode == "studio" then Studio else Irl)
    && ((forall i | 0 <= i < |turns| :: !AsksMode(turns[i].read)) ==>
        (status.mode == Irl <==>
         w.obsConnected && (w.relay == Some("provisioning") || w.relay == Some("active") || w.relay == Some("grace"))))
  }

  ghost predicate ShowsState(status: StatusPayload, w: World) {
    && (status.stateMode == Degraded <==> !w.obsConnected)
    && (status.stateMode == IrlConnecting <==> w == World(true, Some("provisioning")))
    && (status.stateMode == IrlActive <==> w == World(true, Some("active")))
    && (status.stateMode == IrlGrace <==> w == World(true, Some("grace")))
  }

  ghost predicate ShowsSettings(status: StatusPayload, turns: seq<Turn>) {
    && (status.settings.None? <==> forall key, i: nat :: !LastSetting(turns, key, i))
    && (status.settings.Some? ==>
        && (forall key | key in status.settings.value :: exists i: nat :: LastSetting(turns, key, i))
        && (forall key, i: nat | LastSetting(turns, key, i) ::
              key in status.settings.value && status.settings.value[key] == turns[i].read.body.value))
    && (status.overrideEnabled <==> exists i: nat :: LastSetting(turns, "manual_override", i) && turns[i].read.body.value)
  }

  /** The mode is the last one asked for, or follows the relay session if none was; the settings are the last values asked
      for. */
  ghost predicate ShowsRequests(status: StatusPayload, w: World, turns: seq<Turn>) {
    ShowsMode(status, w, turns) && ShowsState(status, w) && ShowsSettings(status, turns)
  }

  // ----- What the session keeps of them -----

  ghost predicate KeepsMode(mode: Option<Mode>, turns: seq<Turn>) {
    && (forall i: nat | LastMode(turns, i) ::
          mode == if turns[i].read.body.mode == "studio" then Some(Studio) else Some(Irl))
    && (mode.None? <==> forall i | 0 <= i < |turns| :: !AsksMode(turns[i].read))
  }

  ghost predicate KeepsSettings(settings: map<string, bool>, turns: seq<Turn>) {
    && (forall key | key in settings :: exists i: nat :: LastSetting(turns, key, i))
    && (forall key, i: nat | LastSetting(turns, key, i) :: key in settings && settings[key] == turns[i].read.body.value)
  }

  lemma OneMoreMode(turns: seq<Turn>, t: Turn, i: nat)
    ensures LastMode(turns + [t], i) <==> if AsksMode(t.read) then i == |turns| else LastMode(turns, i)
  {
    assert (turns + [t])[|turns|] == t && forall j | 0 <= j < |turns| :: (turns + [t])[j] == turns[j];
  }

  lemma OneMoreSetting(turns: seq<Turn>, t: Turn, key: string, i: nat)
    ensures LastSetting(turns + [t], key, i) <==> if AsksSetting(t.read, key) then i == |turns| else LastSetting(turns, key, i)
  {
    assert (turns + [t])[|turns|] == t && forall j | 0 <= j < |turns| :: (turns + [t])[j] == turns[j];
  }

  lemma ModeStays(mode: Option<Mode>, turns: seq<Turn>, t: Turn)
    requires KeepsMode(mode, turns)
    ensures KeepsMode(
      if !AsksMode(t.read) then mode else if t.read.body.mode == "studio" then Some(Studio) else Some(Irl), turns + [t])
  {
    var all := turns + [t];
    assert all[|turns|] == t && forall j | 0 <= j < |turns| :: all[j] == turns[j];
    forall i: nat ensures LastMode(all, i) <==> if AsksMode(t.read) then i == |turns| else LastMode(turns, i) {
      OneMoreMode(turns, t, i);
    }
  }

  lemma SettingsStay(settings: map<string, bool>, turns: seq<Turn>, t: Turn)
    requires KeepsSettings(settings, turns)
    ensures KeepsSettings(
      if t.read.Message? && t.read.body.SetSetting? && AsksSetting(t.read, t.read.body.key)
      then settings[t.read.body.key := t.read.body.value] else settings, turns + [t])
  {
    var all := turns + [t];
    var asks := t.read.Message? && t.read.body.SetSetting? && AsksSetting(t.read, t.read.body.key);
    var settings' := if asks then settings[t.read.body.key := t.read.body.value] else settings;
    assert all[|turns|] == t && forall j | 0 <= j < |turns| :: all[j] == turns[j];
    forall key, i: nat
      ensures LastSetting(all, key, i) <==> if AsksSetting(t.read, key) then i == |turns| else LastSetting(turns, key, i)
    {
      OneMoreSetting(turns, t, key, i);
    }
    forall key | key in settings' ensures exists i: nat :: LastSetting(all, key, i) {
      if AsksSetting(t.read, key) {
        assert LastSetting(all, key, |turns|);
      } else {
        var i: nat :| LastSetting(turns, key, i);
        assert LastSetting(all, key, i);
      }
    }
  }

  lemma {:induction false} AcceptedAreKept(turns: seq<Turn>)
    ensures KeepsMode(Accepted(turns).mode, turns) && KeepsSettings(Accepted(turns).settings, turns)
  {
    if turns != [] {
      var front, t := turns[..|turns| - 1], turns[|turns| - 1];
      FrontAndLast(turns);
      AcceptedAreKept(front);
      ModeStays(Accepted(front).mode, front, t);
      SettingsStay(Accepted(front).settings, front, t);
    }
  }

  lemma ModeIsShown(o: Overrides, w: World, turns: seq<Turn>)
    requires KeepsMode(o.mode, turns)
    ensures ShowsMode(Snapshot(w, o), w, turns)
  {
  }

  lemma SettingsAreShown(o: Overrides, w: World, turns: seq<Turn>)
    requires KeepsSettings(o.settings, turns)
    ensures ShowsSettings(Snapshot(w, o), turns)
  {
    SomeSetting(o.settings, turns);
    var key := "manual_override";
    if key in o.settings {
      var i: nat :| LastSetting(turns, key, i);
    }
  }

  lemma SomeSetting(settings: map<string, bool>, turns: seq<Turn>)
    requires KeepsSettings(settings, turns)
    ensures settings == map[] <==> forall key, i: nat :: !LastSetting(turns, key, i)
  {
    if settings != map[] {
      var key :| key in settings;
      var i: nat :| LastSetting(turns, key, i);
    }
  }

  lemma StateIsShown(o: Overrides, w: World)
    ensures ShowsState(Snapshot(w, o), w)
  {
  }

  lemma SnapshotShowsRequests(w: World, turns: seq<Turn>)
    ensures ShowsRequests(Snapshot(w, Accepted(turns)), w, turns)
  {
    AcceptedAreKept(turns);
    ModeIsShown(Accepted(turns), w, turns);
    StateIsShown(Accepted(turns), w);
    SettingsAreShown(Accepted(turns), w, turns);
  }

  // ----- Every snapshot of every run -----

  /** A periodic snapshot that is due shows the requests read so far. */
  lemma PushShowsRequests(now: int, turns: seq<Turn>, t: Turn)
    requires Ran(now, turns).exit == Open && Greeted(turns) && t.pushWritten
    requires var sent := SendAll(Ran(now, turns), t.commands); sent.exit == Open && t.pushAt - sent.lastPush >= 1000
    ensures var s := Push(Expire(SendAll(Ran(now, turns), t.commands), t.expireAt), t);
      && s.log != [] && s.log[|s.log| - 1].StatusSent? && s.log[|s.log| - 1].at == t.pushedAt
      && ShowsRequests(s.log[|s.log| - 1].status, t.pushWorld, turns)
  {
    var s := Ran(now, turns);
    var sent := SendAll(s, t.commands);
    ReadsDecide(now, turns);
    SendKeepsErrors(s, t.commands);
    assert sent.handshake && sent.overrides == Accepted(turns);
    assert Push(Expire(sent, t.expireAt), t) == Report(Expire(sent, t.expireAt), t.pushWorld, true, t.pushedAt);
    SnapshotShowsRequests(t.pushWorld, turns);
  }

  /** What a request asks for is what the last one of its kind asked for. */
  ghost predicate Repeats(turns: seq<Turn>, r: Read) {
    || (exists i: nat :: AsksMode(r) && LastMode(turns, i) && turns[i].read.body.mode == r.body.mode)
    || (exists i: nat ::
          && r.Message? && r.body.SetSetting? && LastSetting(turns, r.body.key, i)
          && turns[i].read.body.value == r.body.value)
  }

  predicate AsksOne(r: Read) { AsksMode(r) || (r.Message? && r.body.SetSetting? && AsksSetting(r, r.body.key)) }

  lemma {:induction false} HasLastMode(turns: seq<Turn>) returns (i: nat)
    requires exists j :: 0 <= j < |turns| && AsksMode(turns[j].read)
    ensures LastMode(turns, i)
  {
    var front, t := turns[..|turns| - 1], turns[|turns| - 1];
    if AsksMode(t.read) {
      i := |turns| - 1;
    } else {
      var j :| 0 <= j < |turns| && AsksMode(turns[j].read);
      assert front[j] == turns[j];
      i := HasLastMode(front);
    }
  }

  lemma ModeRepeats(turns: seq<Turn>, r: Read)
    requires AsksMode(r)
    ensures Repeats(turns, r) <==> Accepted(turns).mode == ParseMode(r.body.mode)
  {
    AcceptedAreKept(turns);
    if Accepted(turns).mode.Some? { var i := HasLastMode(turns); }
  }

  lemma SettingRepeats(turns: seq<Turn>, r: Read)
    requires r.Message? && r.body.SetSetting? && AsksSetting(r, r.body.key)
    ensures var settings := Accepted(turns).settings;
      Repeats(turns, r) <==> r.body.key in settings && settings[r.body.key] == r.body.value
  {
    AcceptedAreKept(turns);
    if r.body.key in Accepted(turns).settings {
      var i: nat :| LastSetting(turns, r.body.key, i);
    }
  }

  predicate AsksStatus(r: Read) { r.Message? && r.body.RequestStatus? }

  /** What the session has is what is asked for. */
  predicate HasIt(o: Overrides, r: Read) {
    || (AsksMode(r) && o.mode == ParseMode(r.body.mode))
    || (AsksOne(r) && r.body.SetSetting? && r.body.key in o.settings && o.settings[r.body.key] == r.body.value)
  }

  lemma AnsweredIfNew(s: Session, t: Turn)
    requires s.exit == Open && AsksOne(t.read)
    ensures HasIt(s.overrides, t.read) ==> Poll(s, t) == s
    ensures !HasIt(s.overrides, t.read) && t.read.written ==>
      Poll(s, t) == Report(s.(overrides := Asked(s.overrides, t.read)), t.readWorld, true, t.readAt)
  {
    if AsksMode(t.read) {
      ServedMode(s, t.read.body.mode, t.readAt, t.readWorld);
    } else {
      ServedSetting(s, t.read.body.key, t.read.body.value, t.readAt, t.readWorld);
    }
  }

  lemma RepeatsIfKept(turns: seq<Turn>, r: Read)
    requires AsksOne(r) || AsksStatus(r)
    ensures Repeats(turns, r) <==> HasIt(Accepted(turns), r)
  {
    if AsksMode(r) {
      ModeRepeats(turns, r);
    } else if AsksOne(r) {
      SettingRepeats(turns, r);
    }
  }

  ghost predicate AnsweredWith(s: Session, s': Session, at: int, w: World, turns: seq<Turn>) {
    && s'.exit == Open
    && exists status :: s'.log == s.log + [StatusSent(status, at)] && ShowsRequests(status, w, turns)
  }

  lemma ReportAnswers(s: Session, o: Overrides, at: int, w: World, turns: seq<Turn>)
    requires s.exit == Open && o == Accepted(turns)
    ensures AnsweredWith(s, Report(s.(overrides := o), w, true, at), at, w, turns)
  {
    SnapshotShowsRequests(w, turns);
    assert Report(s.(overrides := o), w, true, at).log == s.log + [StatusSent(Snapshot(w, o), at)];
  }

  lemma ReadReports(s: Session, t: Turn)
    requires s.exit == Open && (AsksOne(t.read) || AsksStatus(t.read)) && !HasIt(s.overrides, t.read) && t.read.written
    ensures Poll(s, t) == Report(s.(overrides := Asked(s.overrides, t.read)), t.readWorld, true, t.readAt)
  {
    if AsksOne(t.read) { AnsweredIfNew(s, t); }
  }

  lemma ReadIsAnswered(s: Session, turns: seq<Turn>, t: Turn)
    requires s.exit == Open && s.overrides == Accepted(turns) && (AsksOne(t.read) || AsksStatus(t.read))
    ensures Repeats(turns, t.read) ==> Poll(s, t) == s
    ensures !Repeats(turns, t.read) && t.read.written ==>
      AnsweredWith(s, Poll(s, t), t.readAt, t.readWorld, turns + [t])
  {
    var all, o := turns + [t], Asked(s.overrides, t.read);
    RepeatsIfKept(turns, t.read);
    if Repeats(turns, t.read) {
      AnsweredIfNew(s, t);
    } else if t.read.written {
      ReadReports(s, t);
      assert Accepted(all) == o by { assert all[..|turns|] == turns; }
      ReportAnswers(s, o, t.readAt, t.readWorld, all);
    }
  }

  /** A valid request that repeats the last one of its kind changes nothing at all. Any other one, and a request for the
      status, is answered with a snapshot that shows it. */
  lemma RequestIsAnswered(now: int, turns: seq<Turn>, t: Turn)
    requires BeforePoll(Ran(now, turns), t).exit == Open && (AsksOne(t.read) || AsksStatus(t.read))
    ensures Repeats(turns, t.read) ==> Step(Ran(now, turns), t) == BeforePoll(Ran(now, turns), t)
    ensures !Repeats(turns, t.read) && t.read.written ==>
      AnsweredWith(BeforePoll(Ran(now, turns), t), Step(Ran(now, turns), t), t.readAt, t.readWorld, turns + [t])
  {
    var s := BeforePoll(Ran(now, turns), t);
    assert s.overrides == Accepted(turns) by {
      BeforePollKeeps(Ran(now, turns), t);
      ReadsDecide(now, turns);
    }
    ReadIsAnswered(s, turns, t);
  }

  lemma {:induction false} SendAllAddsNone(s: Session, commands: seq<Command>)
    ensures s.log <= SendAll(s, commands).log
    ensures forall k | |s.log| <= k < |SendAll(s, commands).log| :: SendAll(s, commands).log[k].SwitchSent?
  {
    if commands != [] {
      SendAllAddsNone(s, commands[..|commands| - 1]);
    }
  }

  /** A snapshot of `turns`' requests, taken at a push of the next turn or at the read of the last one. */
  ghost predicate IsTaken(e: Event, turns: seq<Turn>, n: nat) {
    && n <= |turns| && e.StatusSent?
    && ((n < |turns| && e.at == turns[n].pushedAt && ShowsRequests(e.status, turns[n].pushWorld, turns[..n])) ||
        (n > 0 && e.at == turns[n - 1].readAt && ShowsRequests(e.status, turns[n - 1].readWorld, turns[..n])))
  }

  /** At most one snapshot joins the log, and it is one of the overrides then. */
  ghost predicate AddsStatus(s: Session, s': Session, w: World, at: int) {
    && s.log <= s'.log && |s'.log| <= |s.log| + 1
    && (|s'.log| > |s.log| && s'.log[|s.log|].StatusSent? ==>
        s'.exit == Open && s'.log[|s.log|] == StatusSent(Snapshot(w, s'.overrides), at))
  }

  lemma SetModeAdds(s: Session, t: Turn)
    requires s.exit == Open && t.read.Message? && t.read.body.SetMode?
    ensures AddsStatus(s, Poll(s, t), t.readWorld, t.readAt)
  {
  }

  lemma SetSettingAdds(s: Session, t: Turn)
    requires s.exit == Open && t.read.Message? && t.read.body.SetSetting?
    ensures AddsStatus(s, Poll(s, t), t.readWorld, t.readAt)
  {
  }

  /** Reporting an error adds the report at most. */
  lemma ErrorAdds(s: Session, written: bool, at: int, w: World)
    ensures AddsStatus(s, Record(Complain(s, written, at), at), w, at)
  {
  }

  lemma OtherMessageAdds(s: Session, body: Body, written: bool, at: int, w: World)
    requires s.exit == Open && !body.SetMode? && !body.SetSetting?
    ensures AddsStatus(s, Handle(s, body, written, at, w), w, at)
  {
    if body.Undecodable? || body.UnknownType? { ErrorAdds(s, true, at, w); }
  }

  lemma OtherAdds(s: Session, t: Turn)
    requires s.exit == Open && (t.read.Message? ==> !t.read.body.SetMode? && !t.read.body.SetSetting?)
    ensures AddsStatus(s, Poll(s, t), t.readWorld, t.readAt)
  {
    if t.read.Message? {
      OtherMessageAdds(s, t.read.body, t.read.written, t.readAt, t.readWorld);
    } else if t.read.Malformed? {
      ErrorAdds(s, t.read.written, t.readAt, t.readWorld);
    }
  }

  lemma ReadAddsStatus(s: Session, t: Turn)
    ensures AddsStatus(s, Poll(s, t), t.readWorld, t.readAt)
  {
    if s.exit == Open {
      if t.read.Message? && t.read.body.SetMode? {
        SetModeAdds(s, t);
      } else if t.read.Message? && t.read.body.SetSetting? {
        SetSettingAdds(s, t);
      } else {
        OtherAdds(s, t);
      }
    }
  }

  lemma ExpireAddsNone(s: Session, now: int)
    ensures s.log <= Expire(s, now).log && Expire(s, now).overrides == s.overrides
    ensures forall k | |s.log| <= k < |Expire(s, now).log| :: Expire(s, now).log[k].TimedOut?
  {
  }

  lemma PushAdds(s: Session, t: Turn)
    ensures s.log <= Push(s, t).log
    ensures forall k | |s.log| <= k < |Push(s, t).log| ::
      Push(s, t).log[k] == StatusSent(Snapshot(t.pushWorld, s.overrides), t.pushedAt)
  {
  }

  /** The part of a turn before its read. */
  lemma PrepareAdds(s: Session, t: Turn)
    ensures s.log <= BeforePoll(s, t).log
    ensures forall k | |s.log| <= k < |BeforePoll(s, t).log| && BeforePoll(s, t).log[k].StatusSent? ::
      BeforePoll(s, t).log[k] == StatusSent(Snapshot(t.pushWorld, s.overrides), t.pushedAt)
  {
    var sent := SendAll(s, t.commands);
    SendAllAddsNone(s, t.commands);
    SendKeepsErrors(s, t.commands);
    ExpireAddsNone(sent, t.expireAt);
    PushAdds(Expire(sent, t.expireAt), t);
    assert BeforePoll(s, t).log == Push(Expire(sent, t.expireAt), t).log;
  }

  lemma TwoParts(s: Session, mid: Session, s': Session, e: Event, w: World, at: int, k: nat)
    requires s.log <= mid.log && forall i | |s.log| <= i < |mid.log| && mid.log[i].StatusSent? :: mid.log[i] == e
    requires AddsStatus(mid, s', w, at) && |s.log| <= k < |s'.log| && s'.log[k].StatusSent?
    ensures s'.log[k] == e || (s'.exit == Open && s'.log[k] == StatusSent(Snapshot(w, s'.overrides), at))
  {
    if k < |mid.log| { assert s'.log[k] == mid.log[k]; }
  }

  lemma StepAddsStatus(s: Session, t: Turn, k: nat)
    requires |s.log| <= k < |Step(s, t).log| && Step(s, t).log[k].StatusSent?
    ensures Step(s, t).log[k] == StatusSent(Snapshot(t.pushWorld, s.overrides), t.pushedAt)
      || (Step(s, t).exit == Open
          && Step(s, t).log[k] == StatusSent(Snapshot(t.readWorld, Step(s, t).overrides), t.readAt))
  {
    var mid, e := BeforePoll(s, t), StatusSent(Snapshot(t.pushWorld, s.overrides), t.pushedAt);
    var s' := Step(s, t);
    PrepareAdds(s, t);
    assert AddsStatus(mid, s', t.readWorld, t.readAt) by { ReadAddsStatus(mid, t); }
    TwoParts(s, mid, s', e, t.readWorld, t.readAt, k);
  }

  /** Every snapshot in the log of every run, open or ended, shows the requests read before it. */
  lemma {:induction false} EveryStatusShowsRequests(now: int, turns: seq<Turn>, k: nat) returns (n: nat)
    requires k < |Ran(now, turns).log| && Ran(now, turns).log[k].StatusSent?
    ensures IsTaken(Ran(now, turns).log[k], turns, n)
  {
    var front, t := turns[..|turns| - 1], turns[|turns| - 1];
    var s := Ran(now, front);
    assert Ran(now, turns) == Step(s, t);
    StepGrowsLog(s, t);
    if k < |s.log| {
      n := EveryStatusShowsRequests(now, front, k);
      assert turns[..n] == front[..n];
    } else {
      NewStatus(now, turns, k);
      n := if Ran(now, turns).log[k].at == t.pushedAt
        && ShowsRequests(Ran(now, turns).log[k].status, t.pushWorld, front) then |front| else |turns|;
      assert turns[..|turns|] == turns;
    }
  }

  lemma NewStatus(now: int, turns: seq<Turn>, k: nat)
    requires turns != [] && |Ran(now, turns[..|turns| - 1]).log| <= k < |Ran(now, turns).log|
    requires Ran(now, turns).log[k].StatusSent?
    ensures var e, t := Ran(now, turns).log[k], turns[|turns| - 1];
      || (e.at == t.pushedAt && ShowsRequests(e.status, t.pushWorld, turns[..|turns| - 1]))
      || (e.at == t.readAt && ShowsRequests(e.status, t.readWorld, turns))
  {
    var front, t := turns[..|turns| - 1], turns[|turns| - 1];
    var s := Ran(now, front);
    assert Ran(now, turns) == Step(s, t);
    if s.exit != Open { StepClosed(s, t); }
    ReadsDecide(now, front);
    StepAddsStatus(s, t, k);
    SnapshotShowsRequests(t.pushWorld, front);
    if Step(s, t).exit == Open {
      ReadsDecide(now, turns);
      SnapshotShowsRequests(t.readWorld, turns);
    }
  }

  // ----- What else a read leaves in the log -----

  /** A read that the core complains of: a bad frame or message, an unknown type, mode or setting. */
  predicate IsRefused(r: Read) {
    || r.Malformed?
    || (r.Message? && (r.body.Undecodable? || r.body.UnknownType?))
    || (r.Message? && r.body.SetMode? && r.body.mode != "studio" && r.body.mode != "irl")
    || (r.Message? && r.body.SetSetting? && !AsksSetting(r, r.body.key))
  }

  /** Such a read is complained of and changes nothing but the count of errors; a hello of version 1 is acknowledged and
      counts as a ping; a switch result ends its own request, with its own outcome, and no other. */
  lemma ReadIsNoted(s: Session, t: Turn)
    requires s.exit == Open
    ensures IsRefused(t.read) && t.read.written ==>
      Poll(s, t) == s.(log := s.log + [Complained(t.readAt)], errors := Poll(s, t).errors, exit := Poll(s, t).exit)
    ensures t.read == Message(Hello(1), true) ==>
      Poll(s, t) == s.(handshake := true, lastPing := t.readAt, lastPush := t.readAt - 1000,
                       log := s.log + [Acknowledged(t.readAt)])
    ensures t.read.Message? && t.read.body.SwitchResult? && t.read.body.id in s.pending ==>
      && Poll(s, t).log == s.log + [Answered(t.read.body.id, t.read.body.ok)]
      && Poll(s, t).pending == s.pending - {t.read.body.id} && Poll(s, t).exit == Open
  {
    if t.read.Message? && t.read.body.SetMode? && IsRefused(t.read) { assert ParseMode(t.read.body.mode).None?; }
  }
}
