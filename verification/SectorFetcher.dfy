/** The double-checked sector cache (internal/service/classify/sector_fetcher.go) as a state
    machine: any number of callers, one read-write lock, and a clock that never goes back.
    Each action is one step of one caller or of the clock; an action that is not enabled
    changes nothing, so a run is any sequence of actions. */
module SectorFetcher {
  import opened Wrappers

  // Seconds.
  const SECTOR_CACHE_TTL := 600

  type Caller = nat
  // Stands for one fetched map.
  type Changes = int

  datatype PC =
    | Idle
    | ReadLocked
    | ReadHit(checkedAt: int)
    | ReadMiss
    | Fetching
    | Fetched(result: Changes)
    | WriteLocked(result: Changes)
    | WriteHit(checkedAt: int)
    | Stale(result: Changes, checkedAt: int)
    | MapStored(result: Changes, checkedAt: int)
    | TimeStored(result: Changes)
  {
    predicate Reading() { ReadLocked? || ReadHit? || ReadMiss? }
    predicate Writing() { WriteLocked? || WriteHit? || Stale? || MapStored? || TimeStored? }
  }

  /** A map stored together with its time. */
  datatype Install = Install(at: int, changes: Changes)
  /** A cached map handed to a caller, the time of the check, and when it was installed. */
  datatype Hit = Hit(checkedAt: int, changes: Changes, installedAt: int)

  datatype State = State(
    cached: Option<Changes>,
    cacheTime: int,
    now: int,
    readers: set<Caller>,
    writer: Option<Caller>,
    pcs: map<Caller, PC>,
    installs: seq<Install>,
    hits: seq<Hit>)
  {
    function PcOf(c: Caller): PC {
      if c in pcs then pcs[c] else Idle
    }

    function Goto(c: Caller, pc: PC): State {
      this.(pcs := pcs[c := pc])
    }

    /** The condition both checks evaluate. */
    predicate FreshNow() {
      now - cacheTime < SECTOR_CACHE_TTL && cached.Some?
    }
  }

  /** Nothing cached; the zero time lies before any clock reading. */
  function Start(zero: int, now: int): State {
    State(None, zero, now, {}, None, map[], [], [])
  }

  datatype Action =
    | Pass(seconds: nat)
    | RLock(caller: Caller)
    | FirstCheck(caller: Caller)
    | ReturnFast(caller: Caller)
    | RUnlockMiss(caller: Caller)
    | FetchDone(caller: Caller, result: Changes)
    | FetchFailed(caller: Caller)
    | Lock(caller: Caller)
    | SecondCheck(caller: Caller)
    | ReturnCached(caller: Caller)
    | StoreMap(caller: Caller)
    | StoreTime(caller: Caller)
    | Unlock(caller: Caller)

  function Step(s: State, action: Action): State {
    match action
    case Pass(seconds) => s.(now := s.now + seconds)
    case RLock(c) =>
      if s.PcOf(c).Idle? && s.writer.None? then s.Goto(c, ReadLocked).(readers := s.readers + {c}) else s
    case FirstCheck(c) =>
      if s.PcOf(c).ReadLocked? then s.Goto(c, if s.FreshNow() then ReadHit(s.now) else ReadMiss) else s
    case ReturnFast(c) =>
      if s.PcOf(c).ReadHit? && s.cached.Some? then
        s.Goto(c, Idle).(readers := s.readers - {c},
                         hits := s.hits + [Hit(s.PcOf(c).checkedAt, s.cached.value, s.cacheTime)])
      else s
    case RUnlockMiss(c) =>
      if s.PcOf(c).ReadMiss? then s.Goto(c, Fetching).(readers := s.readers - {c}) else s
    case FetchDone(c, result) =>
      if s.PcOf(c).Fetching? then s.Goto(c, Fetched(result)) else s
    case FetchFailed(c) =>
      if s.PcOf(c).Fetching? then s.Goto(c, Idle) else s
    case Lock(c) =>
      if s.PcOf(c).Fetched? && s.writer.None? && s.readers == {} then
        s.Goto(c, WriteLocked(s.PcOf(c).result)).(writer := Some(c))
      else s
    case SecondCheck(c) =>
      if s.PcOf(c).WriteLocked? then
        s.Goto(c, if s.FreshNow() then WriteHit(s.now) else Stale(s.PcOf(c).result, s.now))
      else s
    case ReturnCached(c) =>
      if s.PcOf(c).WriteHit? && s.cached.Some? then
        s.Goto(c, Idle).(writer := None, hits := s.hits + [Hit(s.PcOf(c).checkedAt, s.cached.value, s.cacheTime)])
      else s
    case StoreMap(c) =>
      if s.PcOf(c).Stale? then
        s.Goto(c, MapStored(s.PcOf(c).result, s.PcOf(c).checkedAt)).(cached := Some(s.PcOf(c).result))
      else s
    case StoreTime(c) =>
      if s.PcOf(c).MapStored? then
        s.Goto(c, TimeStored(s.PcOf(c).result)).(cacheTime := s.now,
                                                 installs := s.installs + [Install(s.now, s.PcOf(c).result)])
      else s
    case Unlock(c) =>
      if s.PcOf(c).TimeStored? then s.Goto(c, Idle).(writer := None) else s
  }

  function Run(start: State, actions: seq<Action>): State {
    if actions == [] then start else Step(Run(start, actions[..|actions| - 1]), actions[|actions| - 1])
  }

  // ----- invariants

  /** The lock's books agree with where the callers are, and writing excludes reading. */
  ghost predicate Locked(s: State) {
    && (forall c: Caller :: c in s.readers <==> s.PcOf(c).Reading())
    && (forall c: Caller :: s.writer == Some(c) <==> s.PcOf(c).Writing())
    && (s.writer.Some? ==> s.readers == {})
  }

  /** A writer that has stored the map but not yet its time. */
  ghost predicate HalfWritten(s: State) {
    s.writer.Some? && s.PcOf(s.writer.value).MapStored?
  }

  /** Outside the half-written state, what is cached is what was installed last. */
  ghost predicate Stored(s: State) {
    && (!HalfWritten(s) ==> (s.cached.None? <==> s.installs == []))
    && (!HalfWritten(s) && s.installs != [] ==> s.installs[|s.installs| - 1] == Install(s.cacheTime, s.cached.value))
    && (s.installs != [] ==> s.installs[|s.installs| - 1].at == s.cacheTime)
    && s.cacheTime <= s.now
  }

  /** What a caller between its check and its next step may rely on. */
  ghost predicate CheckHolds(s: State, pc: PC) {
    && (pc.MapStored? ==> s.cached == Some(pc.result))
    && (pc.ReadHit? || pc.WriteHit? ==> s.cached.Some? && s.cacheTime <= pc.checkedAt < s.cacheTime + SECTOR_CACHE_TTL)
    && (pc.Stale? || pc.MapStored? ==>
          pc.checkedAt <= s.now && (s.installs != [] ==> pc.checkedAt - s.cacheTime >= SECTOR_CACHE_TTL))
  }

  ghost predicate Spaced(installs: seq<Install>) {
    forall i :: 0 < i < |installs| ==> installs[i].at - installs[i - 1].at >= SECTOR_CACHE_TTL
  }

  ghost predicate HitsFresh(s: State) {
    forall h :: h in s.hits ==>
      && 0 <= h.checkedAt - h.installedAt < SECTOR_CACHE_TTL
      && Install(h.installedAt, h.changes) in s.installs
  }

  ghost predicate Inv(s: State) {
    && Locked(s) && Stored(s) && Spaced(s.installs) && HitsFresh(s)
    && forall c: Caller :: CheckHolds(s, s.PcOf(c))
  }

  lemma StepKeepsLocked(s: State, action: Action)
    requires Locked(s)
    ensures Locked(Step(s, action))
  {
    var s' := Step(s, action);
    if action.Pass? {
      assert forall c: Caller :: s'.PcOf(c) == s.PcOf(c);
    } else {
      assert forall c: Caller :: c != action.caller ==> s'.PcOf(c) == s.PcOf(c);
    }
  }

  lemma StepKeepsStored(s: State, action: Action)
    requires Inv(s)
    ensures Stored(Step(s, action)) && Spaced(Step(s, action).installs)
  {
    if !action.Pass? {
      var c, s' := action.caller, Step(s, action);
      assert CheckHolds(s, s.PcOf(c));
      assert s.writer == Some(c) <==> s.PcOf(c).Writing();
      if s.writer.Some? && s.writer.value != c {
        assert s'.PcOf(s.writer.value) == s.PcOf(s.writer.value);
        assert s.PcOf(s.writer.value).Writing() && s'.writer == s.writer;
      }
    }
  }

  lemma StepKeepsHits(s: State, action: Action)
    requires Inv(s)
    ensures HitsFresh(Step(s, action))
  {
    if !action.Pass? {
      assert CheckHolds(s, s.PcOf(action.caller));
    }
  }

  lemma StepKeepsChecks(s: State, action: Action, c: Caller)
    requires Inv(s)
    ensures CheckHolds(Step(s, action), Step(s, action).PcOf(c))
  {
    assert CheckHolds(s, s.PcOf(c));
    if !action.Pass? && action.caller != c {
      assert CheckHolds(s, s.PcOf(action.caller));
      assert Step(s, action).PcOf(c) == s.PcOf(c);
    }
  }

  lemma {:induction false} RunKeepsInv(zero: int, now: int, actions: seq<Action>)
    requires zero <= now
    ensures Inv(Run(Start(zero, now), actions))
  {
    if actions != [] {
      var s, action := Run(Start(zero, now), actions[..|actions| - 1]), actions[|actions| - 1];
      RunKeepsInv(zero, now, actions[..|actions| - 1]);
      StepKeepsLocked(s, action);
      StepKeepsStored(s, action);
      StepKeepsHits(s, action);
      forall c: Caller ensures CheckHolds(Step(s, action), Step(s, action).PcOf(c)) {
        StepKeepsChecks(s, action, c);
      }
    }
  }

  // ----- the guarantees

  /** Over every interleaving, successive installs are at least the TTL apart. */
  lemma InstallsAreSpaced(zero: int, now: int, actions: seq<Action>)
    requires zero <= now
    ensures var installs := Run(Start(zero, now), actions).installs;
            forall i :: 0 < i < |installs| ==> installs[i].at - installs[i - 1].at >= SECTOR_CACHE_TTL
  {
    RunKeepsInv(zero, now, actions);
  }

  /** Over every interleaving, a cached map given to a caller is one that was installed, less
      than the TTL before the check that let it through. */
  lemma CachedMapsAreFresh(zero: int, now: int, actions: seq<Action>)
    requires zero <= now
    ensures var s := Run(Start(zero, now), actions);
            forall h :: h in s.hits ==>
              && 0 <= h.checkedAt - h.installedAt < SECTOR_CACHE_TTL
              && Install(h.installedAt, h.changes) in s.installs
  {
    RunKeepsInv(zero, now, actions);
  }

  /** While a caller is inside the write section no other caller reads or writes. */
  lemma WriterIsAlone(zero: int, now: int, actions: seq<Action>, writer: Caller, reader: Caller)
    requires zero <= now && writer != reader
    ensures var s := Run(Start(zero, now), actions);
            s.PcOf(writer).Writing() ==> !s.PcOf(reader).Reading() && !s.PcOf(reader).Writing()
  {
    RunKeepsInv(zero, now, actions);
    var s := Run(Start(zero, now), actions);
    assert s.PcOf(writer).Writing() ==> s.writer == Some(writer);
  }

  lemma {:induction false} SpacingAddsUp(installs: seq<Install>)
    requires Spaced(installs) && installs != []
    ensures installs[|installs| - 1].at - installs[0].at >= SECTOR_CACHE_TTL * (|installs| - 1)
  {
    if |installs| > 1 {
      assert forall i :: 0 <= i < |installs| - 1 ==> installs[..|installs| - 1][i] == installs[i];
      SpacingAddsUp(installs[..|installs| - 1]);
    }
  }

  /** However many callers compete, the map is installed at most once per TTL elapsed. */
  lemma InstallsAreBounded(zero: int, now: int, actions: seq<Action>)
    requires zero <= now
    ensures var s := Run(Start(zero, now), actions);
            s.installs != [] ==> SECTOR_CACHE_TTL * (|s.installs| - 1) <= s.now - s.installs[0].at
  {
    RunKeepsInv(zero, now, actions);
    var s := Run(Start(zero, now), actions);
    if s.installs != [] {
      SpacingAddsUp(s.installs);
    }
  }

  // ----- whose map is installed

  /** The last map a caller's own fetch brought back; a FetchDone counts when the caller was fetching. */
  ghost function LastFetched(start: State, actions: seq<Action>, c: Caller): Option<Changes> {
    if actions == [] then None
    else
      var prefix, action := actions[..|actions| - 1], actions[|actions| - 1];
      if action.FetchDone? && action.caller == c && Run(start, prefix).PcOf(c).Fetching? then Some(action.result)
      else LastFetched(start, prefix, c)
  }

  /** The same read from the list of actions alone. */
  function LastFetchDone(actions: seq<Action>, c: Caller): Option<Changes> {
    if actions == [] then None
    else
      var action := actions[|actions| - 1];
      if action.FetchDone? && action.caller == c then Some(action.result)
      else LastFetchDone(actions[..|actions| - 1], c)
  }

  /** Fetches end only where they were begun. */
  ghost predicate FetchesBegun(start: State, actions: seq<Action>) {
    forall i :: 0 <= i < |actions| && actions[i].FetchDone? ==> Run(start, actions[..i]).PcOf(actions[i].caller).Fetching?
  }

  lemma {:induction false} LastFetchedFromTheList(start: State, actions: seq<Action>, c: Caller)
    requires FetchesBegun(start, actions)
    ensures LastFetched(start, actions, c) == LastFetchDone(actions, c)
  {
    if actions != [] {
      var prefix := actions[..|actions| - 1];
      assert forall i :: 0 <= i < |prefix| ==> prefix[i] == actions[i] && prefix[..i] == actions[..i];
      LastFetchedFromTheList(start, prefix, c);
    }
  }

  /** A caller that carries a map carries the one it fetched last. */
  ghost predicate Carries(pc: PC, own: Option<Changes>) {
    && (pc.Fetched? || pc.WriteLocked? || pc.Stale? || pc.MapStored? || pc.TimeStored? ==> own == Some(pc.result))
  }

  lemma {:induction false} CallersCarryTheirOwn(start: State, actions: seq<Action>, c: Caller)
    requires start.PcOf(c).Idle?
    ensures Carries(Run(start, actions).PcOf(c), LastFetched(start, actions, c))
  {
    if actions != [] {
      var prefix, action := actions[..|actions| - 1], actions[|actions| - 1];
      CallersCarryTheirOwn(start, prefix, c);
      if !action.Pass? && action.caller != c {
        assert Run(start, actions).PcOf(c) == Run(start, prefix).PcOf(c);
      }
    }
  }

  /** What an install stores, in every interleaving: the map its caller fetched last, at the
      time of the store; and that map is then the cached one. */
  lemma InstallsOwnFetch(zero: int, now: int, actions: seq<Action>, c: Caller)
    requires zero <= now
    ensures var s, s' := Run(Start(zero, now), actions), Run(Start(zero, now), actions + [StoreTime(c)]);
            var own := LastFetched(Start(zero, now), actions, c);
            s'.installs != s.installs ==>
              own.Some? && s'.installs == s.installs + [Install(s.now, own.value)] && s'.cached == own
  {
    RunKeepsInv(zero, now, actions);
    CallersCarryTheirOwn(Start(zero, now), actions, c);
    var s := Run(Start(zero, now), actions);
    assert CheckHolds(s, s.PcOf(c));
    RunSnoc(Start(zero, now), actions, StoreTime(c));
  }

  /** Some caller stored the map it had fetched last, as the step after the first n actions. */
  ghost predicate StoredAfter(start: State, actions: seq<Action>, install: Install, n: nat) {
    && n < |actions| && actions[n].StoreTime?
    && LastFetched(start, actions[..n], actions[n].caller) == Some(install.changes)
    && Run(start, actions[..n]).now == install.at
  }

  /** Every install of a run was stored so. */
  lemma {:induction false} EveryInstallIsAnOwnFetch(zero: int, now: int, actions: seq<Action>, install: Install)
    requires zero <= now && install in Run(Start(zero, now), actions).installs
    ensures exists n: nat :: StoredAfter(Start(zero, now), actions, install, n)
  {
    var prefix, action := actions[..|actions| - 1], actions[|actions| - 1];
    var s := Run(Start(zero, now), prefix);
    if install in s.installs {
      EveryInstallIsAnOwnFetch(zero, now, prefix, install);
      var n: nat :| StoredAfter(Start(zero, now), prefix, install, n);
      assert prefix[..n] == actions[..n];
      assert StoredAfter(Start(zero, now), actions, install, n);
    } else {
      assert action.StoreTime?;
      assert prefix + [action] == actions;
      InstallsOwnFetch(zero, now, prefix, action.caller);
      assert StoredAfter(Start(zero, now), actions, install, |prefix|);
    }
  }

  /** Between two states a map is handed out only if it is that of the last install, checked
      less than ten minutes after it. */
  ghost predicate HandsOutLast(s: State, s': State) {
    s'.hits != s.hits ==>
      && s.installs != []
      && var last := s.installs[|s.installs| - 1];
         && |s'.hits| == |s.hits| + 1 && s'.hits[..|s.hits|] == s.hits
         && var hit := s'.hits[|s.hits|];
            hit.changes == last.changes && hit.installedAt == last.at && 0 <= hit.checkedAt - last.at < 600
  }

  lemma HitIsLastInstall(s: State, action: Action)
    requires Inv(s)
    ensures HandsOutLast(s, Step(s, action))
  {
    if Step(s, action).hits != s.hits {
      var pc := s.PcOf(action.caller);
      assert CheckHolds(s, pc);
      NoHalfWriteBeside(s, action.caller);
      assert Step(s, action).hits == s.hits + [Hit(pc.checkedAt, s.cached.value, s.cacheTime)];
    }
  }

  lemma RunSnoc(start: State, actions: seq<Action>, action: Action)
    ensures Run(start, actions + [action]) == Step(Run(start, actions), action)
  {
    assert (actions + [action])[..|actions|] == actions;
  }

  /** Every cached map handed out in a run is the one installed last, and that was fetched by
      the caller that installed it. */
  lemma HitsReturnTheLastInstall(zero: int, now: int, actions: seq<Action>, action: Action)
    requires zero <= now
    ensures var s := Run(Start(zero, now), actions);
            && HandsOutLast(s, Run(Start(zero, now), actions + [action]))
            && (s.installs != [] ==>
                  var last := s.installs[|s.installs| - 1]; exists n: nat :: StoredAfter(Start(zero, now), actions, last, n))
  {
    var s := Run(Start(zero, now), actions);
    RunKeepsInv(zero, now, actions);
    HitIsLastInstall(s, action);
    RunSnoc(Start(zero, now), actions, action);
    if s.installs != [] {
      EveryInstallIsAnOwnFetch(zero, now, actions, s.installs[|s.installs| - 1]);
    }
  }

  lemma NoHalfWriteBeside(s: State, c: Caller)
    requires Locked(s) && (s.PcOf(c).Reading() || (s.PcOf(c).Writing() && !s.PcOf(c).MapStored?))
    ensures !HalfWritten(s)
  {
    assert s.writer == Some(c) <==> s.PcOf(c).Writing();
    assert c in s.readers <==> s.PcOf(c).Reading();
  }

  /** Both checks find the cache fresh exactly when the last install is younger than ten minutes. */
  lemma ChecksAskTheLastInstall(zero: int, now: int, actions: seq<Action>, c: Caller)
    requires zero <= now
    ensures var s := Run(Start(zero, now), actions);
            var young := s.installs != [] && s.now - s.installs[|s.installs| - 1].at < 600;
            && (s.PcOf(c).ReadLocked? ==>
                  Step(s, FirstCheck(c)).PcOf(c) == if young then ReadHit(s.now) else ReadMiss)
            && (s.PcOf(c).WriteLocked? ==>
                  Step(s, SecondCheck(c)).PcOf(c) == if young then WriteHit(s.now) else Stale(s.PcOf(c).result, s.now))
  {
    RunKeepsInv(zero, now, actions);
    var s := Run(Start(zero, now), actions);
    if s.PcOf(c).ReadLocked? || s.PcOf(c).WriteLocked? {
      NoHalfWriteBeside(s, c);
    }
  }

  // ----- one caller at a time

  function HitBy(c: Caller): seq<Action> {
    [RLock(c), FirstCheck(c), ReturnFast(c)]
  }

  function MissBy(c: Caller): seq<Action> {
    [RLock(c), FirstCheck(c), RUnlockMiss(c)]
  }

  function InstallBy(c: Caller): seq<Action> {
    [Lock(c), SecondCheck(c), StoreMap(c), StoreTime(c), Unlock(c)]
  }

  lemma RunNext(s: State, actions: seq<Action>, k: nat)
    requires k < |actions|
    ensures Run(s, actions[..k + 1]) == Step(Run(s, actions[..k]), actions[k])
  {
    assert actions[..k + 1][..k] == actions[..k];
  }

  /** While the last install is young a lone call returns its map. */
  lemma LoneHit(s: State, c: Caller)
    requires Inv(s) && s.readers == {} && s.writer.None? && s.PcOf(c).Idle?
    requires s.installs != [] && s.now - s.installs[|s.installs| - 1].at < 600
    ensures var last := s.installs[|s.installs| - 1];
            Run(s, HitBy(c)).hits == s.hits + [Hit(s.now, last.changes, last.at)]
  {
    var a := HitBy(c);
    RunNext(s, a, 0);
    RunNext(s, a, 1);
    RunNext(s, a, 2);
    assert a[..3] == a;
  }

  /** Otherwise it goes off to fetch, leaving the lock free. */
  lemma LoneMiss(s: State, c: Caller)
    requires Inv(s) && s.readers == {} && s.writer.None? && s.PcOf(c).Idle?
    requires s.installs == [] || s.now - s.installs[|s.installs| - 1].at >= 600
    ensures var s' := Run(s, MissBy(c));
            s'.PcOf(c).Fetching? && s'.readers == {} && s'.writer.None? && s'.installs == s.installs
  {
    var a := MissBy(c);
    RunNext(s, a, 0);
    RunNext(s, a, 1);
    RunNext(s, a, 2);
    assert a[..3] == a;
  }

  lemma LoneLock(s: State, c: Caller)
    requires Inv(s) && s.readers == {} && s.writer.None? && s.PcOf(c).Fetched?
    requires s.installs == [] || s.now - s.installs[|s.installs| - 1].at >= 600
    ensures var s' := Step(Step(s, Lock(c)), SecondCheck(c));
            s'.PcOf(c) == Stale(s.PcOf(c).result, s.now) && s'.installs == s.installs && s'.now == s.now
  {
  }

  lemma StaleStores(s: State, c: Caller)
    requires s.PcOf(c).Stale?
    ensures var s' := Step(Step(Step(s, StoreMap(c)), StoreTime(c)), Unlock(c));
            s'.installs == s.installs + [Install(s.now, s.PcOf(c).result)] && s'.writer.None? && s'.PcOf(c).Idle?
  {
  }

  /** A caller alone with a fetched map installs it when the last install is no longer young. */
  lemma LoneInstall(s: State, c: Caller)
    requires Inv(s) && s.readers == {} && s.writer.None? && s.PcOf(c).Fetched?
    requires s.installs == [] || s.now - s.installs[|s.installs| - 1].at >= 600
    ensures var s' := Run(s, InstallBy(c));
            s'.installs == s.installs + [Install(s.now, s.PcOf(c).result)] && s'.writer.None? && s'.PcOf(c).Idle?
  {
    LoneLock(s, c);
    StaleStores(Step(Step(s, Lock(c)), SecondCheck(c)), c);
    FiveSteps(s, InstallBy(c));
  }

  lemma FiveSteps(s: State, a: seq<Action>)
    requires |a| == 5
    ensures Run(s, a) == Step(Step(Step(Step(Step(s, a[0]), a[1]), a[2]), a[3]), a[4])
  {
    RunNext(s, a, 0);
    RunNext(s, a, 1);
    RunNext(s, a, 2);
    RunNext(s, a, 3);
    RunNext(s, a, 4);
    assert a[..5] == a;
  }
}
