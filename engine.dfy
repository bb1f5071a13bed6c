/** The rotation engine of background.js. Its module-level variables are
    the fields of one `Engine` object; every host callback (a timer firing,
    a storage read answering, a tab being created or removed, a fetch
    completing) is one method, and whatever the host answers is a
    parameter of that method. The host's table of armed timers and the
    stored cursor are fields too, so that each step states which timers it
    arms and clears. */
module Background {
  import opened Wrappers
  import opened JsValues
  import opened BackgroundConfig
  import opened Timers

  /** The period of the config check, in milliseconds. */
  const WatchdogPeriodMs: int := 60000

  /** The host's answer to a tab lookup: an error or no tab, or the tab with its `active` flag. */
  datatype Lookup = Gone | Present(active: bool)

  /** A request to the host to create a tab for `url`, in front or not. */
  datatype CreateRequest = CreateRequest(url: string, active: bool)

  datatype ErrorKind = InvalidFormat | Exception

  /** The response sent to the options page. */
  datatype Status = Started | Stopped | Error(kind: ErrorKind)

  /** What the config check obtains: no stored `configUrl`, a fetch or
      parse that threw, or a parsed document. */
  datatype Fetched = NoConfigUrl | FetchFailed | Fetched(doc: Json)

  /** `tabIds`: index to tab id; `None` stands for both `null` and a hole. */
  type Slots = seq<Option<TabId>>

  /** `tabIds[i]`; an index past the end reads `undefined`. */
  function Slot(s: Slots, i: int): Option<TabId> {
    if 0 <= i < |s| then s[i] else None
  }

  /** `if (tabId)`: a slot holding a truthy tab id. */
  predicate IsBound(slot: Option<TabId>) {
    slot.Some? && slot.value != 0
  }

  /** `tabIds[i] = tab`: a JavaScript array grows to hold index `i`,
      leaving holes in between. */
  function Bind(s: Slots, i: nat, tab: TabId): (r: Slots)
    ensures |r| == if i < |s| then |s| else i + 1
    ensures r[i] == Some(tab)
    ensures forall j :: 0 <= j < |r| && j != i ==> r[j] == Slot(s, j)
  {
    if i < |s| then s[i := Some(tab)] else s + seq(i - |s|, _ => None) + [Some(tab)]
  }

  /** `s.indexOf(x)`: the first index holding `x`, or -1. */
  function IndexOf<T(==)>(s: seq<T>, x: T): (k: int)
    ensures -1 <= k < |s|
    ensures k == -1 <==> x !in s
    ensures 0 <= k ==> s[k] == x && forall j :: 0 <= j < k ==> s[j] != x
  {
    if s == [] then -1
    else if s[0] == x then 0
    else
      var k := IndexOf(s[1..], x);
      assert s == [s[0]] + s[1..];
      if k == -1 then -1 else k + 1
  }

  /** The remainder operator of JavaScript, which truncates toward zero:
      the result differs from `a` by a multiple of `n`, is smaller than `n`
      in magnitude and has the sign of `a`. */
  function JsRem(a: int, n: int): (r: int)
    requires n > 0
    ensures (a - r) % n == 0
    ensures a >= 0 ==> 0 <= r < n
    ensures a < 0 ==> -n < r <= 0
  {
    if a >= 0 then
      MultipleMod(a / n, n);
      a % n
    else
      var m := (-a) % n;
      assert a + m == (-((-a) / n)) * n;
      MultipleMod(-((-a) / n), n);
      -m
  }

  /** Division by `n` has one remainder: `q * n + r` with `0 <= r < n` leaves `r`. */
  lemma ModUnique(x: int, n: int, q: int, r: int)
    requires n > 0 && 0 <= r < n && x == q * n + r
    ensures x % n == r
  {
    var q', r' := x / n, x % n;
    assert (q - q') * n == r' - r;
    assert q - q' >= 1 ==> (q - q') * n >= n;
    assert q - q' <= -1 ==> (q - q') * n <= -n;
  }

  /** A multiple of `n` leaves no remainder. */
  lemma MultipleMod(q: int, n: int)
    requires n > 0
    ensures (q * n) % n == 0
  {
    ModUnique(q * n, n, q, 0);
  }

  /** The cursor after `k` rotation ticks over `n` sites, each tick
      computing `(cursor + 1) % n`. */
  function Advanced(cursor: int, n: int, k: nat): int
    requires n > 0
  {
    if k == 0 then cursor else JsRem(Advanced(cursor, n, k - 1) + 1, n)
  }

  /** One tick from an in-range cursor moves to the next index, wrapping at the end. */
  lemma StepWraps(cursor: int, n: int)
    requires 0 <= cursor < n
    ensures Advanced(cursor, n, 1) == if cursor + 1 == n then 0 else cursor + 1
  {
    if cursor + 1 < n {
      assert (cursor + 1) / n == 0;
    } else {
      assert (cursor + 1) / n == 1;
    }
  }

  /** Ticks before the end of the sites count up one index at a time. */
  lemma {:induction false} AdvancedCountsUp(cursor: int, n: int, k: nat)
    requires 0 <= cursor && cursor + k < n
    ensures Advanced(cursor, n, k) == cursor + k
  {
    if k > 0 {
      AdvancedCountsUp(cursor, n, k - 1);
      StepWraps(cursor + k - 1, n);
    }
  }

  /** `a` ticks then `b` ticks are `a + b` ticks. */
  lemma {:induction false} AdvancedAdds(cursor: int, n: int, a: nat, b: nat)
    requires n > 0
    ensures Advanced(Advanced(cursor, n, a), n, b) == Advanced(cursor, n, a + b)
  {
    if b > 0 {
      AdvancedAdds(cursor, n, a, b - 1);
    }
  }

  /** Rotation visits every site: within `n` ticks from an in-range
      cursor, each index is reached, and with one site the cursor stays 0. */
  lemma EveryIndexVisited(cursor: int, n: int, target: int)
    requires 0 <= cursor < n && 0 <= target < n
    ensures exists k: nat :: k < n && Advanced(cursor, n, k) == target
    ensures n == 1 ==> Advanced(cursor, n, 1) == 0
  {
    StepWraps(cursor, n);
    if target >= cursor {
      AdvancedCountsUp(cursor, n, target - cursor);
      assert Advanced(cursor, n, target - cursor) == target;
    } else {
      var toEnd := n - 1 - cursor;
      AdvancedCountsUp(cursor, n, toEnd);
      StepWraps(n - 1, n);
      AdvancedAdds(cursor, n, toEnd, 1);
      AdvancedCountsUp(0, n, target);
      AdvancedAdds(cursor, n, toEnd + 1, target);
      assert Advanced(cursor, n, toEnd + 1 + target) == target;
    }
  }

  /** The cursor startRotation resumes from: the stored index if it is
      truthy, otherwise the in-memory one. It is not checked against the
      number of sites. */
  function Resumed(memory: int, stored: Option<int>): int {
    if stored.Some? && stored.value != 0 then stored.value else memory
  }

  /** The tick branches that create a tab and schedule the next rotation
      only from the creation callback: an empty slot or a tab the host
      reports gone. */
  predicate CreatesFirst(slots: Slots, i: int, lookup: Lookup) {
    !IsBound(Slot(slots, i)) || lookup.Gone?
  }

  /** Which tick branches create a replacement tab: those above, or a
      failed activation. */
  predicate NeedsReplacement(slots: Slots, i: int, lookup: Lookup, activated: bool) {
    CreatesFirst(slots, i, lookup) || !activated
  }

  /** A tick halts rotation when it waits on a tab creation that fails:
      the creation callback throws reading the id of the missing tab and
      never schedules the next rotation. */
  predicate Halts(slots: Slots, i: int, lookup: Lookup, created: Option<TabId>) {
    CreatesFirst(slots, i, lookup) && created.None?
  }

  class Engine {
    var config: Option<Json>
    var currentTabIndex: int
    var rotationTimer: Option<Handle>
    var reloadIntervals: map<TabId, Handle>
    var isRotating: bool
    var tabIds: Slots
    var configCheckTimer: Option<Handle>
    /** `currentTabIndex` in chrome.storage.local; `None` when never written. */
    var storedTabIndex: Option<int>
    /** The timers armed with the host. */
    var live: map<Handle, Timer>
    /** The next handle the host hands out. */
    var nextHandle: Handle

    /** Only accepted documents are loaded, and the handles agree with the host's timers. */
    ghost predicate Consistent()
      reads this`config, this`live, this`rotationTimer, this`reloadIntervals, this`configCheckTimer, this`nextHandle
    {
      && (config.Some? ==> WellFormed(config.value))
      && Registered(live, rotationTimer, reloadIntervals, configCheckTimer, nextHandle)
    }

    /** ... and a pending rotation never starts from a negative cursor. */
    ghost predicate Valid()
      reads this`config, this`live, this`rotationTimer, this`reloadIntervals, this`configCheckTimer, this`nextHandle,
            this`currentTabIndex
    {
      Consistent() && (rotationTimer.Some? ==> currentTabIndex >= 0)
    }

    /** Nothing armed and nothing bound: the state stopRotation leaves. */
    predicate Quiescent()
      reads this`rotationTimer, this`configCheckTimer, this`reloadIntervals, this`tabIds, this`live
    {
      rotationTimer.None? && configCheckTimer.None? && reloadIntervals == map[] && tabIds == [] && live == map[]
    }

    /** The loaded configuration. */
    function Cfg(): Config
      reads this`config
      requires config.Some? && WellFormed(config.value)
    {
      Decode(config.value)
    }

    /** The guard of a rotation tick: a configuration with sites is loaded and rotation is on. */
    predicate RotationEnabled()
      reads this
      requires config.Some? ==> WellFormed(config.value)
    {
      config.Some? && |Cfg().sites| > 0 && isRotating
    }

    /** The state `setupReloadInterval(tab, seconds)` leaves behind. */
    ghost predicate ReloadReplaced(reload0: map<TabId, Handle>, live0: map<Handle, Timer>, next0: Handle,
                                   tab: TabId, seconds: int)
      reads this
    {
      && reloadIntervals == reload0[tab := next0]
      && nextHandle == next0 + 1
      && live == (live0 - (if tab in reload0 then {reload0[tab]} else {}))[next0 := ReloadTimer(tab, seconds * 1000)]
    }

    /** A fresh background process; `stored` is what storage holds. */
    constructor (stored: Option<int>)
      ensures Valid() && Quiescent()
      ensures config.None? && currentTabIndex == 0 && !isRotating && storedTabIndex == stored && nextHandle == 1
    {
      config := None;
      currentTabIndex := 0;
      rotationTimer := None;
      reloadIntervals := map[];
      isRotating := false;
      tabIds := [];
      configCheckTimer := None;
      storedTabIndex := stored;
      live := map[];
      nextHandle := 1;
    }

    /** `setTimeout`/`setInterval`: arm a timer under a fresh handle. */
    method Arm(timer: Timer) returns (h: Handle)
      modifies this`live, this`nextHandle
      ensures h == old(nextHandle) && nextHandle == h + 1
      ensures live == old(live)[h := timer]
    {
      h := nextHandle;
      nextHandle := nextHandle + 1;
      live := live[h := timer];
    }

    /** scheduleNextRotation: cancel the pending rotation timer, then, if
        rotating, arm one for the duration of the site at the cursor.
        Reading the duration of a cursor outside the sites throws a
        TypeError; that is reported as `faulted`. */
    method ScheduleNextRotation() returns (faulted: bool)
      requires Consistent() && config.Some?
      modifies this`rotationTimer, this`live, this`nextHandle
      ensures Valid()
      ensures faulted <==> isRotating && !(0 <= currentTabIndex < |Cfg().sites|)
      ensures rotationTimer.Some? <==> isRotating && 0 <= currentTabIndex < |Cfg().sites|
      ensures rotationTimer.Some? ==>
        && rotationTimer.value == old(nextHandle) && nextHandle == old(nextHandle) + 1
        && live == (old(live) - Handles(old(rotationTimer)))[rotationTimer.value :=
                      RotationTimer(Cfg().sites[currentTabIndex].duration * 1000)]
      ensures rotationTimer.None? ==> live == old(live) - Handles(old(rotationTimer)) && nextHandle == old(nextHandle)
    {
      if rotationTimer.Some? {
        live := live - {rotationTimer.value};
        rotationTimer := None;
      }
      faulted := false;
      if isRotating {
        var sites := Cfg().sites;
        if 0 <= currentTabIndex < |sites| {
          var h := Arm(RotationTimer(sites[currentTabIndex].duration * 1000));
          rotationTimer := Some(h);
        } else {
          faulted := true;
        }
      }
    }

    /** setupReloadInterval: cancel the reload timer of `tab`, if any, and
        arm exactly one new one; other tabs' timers are untouched. */
    method SetupReloadInterval(tab: TabId, seconds: int)
      requires Valid()
      modifies this`reloadIntervals, this`live, this`nextHandle
      ensures Valid()
      ensures ReloadReplaced(old(reloadIntervals), old(live), old(nextHandle), tab, seconds)
      ensures old(tab in reloadIntervals) ==> old(reloadIntervals[tab]) !in live
    {
      if tab in reloadIntervals {
        live := live - {reloadIntervals[tab]};
      }
      var h := Arm(ReloadTimer(tab, seconds * 1000));
      reloadIntervals := reloadIntervals[tab := h];
    }

    /** A reload interval fires: the tab it belongs to is reloaded only if
        the host still has it and it is not the active tab. */
    method ReloadTick(h: Handle, lookup: Lookup) returns (reload: Option<TabId>)
      requires Valid() && h in live && live[h].ReloadTimer?
      ensures reload.Some? <==> lookup.Present? && !lookup.active
      ensures reload.Some? ==> reload.value in reloadIntervals && reloadIntervals[reload.value] == h
    {
      var tab := live[h].tab;
      if lookup.Gone? {
        return None;
      }
      reload := if lookup.active then None else Some(tab);
    }

    /** The tab-creation callback for `index`, given the created tab's id
        or `None` when the host created none. A created tab is bound and,
        unless tabs load lazily, given a reload timer; without a tab the
        callback throws reading its id, and nothing changes. */
    method OnTabCreated(index: nat, created: Option<TabId>)
      requires Valid() && config.Some? && index < |Cfg().sites|
      modifies this`tabIds, this`reloadIntervals, this`live, this`nextHandle
      ensures Valid()
      ensures created.None? ==>
        tabIds == old(tabIds) && reloadIntervals == old(reloadIntervals) && live == old(live) && nextHandle == old(nextHandle)
      ensures created.Some? ==> tabIds == Bind(old(tabIds), index, created.value)
      ensures created.Some? && Cfg().lazyLoadTabs ==>
        reloadIntervals == old(reloadIntervals) && live == old(live) && nextHandle == old(nextHandle)
      ensures created.Some? && !Cfg().lazyLoadTabs ==>
        ReloadReplaced(old(reloadIntervals), old(live), old(nextHandle), created.value, Cfg().sites[index].reloadSeconds)
    {
      if created.None? {
        return;
      }
      var tab := created.value;
      tabIds := Bind(tabIds, index, tab);
      if !Cfg().lazyLoadTabs {
        SetupReloadInterval(tab, Cfg().sites[index].reloadSeconds);
      }
    }

    /** The synchronous part of startRotation: it goes on to read the
        stored cursor only when a configuration with sites is loaded. */
    method StartRotation() returns (proceeds: bool)
      requires Valid()
      ensures proceeds <==> config.Some? && |Websites(config.value)| > 0
    {
      proceeds := config.Some? && |Cfg().sites| > 0;
    }

    /** The storage callback of startRotation: resume the cursor from the
        stored one where that is truthy, reset `tabIds`, ask the host for
        one tab per site (active only at the cursor), schedule the first
        rotation and arm the config check if none is armed. A cursor
        outside the sites makes scheduling throw before the config check
        is armed. */
    method ResumeRotation() returns (requests: seq<CreateRequest>, faulted: bool)
      requires Valid() && config.Some?
      modifies this`currentTabIndex, this`tabIds, this`rotationTimer, this`live, this`nextHandle, this`configCheckTimer
      ensures Valid()
      ensures currentTabIndex == Resumed(old(currentTabIndex), storedTabIndex)
      ensures tabIds == []
      ensures |requests| == |Cfg().sites|
      ensures forall i :: 0 <= i < |requests| ==> requests[i] == CreateRequest(Cfg().sites[i].url, i == currentTabIndex)
      ensures faulted <==> isRotating && !(0 <= currentTabIndex < |Cfg().sites|)
      ensures rotationTimer.Some? <==> isRotating && !faulted
      ensures rotationTimer.Some? ==> live[rotationTimer.value] == RotationTimer(Cfg().sites[currentTabIndex].duration * 1000)
      ensures old(rotationTimer).Some? ==> old(rotationTimer.value) !in live
      ensures faulted || old(configCheckTimer).Some? ==> configCheckTimer == old(configCheckTimer)
      ensures !faulted ==> configCheckTimer.Some? && live[configCheckTimer.value].WatchdogTimer?
      ensures !faulted && old(configCheckTimer).None? ==> live[configCheckTimer.value] == WatchdogTimer(WatchdogPeriodMs)
      ensures forall t :: t in reloadIntervals ==> live[reloadIntervals[t]] == old(live[reloadIntervals[t]])
      ensures forall h :: h in old(live) && h in live ==> live[h] == old(live[h])
    {
      if storedTabIndex.Some? && storedTabIndex.value != 0 {
        currentTabIndex := storedTabIndex.value;
      }
      tabIds := [];
      var sites := Cfg().sites;
      var cursor := currentTabIndex;
      requests := seq(|sites|, i requires 0 <= i < |sites| => CreateRequest(sites[i].url, i == cursor));
      faulted := ScheduleFirstRotation();
    }

    /** The end of startRotation's storage callback: schedule a rotation
        and, unless that throws, arm the config check if none is armed. */
    method ScheduleFirstRotation() returns (faulted: bool)
      requires Consistent() && config.Some?
      modifies this`rotationTimer, this`live, this`nextHandle, this`configCheckTimer
      ensures Valid()
      ensures faulted <==> isRotating && !(0 <= currentTabIndex < |Cfg().sites|)
      ensures rotationTimer.Some? <==> isRotating && !faulted
      ensures rotationTimer.Some? ==> live[rotationTimer.value] == RotationTimer(Cfg().sites[currentTabIndex].duration * 1000)
      ensures old(rotationTimer).Some? ==> old(rotationTimer.value) !in live
      ensures faulted || old(configCheckTimer).Some? ==> configCheckTimer == old(configCheckTimer)
      ensures !faulted ==> configCheckTimer.Some? && live[configCheckTimer.value].WatchdogTimer?
      ensures !faulted && old(configCheckTimer).None? ==> live[configCheckTimer.value] == WatchdogTimer(WatchdogPeriodMs)
      ensures forall t :: t in reloadIntervals ==> live[reloadIntervals[t]] == old(live[reloadIntervals[t]])
      ensures forall h :: h in old(live) && h in live ==> live[h] == old(live[h])
    {
      faulted := ScheduleNextRotation();
      if !faulted {
        ArmConfigCheck();
      }
    }

    /** Arm the config check with its one-minute period, unless one is already armed. */
    method ArmConfigCheck()
      requires Valid()
      modifies this`configCheckTimer, this`live, this`nextHandle
      ensures Valid()
      ensures configCheckTimer.Some? && live[configCheckTimer.value].WatchdogTimer?
      ensures old(configCheckTimer).Some? ==> configCheckTimer == old(configCheckTimer) && live == old(live) && nextHandle == old(nextHandle)
      ensures old(configCheckTimer).None? ==>
        && configCheckTimer == Some(old(nextHandle)) && nextHandle == old(nextHandle) + 1
        && live == old(live)[old(nextHandle) := WatchdogTimer(WatchdogPeriodMs)]
    {
      if configCheckTimer.None? {
        var h := Arm(WatchdogTimer(WatchdogPeriodMs));
        configCheckTimer := Some(h);
      }
    }

    /** rotateTabs, run when the rotation timeout fires. Unless a
        configuration with sites is loaded and rotation is on, nothing
        happens and no rotation is scheduled again. Otherwise the cursor
        advances modulo the number of sites and is stored, and the tab at
        the cursor is activated or replaced as in `ActivateAtCursor`, from
        the host's answers: `lookup` for the tab at the cursor, `activated`
        for its activation and `created` for a replacement tab. */
    method Tick(lookup: Lookup, activated: bool, created: Option<TabId>)
      requires Valid() && rotationTimer.Some?
      modifies this`rotationTimer, this`live, this`nextHandle, this`currentTabIndex, this`storedTabIndex,
               this`tabIds, this`reloadIntervals
      ensures Valid()
      ensures forall h :: h in old(live) && h in live ==> live[h] == old(live[h])
      ensures !old(RotationEnabled()) ==>
        && rotationTimer.None? && live == old(live) - {old(rotationTimer.value)} && nextHandle == old(nextHandle)
        && currentTabIndex == old(currentTabIndex) && storedTabIndex == old(storedTabIndex)
        && tabIds == old(tabIds) && reloadIntervals == old(reloadIntervals)
      ensures old(RotationEnabled()) ==>
        && currentTabIndex == (old(currentTabIndex) + 1) % |Cfg().sites| == Advanced(old(currentTabIndex), |Cfg().sites|, 1)
        && 0 <= currentTabIndex < |Cfg().sites|
        && storedTabIndex == Some(currentTabIndex)
        && old(rotationTimer.value) !in live
      ensures old(RotationEnabled()) && !Halts(old(tabIds), currentTabIndex, lookup, created) ==>
        rotationTimer.Some? && live[rotationTimer.value] == RotationTimer(Cfg().sites[currentTabIndex].duration * 1000)
      ensures old(RotationEnabled()) && Halts(old(tabIds), currentTabIndex, lookup, created) ==>
        && rotationTimer.None? && live == old(live) - {old(rotationTimer.value)} && nextHandle == old(nextHandle)
        && tabIds == old(tabIds) && reloadIntervals == old(reloadIntervals)
      ensures old(RotationEnabled()) && NeedsReplacement(old(tabIds), currentTabIndex, lookup, activated) && created.Some? ==>
        && tabIds == Bind(old(tabIds), currentTabIndex, created.value)
        && (Cfg().lazyLoadTabs ==> reloadIntervals == old(reloadIntervals))
        && (!Cfg().lazyLoadTabs ==>
              && created.value in reloadIntervals
              && reloadIntervals == old(reloadIntervals)[created.value := reloadIntervals[created.value]]
              && live[reloadIntervals[created.value]] ==
                 ReloadTimer(created.value, Cfg().sites[currentTabIndex].reloadSeconds * 1000))
      ensures old(RotationEnabled()) && (!NeedsReplacement(old(tabIds), currentTabIndex, lookup, activated) || created.None?) ==>
        tabIds == old(tabIds) && reloadIntervals == old(reloadIntervals)
    {
      live := live - {rotationTimer.value};
      rotationTimer := None;
      if !(config.Some? && |Cfg().sites| > 0 && isRotating) {
        return;
      }
      currentTabIndex := JsRem(currentTabIndex + 1, |Cfg().sites|);
      storedTabIndex := Some(currentTabIndex);
      ActivateAtCursor(lookup, activated, created);
    }

    /** The part of rotateTabs after the cursor has advanced. When the
        slot is empty or the host reports the tab gone, a tab is created
        and its callback binds it and schedules the next rotation; when
        activating the tab fails, the next rotation is scheduled at once
        and a tab is created; otherwise the next rotation is scheduled. */
    method ActivateAtCursor(lookup: Lookup, activated: bool, created: Option<TabId>)
      requires Valid() && config.Some? && isRotating && rotationTimer.None?
      requires 0 <= currentTabIndex < |Cfg().sites|
      modifies this`rotationTimer, this`live, this`nextHandle, this`tabIds, this`reloadIntervals
      ensures Valid()
      ensures forall h :: h in old(live) && h in live ==> live[h] == old(live[h])
      ensures forall h :: h in live && h !in old(live) ==> h >= old(nextHandle)
      ensures !Halts(old(tabIds), currentTabIndex, lookup, created) ==>
        rotationTimer.Some? && live[rotationTimer.value] == RotationTimer(Cfg().sites[currentTabIndex].duration * 1000)
      ensures Halts(old(tabIds), currentTabIndex, lookup, created) ==>
        && rotationTimer.None? && live == old(live) && nextHandle == old(nextHandle)
        && tabIds == old(tabIds) && reloadIntervals == old(reloadIntervals)
      ensures NeedsReplacement(old(tabIds), currentTabIndex, lookup, activated) && created.Some? ==>
        && tabIds == Bind(old(tabIds), currentTabIndex, created.value)
        && (Cfg().lazyLoadTabs ==> reloadIntervals == old(reloadIntervals))
        && (!Cfg().lazyLoadTabs ==>
              && created.value in reloadIntervals
              && reloadIntervals == old(reloadIntervals)[created.value := reloadIntervals[created.value]]
              && live[reloadIntervals[created.value]] ==
                 ReloadTimer(created.value, Cfg().sites[currentTabIndex].reloadSeconds * 1000))
      ensures !NeedsReplacement(old(tabIds), currentTabIndex, lookup, activated) || created.None? ==>
        tabIds == old(tabIds) && reloadIntervals == old(reloadIntervals)
    {
      var faulted;
      if !IsBound(Slot(tabIds, currentTabIndex)) || lookup.Gone? {
        OnTabCreated(currentTabIndex, created);
        if created.Some? {
          faulted := ScheduleNextRotation();
        }
      } else if !activated {
        faulted := ScheduleNextRotation();
        OnTabCreated(currentTabIndex, created);
      } else {
        faulted := ScheduleNextRotation();
      }
    }

    /** stopRotation: cancel the rotation timer, the config check and
        every reload timer, forget all tab bindings. The configuration,
        the cursor and the on/off flag are left alone, and stopping a
        stopped engine changes nothing. */
    method StopRotation()
      requires Valid()
      modifies this`rotationTimer, this`configCheckTimer, this`live, this`reloadIntervals, this`tabIds
      ensures Valid() && Quiescent()
      ensures config == old(config) && currentTabIndex == old(currentTabIndex) && isRotating == old(isRotating)
      ensures old(Quiescent()) ==> unchanged(this)
    {
      if rotationTimer.Some? {
        live := live - {rotationTimer.value};
        rotationTimer := None;
      }
      if configCheckTimer.Some? {
        live := live - {configCheckTimer.value};
        configCheckTimer := None;
      }
      var pending := reloadIntervals.Keys;
      while pending != {}
        invariant rotationTimer.None? && configCheckTimer.None? && reloadIntervals == old(reloadIntervals)
        invariant pending <= reloadIntervals.Keys
        invariant forall h :: h in live ==>
          live[h].ReloadTimer? && live[h].tab in pending && reloadIntervals[live[h].tab] == h
        invariant old(Quiescent()) ==> live == map[]
        decreases pending
      {
        assert (forall x :: x !in pending) ==> pending == {};
        var tab :| tab in pending;
        live := live - {reloadIntervals[tab]};
        pending := pending - {tab};
      }
      assert live == map[];
      reloadIntervals := map[];
      tabIds := [];
    }

    /** The `chrome.tabs.onRemoved` listener: cancel and forget the tab's
        reload timer, and empty the first slot holding the tab. */
    method OnTabRemoved(tab: TabId)
      requires Valid()
      modifies this`reloadIntervals, this`live, this`tabIds
      ensures Valid()
      ensures reloadIntervals == old(reloadIntervals) - {tab}
      ensures live == old(live) - (if tab in old(reloadIntervals) then {old(reloadIntervals)[tab]} else {})
      ensures var k := IndexOf(old(tabIds), Some(tab));
        tabIds == if k < 0 then old(tabIds) else old(tabIds)[k := None]
      ensures tab !in old(reloadIntervals) && Some(tab) !in old(tabIds) ==> unchanged(this)
    {
      if tab in reloadIntervals {
        live := live - {reloadIntervals[tab]};
        reloadIntervals := reloadIntervals - {tab};
      }
      var index := IndexOf(tabIds, Some(tab));
      if index != -1 {
        tabIds := tabIds[index := None];
      }
    }

    /** fetchConfigAndStart once the document is fetched (`None`: the fetch
        or the parse threw). A document the validator does not accept is
        an error and leaves the configuration alone; an accepted one always
        replaces it and reports `Started`. When it differs from the loaded
        one or rotation is off, the tabs are to be closed if it asks so, and
        startRotation is called if it auto-starts or rotation is on. */
    method FetchConfigAndStart(fetched: Option<Json>) returns (status: Status, closeTabs: bool, startCalled: bool)
      requires Valid()
      modifies this`config
      ensures Valid()
      ensures status == Started <==> fetched.Some? && Validate(fetched.value) == Accepted
      ensures fetched.Some? && Validate(fetched.value) == Rejected ==> status == Error(InvalidFormat)
      ensures fetched.None? || Validate(fetched.value) == Threw ==> status == Error(Exception)
      ensures status.Error? ==> config == old(config) && !closeTabs && !startCalled
      ensures status == Started ==>
        && config == fetched
        && closeTabs == ((old(config) != fetched || !isRotating) && Cfg().closeExistingTabs)
        && startCalled == ((old(config) != fetched || !isRotating) && (Cfg().autoStart || isRotating))
    {
      if fetched.None? {
        return Error(Exception), false, false;
      }
      var doc := fetched.value;
      var verdict := Validate(doc);
      if verdict == Threw {
        return Error(Exception), false, false;
      } else if verdict == Rejected {
        return Error(InvalidFormat), false, false;
      }
      ValidateAcceptsWellFormed(doc);
      var changed := config != Some(doc);
      config := Some(doc);
      closeTabs, startCalled := false, false;
      if changed || !isRotating {
        closeTabs := Cfg().closeExistingTabs;
        startCalled := Cfg().autoStart || isRotating;
      }
      status := Started;
    }

    /** checkConfigChanges, run when the config check fires. Only while
        rotating, and only for a fetched document that is accepted and
        differs from the loaded one, is the configuration replaced and the
        rotation stopped (startRotation follows); otherwise nothing changes. */
    method CheckConfigChanges(fetched: Fetched) returns (restarted: bool)
      requires Valid()
      modifies this`config, this`rotationTimer, this`configCheckTimer, this`live, this`reloadIntervals, this`tabIds
      ensures Valid()
      ensures restarted <==>
        old(isRotating) && fetched.Fetched? && Validate(fetched.doc) == Accepted && old(config) != Some(fetched.doc)
      ensures restarted ==> config == Some(fetched.doc) && Quiescent()
      ensures !restarted ==> unchanged(this)
    {
      restarted := false;
      if !isRotating || !fetched.Fetched? {
        return;
      }
      var doc := fetched.doc;
      if Validate(doc) == Accepted && config != Some(doc) {
        ValidateAcceptsWellFormed(doc);
        config := Some(doc);
        StopRotation();
        restarted := true;
      }
    }

    /** The stop command (the action click while rotating, or the
        `stopRotation` message): stop, turn rotation off and store cursor 0.
        The in-memory cursor keeps its value. */
    method StopCommand() returns (status: Status)
      requires Valid()
      modifies this`rotationTimer, this`configCheckTimer, this`live, this`reloadIntervals, this`tabIds,
               this`isRotating, this`storedTabIndex
      ensures Valid() && Quiescent()
      ensures !isRotating && storedTabIndex == Some(0) && status == Stopped
      ensures currentTabIndex == old(currentTabIndex) && config == old(config)
    {
      StopRotation();
      isRotating := false;
      storedTabIndex := Some(0);
      status := Stopped;
    }

    /** The start command turns rotation on. */
    method MarkRotating()
      requires Valid()
      modifies this`isRotating
      ensures Valid() && isRotating
    {
      isRotating := true;
    }
  }

  /** After a stop command, the next start resumes at the in-memory cursor,
      not at 0: the stored 0 is falsy and so is ignored. */
  method StopThenResumeKeepsCursor(e: Engine) returns (requests: seq<CreateRequest>, faulted: bool)
    requires e.Valid() && e.config.Some?
    modifies e
    ensures e.currentTabIndex == old(e.currentTabIndex)
  {
    var _ := e.StopCommand();
    requests, faulted := e.ResumeRotation();
  }

  /** Stopping twice leaves the state that stopping once leaves. */
  method StopTwiceIsStopOnce(e: Engine)
    requires e.Valid()
    modifies e
    ensures e.Quiescent() && e.config == old(e.config) && e.currentTabIndex == old(e.currentTabIndex)
    ensures e.isRotating == old(e.isRotating) && e.storedTabIndex == old(e.storedTabIndex) && e.nextHandle == old(e.nextHandle)
  {
    e.StopRotation();
    ghost var once := (e.config, e.currentTabIndex, e.isRotating, e.storedTabIndex, e.nextHandle);
    e.StopRotation();
    assert (e.config, e.currentTabIndex, e.isRotating, e.storedTabIndex, e.nextHandle) == once;
  }
}
