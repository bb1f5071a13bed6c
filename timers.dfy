/** The host's timers as the engine sees them. `setTimeout`/`setInterval`
    hand out a fresh handle and the host keeps a table of armed timers;
    `clearTimeout`/`clearInterval` remove one. The engine holds handles in
    three places: the pending rotation timeout, one reload interval per tab
    id, and the config-check interval. */
module Timers {
  import opened Wrappers

  type Handle = nat
  type TabId = int

  /** What an armed timer will do, with its delay or period in milliseconds. */
  datatype Timer =
    | RotationTimer(delayMs: int)
    | ReloadTimer(tab: TabId, periodMs: int)
    | WatchdogTimer(periodMs: int)

  function Handles(o: Option<Handle>): set<Handle> {
    if o.Some? then {o.value} else {}
  }

  /** The handles of the reload intervals the engine holds. */
  function HeldReloads(reload: map<TabId, Handle>): set<Handle> {
    set t | t in reload :: reload[t]
  }

  /** The engine variable that an armed timer of this kind must be held in. */
  predicate Owned(timer: Timer, h: Handle, rotation: Option<Handle>, reload: map<TabId, Handle>, watchdog: Option<Handle>) {
    match timer
    case RotationTimer(_) => rotation == Some(h)
    case ReloadTimer(tab, _) => tab in reload && reload[tab] == h
    case WatchdogTimer(_) => watchdog == Some(h)
  }

  /** The timer table and the engine's handles agree: every handle the
      engine holds is armed and of its kind, every armed timer is held
      where its kind says, and every handle is below the next fresh one. */
  predicate Registered(live: map<Handle, Timer>, rotation: Option<Handle>, reload: map<TabId, Handle>,
                       watchdog: Option<Handle>, next: Handle)
  {
    && (forall h :: h in live ==> h < next && Owned(live[h], h, rotation, reload, watchdog))
    && (rotation.Some? ==> rotation.value in live && live[rotation.value].RotationTimer?)
    && (watchdog.Some? ==> watchdog.value in live && live[watchdog.value].WatchdogTimer?)
    && (forall t :: t in reload ==> reload[t] in live && live[reload[t]].ReloadTimer? && live[reload[t]].tab == t)
  }

  /** At most one rotation timer is ever armed. */
  lemma AtMostOneRotationTimer(live: map<Handle, Timer>, rotation: Option<Handle>, reload: map<TabId, Handle>,
                               watchdog: Option<Handle>, next: Handle)
    requires Registered(live, rotation, reload, watchdog, next)
    ensures forall h1, h2 :: h1 in live && h2 in live && live[h1].RotationTimer? && live[h2].RotationTimer? ==> h1 == h2
  {
  }

  /** At most one reload timer is armed per tab id. */
  lemma AtMostOneReloadTimerPerTab(live: map<Handle, Timer>, rotation: Option<Handle>, reload: map<TabId, Handle>,
                                   watchdog: Option<Handle>, next: Handle)
    requires Registered(live, rotation, reload, watchdog, next)
    ensures forall h1, h2 ::
      (h1 in live && h2 in live && live[h1].ReloadTimer? && live[h2].ReloadTimer? && live[h1].tab == live[h2].tab)
      ==> h1 == h2
  {
  }

  /** No timer is leaked: the armed timers are exactly the handles the engine holds. */
  lemma ArmedAreHeld(live: map<Handle, Timer>, rotation: Option<Handle>, reload: map<TabId, Handle>,
                     watchdog: Option<Handle>, next: Handle)
    requires Registered(live, rotation, reload, watchdog, next)
    ensures live.Keys == Handles(rotation) + Handles(watchdog) + HeldReloads(reload)
  {
    forall h | h in live ensures h in Handles(rotation) + Handles(watchdog) + HeldReloads(reload) {
      match live[h]
      case RotationTimer(_) =>
      case WatchdogTimer(_) =>
      case ReloadTimer(t, _) => assert reload[t] == h;
    }
  }
}
