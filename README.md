# Tab rotation extension — verified model

This project models the core of a Chrome extension that rotates through a list of web sites, one tab per site.

The extension fetches a JSON configuration. The document lists `websites`, each with a `url`, a `duration` in seconds and a `tabReloadIntervalSeconds`. It also carries the flags `autoStart`, `lazyLoadTabs` and `closeExistingTabs`.

Two pieces are modelled.

- **The configuration validator `validateConfig`.** The background script and the options page each have a copy.
  - Both copies are evaluated with JavaScript's rules: truthiness, `typeof`, property reads and a short-circuiting `every`.
  - A validator has three outcomes: accepted, rejected, or threw. It throws when a `null` entry reaches the callback.
  - Each copy is proved equal to a structural reference definition (`WellFormed`), and the two copies are proved to agree.
- **The rotation engine of the background script.** It is a class `Background.Engine` whose fields are the script's module-level variables: the configuration, the cursor `currentTabIndex`, the pending rotation timeout, the per-tab reload intervals, `isRotating`, `tabIds` and the config-check interval.
  - Two host facts are fields too: the host's table of armed timers (`live`, with the next fresh handle) and the cursor kept in storage.
  - Each host callback is one method, and the host's answers are its parameters. These callbacks are a timer firing, a storage read answering, a tab being created or removed, and a fetch finishing.
  - The class invariant `Valid` ties the engine's handles to the host's timer table (`Timers.Registered`). That invariant gives at most one pending rotation timer, at most one reload timer per tab id, and no armed timer that the engine does not hold.

Modules:

| module | file | contents |
|---|---|---|
| `Wrappers` | `wrappers.dfy` | `Option` |
| `JsValues` | `json.dfy` | the JSON datatype, `Truthy`, `typeof`, property reads |
| `BackgroundConfig` | `config.dfy` | the background validator, the reference definition, the decoded `Config` |
| `Options` | `options.dfy` | the options-page validator |
| `Timers` | `timers.dfy` | handles, the timer table and its invariant |
| `Background` | `engine.dfy` | the engine |

`validateConfig` accepts an empty `websites` array, because `every` over no entries is true (`BackgroundConfig.EmptyWebsitesAccepted`); `startRotation` then refuses to run (`Background.Engine.StartRotation`).

## Model

| member | source | states |
|---|---|---|
| JsValues.Truthy | background.js:100-104 | JavaScript truthiness of a JSON value (null, false, 0 and "" falsy; arrays and objects truthy); its consequences for the validators are stated by BackgroundConfig.SiteOkIsWellFormed and BackgroundConfig.ZeroDurationRejectedNegativeAccepted |
| JsValues.Get | background.js:100-104 | a property read, `undefined` for an absent key; its use in the entry callback is specified by BackgroundConfig.SiteOkIsWellFormed and in decoding by BackgroundConfig.Decode |
| BackgroundConfig.SiteOk | background.js:102-104 | the `every` callback of the background validator; specified by BackgroundConfig.SiteOkIsWellFormed |
| BackgroundConfig.Every | background.js:101-105 | the short-circuiting `every`, throwing on a null entry; specified by BackgroundConfig.EveryDecidedByFirstBad |
| BackgroundConfig.Validate | background.js:99-106 | `validateConfig` of the background script as a three-valued verdict; specified by BackgroundConfig.ValidateAcceptsWellFormed and BackgroundConfig.ValidateThrowsOnNullEntry |
| Options.EntryOk | options.js:66-68 | the `every` callback of the options page; specified through Options.EveryEntryAgrees and BackgroundConfig.SiteOkIsWellFormed |
| Options.EveryEntry | options.js:65-69 | the options page's `every`; specified by Options.EveryEntryAgrees |
| Options.Validate | options.js:61-70 | `validateConfig` of the options page, guard then `every`; specified by Options.GuardRejects, Options.AgreesWithBackground and Options.AcceptsWellFormed |
| BackgroundConfig.FirstBad | background.js:101-105 | the index where `every` stops: all entries before it are well formed and the one at it is not |
| BackgroundConfig.SiteOkIsWellFormed | background.js:102-104 | the entry callback is true exactly for an object with a non-empty string url and nonzero numeric duration and reload interval |
| BackgroundConfig.EveryDecidedByFirstBad | background.js:101-105 | `every` accepts when no entry is ill formed, throws when the first ill-formed entry is null, and rejects otherwise |
| BackgroundConfig.ValidateReachesEvery | background.js:100 | a document reaches `every` exactly when it is an object with an array `websites`; otherwise it is rejected |
| BackgroundConfig.ValidateAcceptsWellFormed | background.js:99-106 | the validator accepts if and only if the document is well formed |
| BackgroundConfig.ValidateThrowsOnNullEntry | background.js:101-105 | the validator throws if and only if the first entry that is not well formed is null |
| BackgroundConfig.Decode | background.js:118-122 | an accepted document yields one site per entry, in order, carrying the entry's url, duration and reload interval (all non-empty or nonzero), plus the truthiness of the three flags |
| BackgroundConfig.EmptyWebsitesAccepted | background.js:100-101 | `{websites: []}` is accepted |
| BackgroundConfig.ZeroDurationRejectedNegativeAccepted | background.js:102-104 | a zero duration or an empty url rejects the document, while a negative duration is accepted |
| BackgroundConfig.NullAfterBadEntryRejects | background.js:101-105 | a null entry after a rejected entry is never read, but a null entry first throws |
| Options.GuardRejects | options.js:62-64 | a falsy document, a missing `websites` or a non-array `websites` is rejected |
| Options.EveryEntryAgrees | options.js:65-69 | the options page's `every` decides every entry list exactly as the background script's does |
| Options.AgreesWithBackground | options.js:61-70 | the two validators give the same verdict on every document |
| Options.AcceptsWellFormed | options.js:61-70 | the options page accepts if and only if the document is well formed, with an empty `websites` included |
| Options.OneBadEntryRejects | options.js:65-69 | one non-null ill-formed entry, preceded only by well-formed ones, rejects the whole document |
| Timers.AtMostOneRotationTimer | background.js:172-179 | under the invariant, at most one rotation timer is armed |
| Timers.AtMostOneReloadTimerPerTab | background.js:219-223 | under the invariant, at most one reload timer is armed per tab id |
| Timers.ArmedAreHeld | background.js:237-249 | the armed timers are exactly the handles the engine holds, so clearing those handles clears everything |
| Background.Bind | background.js:120 | `tabIds[i] = tab` grows the array to hold `i`, sets slot `i` and leaves every other slot as it read before |
| Background.IndexOf | background.js:256 | `indexOf` yields -1 exactly when the value is absent, and otherwise the first index holding it |
| Background.JsRem | background.js:130 | the remainder truncates toward zero: it differs from the operand by a multiple of N, is smaller than N in magnitude and has the operand's sign, so it agrees with the mathematical modulus on non-negative operands |
| Background.ModUnique | background.js:130 | proof helper for Background.JsRem's clause `(a - r) % n == 0`: a number written as `q * n + r` with `0 <= r < n` has remainder `r` |
| Background.MultipleMod | background.js:130 | proof helper for Background.JsRem's clause `(a - r) % n == 0`: a multiple of N has remainder 0 |
| Background.StepWraps | background.js:130 | one tick from an in-range cursor moves to the next index, wrapping to 0 after the last |
| Background.AdvancedCountsUp | background.js:130 | ticks before the last index count up by one |
| Background.AdvancedAdds | background.js:130 | `a` ticks then `b` ticks equal `a + b` ticks |
| Background.EveryIndexVisited | background.js:127-131 | from an in-range cursor every site index is reached within N ticks, and with one site the cursor stays at 0 |
| Background.Advanced | background.js:130 | the cursor after k ticks, each the truncated `(cursor + 1) % N`; specified by Background.StepWraps, Background.AdvancedCountsUp, Background.AdvancedAdds and Background.EveryIndexVisited, and tied to the tick by Background.Engine.Tick |
| Background.Resumed | background.js:112-114 | the cursor startRotation resumes from, the stored one only when truthy and with no range check; specified through Background.Engine.ResumeRotation and Background.StopThenResumeKeepsCursor |
| Background.CreatesFirst | background.js:136-168 | the tick branches that create a tab before scheduling (empty slot, or the host reports the tab gone); used by Background.Engine.ActivateAtCursor and Background.Engine.Tick |
| Background.NeedsReplacement | background.js:136-168 | the tick branches that create a replacement tab (those above, or a failed activation); used by Background.Engine.ActivateAtCursor and Background.Engine.Tick |
| Background.Halts | background.js:139-168 | a tick waiting on a failed creation never schedules the next rotation; used by Background.Engine.ActivateAtCursor and Background.Engine.Tick |
| Background.Engine.RotationEnabled | background.js:128 | the guard of a tick; the tick's two outcomes under it are stated by Background.Engine.Tick |
| Background.Engine.constructor | background.js:1-7 | the initial state: no config, cursor 0, not rotating, nothing armed or bound |
| Background.Engine.Arm | background.js:177 | `setTimeout` and `setInterval` arm exactly one timer under a fresh handle |
| Background.Engine.ScheduleNextRotation | background.js:172-179 | the previous rotation timer is cancelled; a new one, with the delay of the site at the cursor times 1000, exists exactly when rotating with an in-range cursor; an out-of-range cursor while rotating throws |
| Background.Engine.SetupReloadInterval | background.js:219-223 | the tab's old reload timer is cancelled and exactly one new one with period `seconds * 1000` is armed; other tabs' timers are unchanged |
| Background.Engine.ReloadTick | background.js:223-234 | the reload timer's tab is reloaded exactly when the host still has it and it is not active |
| Background.Engine.OnTabCreated | background.js:119-124 | a created tab is bound at its index and, unless tabs load lazily, its reload timer is replaced; when the host created no tab, the callback throws and nothing changes |
| Background.Engine.StartRotation | background.js:109 | startRotation goes on exactly when a configuration with at least one site is loaded |
| Background.Engine.ResumeRotation | background.js:111-125 | the cursor is resumed from a truthy stored value only; `tabIds` is cleared; one create request goes out per site, active only at the cursor; scheduling and the config-check arming then follow as in `ScheduleFirstRotation`; every timer that stays armed keeps its entry |
| Background.Engine.ScheduleFirstRotation | background.js:181-185 | the first rotation is scheduled; unless that throws, the config check is armed when none is armed, and an armed one is kept unchanged; every timer that stays armed keeps its entry |
| Background.Engine.ArmConfigCheck | background.js:183-185 | a config-check interval of 60000 ms is armed only when none is |
| Background.Engine.Tick | background.js:127-170 | the tick does nothing but spend its timer unless a config with sites is loaded and rotation is on; otherwise the cursor becomes `(cursor+1) mod N`, stays in range and is stored, and the tab at the cursor is handled as in `ActivateAtCursor`; every timer that stays armed keeps its entry |
| Background.Engine.ActivateAtCursor | background.js:134-169 | an empty slot, a gone tab or a failed activation rebinds the slot to the created tab (with its reload timer unless lazy); otherwise `tabIds` and the reload timers are unchanged; the next rotation is armed for the site's duration, except when an empty slot or a gone tab waits on a creation that fails, which halts rotation with nothing changed; every timer that stays armed keeps its entry |
| Background.Engine.StopRotation | background.js:237-249 | no rotation timer, no config check, no reload timers, no armed timers and empty `tabIds`; config, cursor and `isRotating` are unchanged; stopping a stopped engine changes nothing |
| Background.Engine.OnTabRemoved | background.js:251-260 | the tab's reload timer is cancelled and forgotten, the first slot holding the tab is emptied, and an unknown tab changes nothing |
| Background.Engine.FetchConfigAndStart | background.js:74-93 | an unaccepted document reports an error and leaves config alone; an accepted one always replaces config and reports started; tabs are closed and startRotation is called exactly under the source's conditions |
| Background.Engine.CheckConfigChanges | background.js:190-213 | a restart (config replaced and everything stopped) happens exactly when rotating and the fetched document is accepted and differs; otherwise nothing changes |
| Background.Engine.StopCommand | background.js:62-66 | the stop command stops everything, turns rotation off, stores cursor 0 and keeps the in-memory cursor |
| Background.Engine.MarkRotating | background.js:56 | the start command turns rotation on and keeps the invariant |
| Background.StopThenResumeKeepsCursor | background.js:111-114 | after a stop, the next start resumes at the in-memory cursor: the stored 0 is falsy |
| Background.StopTwiceIsStopOnce | background.js:237-249 | a second stop leaves the state the first one left: everything cleared, and config, cursor, `isRotating`, the stored cursor and the handle counter as before |

## Left out

- Host calls (`chrome.tabs.*`, `chrome.storage.local`, `chrome.action.setIcon`, context menus, messaging, `openOptionsPage`) are foreign APIs. Their answers are method parameters (`Lookup`, `activated`, `created`, `stored`, `fetched`). Their requests are results (`CreateRequest`, `reload`, `closeTabs`, `startCalled`, `Status`).
- `fetch` and `response.json()` are network I/O and parsing. A fetch or parse that threw is `None` (or `FetchFailed`), and a missing `configUrl` is `NoConfigUrl`.
- Real timing is not modelled. A timer records its kind and its delay or period only.
- `keepAlive` is left out. It is a liveness ping that only keeps the host process awake.
- Closing every open tab is a bulk host side effect. Only the decision (`closeTabs`) is modelled. `CheckConfigChanges` always closes tabs when it restarts.
- Async interleaving is not modelled. Each callback is one atomic step, and callers run the steps in the source's order.
  - Start is `StartRotation`, then `ResumeRotation`, then one `OnTabCreated` per answered request.
  - The message path calls `MarkRotating` right after starting the fetch.
  - The click path calls `MarkRotating` after `FetchConfigAndStart` answers, whatever the status.
  - The `tabs.get`/`tabs.update`/`tabs.create` chain of a tick is one step, `Tick`.
- `JSON.stringify` key order is not modelled. The change checks compare documents as values.
- The options page's DOM handlers are UI code and are left out.
- `console` logging is left out.
- Numbers are integers. Fractional durations and reload intervals are not modelled.
- The stored `isRotating` flag is only ever written, never read back by the core, so it is not modelled.
- Background.Engine.OnTabCreated: the start path's create callback reads the site captured by `forEach`. The model reads the site at that index in the configuration loaded when the callback runs. The two differ only if the configuration changes while creations are pending. For the same reason the model requires the index to be within the loaded configuration's sites, so a create callback that arrives after a restart has loaded a shorter configuration is not modelled; the source still binds that index and arms a reload timer with the captured site's interval.
- Background.Engine.Tick: a spent or cleared timer's handle is modelled as `None`. The source keeps the old, spent handle in `rotationInterval` after it fires or after `scheduleNextRotation` clears it, and a later `clearTimeout` on it does nothing. Handles start at 1, so a held handle is always truthy.
- Background.Engine.ScheduleNextRotation: reading the duration of a cursor outside the sites throws a TypeError in the source. The model reports it as `faulted`, with no timer armed. In `ResumeRotation`, the config check is then not armed either.
