# Verified models of kanata's engine

kanata turns the key events of a keyboard into other key events. Its engine is a set of state
machines that advance once a millisecond: the keyberon layout with its event queue, waiting
tap-hold keys, one-shot keys and layers; chords of both generations; running macros; dynamic macros
that are recorded and replayed; leader sequences; and the step that sends the difference between
two sets of active keys to the operating system. This project models those machines in Dafny, with
their bounded queues and 16-bit counters, and proves what they keep over every run.

Each machine comes in two parts. A model on values says what one step does
(`LayoutModel`, `ChordsModel`, `MacroModel`, `SequenceModel`, `ChordGroups`, ...); theorems about
steps and runs are lemmas about that model. A class or a set of methods with loops does the same in
place, as the original does (`Layout`, `Chords`, `DynamicMacro`, `Sequences`, `WaitingChord`,
`MacroSequences`, `SubsetMap`, `OsKeys`), and every method is proved to bring its object to the value
that the model gives.

| files | what they cover |
|---|---|
| `Types`, `Picking` | coordinates, key events, queue entries, fixed-width counters; what it means to keep some elements of a list |
| `HoldTap`, `TapHoldKey` | the wait of a tap-hold key, its shortcuts and its timing |
| `OneShotKey`, `OneShotEffects` | how long a one-shot key stays held, which key it applies to, what ends it, and paused input |
| `LayerLookup` | which layer answers a key |
| `LayoutModel`, `Layout`, `NoStuckKeys`, `PendingWork`, `Quiescence` | the layout; nothing stays held; everything pending ends |
| `HeldWaits`, `OneShotRoom`, `FullQueue` | what a full event queue does to waiting and one-shot keys, and when it costs a release |
| `ChordsModel`, `Chords`, `ChordsActivation`, `ChordsHistory`, `ChordsWait`, `ChordsQuiescence`, `ChordsOverflow` | chords v2; which presses become which chord and when, where events go, lifecycle, bounded wait, coming to rest, full queues |
| `Segmentation`, `ChordGroups`, `ChordResolution`, `WaitingChord` | chords v1, what a waiting key resolves to, and the splitting of undefined combinations |
| `MacroSequences`, `MacroPlay` | running macros: what they owe, how they play |
| `MacroModel`, `DynamicMacro`, `TickMs`, `NestedReplay`, `RecordReplay` | dynamic macros and the catch-up loop |
| `SequenceModel`, `Sequences`, `SequenceEffects` | leader sequences: following keys, completing, what is typed, erased and let go of |
| `SubsetMap` | the index of key subsets |
| `OsKeys` | presses and releases sent to the operating system |

`dafny verify dfyconfig.toml` checks the whole project.

## Findings

Some promises hold only under a condition; it is exact where an entry of this list says "if and only
if".

- A default tap-hold key held for exactly its timeout is a tap only if its release is already queued
  when the wait starts or part of the press's queue delay has not been charged to the timeout
  (keyberon/src/layout.rs:620-636; `ReleaseWhileWaiting`, `HeldForTheTimeoutTimesOut`).
- A wait with `on_press_reset_timeout_to` ends without further events if and only if no press is last in
  the queue, since the timeout is set anew each time it has elapsed (keyberon/src/layout.rs:560-565;
  `TimeAloneResolves`).
- A key event that meets a full queue leaves the layout owing a key its release if and only if it
  pushes out the only release of a key that is up while a wait of that key survives being made to hold
  (keyberon/src/layout.rs:1814-1831; `ReceiveKeepsInvIff`, where that such an event does so is said for
  layouts in which the one-shot keys that are active or that waits may activate are sixteen or fewer). Where
  extra waits start no others, a key is left waiting for one of two reasons: a wait of it is at an odd
  position among the extra waits, which move up while they are gone through by position, or its primary wait
  has a hold action that starts a new one (`SurvivesIff`). A tap-hold key as the hold action of another is
  enough to leave a key held for ever (`FullQueueCanStickKey`). In all runs without such an event no key gets
  stuck (`NoStuckKey`), so in particular where every event finds room (`NoStuckKeyWithRoom`).
- An action that activates a seventeenth one-shot key sends a release, and handles the oldest event in the
  middle of itself if the queue is full (keyberon/src/layout.rs:2093-2095). The queue has room for all such
  releases if at every step they, as many as one-shot keys may be active beyond sixteen, fit beside what
  is queued (`QueueFits`); then the results about stuck keys are about the queue of 32 places
  (`NoStuckKeyInQueue`, `ReleasedLayoutEmptiesInQueue`).
- A tick of chords v2 hands over at most sixteen events but may forward all thirty-two that are queued.
  It loses events if and only if there are any to forward and they, the triggers and the releases of
  chords, all known before the tick, need more than sixteen places (keyberon/src/chord.rs:225-257, 294-315;
  `TickLosesIff`, `FullOutputLosesEvent`). None is lost if the queued events and active chords are fourteen
  or fewer together (`RoomyTickLosesNothing`).
- A release that a full chords v2 queue gives up is not seen by the chords (keyberon/src/chord.rs:185-187).
  With all keys up and no virtual event queued, the machine comes to rest by ticking and reading if and
  only if each active chord that waits for its last release has all releases that it has not seen queued,
  and each other chord is due or has the release of one of its keys queued (`ComesToRestIff`). A push breaks
  this if and only if it pushes out a release that some chord needs (`PushOwedIff`), and without such a push
  the machine comes to rest (`ReleasedMachineEmpties`). One that does not is `FullQueueKeepsChord`.
- A tick of chords v2 starts a chord if and only if presses become one in the sense of `Becomes`
  (keyberon/src/chord.rs:366-577; `StartsIff`): it is the last candidate and all its keys are pressed, or no
  chord is possible with the next press, or there is no other press and nothing is left to wait for. Three
  things happen then that the comments do not mention. The chord is started twice, and its action handed out
  twice, if and only if it was the last candidate and the release of a key that was read is queued already or
  no deadline was to come before its last press; `PairStartsTwice` is a run of two presses and a release
  between two ticks. Chords are ignored from then on, although one was started, if and only if the next press
  ended it and such a release is queued or no deadline was to come before that press (`ChordIsStarted`). And
  every queued press of one of its keys is taken, one that came after a release too.
- Presses that wait for a longer chord are decided on when the first of them is one tick older than the next
  deadline, because the tick in which it is as old is skipped (keyberon/src/chord.rs:274-290;
  `DecidedAfterDeadline`).
- The comment in `tick_ms` says that the catch-up loop cannot reach the next event. Some replay reaches it
  if and only if there are 65536 milliseconds or more to catch up with and their truncation to 16 bits
  does not give 65535 (src/kanata/mod.rs:992-1002; `OvershootPossibleIff`).
- A dynamic macro replay ends if macros are played only in answer to replayed events; playing one
  whenever its end marker has been taken can go on for ever (src/kanata/dynamic_macro.rs:145-148;
  `ReplayEnds`, `AnsweringEndsCycles`).
- Ending a recording panics if and only if nothing was typed before
  (src/kanata/dynamic_macro.rs:181-183; `PanicsIffNothingTyped`).
- A gap between recorded events is replayed to the tick if and only if it is neither zero nor longer than
  the counter (src/kanata/dynamic_macro.rs:97-143; `GapReplayedExactlyIff`).
- After the last key has been released, the sequence matcher is active although nothing can be completed
  any more if and only if neither tracker begins a configured sequence (src/kanata/mod.rs:1396-1425;
  `DeadAfterReleaseIff`, `ReleasingOneKeyOfAnOverlapIsDead`).
- A macro that runs alone, with room for its states, leaves no key pressed if and only if its events are
  balanced; a tap as the last event is one way not to be (keyberon/src/layout.rs:1575-1623;
  `LeavesNoKeyIffBalanced`).
- The operating system is sent a release twice if and only if the key was listed twice before
  (src/kanata/mod.rs:1386-1394; `TimesInTick`).

## Model

| member | source | states |
|---|---|---|
| HoldTap.TickWaiting | keyberon/src/layout.rs:511-637 | the scan of the queue decides hold, tap or timeout as the existence of the triggering events and the age of the own release say |
| HoldTap.OtherKeyTriggers | keyberon/src/layout.rs:566-619 | each of the four configurations holds early exactly if some queued press, or some queued press with its release behind it (and old enough for `Order`), exists |
| HoldTap.HoldsEarlyIff | keyberon/src/layout.rs:566-619 | a tick that evaluates the queue holds early if and only if there is a press, one with its release behind it, or one that came late enough with its release behind it, by configuration |
| HoldTap.UndecidedPersists | keyberon/src/layout.rs:579-606 | a tick without arrivals never makes an undecided queue decisive, the buffer arithmetic of `Order` and saturated counters included |
| HoldTap.SkippedTickDecidesNothing | keyberon/src/layout.rs:555-559 | a tick that skips evaluation and one that does not agree, and the skip stays justified |
| HoldTap.FastPathInvisible | keyberon/src/layout.rs:555-637 | for every sequence of arrivals, skipping evaluations gives the same action at the same tick as evaluating every tick |
| HoldTap.FastPathInvisibleFromPress | keyberon/src/layout.rs:2037-2074 | the same from the moment a key starts to wait, with `quick_tap_hold_timeout` on or off |
| HoldTap.EagerRelease | keyberon/src/layout.rs:620-636 | at which tick, and how, a wait ends whose release arrives with the m-th batch |
| HoldTap.ReleaseQueuedBeforeWait | keyberon/src/layout.rs:2037-2074 | a release already queued resolves as tap if and only if press and release are at most the timeout apart, whatever the queue delay |
| HoldTap.ReleaseWhileWaiting | keyberon/src/layout.rs:620-636 | a release during the wait is a tap if and only if the key was held for less than the timeout, or for exactly that with queue delay left uncharged |
| HoldTap.HeldForTheTimeoutTimesOut | keyberon/src/layout.rs:620-636 | a key held for exactly its timeout that times out |
| HoldTap.ZeroTimeout | keyberon/src/layout.rs:620-636 | what a zero timeout does in all cases |
| HoldTap.TimeAloneResolves | keyberon/src/layout.rs:560-565 | an undecided wait ends without further events if and only if no press at the end of the queue restarts it |
| TapHoldKey.WaitResolves | keyberon/src/layout.rs:1501-1558 | the layout outputs nothing until the wait resolves and then exactly the key of the resolution, in that tick |
| TapHoldKey.TapHoldKeyOutputs | keyberon/src/layout.rs:1467-1558 | a tap-hold key pressed and released on an empty layout outputs its tap key if and only if it was held for less than the timeout, or for exactly that in two named cases, and its timeout key otherwise |
| OneShotKey.IdleTicks | keyberon/src/layout.rs:1039-1062 | a tapped one-shot key stays held for exactly the ticks left, and then only the other keys are |
| OneShotKey.HeldForItsTimeout | keyberon/src/layout.rs:2076-2097 | a one-shot key tapped alone outputs its key for exactly its timeout, whatever its end configuration |
| OneShotKey.AppliesToNextKey | keyberon/src/layout.rs:1064-1098 | the next key is held together with the one-shot key, for the pause after a press or for what is left of the timeout as the end configuration says |
| OneShotKey.ReleaseOfNextKeyEnds | keyberon/src/layout.rs:1102-1119 | where releases end a one-shot, the release of that key does, a tick later |
| OneShotEffects.PressedAgain | keyberon/src/layout.rs:1064-1098 | a one-shot key pressed again is not held back any more, joins the others, and ends them if and only if the configuration says so and it is one of them |
| OneShotEffects.ReleaseIsHeldBack | keyberon/src/layout.rs:1102-1119 | the release of a one-shot key joins those held back and exactly the retained states stay; of sixteen the oldest is given up with its states |
| OneShotEffects.OneShotStatesStay | keyberon/src/layout.rs:2076-2097 | all keys and the layer that a one-shot key activates are retained |
| OneShotEffects.ActionClearsOutputChords | keyberon/src/layout.rs:1884-1920 | before any action the keys of output chords are cleared, each pausing input for two ticks, and the tap-hold interval ends unless the same key acts |
| OneShotEffects.PressesAreIgnored | keyberon/src/layout.rs:2098-2102 | presses are ignored for exactly the number of ticks that the action says |
| OneShotEffects.ResolvingPauses | keyberon/src/layout.rs:1278-1455 | a tap and a hold pause input for the configured time, a timeout does not |
| OneShotEffects.NestedWaitInheritsDelay | keyberon/src/layout.rs:1278-1455 | a tap-hold key inside another starts with the time that the outer one took |
| OneShotEffects.PauseHoldsEvents | keyberon/src/layout.rs:1539-1547 | while input is paused no event is taken from the queue, for exactly that many ticks |
| OneShotEffects.NextEventAfterOneShot | keyberon/src/layout.rs:1039-1062 | the tick that ends a one-shot releases its keys and then takes the next event |
| LayerLookup.LatestLayerFirst | keyberon/src/layout.rs:2484-2510 | the layers are searched latest held first, then the default layer, then the first one, of which a stack takes twelve |
| LayerLookup.CurrentIsLatest | keyberon/src/layout.rs:2475-2482 | the current layer is the latest held one, or the default layer where none is held |
| LayerLookup.FirstOpaqueAnswers | keyberon/src/layout.rs:1850-1868 | the first layer of a stack that is not transparent at a key gives its action |
| LayerLookup.SourceKeyAnswers | keyberon/src/layout.rs:1850-1868 | where all are transparent the source key does, or nothing for a virtual key |
| LayerLookup.PressAnsweredByLayer | keyberon/src/layout.rs:1850-1868 | a press outputs the key that the first such layer has for it |
| LayerLookup.PressAnsweredByHeldLayer | keyberon/src/layout.rs:2484-2510 | the latest held layer that is not transparent at the key says what a press outputs |
| LayerLookup.PressAnsweredBySource | keyberon/src/layout.rs:1850-1868 | where everything is transparent the key types itself |
| LayerLookup.LayerKeyThenKey | keyberon/src/layout.rs:2475-2510 | a layer key and then a key, on an empty layout: that layer's key, or the default layer's where it is transparent |
| Layout.OneShotState.Tick | keyberon/src/layout.rs:1039-1062 | the one-shot timer in place: what ends, and which held-back keys are to be released |
| Layout.OneShotState.PressOther | keyberon/src/layout.rs:1064-1098 | a press of another key ends a one-shot soon, or is remembered, as the end configuration says |
| Layout.OneShotState.PressOneShot | keyberon/src/layout.rs:1064-1098 | a second press of a one-shot key ends it only in the two configurations that say so |
| Layout.OneShotState.Release | keyberon/src/layout.rs:1102-1119 | a release of a one-shot key is held back, any other may end the one-shot |
| Layout.OneShotState.AddStateToRetain | keyberon/src/layout.rs:1121-1130 | a state to be kept is noted once |
| Layout.Layout.Event | keyberon/src/layout.rs:1814-1831 | an event joins the queue; from a full queue the oldest is handled at once after all waits were made to hold |
| Layout.Layout.HoldAllWaits | keyberon/src/layout.rs:1825-1827 | the waits are made to hold by position while those behind move up |
| Layout.Layout.LayerOrder | keyberon/src/layout.rs:2484-2510 | the layers searched for an action, in the order that `LayerLookup.LatestLayerFirst` gives by positions |
| Layout.Layout.Resolve | keyberon/src/layout.rs:1850-1868 | the first action that is not transparent and the layers left below it |
| Layout.Layout.DoAction | keyberon/src/layout.rs:1870-2473 | the in-place execution of nested actions brings the layout to the state of the recursive model |
| Layout.Layout.ReleaseKey | keyberon/src/layout.rs:1705-1775 | a release drops the states of its coordinate, but for those a one-shot keeps |
| Layout.Layout.Dequeue | keyberon/src/layout.rs:1704-1812 | handling one queued event |
| Layout.Layout.WaitingInto | keyberon/src/layout.rs:1278-1455 | a resolved wait becomes its hold, tap or timeout action |
| Layout.Layout.TickTimers | keyberon/src/layout.rs:1501-1524 | queue entries and timers age, and a one-shot that ends releases its keys |
| Layout.Layout.TickPrimary | keyberon/src/layout.rs:1525-1556 | the primary wait is ticked, or else the next event is handled unless input is paused |
| Layout.Layout.TickExtraWaiting | keyberon/src/layout.rs:1643-1672 | the extra waits are ticked up to the first that resolves |
| Layout.Layout.Tick | keyberon/src/layout.rs:1471-1558 | a tick of the mutable layout is a tick of the model |
| NoStuckKeys.DoActionActsAt | keyberon/src/layout.rs:1870-2473 | whatever an action does, new states and waits are at its own coordinate, only releases are queued, and held-back one-shot keys stay held back or get a release |
| NoStuckKeys.ActingKeepsInv | keyberon/src/layout.rs:1870-2473 | acting at a coordinate that is down, or whose release is queued or due, keeps the invariant |
| NoStuckKeys.PoppedEventKeepsInv | keyberon/src/layout.rs:1704-1812 | handling the next event keeps every state, wait and queued press owed a release |
| NoStuckKeys.TimersKeepInv | keyberon/src/layout.rs:1039-1062 | so does the end of a one-shot |
| NoStuckKeys.OverflowKeepsInv | keyberon/src/layout.rs:1814-1831 | so does an event that meets a full queue, unless it pushes out the only release of a key that is up while a wait of that key survives |
| NoStuckKeys.TickKeepsInv | keyberon/src/layout.rs:1471-1558 | so does every tick |
| NoStuckKeys.EveryRunKeepsInv | keyberon/src/layout.rs:1471-1558 | in every state reached without such an event each held state belongs to a key that is down, whose release is queued, or that a one-shot holds back, and each wait to a key that is down or has its release queued |
| NoStuckKeys.NoStuckKey | keyberon/src/layout.rs:1471-1558 | after any events and ticks that leave all keys up and lose no release, a layout with nothing pending holds no key and no layer; releases of one-shot keys may exceed the 32 places |
| NoStuckKeys.NoStuckKeyWithRoom | keyberon/src/layout.rs:1814-1831 | the same where every event finds room in the queue |
| HeldWaits.DoActionStarts | keyberon/src/layout.rs:1870-2473 | the waits that an action starts, and whether the tap-hold interval runs after it, depend on the configuration and on whether it ran before, and on nothing else of the layout |
| HeldWaits.HoldWaitsLeaves | keyberon/src/layout.rs:1825-1827 | what is left waiting when all waits are made to hold is computed from the waits alone |
| HeldWaits.SurvivesIff | keyberon/src/layout.rs:1825-1827 | where extra waits start no others, a key is left waiting if and only if an extra wait of it is at an odd position or its primary wait has a hold action that starts one |
| OneShotRoom.DoActionActivates | keyberon/src/layout.rs:2076-2097 | an action activates no more one-shot keys than the one that may be done of each choice in it allows for, and queues a release only in place of one and when sixteen are active |
| OneShotRoom.PressActivatesFew | keyberon/src/layout.rs:1850-1868 | a press activates no more one-shot keys than the action of a single layer does, however many layers have one |
| OneShotRoom.QueueFits | keyberon/src/layout.rs:2093-2095 | in a run that at every step has room for the releases of one-shot keys beyond sixteen, no state asks for a thirty-third place |
| OneShotRoom.NoOneShotsHaveRoom | keyberon/src/layout.rs:2093-2095 | without one-shot keys in the configuration every run has |
| OneShotRoom.NoStuckKeyInQueue | keyberon/src/layout.rs:1471-1558 | such runs keep to the queue of 32 places, and once all keys are up and nothing is pending hold no key and no layer |
| OneShotRoom.ReleasedLayoutEmptiesInQueue | keyberon/src/layout.rs:1471-1558 | and they come to rest in it by ticking alone |
| FullQueue.ReceiveKeepsInvIff | keyberon/src/layout.rs:1814-1831 | a key event keeps the invariant if and only if it does not push out the only release of a key that is up while a wait of that key survives; that such an event breaks it, where at most sixteen one-shot keys are active or may be activated by waits |
| FullQueue.FullQueueCanStickKey | keyberon/src/layout.rs:1814-1831 | a tap-hold key with a tap-hold hold action, and events that leave all keys up: a full queue leaves its key held for ever |
| PendingWork.DoActionCosts | keyberon/src/layout.rs:1870-2473 | an action adds no more pending work than its nested size allows for |
| Quiescence.ResolvedWaitPays | keyberon/src/layout.rs:1278-1455 | resolving a wait costs less than the wait was worth |
| Quiescence.EveryTickPays | keyberon/src/layout.rs:1471-1558 | every tick lowers the measure of what is pending until nothing is, and it stays so |
| Quiescence.RunsDry | keyberon/src/layout.rs:1471-1558 | as many ticks as the measure says leave the queue, the waits and the one-shots empty |
| Quiescence.ReleasedLayoutEmpties | keyberon/src/layout.rs:1471-1558 | after any run that leaves all keys up and loses no release, ticking alone reaches a layout that holds nothing and has nothing pending; releases of one-shot keys may exceed the 32 places |
| ChordsModel.FittingMembers | keyberon/src/chord.rs:439-460 | the chords still possible are those enabled on the layer that contain all presses and are in time |
| ChordsModel.MinTimeoutIsADeadline | keyberon/src/chord.rs:430-434 | the next state change is the first deadline of a possible chord that is still to come |
| ChordsModel.ExactIsFirst | keyberon/src/chord.rs:487-501 | the chord found is the first enabled one made of exactly the keys pressed, and none is found only if there is none |
| ChordsModel.OldestUnread | keyberon/src/chord.rs:193-221 | the chord handed out next is the oldest unread one |
| ChordsActivation.PressesAreRead | keyberon/src/chord.rs:376-393 | the first sixteen presses in front of the first release of one of them are read, and whether there is such a release |
| ChordsActivation.FrontIsLeft | keyberon/src/chord.rs:304-364 | virtual events and the releases in front of the first press leave the queue, and the other real events stay in order |
| ChordsActivation.FittingAreCandidates | keyberon/src/chord.rs:436-460 | the list that the scan keeps is that of the enabled chords whose keys contain those pressed, the last in time after the first |
| ChordsActivation.StartsIff | keyberon/src/chord.rs:366-577 | a tick starts a chord if and only if the presses become one |
| ChordsActivation.ChordIsStarted | keyberon/src/chord.rs:366-577 | then that chord is active with its keys, its action and the age of its first press, exactly the queued presses of its keys are gone, and when it is started twice or chords are ignored besides |
| ChordsActivation.NoChordIsStarted | keyberon/src/chord.rs:518-577 | otherwise nothing is taken, and chords are ignored unless a longer chord may still come, until whose deadline the machine waits |
| ChordsActivation.CompleteChordIsStarted | keyberon/src/chord.rs:462-568 | a complete chord is started if it is the only candidate, if the next press fits none, or if a key is released or no deadline is to come |
| ChordsActivation.UnmappedIsIgnored | keyberon/src/chord.rs:395-402 | a first key that is in no chord starts none and has chords ignored |
| ChordsActivation.DecidedAfterDeadline | keyberon/src/chord.rs:269-290 | without arrivals pending presses are decided on one tick after the next deadline and not before |
| ChordsActivation.ActiveChordsAge | keyberon/src/chord.rs:225-230 | an active chord is handed out with the ticks since its first key was pressed |
| ChordsHistory.JudgeIsSound | keyberon/src/chord.rs:403-568 | whatever the scan activates is an enabled chord with exactly the keys of the presses taken |
| ChordsHistory.TickConservesEvents | keyberon/src/chord.rs:225-364 | every queued event is pushed on the drain queue, consumed or still queued after a tick, exactly once |
| ChordsHistory.OldestAreLost | keyberon/src/chord.rs:225-257 | what a tick returns is the drain queue without its oldest events, followed by what chords add, and none is missing if and only if all fit sixteen places |
| ChordsHistory.TickLosesIff | keyberon/src/chord.rs:225-257 | a tick loses an event if and only if there is one to forward and what it has to hand over, counted on the machine before it, needs more than sixteen places |
| ChordsHistory.RoomyTickLosesNothing | keyberon/src/chord.rs:225-257 | a tick of a machine with at most fourteen queued events and active chords together loses nothing |
| ChordsHistory.DrainingKeepsOrder | keyberon/src/chord.rs:269-364 | what is forwarded and then left of the real events keeps the order of arrival |
| ChordsHistory.TickActivatesWhatItConsumes | keyberon/src/chord.rs:366-577 | a tick consumes only presses, only by activating, and each activated chord is configured, enabled and has the consumed keys as its participants |
| ChordsHistory.RemovedAreReleased | keyberon/src/chord.rs:579-592 | each removed chord emits one release of its coordinate and no unread chord is removed |
| ChordsHistory.ForwardLives | keyberon/src/chord.rs:294-364 | forwarded releases free the keys of active chords and make them released exactly when due |
| ChordsHistory.EveryRunKeeps | keyberon/src/chord.rs:185-259 | over any mix of pushes, ticks and reads every event has been returned, lost to a full output or consumed, or is queued, exactly once, those returned in order of arrival; and all of the above about chords holds of the whole history |
| ChordsHistory.IdleMachineOwesNothing | keyberon/src/chord.rs:177-179 | an idle machine has returned, lost or consumed every event once, returned the real ones in order, handed out every activation in order, and released it as often as it was handed out; nothing was lost if every tick had room |
| ChordsHistory.ReleasedExactlyWhenDue | keyberon/src/chord.rs:294-364 | in any run a tick releases exactly the chords that were read and are due: all keys freed, or one freed or a release at the start, as the chord's release behaviour says |
| ChordsOverflow.FullOutputLosesEvent | keyberon/src/chord.rs:294-315 | an unmapped press, a tick and sixteen more events: the next tick leaves the machine idle without a panic and the press has reached nothing |
| ChordsOverflow.PairStartsTwice | keyberon/src/chord.rs:462-568 | two presses and a release between two ticks start the only chord there is twice |
| ChordsOverflow.FullQueueKeepsChord | keyberon/src/chord.rs:185-187 | a chord of two keys and thirty-three releases before the next tick: all keys are up and the chord stays active however long the machine is ticked and read |
| ChordsQuiescence.PushOwedIff | keyberon/src/chord.rs:185-187 | a push leaves every chord with the releases it still needs coming, all of those not seen or any one as its release behaviour says, if and only if it does not push out one that some chord needs |
| ChordsQuiescence.EveryRunOwes | keyberon/src/chord.rs:185-259 | so does every run without such a push |
| ChordsQuiescence.StuckForEver | keyberon/src/chord.rs:294-364 | a chord that needs a release none of which is queued is never released by ticking and reading |
| ChordsQuiescence.ComesToRestIff | keyberon/src/chord.rs:177-259 | with all keys up and no virtual event queued, long enough ticking and reading empties the machine if and only if every active chord has the releases it still needs queued |
| ChordsQuiescence.ReleasedMachineEmpties | keyberon/src/chord.rs:177-259 | after any run that leaves all keys up and loses no release, ticks and reads alone, in any order, leave nothing queued and no chord active, within a bound |
| ChordsWait.JudgedInTime | keyberon/src/chord.rs:419-568 | a queue that starts with a press activates a chord, has chords ignored, or gets a deadline within the longest pending duration |
| ChordsWait.DrainingWaits | keyberon/src/chord.rs:269-290 | the skip counter never outlasts the wait of a queued event |
| ChordsWait.NoEventWaitsLonger | keyberon/src/chord.rs:269-290 | over every run no event is queued for longer than the longest pending duration plus the queue size |
| Chords.DrainLeading | keyberon/src/chord.rs:332-364 | releases in front of the first press are forwarded and reach the active chords in order |
| Chords.RetainCandidates | keyberon/src/chord.rs:423-435 | narrowing the list of candidates by the new press gives what searching all chords would |
| Chords.ScanPresses | keyberon/src/chord.rs:419-520 | the loop with its kept candidate list and sixteen places computes the scan of the model |
| Chords.ClearReleased | keyberon/src/chord.rs:579-592 | released chords leave, their releases are pushed, and when the push has no room |
| Chords.ChordsV2.PushBackChv2 | keyberon/src/chord.rs:185-187 | a full queue returns its oldest entry |
| Chords.ChordsV2.GetActionChv2 | keyberon/src/chord.rs:193-221 | the oldest unread chord is handed out and marked as read |
| Chords.ChordsV2.ProcessPresses | keyberon/src/chord.rs:366-577 | the decision on the presses in place; `ChordsActivation` says what it is |
| Chords.ChordsV2.DrainInputs | keyberon/src/chord.rs:269-290 | the three ways to drain, and when an assertion about room fails |
| Chords.ChordsV2.TickChv2 | keyberon/src/chord.rs:225-257 | a tick of the mutable machine is a tick of the model, or stops where the original panics |
| Segmentation.GreedySplits | keyberon/src/layout.rs:895-935 | taking the longest chord again and again gives contiguous, disjoint, longest chords in order and leaves out no key that could start one |
| Segmentation.OnlyGreedySplits | keyberon/src/layout.rs:895-935 | no other splitting does |
| ChordGroups.UnambiguousIff | keyberon/src/action.rs:285-302 | a chord is unambiguous if and only if it is defined and no further key would make another |
| ChordGroups.OrderMakesMask | keyberon/src/layout.rs:809-838 | the keys in order of arrival are together the mask by which the chord was judged |
| ChordGroups.EmittedOnOwnKey | keyberon/src/layout.rs:840-864 | each action emitted is on a coordinate that has a key of its chord |
| ChordGroups.TakesWhatWasRead | keyberon/src/layout.rs:774-789 | the presses taken from the queue are those counted while reading: all that belong to the chord up to where the reading ended and none behind |
| ChordGroups.SplitsIntoLongestChords | keyberon/src/layout.rs:794-935 | the whole splitting: the longest chords in order, their actions, their coordinates |
| ChordResolution.WaitsForMoreKeys | keyberon/src/layout.rs:748-758 | with time left and nothing that breaks it off, the waiting key resolves if and only if the keys down are a chord and no chord has more keys, and otherwise leaves all as it is |
| ChordResolution.PerformsDefinedChord | keyberon/src/layout.rs:759-792 | else the first chord of exactly the keys down is performed, at the release that broke it off or the waiting key, and exactly the presses counted leave the queue |
| ChordResolution.SplitsUndefined | keyberon/src/layout.rs:794-935 | a combination that is no chord is split in order of arrival; each action with its delay and the coordinate of the ending release, the waiting key or the first event that has a key of it; the last eight are kept |
| ChordResolution.KeptAreUncounted | keyberon/src/layout.rs:773-790 | the events left are all but the group presses, not too old, in front of the event that broke the chord off |
| ChordResolution.IsChordIff | keyberon/src/layout.rs:895-931 | a run is split off if and only if its keys together are a defined chord |
| ChordResolution.SkippedTickDecidesNothing | keyberon/src/layout.rs:701-706 | the fast path is invisible: a tick without arrivals resolves nothing that was unresolved |
| WaitingChord.WaitingChord.HandleChord | keyberon/src/layout.rs:695-792 | one evaluation in place: skip, wait on, act, or split, as `ChordResolution` says |
| WaitingChord.WaitingChord.TickChord | keyberon/src/layout.rs:511-553 | one tick of a waiting chord |
| WaitingChord.ReadMask | keyberon/src/layout.rs:715-748 | the first loop over the queue |
| WaitingChord.ReadOrder | keyberon/src/layout.rs:800-838 | the second loop over the queue reads the same keys |
| WaitingChord.LongestChord | keyberon/src/layout.rs:897-931 | shrinking from the end finds the longest chord at the start |
| WaitingChord.Decompose | keyberon/src/layout.rs:895-935 | the index loops queue the actions of the greedy splitting, the last eight if there are more |
| MacroSequences.MacroRunner.ProcessSequences | keyberon/src/layout.rs:1561-1641 | rotating the ring advances each active sequence once, in order, and starts the latest repeating macro when none is left |
| MacroSequences.MacroRunner.Start | keyberon/src/layout.rs:2302-2307 | a fifth sequence displaces the oldest |
| MacroSequences.MacroRunner.Cancel | keyberon/src/layout.rs:2332-2340 | cancelling drops all sequences and all fake keys |
| MacroSequences.StepTakesOneTick | keyberon/src/layout.rs:1564-1623 | a step takes exactly one tick off a sequence that completes, and drops it when none is left |
| MacroSequences.MacrosEndOnTime | keyberon/src/layout.rs:1561-1641 | sequences that complete run for exactly the sum of the costs of their events; then the latest repeating macro begins again, or nothing runs any more |
| MacroSequences.StepOwes | keyberon/src/layout.rs:1564-1623 | a step of a balanced sequence keeps owing what it pressed |
| MacroSequences.MacrosOweTheirKeys | keyberon/src/layout.rs:1561-1641 | over every run with at most four balanced sequences at a time, each fake key is owed a release by a running sequence, so none is held once none runs |
| MacroSequences.MacrosLeaveNothingBehind | keyberon/src/layout.rs:1561-1641 | when the last of such macros ends no key is left pressed, and exactly the latest repeating one, if any, begins again |
| MacroSequences.LeavesNoKeyIffBalanced | keyberon/src/layout.rs:1575-1623 | a macro alone leaves no key pressed if its events are balanced and, unless the 64 states may run out, only if they are |
| MacroPlay.EventTakesEffect | keyberon/src/layout.rs:1575-1615 | each event takes effect in its first tick, a tap is released in the next, and then the next event is due |
| MacroPlay.DelayTakesItsTime | keyberon/src/layout.rs:1567-1607 | a delay changes nothing for exactly its number of ticks |
| MacroPlay.EachTakesItsTurn | keyberon/src/layout.rs:1561-1623 | a tick takes each sequence one step in order and keeps the unfinished ones in order |
| MacroPlay.LatestBeginsAgain | keyberon/src/layout.rs:1624-1640 | the repeating macro that begins again is the last among the states |
| MacroPlay.CancelStops | keyberon/src/layout.rs:2332-2340 | cancelling leaves the other states in order, and nothing runs from then on unless a repeating macro is held |
| DynamicMacro.DynamicMacros.TickReplayState | src/kanata/dynamic_macro.rs:108-157 | one tick of a replay in place; `NestedReplay.TickReturns` says which press or release it emits |
| DynamicMacro.DynamicMacros.PlayMacro | src/kanata/dynamic_macro.rs:280-315 | a macro that is not active is prepended with its end marker, others are refused |
| DynamicMacro.DynamicMacros.TickMs | src/kanata/mod.rs:978-1004 | the two loops together, with any plays in between, and whether the overshoot is reported |
| DynamicMacro.DynamicMacros.RecordPress | src/kanata/dynamic_macro.rs:204-233 | the press is noted, or the recording is closed and saved without the waiting event when it is too long |
| DynamicMacro.DynamicMacros.RecordRelease | src/kanata/dynamic_macro.rs:235-240 | the release is noted |
| DynamicMacro.DynamicMacros.BeginRecordMacro | src/kanata/dynamic_macro.rs:159-202 | a running recording is closed and saved without its last item, and when that panics |
| DynamicMacro.DynamicMacros.StopMacro | src/kanata/dynamic_macro.rs:242-278 | the same with more items removed |
| DynamicMacro.CloseMacro | src/kanata/dynamic_macro.rs:44-61 | one release is appended for each key left pressed, in any order |
| TickMs.ExtraTicksBounded | src/kanata/mod.rs:978-991 | the extra ticks never outrun the iterations done and the delay still to come |
| TickMs.NeverOvershoots | src/kanata/mod.rs:992-1002 | for up to 65535 milliseconds the overshoot branch is not reached, whatever is replayed and played |
| TickMs.ConstantNeedsNoExtra | src/kanata/mod.rs:978-991 | with constant delays each millisecond is one tick |
| TickMs.OvershootPossibleIff | src/kanata/mod.rs:992-1002 | some replay reaches it if and only if the milliseconds are 65536 or more and do not truncate to 65535 |
| NestedReplay.PlayCalls | src/kanata/dynamic_macro.rs:280-315 | playing a macro during a replay is a call |
| NestedReplay.TickReturns | src/kanata/dynamic_macro.rs:108-157 | a tick emits the press or the release of the next item of the innermost macro or returns to the one that played it |
| NestedReplay.EveryReplayIsNested | src/kanata/dynamic_macro.rs:108-157 | every reachable replay is such a stack of distinct macros |
| NestedReplay.MarkersNameActiveMacros | src/kanata/dynamic_macro.rs:280-315 | the active macros are the first one and those of the end markers, each once |
| NestedReplay.PlayIsPaid | src/kanata/dynamic_macro.rs:300-311 | what a play prepends is covered by the event that led to it |
| NestedReplay.ReplayEnds | src/kanata/dynamic_macro.rs:108-157 | with any number of plays in answer to replayed events, a replay lasts for a bounded number of ticks |
| NestedReplay.AnsweringEndsCycles | src/kanata/dynamic_macro.rs:145-148 | playing an empty macro each time it has ended never gets on |
| RecordReplay.RecordsWhatHappened | src/kanata/dynamic_macro.rs:63-101 | a recording holds every event, in order, with the clamped number of ticks up to the next |
| RecordReplay.EveryExitCloses | src/kanata/dynamic_macro.rs:159-278 | whichever way a macro is saved, it leaves no key pressed and holds no end marker |
| RecordReplay.PanicsIffNothingTyped | src/kanata/dynamic_macro.rs:181-183 | ending a recording panics if and only if nothing was typed |
| RecordReplay.StoppingDropsLast | src/kanata/dynamic_macro.rs:259-272 | a recording that is stopped is saved without its last event and as many more as are to be removed |
| RecordReplay.LimitReachedIff | src/kanata/dynamic_macro.rs:204-233 | a press saves the recording if and only if more than twice the limit and one more events were seen |
| RecordReplay.ReplayFollowsItems | src/kanata/dynamic_macro.rs:108-157 | an uninterrupted replay emits each item as the press or release of its key at its onset and nothing else, leaves down what the items leave pressed, and is then over |
| RecordReplay.RecordThenReplay | src/kanata/dynamic_macro.rs:108-278 | what was typed, but for the items removed, is typed again in order and on time, followed by the missing releases, after which no key is down |
| RecordReplay.GapReplayedExactlyIff | src/kanata/dynamic_macro.rs:97-143 | a gap is replayed to the tick if and only if it is between 1 and 65535 |
| Sequences.Backtrack | src/kanata/sequences.rs:136-159 | the in-place loop performs the search of the model |
| Sequences.TrackBoth | src/kanata/sequences.rs:127-238 | both trackers are updated and what was looked up is what they hold |
| Sequences.SequenceState.DoSequencePressLogic | src/kanata/sequences.rs:95-270 | a press in place: trackers, cancellation, completion, output; `Sequences.PushedIff` says which key is looked up |
| Sequences.PushedIff | src/kanata/sequences.rs:99-128 | the key looked up is the key code, with the left variant of shift, GUI and control, and the modifiers held above it |
| Sequences.SequenceState.TypeKey | src/kanata/mod.rs:1445-1466 | a newly active key goes to the active sequence, with the modifiers of the keys held, or is typed; a sequence may be begun by any key |
| Sequences.SequenceState.Terminate | src/kanata/sequences.rs:274-351 | a completed sequence is erased where it was visible, its keys are let go of and its virtual key is tapped at the front of the bounded queue |
| Sequences.SequenceState.CancelSequence | src/kanata/sequences.rs:353-367 | a cancelled sequence types its keys in the hidden-delay mode only |
| Sequences.SequenceState.HandleAllReleased | src/kanata/mod.rs:1396-1425 | the release of the last key ends an overlap |
| Sequences.SequenceState.TickSequenceState | src/kanata/mod.rs:1170-1180 | a sequence is cancelled when its time has run out; a timeout of zero wraps around |
| Sequences.Backspaces | src/kanata/sequences.rs:305-335 | as many backspaces as characters were typed, less those exempt |
| Sequences.BacktrackingKeepsMost | src/kanata/sequences.rs:136-159 | the shortest tail that makes the sequence known is cleaned, and the search fails only if none does |
| Sequences.LongestKnownSuffixSurvives | src/kanata/sequences.rs:227-237 | when both trackers fail the longest known suffix of the cleaned sequence is kept, and it is cancelled if and only if none but the empty one is known |
| Sequences.AliveAfterPress | src/kanata/sequences.rs:198-270 | after every press, from any state, the matcher is inactive or some tracker is a proper prefix of a configured sequence |
| Sequences.CompletionTaps | src/kanata/sequences.rs:240-269 | a completion puts press and release of the completed sequence's own key in front of all that is queued, of which only the last events of a full queue fall out, and lets go of its keys; no other press touches queue or states |
| Sequences.DeadAfterReleaseIff | src/kanata/mod.rs:1396-1425 | when the release of the last key leaves an active matcher that cannot complete anything |
| Sequences.ReleasingOneKeyOfAnOverlapIsDead | src/kanata/mod.rs:1396-1425 | an input that gets there |
| Sequences.TypingCompletes | src/kanata/sequences.rs:95-270 | where no configured sequence has overlapping keys, typing the keys of one with their modifiers taps its key at the last press and not before, unless a shorter one is completed on the way |
| Sequences.NextKeyOverlaps | src/kanata/sequences.rs:161-238 | whatever else is configured, the next key of an overlap goes on with it unless the standard tracker then holds a configured sequence, and completes it if it was the last |
| Sequences.OverlapCompletes | src/kanata/mod.rs:1396-1425 | pressing the keys of an overlapping sequence in a configured order and releasing them taps its key, unless an earlier press has completed another sequence |
| Sequences.OverlapCompletesAtLastPress | src/kanata/sequences.rs:227-270 | where only overlaps are configured and none is of fewer of the keys, it is tapped at the last press and not before |
| SequenceEffects.ModifierBits | parser/src/sequences.rs:8-23 | each modifier has the bit that it has in configured sequences, and no other |
| SequenceEffects.TypingWithModifiersCompletes | src/kanata/mod.rs:1445-1466 | typing a configured sequence key by key, with the modifiers of each key held, taps its key |
| SequenceEffects.ShiftSelectsSequence | src/kanata/mod.rs:1445-1466 | one key taps the shifted or the plain sequence as a shift key is held or not |
| SequenceEffects.VisibleTypingIsErased | src/kanata/sequences.rs:95-351 | a typed sequence leaves nothing in the output where it is hidden; where it is visible each character typed is followed by a backspace |
| SequenceEffects.CompletionErases | src/kanata/sequences.rs:289-335 | each character of a completed sequence is erased or exempt, and exemptions are used up first |
| SequenceEffects.ModifiersAreReleased | src/kanata/sequences.rs:289-304 | before erasing exactly the control, alt and GUI keys are released, in order |
| SequenceEffects.KeysAreLetGo | src/kanata/sequences.rs:338-347 | exactly the keys of a completed sequence are let go of |
| SequenceEffects.TapPushesOutLast | src/kanata/sequences.rs:348-349 | what the tap pushes out of a full queue are its last events |
| SequenceEffects.EndsInTime | src/kanata/mod.rs:1170-1180 | a sequence stays active for exactly its time and then types the keys it has kept back, if any |
| SequenceEffects.PressesRestartTime | src/kanata/sequences.rs:95-104 | each press starts the time over |
| SequenceEffects.OverlapKeepsFirstKnown | src/kanata/sequences.rs:161-196 | of the four ways to go on with an overlap the first that is known is kept, and it fails if none is |
| SequenceEffects.CleanedKeys | src/kanata/sequences.rs:141-150 | cleaning drops single markers and takes marker or modifiers off each other key |
| SubsetMap.BinarySearch | parser/src/subset.rs:118-130 | the position of a key in a sorted bucket, or where it belongs |
| SubsetMap.SubsetMap.InsertKSorted | parser/src/subset.rs:116-136 | the buckets stay sorted and hold exactly the known keys; the key existed if and only if it was known or repeats an element |
| SubsetMap.SubsetMap.Insert | parser/src/subset.rs:109-112 | the same for an unsorted key |
| SubsetMap.SubsetMap.GetKSorted | parser/src/subset.rs:147-178 | the answer is the one a plain map gives, for the empty key too |
| SubsetMap.SubsetMap.Get | parser/src/subset.rs:140-143 | the same for an unsorted key |
| SubsetMap.OrderDoesNotMatter | parser/src/subset.rs:140-143 | the order of the elements of a key makes no difference |
| SubsetMap.NeitherForSupersets | parser/src/subset.rs:147-178 | a key that is part of no known key has no known superset |
| OsKeys.Keyboard.HandleKeystateChanges | src/kanata/mod.rs:1386-1466 | the two difference loops |
| OsKeys.Keyboard.TickStates | src/kanata/mod.rs:1023-1040 | the keys active now become the ones active before |
| OsKeys.TickTracks | src/kanata/mod.rs:1386-1466 | one tick brings the operating system from the former to the active keys, pressing only keys that are up |
| OsKeys.SentInOrder | src/kanata/mod.rs:1376-1466 | first the keys that are gone are released, forwards or backwards, then the new ones pressed in the order in which they are listed |
| OsKeys.OsTracksActiveKeys | src/kanata/mod.rs:1023-1040 | so after every run it holds exactly the active keys |
| OsKeys.TimesInTick | src/kanata/mod.rs:1386-1394 | how often each press and release is sent, duplicates included |

## Left out

- Layout.Layout.LayerOrder: more than twelve held layers, where the original panics, are cut to twelve.
- Layout.Layout.DoAction: the release that a seventeenth one-shot key sends joins a full queue as one more
  entry, where the original handles the oldest event in the middle of the action (keyberon/src/layout.rs:2093-2095).
  Tap-dance, switch, fork, repeat, custom actions, source keys as actions and `HoldTapConfig::Custom` are
  not actions of this model; a source key does nothing or types a key.
- NoStuckKeys.NoStuckKey: speaks of that larger queue where it comes to that; `OneShotRoom.NoStuckKeyInQueue`
  says it of the queue of 32 places, and when it does not come to that.
- Quiescence.ReleasedLayoutEmpties: the same, with `OneShotRoom.ReleasedLayoutEmptiesInQueue`.
- FullQueue.ReceiveKeepsInvIff: does not say that an event that loses a release breaks the invariant where
  making the waits hold may activate a seventeenth one-shot key, which sends a release itself.
- Layout.Layout.Dequeue: an event is not shown to an eager tap-dance first.
- Layout.Layout.WaitingInto: the histories of inputs, the presses that a chord hands over, keys suppressed
  for one cycle and the key saved for repetition are not kept.
- Layout.Layout.TickTimers: neither macros nor an eager tap-dance advance here.
- Layout.Layout.Tick: the action queue, macros and chords v2 are not part of it; each machine is proved on
  its own.
- Layout: the prior-idle condition of tap-hold keys; a layer number out of range acts as no action
  instead of a panic; `on_press_reset_timeout_to` is part of `HoldTap` only, and the layout starts waits
  without it; the waiting keys are values inside the layout rather than objects of their own.
- HeldWaits.SurvivesIff: where extra waits have hold actions that start further waits, the survivors are
  those of `HeldWaits.Left`, in no simpler words.
- HoldTap, Layout, WaitingChord, Sequences: 16-bit sums and differences wrap as in an optimised build; a
  build with overflow checks would panic there.
- Chords.ChordsV2.TickChv2: says nothing about the state after an assertion about room has failed,
  because the original panics there. The runs of `ChordsHistory` and `ChordsQuiescence` go on.
- ChordsQuiescence.ComesToRestIff: asks for a queue without virtual events, whose releases free keys of
  chords while chords are ignored and not otherwise.
- ChordsQuiescence.ReleasedMachineEmpties: like `ComesToRestIff`, speaks of pending durations up to 65502 ticks; with longer ones
  the ages by which it bounds the wait saturate.
- Chords v2 configurations list each chord under its own participants, and every ignore period is at
  least the five ticks that the constructor insists on.
- WaitingChord: the layer stack stored with an action is not modelled; bit masks are sets, so the limit
  of 128 virtual keys per group is not.
- MacroSequences.MacroRunner.ProcessSequences: macro keys are not shown to the one-shot keys or the history,
  and custom events are only noted.
- MacroSequences.MacroRunner.Cancel: the same holds of the press that cancels.
- MacroSequences.LeavesNoKeyIffBalanced: unbalanced events may leave no key when the 64 states are full, so
  that direction asks for room for the states of all events.
- DynamicMacro.DynamicMacros.TickMs: the rest of `tick_states` appears only as the plays it starts, and
  the event handed to the layout is not followed further.
- Sequences.SequenceState.Terminate: an event that falls out of the layout's full queue is kept in
  `spilled`; the layout's handling of it is not followed.
- Sequences: the trie is a finite map with a prefix lookup; the Patricia tree behind it is not part of
  this model.
- OsKeys.Keyboard.HandleKeystateChanges: the sequence branch between the two loops and custom events are
  left to `Sequences` or not modelled; plain keys only. Mouse buttons, wheel events, ignored key codes,
  overrides, caps-word and unmodded keys change the list of active keys or the output elsewhere.
- OsKeys.Keyboard.TickStates: the other duties of a tick (replays, sequences, mouse, idle timers) are not
  part of it.
- Input and output of the operating system, the TCP server, live reload, command execution, zippychord,
  mouse movement and the configuration parser.
