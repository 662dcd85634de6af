# ksched coroutine experiments, modelled in Dafny

This project models the logic that the ksched repository writes itself inside its
kotlinx.coroutines experiments. It covers these parts:

- The accumulate-and-snapshot actor of `deferred.kt` and its near-copy `theCoroutine` in
  `java-callable-coroutine.kt`.
- The turnstile state machine, in its object-state form (`state-machine.kt`) and its
  function-state form (`functional/state-machine-function-states.kt`).
- The time-window producer of `window.kt`.
- The `readableSeed` formatter, the `SplitterSubscriber`, `testSequence` and `producer` of
  `split-channel-test.kt`.

Channels, `select`, `ticker`, `BroadcastChannel` and `CompletableDeferred` belong to the
library. The choice `select` makes among the sources that are ready is modelled as a finite
event trace supplied by the caller, and a `while(true)` loop becomes a loop over that trace.
Every property therefore holds for every interleaving.

Modules:

- `Mailbox` holds what the two actors share:
  - the `Event` datatype;
  - the write-once result `Slot`, which is `CompletableDeferred`;
  - the specification `Gathered(trace)` of the accumulated list.
- `Deferred` and `JavaCallable` are the two actors. Each is a class whose list field is
  changed by one method per event. Each has a `Run` method proved against `Gathered`.
- `Turnstile` is the object-state machine and its driver.
- `FunctionStates` is the function-state variant, both as written and as intended.
- `Window` holds the window specification (`Replay`), its conservation lemmas, and the
  `TimeWindow` class that keeps the conservation invariant.
- `SplitChannel` holds `readableSeed`, `TimeUnit.toMillis`, the subscriber, the topic, the
  producer and the two-subscriber scenario.

Kotlin `assert` in `deferred.kt` is modelled with JVM assertions enabled (`-ea`). This is an
assumption of the model: under it, a failed completion ends the actor's loop.

## Model

| member | source | states |
|---|---|---|
| Mailbox.Slot.Complete | src/test/kotlin/deferred.kt:33 | The first completion stores the value and answers true. A later completion answers false and leaves the first value in place. |
| Mailbox.GatheredSinceLastTick | src/test/kotlin/deferred.kt:23-41 | For every trace, the list equals the content items received since the last tick (or since the start), in arrival order. |
| Mailbox.TickClears | src/test/kotlin/deferred.kt:36-39 | A tick leaves the list empty, whatever came before it. |
| Mailbox.ContentAppends | src/test/kotlin/deferred.kt:26-29 | A content item is appended at the end, and every earlier item keeps its position and value. |
| Mailbox.SnapshotKeepsList | src/test/kotlin/java-callable-coroutine.kt:31-35 | A snapshot request does not change the list. Two consecutive requests therefore see the same list. |
| Mailbox.ContentsAppendInOrder | src/test/kotlin/java-callable-coroutine.kt:23-29 | A run of submissions appends its items to the list, in submission order. |
| Deferred.Accumulator.constructor | src/test/kotlin/deferred.kt:19 | The list starts empty. |
| Deferred.Accumulator.OnContent | src/test/kotlin/deferred.kt:26-29 | The item is appended at the end of the list. |
| Deferred.Accumulator.OnSnapshotRequest | src/test/kotlin/deferred.kt:31-34 | The slot is completed with the current list, and the list is unchanged. The asserted result is true exactly when the slot was still empty. |
| Deferred.Accumulator.OnTick | src/test/kotlin/deferred.kt:36-39 | The list becomes empty. |
| Deferred.Accumulator.Run | src/test/kotlin/deferred.kt:23-41 | The loop handles one event per iteration: afterwards the list is `Gathered` of the handled prefix. Every handled request was the first request of its slot, found the slot empty, and leaves it holding the list as it was at that request. A delivered snapshot is therefore a copy that later appends and clears do not reach. The loop stops early only at a request whose slot was completed before it, either before the run or by an earlier request of the same slot, where the assertion fails. That slot, and every slot not requested before the stop, keeps its value. |
| JavaCallable.SubmissionActor.constructor | src/test/kotlin/java-callable-coroutine.kt:19 | The submissions list starts empty. |
| JavaCallable.SubmissionActor.OnSubmission | src/test/kotlin/java-callable-coroutine.kt:26-29 | The submission is appended at the end of the list. |
| JavaCallable.SubmissionActor.OnSnapshotRequest | src/test/kotlin/java-callable-coroutine.kt:31-35 | An empty slot is completed with the current list. A completed slot keeps its first value and nothing fails. |
| JavaCallable.SubmissionActor.OnTick | src/test/kotlin/java-callable-coroutine.kt:37-40 | The list becomes empty. |
| JavaCallable.SubmissionActor.Run | src/test/kotlin/java-callable-coroutine.kt:23-43 | Every event of the trace is handled, and the list ends as `Gathered(trace)`. Every requested slot ends completed. A slot that was empty holds the list as it was at its first request. A slot completed beforehand keeps its value. |
| Turnstile.Process | src/test/kotlin/state-machine.kt:19-47 | Push gives Locked and coin gives Unlocked, from either state. Both directions hold, so the next state depends on the event alone. |
| Turnstile.RunTurnstile | src/test/kotlin/state-machine.kt:49-57 | The driver starts at Locked and applies one transition per event. An empty trace leaves Locked. Otherwise the state is Locked exactly when the last event was a push. |
| FunctionStates.CastToState | src/test/kotlin/functional/state-machine-function-states.kt:59 | A cast to `State` succeeds exactly on an object implementing the interface. A function reference fails with ClassCastException. |
| FunctionStates.LockedFunction | src/test/kotlin/functional/state-machine-function-states.kt:25-35 | `locked` names `locked` again on a push and `unlocked` on a coin, as the object state `locked` does. |
| FunctionStates.UnlockedFunction | src/test/kotlin/functional/state-machine-function-states.kt:37-47 | `unlocked` names `locked` on a push and `unlocked` again on a coin, as the object state `unlocked` does. |
| FunctionStates.Invoke | src/test/kotlin/functional/state-machine-function-states.kt:25-47 | The functions `locked` and `unlocked` make the same transitions as the object states' `process`. |
| FunctionStates.TransitionAsWritten | src/test/kotlin/functional/state-machine-function-states.kt:26-46 | Each transition as written ends in a failing cast of a function reference to `State`. |
| FunctionStates.DriverAsWritten | src/test/kotlin/functional/state-machine-function-states.kt:49-63 | The driver as written fails with ClassCastException for every trace, before any event is processed. |
| FunctionStates.CoinShowsTheCastFailure | src/test/kotlin/functional/state-machine-function-states.kt:53-59 | On the trace of one coin, the driver as written fails, while the intended driver reaches Unlocked. |
| FunctionStates.RunFunctionStates | src/test/kotlin/functional/state-machine-function-states.kt:59-63 | The intended driver starts at `locked`, calls the current function once per event, and reaches the object-state turnstile's state. |
| Window.Conservation | src/test/kotlin/window.kt:22-38 | The sent windows concatenated, followed by the current window, equal the earlier content followed by the received items, in order, with none lost or duplicated. |
| Window.OneWindowPerTick | src/test/kotlin/window.kt:34-38 | The number of windows sent grows by exactly the number of ticks handled. |
| Window.SentWindowsAreFinal | src/test/kotlin/window.kt:36-37 | A window once sent is never changed by later events: the earlier sent windows are a prefix of the later ones. |
| Window.TickWithoutItemsSendsEmptyWindow | src/test/kotlin/window.kt:34-38 | A tick right after a tick sends an empty window. |
| Window.TimeWindow.constructor | src/test/kotlin/window.kt:22 | Nothing has been sent and the current window is empty. |
| Window.TimeWindow.OnItem | src/test/kotlin/window.kt:29-32 | The item is appended to the current window. Conservation is preserved. |
| Window.TimeWindow.OnTick | src/test/kotlin/window.kt:34-38 | The current window is sent and replaced by a fresh empty one. Conservation is preserved. |
| Window.TimeWindow.Run | src/test/kotlin/window.kt:24-40 | The loop's state after the trace is `Replay` of the old state. The received items grow by the trace's items, and conservation holds. |
| SplitChannel.ReadableSeed | src/test/kotlin/split-channel-test.kt:188-190 | The rendering ends with `L` and contains no comma. |
| SplitChannel.ReadableSeedStrips | src/test/kotlin/split-channel-test.kt:189 | Removing the trailing `L` and the underscores gives the plain decimal rendering of the seed. |
| SplitChannel.ReadableSeedGroups | src/test/kotlin/split-channel-test.kt:189 | Underscores stand exactly between groups of three digits counted from the right. The leading group has one to three digits and follows a minus sign for a negative seed. |
| SplitChannel.ReadableSeedOfTestSeed | src/test/kotlin/split-channel-test.kt:85 | The test's seed 225912776299004 renders as `225_912_776_299_004L`. |
| SplitChannel.DigitsDenote | src/test/kotlin/split-channel-test.kt:189 | The decimal digits of `%d` read back to the number. |
| SplitChannel.DigitsOfValue | src/test/kotlin/split-channel-test.kt:189 | A digit string without a leading zero is the decimal rendering of the number it denotes. |
| SplitChannel.ToMillis | src/test/kotlin/split-channel-test.kt:32 | This is `TimeUnit.toMillis`. Milliseconds are kept. Finer units are divided with truncation toward zero. Coarser units are multiplied and saturate at the bounds of `Long`. |
| SplitChannel.SplitterSubscriber.constructor | src/test/kotlin/split-channel-test.kt:25-33 | `seen` starts empty, and `periodMillis` is the period converted to milliseconds. |
| SplitChannel.SplitterSubscriber.DoSteps | src/test/kotlin/split-channel-test.kt:38-55 | Every item received is appended to `seen` in receipt order. |
| SplitChannel.Topic.Send | src/test/kotlin/split-channel-test.kt:162 | A send on an open topic publishes the item at the end. A send on a closed topic fails and publishes nothing. |
| SplitChannel.Topic.Close | src/test/kotlin/split-channel-test.kt:164 | The topic is closed, and its published items are unchanged. |
| SplitChannel.TestSequence | src/test/kotlin/split-channel-test.kt:125-127 | The test sequence is 1 to 10 in increasing order. |
| SplitChannel.Producer | src/test/kotlin/split-channel-test.kt:158-165 | On an open topic, the test sequence is published in order and the topic is then closed. On a closed topic, nothing is published. |
| SplitChannel.SplitTwoSubscribers | src/test/kotlin/split-channel-test.kt:99-121 | The fast subscriber (100 ms) and the slow one (1 s, which is 1000 ms) each see exactly 1 to 10, in order. |

## Left out

- Library code is represented only by the event trace and the slot and topic contracts. This covers channels, `select` fairness, `ticker` timing, `CompletableDeferred.await` suspension, and `BroadcastChannel` buffering and backpressure.
- SplitChannel.SplitTwoSubscribers assumes the broadcast contract. A subscription opened before the producer starts delivers exactly the published items, in order, and then end of stream. `BroadcastChannel` itself is not part of this model.
- The virtual clock and timing are not modelled: `TestCoroutineScope`, `advanceTimeBy`, `runCurrent`, `delay` and the Gaussian jitter. They are library code or floating point. `periodMillis` is computed but only paces the delays.
- `createRandom` is not modelled. It reads `System.nanoTime` and `SecureRandom`, which are I/O and randomness.
- `JavaCallableCoroutineScope` and `CallCoroutineFromJava.java` are not modelled. They are blocking and threading adapters with no logic of their own.
- The `main` functions are left out. So are the producers built on `LocalDateTime.now()`, cancellation through `cancelChildren`, and the `println`, `log2` and `log` side effects, including the turnstile's messages. The `eg-*.kt` tutorials and the build script are left out too.
- SplitChannel.FormatGrouped assumes a locale that groups by three digits with `,`. `%,d` follows the default locale, which is not modelled.
- Deferred.Accumulator.Run models JVM assertions enabled. With `-ea` off, the assertion is skipped and the actor behaves like JavaCallable.SubmissionActor.Run.
- Deferred.Accumulator.Run and JavaCallable.SubmissionActor.Run require the list to be empty, because the loop starts right after the list is created.
- SplitChannel.SplitterSubscriber.DoSteps records items as unbounded integers rather than 32-bit `Int`. The items are 1 to 10, so no wrap-around can occur.
- SplitChannel.Producer models a send on a closed topic as a failed send that ends the producer. In Kotlin this throws `ClosedSendChannelException`.

## Findings

| source | as written | input that shows it | evidently intended | confidence | as-written member | corrected member |
|---|---|---|---|---|---|---|
| src/test/kotlin/functional/state-machine-function-states.kt:59 (and the casts at 29, 33, 41, 45) | `::locked as State` casts a function reference to the `State` interface. A reference to a top-level function does not implement it, so the cast throws ClassCastException before any event is read. | any trace, e.g. a single coin | start at `locked` and unlock on the coin | not executed | FunctionStates.DriverAsWritten | FunctionStates.RunFunctionStates |
