# On-device debug console: log capture, drop-oldest buffer and renderer

This project models the log-capture core of `DebugUIManager`, a Unity
component that subscribes to the engine's log-message event, keeps the most
recent log messages in a capped queue, and draws them as one block of
coloured text on a head-mounted display.

The model has four parts.

- `DebugLogs` (Logs.dfy): the captured record `DebugLog` (time of day,
  condition, stack trace, `LogType`) and the decimal formatting that the
  time stamp uses (`NatToString`, with `ParseNat` as its inverse).
- `LogBuffer` (Buffer.dfy): the drop-oldest policy on plain sequences.
  `LastN(s, n)` is the last `min(n, |s|)` elements of `s` in order.
  `Replay` is what the queue holds after a run of appends.
- `Rendering` (Render.dfy): the text the console shows. `EntryText` is the
  text of one entry: the `[H:M:S] ` stamp, the colour-tagged severity line,
  the condition line, the stack-trace line and the separator. `Render(buf,
  newestAtTop)` is the whole text, newest first or oldest first.
- `DebugUI` (Manager.dfy): the imperative component, in two classes.
  - `LogStore` holds the source's static state: `_logQueue`,
    `_maxQueueSize` and `_isEnabled`. Its field `subscribers` counts how many
    times `HandleLog` is registered on the engine's event.
  - `DebugUIManager` holds one console's instance state: `_newestAtTop` and
    the displayed text. It refers to the shared `LogStore`.

  Each method is proved against the pure functions above. `HandleLog`
  leaves `LastN(old queue + [entry], cap)`, and `UpdateText` leaves
  `Render(queue, newestAtTop)`.
- `DebugUIScenarios` (Scenarios.dfy) is client code. It follows a capacity-3
  queue through four captures and a redraw, and it enables the subscription
  twice and checks that one raised message is captured once. `CaptureAll`
  runs `HandleLog` over any sequence of messages.
- `StringFacts` (Strings.dfy) holds facts about joining strings. They are
  stated over arbitrary pieces, so the proofs that use them need not unfold
  the pieces.

The newest entry sits at the last index of the queue, because `HandleLog`
appends at the end and evicts index 0. The doc comment on `_logQueue`
(DebugUI/DebugUIManager.cs:42-43) says the latest entry is at index 0. That
comment is wrong, and the model follows the code.

The capacity is a constructor parameter. The source sets it to 50
(DebugUI/DebugUIManager.cs:29).

The engine's `LogType` has five named values. `Undefined` stands for every
other value a C# enum variable can hold, all alike. Those values take the
`default:` branch, which writes no severity line.

## Model

| member | source | states |
|---|---|---|
| `DebugLogs.NatToString` | DebugUI/DebugUIManager.cs:145 | the stamp fields are written in decimal digits only, with no zero padding: the first digit is `0` exactly for zero, and a single digit exactly below ten |
| `DebugLogs.NatToStringRoundTrip` | DebugUI/DebugUIManager.cs:145 | reading the written digits back gives the original number |
| `DebugLogs.NatToStringInjective` | DebugUI/DebugUIManager.cs:145 | two numbers are written alike exactly when they are equal |
| `Rendering.StampInjective` | DebugUI/DebugUIManager.cs:145 | the unpadded `[H:M:S] ` stamp still identifies the capture time: two stamps are equal exactly when the times are |
| `Rendering.SeverityColours` | DebugUI/DebugUIManager.cs:146-165 | the colour is red exactly for Error and Exception, orange exactly for Assert, yellow exactly for Warning and white exactly for Log; the severity line is empty exactly for a type outside the enum |
| `Rendering.SeparatorLineShape` | DebugUI/DebugUIManager.cs:168 | the separator is forty `- ` pairs and then two line breaks, 82 characters in all |
| `Rendering.EntryText` | DebugUI/DebugUIManager.cs:143-169 | every entry's text is longer than the separator and starts with `[` |
| `Rendering.EntryLayout` | DebugUI/DebugUIManager.cs:143-169 | an entry starts with its stamp and ends with the separator; the condition and stack-trace lines come right after the severity line, even when the condition or stack trace is empty |
| `Rendering.ReversedAt` | DebugUI/DebugUIManager.cs:129-131 | the k-th element of the reversed queue is the element at index Count-1-k |
| `Rendering.DisplayOrderReverses` | DebugUI/DebugUIManager.cs:129-134 | newest-first order is the exact reverse of oldest-first order, in both directions; newest-first visits indices Count-1 down to 0 |
| `Rendering.RenderEntriesAppend` | DebugUI/DebugUIManager.cs:129-134 | the text of two runs of entries is the text of the first run followed by the text of the second |
| `Rendering.RenderEmptyIff` | DebugUI/DebugUIManager.cs:126-141 | the rendered text is empty exactly when the queue is empty, in either order |
| `Rendering.RenderNewest` | DebugUI/DebugUIManager.cs:129-134 | with the newest on top, the newest entry is written first, before the newest-first text of the older entries; otherwise it is written last |
| `LogBuffer.Replay` | DebugUI/DebugUIManager.cs:118-120 | any run of appends with eviction leaves at most `cap` entries |
| `LogBuffer.LastNShape` | DebugUI/DebugUIManager.cs:118-120 | the kept entries number `min(|s|, cap)`, are the last ones of `s` in their original order, and include the newest |
| `LogBuffer.AppendEvictIsLastN` | DebugUI/DebugUIManager.cs:118-120 | from a queue within capacity, appending and then removing index 0 when the count exceeds `cap` keeps exactly the last `cap` entries |
| `LogBuffer.LastNAbsorbs` | DebugUI/DebugUIManager.cs:118-120 | evicting early loses nothing that a final trim would keep |
| `LogBuffer.ReplayKeepsLast` | DebugUI/DebugUIManager.cs:118-120 | after any run of appends into an empty queue, the queue holds exactly the last `min(n, cap)` entries, in insertion order, newest last |
| `DebugUI.LogStore.constructor` | DebugUI/DebugUIManager.cs:29-44 | a fresh store has an empty queue, the given capacity, and no subscription |
| `DebugUI.LogStore.SetContinuousMode` | DebugUI/DebugUIManager.cs:90-100 | afterwards the flag equals the argument and `HandleLog` is registered once if enabled and not at all otherwise; a call that repeats the current state changes nothing; the queue is untouched |
| `DebugUI.LogStore.StartDebugger` | DebugUI/DebugUIManager.cs:47-51 | at load time the store is subscribed exactly once |
| `DebugUI.LogStore.HandleLog` | DebugUI/DebugUIManager.cs:114-122 | the new queue is `LastN(old queue + [entry], cap)`; the count grows by one below capacity and stays at `cap` otherwise |
| `DebugUI.LogStore.LogMessageReceived` | DebugUI/DebugUIManager.cs:95-97 | a message raised on the engine's event is captured exactly once while subscribed and not at all otherwise |
| `DebugUI.CapturedEntryShown` | DebugUI/DebugUIManager.cs:118-134 | after a capture into a non-zero capacity, the new entry's text opens the newest-first text and closes the oldest-first text |
| `DebugUI.DebugUIManager.constructor` | DebugUI/DebugUIManager.cs:31-33 | a new console takes the order flag it is given, which is true unless the scene sets it otherwise, and starts with empty text |
| `DebugUI.DebugUIManager.OnEnable` | DebugUI/DebugUIManager.cs:54-57 | enabling the component subscribes the store exactly once |
| `DebugUI.DebugUIManager.OnDisable` | DebugUI/DebugUIManager.cs:59-62 | disabling the component leaves no subscription |
| `DebugUI.DebugUIManager.SetNewestOnTop` | DebugUI/DebugUIManager.cs:102-106 | only the order flag and the text change; the text is the render of the unchanged queue in the new order |
| `DebugUI.DebugUIManager.UpdateText` | DebugUI/DebugUIManager.cs:124-135 | the text after the two index loops is `Render(queue, newestAtTop)` whatever it was before, so redrawing an unchanged queue gives identical text |
| `DebugUI.DebugUIManager.ClearConsole` | DebugUI/DebugUIManager.cs:137-141 | the queue and the text become empty; the order flag and the subscription are untouched |
| `DebugUI.DebugUIManager.WriteText` | DebugUI/DebugUIManager.cs:143-169 | the text grows by exactly the entry's text: stamp, severity line by type, condition line, stack-trace line, separator |
| `DebugUIScenarios.CaptureAll` | DebugUI/DebugUIManager.cs:114-122 | after any run of `HandleLog` calls, the queue holds the last `cap` entries of the old queue followed by the new messages, in arrival order; from an empty queue, that is `Replay` of the messages |
| `DebugUIScenarios.RenderThree` | DebugUI/DebugUIManager.cs:129-134 | for a queue B, C, D, newest first writes D, C, B and oldest first writes B, C, D |

## Left out

- `Update()` (DebugUI/DebugUIManager.cs:73-85) is not modelled. It sets the FPS labels from floating-point engine values, sets the clock label, and calls `UpdateText` at most every 0.1 s. So a capture does not redraw the text by itself in this model, just as `HandleLog` does not in the source. The timing of redraws is not modelled.
- `ToggleEnable` and the empty `Awake` are not modelled: `ToggleEnable` only calls the engine's `gameObject.SetActive`.
- The TextMeshPro widgets are not modelled. The debug text is a plain string field, and the clock and FPS labels are dropped.
- `DateTime.Now` is not called. `HandleLog` takes the capture time as a parameter holding hour, minute and second; the date and the sub-second part are never shown.
- The event `Application.logMessageReceived` is modelled only by its registration count (`subscribers`) and by `LogMessageReceived`, which calls `HandleLog` once per registration. The engine's delegate lists are not part of this model.
- Threading is not modelled. The source subscribes to `Application.logMessageReceived`, which the engine raises on the main thread only, so every delivery is sequential. The variant raised from any thread, `logMessageReceivedThreaded`, is not used.
- The store's invariant `LogStore.Valid()` is a precondition: the queue is within capacity, and the registration count matches the flag. `LogStore.SetContinuousMode`, `LogStore.StartDebugger`, `LogStore.HandleLog`, `LogStore.LogMessageReceived`, `DebugUIManager.OnEnable`, `DebugUIManager.OnDisable`, `DebugUIManager.ClearConsole` and `CaptureAll` require it, and each re-establishes it. In the source the fields are private. Three methods write them: `HandleLog` (DebugUI/DebugUIManager.cs:114-122), which evicts at capacity; `ClearConsole` (DebugUI/DebugUIManager.cs:137-141), which installs an empty list; and `SetContinuousMode` (DebugUI/DebugUIManager.cs:90-100), which changes the registration together with the flag. So the invariant holds from the static initialisers onward. `LogMessageReceived` is not a method of the source; it stands for the engine raising its event.
- `DebugUI.DebugUIManager.constructor`: the console's displayed text starts empty. In the source, the text belongs to the TextMeshPro widget, and its value before the first `Update` is not modelled.
- The `[SerializeField]` attribute on the static `_maxQueueSize` has no effect in Unity, so the capacity is fixed in the source. The model takes it as a constructor argument.
