/** The console's state: the static log queue and subscription flag shared by
    every console, and each console's order flag and text. */
module DebugUI {
  import opened DebugLogs
  import opened LogBuffer
  import opened Rendering
  import opened StringFacts

  /** The static members of the console: the capped queue of captured logs,
      its capacity, and whether HandleLog is subscribed to the engine's
      log-message event. `subscribers` is how many times HandleLog sits in
      that event's invocation list. */
  class LogStore {
    const maxQueueSize: nat
    var logQueue: seq<DebugLog>
    var isEnabled: bool
    var subscribers: nat

    ghost predicate Valid()
      reads this
    {
      && |logQueue| <= maxQueueSize
      && subscribers == if isEnabled then 1 else 0
    }

    constructor (maxQueueSize: nat)
      ensures Valid()
      ensures this.maxQueueSize == maxQueueSize
      ensures logQueue == [] && !isEnabled && subscribers == 0
    {
      this.maxQueueSize := maxQueueSize;
      logQueue := [];
      isEnabled := false;
      subscribers := 0;
    }

    /** Subscribes or unsubscribes HandleLog; a call that asks for the state
        already in force changes nothing. */
    method SetContinuousMode(b: bool)
      requires Valid()
      modifies this`isEnabled, this`subscribers
      ensures Valid()
      ensures isEnabled == b
      ensures subscribers == if b then 1 else 0
      ensures old(isEnabled) == b ==> subscribers == old(subscribers)
    {
      if isEnabled != b {
        if isEnabled {
          subscribers := subscribers - 1;
        } else {
          subscribers := subscribers + 1;
        }
        isEnabled := b;
      }
    }

    /** Subscribes once when the runtime loads the subsystems. */
    method StartDebugger()
      requires Valid()
      modifies this`isEnabled, this`subscribers
      ensures Valid() && isEnabled && subscribers == 1
    {
      SetContinuousMode(true);
    }

    /** Appends the message captured at time `now` at the end of the queue
        and evicts the oldest entry when the count exceeds the capacity. */
    method HandleLog(condition: string, stackTrace: string, logType: LogType, now: TimeOfDay)
      requires Valid()
      modifies this`logQueue
      ensures Valid()
      ensures logQueue == LastN(old(logQueue) + [DebugLog(now, condition, stackTrace, logType)], maxQueueSize)
      ensures |logQueue| == if |old(logQueue)| < maxQueueSize then |old(logQueue)| + 1 else maxQueueSize
    {
      logQueue := logQueue + [DebugLog(now, condition, stackTrace, logType)];
      if |logQueue| > maxQueueSize {
        logQueue := logQueue[1..];
      }
    }

    /** The engine raising its log-message event: every registration of
        HandleLog receives the message, so the message is captured exactly
        once while subscribed and not at all otherwise. */
    method LogMessageReceived(condition: string, stackTrace: string, logType: LogType, now: TimeOfDay)
      requires Valid()
      modifies this`logQueue
      ensures Valid()
      ensures logQueue == if isEnabled
        then LastN(old(logQueue) + [DebugLog(now, condition, stackTrace, logType)], maxQueueSize)
        else old(logQueue)
    {
      var k := 0;
      while k < subscribers
        invariant 0 <= k <= subscribers
        invariant Valid()
        invariant logQueue == if k == 0 then old(logQueue)
          else LastN(old(logQueue) + [DebugLog(now, condition, stackTrace, logType)], maxQueueSize)
      {
        HandleLog(condition, stackTrace, logType, now);
        k := k + 1;
      }
    }
  }

  /** After a capture into a queue of non-zero capacity, the captured entry
      is written first when the newest is on top and last otherwise. */
  lemma CapturedEntryShown(q: seq<DebugLog>, e: DebugLog, cap: nat)
    requires cap > 0
    ensures var shown := LastN(q + [e], cap);
      && EntryText(e) <= Render(shown, true)
      && Render(shown, false)[|Render(shown, false)| - |EntryText(e)|..] == EntryText(e)
  {
    var shown := LastN(q + [e], cap);
    LastNShape(q + [e], cap);
    RenderNewest(shown);
  }

  /** One console: its display order and the text it shows. */
  class DebugUIManager {
    const store: LogStore
    var newestAtTop: bool
    var debugText: string

    ghost predicate Valid()
      reads this, store
    {
      store.Valid()
    }

    /** `newestAtTop` is the order loaded from the scene (true unless the
        scene overrides it); the text starts empty. */
    constructor (store: LogStore, newestAtTop: bool)
      ensures this.store == store
      ensures this.newestAtTop == newestAtTop && debugText == ""
    {
      this.store := store;
      this.newestAtTop := newestAtTop;
      debugText := "";
    }

    method OnEnable()
      requires Valid()
      modifies store`isEnabled, store`subscribers
      ensures Valid() && store.isEnabled && store.subscribers == 1
    {
      store.SetContinuousMode(true);
    }

    method OnDisable()
      requires Valid()
      modifies store`isEnabled, store`subscribers
      ensures Valid() && !store.isEnabled && store.subscribers == 0
    {
      store.SetContinuousMode(false);
    }

    /** Changes the display order and redraws; the queue is untouched. */
    method SetNewestOnTop(b: bool)
      modifies this`newestAtTop, this`debugText
      ensures newestAtTop == b
      ensures debugText == Render(store.logQueue, b)
    {
      newestAtTop := b;
      UpdateText();
    }

    /** Redraws the whole text from the queue, newest first or oldest first. */
    method UpdateText()
      modifies this`debugText
      ensures debugText == Render(store.logQueue, newestAtTop)
    {
      debugText := "";
      ghost var q, top := store.logQueue, newestAtTop;
      if newestAtTop {
        var i := |store.logQueue| - 1;
        while i >= 0
          invariant -1 <= i < |q| && store.logQueue == q
          invariant debugText == RenderEntries(Reversed(q[i + 1..]))
        {
          RenderNewestStep(q, i);
          WriteText(i);
          i := i - 1;
        }
        assert i == -1;
        RenderLoopBounds(q);
        assert debugText == Render(q, top);
      } else {
        var i := 0;
        while i < |store.logQueue|
          invariant 0 <= i <= |q| && store.logQueue == q
          invariant debugText == RenderEntries(q[..i])
        {
          RenderOldestStep(q, i);
          WriteText(i);
          i := i + 1;
        }
        assert i == |q|;
        RenderLoopBounds(q);
        assert debugText == Render(q, top);
      }
      assert store.logQueue == q && newestAtTop == top;
    }

    /** Empties the queue and redraws, which leaves the text empty. */
    method ClearConsole()
      requires Valid()
      modifies store`logQueue, this`debugText
      ensures Valid()
      ensures store.logQueue == [] && debugText == ""
    {
      store.logQueue := [];
      UpdateText();
    }

    /** Appends the text of entry `i`, piece by piece. */
    method WriteText(i: int)
      requires 0 <= i < |store.logQueue|
      modifies this`debugText
      ensures debugText == old(debugText) + EntryText(store.logQueue[i])
    {
      var entry := store.logQueue[i];
      ghost var before := debugText;
      debugText := debugText + Stamp(entry.dateTime);
      match entry.logType {
        case Error => debugText := debugText + SeverityText("red", entry.logType);
        case Assert => debugText := debugText + SeverityText("orange", entry.logType);
        case Warning => debugText := debugText + SeverityText("yellow", entry.logType);
        case Log => debugText := debugText + SeverityText("white", entry.logType);
        case Exception => debugText := debugText + SeverityText("red", entry.logType);
        case Undefined => assert debugText + SeverityLine(entry.logType) == debugText;
      }
      debugText := debugText + ConditionLine(entry.condition);
      debugText := debugText + StackTraceLine(entry.stackTrace);
      debugText := debugText + SeparatorLine();
      AppendIsAssociative(before, Stamp(entry.dateTime), SeverityLine(entry.logType),
        ConditionLine(entry.condition), StackTraceLine(entry.stackTrace), SeparatorLine());
    }
  }
}
