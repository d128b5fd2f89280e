/** Client code exercising the console through the contracts of its methods. */
module DebugUIScenarios {
  import opened DebugLogs
  import opened LogBuffer
  import opened Rendering
  import opened DebugUI
  import opened StringFacts

  /** The two orders of a three-entry queue. */
  lemma RenderThree(b: DebugLog, c: DebugLog, d: DebugLog)
    ensures Render([b, c, d], true) == EntryText(d) + EntryText(c) + EntryText(b)
    ensures Render([b, c, d], false) == EntryText(b) + EntryText(c) + EntryText(d)
  {
    var eb, ec, ed := EntryText(b), EntryText(c), EntryText(d);
    assert [b, c, d][..2] == [b, c] && [b, c][..1] == [b] && [b][..0] == [];
    assert Render([], true) == "" && Render([], false) == "";
    RenderNewest([b]);
    assert Render([b], true) == eb && Render([b], false) == eb;
    RenderNewest([b, c]);
    assert Render([b, c], true) == ec + eb && Render([b, c], false) == eb + ec;
    RenderNewest([b, c, d]);
    assert Render([b, c, d], true) == ed + (ec + eb);
    Concat3(ed, ec, eb);
  }


  /** Capacity three; A, B, C and D arrive in that order. The queue keeps
      B, C, D, and the newest-first text shows D, then C, then B. */
  method CapacityThreeScenario(a: DebugLog, b: DebugLog, c: DebugLog, d: DebugLog)
    requires a.logType == Log && b.logType == Error && c.logType == Warning && d.logType == Assert
  {
    var store := new LogStore(3);
    store.HandleLog(a.condition, a.stackTrace, a.logType, a.dateTime);
    assert store.logQueue == [a];
    store.HandleLog(b.condition, b.stackTrace, b.logType, b.dateTime);
    assert store.logQueue == [a, b];
    store.HandleLog(c.condition, c.stackTrace, c.logType, c.dateTime);
    assert store.logQueue == [a, b, c];
    store.HandleLog(d.condition, d.stackTrace, d.logType, d.dateTime);
    assert store.logQueue == [a, b, c, d][1..] == [b, c, d];
    assert SeverityColor(d.logType) == Some("orange");
    assert SeverityColor(c.logType) == Some("yellow");
    assert SeverityColor(b.logType) == Some("red");
    ConsoleScenario(store, b, c, d);
  }

  /** A console over the queue B, C, D: newest first it shows D, C, B; after
      switching the order it shows B, C, D over the same queue; clearing
      leaves no text. */
  method ConsoleScenario(store: LogStore, b: DebugLog, c: DebugLog, d: DebugLog)
    requires store.Valid() && store.logQueue == [b, c, d]
    modifies store
  {
    var console := new DebugUIManager(store, true);
    console.UpdateText();
    RenderThree(b, c, d);
    assert console.debugText == EntryText(d) + EntryText(c) + EntryText(b);

    console.SetNewestOnTop(false);
    assert store.logQueue == [b, c, d];
    assert console.debugText == EntryText(b) + EntryText(c) + EntryText(d);

    console.ClearConsole();
    assert console.debugText == "" && !console.newestAtTop;
  }

  /** A run of captures through HandleLog, in the order of `es`. The queue
      ends holding the last entries of the old queue followed by `es`, as
      many as fit; from an empty queue that is what `Replay` computes. */
  method CaptureAll(store: LogStore, es: seq<DebugLog>)
    requires store.Valid()
    modifies store
    ensures store.Valid()
    ensures store.logQueue == LastN(old(store.logQueue) + es, store.maxQueueSize)
    ensures old(store.logQueue) == [] ==> store.logQueue == Replay(es, store.maxQueueSize)
  {
    ghost var q0 := store.logQueue;
    var k := 0;
    while k < |es|
      invariant 0 <= k <= |es| && store.Valid()
      invariant store.logQueue == LastN(q0 + es[..k], store.maxQueueSize)
    {
      var e := es[k];
      LastNAbsorbs(q0 + es[..k], [e], store.maxQueueSize);
      assert q0 + es[..k + 1] == q0 + es[..k] + [e];
      store.HandleLog(e.condition, e.stackTrace, e.logType, e.dateTime);
      k := k + 1;
    }
    assert es[..|es|] == es;
    if q0 == [] {
      assert q0 + es == es;
      ReplayKeepsLast(es, store.maxQueueSize);
    }
  }

  /** Enabling twice registers HandleLog once, so one raised message is
      captured once; disabling twice leaves nothing registered. */
  method SubscriptionScenario(t: TimeOfDay)
  {
    var store := new LogStore(50);
    store.SetContinuousMode(true);
    store.SetContinuousMode(true);
    assert store.subscribers == 1;
    store.LogMessageReceived("hello", "", Log, t);
    assert store.logQueue == [DebugLog(t, "hello", "", Log)];

    store.SetContinuousMode(false);
    store.SetContinuousMode(false);
    assert store.subscribers == 0;
    store.LogMessageReceived("dropped", "", Warning, t);
    assert |store.logQueue| == 1;
  }
}
