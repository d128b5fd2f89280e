/** The text the console shows for a queue of log entries. */
module Rendering {
  import opened DebugLogs
  import opened StringFacts

  /** `n` copies of "- ". */
  function Dashes(n: nat): (r: string)
    ensures |r| == 2 * n
  {
    if n == 0 then "" else "- " + Dashes(n - 1)
  }

  /** The line written after every entry: forty "- " pairs, then a blank line. */
  function SeparatorLine(): string {
    Dashes(40) + "\n\n"
  }

  lemma {:induction false} DashesAt(n: nat, k: nat)
    requires k < 2 * n
    ensures Dashes(n)[k] == if k % 2 == 0 then '-' else ' '
  {
    if k >= 2 {
      DashesAt(n - 1, k - 2);
    }
  }

  /** The separator is forty dashes, each followed by a space, then two
      line breaks. */
  lemma SeparatorLineShape()
    ensures |SeparatorLine()| == 82
    ensures forall k :: 0 <= k < 80 ==> SeparatorLine()[k] == if k % 2 == 0 then '-' else ' '
    ensures SeparatorLine()[80..] == "\n\n"
  {
    forall k | 0 <= k < 80
      ensures SeparatorLine()[k] == if k % 2 == 0 then '-' else ' '
    {
      DashesAt(40, k);
    }
  }

  /** "[H:M:S] " with each field written without zero padding. */
  function Stamp(t: TimeOfDay): string {
    "[" + NatToString(t.hour) + ":" + NatToString(t.minute) + ":" + NatToString(t.second) + "] "
  }

  /** The colour tag of each severity; a type outside the enum has none. */
  function SeverityColor(t: LogType): Option<string> {
    match t
    case Error => Some("red")
    case Assert => Some("orange")
    case Warning => Some("yellow")
    case Log => Some("white")
    case Exception => Some("red")
    case Undefined => None
  }

  /** The member name C# prints for an enum value. */
  function TypeName(t: LogType): string
    requires !t.Undefined?
  {
    match t
    case Error => "Error"
    case Assert => "Assert"
    case Warning => "Warning"
    case Log => "Log"
    case Exception => "Exception"
  }

  /** The severity line for a type written in a given colour. */
  function SeverityText(color: string, t: LogType): string
    requires !t.Undefined?
  {
    "Severity: <color=\"" + color + "\"> " + TypeName(t) + " </color>\n "
  }

  function SeverityLine(t: LogType): string {
    match SeverityColor(t)
    case None => ""
    case Some(color) => SeverityText(color, t)
  }

  function ConditionLine(condition: string): string {
    "Condition: " + condition + " \n "
  }

  function StackTraceLine(stackTrace: string): string {
    "Stack trace: " + stackTrace + " \n"
  }

  /** Everything written for one entry. */
  function EntryText(e: DebugLog): (r: string)
    ensures |r| > |SeparatorLine()| && r[0] == '['
  {
    Stamp(e.dateTime) + SeverityLine(e.logType) + ConditionLine(e.condition)
      + StackTraceLine(e.stackTrace) + SeparatorLine()
  }

  function Reversed<T>(s: seq<T>): (r: seq<T>)
    ensures |r| == |s|
  {
    if s == [] then [] else Reversed(s[1..]) + [s[0]]
  }

  /** The entries in the order they are written: from the last index down
      to 0 when the newest is on top, from 0 up otherwise. */
  function DisplayOrder<T>(buf: seq<T>, newestAtTop: bool): seq<T> {
    if newestAtTop then Reversed(buf) else buf
  }

  /** The entry texts of `s`, concatenated in the order of `s`. */
  function RenderEntries(s: seq<DebugLog>): string {
    if s == [] then "" else RenderEntries(s[..|s| - 1]) + EntryText(s[|s| - 1])
  }

  /** The whole console text for a queue and an order flag. */
  function Render(buf: seq<DebugLog>, newestAtTop: bool): string {
    RenderEntries(DisplayOrder(buf, newestAtTop))
  }

  // ---------------------------------------------------------------- severity

  /** Red marks exactly errors and exceptions; only a type outside the enum
      gets no severity line. */
  lemma SeverityColours(t: LogType)
    ensures SeverityColor(t) == Some("red") <==> t == Error || t == Exception
    ensures SeverityColor(t) == Some("orange") <==> t == Assert
    ensures SeverityColor(t) == Some("yellow") <==> t == Warning
    ensures SeverityColor(t) == Some("white") <==> t == Log
    ensures SeverityLine(t) == "" <==> t.Undefined?
  {
  }

  // ------------------------------------------------------------------- stamp

  lemma DigitsExclude(s: string, c: char)
    requires AllDigits(s) && !IsDigit(c)
    ensures c !in s
  {
  }

  /** Splitting at the first occurrence of a character is unique. */
  lemma SplitAtFirst(x: string, y: string, x': string, y': string, c: char)
    requires c !in x && c !in x'
    requires x + [c] + y == x' + [c] + y'
    ensures x == x' && y == y'
  {
    var s := x + [c] + y;
    assert s[|x|] == c && s[|x'|] == c;
    assert forall j :: 0 <= j < |x| ==> s[j] == x[j];
    assert forall j :: 0 <= j < |x'| ==> s[j] == x'[j];
    assert x == s[..|x|] == x';
    assert y == s[|x| + 1..] == y';
  }

  /** The stamp determines the time it was made from: no two capture times
      share a stamp, although fields are not padded. */
  lemma StampInjective(a: TimeOfDay, b: TimeOfDay)
    ensures Stamp(a) == Stamp(b) <==> a == b
  {
    if Stamp(a) == Stamp(b) {
      var ha, ma, sa := NatToString(a.hour), NatToString(a.minute), NatToString(a.second);
      var hb, mb, sb := NatToString(b.hour), NatToString(b.minute), NatToString(b.second);
      DigitsExclude(ha, ':');
      DigitsExclude(hb, ':');
      DigitsExclude(ma, ':');
      DigitsExclude(mb, ':');
      DigitsExclude(sa, ']');
      DigitsExclude(sb, ']');
      StampShape(ha, ma, sa);
      StampShape(hb, mb, sb);
      SplitAtFirst(ha, ma + [':'] + (sa + [']'] + [' ']), hb, mb + [':'] + (sb + [']'] + [' ']), ':');
      SplitAtFirst(ma, sa + [']'] + [' '], mb, sb + [']'] + [' '], ':');
      SplitAtFirst(sa, [' '], sb, [' '], ']');
      NatToStringInjective(a.hour, b.hour);
      NatToStringInjective(a.minute, b.minute);
      NatToStringInjective(a.second, b.second);
    }
  }

  // ------------------------------------------------------------------- entry

  /** Each entry starts with its stamp, ends with the separator, and always
      holds the condition and stack-trace lines, even when they are empty. */
  lemma EntryLayout(e: DebugLog)
    ensures Stamp(e.dateTime) <= EntryText(e)
    ensures EntryText(e)[|EntryText(e)| - |SeparatorLine()|..] == SeparatorLine()
    ensures var k := |Stamp(e.dateTime)| + |SeverityLine(e.logType)|;
      EntryText(e)[k..k + |ConditionLine(e.condition)| + |StackTraceLine(e.stackTrace)|]
        == ConditionLine(e.condition) + StackTraceLine(e.stackTrace)
  {
    FivePieces(Stamp(e.dateTime), SeverityLine(e.logType), ConditionLine(e.condition),
      StackTraceLine(e.stackTrace), SeparatorLine());
  }

  // ------------------------------------------------------------------- order

  lemma {:induction false} ReversedAt<T>(s: seq<T>, k: nat)
    requires k < |s|
    ensures Reversed(s)[k] == s[|s| - 1 - k]
  {
    if k < |s| - 1 {
      ReversedAt(s[1..], k);
    }
  }

  lemma ReversedTwice<T>(s: seq<T>)
    ensures Reversed(Reversed(s)) == s
  {
    forall k | 0 <= k < |s|
      ensures Reversed(Reversed(s))[k] == s[k]
    {
      ReversedAt(Reversed(s), k);
      ReversedAt(s, |s| - 1 - k);
    }
  }

  /** Newest-first is the exact reverse of oldest-first, and the k-th entry
      written newest-first is the one at index Count-1-k. */
  lemma DisplayOrderReverses<T>(buf: seq<T>)
    ensures DisplayOrder(buf, true) == Reversed(DisplayOrder(buf, false))
    ensures DisplayOrder(buf, false) == Reversed(DisplayOrder(buf, true))
    ensures |DisplayOrder(buf, true)| == |buf|
    ensures forall k :: 0 <= k < |buf| ==> DisplayOrder(buf, true)[k] == buf[|buf| - 1 - k]
  {
    ReversedTwice(buf);
    forall k | 0 <= k < |buf|
      ensures DisplayOrder(buf, true)[k] == buf[|buf| - 1 - k]
    {
      ReversedAt(buf, k);
    }
  }

  lemma {:induction false} ReversedSnoc<T>(s: seq<T>, x: T)
    ensures Reversed(s + [x]) == [x] + Reversed(s)
  {
    if s != [] {
      assert (s + [x])[1..] == s[1..] + [x];
      ReversedSnoc(s[1..], x);
    }
  }

  // ------------------------------------------------------------------ render

  /** Rendering distributes over concatenation: entries are written
      independently, one after the other. */
  lemma {:induction false} RenderEntriesAppend(a: seq<DebugLog>, b: seq<DebugLog>)
    ensures RenderEntries(a + b) == RenderEntries(a) + RenderEntries(b)
  {
    if b == [] {
      assert a + b == a;
    } else {
      var init, last := b[..|b| - 1], b[|b| - 1];
      assert (a + b)[..|a + b| - 1] == a + init;
      assert (a + b)[|a + b| - 1] == last;
      calc {
        RenderEntries(a + b);
        RenderEntries(a + init) + EntryText(last);
        { RenderEntriesAppend(a, init); }
        RenderEntries(a) + RenderEntries(init) + EntryText(last);
        { Concat3(RenderEntries(a), RenderEntries(init), EntryText(last)); }
        RenderEntries(a) + (RenderEntries(init) + EntryText(last));
        RenderEntries(a) + RenderEntries(b);
      }
    }
  }

  /** Writing index i after indices above it, newest first. */
  lemma RenderNewestStep(q: seq<DebugLog>, i: nat)
    requires i < |q|
    ensures RenderEntries(Reversed(q[i..])) == RenderEntries(Reversed(q[i + 1..])) + EntryText(q[i])
  {
    assert q[i..][1..] == q[i + 1..];
    var r := Reversed(q[i + 1..]);
    assert Reversed(q[i..]) == r + [q[i]];
    assert (r + [q[i]])[..|r|] == r;
  }

  /** Writing index i after indices below it, oldest first. */
  lemma RenderOldestStep(q: seq<DebugLog>, i: nat)
    requires i < |q|
    ensures RenderEntries(q[..i + 1]) == RenderEntries(q[..i]) + EntryText(q[i])
  {
    assert q[..i + 1][..i] == q[..i];
  }

  /** Where the two loops of a redraw start and finish. */
  lemma RenderLoopBounds(q: seq<DebugLog>)
    ensures RenderEntries(Reversed(q[|q|..])) == "" && RenderEntries(q[..0]) == ""
    ensures Render(q, true) == RenderEntries(Reversed(q[0..]))
    ensures Render(q, false) == RenderEntries(q[..|q|])
  {
    assert q[|q|..] == [] && q[..0] == [];
    assert q[0..] == q && q[..|q|] == q;
  }

  /** The text is empty exactly when the queue is, in either order. */
  lemma RenderEmptyIff(buf: seq<DebugLog>, newestAtTop: bool)
    ensures Render(buf, newestAtTop) == "" <==> buf == []
  {
    var s := DisplayOrder(buf, newestAtTop);
    if s != [] {
      assert |RenderEntries(s)| >= |EntryText(s[|s| - 1])| > 0;
    }
  }

  /** With the newest on top, the newest entry is written first; otherwise
      it is written last. */
  lemma RenderNewest(buf: seq<DebugLog>)
    requires buf != []
    ensures var newest, older := buf[|buf| - 1], buf[..|buf| - 1];
      && Render(buf, true) == EntryText(newest) + Render(older, true)
      && Render(buf, false) == Render(older, false) + EntryText(newest)
  {
    var newest, older := buf[|buf| - 1], buf[..|buf| - 1];
    assert buf == older + [newest];
    ReversedSnoc(older, newest);
    RenderEntriesCons(newest, Reversed(older));
  }

  lemma RenderEntriesCons(x: DebugLog, s: seq<DebugLog>)
    ensures RenderEntries([x] + s) == EntryText(x) + RenderEntries(s)
  {
    RenderEntriesAppend([x], s);
    assert RenderEntries([x]) == EntryText(x) by {
      assert [x][..0] == [];
      assert "" + EntryText(x) == EntryText(x);
    }
  }
}
