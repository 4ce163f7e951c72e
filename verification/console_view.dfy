/**
 The in-game console view: which console messages it shows and how many blank lines it
 pads with. A message is shown when its area, its type and its age all pass the view's
 filter settings; the view considers only the newest `maxLines` messages and keeps the
 passing ones in their original order.
 */
module ConsoleView {
  import opened Common

  /** Where a message came from. `UnlistedArea` stands for any other enumerator value. */
  datatype MessageArea = AreaInfo | AreaLog | AreaActor | AreaTerrn | AreaScript | UnlistedArea(code: int)

  /** Severity or kind of a message. `UnlistedType` stands for any other enumerator value. */
  datatype MessageType =
    | TypeHelp | TypeTitle | TypeSystemReply | TypeSystemError | TypeSystemWarning | TypeSystemNotice
    | UnlistedType(code: int)

  datatype Message = Message(area: MessageArea, msgType: MessageType, timestampMs: int, text: string, netUserId: int)

  /** The view's settings (the `cvw_*` members) and its display list. */
  datatype ConsoleView = ConsoleView(
    maxLines: nat,
    alignBottom: bool,
    areaEcho: bool,
    areaScript: bool,
    areaActor: bool,
    areaTerrn: bool,
    typeNotice: bool,
    typeWarning: bool,
    typeError: bool,
    durationMs: int,
    displayList: seq<Message>)

  // ---------------------------------------------------------------------------------------
  // Reference tables: each area and type with the setting that admits it

  predicate AreaAdmitted(v: ConsoleView, a: MessageArea) {
    match a
    case AreaInfo => true
    case AreaLog => v.areaEcho
    case AreaActor => v.areaActor
    case AreaTerrn => v.areaTerrn
    case AreaScript => v.areaScript
    case UnlistedArea(_) => false
  }

  predicate TypeAdmitted(v: ConsoleView, t: MessageType) {
    match t
    case TypeHelp => true
    case TypeTitle => true
    case TypeSystemReply => true
    case TypeSystemError => v.typeError
    case TypeSystemWarning => v.typeWarning
    case TypeSystemNotice => v.typeNotice
    case UnlistedType(_) => false
  }

  /** A message is recent enough when no time window is set or its age fits in the window. */
  predicate RecentEnough(v: ConsoleView, m: Message, nowMs: int) {
    v.durationMs == 0 || nowMs - m.timestampMs <= v.durationMs
  }

  // ---------------------------------------------------------------------------------------
  // The filter, written as the view evaluates it

  /** `MessageFilter`: the area check, the type check and the time check, all three. */
  predicate MessageFilter(v: ConsoleView, m: Message, nowMs: int)
    ensures MessageFilter(v, m, nowMs) <==>
              AreaAdmitted(v, m.area) && TypeAdmitted(v, m.msgType) && RecentEnough(v, m, nowMs)
  {
    var areaOk :=
      m.area == AreaInfo
      || (m.area == AreaLog && v.areaEcho)
      || (m.area == AreaActor && v.areaActor)
      || (m.area == AreaTerrn && v.areaTerrn)
      || (m.area == AreaScript && v.areaScript);
    var typeOk :=
      m.msgType == TypeHelp
      || m.msgType == TypeTitle
      || m.msgType == TypeSystemReply
      || (m.msgType == TypeSystemError && v.typeError)
      || (m.msgType == TypeSystemWarning && v.typeWarning)
      || (m.msgType == TypeSystemNotice && v.typeNotice);
    var timeOk := v.durationMs == 0 || m.timestampMs + v.durationMs >= nowMs;
    typeOk && areaOk && timeOk
  }

  /** With no time window the filter ignores timestamps altogether. */
  lemma NoDurationIgnoresTime(v: ConsoleView, m: Message, nowMs: int, otherNowMs: int, otherStampMs: int)
    requires v.durationMs == 0
    ensures MessageFilter(v, m, nowMs) == MessageFilter(v, m.(timestampMs := otherStampMs), otherNowMs)
  {
  }

  /** A message that passes keeps passing when only its timestamp grows. */
  lemma NewerMessagePasses(v: ConsoleView, m: Message, nowMs: int, laterStampMs: int)
    requires laterStampMs >= m.timestampMs
    requires MessageFilter(v, m, nowMs)
    ensures MessageFilter(v, m.(timestampMs := laterStampMs), nowMs)
  {
  }

  // ---------------------------------------------------------------------------------------
  // Windowing and filtering

  /** The newest `min(maxLines, |msgs|)` messages, oldest first. */
  function DisplayWindow(maxLines: nat, msgs: seq<Message>): (w: seq<Message>)
    ensures |w| == MinNat(maxLines, |msgs|)
    ensures w == msgs[|msgs| - |w|..]
  {
    msgs[|msgs| - MinNat(maxLines, |msgs|)..]
  }

  /** Reference definition: the messages of `s` that pass the filter, in their order. */
  function Passing(v: ConsoleView, s: seq<Message>, nowMs: int): seq<Message>
    decreases |s|
  {
    if |s| == 0 then []
    else
      var last := s[|s| - 1];
      Passing(v, s[..|s| - 1], nowMs) + (if MessageFilter(v, last, nowMs) then [last] else [])
  }

  /** Increasing positions of `s` whose messages make up `Passing(v, s, nowMs)`. */
  function PassingIndices(v: ConsoleView, s: seq<Message>, nowMs: int): seq<nat>
    decreases |s|
  {
    if |s| == 0 then []
    else
      PassingIndices(v, s[..|s| - 1], nowMs) + (if MessageFilter(v, s[|s| - 1], nowMs) then [|s| - 1] else [])
  }

  ghost predicate StrictlyIncreasing(idx: seq<nat>) {
    forall a, b :: 0 <= a < b < |idx| ==> idx[a] < idx[b]
  }

  /**
   `Passing` is exactly the order-preserving subsequence of the passing messages: its
   positions increase, each names a passing message, and every passing position is one.
   */
  lemma {:induction false} PassingIsFilteredSubsequence(v: ConsoleView, s: seq<Message>, nowMs: int)
    ensures var r := Passing(v, s, nowMs); var idx := PassingIndices(v, s, nowMs);
      && |idx| == |r|
      && StrictlyIncreasing(idx)
      && (forall k :: 0 <= k < |idx| ==> idx[k] < |s| && r[k] == s[idx[k]] && MessageFilter(v, s[idx[k]], nowMs))
      && (forall j :: 0 <= j < |s| && MessageFilter(v, s[j], nowMs) ==> j in idx)
    decreases |s|
  {
    if |s| > 0 {
      var init := s[..|s| - 1];
      PassingIsFilteredSubsequence(v, init, nowMs);
      var r0 := Passing(v, init, nowMs);
      var idx0 := PassingIndices(v, init, nowMs);
      assert forall k :: 0 <= k < |idx0| ==> idx0[k] < |init|;
      var idx := PassingIndices(v, s, nowMs);
      var r := Passing(v, s, nowMs);
      forall j | 0 <= j < |s| && MessageFilter(v, s[j], nowMs)
        ensures j in idx
      {
        if j < |s| - 1 {
          assert s[j] == init[j];
          assert j in idx0;
        } else {
          assert idx == idx0 + [|s| - 1];
        }
      }
      forall k | 0 <= k < |idx|
        ensures idx[k] < |s| && r[k] == s[idx[k]] && MessageFilter(v, s[idx[k]], nowMs)
      {
        if k < |idx0| {
          assert idx[k] == idx0[k] && r[k] == r0[k];
          assert init[idx0[k]] == s[idx0[k]];
        }
      }
    }
  }

  /** Every shown message passes, and every passing message of the input is shown. */
  lemma PassingMembership(v: ConsoleView, s: seq<Message>, nowMs: int, m: Message)
    ensures m in Passing(v, s, nowMs) <==> m in s && MessageFilter(v, m, nowMs)
  {
    PassingIsFilteredSubsequence(v, s, nowMs);
    var r := Passing(v, s, nowMs);
    var idx := PassingIndices(v, s, nowMs);
    if m in r {
      var k :| 0 <= k < |r| && r[k] == m;
      assert s[idx[k]] == m;
    }
    if m in s && MessageFilter(v, m, nowMs) {
      var j :| 0 <= j < |s| && s[j] == m;
      assert j in idx;
      var k :| 0 <= k < |idx| && idx[k] == j;
      assert r[k] == m;
    }
  }

  /** Filtering never lengthens a sequence. */
  lemma {:induction false} PassingLength(v: ConsoleView, s: seq<Message>, nowMs: int)
    ensures |Passing(v, s, nowMs)| <= |s|
    decreases |s|
  {
    if |s| > 0 {
      PassingLength(v, s[..|s| - 1], nowMs);
    }
  }

  // ---------------------------------------------------------------------------------------
  // Drawing

  datatype TextColour = HighlightColour | ErrorColour | WarningColour | SuccessColour | HelpColour | PlainColour

  /** One rendered console line: an optional player-name prefix, a colour and the text. */
  datatype ConsoleLine = ConsoleLine(userPrefix: bool, colour: TextColour, text: string)

  function RenderLine(m: Message): (l: ConsoleLine)
    ensures l.text == m.text
    ensures l.userPrefix <==> m.netUserId != 0
    ensures l.colour == HighlightColour <==> m.msgType == TypeTitle
    ensures l.colour == ErrorColour <==> m.msgType == TypeSystemError
    ensures l.colour == WarningColour <==> m.msgType == TypeSystemWarning
    ensures l.colour == SuccessColour <==> m.msgType == TypeSystemReply
    ensures l.colour == HelpColour <==> m.msgType == TypeHelp
    ensures l.colour == PlainColour <==> (m.msgType == TypeSystemNotice || m.msgType.UnlistedType?)
  {
    ConsoleLine(
      m.netUserId != 0,
      match m.msgType
      case TypeTitle => HighlightColour
      case TypeSystemError => ErrorColour
      case TypeSystemWarning => WarningColour
      case TypeSystemReply => SuccessColour
      case TypeHelp => HelpColour
      case _ => PlainColour,
      m.text)
  }

  /**
   A coloured line tells its message's type: two messages drawn in the same colour other
   than the plain one have the same type. The colour depends on nothing but the type.
   */
  lemma ColourIdentifiesType(m1: Message, m2: Message)
    ensures (RenderLine(m1).colour == RenderLine(m2).colour && RenderLine(m1).colour != PlainColour) ==>
              m1.msgType == m2.msgType
    ensures m1.msgType == m2.msgType ==> RenderLine(m1).colour == RenderLine(m2).colour
  {
  }

  /**
   `DrawConsoleMessages`: rebuilds the display list from scratch out of the newest messages
   that pass the filter, counts the blank lines drawn for bottom alignment, and renders the
   list.
   */
  method DrawConsoleMessages(v: ConsoleView, msgs: seq<Message>, nowMs: int)
    returns (v': ConsoleView, blankLines: nat, lines: seq<ConsoleLine>)
    ensures v' == v.(displayList := Passing(v, DisplayWindow(v.maxLines, msgs), nowMs))
    ensures |v'.displayList| <= MinNat(v.maxLines, |msgs|)
    ensures forall m :: m in v'.displayList ==> m in msgs && MessageFilter(v, m, nowMs)
    ensures forall j :: |msgs| - MinNat(v.maxLines, |msgs|) <= j < |msgs| && MessageFilter(v, msgs[j], nowMs)
              ==> msgs[j] in v'.displayList
    ensures v.alignBottom ==> blankLines + |v'.displayList| == v.maxLines
    ensures !v.alignBottom ==> blankLines == 0
    ensures |lines| == |v'.displayList|
    ensures forall k :: 0 <= k < |lines| ==> lines[k] == RenderLine(v'.displayList[k])
  {
    var dispMax := MinNat(v.maxLines, |msgs|);
    var window := msgs[|msgs| - dispMax..];
    var list: seq<Message> := [];
    var i := 0;
    while i < |window|
      invariant 0 <= i <= |window|
      invariant list == Passing(v, window[..i], nowMs)
    {
      assert window[..i + 1][..i] == window[..i];
      if MessageFilter(v, window[i], nowMs) {
        list := list + [window[i]];
      }
      i := i + 1;
    }
    assert window[..i] == window;
    v' := v.(displayList := list);
    PassingLength(v, window, nowMs);

    forall m | m in list
      ensures m in msgs && MessageFilter(v, m, nowMs)
    {
      PassingMembership(v, window, nowMs, m);
    }
    forall j | |msgs| - dispMax <= j < |msgs| && MessageFilter(v, msgs[j], nowMs)
      ensures msgs[j] in list
    {
      assert window[j - (|msgs| - dispMax)] == msgs[j];
      PassingMembership(v, window, nowMs, msgs[j]);
    }

    blankLines := 0;
    if v.alignBottom {
      var n := |list|;
      while n < v.maxLines
        invariant |list| <= n <= v.maxLines
        invariant blankLines == n - |list|
      {
        blankLines := blankLines + 1;
        n := n + 1;
      }
    }

    lines := RenderLines(list);
  }

  /** The drawing loop over the display list: one rendered line per entry, in order. */
  method RenderLines(list: seq<Message>) returns (lines: seq<ConsoleLine>)
    ensures |lines| == |list|
    ensures forall k :: 0 <= k < |lines| ==> lines[k] == RenderLine(list[k])
  {
    lines := [];
    var k := 0;
    while k < |list|
      invariant 0 <= k <= |list|
      invariant |lines| == k
      invariant forall q :: 0 <= q < k ==> lines[q] == RenderLine(list[q])
    {
      lines := lines + [RenderLine(list[k])];
      k := k + 1;
    }
  }

  /** The filter never looks at the previous display list. */
  lemma {:induction false} PassingIgnoresDisplayList(v: ConsoleView, old_list: seq<Message>, s: seq<Message>, nowMs: int)
    ensures Passing(v.(displayList := old_list), s, nowMs) == Passing(v, s, nowMs)
    decreases |s|
  {
    if |s| > 0 {
      PassingIgnoresDisplayList(v, old_list, s[..|s| - 1], nowMs);
    }
  }

  /**
   The list is cleared before it is rebuilt: redrawing a view that was just drawn, over the
   same messages and settings, yields the same display list.
   */
  lemma RedrawIsStable(v: ConsoleView, msgs: seq<Message>, nowMs: int)
    ensures var w := DisplayWindow(v.maxLines, msgs);
      var v1 := v.(displayList := Passing(v, w, nowMs));
      v1.(displayList := Passing(v1, w, nowMs)) == v1
  {
    var w := DisplayWindow(v.maxLines, msgs);
    PassingIgnoresDisplayList(v, Passing(v, w, nowMs), w, nowMs);
  }
}
