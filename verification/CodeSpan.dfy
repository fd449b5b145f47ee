/** The code-span printer of the Markdown report, read back by section 6.1 (Code spans) of the
    CommonMark specification: whatever the text, the printed form is one code span that its own
    content cannot close, and its content is the text for exactly the texts a code span can hold. */
module CodeSpan {
  import opened Sequences
  import opened Strings

  predicate IsTick(c: char) { c == '`' }

  function Ticks(n: nat): string { seq(n, _ => '`') }

  // ----- the printer

  /** The runs of backticks in a text, each as long as it can be. */
  function TickRuns(s: string): (runs: seq<string>)
    decreases |s|
  {
    if s == "" then []
    else if IsTick(s[0]) then
      var k := RunLength(s, IsTick);
      [s[..k]] + TickRuns(s[k..])
    else TickRuns(s[1..])
  }

  function Longest(runs: seq<string>): (n: nat)
    ensures forall r | r in runs :: |r| <= n
  {
    if runs == [] then 0
    else if |runs[0]| < Longest(runs[1..]) then Longest(runs[1..])
    else |runs[0]|
  }

  predicate NeedsPadding(text: string) {
    text != "" && (text[0] in ['`', ' '] || text[|text| - 1] in ['`', ' '])
  }

  /** What stands between the two fences. */
  function Inside(text: string): string { if NeedsPadding(text) then " " + text + " " else text }

  function Fence(text: string): (f: string)
    ensures f != ""
  {
    Ticks(Longest(TickRuns(text)) + 1)
  }

  function MdCode(text: string): string { Fence(text) + Inside(text) + Fence(text) }

  // ----- section 6.1 of CommonMark

  predicate AllSpaces(s: string) { forall c | c in s :: c == ' ' }

  predicate IsLineEnding(c: char) { c == '\n' || c == '\r' }

  function LineEndingLength(s: string): (n: nat)
    requires s != ""
    ensures 1 <= n <= |s|
  {
    if |s| >= 2 && s[0] == '\r' && s[1] == '\n' then 2 else 1
  }

  /** Line endings become spaces, a carriage return and the line feed after it one space. */
  function LineEndingsToSpaces(s: string): (r: string)
    ensures s != "" ==> r != ""
    ensures forall c | c in r :: !IsLineEnding(c)
    decreases |s|
  {
    if s == "" then ""
    else if IsLineEnding(s[0]) then " " + LineEndingsToSpaces(s[LineEndingLength(s)..])
    else [s[0]] + LineEndingsToSpaces(s[1..])
  }

  /** One space is taken off both ends when there is one on each and something else between. */
  function StripOneSpace(s: string): (r: string)
    ensures s != "" ==> r != ""
    ensures forall c | c in r :: c in s
  {
    if s != "" && s[0] == ' ' && s[|s| - 1] == ' ' && !AllSpaces(s) then
      assert exists i | 0 <= i < |s| :: s[i] != ' ';
      s[1..|s| - 1]
    else s
  }

  function Content(s: string): string { StripOneSpace(LineEndingsToSpaces(s)) }

  /** Where the first backtick string of exactly n backticks starts. */
  function Closing(s: string, n: nat): (r: Option<nat>)
    ensures r.Some? ==> r.value + n <= |s|
    ensures r.Some? && s != "" && !IsTick(s[0]) ==> r.value > 0
    decreases |s|
  {
    if s == "" then None
    else
      var k := RunLength(s, IsTick);
      if k > 0 && k == n then Some(0)
      else
        var step := if k > 0 then k else 1;
        match Closing(s[step..], n)
        case None => None
        case Some(i) => Some(step + i)
  }

  /** A code span at the start of a text: where its content starts and ends, and what follows it. */
  datatype Span = Span(start: nat, end: nat, next: nat)

  function SpanAt(s: string): (r: Option<Span>)
    requires s != ""
    ensures r.Some? ==> 0 < r.value.start < r.value.end <= r.value.next <= |s|
  {
    var n := RunLength(s, IsTick);
    if n == 0 then None
    else
      match Closing(s[n..], n)
      case None => None
      case Some(i) => Some(Span(n, n + i, n + i + n))
  }

  /** What is passed over when no span starts here: a backslash takes away the meaning of a backtick
      or backslash after it, and an opening backtick string that nothing closes is ordinary text. */
  function Ordinary(s: string): (n: nat)
    requires s != ""
    ensures 0 < n <= |s|
  {
    if s[0] == '\\' && |s| >= 2 && s[1] in ['`', '\\'] then 2
    else if IsTick(s[0]) then RunLength(s, IsTick)
    else 1
  }

  /** The contents of the code spans of a text, in order. */
  function Spans(s: string): (spans: seq<string>)
    ensures "" !in spans
    decreases |s|
  {
    if s == "" then []
    else
      match SpanAt(s)
      case None => Spans(s[Ordinary(s)..])
      case Some(span) => [Content(s[span.start..span.end])] + Spans(s[span.next..])
  }

  // ----- the printer against the reader

  lemma {:induction false} RunsStep(s: string)
    requires s != ""
    ensures IsTick(s[0]) ==> RunLength(s, IsTick) <= Longest(TickRuns(s))
    ensures IsTick(s[0]) ==> Longest(TickRuns(s[RunLength(s, IsTick)..])) <= Longest(TickRuns(s))
    ensures !IsTick(s[0]) ==> TickRuns(s[1..]) == TickRuns(s)
  {
    if IsTick(s[0]) {
      var k := RunLength(s, IsTick);
      assert TickRuns(s)[0] == s[..k] && TickRuns(s)[1..] == TickRuns(s[k..]);
    }
  }

  /** No backtick string inside the body is as long as the fence, so the fence closes the span. */
  lemma {:induction false} ClosesAtTheFence(body: string, n: nat, tail: string)
    requires body != "" ==> !IsTick(body[|body| - 1])
    requires Longest(TickRuns(body)) < n
    requires Closing(tail, n) == Some(0)
    ensures Closing(body + tail, n) == Some(|body|)
    decreases |body|
  {
    hide TickRuns, Longest, Closing, RunLength;
    if body == "" {
      assert body + tail == tail;
    } else {
      RunsStep(body);
      RunInside(body);
      var step := if RunLength(body, IsTick) > 0 then RunLength(body, IsTick) else 1;
      RunInFront(body, tail, step);
      ClosesAtTheFence(body[step..], n, tail);
      ClosingStep(body + tail, n, step);
    }
  }

  lemma RunInside(body: string)
    requires body != "" && !IsTick(body[|body| - 1])
    ensures RunLength(body, IsTick) < |body|
  {
  }

  lemma FenceCloses(n: nat, rest: string)
    requires n > 0
    requires rest != "" ==> !IsTick(rest[0])
    ensures Closing(Ticks(n) + rest, n) == Some(0)
  {
    RunLengthIs(Ticks(n) + rest, IsTick, n);
  }

  lemma RunInFront(body: string, tail: string, step: nat)
    requires RunLength(body, IsTick) < |body|
    requires step == if RunLength(body, IsTick) > 0 then RunLength(body, IsTick) else 1
    ensures RunLength(body + tail, IsTick) == RunLength(body, IsTick)
    ensures (body + tail)[step..] == body[step..] + tail
  {
    var k := RunLength(body, IsTick);
    assert forall i | 0 <= i <= k :: (body + tail)[i] == body[i];
    RunLengthIs(body + tail, IsTick, k);
  }

  lemma ClosingStep(s: string, n: nat, step: nat)
    requires s != "" && RunLength(s, IsTick) != n
    requires n > 0 && 0 < step <= |s|
    requires step == if RunLength(s, IsTick) > 0 then RunLength(s, IsTick) else 1
    ensures Closing(s, n) ==
            match Closing(s[step..], n)
            case None => None
            case Some(i) => Some(step + i)
  {
  }

  lemma InsideRuns(text: string)
    requires text != ""
    ensures Inside(text) != "" && !IsTick(Inside(text)[0]) && !IsTick(Inside(text)[|Inside(text)| - 1])
    ensures Longest(TickRuns(Inside(text))) == Longest(TickRuns(text))
  {
    if NeedsPadding(text) {
      var s := " " + text + " ";
      assert s[1..] == text + " ";
      SpaceAtTheEnd(text);
    }
  }

  lemma {:induction false} SpaceAtTheEnd(text: string)
    ensures TickRuns(text + " ") == TickRuns(text)
    decreases |text|
  {
    var s := text + " ";
    if text == "" {
      assert s[1..] == "";
    } else if IsTick(text[0]) {
      var k := RunLength(text, IsTick);
      RunLengthIs(s, IsTick, k);
      assert s[..k] == text[..k];
      assert s[k..] == text[k..] + " ";
      SpaceAtTheEnd(text[k..]);
    } else {
      assert s[1..] == text[1..] + " ";
      SpaceAtTheEnd(text[1..]);
    }
  }

  /** Each of the n characters from i on is a backtick. */
  predicate TicksAt(s: string, i: nat, n: nat) { i + n <= |s| && forall j | i <= j < i + n :: s[j] == '`' }

  lemma NoRuns()
    ensures Longest(TickRuns("")) == 0
  {
  }

  lemma LongestStep(s: string)
    requires s != ""
    ensures var k := RunLength(s, IsTick);
            var rest := Longest(TickRuns(s[if k > 0 then k else 1..]));
            Longest(TickRuns(s)) == if k < rest then rest else k
  {
    var k := RunLength(s, IsTick);
    if IsTick(s[0]) { assert TickRuns(s)[0] == s[..k] && TickRuns(s)[1..] == TickRuns(s[k..]); }
  }

  lemma {:induction false} RunsHoldTicks(s: string, i: nat, n: nat)
    requires n > 0 && TicksAt(s, i, n)
    ensures n <= Longest(TickRuns(s))
    decreases |s|
  {
    hide Longest, TickRuns, RunLength;
    LongestStep(s);
    assert s[i] == '`';
    var k := RunLength(s, IsTick);
    var step := if k > 0 then k else 1;
    if i >= step {
      RunsHoldTicks(s[step..], i - step, n);
    }
  }

  lemma {:induction false} LongestIsThere(s: string)
    ensures exists i: nat :: TicksAt(s, i, Longest(TickRuns(s)))
    decreases |s|
  {
    hide Longest, TickRuns, RunLength;
    if s == "" {
      NoRuns();
      assert TicksAt(s, 0, 0);
    } else {
      LongestStep(s);
      var k := RunLength(s, IsTick);
      var step := if k > 0 then k else 1;
      LongestIsThere(s[step..]);
      var i: nat :| TicksAt(s[step..], i, Longest(TickRuns(s[step..])));
      assert TicksAt(s, step + i, Longest(TickRuns(s[step..]))) && TicksAt(s, 0, k);
    }
  }

  /** The fence is the shortest one that the text does not hold: it is no part of the text, and any
      shorter one, if there is a shorter one, is. */
  lemma FenceIsShortest(text: string)
    ensures forall i: nat :: !TicksAt(text, i, |Fence(text)|)
    ensures var shorter := |Fence(text)| - 1; shorter > 0 ==> exists i: nat :: TicksAt(text, i, shorter)
  {
    hide TicksAt, TickRuns, Longest;
    LongestIsThere(text);
    forall i: nat ensures !TicksAt(text, i, |Fence(text)|) {
      if TicksAt(text, i, |Fence(text)|) { RunsHoldTicks(text, i, |Fence(text)|); }
    }
  }

  /** Text in which nothing opens a span and nothing is escaped. */
  predicate Plain(s: string) { forall c | c in s :: c != '`' && c != '\\' }

  lemma {:induction false} PlainHasNoSpans(pre: string, s: string)
    requires Plain(pre)
    ensures Spans(pre + s) == Spans(s)
  {
    if pre == "" {
      assert pre + s == s;
    } else {
      assert pre[0] in pre && forall c | c in pre[1..] :: c in pre;
      assert (pre + s)[1..] == pre[1..] + s;
      PlainHasNoSpans(pre[1..], s);
    }
  }

  /** Whatever non-empty text is printed, it comes out as one code span and what follows is read
      as if the span were not there: the content cannot escape. */
  lemma NothingEscapes(pre: string, text: string, rest: string)
    requires text != "" && Plain(pre)
    requires rest != "" ==> !IsTick(rest[0])
    ensures Spans(pre + MdCode(text) + rest) == [Content(Inside(text))] + Spans(rest)
  {
    hide Spans, Ticks, Longest, TickRuns;
    var inside, n := Inside(text), Longest(TickRuns(text)) + 1;
    var s := Ticks(n) + (inside + (Ticks(n) + rest));
    assert MdCode(text) == Ticks(n) + inside + Ticks(n);
    Regroup(pre, Ticks(n), inside, rest);
    PlainHasNoSpans(pre, s);
    InsideRuns(text);
    OneSpan(inside, n, rest);
  }

  lemma Regroup(pre: string, fence: string, inside: string, rest: string)
    ensures pre + (fence + inside + fence) + rest == pre + (fence + (inside + (fence + rest)))
  {
    assert (fence + inside + fence) + rest == fence + (inside + (fence + rest));
  }

  lemma OneSpan(inside: string, n: nat, rest: string)
    requires inside != "" && !IsTick(inside[0]) && !IsTick(inside[|inside| - 1])
    requires Longest(TickRuns(inside)) < n
    requires rest != "" ==> !IsTick(rest[0])
    ensures Spans(Ticks(n) + (inside + (Ticks(n) + rest))) == [Content(inside)] + Spans(rest)
  {
    hide *;
    FenceCloses(n, rest);
    ClosesAtTheFence(inside, n, Ticks(n) + rest);
    FirstOf(inside, Ticks(n) + rest);
    SpanOpens(n, inside + (Ticks(n) + rest), |inside|);
    AfterTheFence(inside, n, rest);
  }

  lemma FirstOf(inside: string, rest: string)
    requires inside != ""
    ensures inside + rest != "" && (inside + rest)[0] == inside[0]
  {
  }

  lemma AfterTheFence(inside: string, n: nat, rest: string)
    ensures |inside| + n <= |inside + (Ticks(n) + rest)|
    ensures (inside + (Ticks(n) + rest))[..|inside|] == inside && (inside + (Ticks(n) + rest))[|inside| + n..] == rest
  {
    assert |Ticks(n)| == n;
  }

  lemma SpanOpens(n: nat, body: string, i: nat)
    requires n > 0 && body != "" && !IsTick(body[0])
    requires Closing(body, n) == Some(i)
    ensures Spans(Ticks(n) + body) == [Content(body[..i])] + Spans(body[i + n..])
  {
    hide Spans, SpanAt, Content, Closing;
    SpanAtTheFence(n, body, i);
    SpansUnfold(Ticks(n) + body, Span(n, n + i, n + i + n));
    SliceOfTail(Ticks(n), body, i, n);
  }

  lemma SpanAtTheFence(n: nat, body: string, i: nat)
    requires n > 0 && body != "" && !IsTick(body[0])
    requires Closing(body, n) == Some(i)
    ensures SpanAt(Ticks(n) + body) == Some(Span(n, n + i, n + i + n))
  {
    hide Closing;
    RunLengthIs(Ticks(n) + body, IsTick, n);
    assert (Ticks(n) + body)[n..] == body;
  }

  lemma SpansUnfold(s: string, span: Span)
    requires s != "" && SpanAt(s) == Some(span)
    ensures Spans(s) == [Content(s[span.start..span.end])] + Spans(s[span.next..])
  {
    hide SpanAt, Content;
  }

  lemma SliceOfTail(front: string, body: string, i: nat, n: nat)
    requires i + n <= |body|
    ensures (front + body)[|front|..|front| + i] == body[..i]
    ensures (front + body)[|front| + i + n..] == body[i + n..]
  {
  }

  predicate HasLineEnding(s: string) { exists c | c in s :: IsLineEnding(c) }

  lemma {:induction false} LineEndingsKept(s: string)
    requires !HasLineEnding(s)
    ensures LineEndingsToSpaces(s) == s
  {
    if s != "" {
      assert s[0] in s && forall c | c in s[1..] :: c in s;
      LineEndingsKept(s[1..]);
      assert [s[0]] + s[1..] == s;
    }
  }

  lemma PlainInFront(c: char, s: string)
    requires !IsLineEnding(c)
    ensures LineEndingsToSpaces([c] + s) == [c] + LineEndingsToSpaces(s)
  {
    assert ([c] + s)[1..] == s;
  }

  /** The reader takes each line ending - a line feed, a carriage return, or both in this order - for one
      space. */
  lemma {:induction false} LineEndingIsASpace(before: string, ending: string, after: string)
    requires !HasLineEnding(before)
    requires ending == "\n" || ending == "\r\n" || (ending == "\r" && (after != "" ==> after[0] != '\n'))
    ensures LineEndingsToSpaces(before + (ending + after)) == before + (" " + LineEndingsToSpaces(after))
  {
    if before == "" {
      assert (ending + after)[|ending|..] == after && before + (ending + after) == ending + after;
    } else {
      assert before[0] in before && forall c | c in before[1..] :: c in before;
      LineEndingIsASpace(before[1..], ending, after);
      PlainInFront(before[0], before[1..] + (ending + after));
      hide LineEndingsToSpaces, HasLineEnding;
      var c, rest := before[0], before[1..];
      assert before == [c] + rest;
      Concat3([c], rest, ending + after);
      Concat3([c], rest, " " + LineEndingsToSpaces(after));
    }
  }

  /** The texts a code span can hold. */
  predicate Holdable(text: string) { text != "" && !AllSpaces(text) && !HasLineEnding(text) }

  lemma ContentIsTheText(text: string)
    requires text != ""
    ensures Content(Inside(text)) == text <==> Holdable(text)
  {
    var inside := Inside(text);
    if HasLineEnding(text) {
      var c :| c in text && IsLineEnding(c);
      assert c !in Content(inside);
    } else {
      assert forall c | c in inside :: c in text || c == ' ';
      LineEndingsKept(inside);
      if AllSpaces(text) {
        assert text[0] in text && NeedsPadding(text);
        assert |inside| == |text| + 2 && AllSpaces(inside);
      } else {
        var c :| c in text && c != ' ';
        assert c in inside;
        if NeedsPadding(text) {
          assert inside[1..|inside| - 1] == text;
        }
      }
    }
  }

  /** The round trip, and exactly where it holds: between text that does not open a span itself,
      the printed form reads back as the one code span with that text just when the text is not
      empty, not all spaces and has no line ending. */
  lemma RoundTripExactlyWhen(pre: string, text: string, rest: string)
    requires Plain(pre)
    requires rest != "" ==> !IsTick(rest[0])
    ensures Spans(pre + MdCode(text) + rest) == [text] + Spans(rest) <==> Holdable(text)
  {
    if text == "" {
      assert ([text] + Spans(rest))[0] == "";
    } else {
      NothingEscapes(pre, text, rest);
      ContentIsTheText(text);
      var c := Content(Inside(text));
      assert ([c] + Spans(rest))[0] == c && ([text] + Spans(rest))[0] == text;
    }
  }
}
