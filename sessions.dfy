/** The earlier single-class editor of `mw/session.py`: a stack of clips with
    one cursor and one pair of in and out points shared by the whole session,
    driven by whitespace-separated command words. */
module Sessions {
  import opened Base
  import opened Chars
  import opened Numeric
  import opened Audio

  // ---------------------------------------------------------------------
  // Splitting a line into words.

  /** A word of `str.split()`: non-empty and free of whitespace. */
  predicate IsWord(w: string) {
    |w| > 0 && forall j :: 0 <= j < |w| ==> !IsSpace(w[j])
  }

  /** `s.split()`: the maximal runs of non-whitespace characters, in order. */
  function Words(s: string): (r: seq<string>)
    ensures forall i :: 0 <= i < |r| ==> IsWord(r[i])
    decreases |s|
  {
    var n := RunLength(s, Space);
    if n == |s| then []
    else
      var t := s[n..];
      var m := RunLength(t, NonSpace);
      [t[..m]] + Words(t[m..])
  }

  /** The words, each preceded by one space. */
  function Spaced(ws: seq<string>): string {
    if ws == [] then "" else " " + (ws[0] + Spaced(ws[1..]))
  }

  lemma WordsStep(w: string, rest: string)
    requires IsWord(w)
    requires rest == [] || IsSpace(rest[0])
    ensures Words(" " + (w + rest)) == [w] + Words(rest)
  {
    var s := " " + (w + rest);
    RunLengthOf(" ", w + rest, Space);
    assert s[1..] == w + rest;
    RunLengthOf(w, rest, NonSpace);
    assert (w + rest)[..|w|] == w && (w + rest)[|w|..] == rest;
  }

  /** Splitting words that were joined with spaces gives the words back. */
  lemma {:induction false} WordsOfSpaced(ws: seq<string>)
    requires forall i :: 0 <= i < |ws| ==> IsWord(ws[i])
    ensures Words(Spaced(ws)) == ws
  {
    if ws != [] {
      WordsOfSpaced(ws[1..]);
      var rest := Spaced(ws[1..]);
      WordsStep(ws[0], rest);
    }
  }

  // ---------------------------------------------------------------------
  // State as a value.

  /** The longest clip, or nothing for an empty stack (where `max` raises ValueError). */
  function Longest(segments: seq<seq<Sample>>): (r: Option<nat>)
    ensures r.None? <==> segments == []
    ensures r.Some? ==> forall i :: 0 <= i < |segments| ==> |segments[i]| <= r.value
    ensures r.Some? ==> exists i :: 0 <= i < |segments| && |segments[i]| == r.value
  {
    if segments == [] then None
    else
      var below := Longest(segments[..|segments| - 1]);
      var last := |segments[|segments| - 1]|;
      if below.Some? && below.value > last then below else Some(last)
  }

  /** The fields of a session, as a value. */
  datatype SessionState = SessionState(segments: seq<seq<Sample>>, cursor: int,
                                       inPoint: Option<int>, outPoint: Option<int>)

  /** What a command line asks of the interactive loop. */
  datatype Reply = Continue | Quit | Failed(error: PyError)

  /** `int(text)` on a word: an optional sign and ASCII digits. */
  predicate IsIntText(w: string) {
    IsDigitString(w) || IsSignedToken(w)
  }

  /** `crop_head()`: crop the top clip to `[in or 0, out or its length)`, then
      clear both points and put the cursor at 0; a crop that fails its
      assertion leaves everything as it was. */
  function CropHeadState(s: SessionState): (Status, SessionState) {
    if s.segments == [] then (Ok, s.(inPoint := None, outPoint := None, cursor := 0))
    else
      var top := s.segments[|s.segments| - 1];
      var start := Or(s.inPoint, 0);
      var end := Or(s.outPoint, |top|);
      if end <= start then (Raised(AssertionError), s)
      else (Ok, SessionState(s.segments[..|s.segments| - 1] + [Slice(top, start, end)], 0, None, None))
  }

  /** `p`: drop the top clip; IndexError on an empty stack. */
  function PopStep(s: SessionState): (Reply, SessionState) {
    if s.segments == [] then (Failed(IndexError), s)
    else (Continue, s.(segments := s.segments[..|s.segments| - 1]))
  }

  /** `cm w`: move or set the cursor, then clamp it into the longest clip; on
      an empty stack `length()` raises ValueError after the cursor has moved. */
  function CursorStep(s: SessionState, w: string): (Reply, SessionState) {
    if w == "" then (Failed(IndexError), s)
    else
      var c := ParseNumeric(s.cursor, w);
      var longest := Longest(s.segments);
      if longest.None? then (Failed(ValueError), s.(cursor := c))
      else
        var c := if c < longest.value then c else longest.value;
        (Continue, s.(cursor := if c > 0 then c else 0))
  }

  /** `handle_command` on the words of a line. The help, display and delay
      words, and any unknown word, change nothing. */
  function Step(s: SessionState, words: seq<string>): (Reply, SessionState) {
    if words == [] then (Failed(IndexError), s)
    else if words[0] == "q" then (Quit, s)
    else if words[0] == "setw" then
      if |words| < 2 then (Failed(IndexError), s)
      else if !IsIntText(words[1]) then (Failed(ValueError), s)
      else (Continue, s)
    else if words[0] == "p" then PopStep(s)
    else if words[0] == "cm" then
      if |words| < 2 then (Failed(IndexError), s) else CursorStep(s, words[1])
    else if words[0] == "i" then (Continue, s.(inPoint := Some(s.cursor)))
    else if words[0] == "o" then (Continue, s.(outPoint := Some(s.cursor)))
    else if words[0] == "x" then (Continue, s.(inPoint := None, outPoint := None))
    else if words[0] == "k" then
      var (st, t) := CropHeadState(s);
      (if st.Raised? then Failed(st.error) else Continue, t)
    else (Continue, s)
  }

  // ---------------------------------------------------------------------
  // Properties of a command.

  /** Only `q` ends the loop; a line without words raises IndexError. */
  lemma StepQuits(s: SessionState, words: seq<string>)
    ensures Step(s, words).0 == Quit <==> words != [] && words[0] == "q"
    ensures Step(s, words).0 == Quit ==> Step(s, words).1 == s
    ensures words == [] ==> Step(s, words) == (Failed(IndexError), s)
  {
  }

  /** `cm` on a non-empty stack leaves the cursor inside the longest clip and
      changes nothing else; on an empty stack it raises ValueError after moving
      the cursor. */
  lemma StepCursorClamped(s: SessionState, w: string, more: seq<string>)
    requires |w| > 0
    ensures var (r, t) := Step(s, ["cm", w] + more);
      && (s.segments != [] ==>
            && r == Continue
            && 0 <= t.cursor <= Longest(s.segments).value
            && (0 <= ParseNumeric(s.cursor, w) <= Longest(s.segments).value ==> t.cursor == ParseNumeric(s.cursor, w))
            && t == s.(cursor := t.cursor))
      && (s.segments == [] ==> r == Failed(ValueError) && t == s.(cursor := ParseNumeric(s.cursor, w)))
  {
    assert (["cm", w] + more)[0] == "cm" && (["cm", w] + more)[1] == w;
  }

  /** `i`, `o` and `x` set or clear the points and touch nothing else. */
  lemma StepPoints(s: SessionState)
    ensures Step(s, ["i"]) == (Continue, s.(inPoint := Some(s.cursor)))
    ensures Step(s, ["o"]) == (Continue, s.(outPoint := Some(s.cursor)))
    ensures Step(s, ["x"]) == (Continue, s.(inPoint := None, outPoint := None))
  {
    assert "i" != "q" && "i" != "setw" && "i" != "p" && "i" != "cm";
    assert "o" != "q" && "o" != "setw" && "o" != "p" && "o" != "cm" && "o" != "i";
    assert "x" != "q" && "x" != "setw" && "x" != "p" && "x" != "cm" && "x" != "i" && "x" != "o";
  }

  /** `p` drops exactly the top clip, and IndexError on an empty stack. */
  lemma StepPop(s: SessionState)
    ensures s.segments == [] ==> Step(s, ["p"]) == (Failed(IndexError), s)
    ensures s.segments != [] ==>
      var t := Step(s, ["p"]).1;
      |t.segments| == |s.segments| - 1 && t.segments + [s.segments[|s.segments| - 1]] == s.segments
      && t.cursor == s.cursor && t.inPoint == s.inPoint && t.outPoint == s.outPoint
  {
    assert "p" != "q" && "p" != "setw";
  }

  /** A successful `crop_head` keeps the stack height, replaces the top clip by
      the selected slice, and resets cursor and points. */
  lemma CropHeadResult(s: SessionState)
    ensures var (st, t) := CropHeadState(s);
      && (st == Ok ==>
            && |t.segments| == |s.segments| && t.cursor == 0 && t.inPoint.None? && t.outPoint.None?
            && (s.segments != [] ==> t.segments[..|t.segments| - 1] == s.segments[..|s.segments| - 1]))
      && (st != Ok ==> st == Raised(AssertionError) && t == s && s.segments != [])
    ensures s.segments != [] ==>
      var top := s.segments[|s.segments| - 1];
      var (st, t) := CropHeadState(s);
      (0 <= Or(s.inPoint, 0) < Or(s.outPoint, |top|) <= |top| ==>
         st == Ok && t.segments[|t.segments| - 1] == top[Or(s.inPoint, 0)..Or(s.outPoint, |top|)])
  {
    if s.segments != [] {
      var top := s.segments[|s.segments| - 1];
      var start := Or(s.inPoint, 0);
      var end := Or(s.outPoint, |top|);
      if 0 <= start < end <= |top| {
        SliceWithin(top, start, end);
      }
    }
  }

  // ---------------------------------------------------------------------
  // The objects.

  class StackFrame {
    var segment: seq<Sample>

    constructor (segment: seq<Sample>)
      ensures this.segment == segment
    {
      this.segment := segment;
    }

    /** `crop(start, end)`: keep `segment[start:end]`; the assertion wants `end > start`. */
    method Crop(start: int, end: int) returns (st: Status)
      modifies this
      ensures end <= start ==> st == Raised(AssertionError) && segment == old(segment)
      ensures end > start ==> st == Ok && segment == Slice(old(segment), start, end)
    {
      if end <= start {
        return Raised(AssertionError);
      }
      segment := Slice(segment, start, end);
      return Ok;
    }
  }

  function SegmentsOf(fs: seq<StackFrame>): (r: seq<seq<Sample>>)
    reads set f | f in fs
    ensures |r| == |fs|
    ensures forall i :: 0 <= i < |fs| ==> r[i] == fs[i].segment
  {
    if fs == [] then [] else SegmentsOf(fs[..|fs| - 1]) + [fs[|fs| - 1].segment]
  }

  class Session {
    var stack: seq<StackFrame>
    var cursor: int
    var inPoint: Option<int>
    var outPoint: Option<int>

    /** The stack holds each frame once. */
    ghost predicate Valid()
      reads this
    {
      forall i, j :: 0 <= i < j < |stack| ==> stack[i] != stack[j]
    }

    function State(): SessionState
      reads this, set f | f in stack
    {
      SessionState(SegmentsOf(stack), cursor, inPoint, outPoint)
    }

    function TopSet(): set<StackFrame>
      reads this
    {
      if stack == [] then {} else {stack[|stack| - 1]}
    }

    /** `length()`: the longest clip; nothing (ValueError) on an empty stack. */
    function Length(): (r: Option<nat>)
      reads this, set f | f in stack
      ensures r == Longest(State().segments)
    {
      Longest(SegmentsOf(stack))
    }

    constructor (segments: seq<seq<Sample>>)
      ensures Valid()
      ensures State() == SessionState(segments, 0, None, None)
    {
      stack := [];
      cursor := 0;
      inPoint := None;
      outPoint := None;
      new;
      var k := 0;
      while k < |segments|
        invariant 0 <= k <= |segments|
        invariant Valid() && State() == SessionState(segments[..k], 0, None, None)
      {
        PushSound(segments[k]);
        assert segments[..k + 1] == segments[..k] + [segments[k]];
        k := k + 1;
      }
      assert segments[..k] == segments;
    }

    /** `push_sound(segment)`: one new frame on top. */
    method PushSound(segment: seq<Sample>)
      requires Valid()
      modifies this
      ensures Valid()
      ensures |stack| == |old(stack)| + 1 && stack[..|old(stack)|] == old(stack) && fresh(stack[|stack| - 1])
      ensures State() == old(State()).(segments := old(State()).segments + [segment])
    {
      var f := new StackFrame(segment);
      stack := stack + [f];
      assert SegmentsOf(stack) == SegmentsOf(old(stack)) + [segment];
    }

    /** `crop_head()`. */
    method CropHead() returns (st: Status)
      requires Valid()
      modifies this, TopSet()
      ensures Valid() && stack == old(stack)
      ensures (st, State()) == CropHeadState(old(State()))
    {
      if |stack| > 0 {
        var frame := stack[|stack| - 1];
        ghost var before := State();
        st := frame.Crop(Or(inPoint, 0), Or(outPoint, |frame.segment|));
        TopSegments(this, before.segments, old(frame.segment));
        if st != Ok {
          return;
        }
      } else {
        st := Ok;
      }
      label Cropped:
      inPoint := None;
      outPoint := None;
      cursor := 0;
      SegmentsUnchanged@Cropped(stack);
    }

    /** `handle_command(command)`. */
    method HandleCommand(command: string) returns (reply: Reply)
      requires Valid()
      modifies this, TopSet()
      ensures Valid()
      ensures (reply, State()) == Step(old(State()), Words(command))
    {
      var words := Words(command);
      if words == [] {
        return Failed(IndexError);
      }
      if words[0] == "q" {
        return Quit;
      } else if words[0] == "setw" {
        if |words| < 2 {
          return Failed(IndexError);
        }
        if !IsIntText(words[1]) {
          return Failed(ValueError);
        }
      } else if words[0] == "p" {
        reply := Pop();
        return;
      } else if words[0] == "cm" {
        if |words| < 2 {
          return Failed(IndexError);
        }
        reply := MoveCursor(words[1]);
        return;
      } else if words[0] == "i" {
        inPoint := Some(cursor);
        SegmentsUnchanged(stack);
      } else if words[0] == "o" {
        outPoint := Some(cursor);
        SegmentsUnchanged(stack);
      } else if words[0] == "x" {
        inPoint := None;
        outPoint := None;
        SegmentsUnchanged(stack);
      } else if words[0] == "k" {
        var st := CropHead();
        if st.Raised? {
          return Failed(st.error);
        }
      }
      return Continue;
    }

    /** `self.stack.pop()`. */
    method Pop() returns (reply: Reply)
      requires Valid()
      modifies this
      ensures Valid()
      ensures (reply, State()) == PopStep(old(State()))
    {
      if stack == [] {
        return Failed(IndexError);
      }
      stack := stack[..|stack| - 1];
      assert SegmentsOf(stack) == SegmentsOf(old(stack))[..|stack|];
      return Continue;
    }

    /** The three cursor updates of `cm`. */
    method MoveCursor(w: string) returns (reply: Reply)
      requires Valid() && w != ""
      modifies this
      ensures Valid() && stack == old(stack)
      ensures (reply, State()) == CursorStep(old(State()), w)
    {
      ghost var before := State();
      var c := ParseNumeric(cursor, w);
      var longest := Length();
      if longest.None? {
        assert CursorStep(before, w) == (Failed(ValueError), before.(cursor := c));
        cursor := c;
        SegmentsUnchanged(stack);
        return Failed(ValueError);
      }
      c := if c < longest.value then c else longest.value;
      c := if c > 0 then c else 0;
      assert CursorStep(before, w) == (Continue, before.(cursor := c));
      cursor := c;
      SegmentsUnchanged(stack);
      return Continue;
    }
  }

  /** Frames that kept their fields keep their segments. */
  twostate lemma SegmentsUnchanged(fs: seq<StackFrame>)
    requires forall f :: f in fs ==> unchanged(f)
    ensures SegmentsOf(fs) == old(SegmentsOf(fs))
  {
  }

  /** After a change to the top frame alone, the segments below it are as before. */
  lemma TopSegments(s: Session, before: seq<seq<Sample>>, oldTop: seq<Sample>)
    requires s.Valid() && s.stack != [] && |before| == |s.stack|
    requires forall i :: 0 <= i < |s.stack| - 1 ==> before[i] == s.stack[i].segment
    ensures SegmentsOf(s.stack) == before[..|s.stack| - 1] + [s.stack[|s.stack| - 1].segment]
  {
  }
}
