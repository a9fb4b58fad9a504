/** The clip stack the editor works on (`mw/stack.py`): frames that each hold
    one clip with a cursor, optional in and out points and a view window, and
    the stack of frames whose top is the clip being edited. */
module Stacks {
  import opened Base
  import opened Audio

  /** The fields of a frame, as a value. */
  datatype FrameState = FrameState(segment: seq<Sample>, cursor: int, inPoint: Option<int>,
                                   outPoint: Option<int>, viewStart: int, viewEnd: int)

  /** The frame `StackFrame(segment)` builds: cursor at 0, no in or out point,
      and the view on the whole clip. */
  function Fresh(segment: seq<Sample>): FrameState {
    FrameState(segment, 0, None, None, 0, |segment|)
  }

  /** The frame with a new segment and the view reset onto all of it; cursor
      and points are kept. */
  function Resegment(f: FrameState, segment: seq<Sample>): FrameState {
    f.(segment := segment, viewStart := 0, viewEnd := |segment|)
  }

  /** The top frame replaced by `f`. */
  function WithTop(s: seq<FrameState>, f: FrameState): (r: seq<FrameState>)
    requires s != []
    ensures |r| == |s| && r[..|s| - 1] == s[..|s| - 1] && r[|s| - 1] == f
  {
    s[..|s| - 1] + [f]
  }

  /** What an operation leaves behind: its status and the frame states after it. */
  datatype Edited = Edited(status: Status, states: seq<FrameState>)

  // ---------------------------------------------------------------------
  // Segment edits.

  /** `segment[0:at] + silent(duration) + segment[at:]`. */
  function WithSilence(segment: seq<Sample>, duration: int, at: int): seq<Sample> {
    Slice(segment, 0, at) + Silence(duration) + Slice(segment, at, |segment|)
  }

  /** Inserting silence lengthens the clip by exactly its duration, wherever it goes. */
  lemma WithSilenceLength(segment: seq<Sample>, duration: nat, at: int)
    ensures |WithSilence(segment, duration, at)| == |segment| + duration
  {
    SliceSplit(segment, at);
    assert |Slice(segment, 0, at) + Slice(segment, at, |segment|)| == |segment|;
  }

  /** Inside the clip, the insertion is silence at `at` with the clip on
      either side: cutting it out again gives the clip back. */
  lemma WithSilenceContents(segment: seq<Sample>, duration: nat, at: int)
    requires 0 <= at <= |segment|
    ensures var r := WithSilence(segment, duration, at);
      && |r| == |segment| + duration
      && r[..at] == segment[..at]
      && (forall i :: at <= i < at + duration ==> r[i] == 0)
      && r[at + duration..] == segment[at..]
      && r[..at] + r[at + duration..] == segment
  {
    SliceWithin(segment, 0, at);
    SliceWithin(segment, at, |segment|);
    var r := WithSilence(segment, duration, at);
    assert r == segment[..at] + Silence(duration) + segment[at..];
    assert segment[..at] + segment[at..] == segment;
  }

  /** `segment[0:at] + silent(duration) + segment[at + duration:]`. */
  function Blooped(segment: seq<Sample>, duration: int, at: int): seq<Sample> {
    Slice(segment, 0, at) + Silence(duration) + Slice(segment, at + duration, |segment|)
  }

  /** Blooping a selection inside the clip keeps the clip's length and
      silences exactly the selection. */
  lemma BloopedContents(segment: seq<Sample>, duration: nat, at: nat)
    requires at + duration <= |segment|
    ensures var r := Blooped(segment, duration, at);
      && |r| == |segment|
      && forall i :: 0 <= i < |segment| ==> r[i] == if at <= i < at + duration then 0 else segment[i]
  {
    SliceWithin(segment, 0, at);
    SliceWithin(segment, at + duration, |segment|);
    var r := Blooped(segment, duration, at);
    assert r == segment[..at] + Silence(duration) + segment[at + duration..];
  }

  /** The selection `bloop` falls back to: from the in point (or 0) to the out
      point (or the clip's end). */
  function BloopDuration(f: FrameState, duration: Option<int>): int {
    if duration.Some? then duration.value else Or(f.outPoint, |f.segment|) - Or(f.inPoint, 0)
  }

  function BloopAt(f: FrameState, at: Option<int>): int {
    if at.Some? then at.value else Or(f.inPoint, 0)
  }

  /** The check `bloop` makes before editing, as written: the selection must
      end strictly before the end of the clip. */
  predicate BloopGuardAsWritten(length: int, duration: int, at: int) {
    at + duration < length
  }

  /** The check `bloop` evidently means: the selection ends inside the clip,
      its very end included. */
  predicate BloopGuard(length: int, duration: int, at: int) {
    at + duration <= length
  }

  /** As written, the selection `bloop` picks by itself on a frame whose points
      are unset (the whole clip) is refused, although silencing it is well
      defined; the intended check accepts it and silences the clip. */
  lemma BloopDefaultRejected(f: FrameState)
    requires f.inPoint.None? && f.outPoint.None?
    ensures var d := BloopDuration(f, None);
      var a := BloopAt(f, None);
      && !BloopGuardAsWritten(|f.segment|, d, a)
      && BloopGuard(|f.segment|, d, a)
      && Blooped(f.segment, d, a) == Silence(|f.segment|)
  {
    var r := Blooped(f.segment, |f.segment|, 0);
    BloopedContents(f.segment, |f.segment|, 0);
    assert r == Silence(|f.segment|);
  }

  /** `pad(to_length)` as written: it adds `len(segment) - to_length`
      milliseconds, the difference taken the wrong way round. */
  function PaddedAsWritten(segment: seq<Sample>, toLength: int): seq<Sample> {
    var toAdd := |segment| - toLength;
    if toAdd > 0 then segment + Silence(toAdd) else segment
  }

  /** A clip shorter than the target is left as it is, and a longer one grows
      further, by its excess over the target. */
  lemma PaddedAsWrittenWrong(segment: seq<Sample>, toLength: int)
    ensures toLength > |segment| ==> |PaddedAsWritten(segment, toLength)| == |segment| < toLength
    ensures toLength < |segment| ==>
      |PaddedAsWritten(segment, toLength)| == 2 * |segment| - toLength > |segment|
  {
  }

  lemma PaddedAsWrittenExamples()
    ensures |PaddedAsWritten(Silence(500), 1000)| == 500
    ensures |PaddedAsWritten(Silence(1000), 500)| == 1500
  {
    PaddedAsWrittenWrong(Silence(500), 1000);
    PaddedAsWrittenWrong(Silence(1000), 500);
  }

  /** `pad(to_length)` as intended: silence appended up to `to_length`. */
  function Padded(segment: seq<Sample>, toLength: int): seq<Sample> {
    var toAdd := toLength - |segment|;
    if toAdd > 0 then segment + Silence(toAdd) else segment
  }

  /** Padding reaches the target length and never shortens: the clip comes
      first, unchanged, and only silence follows. */
  lemma PaddedContents(segment: seq<Sample>, toLength: int)
    ensures var r := Padded(segment, toLength);
      && |r| == (if toLength > |segment| then toLength else |segment|)
      && r[..|segment|] == segment
      && forall i :: |segment| <= i < |r| ==> r[i] == 0
  {
    var r := Padded(segment, toLength);
    assert r[..|segment|] == segment;
  }

  // ---------------------------------------------------------------------
  // Frame operations as functions of the frame's state. An `assert` in the
  // source becomes a `Raised(AssertionError)` result that leaves the frame
  // as it was.

  /** `crop(start, end)`. */
  function CropState(f: FrameState, start: int, end: int): (Status, FrameState) {
    if end > start then (Ok, Fresh(Slice(f.segment, start, end))) else (Raised(AssertionError), f)
  }

  /** Cropping inside the clip keeps exactly the cropped span and resets the
      frame; reversed or empty bounds are refused. */
  lemma CropContents(f: FrameState, start: int, end: int)
    ensures end <= start <==> CropState(f, start, end) == (Raised(AssertionError), f)
    ensures 0 <= start < end <= |f.segment| ==>
      var g := CropState(f, start, end).1;
      && g.segment == f.segment[start..end] && |g.segment| == end - start
      && g.cursor == 0 && g.inPoint.None? && g.outPoint.None?
      && g.viewStart == 0 && g.viewEnd == end - start
  {
    if 0 <= start < end <= |f.segment| {
      SliceWithin(f.segment, start, end);
    }
  }

  /** `crop_to_selection()`: crop from `in_point or 0` to `out_point or len(segment)`. */
  function CropToSelectionState(f: FrameState): (Status, FrameState) {
    CropState(f, Or(f.inPoint, 0), Or(f.outPoint, |f.segment|))
  }

  /** An unset point, and equally a point at 0, stands for that end of the
      clip: with neither point set the whole clip is kept, and an empty clip
      cannot be cropped. */
  lemma CropToSelectionDefaults(f: FrameState)
    requires Or(f.inPoint, 0) == 0 && Or(f.outPoint, |f.segment|) == |f.segment|
    ensures |f.segment| > 0 ==> CropToSelectionState(f) == (Ok, Fresh(f.segment))
    ensures |f.segment| == 0 ==> CropToSelectionState(f) == (Raised(AssertionError), f)
  {
    SliceWithin(f.segment, 0, |f.segment|);
    assert f.segment[0..|f.segment|] == f.segment;
  }

  /** `insert_silence(duration, at)`: the insertion point must lie before the
      clip's end; cursor and points are kept. */
  function InsertSilenceState(f: FrameState, duration: int, at: int): (Status, FrameState) {
    if at < |f.segment| then (Ok, Resegment(f, WithSilence(f.segment, duration, at)))
    else (Raised(AssertionError), f)
  }

  /** `bloop(duration, at)` with the intended check: the selection, defaulted
      from the points, is replaced by silence. */
  function BloopState(f: FrameState, duration: Option<int>, at: Option<int>): (Status, FrameState) {
    var d := BloopDuration(f, duration);
    var a := BloopAt(f, at);
    if BloopGuard(|f.segment|, d, a) then (Ok, Resegment(f, Blooped(f.segment, d, a)))
    else (Raised(AssertionError), f)
  }

  /** `pad(to_length)`, as intended. */
  function PadState(f: FrameState, toLength: int): FrameState {
    Resegment(f, Padded(f.segment, toLength))
  }

  /** Inserting silence inside the clip grows it by the duration and touches
      nothing but the segment and the view; past the end it is refused. */
  lemma InsertSilenceContents(f: FrameState, duration: nat, at: int)
    ensures at >= |f.segment| <==> InsertSilenceState(f, duration, at).0 == Raised(AssertionError)
    ensures at < |f.segment| ==>
      var g := InsertSilenceState(f, duration, at).1;
      && |g.segment| == |f.segment| + duration
      && g.cursor == f.cursor && g.inPoint == f.inPoint && g.outPoint == f.outPoint
      && g.viewStart == 0 && g.viewEnd == |g.segment|
  {
    WithSilenceLength(f.segment, duration, at);
  }

  /** A bloop inside the clip keeps the clip's length and its cursor and points. */
  lemma BloopStateContents(f: FrameState, duration: nat, at: nat)
    requires at + duration <= |f.segment|
    ensures var (st, g) := BloopState(f, Some(duration), Some(at));
      && st == Ok && |g.segment| == |f.segment|
      && g.cursor == f.cursor && g.inPoint == f.inPoint && g.outPoint == f.outPoint
  {
    BloopedContents(f.segment, duration, at);
  }

  class StackFrame {
    var segment: seq<Sample>
    var cursor: int
    var inPoint: Option<int>
    var outPoint: Option<int>
    var viewStart: int
    var viewEnd: int

    function State(): FrameState
      reads this
    {
      FrameState(segment, cursor, inPoint, outPoint, viewStart, viewEnd)
    }

    constructor (segment: seq<Sample>)
      ensures State() == Fresh(segment)
    {
      this.segment := segment;
      cursor := 0;
      inPoint := None;
      outPoint := None;
      viewStart := 0;
      viewEnd := |segment|;
    }

    /** `view_length()`: the width of the view, which must not be empty. */
    method ViewLength() returns (st: Status, n: int)
      ensures viewEnd > viewStart <==> st == Ok
      ensures st == Ok ==> n == viewEnd - viewStart && n > 0
      ensures st != Ok ==> st == Raised(AssertionError)
      ensures State() == Fresh(segment) && |segment| > 0 ==> st == Ok && n == |segment|
    {
      if viewEnd > viewStart {
        return Ok, viewEnd - viewStart;
      }
      return Raised(AssertionError), 0;
    }

    /** Replace the segment and reset the view onto all of it. */
    method SetSegment(s: seq<Sample>)
      modifies this
      ensures State() == Resegment(old(State()), s)
    {
      segment := s;
      viewStart := 0;
      viewEnd := |s|;
    }

    method Crop(start: int, end: int) returns (st: Status)
      modifies this
      ensures (st, State()) == CropState(old(State()), start, end)
    {
      if end <= start {
        return Raised(AssertionError);
      }
      segment := Slice(segment, start, end);
      inPoint := None;
      outPoint := None;
      cursor := 0;
      viewStart := 0;
      viewEnd := |segment|;
      return Ok;
    }

    method CropToSelection() returns (st: Status)
      modifies this
      ensures (st, State()) == CropToSelectionState(old(State()))
    {
      st := Crop(Or(inPoint, 0), Or(outPoint, |segment|));
    }

    method InsertSilence(duration: int, at: int) returns (st: Status)
      modifies this
      ensures (st, State()) == InsertSilenceState(old(State()), duration, at)
    {
      if at >= |segment| {
        return Raised(AssertionError);
      }
      var a := Slice(segment, 0, at);
      var b := Slice(segment, at, |segment|);
      SetSegment(a + Silence(duration) + b);
      return Ok;
    }

    method Bloop(duration: Option<int>, at: Option<int>) returns (st: Status)
      modifies this
      ensures (st, State()) == BloopState(old(State()), duration, at)
    {
      var d := if duration.Some? then duration.value else Or(outPoint, |segment|) - Or(inPoint, 0);
      var a := if at.Some? then at.value else Or(inPoint, 0);
      if a + d > |segment| {
        return Raised(AssertionError);
      }
      var x := Slice(segment, 0, a);
      var y := Slice(segment, a + d, |segment|);
      SetSegment(x + Silence(d) + y);
      return Ok;
    }

    method Pad(toLength: int)
      modifies this
      ensures State() == PadState(old(State()), toLength)
    {
      var toAdd := toLength - |segment|;
      if toAdd > 0 {
        SetSegment(segment + Silence(toAdd));
      } else {
        SetSegment(segment);
      }
    }
  }

  // ---------------------------------------------------------------------
  // Whole-stack edits as functions of the frames' states.

  /** The longest clip among the frames, or 0 for none: `Stack.length()`. */
  function MaxLength(s: seq<FrameState>): (n: nat)
    ensures forall i :: 0 <= i < |s| ==> |s[i].segment| <= n
    ensures s == [] ==> n == 0
    ensures s != [] ==> exists i :: 0 <= i < |s| && n == |s[i].segment|
  {
    if s == [] then 0
    else
      var m := MaxLength(s[..|s| - 1]);
      var last := |s[|s| - 1].segment|;
      if last > m then last else m
  }

  /** `split()` on the frame states: the top is replaced by a frame holding the
      clip up to the cursor and, above it, one holding the rest. */
  function SplitTop(s: seq<FrameState>): seq<FrameState>
    requires |s| > 0
  {
    var t := s[|s| - 1];
    s[..|s| - 1] + [Fresh(Slice(t.segment, 0, t.cursor)), Fresh(Slice(t.segment, t.cursor, |t.segment|))]
  }

  /** Splitting adds one frame, keeps the frames below, and the two halves
      together are the old clip, whatever the cursor. */
  lemma SplitTopContents(s: seq<FrameState>)
    requires |s| > 0
    ensures var r := SplitTop(s);
      && |r| == |s| + 1
      && r[..|s| - 1] == s[..|s| - 1]
      && r[|s| - 1].segment + r[|s|].segment == s[|s| - 1].segment
      && |r[|s| - 1].segment| + |r[|s|].segment| == |s[|s| - 1].segment|
  {
    var t := s[|s| - 1];
    SliceSplit(t.segment, t.cursor);
    assert |Slice(t.segment, 0, t.cursor) + Slice(t.segment, t.cursor, |t.segment|)| == |t.segment|;
  }

  /** The longer of two clips with the shorter mixed into it. */
  function Mix(a: seq<Sample>, b: seq<Sample>): seq<Sample> {
    if |a| < |b| then Overlay(b, a) else Overlay(a, b)
  }

  /** `bounce()` on the frame states: the top two frames become one fresh
      frame holding their mix. */
  function BounceTop(s: seq<FrameState>): seq<FrameState>
    requires |s| > 1
  {
    s[..|s| - 2] + [Fresh(Mix(s[|s| - 1].segment, s[|s| - 2].segment))]
  }

  /** Bouncing removes one frame, keeps the frames below, and the mix is as
      long as the longer of the two clips. */
  lemma BounceTopContents(s: seq<FrameState>)
    requires |s| > 1
    ensures var r := BounceTop(s);
      var a := |s[|s| - 1].segment|;
      var b := |s[|s| - 2].segment|;
      && |r| == |s| - 1
      && r[..|s| - 2] == s[..|s| - 2]
      && |r[|s| - 2].segment| == (if a < b then b else a)
      && MaxLength(r) <= MaxLength(s)
  {
    var r := BounceTop(s);
    forall i | 0 <= i < |r|
      ensures |r[i].segment| <= MaxLength(s)
    {
      if i < |s| - 2 {
        assert r[i] == s[i];
      }
    }
  }

  // ---------------------------------------------------------------------
  // Reordering the entries list.

  /** Exchange the last two entries; fewer than two are left alone. */
  function SwapTop<T>(s: seq<T>): seq<T> {
    if |s| > 1 then s[..|s| - 2] + [s[|s| - 1], s[|s| - 2]] else s
  }

  /** Swapping twice restores the order, and a swap only reorders. */
  lemma SwapTopContents<T>(s: seq<T>)
    ensures SwapTop(SwapTop(s)) == s
    ensures multiset(SwapTop(s)) == multiset(s)
    ensures |SwapTop(s)| == |s|
    ensures |s| > 1 ==> (SwapTop(s)[..|s| - 2] == s[..|s| - 2]
      && SwapTop(s)[|s| - 1] == s[|s| - 2] && SwapTop(s)[|s| - 2] == s[|s| - 1])
  {
    if |s| > 1 {
      var p := s[..|s| - 2];
      assert SwapTop(s)[..|s| - 2] == p;
      assert s == p + [s[|s| - 2], s[|s| - 1]];
    }
  }

  /** One step of the right roll: `s[-1:] + s[0:-1]`, the last entry to the front. */
  function RollStep<T>(s: seq<T>): (r: seq<T>)
    ensures |r| == |s|
  {
    if s == [] then [] else [s[|s| - 1]] + s[..|s| - 1]
  }

  /** `k` steps of the right roll. */
  function RotateRight<T>(s: seq<T>, k: nat): (r: seq<T>)
    ensures |r| == |s|
  {
    if k == 0 then s else RollStep(RotateRight(s, k - 1))
  }

  /** `s[k:] + s[:k]`: the first `k` entries move to the back. */
  function RotateLeft<T>(s: seq<T>, k: nat): seq<T>
    requires k <= |s|
  {
    s[k..] + s[..k]
  }

  /** `k` right steps, for `k` up to the length, bring the last `k` entries to
      the front in order. */
  lemma {:induction false} RotateRightClosed<T>(s: seq<T>, k: nat)
    requires k <= |s|
    ensures RotateRight(s, k) == s[|s| - k..] + s[..|s| - k]
  {
    if k > 0 {
      RotateRightClosed(s, k - 1);
      var n := |s|;
      var prev := s[n - k + 1..] + s[..n - k + 1];
      assert prev[n - 1] == s[n - k];
      assert prev[..n - 1] == s[n - k + 1..] + s[..n - k];
      assert [s[n - k]] + (s[n - k + 1..] + s[..n - k]) == s[n - k..] + s[..n - k];
    }
  }

  /** Rolling right by `k` and then left by `k` gives the entries back; both
      only reorder them. */
  lemma RotateInverse<T>(s: seq<T>, k: nat)
    requires k <= |s|
    ensures |RotateRight(s, k)| == |s|
    ensures RotateLeft(RotateRight(s, k), k) == s
    ensures RotateRight(RotateLeft(s, k), k) == s
    ensures multiset(RotateRight(s, k)) == multiset(s)
    ensures multiset(RotateLeft(s, k)) == multiset(s)
  {
    LeftUndoesRight(s, k);
    RightUndoesLeft(s, k);
  }

  lemma LeftUndoesRight<T>(s: seq<T>, k: nat)
    requires k <= |s|
    ensures RotateLeft(RotateRight(s, k), k) == s
    ensures multiset(RotateRight(s, k)) == multiset(s)
  {
    var n := |s|;
    RotateRightClosed(s, k);
    var r := s[n - k..] + s[..n - k];
    assert r[k..] == s[..n - k] && r[..k] == s[n - k..];
    assert s[..n - k] + s[n - k..] == s;
  }

  lemma RightUndoesLeft<T>(s: seq<T>, k: nat)
    requires k <= |s|
    ensures RotateRight(RotateLeft(s, k), k) == s
    ensures multiset(RotateLeft(s, k)) == multiset(s)
  {
    var n := |s|;
    var l := s[k..] + s[..k];
    RotateRightClosed(l, k);
    assert l[n - k..] == s[..k] && l[..n - k] == s[k..];
    assert s[..k] + s[k..] == s;
  }

  /** A full turn changes nothing. */
  lemma RotateRightFull<T>(s: seq<T>)
    ensures RotateRight(s, |s|) == s
  {
    RotateRightClosed(s, |s|);
    assert s[0..] + s[..0] == s;
  }

  // ---------------------------------------------------------------------
  // The stack.

  /** The states of a list of frames. */
  function StatesOf(fs: seq<StackFrame>): (r: seq<FrameState>)
    reads set f | f in fs
    ensures |r| == |fs|
    ensures forall i :: 0 <= i < |fs| ==> r[i] == fs[i].State()
  {
    if fs == [] then [] else StatesOf(fs[..|fs| - 1]) + [fs[|fs| - 1].State()]
  }

  /** Reordering the frames reorders their states the same way. */
  lemma StatesOfSwapTop(fs: seq<StackFrame>)
    ensures StatesOf(SwapTop(fs)) == SwapTop(StatesOf(fs))
  {
    var n := |fs|;
    if n > 1 {
      StatesOfPrefix(fs, n - 2);
      StatesOfAppendTwo(fs[..n - 2], fs[n - 1], fs[n - 2]);
    }
  }

  lemma StatesOfRotateLeft(fs: seq<StackFrame>, k: nat)
    requires k <= |fs|
    ensures StatesOf(RotateLeft(fs, k)) == RotateLeft(StatesOf(fs), k)
  {
    var a, b := StatesOf(RotateLeft(fs, k)), RotateLeft(StatesOf(fs), k);
    forall i | 0 <= i < |fs|
      ensures a[i] == b[i]
    {
      StatesOfRotateLeftAt(fs, k, i);
    }
  }

  lemma StatesOfRotateLeftAt(fs: seq<StackFrame>, k: nat, i: int)
    requires k <= |fs| && 0 <= i < |fs|
    ensures StatesOf(RotateLeft(fs, k))[i] == RotateLeft(StatesOf(fs), k)[i]
  {
    RotateLeftAt(fs, k, i);
    RotateLeftAt(StatesOf(fs), k, i);
  }

  /** Where each entry of a left rotation comes from. */
  lemma RotateLeftAt<T>(s: seq<T>, k: nat, i: int)
    requires k <= |s| && 0 <= i < |s|
    ensures RotateLeft(s, k)[i] == if i < |s| - k then s[k + i] else s[i - (|s| - k)]
  {
  }

  lemma StatesOfRotateRight(fs: seq<StackFrame>, k: nat)
    requires k <= |fs|
    ensures StatesOf(RotateRight(fs, k)) == RotateRight(StatesOf(fs), k)
  {
    RotateRightClosed(fs, k);
    RotateRightClosed(StatesOf(fs), k);
    StatesOfRotateLeft(fs, |fs| - k);
  }

  /** The states of fresh frames over the given segments, in order. */
  function FreshAll(segments: seq<seq<Sample>>): (r: seq<FrameState>)
    ensures |r| == |segments|
    ensures forall i :: 0 <= i < |segments| ==> r[i] == Fresh(segments[i])
  {
    if segments == [] then [] else FreshAll(segments[..|segments| - 1]) + [Fresh(segments[|segments| - 1])]
  }

  /** One more fresh frame extends the frames built so far by the next segment. */
  lemma FreshStep(segments: seq<seq<Sample>>, k: nat, fs: seq<StackFrame>, f: StackFrame)
    requires k < |segments| && Distinct(fs) && f !in fs
    requires StatesOf(fs) == FreshAll(segments[..k]) && f.State() == Fresh(segments[k])
    ensures Distinct(fs + [f]) && StatesOf(fs + [f]) == FreshAll(segments[..k + 1])
  {
    StatesOfAppend(fs, f);
    DistinctAppend(fs, f);
    assert segments[..k + 1][..k] == segments[..k];
  }

  /** Frames that kept their fields keep their states. */
  twostate lemma StatesUnchanged(fs: seq<StackFrame>)
    requires forall f :: f in fs ==> unchanged(f)
    ensures StatesOf(fs) == old(StatesOf(fs))
  {
  }

  lemma StatesOfPrefix(fs: seq<StackFrame>, m: nat)
    requires m <= |fs|
    ensures StatesOf(fs[..m]) == StatesOf(fs)[..m]
  {
  }

  lemma StatesOfAppend(fs: seq<StackFrame>, f: StackFrame)
    ensures StatesOf(fs + [f]) == StatesOf(fs) + [f.State()]
  {
    assert (fs + [f])[..|fs|] == fs;
  }

  lemma StatesOfAppendTwo(fs: seq<StackFrame>, f: StackFrame, g: StackFrame)
    ensures StatesOf(fs + [f, g]) == StatesOf(fs) + [f.State(), g.State()]
  {
    assert fs + [f, g] == (fs + [f]) + [g];
    StatesOfAppend(fs + [f], g);
    StatesOfAppend(fs, f);
  }

  /** The states after the top frame is replaced by two frames holding its halves. */
  lemma SplitShape(es: seq<StackFrame>, fa: StackFrame, fb: StackFrame)
    requires es != []
    requires fa.State() == Fresh(Slice(es[|es| - 1].segment, 0, es[|es| - 1].cursor))
    requires fb.State() == Fresh(Slice(es[|es| - 1].segment, es[|es| - 1].cursor, |es[|es| - 1].segment|))
    ensures StatesOf(es[..|es| - 1] + [fa, fb]) == SplitTop(StatesOf(es))
  {
    StatesOfPrefix(es, |es| - 1);
    StatesOfAppendTwo(es[..|es| - 1], fa, fb);
  }

  /** The states after the top two frames are replaced by one frame holding their mix. */
  lemma BounceShape(es: seq<StackFrame>, f: StackFrame)
    requires |es| > 1
    requires f.State() == Fresh(Mix(es[|es| - 1].segment, es[|es| - 2].segment))
    ensures StatesOf(es[..|es| - 2] + [f]) == BounceTop(StatesOf(es))
  {
    StatesOfPrefix(es, |es| - 2);
    StatesOfAppend(es[..|es| - 2], f);
  }

  /** No frame appears twice. */
  predicate Distinct(fs: seq<StackFrame>) {
    forall i, j :: 0 <= i < j < |fs| ==> fs[i] != fs[j]
  }

  lemma DistinctAppendTwo(fs: seq<StackFrame>, f: StackFrame, g: StackFrame)
    requires Distinct(fs) && f !in fs && g !in fs && f != g
    ensures Distinct(fs + [f, g])
  {
  }

  lemma DistinctAppend(fs: seq<StackFrame>, f: StackFrame)
    requires Distinct(fs) && f !in fs
    ensures Distinct(fs + [f])
  {
  }

  class Stack {
    var entries: seq<StackFrame>

    ghost predicate Valid()
      reads this
    {
      Distinct(entries)
    }

    function States(): seq<FrameState>
      reads this, set f | f in entries
    {
      StatesOf(entries)
    }

    /** The frame `top` refers to, as a set for frame clauses. */
    function TopSet(): set<StackFrame>
      reads this
    {
      if entries == [] then {} else {entries[|entries| - 1]}
    }

    /** `top`: the last entry, or nothing on an empty stack. */
    function Top(): (r: Option<StackFrame>)
      reads this
      ensures r.None? <==> |entries| == 0
      ensures r.Some? ==> r.value == entries[|entries| - 1] && TopSet() == {r.value}
    {
      if |entries| > 0 then Some(entries[|entries| - 1]) else None
    }

    /** `length()`: the longest clip on the stack, 0 when empty. */
    function Length(): (n: nat)
      reads this, set f | f in entries
      ensures forall i :: 0 <= i < |entries| ==> |entries[i].segment| <= n
      ensures entries == [] ==> n == 0
      ensures entries != [] ==> exists i :: 0 <= i < |entries| && n == |entries[i].segment|
    {
      var s := StatesOf(entries);
      assert forall i :: 0 <= i < |entries| ==> s[i].segment == entries[i].segment;
      MaxLength(s)
    }

    constructor (segments: seq<seq<Sample>>)
      ensures Valid()
      ensures |entries| == |segments| && forall f :: f in entries ==> fresh(f)
      ensures States() == FreshAll(segments)
    {
      var fs := FreshFrames(segments);
      label Built:
      entries := fs;
      new;
      StatesUnchanged@Built(fs);
    }

    /** One fresh frame per segment, in order. */
    static method FreshFrames(segments: seq<seq<Sample>>) returns (fs: seq<StackFrame>)
      ensures Distinct(fs) && |fs| == |segments|
      ensures forall f :: f in fs ==> fresh(f)
      ensures StatesOf(fs) == FreshAll(segments)
    {
      fs := [];
      var k := 0;
      while k < |segments|
        invariant 0 <= k <= |segments| && |fs| == k && Distinct(fs)
        invariant forall g :: g in fs ==> fresh(g)
        invariant StatesOf(fs) == FreshAll(segments[..k])
      {
        label Before:
        var f := new StackFrame(segments[k]);
        StatesUnchanged@Before(fs);
        FreshStep(segments, k, fs, f);
        fs := fs + [f];
        k := k + 1;
      }
      assert segments[..k] == segments;
    }

    /** `push_sound(segment)`: one fresh frame on top of the unchanged entries. */
    method PushSound(segment: seq<Sample>)
      requires Valid()
      modifies this
      ensures Valid()
      ensures |entries| == |old(entries)| + 1 && entries[..|old(entries)|] == old(entries)
      ensures fresh(entries[|entries| - 1]) && entries[|entries| - 1].State() == Fresh(segment)
      ensures States() == old(States()) + [Fresh(segment)]
    {
      var f := new StackFrame(segment);
      entries := entries + [f];
    }

    /** `split()`: on an empty stack the assertion fails. */
    method Split() returns (st: Status)
      requires Valid()
      modifies this
      ensures Valid()
      ensures old(entries) == [] ==> st == Raised(AssertionError) && entries == old(entries)
      ensures old(entries) != [] ==> (st == Ok
        && |entries| == |old(entries)| + 1 && entries[..|old(entries)| - 1] == old(entries)[..|old(entries)| - 1]
        && fresh(entries[|entries| - 2]) && fresh(entries[|entries| - 1])
        && States() == SplitTop(old(States())))
    {
      if entries == [] {
        return Raised(AssertionError);
      }
      var all := SplitFrames(entries);
      label Assigning:
      entries := all;
      StatesUnchanged@Assigning(all);
      return Ok;
    }

    /** The entries after a split: the frames below the top, then a fresh
        frame for each half of the top clip. */
    static method SplitFrames(es: seq<StackFrame>) returns (all: seq<StackFrame>)
      requires es != [] && Distinct(es)
      ensures Distinct(all)
      ensures |all| == |es| + 1 && all[..|es| - 1] == es[..|es| - 1]
      ensures fresh(all[|all| - 2]) && fresh(all[|all| - 1])
      ensures StatesOf(all) == SplitTop(old(StatesOf(es)))
    {
      var t := es[|es| - 1];
      var a := Slice(t.segment, 0, t.cursor);
      var b := Slice(t.segment, t.cursor, |t.segment|);
      var fa := new StackFrame(a);
      var fb := new StackFrame(b);
      StatesUnchanged(es);
      SplitShape(es, fa, fb);
      var below := es[..|es| - 1];
      DistinctAppendTwo(below, fa, fb);
      all := below + [fa, fb];
      assert all[..|es| - 1] == below && all[|es| - 1] == fa && all[|es|] == fb;
    }

    /** `bounce()`: needs two entries. */
    method Bounce() returns (st: Status)
      requires Valid()
      modifies this
      ensures Valid()
      ensures |old(entries)| <= 1 ==> st == Raised(AssertionError) && entries == old(entries)
      ensures |old(entries)| > 1 ==> (st == Ok
        && |entries| == |old(entries)| - 1 && entries[..|entries| - 1] == old(entries)[..|old(entries)| - 2]
        && fresh(entries[|entries| - 1])
        && States() == BounceTop(old(States())))
    {
      if |entries| <= 1 {
        return Raised(AssertionError);
      }
      var all := BounceFrames(entries);
      label Assigning:
      entries := all;
      StatesUnchanged@Assigning(all);
      return Ok;
    }

    /** The entries after a bounce: the frames below the top two, then one
        fresh frame holding their mix. */
    static method BounceFrames(es: seq<StackFrame>) returns (all: seq<StackFrame>)
      requires |es| > 1 && Distinct(es)
      ensures Distinct(all)
      ensures |all| == |es| - 1 && all[..|all| - 1] == es[..|es| - 2]
      ensures fresh(all[|all| - 1])
      ensures StatesOf(all) == BounceTop(old(StatesOf(es)))
    {
      var a := es[|es| - 1].segment;
      var b := es[|es| - 2].segment;
      if |a| < |b| {
        a, b := b, a;
      }
      var f := new StackFrame(Overlay(a, b));
      StatesUnchanged(es);
      BounceShape(es, f);
      var below := es[..|es| - 2];
      DistinctAppend(below, f);
      all := below + [f];
      assert all[..|all| - 1] == below && all[|all| - 1] == f;
    }
  }
}
