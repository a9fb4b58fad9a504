/** The audio segment abstracted to one sample per millisecond. Slicing is
    assumed to follow Python's sequence-slice rules in milliseconds: a
    negative position counts from the end, and positions are clamped into the
    clip. AudioSegment's own slicing differs for positions below `-len`; that
    case is not modelled. */
module Audio {

  type Sample = int

  /** `AudioSegment.silent(duration)`: `duration` milliseconds of zero samples;
      a negative duration gives an empty segment. */
  function Silence(duration: int): (s: seq<Sample>)
    ensures |s| == if duration < 0 then 0 else duration
    ensures forall i :: 0 <= i < |s| ==> s[i] == 0
  {
    seq(if duration < 0 then 0 else duration, _ => 0)
  }

  /** Where Python's slice puts a bound `i` on a sequence of length `n`. */
  function PyIndex(i: int, n: nat): (k: nat)
    ensures k <= n
    ensures 0 <= i <= n ==> k == i
    ensures i > n ==> k == n
    ensures i < 0 ==> k == if n + i < 0 then 0 else n + i
  {
    if i < 0 then (if n + i < 0 then 0 else n + i)
    else if i > n then n
    else i
  }

  /** `segment[start:end]`. */
  function Slice(segment: seq<Sample>, start: int, end: int): (r: seq<Sample>)
  {
    var a := PyIndex(start, |segment|);
    var b := PyIndex(end, |segment|);
    if a <= b then segment[a..b] else []
  }

  /** Inside the clip a slice is the plain subsequence. */
  lemma SliceWithin(segment: seq<Sample>, start: int, end: int)
    requires 0 <= start <= end <= |segment|
    ensures Slice(segment, start, end) == segment[start..end]
    ensures |Slice(segment, start, end)| == end - start
  {
  }

  /** `segment[0:at] + segment[at:]` gives the segment back, for any `at`. */
  lemma SliceSplit(segment: seq<Sample>, at: int)
    ensures Slice(segment, 0, at) + Slice(segment, at, |segment|) == segment
  {
    var k := PyIndex(at, |segment|);
    assert segment[..k] + segment[k..] == segment;
  }

  /** `a.overlay(b)`: `b` mixed into `a` from its start; the result keeps the
      length of `a`. Mixing is modelled as a plain sum of samples. */
  function Overlay(a: seq<Sample>, b: seq<Sample>): (r: seq<Sample>)
    ensures |r| == |a|
    ensures forall i :: |b| <= i < |a| ==> r[i] == a[i]
  {
    seq(|a|, i requires 0 <= i < |a| => if i < |b| then a[i] + b[i] else a[i])
  }
}
