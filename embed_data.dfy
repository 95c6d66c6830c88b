/** The sliding-window segmenter and the embedding step of
    scripts/embed_data.py: a cleaned episode's lines are grouped into
    overlapping windows, each window becomes one segment record, and an
    embedding function later writes a vector into every record in place. */
module EmbedData {
  import opened Wrappers
  import opened PyStrings
  import opened CleanData

  /** An embedding: the model's output list of floats, taken as reals. */
  type Vector = seq<real>

  /** One transcript segment record; `vector` is absent until embedded. */
  datatype Segment = Segment(
    startTime: Option<string>,
    endTime: Option<string>,
    episodeTitle: string,
    episodeNumber: string,
    text: string,
    id: string,
    vector: Option<Vector>)

  /** Offset from a window's first line to its last line (inclusive). */
  const Window := 6
  /** Distance between the first lines of consecutive windows. */
  const Stride := 3

  /** The window's last line: six lines on, or the episode's last line if
      that comes first. */
  function WindowEnd(i: nat, n: nat): (e: nat)
    requires i < n
    ensures i <= e < n
    ensures e - i <= Window
    ensures e - i == Window <==> i + Window < n
  {
    if i + Window <= n - 1 then i + Window else n - 1
  }

  /** The `text` fields of some lines, in order. */
  function Texts(lines: seq<LineData>): (r: seq<string>)
    ensures |r| == |lines|
    ensures forall k :: 0 <= k < |lines| ==> r[k] == lines[k].text
  {
    if lines == [] then [] else [lines[0].text] + Texts(lines[1..])
  }

  /** The segment id: the episode number with its spaces made underscores,
      then the first and the last line index, joined by dashes. */
  function SegmentId(number: string, i: nat, e: nat): string {
    Replace(number, " ", "_") + "-" + NatToString(i) + "-" + NatToString(e)
  }

  /** The segment whose window starts at line i. */
  function SegmentAt(ep: EpisodeData, i: nat): Segment
    requires i < |ep.lines|
  {
    var e := WindowEnd(i, |ep.lines|);
    Segment(
      ep.lines[i].timestamp,
      ep.lines[e].timestamp,
      ep.episodeTitle,
      ep.episodeNumber,
      Join(" ", Texts(ep.lines[i..e + 1])),
      SegmentId(ep.episodeNumber, i, e),
      None)
  }

  /** create_segments: one segment per start index 0, 3, 6, ... below the
      number of lines, appended in that order. */
  method CreateSegments(ep: EpisodeData) returns (segments: seq<Segment>)
    ensures |segments| == (|ep.lines| + Stride - 1) / Stride
    ensures forall k :: 0 <= k < |segments| ==>
      k * Stride < |ep.lines| && segments[k] == SegmentAt(ep, k * Stride)
  {
    var n := |ep.lines|;
    segments := [];
    var i := 0;
    while i < n
      invariant i == |segments| * Stride
      invariant i <= n + Stride - 1
      invariant forall k :: 0 <= k < |segments| ==>
        k * Stride < n && segments[k] == SegmentAt(ep, k * Stride)
    {
      segments := segments + [SegmentAt(ep, i)];
      i := i + Stride;
    }
  }

  // ---------------------------------------------------------------- segment properties

  /** The start indices are exactly the multiples of the stride below n:
      there are ceil(n / 3) of them, none for an empty episode. */
  lemma {:induction false} SegmentStarts(n: nat, i: nat)
    ensures (i % Stride == 0 && i < n) <==>
      exists k :: 0 <= k < (n + Stride - 1) / Stride && i == k * Stride
  {
    if i % Stride == 0 && i < n {
      var k := i / Stride;
      assert i == k * Stride;
    }
  }

  /** A segment covers lines i..i_end inclusive: at least one and at most
      seven lines, starting and ending with those lines' timestamps, its text
      the single-space join of their texts, its episode fields the episode's. */
  lemma {:induction false} SegmentShape(ep: EpisodeData, i: nat)
    requires i < |ep.lines|
    ensures var s := SegmentAt(ep, i);
      var e := WindowEnd(i, |ep.lines|);
      var covered := ep.lines[i..e + 1];
      && 1 <= |covered| <= Window + 1
      && covered[0] == ep.lines[i] && covered[|covered| - 1] == ep.lines[e]
      && s.startTime == covered[0].timestamp
      && s.endTime == covered[|covered| - 1].timestamp
      && s.text == Join(" ", Texts(covered))
      && s.episodeTitle == ep.episodeTitle && s.episodeNumber == ep.episodeNumber
      && s.vector.None?
  {
  }

  /** Every line lies in the window of the segment starting at the greatest
      multiple of the stride not above it. */
  lemma {:induction false} LineCovered(ep: EpisodeData, j: nat)
    requires j < |ep.lines|
    ensures var i := (j / Stride) * Stride;
      i <= j <= WindowEnd(i, |ep.lines|)
  {
  }

  /** Consecutive windows overlap: the next window starts inside the
      current one, so every window after the first repeats lines. */
  lemma {:induction false} WindowsOverlap(n: nat, i: nat)
    requires i + Stride < n
    ensures i < i + Stride <= WindowEnd(i, n)
  {
  }

  /** In digits + "-" + x the first '-' follows the digits. */
  lemma {:induction false} FirstDash(a: string, b: string)
    requires AllDigits(a)
    ensures FindOrEnd(a + "-" + b, "-") == |a|
  {
    var s := a + "-" + b;
    FindOrEndChar(s, '-');
    assert s[|a|] == '-';
    forall j | 0 <= j < |a| ensures s[j] != '-' {
      assert s[j] == a[j];
    }
  }

  /** digits + "-" + x splits uniquely at its first '-'. */
  lemma {:induction false} DigitsDashSplit(a: string, b: string, c: string, d: string)
    requires AllDigits(a) && AllDigits(c)
    requires a + "-" + b == c + "-" + d
    ensures a == c && b == d
  {
    var s := a + "-" + b;
    FirstDash(a, b);
    FirstDash(c, d);
    assert a == s[..|a|] == c;
    assert b == s[|a| + 1..] == d;
  }

  /** Segment ids within one episode are distinct: the id determines the
      window's first line. */
  lemma {:induction false} SegmentIdInjective(ep: EpisodeData, i: nat, i': nat)
    requires i < |ep.lines| && i' < |ep.lines|
    requires SegmentAt(ep, i).id == SegmentAt(ep, i').id
    ensures i == i'
  {
    IdDeterminesWindow(ep.episodeNumber, i, WindowEnd(i, |ep.lines|), i', WindowEnd(i', |ep.lines|));
  }

  /** Under one episode number, an id determines both line indices. */
  lemma {:induction false} IdDeterminesWindow(number: string, i: nat, e: nat, i': nat, e': nat)
    requires SegmentId(number, i, e) == SegmentId(number, i', e')
    ensures i == i' && e == e'
  {
    var p := Replace(number, " ", "_") + "-";
    var x := NatToString(i) + "-" + NatToString(e);
    var x' := NatToString(i') + "-" + NatToString(e');
    assert p + x == SegmentId(number, i, e);
    assert p + x' == SegmentId(number, i', e');
    assert x == (p + x)[|p|..];
    assert x' == (p + x')[|p|..];
    DigitsDashSplit(NatToString(i), NatToString(e), NatToString(i'), NatToString(e'));
    NatToStringInjective(i, i');
    NatToStringInjective(e, e');
  }

  /** The ids hold no space: every space of the episode number became '_'. */
  lemma {:induction false} SegmentIdNoSpace(ep: EpisodeData, i: nat)
    requires i < |ep.lines|
    ensures ' ' !in SegmentAt(ep, i).id
  {
    var e := WindowEnd(i, |ep.lines|);
    ReplaceRemovesChar(ep.episodeNumber, ' ', "_");
    forall c | c in NatToString(i) + NatToString(e) ensures c != ' ' {
      assert IsDigit(c);
    }
    assert SegmentAt(ep, i).id ==
      Replace(ep.episodeNumber, " ", "_") + "-" + NatToString(i) + "-" + NatToString(e);
  }

  // ---------------------------------------------------------------- embedding

  /** Each segment with `vector` set to the embedding of its text. */
  function Embedded(segments: seq<Segment>, embed: string -> Vector): (r: seq<Segment>)
    ensures |r| == |segments|
  {
    seq(|segments|, k requires 0 <= k < |segments| =>
      segments[k].(vector := Some(embed(segments[k].text))))
  }

  /** Embedding sets every vector to the embedding of that segment's text
      and changes no other field. */
  lemma {:induction false} EmbeddedFields(segments: seq<Segment>, embed: string -> Vector)
    ensures forall k :: 0 <= k < |segments| ==>
      var s, t := segments[k], Embedded(segments, embed)[k];
      && t.vector == Some(embed(s.text))
      && t.startTime == s.startTime && t.endTime == s.endTime
      && t.episodeTitle == s.episodeTitle && t.episodeNumber == s.episodeNumber
      && t.text == s.text && t.id == s.id
  {
  }

  /** embed_segments: writes the k-th text's embedding into segment k of the
      caller's list, in place, and hands back the same list. */
  method EmbedSegments(segments: array<Segment>, embed: string -> Vector) returns (same: array<Segment>)
    modifies segments
    ensures same == segments
    ensures segments[..] == Embedded(old(segments[..]), embed)
  {
    ghost var before := segments[..];
    var k := 0;
    while k < segments.Length
      invariant 0 <= k <= segments.Length
      invariant segments[..k] == Embedded(before, embed)[..k]
      invariant segments[k..] == before[k..]
    {
      segments[k] := segments[k].(vector := Some(embed(segments[k].text)));
      k := k + 1;
    }
    same := segments;
  }
}
