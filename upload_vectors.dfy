/** Batch preparation and episode selection of scripts/upload_vectors.py:
    embedded segments are cut into overlapping batches of aligned ids,
    vectors and metadata records, and the transcript directory listing is
    narrowed to episode files in numeric order. */
module UploadVectors {
  import opened Wrappers
  import opened PyStrings
  import opened EmbedData

  // ================================================================ metadata

  /** The string-valued keys of a segment record. */
  datatype Field = EpisodeTitle | EpisodeNumber | StartTime | EndTime | Text | Id

  /** METADATA_FIELDS: every string-valued key except the id. */
  const MetadataFields: seq<Field> := [EpisodeTitle, EpisodeNumber, StartTime, EndTime, Text]

  /** The value a segment holds under a key; only the timestamps can be None. */
  function FieldValue(s: Segment, f: Field): Option<string> {
    match f
    case EpisodeTitle => Some(s.episodeTitle)
    case EpisodeNumber => Some(s.episodeNumber)
    case StartTime => s.startTime
    case EndTime => s.endTime
    case Text => Some(s.text)
    case Id => Some(s.id)
  }

  /** The metadata record of a segment: each listed field whose value is
      not None, mapped to that value. */
  function Metadata(s: Segment, fields: seq<Field>): map<Field, string> {
    map f | f in fields && FieldValue(s, f).Some? :: FieldValue(s, f).value
  }

  /** A metadata record holds exactly the listed fields whose value is not
      None, each with the segment's value; a None is left out, not stored. */
  lemma {:induction false} MetadataKeys(s: Segment, fields: seq<Field>)
    ensures forall f :: f in Metadata(s, fields) <==> f in fields && FieldValue(s, f).Some?
    ensures forall f :: f in Metadata(s, fields) ==> Some(Metadata(s, fields)[f]) == FieldValue(s, f)
  {
  }

  /** With METADATA_FIELDS the record always holds the title, the number and
      the text, holds each timestamp exactly when it is present, and never
      holds the id. */
  lemma {:induction false} StandardMetadata(s: Segment)
    ensures var m := Metadata(s, MetadataFields);
      && m.Keys == {EpisodeTitle, EpisodeNumber, Text}
                   + (if s.startTime.Some? then {StartTime} else {})
                   + (if s.endTime.Some? then {EndTime} else {})
      && m[EpisodeTitle] == s.episodeTitle
      && m[EpisodeNumber] == s.episodeNumber
      && m[Text] == s.text
      && (s.startTime.Some? ==> m[StartTime] == s.startTime.value)
      && (s.endTime.Some? ==> m[EndTime] == s.endTime.value)
  {
    var m := Metadata(s, MetadataFields);
    assert EpisodeTitle in MetadataFields && EpisodeNumber in MetadataFields;
    assert StartTime in MetadataFields && EndTime in MetadataFields && Text in MetadataFields;
    assert Id !in m;
  }

  // ================================================================ batches

  /** One yielded batch: ids, vectors and metadata of the same slice. */
  datatype Batch = Batch(ids: seq<string>, vectors: seq<Vector>, metadata: seq<map<Field, string>>)

  /** What iterating the generator produces: the batches yielded before it
      stops, and the exception it stops with, if any. */
  datatype Yielded = Yielded(batches: seq<Batch>, raised: Option<PyError>)

  /** The batch's last index: b segments on, or the last segment if that
      comes first. */
  function BatchEnd(n: nat, i: nat, b: nat): (e: nat)
    requires i < n
    ensures i <= e < n && e - i <= b
    ensures e - i == b <==> i + b < n
  {
    if n - 1 <= i + b then n - 1 else i + b
  }

  predicate AllEmbedded(segments: seq<Segment>) {
    forall k :: 0 <= k < |segments| ==> segments[k].vector.Some?
  }

  /** The three lists of one slice of embedded segments. */
  function SliceBatch(slice: seq<Segment>, fields: seq<Field>): (batch: Batch)
    requires AllEmbedded(slice)
    ensures |batch.ids| == |batch.vectors| == |batch.metadata| == |slice|
  {
    if slice == [] then Batch([], [], [])
    else
      var rest := SliceBatch(slice[1..], fields);
      Batch([slice[0].id] + rest.ids, [slice[0].vector.value] + rest.vectors,
            [Metadata(slice[0], fields)] + rest.metadata)
  }

  /** The lists are aligned: position k of each comes from segment k. */
  lemma {:induction false} SliceBatchAligned(slice: seq<Segment>, fields: seq<Field>)
    requires AllEmbedded(slice)
    ensures var batch := SliceBatch(slice, fields);
      forall k :: 0 <= k < |slice| ==>
        && batch.ids[k] == slice[k].id
        && slice[k].vector == Some(batch.vectors[k])
        && batch.metadata[k] == Metadata(slice[k], fields)
  {
    if slice != [] {
      SliceBatchAligned(slice[1..], fields);
    }
  }

  /** The batch over segments[i : i_end + 1]; reading `vector` from a segment
      that was never embedded raises KeyError. */
  function MakeBatch(segments: seq<Segment>, fields: seq<Field>, i: nat, b: nat): (r: Result<Batch>)
    requires i < |segments|
    ensures r.Err? ==> r.error == KeyError
  {
    var slice := segments[i..BatchEnd(|segments|, i, b) + 1];
    if AllEmbedded(slice) then Ok(SliceBatch(slice, fields)) else Err(KeyError)
  }

  /** A batch holds between 1 and b + 1 segments, and its ids, vectors and
      metadata are aligned: position k of each comes from segment i + k.  It
      fails exactly when a segment of its slice has no vector. */
  lemma {:induction false} BatchAligned(segments: seq<Segment>, fields: seq<Field>, i: nat, b: nat)
    requires i < |segments|
    ensures MakeBatch(segments, fields, i, b).Ok? <==>
      forall k :: i <= k <= BatchEnd(|segments|, i, b) ==> segments[k].vector.Some?
    ensures MakeBatch(segments, fields, i, b).Ok? ==>
      var batch := MakeBatch(segments, fields, i, b).value;
      var size := BatchEnd(|segments|, i, b) - i + 1;
      && 1 <= size <= b + 1
      && |batch.ids| == |batch.vectors| == |batch.metadata| == size
      && forall k :: 0 <= k < size ==>
           && batch.ids[k] == segments[i + k].id
           && segments[i + k].vector == Some(batch.vectors[k])
           && batch.metadata[k] == Metadata(segments[i + k], fields)
  {
    var slice := segments[i..BatchEnd(|segments|, i, b) + 1];
    assert forall k :: 0 <= k < |slice| ==> slice[k] == segments[i + k];
    if AllEmbedded(slice) {
      SliceBatchAligned(slice, fields);
    }
  }

  /** The generator's loop: the starts i, i + b, i + 2b, ... below n, each
      yielding the batch at that start until one raises. */
  function Generate(n: nat, b: nat, i: nat, batchAt: nat -> Result<Batch>): Yielded
    requires b > 0
    decreases n - i
  {
    if i >= n then Yielded([], None)
    else
      match batchAt(i)
      case Err(e) => Yielded([], Some(e))
      case Ok(batch) =>
        var rest := Generate(n, b, i + b, batchAt);
        Yielded([batch] + rest.batches, rest.raised)
  }

  /** The batch the loop body builds at each start below n. */
  function BatchMaker(segments: seq<Segment>, fields: seq<Field>, b: nat): nat -> Result<Batch> {
    (i: nat) => if i < |segments| then MakeBatch(segments, fields, i, b) else Err(KeyError)
  }

  /** prepare_batch iterated to the end: range(0, n, batch_size) raises
      ValueError for a zero step and is empty for a negative one. */
  function PrepareBatch(segments: seq<Segment>, fields: seq<Field>, batchSize: int): Yielded {
    if batchSize == 0 then Yielded([], Some(ValueError))
    else if batchSize < 0 then Yielded([], None)
    else Generate(|segments|, batchSize, 0, BatchMaker(segments, fields, batchSize))
  }

  /** A batch size that is not positive yields no batch: zero raises
      ValueError at once, a negative size finishes cleanly. */
  lemma {:induction false} NonPositiveBatchSize(segments: seq<Segment>, fields: seq<Field>, b: int)
    requires b <= 0
    ensures PrepareBatch(segments, fields, b).batches == []
    ensures PrepareBatch(segments, fields, b).raised.Some? <==> b == 0
    ensures PrepareBatch(segments, fields, b).raised.Some? ==> PrepareBatch(segments, fields, b).raised == Some(ValueError)
  {
  }

  /** Batch k of the loop from i is the batch at start i + k*b, below n. */
  lemma {:induction false} GenerateAt(n: nat, b: nat, i: nat, batchAt: nat -> Result<Batch>, k: nat)
    requires b > 0 && k < |Generate(n, b, i, batchAt).batches|
    ensures i + k * b < n
    ensures batchAt(i + k * b) == Ok(Generate(n, b, i, batchAt).batches[k])
    decreases k
  {
    if k > 0 {
      GenerateAt(n, b, i + b, batchAt, k - 1);
      NextStart(i, b, k);
    }
  }

  /** A clean finish means the next start would be at or past n; a stop
      means the batch at the next start raised that exception. */
  lemma {:induction false} GenerateEnd(n: nat, b: nat, i: nat, batchAt: nat -> Result<Batch>)
    requires b > 0
    ensures var y := Generate(n, b, i, batchAt);
      && (y.raised.None? ==> i + |y.batches| * b >= n)
      && (y.raised.Some? ==>
            && i + |y.batches| * b < n
            && batchAt(i + |y.batches| * b) == Err(y.raised.value))
    decreases n - i
  {
    if i < n && batchAt(i).Ok? {
      GenerateEnd(n, b, i + b, batchAt);
      NextStart(i, b, |Generate(n, b, i, batchAt).batches|);
    }
  }

  /** When no start below n raises, the loop finishes cleanly. */
  lemma {:induction false} GenerateCompletes(n: nat, b: nat, i: nat, batchAt: nat -> Result<Batch>)
    requires b > 0
    requires forall j: nat :: j < n ==> batchAt(j).Ok?
    ensures Generate(n, b, i, batchAt).raised.None?
    decreases n - i
  {
    if i < n {
      GenerateCompletes(n, b, i + b, batchAt);
    }
  }

  /** Start k counted from i is start k - 1 counted from i + b. */
  lemma {:induction false} NextStart(i: nat, b: nat, k: nat)
    requires k >= 1
    ensures i + k * b == (i + b) + (k - 1) * b
  {
    assert k * b == (k - 1) * b + b;
  }

  /** With a positive batch size the batches start exactly at 0, b, 2b, ...
      below n; an empty list yields no batch. */
  lemma {:induction false} PrepareBatchStarts(segments: seq<Segment>, fields: seq<Field>, b: nat)
    requires b > 0
    ensures var y := PrepareBatch(segments, fields, b);
      && (forall k :: 0 <= k < |y.batches| ==>
            k * b < |segments| && MakeBatch(segments, fields, k * b, b) == Ok(y.batches[k]))
      && (segments == [] ==> y == Yielded([], None))
  {
    var f := BatchMaker(segments, fields, b);
    var y := Generate(|segments|, b, 0, f);
    assert PrepareBatch(segments, fields, b) == y;
    forall k | 0 <= k < |y.batches|
      ensures k * b < |segments| && MakeBatch(segments, fields, k * b, b) == Ok(y.batches[k])
    {
      GenerateAt(|segments|, b, 0, f, k);
    }
  }

  /** Generation runs to the end of the list, or stops early only with
      KeyError, at a batch holding a segment without a vector. */
  lemma {:induction false} PrepareBatchStops(segments: seq<Segment>, fields: seq<Field>, b: nat)
    requires b > 0
    ensures var y := PrepareBatch(segments, fields, b);
      && (y.raised.None? ==> |y.batches| * b >= |segments|)
      && (y.raised.Some? ==>
            && y.raised == Some(KeyError)
            && |y.batches| * b < |segments|
            && MakeBatch(segments, fields, |y.batches| * b, b).Err?)
  {
    var f := BatchMaker(segments, fields, b);
    assert PrepareBatch(segments, fields, b) == Generate(|segments|, b, 0, f);
    GenerateEnd(|segments|, b, 0, f);
  }

  /** Embedded segments never raise: every start below n yields a batch. */
  lemma {:induction false} EmbeddedBatchesComplete(segments: seq<Segment>, fields: seq<Field>, b: nat)
    requires b > 0 && AllEmbedded(segments)
    ensures PrepareBatch(segments, fields, b).raised.None?
  {
    var f := BatchMaker(segments, fields, b);
    forall j: nat | j < |segments| ensures f(j).Ok? {
      BatchAligned(segments, fields, j, b);
    }
    GenerateCompletes(|segments|, b, 0, f);
  }

  /** The segments of one episode, once embedded, go out in full: no
      exception, and every segment sits in some batch, at its own position
      in the slice. */
  lemma {:induction false} EmbeddedSegmentsCovered(segments: seq<Segment>, fields: seq<Field>, b: nat, j: nat)
    requires b > 0 && AllEmbedded(segments) && j < |segments|
    ensures var y := PrepareBatch(segments, fields, b);
      && y.raised.None?
      && exists k :: 0 <= k < |y.batches| && k * b <= j < k * b + |y.batches[k].ids|
           && y.batches[k].ids[j - k * b] == segments[j].id
  {
    var f := BatchMaker(segments, fields, b);
    var y := Generate(|segments|, b, 0, f);
    assert PrepareBatch(segments, fields, b) == y;
    EmbeddedBatchesComplete(segments, fields, b);
    var k := GenerateCovers(|segments|, b, 0, f, j);
    var start := 0 + k * b;
    InBatch(segments, fields, b, start, j, y.batches[k]);
    assert start == k * b;
    assert k * b <= j < k * b + |y.batches[k].ids| && y.batches[k].ids[j - k * b] == segments[j].id;
  }

  /** A loop that finishes cleanly yields a batch whose start lies within b
      before any index at or past its first start. */
  lemma {:induction false} GenerateCovers(n: nat, b: nat, i: nat, batchAt: nat -> Result<Batch>, j: nat)
    returns (k: nat)
    requires b > 0 && i <= j < n && Generate(n, b, i, batchAt).raised.None?
    ensures k < |Generate(n, b, i, batchAt).batches|
    ensures i <= i + k * b <= j < i + k * b + b
    ensures batchAt(i + k * b) == Ok(Generate(n, b, i, batchAt).batches[k])
    decreases n - i
  {
    if j < i + b {
      k := 0;
    } else {
      var k' := GenerateCovers(n, b, i + b, batchAt, j);
      k := k' + 1;
      NextStart(i, b, k);
    }
  }

  /** A segment less than b past a batch's start sits in that batch, at its
      offset from the start. */
  lemma {:induction false} InBatch(segments: seq<Segment>, fields: seq<Field>, b: nat, i: nat, j: nat, x: Batch)
    requires i <= j < |segments| && j < i + b
    requires MakeBatch(segments, fields, i, b) == Ok(x)
    ensures j - i < |x.ids| && x.ids[j - i] == segments[j].id
  {
    BatchAligned(segments, fields, i, b);
  }

  /** The script's pipeline: segments that went through the embedding step
      all carry a vector, so batching them with a positive batch size stops
      cleanly. */
  lemma {:induction false} EmbeddedUploadCompletes(segments: seq<Segment>, embed: string -> Vector,
                                fields: seq<Field>, b: nat)
    requires b > 0
    ensures AllEmbedded(Embedded(segments, embed))
    ensures PrepareBatch(Embedded(segments, embed), fields, b).raised.None?
  {
    EmbeddedFields(segments, embed);
    EmbeddedBatchesComplete(Embedded(segments, embed), fields, b);
  }

  /** Consecutive batches overlap by one segment: a batch that has a
      successor is full, holding b + 1 segments, and its last segment is the
      first segment of the next. */
  lemma {:induction false} BatchesOverlap(segments: seq<Segment>, fields: seq<Field>, b: nat, k: nat)
    requires b > 0
    requires k + 1 < |PrepareBatch(segments, fields, b).batches|
    ensures var y := PrepareBatch(segments, fields, b);
      && |y.batches[k].ids| == |y.batches[k].vectors| == |y.batches[k].metadata| == b + 1
      && |y.batches[k + 1].ids| == |y.batches[k + 1].vectors| == |y.batches[k + 1].metadata| >= 1
      && y.batches[k].ids[b] == y.batches[k + 1].ids[0]
      && y.batches[k].vectors[b] == y.batches[k + 1].vectors[0]
      && y.batches[k].metadata[b] == y.batches[k + 1].metadata[0]
  {
    var f := BatchMaker(segments, fields, b);
    var y := Generate(|segments|, b, 0, f);
    assert PrepareBatch(segments, fields, b) == y;
    var start := ConsecutiveStarts(|segments|, b, 0, f, k);
    OverlapAt(segments, fields, b, start, y.batches[k], y.batches[k + 1]);
  }

  /** Batches k and k + 1 of the loop come from starts b apart. */
  lemma {:induction false} ConsecutiveStarts(n: nat, b: nat, i: nat, batchAt: nat -> Result<Batch>, k: nat)
    returns (start: nat)
    requires b > 0 && k + 1 < |Generate(n, b, i, batchAt).batches|
    ensures start + b < n
    ensures batchAt(start) == Ok(Generate(n, b, i, batchAt).batches[k])
    ensures batchAt(start + b) == Ok(Generate(n, b, i, batchAt).batches[k + 1])
    decreases k
  {
    if k == 0 {
      start := i;
    } else {
      start := ConsecutiveStarts(n, b, i + b, batchAt, k - 1);
    }
  }

  /** The batches starting at i and i + b share segment i + b. */
  lemma {:induction false} OverlapAt(segments: seq<Segment>, fields: seq<Field>, b: nat, i: nat, x: Batch, x': Batch)
    requires i + b < |segments|
    requires MakeBatch(segments, fields, i, b) == Ok(x)
    requires MakeBatch(segments, fields, i + b, b) == Ok(x')
    ensures |x.ids| == |x.vectors| == |x.metadata| == b + 1
    ensures |x'.ids| == |x'.vectors| == |x'.metadata| >= 1
    ensures x.ids[b] == x'.ids[0] && x.vectors[b] == x'.vectors[0] && x.metadata[b] == x'.metadata[0]
  {
    BatchEnds(segments, fields, i, b);
    BatchEnds(segments, fields, i + b, b);
  }

  /** The first and last entries of a batch come from the first and last
      segments of its slice. */
  lemma {:induction false} BatchEnds(segments: seq<Segment>, fields: seq<Field>, i: nat, b: nat)
    requires i < |segments| && MakeBatch(segments, fields, i, b).Ok?
    ensures var batch := MakeBatch(segments, fields, i, b).value;
      var e := BatchEnd(|segments|, i, b);
      && |batch.ids| == |batch.vectors| == |batch.metadata| == e - i + 1
      && batch.ids[0] == segments[i].id
      && segments[i].vector == Some(batch.vectors[0])
      && batch.metadata[0] == Metadata(segments[i], fields)
      && batch.ids[e - i] == segments[e].id
      && segments[e].vector == Some(batch.vectors[e - i])
      && batch.metadata[e - i] == Metadata(segments[e], fields)
  {
    BatchAligned(segments, fields, i, b);
  }

  // ================================================================ episode selection

  /** The names of the listing that start with "episode", in listing order. */
  function EpisodeFiles(names: seq<string>): (r: seq<string>)
    ensures forall x :: x in r <==> x in names && StartsWith(x, "episode")
    ensures forall x :: multiset(r)[x] == if StartsWith(x, "episode") then multiset(names)[x] else 0
  {
    if names == [] then []
    else
      assert names == [names[0]] + names[1..];
      (if StartsWith(names[0], "episode") then [names[0]] else []) + EpisodeFiles(names[1..])
  }

  /** The sort key: the integer value of the name with every "episode"
      removed, None where int() raises ValueError. */
  function EpisodeKey(name: string): Option<int> {
    PyInt(Replace(name, "episode", ""))
  }

  /** The file of episode n, "episode" followed by n's digits, has key n. */
  lemma {:induction false} EpisodeKeyOfName(n: nat)
    ensures EpisodeKey("episode" + NatToString(n)) == Some(n)
  {
    var d := NatToString(n);
    assert 'e' !in d by {
      forall c | c in d ensures c != 'e' {
        assert IsDigit(c);
      }
    }
    ReplaceAbsent(d, "episode", "");
    assert StartsWith("episode" + d, "episode");
    assert ("episode" + d)[|"episode"|..] == d;
    assert Replace("episode" + d, "episode", "") == d;
    PyIntRendering(n);
  }

  /** Every name has an integer key; `sorted` computes all keys before it
      compares, so one bad key raises ValueError. */
  predicate AllKeyed(names: seq<string>) {
    forall k :: 0 <= k < |names| ==> EpisodeKey(names[k]).Some?
  }

  /** The key as `sorted` sees it once every key has parsed. */
  function KeyOf(name: string): int {
    match EpisodeKey(name)
    case Some(v) => v
    case None => 0
  }

  predicate SortedBy(names: seq<string>, key: string -> int) {
    forall i, j :: 0 <= i < j < |names| ==> key(names[i]) <= key(names[j])
  }

  /** Puts x before the first name whose key is not below x's. */
  function Insert(x: string, names: seq<string>, key: string -> int): (r: seq<string>)
    requires SortedBy(names, key)
    ensures SortedBy(r, key)
    ensures multiset(r) == multiset(names) + multiset{x}
  {
    if names == [] || key(x) <= key(names[0]) then
      ConsSorted(x, names, key);
      [x] + names
    else
      var rest := Insert(x, names[1..], key);
      assert names == [names[0]] + names[1..];
      LowerBoundKept(key(names[0]), x, names[1..], rest, key);
      ConsSorted(names[0], rest, key);
      [names[0]] + rest
  }

  /** A name whose key bounds the keys of a sorted list can go in front. */
  lemma {:induction false} ConsSorted(h: string, names: seq<string>, key: string -> int)
    requires SortedBy(names, key)
    requires names != [] ==> key(h) <= key(names[0])
    ensures SortedBy([h] + names, key)
  {
    var r := [h] + names;
    forall i, j | 0 <= i < j < |r| ensures key(r[i]) <= key(r[j]) {
      if i > 0 {
        assert r[i] == names[i - 1] && r[j] == names[j - 1];
      } else if names != [] {
        assert r[j] == names[j - 1];
        assert j == 1 || key(names[0]) <= key(names[j - 1]);
      }
    }
  }

  /** A lower bound on the keys of some names and of x bounds every key of
      a list holding exactly those names and x. */
  lemma {:induction false} LowerBoundKept(lo: int, x: string, names: seq<string>, r: seq<string>, key: string -> int)
    requires multiset(r) == multiset(names) + multiset{x}
    requires lo <= key(x) && forall j :: 0 <= j < |names| ==> lo <= key(names[j])
    ensures forall j :: 0 <= j < |r| ==> lo <= key(r[j])
  {
    forall j | 0 <= j < |r| ensures lo <= key(r[j]) {
      assert r[j] in multiset(r);
      if r[j] != x {
        assert r[j] in multiset(names);
        var m :| 0 <= m < |names| && names[m] == r[j];
      }
    }
  }

  /** Sorting by a key, written as an insertion sort, which keeps names with equal
      keys in their listing order. */
  function SortBy(names: seq<string>, key: string -> int): (r: seq<string>)
    ensures SortedBy(r, key)
    ensures multiset(r) == multiset(names)
  {
    if names == [] then []
    else
      assert names == [names[0]] + names[1..];
      Insert(names[0], SortBy(names[1..], key), key)
  }

  /** The episode list of the upload script for the --episode argument and
      the transcript directory listing. */
  function SelectEpisodes(arg: string, listing: seq<string>): Result<seq<string>> {
    if arg == "all" then
      var eps := EpisodeFiles(listing);
      if AllKeyed(eps) then Ok(SortBy(eps, KeyOf)) else Err(ValueError)
    else Ok([arg])
  }

  /** Any argument other than "all" names the single episode to process. */
  lemma {:induction false} SelectOne(arg: string, listing: seq<string>)
    requires arg != "all"
    ensures SelectEpisodes(arg, listing) == Ok([arg])
  {
  }

  /** With "all": the selection fails with ValueError exactly when some
      episode file's key is not an integer; otherwise it holds every episode
      file of the listing, as often as it is listed and nothing else, in
      ascending key order. */
  lemma {:induction false} SelectAll(listing: seq<string>)
    ensures SelectEpisodes("all", listing).Err? <==> !AllKeyed(EpisodeFiles(listing))
    ensures SelectEpisodes("all", listing).Err? ==> SelectEpisodes("all", listing).error == ValueError
    ensures SelectEpisodes("all", listing).Ok? ==>
      var r := SelectEpisodes("all", listing).value;
      && multiset(r) == multiset(EpisodeFiles(listing))
      && (forall x :: x in r <==> x in listing && StartsWith(x, "episode"))
      && AllKeyed(r)
      && (forall i, j :: 0 <= i < j < |r| ==> EpisodeKey(r[i]).value <= EpisodeKey(r[j]).value)
  {
    var eps := EpisodeFiles(listing);
    if AllKeyed(eps) {
      SortedEpisodes(eps);
    }
  }

  /** Sorting keyed names keeps them, with their keys, and orders them by
      key. */
  lemma {:induction false} SortedEpisodes(eps: seq<string>)
    requires AllKeyed(eps)
    ensures var r := SortBy(eps, KeyOf);
      && multiset(r) == multiset(eps)
      && (forall x :: x in r <==> x in eps)
      && AllKeyed(r)
      && (forall i, j :: 0 <= i < j < |r| ==> EpisodeKey(r[i]).value <= EpisodeKey(r[j]).value)
  {
    var r := SortBy(eps, KeyOf);
    forall x ensures x in r <==> x in eps {
      assert x in r <==> x in multiset(r);
      assert x in eps <==> x in multiset(eps);
    }
    forall k | 0 <= k < |r| ensures EpisodeKey(r[k]).Some? {
      assert r[k] in eps;
      var m :| 0 <= m < |eps| && eps[m] == r[k];
    }
    KeyedOrder(r);
  }

  /** On keyed names, KeyOf is the parsed key. */
  lemma {:induction false} KeyedOrder(r: seq<string>)
    requires AllKeyed(r) && SortedBy(r, KeyOf)
    ensures forall i, j :: 0 <= i < j < |r| ==> EpisodeKey(r[i]).value <= EpisodeKey(r[j]).value
  {
    forall i, j | 0 <= i < j < |r|
      ensures EpisodeKey(r[i]).value <= EpisodeKey(r[j]).value
    {
      assert KeyOf(r[i]) <= KeyOf(r[j]);
    }
  }
}
