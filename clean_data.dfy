/** The transcript cleaner (scripts/clean_data.py): the line classifier, the
    episode header parser and the cleaning pipeline that turns the raw lines
    of one transcript file into an episode record. */
module CleanData {
  import opened Wrappers
  import opened PyStrings

  /** One classified transcript line: the dictionary
      {'speaker', 'timestamp', 'text'}; a timestamp of None is Option.None. */
  datatype LineData = LineData(speaker: string, timestamp: Option<string>, text: string)

  /** The dictionary {'episode_number', 'episode_title', 'lines'}. */
  datatype EpisodeData = EpisodeData(episodeNumber: string, episodeTitle: string, lines: seq<LineData>)

  /** Index of the header line holding "... | <number> - <title>" (line 13). */
  const HeaderIndex := 12
  /** The UTF-8 en dash read as cp1252, surrounded by spaces. */
  const MisencodedDash := " \U{E2}\U{20AC}\U{201C} "
  const Dash := " - "
  const NumberSeparator := " | "
  const OpeningPhrase := "we're the office ladies"
  const ClosingPhrase := "thank you for listening to office ladies"

  // ================================================================ line classifier

  /** The regular expression \[\d{2}:\d{2}:\d{2}\] matches at index k. */
  predicate TimecodeAt(line: string, k: nat) {
    && k + 10 <= |line|
    && line[k] == '[' && IsDigit(line[k + 1]) && IsDigit(line[k + 2]) && line[k + 3] == ':'
    && IsDigit(line[k + 4]) && IsDigit(line[k + 5]) && line[k + 6] == ':'
    && IsDigit(line[k + 7]) && IsDigit(line[k + 8]) && line[k + 9] == ']'
  }

  /** re.search finds the timecode pattern somewhere in the line. */
  predicate HasTimecode(line: string) {
    exists k | 0 <= k < |line| :: TimecodeAt(line, k)
  }

  /** A timecode anywhere puts a '[' in the line, so split('[') has a second piece. */
  lemma {:induction false} TimecodeGivesBracket(line: string)
    requires HasTimecode(line)
    ensures |Split(line, "[")| >= 2
  {
    var k :| 0 <= k < |line| && TimecodeAt(line, k);
    SplitAtOccurrence(line, "[", k);
  }

  /** A leading timecode ends at the first ']' of the line, index 9. */
  lemma {:induction false} LeadingTimecodeBracket(line: string)
    requires TimecodeAt(line, 0)
    ensures Find(line, "]") == Some(9)
  {
    assert OccursAt(line, "]", 9);
    FindSpec(line, "]");
    forall k: nat | k < 9 ensures !OccursAt(line, "]", k) {
      assert line[k..k + 1][0] == line[k] != ']';
    }
  }

  /** extract_line_metadata: three split-based grammars chosen by whether a
      timecode occurs and whether it opens the line. */
  function ExtractLineMetadata(line: string): (r: Result<LineData>)
    ensures r.Err? ==> r.error == IndexError
  {
    if !HasTimecode(line) then ColonGrammar(line)
    else if TimecodeAt(line, 0) then LeadingTimecodeGrammar(line)
    else TrailingTimecodeGrammar(line)
  }

  /** "speaker: text": split(':'), pieces 0 and 1 stripped; no ':' raises IndexError. */
  function ColonGrammar(line: string): (r: Result<LineData>)
    ensures r.Err? ==> r.error == IndexError
  {
    var parts := Split(line, ":");
    if |parts| < 2 then Err(IndexError)
    else Ok(LineData(Strip(parts[0]), None, Strip(parts[1])))
  }

  /** "[timestamp] speaker text": split(']'); the timestamp is piece 0 without
      its '['; piece 1, stripped, is split(' ') into the speaker and the words
      joined back with ' '. */
  function LeadingTimecodeGrammar(line: string): (r: Result<LineData>)
    requires TimecodeAt(line, 0)
    ensures r.Ok?
  {
    LeadingTimecodeBracket(line);
    var parts := Split(line, "]");
    var words := Split(Strip(parts[1]), " ");
    Ok(LineData(words[0], Some(Replace(Strip(parts[0]), "[", "")), Join(" ", words[1..])))
  }

  /** "speaker [timestamp] text": split('['); piece 1 is split(']') into the
      timestamp and the text; a piece 1 with no ']' raises IndexError. */
  function TrailingTimecodeGrammar(line: string): (r: Result<LineData>)
    requires HasTimecode(line)
    ensures r.Err? ==> r.error == IndexError
  {
    TimecodeGivesBracket(line);
    var parts := Split(line, "[");
    var inner := Split(parts[1], "]");
    if |inner| < 2 then Err(IndexError)
    else Ok(LineData(Strip(parts[0]), Some(Strip(inner[0])), Strip(inner[1])))
  }

  /** A classified line has no timestamp exactly when the raw line held no
      timecode anywhere. */
  lemma {:induction false} TimestampAbsentIff(line: string)
    requires ExtractLineMetadata(line).Ok?
    ensures ExtractLineMetadata(line).value.timestamp.None? <==> !HasTimecode(line)
  {
  }

  /** Without a timecode the line is cut at its colons: the speaker is the
      stripped text before the first ':', the text is the stripped piece
      between the first and the second ':' (anything after a second ':' is
      lost), an empty speaker is accepted, and a line with no ':' raises
      IndexError. */
  lemma {:induction false} NoTimecodeLine(line: string)
    requires !HasTimecode(line)
    ensures var c := FindOrEnd(line, ":");
      && (c == |line| <==> ':' !in line)
      && (c == |line| ==> ExtractLineMetadata(line) == Err(IndexError))
      && (c < |line| ==>
            var rest := line[c + 1..];
            ExtractLineMetadata(line) ==
              Ok(LineData(Strip(line[..c]), None, Strip(rest[..FindOrEnd(rest, ":")]))))
  {
    var c := FindOrEnd(line, ":");
    FindOrEndChar(line, ':');
    SplitHead(line, ":");
    if c < |line| {
      SplitHead(line[c + 1..], ":");
    }
  }

  /** A line opening with [HH:MM:SS]: the timestamp is the eight characters
      inside the brackets; the speaker is the first space-separated word of
      what follows the bracket (stripped, and cut at the next ']'), and the
      text is everything after that word's space, spaces kept as they were. */
  lemma {:induction false} LeadingTimecodeLine(line: string)
    requires TimecodeAt(line, 0)
    ensures var tail := line[10..];
      var seg := Strip(tail[..FindOrEnd(tail, "]")]);
      var w := FindOrEnd(seg, " ");
      ExtractLineMetadata(line) ==
        Ok(LineData(seg[..w], Some(line[1..9]), if w < |seg| then seg[w + 1..] else ""))
  {
    var tail := line[10..];
    var seg := Strip(tail[..FindOrEnd(tail, "]")]);
    assert HasTimecode(line);
    LeadingTimecodeBracket(line);
    SplitHead(line, "]");
    SplitHead(tail, "]");
    var parts := Split(line, "]");
    assert parts[0] == line[..9];
    assert parts[1] == tail[..FindOrEnd(tail, "]")];
    BracketedTimestamp(line);
    FirstWord(seg);
  }

  /** Strip leaves the bracketed token of a leading timecode alone and the
      replace drops its '['. */
  lemma {:induction false} BracketedTimestamp(line: string)
    requires TimecodeAt(line, 0)
    ensures Replace(Strip(line[..9]), "[", "") == line[1..9]
  {
    StripUnchanged(line[..9]);
    assert line[..9] == "[" + line[1..9];
    assert '[' !in line[1..9] by {
      forall i | 1 <= i < 9 ensures line[i] != '[' {}
    }
    ReplaceAtStart(line[1..9], "[", "");
    ReplaceAbsent(line[1..9], "[", "");
  }

  /** Splitting at spaces and joining all pieces but the first gives back
      everything after the first space. */
  lemma {:induction false} FirstWord(seg: string)
    ensures var w := FindOrEnd(seg, " ");
      var words := Split(seg, " ");
      && words != []
      && words[0] == seg[..w]
      && Join(" ", words[1..]) == if w < |seg| then seg[w + 1..] else ""
  {
    SplitTail(seg, " ");
  }

  /** A line whose timecode does not open it: the speaker is the stripped
      text before the first '['; of the piece between that '[' and the next
      '[', the timestamp is the stripped text before its first ']' and the
      text is the stripped text between that ']' and the next one; a piece
      with no ']' raises IndexError. */
  lemma {:induction false} TrailingTimecodeLine(line: string)
    requires HasTimecode(line) && !TimecodeAt(line, 0)
    ensures var p := FindOrEnd(line, "[");
      && p < |line|
      && var after := line[p + 1..];
         var piece := after[..FindOrEnd(after, "[")];
         var q := FindOrEnd(piece, "]");
         && (q == |piece| ==> ExtractLineMetadata(line) == Err(IndexError))
         && (q < |piece| ==>
               var t := piece[q + 1..];
               ExtractLineMetadata(line) ==
                 Ok(LineData(Strip(line[..p]), Some(Strip(piece[..q])), Strip(t[..FindOrEnd(t, "]")]))))
  {
    assert ExtractLineMetadata(line) == TrailingTimecodeGrammar(line);
    TimecodeGivesBracket(line);
    SplitHead(line, "[");
    var p := FindOrEnd(line, "[");
    var parts := Split(line, "[");
    var after := line[p + 1..];
    SplitHead(after, "[");
    var piece := after[..FindOrEnd(after, "[")];
    assert parts[0] == line[..p] && parts[1] == piece;
    SplitHead(piece, "]");
    var q := FindOrEnd(piece, "]");
    if q < |piece| {
      SplitHead(piece[q + 1..], "]");
    }
  }

  /** The common case "Pam [00:12:34] hello there": when the timecode's '['
      is the first '[' and no bracket follows the timecode, the line splits
      into the stripped speaker, the eight timecode characters and the
      stripped remainder. */
  lemma {:induction false} SpeakerTimecodeTextLine(line: string, k: nat)
    requires TimecodeAt(line, k) && k > 0
    requires '[' !in line[..k]
    requires '[' !in line[k + 10..] && ']' !in line[k + 10..]
    ensures ExtractLineMetadata(line) ==
      Ok(LineData(Strip(line[..k]), Some(line[k + 1..k + 9]), Strip(line[k + 10..])))
  {
    assert HasTimecode(line) by { assert TimecodeAt(line, k); }
    assert !TimecodeAt(line, 0) by { assert line[..k][0] == line[0]; }
    TrailingTimecodeLine(line);
    OpensAt(line, k);
    var after := line[k + 1..];
    CloseAfterTimecode(line, k);
    var t := after[9..];
    assert t == line[k + 10..];
    FindOrEndChar(t, ']');
    assert t[..|t|] == t;
  }

  /** With no '[' before k, the timecode's '[' at k is the first one. */
  lemma {:induction false} OpensAt(line: string, k: nat)
    requires TimecodeAt(line, k) && '[' !in line[..k]
    ensures FindOrEnd(line, "[") == k
  {
    FindOrEndChar(line, '[');
    forall j | 0 <= j < k ensures line[j] != '[' {
      assert line[j] == line[..k][j];
    }
  }

  /** After the timecode's '[', with no bracket past the timecode, the piece
      runs to the end of the line and its first ']' closes the timecode. */
  lemma {:induction false} CloseAfterTimecode(line: string, k: nat)
    requires TimecodeAt(line, k)
    requires '[' !in line[k + 10..]
    ensures var after := line[k + 1..];
      && FindOrEnd(after, "[") == |after|
      && after[..|after|] == after
      && FindOrEnd(after, "]") == 8
      && Strip(after[..8]) == line[k + 1..k + 9]
  {
    var after := line[k + 1..];
    assert '[' !in after by {
      forall j | 0 <= j < |after| ensures after[j] != '[' {
        if j >= 9 {
          assert after[j] == line[k + 10..][j - 9];
        }
      }
    }
    FindOrEndChar(after, '[');
    FindOrEndChar(after, ']');
    assert after[8] == ']';
    assert after[..8] == line[k + 1..k + 9];
    StripUnchanged(after[..8]);
  }

  // ================================================================ episode header

  /** The en-dash repair applied to line 13 before it is parsed. */
  function NormalizeDash(line: string): string {
    Replace(line, MisencodedDash, Dash)
  }

  /** extract_episode_info after the repair: split at " - ", take the last
      " | "-piece of the first part as the number and the second part as the
      title; a header with no " - " raises IndexError. */
  function ParseEpisodeInfo(header: string): Result<(string, string)> {
    var info := Split(header, Dash);
    if |info| < 2 then Err(IndexError)
    else
      var numberParts := Split(info[0], NumberSeparator);
      Ok((Strip(numberParts[|numberParts| - 1]), Strip(info[1])))
  }

  /** The header parse in terms of the separators: the title is the stripped
      text between the first and the second " - ", the number is the stripped
      last " | "-piece of the text before the first " - ", and a header with
      no " - " raises IndexError. */
  lemma {:induction false} EpisodeInfoParts(header: string)
    ensures var d := FindOrEnd(header, Dash);
      && (d == |header| <==> ParseEpisodeInfo(header).Err?)
      && (d < |header| ==>
            var rest := header[d + |Dash|..];
            var pieces := Split(header[..d], NumberSeparator);
            ParseEpisodeInfo(header) ==
              Ok((Strip(pieces[|pieces| - 1]), Strip(rest[..FindOrEnd(rest, Dash)]))))
  {
    var d := FindOrEnd(header, Dash);
    SplitHead(header, Dash);
    if d < |header| {
      SplitSecond(header, Dash);
    }
  }

  /** extract_episode_info: rewrites element 12 of the caller's list in place
      (the en-dash repair) and parses it; a list of 12 lines or fewer raises
      IndexError before anything is written. */
  method ExtractEpisodeInfo(lines: array<string>) returns (r: Result<(string, string)>)
    modifies lines
    ensures lines.Length <= HeaderIndex ==> r == Err(IndexError) && lines[..] == old(lines[..])
    ensures lines.Length > HeaderIndex ==>
      && lines[..] == old(lines[..])[HeaderIndex := NormalizeDash(old(lines[HeaderIndex]))]
      && r == ParseEpisodeInfo(lines[HeaderIndex])
  {
    if lines.Length <= HeaderIndex {
      return Err(IndexError);
    }
    lines[HeaderIndex] := NormalizeDash(lines[HeaderIndex]);
    r := ParseEpisodeInfo(lines[HeaderIndex]);
  }

  // ================================================================ body filters

  predicate IsNoise(line: string) {
    line == "COMMERCIAL BREAK" || line == "BREAK" || line == "-"
  }

  /** Every line stripped of surrounding whitespace; lines that strip to
      nothing are dropped. */
  function StripNonBlank(lines: seq<string>): seq<string> {
    if lines == [] then []
    else
      var last := Strip(lines[|lines| - 1]);
      StripNonBlank(lines[..|lines| - 1]) + (if last != "" then [last] else [])
  }

  /** The lines that are not one of the three noise tokens. */
  function DropNoise(lines: seq<string>): seq<string> {
    if lines == [] then []
    else
      var last := lines[|lines| - 1];
      DropNoise(lines[..|lines| - 1]) + (if !IsNoise(last) then [last] else [])
  }

  /** A raw line survives both filters. */
  predicate Survives(line: string) {
    Strip(line) != "" && !IsNoise(Strip(line))
  }

  /** The indices, in increasing order, of the elements that keep holds of. */
  function Indices<T>(src: seq<T>, keep: T -> bool): (idx: seq<nat>)
    ensures |idx| <= |src|
    ensures forall t :: 0 <= t < |idx| ==> idx[t] < |src| && keep(src[idx[t]])
    ensures forall t, u :: 0 <= t < u < |idx| ==> idx[t] < idx[u]
    ensures forall j :: 0 <= j < |src| && keep(src[j]) ==> j in idx
  {
    if src == [] then []
    else
      var n := |src| - 1;
      var prev := Indices(src[..n], keep);
      assert forall t :: 0 <= t < |prev| ==> src[prev[t]] == src[..n][prev[t]];
      assert forall j :: 0 <= j < n ==> src[j] == src[..n][j];
      prev + (if keep(src[n]) then [n] else [])
  }

  /** The indices, in increasing order, of the raw lines that survive. */
  function Survivors(src: seq<string>): (idx: seq<nat>)
    ensures |idx| <= |src|
    ensures forall t :: 0 <= t < |idx| ==> idx[t] < |src| && Survives(src[idx[t]])
    ensures forall t, u :: 0 <= t < u < |idx| ==> idx[t] < idx[u]
    ensures forall j :: 0 <= j < |src| && Survives(src[j]) ==> j in idx
  {
    Indices(src, Survives)
  }

  /** One more raw line adds its own index exactly when it survives. */
  lemma SurvivorsStep(src: seq<string>)
    requires src != []
    ensures var n := |src| - 1;
      Survivors(src) == Survivors(src[..n]) + (if Survives(src[n]) then [n] else [])
  {
  }

  /** The two filters keep exactly the surviving lines, stripped, in order. */
  lemma {:induction false} FiltersKeepSurvivors(src: seq<string>)
    ensures |DropNoise(StripNonBlank(src))| == |Survivors(src)|
    ensures forall t :: 0 <= t < |Survivors(src)| ==>
      DropNoise(StripNonBlank(src))[t] == Strip(src[Survivors(src)[t]])
  {
    if src != [] {
      var n := |src| - 1;
      FiltersKeepSurvivors(src[..n]);
      FiltersStep(src);
      var kept, kept' := DropNoise(StripNonBlank(src)), DropNoise(StripNonBlank(src[..n]));
      var idx, prev := Survivors(src), Survivors(src[..n]);
      SurvivorsStep(src);
      forall t | 0 <= t < |idx| ensures kept[t] == Strip(src[idx[t]]) {
        if t < |prev| {
          assert kept[t] == kept'[t] && idx[t] == prev[t];
          assert src[prev[t]] == src[..n][prev[t]];
        }
      }
    }
  }

  /** Filtering one more raw line appends it, stripped, exactly when it
      survives. */
  lemma {:induction false} FiltersStep(src: seq<string>)
    requires src != []
    ensures var n := |src| - 1;
      DropNoise(StripNonBlank(src)) == DropNoise(StripNonBlank(src[..n])) +
        (if Survives(src[n]) then [Strip(src[n])] else [])
  {
    var n := |src| - 1;
    var s := StripNonBlank(src[..n]);
    var last := Strip(src[n]);
    if last != "" {
      assert StripNonBlank(src) == s + [last];
      DropNoiseSnoc(s, last);
    } else {
      assert StripNonBlank(src) == s;
    }
  }

  /** Filtering noise from one more line appends it unless it is noise. */
  lemma {:induction false} DropNoiseSnoc(s: seq<string>, x: string)
    ensures DropNoise(s + [x]) == DropNoise(s) + (if !IsNoise(x) then [x] else [])
  {
    assert (s + [x])[..|s|] == s;
  }

  /** The raw file lines after the in-place header repair. */
  function Repaired(fileLines: seq<string>): seq<string>
    requires |fileLines| > HeaderIndex
  {
    fileLines[HeaderIndex := NormalizeDash(fileLines[HeaderIndex])]
  }

  /** The transcript body: lines[12:], stripped, blanks and noise removed. */
  function Body(fileLines: seq<string>): seq<string>
    requires |fileLines| > HeaderIndex
  {
    DropNoise(StripNonBlank(Repaired(fileLines)[HeaderIndex..]))
  }

  /** Every body line is a stripped, non-empty, non-noise line taken from input
      index 12 or later (line 13 itself, repaired, included), the input order
      is kept, and every such input line is kept. */
  lemma {:induction false} BodyLines(fileLines: seq<string>)
    requires |fileLines| > HeaderIndex
    ensures var src := Repaired(fileLines)[HeaderIndex..];
      var body := Body(fileLines);
      var idx := Survivors(src);
      && |body| == |idx|
      && (forall t :: 0 <= t < |body| ==>
            && body[t] == Strip(Repaired(fileLines)[HeaderIndex + idx[t]])
            && body[t] != "" && Strip(body[t]) == body[t] && !IsNoise(body[t]))
      && (forall t, u :: 0 <= t < u < |idx| ==> idx[t] < idx[u])
      && (forall j :: HeaderIndex <= j < |fileLines| && Survives(Repaired(fileLines)[j]) ==>
            j - HeaderIndex in idx)
  {
    var rep := Repaired(fileLines);
    var src := rep[HeaderIndex..];
    var body := Body(fileLines);
    assert body == DropNoise(StripNonBlank(src));
    FiltersKeepSurvivors(src);
    var idx := Survivors(src);
    forall t | 0 <= t < |body|
      ensures && body[t] == Strip(rep[HeaderIndex + idx[t]])
              && body[t] != "" && Strip(body[t]) == body[t] && !IsNoise(body[t])
    {
      assert src[idx[t]] == rep[HeaderIndex + idx[t]];
      assert Survives(src[idx[t]]);
      StripIdempotent(src[idx[t]]);
    }
    forall j | HeaderIndex <= j < |fileLines| && Survives(rep[j])
      ensures j - HeaderIndex in idx
    {
      assert src[j - HeaderIndex] == rep[j];
    }
  }

  // ================================================================ boundaries

  /** The line, with its double quotes removed and lower-cased, contains
      the phrase. */
  predicate Mentions(line: string, phrase: string)
    requires |phrase| > 0
  {
    Contains(Lower(Replace(line, "\"", "")), phrase)
  }

  /** The Kelvin sign and 'K' are interchangeable in a line: str.lower()
      turns both into 'k', so a line written with one mentions a phrase
      exactly when the same line written with the other does. */
  lemma {:induction false} KelvinSignMentions(a: string, b: string, phrase: string)
    requires |phrase| > 0
    ensures Mentions(a + ['\U{212A}'] + b, phrase) <==> Mentions(a + "K" + b, phrase)
  {
    var ra, rb := Replace(a, "\"", ""), Replace(b, "\"", "");
    ReplaceAroundChar(a, '\U{212A}', b);
    ReplaceAroundChar(a, 'K', b);
    LowerConcat(ra + ['\U{212A}'], rb);
    LowerConcat(ra + "K", rb);
    LowerConcat(ra, ['\U{212A}']);
    LowerConcat(ra, "K");
    assert Lower(['\U{212A}']) == Lower("K");
  }

  /** Deleting double quotes leaves any other character in place. */
  lemma {:induction false} ReplaceAroundChar(a: string, c: char, b: string)
    requires c != '"'
    ensures Replace(a + [c] + b, "\"", "") == Replace(a, "\"", "") + [c] + Replace(b, "\"", "")
  {
    ReplaceAppend(a + [c], b, "\"", "");
    ReplaceAppend(a, [c], "\"", "");
    ReplaceAbsent([c], "\"", "");
  }

  /** str.lower() works character by character. */
  lemma {:induction false} LowerConcat(x: string, y: string)
    ensures Lower(x + y) == Lower(x) + Lower(y)
  {
    assert forall i :: 0 <= i < |x + y| ==> (x + y)[i] == if i < |x| then x[i] else y[i - |x|];
  }

  /** The index of the first line that mentions phrase, if any (see
      FirstMentionSpec). */
  function FirstMention(lines: seq<string>, phrase: string): (r: Option<nat>)
    requires |phrase| > 0
    ensures r.Some? ==> r.value < |lines|
  {
    if lines == [] then None
    else if Mentions(lines[0], phrase) then Some(0)
    else
      match FirstMention(lines[1..], phrase)
      case None => None
      case Some(k) => Some(k + 1)
  }

  /** FirstMention finds a mentioning line with none before it, and finds
      nothing only when no line mentions the phrase. */
  lemma {:induction false} FirstMentionSpec(lines: seq<string>, phrase: string)
    requires |phrase| > 0
    ensures var r := FirstMention(lines, phrase);
      && (r.Some? ==> Mentions(lines[r.value], phrase))
      && (r.Some? ==> forall j :: 0 <= j < r.value ==> !Mentions(lines[j], phrase))
      && (r.None? ==> forall j :: 0 <= j < |lines| ==> !Mentions(lines[j], phrase))
  {
    if lines != [] && !Mentions(lines[0], phrase) {
      FirstMentionSpec(lines[1..], phrase);
      assert forall j :: 1 <= j < |lines| ==> lines[j] == lines[1..][j - 1];
    }
  }

  /** The index of the last line that mentions phrase, if any (see
      LastMentionSpec). */
  function LastMention(lines: seq<string>, phrase: string): (r: Option<nat>)
    requires |phrase| > 0
    ensures r.Some? ==> r.value < |lines|
  {
    if lines == [] then None
    else if Mentions(lines[|lines| - 1], phrase) then Some(|lines| - 1)
    else LastMention(lines[..|lines| - 1], phrase)
  }

  /** LastMention finds a mentioning line with none after it, and finds
      nothing only when no line mentions the phrase. */
  lemma {:induction false} LastMentionSpec(lines: seq<string>, phrase: string)
    requires |phrase| > 0
    ensures var r := LastMention(lines, phrase);
      && (r.Some? ==> Mentions(lines[r.value], phrase))
      && (r.Some? ==> forall j :: r.value < j < |lines| ==> !Mentions(lines[j], phrase))
      && (r.None? ==> forall j :: 0 <= j < |lines| ==> !Mentions(lines[j], phrase))
  {
    if lines != [] && !Mentions(lines[|lines| - 1], phrase) {
      var n := |lines| - 1;
      var front := lines[..n];
      LastMentionSpec(front, phrase);
      assert LastMention(lines, phrase) == LastMention(front, phrase);
      forall j | 0 <= j < n
        ensures lines[j] == front[j]
      {
      }
    }
  }

  /** lines[:k] for k >= 0: Python clamps a slice end past the end. */
  function Take(lines: seq<string>, k: nat): (r: seq<string>)
    ensures |r| == if k <= |lines| then k else |lines|
    ensures r == lines[..|r|]
  {
    if k <= |lines| then lines[..k] else lines
  }

  // ================================================================ classification of the body

  /** Apply a fallible step to every line in order; the first failure aborts
      with its error. */
  function MapAll<T>(lines: seq<string>, f: string -> Result<T>): (r: Result<seq<T>>)
    ensures r.Ok? ==> |r.value| == |lines|
  {
    if lines == [] then Ok([])
    else
      var n := |lines| - 1;
      match MapAll(lines[..n], f)
      case Err(e) => Err(e)
      case Ok(prev) =>
        match f(lines[n])
        case Err(e) => Err(e)
        case Ok(d) => Ok(prev + [d])
  }

  /** A successful run holds each line's result at that line's position. */
  lemma {:induction false} MappedLines<T>(lines: seq<string>, f: string -> Result<T>)
    requires MapAll(lines, f).Ok?
    ensures forall j :: 0 <= j < |lines| ==> f(lines[j]) == Ok(MapAll(lines, f).value[j])
  {
    if lines != [] {
      var n := |lines| - 1;
      var pre := lines[..n];
      MappedLines(pre, f);
      var r, prev := MapAll(lines, f).value, MapAll(pre, f).value;
      assert r == prev + [f(lines[n]).value];
      forall j | 0 <= j < |lines| ensures f(lines[j]) == Ok(r[j]) {
        if j < n {
          assert lines[j] == pre[j] && r[j] == prev[j];
        }
      }
    }
  }

  /** A run fails exactly when some line fails, and then with the error of
      the first failing line. */
  lemma {:induction false} MapAllFails<T>(lines: seq<string>, f: string -> Result<T>)
    ensures MapAll(lines, f).Err? <==> exists j :: 0 <= j < |lines| && f(lines[j]).Err?
    ensures MapAll(lines, f).Err? ==>
      exists j :: 0 <= j < |lines| && f(lines[j]) == Err(MapAll(lines, f).error)
        && forall i :: 0 <= i < j ==> f(lines[i]).Ok?
  {
    if lines != [] {
      var n := |lines| - 1;
      var pre := lines[..n];
      MapAllFails(pre, f);
      if MapAll(pre, f).Err? {
        var j :| 0 <= j < n && f(pre[j]) == Err(MapAll(pre, f).error)
          && forall i :: 0 <= i < j ==> f(pre[i]).Ok?;
        assert lines[j] == pre[j];
        forall i | 0 <= i < j ensures f(lines[i]).Ok? {
          assert lines[i] == pre[i];
        }
      } else {
        MappedLines(pre, f);
        forall i | 0 <= i < n ensures f(lines[i]).Ok? {
          assert lines[i] == pre[i];
        }
      }
    }
  }

  /** Classify every line in order; the first malformed line aborts with its
      error, which is IndexError. */
  function ClassifyAll(lines: seq<string>): (r: Result<seq<LineData>>)
    ensures r.Ok? ==> |r.value| == |lines|
    ensures r.Err? ==> r.error == IndexError
  {
    MapAllFails(lines, ExtractLineMetadata);
    MapAll(lines, ExtractLineMetadata)
  }

  // ================================================================ the whole cleaner

  /** The cut the closing scan leaves: its last match in `after`, or the
      stale opening index o when nothing matches. */
  function ClosingIndex(after: seq<string>, o: nat): nat {
    match LastMention(after, ClosingPhrase)
    case Some(c) => c
    case None => o
  }

  /** The body lines the transcript keeps once the first opening-phrase line
      is at index o: the lines after it, cut at the closing index. */
  function KeptLines(body: seq<string>, o: nat): seq<string>
    requires o < |body|
  {
    var after := body[o + 1..];
    Take(after, ClosingIndex(after, o))
  }

  /** The classified transcript of a cleaned body. */
  function Transcript(body: seq<string>): Result<seq<LineData>> {
    match FirstMention(body, OpeningPhrase)
    case None => Err(UnboundLocalError)
    case Some(o) => ClassifyAll(KeptLines(body, o))
  }

  /** clean_and_extract_data on the lines of one file. */
  function CleanedEpisode(fileLines: seq<string>): Result<EpisodeData> {
    if |fileLines| <= HeaderIndex then Err(IndexError)
    else
      var info :- ParseEpisodeInfo(Repaired(fileLines)[HeaderIndex]);
      var lines :- Transcript(Body(fileLines));
      Ok(EpisodeData(info.0, info.1, lines))
  }

  /** The cleaner fails with the unbound `index` exactly when the header
      parses and no body line mentions the opening phrase. */
  lemma {:induction false} UnboundIndexIff(fileLines: seq<string>)
    requires |fileLines| > HeaderIndex
    requires ParseEpisodeInfo(Repaired(fileLines)[HeaderIndex]).Ok?
    ensures CleanedEpisode(fileLines) == Err(UnboundLocalError) <==>
      forall j :: 0 <= j < |Body(fileLines)| ==> !Mentions(Body(fileLines)[j], OpeningPhrase)
  {
    var body := Body(fileLines);
    FirstMentionSpec(body, OpeningPhrase);
    if FirstMention(body, OpeningPhrase).Some? {
      var o := FirstMention(body, OpeningPhrase).value;
      assert Mentions(body[o], OpeningPhrase);
      assert Transcript(body).Err? ==> Transcript(body).error == IndexError;
    }
  }

  /** The kept lines are the body lines strictly after the first
      opening-phrase line (at o, see FirstMention) and strictly before the
      last closing-phrase line after it (see LastMention); with no
      closing-phrase line the stale opening index o cuts the remainder to
      its first o lines. */
  lemma {:induction false} KeptLinesSlice(body: seq<string>, o: nat)
    requires FirstMention(body, OpeningPhrase) == Some(o)
    ensures var kept := KeptLines(body, o);
      var after := body[o + 1..];
      && o + 1 + |kept| <= |body|
      && kept == body[o + 1..o + 1 + |kept|]
      && match LastMention(after, ClosingPhrase)
         case Some(c) => |kept| == c
         case None => |kept| == if o <= |after| then o else |after|
  {
  }

  /** A successful clean pairs the parsed header with one record per kept
      line: with o the first opening-phrase line of the body, record j is
      the classification of body line o + 1 + j. */
  lemma {:induction false} CleanedLines(fileLines: seq<string>)
    requires CleanedEpisode(fileLines).Ok?
    ensures |fileLines| > HeaderIndex
    ensures var ep := CleanedEpisode(fileLines).value;
      var body := Body(fileLines);
      && ParseEpisodeInfo(Repaired(fileLines)[HeaderIndex]) == Ok((ep.episodeNumber, ep.episodeTitle))
      && FirstMention(body, OpeningPhrase).Some?
      && var o := FirstMention(body, OpeningPhrase).value;
         && |ep.lines| == |KeptLines(body, o)|
         && o + 1 + |ep.lines| <= |body|
         && forall j :: 0 <= j < |ep.lines| ==> ExtractLineMetadata(body[o + 1 + j]) == Ok(ep.lines[j])
  {
    var ep := CleanedEpisode(fileLines).value;
    var body := Body(fileLines);
    var o := FirstMention(body, OpeningPhrase).value;
    var kept := KeptLines(body, o);
    assert ClassifyAll(kept) == Ok(ep.lines);
    KeptLinesSlice(body, o);
    MappedLines(kept, ExtractLineMetadata);
    forall j | 0 <= j < |ep.lines| ensures ExtractLineMetadata(body[o + 1 + j]) == Ok(ep.lines[j]) {
      assert kept[j] == body[o + 1 + j];
    }
  }

  /** The first scan of the source: the index of the first line mentioning
      the phrase, left unset when none does. */
  method ScanFirst(lines: seq<string>, phrase: string) returns (index: Option<nat>)
    requires |phrase| > 0
    ensures index == FirstMention(lines, phrase)
  {
    index := None;
    var i := 0;
    while i < |lines|
      invariant 0 <= i <= |lines|
      invariant forall j :: 0 <= j < i ==> !Mentions(lines[j], phrase)
    {
      if Mentions(lines[i], phrase) {
        index := Some(i);
        FirstMentionSpec(lines, phrase);
        return;
      }
      i := i + 1;
    }
    FirstMentionSpec(lines, phrase);
  }

  /** The second scan: every match overwrites `index`, which otherwise keeps
      the value it came in with. */
  method ScanLast(lines: seq<string>, phrase: string, index0: nat) returns (index: nat)
    requires |phrase| > 0
    ensures index == match LastMention(lines, phrase) case Some(c) => c case None => index0
  {
    index := index0;
    var i := 0;
    while i < |lines|
      invariant 0 <= i <= |lines|
      invariant index == match LastMention(lines[..i], phrase) case Some(c) => c case None => index0
    {
      assert lines[..i + 1][..i] == lines[..i];
      if Mentions(lines[i], phrase) {
        index := i;
      }
      i := i + 1;
    }
    assert lines[..|lines|] == lines;
  }

  /** The final loop: classify each line and append it, stopping at the
      first line that raises. */
  method ClassifyLines(lines: seq<string>) returns (r: Result<seq<LineData>>)
    ensures r == ClassifyAll(lines)
  {
    var linesData: seq<LineData> := [];
    var i := 0;
    while i < |lines|
      invariant 0 <= i <= |lines|
      invariant ClassifyAll(lines[..i]) == Ok(linesData)
    {
      var metadata := ExtractLineMetadata(lines[i]);
      assert lines[..i + 1][..i] == lines[..i];
      if metadata.Err? {
        MapAllFails(lines, ExtractLineMetadata);
        return Err(metadata.error);
      }
      linesData := linesData + [metadata.value];
      i := i + 1;
    }
    assert lines[..|lines|] == lines;
    r := Ok(linesData);
  }

  /** clean_and_extract_data, step by step as the source runs it: the file's
      lines become a fresh list, the header is repaired in place and parsed,
      the list is rebound by the slices and filters, two scans set `index`
      (the second keeps its last match) and a loop appends one classified
      line at a time. */
  method CleanAndExtractData(fileLines: seq<string>) returns (r: Result<EpisodeData>)
    ensures r == CleanedEpisode(fileLines)
  {
    var raw := new string[|fileLines|](j requires 0 <= j < |fileLines| => fileLines[j]);
    assert raw[..] == fileLines;
    var info := ExtractEpisodeInfo(raw);
    if info.Err? {
      return Err(info.error);
    }
    var episodeNumber, episodeTitle := info.value.0, info.value.1;

    var lines := raw[HeaderIndex..];
    lines := StripNonBlank(lines);
    lines := DropNoise(lines);
    assert lines == Body(fileLines);

    var linesData := ExtractTranscript(lines);
    if linesData.Err? {
      return Err(linesData.error);
    }
    r := Ok(EpisodeData(episodeNumber, episodeTitle, linesData.value));
  }

  /** The second half of the cleaner, on the filtered body: the two scans
      bound the transcript and the final loop classifies it. */
  method ExtractTranscript(body: seq<string>) returns (r: Result<seq<LineData>>)
    ensures r == Transcript(body)
  {
    var index := ScanFirst(body, OpeningPhrase);
    if index.None? {
      return Err(UnboundLocalError);
    }
    var o := index.value;
    var lines := body[o + 1..];
    var last := ScanLast(lines, ClosingPhrase, o);
    assert last == ClosingIndex(lines, o);
    lines := Take(lines, last);
    assert lines == KeptLines(body, o);
    r := ClassifyLines(lines);
  }
}
