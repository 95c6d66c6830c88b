# Office Ladies podcast search — transcript pipeline model

A Dafny model of the data path of the Office Ladies podcast search tool:

- **cleaning** (`scripts/clean_data.py`) turns the raw lines of one transcript file into an
  episode record: episode number, title, and one `{speaker, timestamp, text}` record per
  transcript line;
- **segmenting and embedding** (`scripts/embed_data.py`) groups the lines into overlapping
  windows of up to seven lines, starting every third line, and writes an embedding into each
  segment record in place;
- **uploading** (`scripts/upload_vectors.py`) cuts the embedded segments into batches of ids,
  vectors and metadata, and picks the episode files to process;
- **querying** (`streamlit_app.py`) builds the vector search request for a user query, projects
  the matches into `(number, title, text)` tuples, and fills the chat prompt template with them.

Python exceptions become `Result` values (`IndexError`, `KeyError`, `ValueError`,
`UnboundLocalError`, see `wrappers.dfy`). The Python string operations the scripts rely on
(`strip`, `split`, `join`, `replace`, `lower`, `startswith`, `in`, `f"{n}"` and `int()`) are
written out in `pystrings.dfy`, with the lemmas the rest of the model needs.

Code that mutates step by step is modelled imperatively:

- the in-place header repair is a method on an `array<string>`;
- the cleaning loops, the segment loop and the `+=` context loop are methods with loop
  invariants, each proved equal to a specification function;
- the in-place embedding writes into an `array<Segment>`;
- the prompt messages are objects of a `Message` class, copied fresh.

The model follows the code as written, including these behaviours:

- a line with an empty speaker is accepted;
- in a colon-style line, text after a second `:` is dropped;
- in a `speaker [timestamp] text` line, the text stops at the next `]` or `[`, whichever comes
  first;
- a window spans up to seven lines (`i` to `i + 6` inclusive);
- upload batches hold up to `batch_size + 1` segments (every batch but the last holds exactly
  that) and overlap by one;
- when no closing phrase is found, the cut falls back to the stale index of the opening scan.

## Model

| member | source | states |
|---|---|---|
| CleanData.TimecodeGivesBracket | scripts/clean_data.py:42-44 | a line holding a timecode anywhere splits at `[` into at least two pieces, so the trailing-timestamp grammar can read piece 1 |
| CleanData.LeadingTimecodeBracket | scripts/clean_data.py:33-35 | when a line opens with `[HH:MM:SS]`, its first `]` is at index 9 |
| CleanData.ExtractLineMetadata | scripts/clean_data.py:23-47 | classifying a line fails only with IndexError |
| CleanData.ColonGrammar | scripts/clean_data.py:26-30 | the colon grammar fails only with IndexError |
| CleanData.LeadingTimecodeGrammar | scripts/clean_data.py:33-39 | a line opening with a timecode always classifies |
| CleanData.TrailingTimecodeGrammar | scripts/clean_data.py:40-45 | the `speaker [timestamp] text` grammar fails only with IndexError |
| CleanData.TimestampAbsentIff | scripts/clean_data.py:26-47 | a classified line has no timestamp exactly when the raw line holds no `[\d\d:\d\d:\d\d]` |
| CleanData.NoTimecodeLine | scripts/clean_data.py:26-30 | with no timecode: the speaker is the stripped text before the first `:`; the text is the stripped text up to the second `:`; no `:` raises IndexError |
| CleanData.LeadingTimecodeLine | scripts/clean_data.py:33-39 | with a leading timecode: the timestamp is the 8 characters inside the brackets; the speaker is the first word after them; the text is the remaining words |
| CleanData.BracketedTimestamp | scripts/clean_data.py:35 | for a line opening with a timecode, stripping piece 0 and deleting `[` leaves the 8 characters inside the brackets |
| CleanData.FirstWord | scripts/clean_data.py:37-39 | the first word of a piece is its text up to the first space, and the rejoined remaining words are the text after that space |
| CleanData.TrailingTimecodeLine | scripts/clean_data.py:40-45 | with a later timecode: the speaker comes before the first `[`; the timestamp and text come from the piece after it, split at `]`; IndexError if there is no `]` |
| CleanData.SpeakerTimecodeTextLine | scripts/clean_data.py:41-45 | `Pam [00:12:34] hello` gives the speaker, the 8-character timestamp and the stripped rest |
| CleanData.CloseAfterTimecode | scripts/clean_data.py:42-45 | when no `[` follows the timecode, the piece after its `[` runs to the end of the line, its first `]` is at offset 8, and the stripped text before it is the 8 timestamp characters |
| CleanData.EpisodeInfoParts | scripts/clean_data.py:16-18 | the title is the stripped text between the first and second ` - `; the number is the stripped last piece, cut at the bar separator, of the text before the first ` - `; no ` - ` raises IndexError |
| PyStrings.SplitLast | scripts/clean_data.py:17 | the last piece of a split is a suffix of the input holding no separator, and a separator sits right before it unless it is the whole input |
| CleanData.ExtractEpisodeInfo | scripts/clean_data.py:13-20 | rewrites element 12 of the caller's array with the en-dash repair and nothing else, then parses it; 12 lines or fewer raise IndexError and write nothing |
| CleanData.Survivors | scripts/clean_data.py:57-63 | the increasing indices of exactly the raw lines that survive the blank and noise filters |
| CleanData.FiltersKeepSurvivors | scripts/clean_data.py:60-63 | the two filters keep exactly the surviving lines, stripped, in input order |
| CleanData.BodyLines | scripts/clean_data.py:56-63 | body lines are the stripped, non-empty, non-noise lines from index 12 on, in order; every such line is kept |
| CleanData.FirstMentionSpec | scripts/clean_data.py:66-69 | the first scan finds a line mentioning the phrase (quotes dropped, lower-cased) with none before it, and finds nothing only when no line mentions it |
| CleanData.LastMentionSpec | scripts/clean_data.py:75-77 | the second scan finds a mentioning line with none after it, and finds nothing only when no line mentions it |
| CleanData.KelvinSignMentions | scripts/clean_data.py:66-77 | a line written with U+212A KELVIN SIGN in place of `K` mentions a phrase exactly when the line with `K` does, as `str.lower()` folds both to `k` |
| CleanData.Take | scripts/clean_data.py:79 | a prefix of length min(k, n), as Python's slice clamps it |
| CleanData.KeptLinesSlice | scripts/clean_data.py:71-79 | the kept lines are a contiguous run of the body starting just after the opening line, as long as the last closing index, or cut by the stale opening index when no line closes |
| CleanData.ClassifyAll | scripts/clean_data.py:82-89 | one record per line on success; IndexError otherwise |
| CleanData.MappedLines | scripts/clean_data.py:83-89 | on success, record j is the classification of line j |
| CleanData.MapAllFails | scripts/clean_data.py:83-89 | the loop fails exactly when some line fails to classify, and then with the error of the first such line |
| CleanData.UnboundIndexIff | scripts/clean_data.py:66-72 | once the header parses, cleaning fails with UnboundLocalError exactly when no body line holds the opening phrase |
| CleanData.CleanedLines | scripts/clean_data.py:50-98 | a cleaned episode pairs the parsed header with one record per kept line: with o the first opening-phrase line of the body, record j is the classification of body line o+1+j |
| CleanData.ScanFirst | scripts/clean_data.py:66-69 | the first scan loop computes FirstMention |
| CleanData.ScanLast | scripts/clean_data.py:75-77 | the second scan loop ends with the last match, or with the incoming index when nothing matches |
| CleanData.ClassifyLines | scripts/clean_data.py:82-89 | the classification loop computes ClassifyAll |
| CleanData.ExtractTranscript | scripts/clean_data.py:65-89 | the scans, the two slices and the classification loop compute the transcript of the filtered body |
| CleanData.CleanAndExtractData | scripts/clean_data.py:50-98 | the step-by-step cleaner computes CleanedEpisode, including all its error paths |
| EmbedData.WindowEnd | scripts/embed_data.py:17 | the window's end lies in range, at most 6 lines on, and exactly 6 when that fits |
| EmbedData.Texts | scripts/embed_data.py:18 | the texts of the lines, in line order |
| EmbedData.CreateSegments | scripts/embed_data.py:9-32 | ceil(n/3) segments; segment k starts at line 3k and is that window's record |
| EmbedData.SegmentStarts | scripts/embed_data.py:16 | window starts are exactly the multiples of 3 below n |
| EmbedData.SegmentShape | scripts/embed_data.py:17-30 | a segment covers 1 to 7 lines; its timestamps are those of its first and last lines; its text is their space-join; it carries the episode fields and no vector |
| EmbedData.LineCovered | scripts/embed_data.py:16-17 | every line lies in some window |
| EmbedData.WindowsOverlap | scripts/embed_data.py:10-17 | the next window starts inside the current one |
| EmbedData.IdDeterminesWindow | scripts/embed_data.py:29 | two ids of the same episode are equal only for the same start and end |
| EmbedData.SegmentIdInjective | scripts/embed_data.py:29 | within an episode, distinct windows get distinct ids |
| EmbedData.SegmentIdNoSpace | scripts/embed_data.py:29 | ids contain no space |
| EmbedData.EmbeddedFields | scripts/embed_data.py:35-41 | embedding sets each vector to the embedding of that segment's text and changes no other field |
| EmbedData.EmbedSegments | scripts/embed_data.py:35-41 | writes the embeddings into the caller's array in place and returns that same array |
| UploadVectors.MetadataKeys | scripts/upload_vectors.py:30 | a metadata record holds exactly the listed fields whose value is not None, with those values |
| UploadVectors.StandardMetadata | scripts/upload_vectors.py:12-30 | with METADATA_FIELDS: title, number and text always; each timestamp when present; never the id |
| UploadVectors.BatchEnd | scripts/upload_vectors.py:21 | the batch end lies in range, at most b on, and exactly b when that fits |
| UploadVectors.SliceBatch | scripts/upload_vectors.py:24-30 | the three lists are as long as the slice |
| UploadVectors.SliceBatchAligned | scripts/upload_vectors.py:24-30 | position k of ids, vectors and metadata all come from segment k of the slice |
| UploadVectors.MakeBatch | scripts/upload_vectors.py:21-32 | building a batch fails only with KeyError |
| UploadVectors.BatchAligned | scripts/upload_vectors.py:20-32 | a batch is built exactly when every segment in its slice has a vector; it holds 1 to b+1 aligned entries from segment i on |
| UploadVectors.GenerateAt | scripts/upload_vectors.py:20-32 | batch k of the loop from i is the batch built at start i+k·b, which lies below n |
| UploadVectors.GenerateEnd | scripts/upload_vectors.py:20-32 | the loop stops cleanly only once its next start reaches n; otherwise the batch at its next start raised the reported exception |
| UploadVectors.GenerateCompletes | scripts/upload_vectors.py:20-32 | when no start below n raises, the loop stops cleanly |
| UploadVectors.GenerateCovers | scripts/upload_vectors.py:20-21 | after a clean finish, every index at or past the first start lies within b of some batch's start |
| UploadVectors.ConsecutiveStarts | scripts/upload_vectors.py:20 | batches k and k+1 come from starts b apart, both below n |
| UploadVectors.NonPositiveBatchSize | scripts/upload_vectors.py:20 | a batch size of 0 raises ValueError before any batch; a negative one yields nothing |
| UploadVectors.PrepareBatchStarts | scripts/upload_vectors.py:19-32 | batch k is the batch built at start k·b, which lies below n; no segments give no batch |
| UploadVectors.PrepareBatchStops | scripts/upload_vectors.py:19-32 | the generator stops cleanly only after its starts pass n; otherwise it raises KeyError at a batch holding a segment without a vector |
| UploadVectors.EmbeddedBatchesComplete | scripts/upload_vectors.py:19-32 | fully embedded segments never raise |
| UploadVectors.InBatch | scripts/upload_vectors.py:21-24 | a segment less than b past a batch's start sits in that batch at its offset |
| UploadVectors.EmbeddedSegmentsCovered | scripts/upload_vectors.py:20-24 | every embedded segment goes out in some batch, at its own position |
| UploadVectors.EmbeddedUploadCompletes | scripts/upload_vectors.py:79-87 | after the embedding step every segment has a vector, and batching with a positive size completes |
| UploadVectors.OverlapAt | scripts/upload_vectors.py:21-30 | the batches starting at i and i+b share segment i+b: last entry of the first, first entry of the second |
| UploadVectors.BatchesOverlap | scripts/upload_vectors.py:20-24 | every batch but the last holds b+1 entries, and its last entry is the next batch's first |
| UploadVectors.EpisodeFiles | scripts/upload_vectors.py:61 | keeps exactly the names starting with `episode`, each as often as it is listed |
| UploadVectors.EpisodeKeyOfName | scripts/upload_vectors.py:64 | the key of `episode<n>` is n |
| UploadVectors.Insert | scripts/upload_vectors.py:64 | insertion keeps the list sorted by key and adds exactly x |
| UploadVectors.SortBy | scripts/upload_vectors.py:64 | the result is sorted by key and is a permutation of the input |
| UploadVectors.SortedEpisodes | scripts/upload_vectors.py:64 | sorting names that all have integer keys keeps them all, with their keys, in ascending key order |
| UploadVectors.SelectOne | scripts/upload_vectors.py:65-66 | any argument but `all` selects just that name |
| UploadVectors.SelectAll | scripts/upload_vectors.py:56-64 | `all` raises ValueError exactly when some episode key is not an integer; otherwise it gives a permutation of the episode files in ascending key order |
| PyStrings.PyIntRendering | scripts/upload_vectors.py:64 | int() reads back the decimal rendering of n and of -n |
| PyStrings.PyIntIgnoresSpace | scripts/upload_vectors.py:64 | int() ignores surrounding whitespace |
| PromptTemplate.PromptHeadPlain | streamlit_app.py:12 | the template text before `[CONTEXT]` contains no `[` |
| PromptTemplate.MarksAndLabels | streamlit_app.py:12 | both placeholders open with `[` and differ at their second character; neither label holds a `[` |
| StreamlitApp.MetadataFilter | streamlit_app.py:39 | a filter is set exactly when the title is truthy, and it holds that title |
| StreamlitApp.FilterSelectsEpisode | streamlit_app.py:39-41 | a title filter admits exactly the uploaded segments of that episode; no filter admits all |
| StreamlitApp.ProjectMatches | streamlit_app.py:43-47 | one tuple per match; a missing key raises KeyError |
| StreamlitApp.ProjectedInOrder | streamlit_app.py:43-47 | projection succeeds exactly when every match has the three keys; tuple k comes from match k |
| StreamlitApp.UploadedMatchRoundTrip | streamlit_app.py:43-47 | a match with an uploaded segment's metadata projects back to its number, title and text |
| StreamlitApp.QueryIndexResults | streamlit_app.py:33-47 | the request carries the query's embedding, top_k = num_results, metadata and the title filter; the results follow the matches in order |
| StreamlitApp.DefaultQuery | streamlit_app.py:33-47 | the app's call `query_index(query)` sends the query's embedding with top_k = 5, metadata and no filter, and returns the matches projected in order |
| StreamlitApp.NewDefaultPrompt | streamlit_app.py:12 | DEFAULT_PROMPT is one user message holding the template |
| StreamlitApp.JoinContext | streamlit_app.py:51-53 | the `+=` loop builds Context: one entry per result, in result order |
| StreamlitApp.ContextAppend | streamlit_app.py:51-53 | the context of a concatenation is the concatenation of the contexts |
| StreamlitApp.CopyMessages | streamlit_app.py:55 | the copy holds one fresh, distinct message per template message, with its role and content |
| StreamlitApp.OtherMarkKept | streamlit_app.py:56 | replacing `[CONTEXT]` leaves `[QUERY]` and everything after it unchanged |
| StreamlitApp.ContextPass | streamlit_app.py:56 | the first replacement fills only the `[CONTEXT]` placeholder and leaves the rest of the template as it was |
| StreamlitApp.QueryPass | streamlit_app.py:57 | the second replacement rewrites `[QUERY]` inside the context and fills the query placeholder |
| StreamlitApp.FormattedDefault | streamlit_app.py:12-57 | formatting DEFAULT_PROMPT gives its head, the context with `[QUERY]` replaced, the query label, the query and the response label |
| StreamlitApp.FormatPrompt | streamlit_app.py:50-59 | the context is built by `+=` in result order; messages are fresh, pairwise distinct copies with only the last content substituted; the template is unchanged; an empty template raises IndexError |

## Left out

- File reading, directory listing, argument parsing, progress bars and printing. The model
  takes the file's lines, the directory listing and the `--episode` argument as parameters.
- NO_TIMESTAMP_FILES is declared but never read in the cleaner, so it is not modelled.
- The SentenceTransformer model is a function parameter from text to vector, applied per text.
  Vectors are sequences of reals, with no floating-point rounding.
- EmbedData.EmbedSegments: the model's single batched `encode` call is modelled as applying
  the embedding to each text in order.
- The Pinecone index is a function parameter: `search` answers a request with its matches.
  The similarity ranking, `upsert_vectors`' network calls and the index's storage are not
  modelled.
- The OpenAI chat call (`get_model_response`), Streamlit caching and the UI are not modelled.
- The regular expression `\d` is modelled for ASCII digits only. Python's `re` also matches
  other Unicode decimal digits.
- PyStrings.Lower: folds only the characters whose lower case is one ASCII letter: the ASCII
  capitals and U+212A KELVIN SIGN. Other letters are left as they are, where Python's
  `str.lower` folds them to non-ASCII letters, which no ASCII phrase can match either. The one
  exception is U+0130, which Python lowers to `i` followed by a combining dot; the model keeps
  it unchanged, so a phrase match that would end in that `i` is missed. Neither searched
  phrase ends in `i`.
- PyStrings.PyInt: accepts ASCII digits with an optional sign only. Python's `int()` also
  accepts underscores between digits and other Unicode digits.
- UploadVectors.SortBy: proved sorted and a permutation, but the stability of Python's
  `sorted` is not proved.
- UploadVectors.Metadata: a metadata record is a map, so Python's dict key order is not
  modelled.
- METADATA_FIELDS is modelled as a sequence of an enumeration of the string-valued segment
  keys; field names outside the segment record are not modelled.
- prepare_batch is a generator; the model runs it to the end and returns the batches it
  yielded together with the exception that stopped it, if any. How a caller interleaves its
  work with the generator's steps is not modelled.
- format_prompt takes its template as a parameter. NewDefaultPrompt builds DEFAULT_PROMPT, and
  FormattedDefault states the result for it.
