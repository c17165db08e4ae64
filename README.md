# Ask-haseeb-AI ingestion and question answering, in Dafny

This project models the core of a retrieval-augmented question-answering backend. Documents from a
Google Drive folder are downloaded, cleaned, cut into token chunks, embedded and upserted into a
vector index. Questions to the `/ask` endpoint are answered from the best-matching chunks.

The modules, one file each:

- `Wrappers`: `Option` and `Result`.
- `Seqs`: the list comprehension `[x for x in s if p(x)]` and subsequences.
- `PyStr`: the Python `str` operations the code relies on. These are `isspace`, `strip`,
  `lstrip`, `rstrip`, `splitlines`, `join`, `lower` and single-character `replace`.
- `Loader`: `load_any`, the reader dispatch on the lower-cased file suffix.
- `Cleaner`: `clean_text`, the rewrites followed by the line filter.
- `Chunker`: `chunk_text`, the token windows of oversized pieces.
- `StateStore`: `load_state` / `save_state`, a class holding the persisted map.
- `AutoIngest`: `process_new_drive_files`, `process_single_file`, `upsert_chunks` and
  `embed_batch`. Drive, the embedding service and the vector index are classes that log the
  requests made to them.
- `RagService`: `retrieve`, `_build_context`, `answer_from_context` and `rag_answer`.
- `Routes`: the `ask` handler.

The hosted services and the format libraries are parameters of the model:

- the embedding model, the vector-index query and the chat completion;
- Drive listing and download;
- the tokenizer (`encode`, `decode`) and the rough text splitter;
- the four file readers;
- `process_file_to_chunks`;
- the id generators.

The model assumes nothing of these beyond their types. In particular, `decode` is not assumed to
invert `encode`.

## Model

Three facts about the source that the rows below rely on:

- The window count of an oversized piece is `ceil(n/step)` (universal_preprocess.py:114-126); the loop starts a window at every multiple of `step` below `n`.
- `/ask` answers `{answer, sources}` (routes.py:26-29).
- `splitlines` breaks on every Python line-break character: `\n`, `\r`, `\v`, `\f`, `\x1c`-`\x1e`, `\x85`, `\u2028` and `\u2029`, with `\r\n` as one break.

| member | source | states |
|---|---|---|
| Loader.LastDot | backend/app/utils/universal_preprocess.py:53 | the index found is a dot and no dot follows it, or -1 when the name has no dot |
| Loader.Suffix | backend/app/utils/universal_preprocess.py:53 | `path.suffix` is empty, or a tail of the name of at least two characters that starts with its only dot and is shorter than the name |
| Loader.LoadAny | backend/app/utils/universal_preprocess.py:52-62 | `.pdf` goes to the PDF reader, `.md` to markdown, `.html`/`.htm` to HTML, every other suffix to plain text, all on the lower-cased suffix |
| Loader.FormatOf | backend/app/utils/universal_preprocess.py:53-62 | a name without suffix is read as plain text |
| Loader.SuffixOfExtension | backend/app/utils/universal_preprocess.py:53 | `stem.ext` has suffix `.ext` whatever dots the stem holds |
| Loader.NoSuffix | backend/app/utils/universal_preprocess.py:53-62 | a dotless name, a dot-file and a name ending in a dot have no suffix and are read as plain text |
| Loader.FormatIgnoresCase | backend/app/utils/universal_preprocess.py:53 | the dispatch is the same for a name and its lower-cased form |
| Loader.UpperCasePdf | backend/app/utils/universal_preprocess.py:53-55 | `Guide.PDF` is read as PDF |
| Loader.LastExtensionCounts | backend/app/utils/universal_preprocess.py:53-62 | `notes.v2.md` is markdown and `page.html.txt` plain text: only the last dot counts |
| Loader.DotFileIsPlainText | backend/app/utils/universal_preprocess.py:53-62 | `.pdf` on its own is read as plain text |
| PyStr.Strip | backend/app/utils/universal_preprocess.py:80 | the result neither starts nor ends with whitespace |
| PyStr.IsSpace | backend/app/utils/universal_preprocess.py:75 | space, tab, newline and carriage return are whitespace and no printable ASCII character is; the body lists the whole Unicode class of `str.isspace` |
| PyStr.LStrip | backend/app/utils/universal_preprocess.py:80 | the result does not start with whitespace |
| PyStr.RStrip | backend/app/utils/universal_preprocess.py:80 | the result does not end with whitespace |
| PyStr.BlankIffSpace | backend/app/utils/universal_preprocess.py:80 | a text strips to "" exactly when every character is whitespace |
| PyStr.StripIdempotent | backend/app/services/rag_service.py:70 | stripping a stripped text changes nothing |
| PyStr.StripIsSlice | backend/app/utils/universal_preprocess.py:80 | `strip` returns a contiguous slice and removes only whitespace on either side |
| PyStr.StripSidesCommute | backend/app/utils/universal_preprocess.py:80 | `lstrip` and `rstrip` commute |
| PyStr.Join | backend/app/utils/universal_preprocess.py:80 | joining nothing gives "", joining one part gives that part |
| PyStr.JoinSnoc | backend/app/services/rag_service.py:52 | joining one more part appends the separator and that part |
| PyStr.SplitLines | backend/app/utils/universal_preprocess.py:74 | no line holds a line-break character |
| PyStr.IsLineBreak | backend/app/utils/universal_preprocess.py:74 | "\n" and "\r" break lines and space and tab do not; the body lists every break character of `str.splitlines` |
| PyStr.SplitLinesBreak | backend/app/utils/universal_preprocess.py:74 | a line without breaks followed by one break character other than "\r" is the first line, and the rest splits on its own |
| PyStr.LineBreakEnd | backend/app/utils/universal_preprocess.py:74 | the line after a break starts two characters on exactly when the break is a `\r\n` pair, and one character on otherwise |
| PyStr.SplitLinesJoin | backend/app/utils/universal_preprocess.py:74-80 | lines without breaks, the last non-empty, joined with "\n" split back into the same lines |
| PyStr.StripJoin | backend/app/utils/universal_preprocess.py:80 | stripping joined lines drops the blank lines at both ends and strips the outermost remaining lines |
| PyStr.SplitStrippedJoin | backend/app/utils/universal_preprocess.py:80 | lines joined and stripped split back into the trimmed lines |
| PyStr.StripJoinedLines | backend/app/utils/universal_preprocess.py:80 | every line of stripped joined lines has any property the lines had that stripping keeps |
| PyStr.LowerAscii | backend/app/utils/universal_preprocess.py:77 | same length, each character lower-cased on its own |
| PyStr.LowerAsciiIdempotent | backend/app/utils/universal_preprocess.py:77 | lower-casing twice is lower-casing once |
| PyStr.ReplaceChar | backend/app/utils/universal_preprocess.py:69 | every occurrence of the character is replaced, and nothing else changes |
| PyStr.Erase | backend/app/utils/universal_preprocess.py:68 | the result is `s` with exactly the occurrences of the character left out: the other characters keep their order and number |
| PyStr.EraseCounts | backend/app/utils/universal_preprocess.py:68 | the erased character occurs 0 times and every other character as often as before |
| Cleaner.ReplaceCrLf | backend/app/utils/universal_preprocess.py:69 | `replace("\r\n", "\n")` introduces no new character; what it replaces is stated by the three lemmas below |
| Cleaner.ReplaceCrLfNone | backend/app/utils/universal_preprocess.py:69 | a text without "\r\n" is unchanged |
| Cleaner.ReplaceCrLfEach | backend/app/utils/universal_preprocess.py:69 | every "\r\n", wherever it stands, becomes one "\n" and both sides are replaced on their own |
| Cleaner.ReplaceCrLfConcat | backend/app/utils/universal_preprocess.py:69 | the replacement distributes over a cut that does not split a "\r\n" |
| Cleaner.UnixEol | backend/app/utils/universal_preprocess.py:69 | after both line-ending replacements no "\r" is left |
| Cleaner.UnixEolKeepsLines | backend/app/utils/universal_preprocess.py:69-74 | both replacements keep the lines of the text: `splitlines` gives the same lines before and after |
| Cleaner.LeadingRun | backend/app/utils/universal_preprocess.py:70-71 | the run measured is maximal: all class characters, followed by the end or a non-class character |
| Cleaner.SubRuns | backend/app/utils/universal_preprocess.py:70-71 | `re.sub` of runs of a class introduces no character that is not in the text or the replacement |
| Cleaner.SubRunsRun | backend/app/utils/universal_preprocess.py:70-71 | a whole run of the class is replaced when it is at least `minRun` long and kept unchanged when shorter |
| Cleaner.SubRunsConcat | backend/app/utils/universal_preprocess.py:70-71 | the substitution works on two pieces separately when the cut is not inside a run; with SubRunsRun this fixes it on every text |
| Cleaner.SubRunsNoLongRun | backend/app/utils/universal_preprocess.py:70-71 | when the replacement is shorter than `minRun`, no run of `minRun` or more class characters is left |
| Cleaner.Normalize | backend/app/utils/universal_preprocess.py:68-71 | the rewritten text before the filter holds no `\ufeff`, `\u200b` or `\r` |
| Cleaner.IsBareUrl | backend/app/utils/universal_preprocess.py:75 | a bare URL is longer than "http://" and holds no whitespace |
| Cleaner.Keep | backend/app/utils/universal_preprocess.py:75-78 | a blank line is kept and a line that strips and lower-cases to a boilerplate word is dropped |
| Cleaner.Clean | backend/app/utils/universal_preprocess.py:67-80 | the cleaned text neither starts nor ends with whitespace |
| Cleaner.CleanText | backend/app/utils/universal_preprocess.py:67-80 | the rewrites and the loop over `splitlines` compute `Clean`: the kept lines joined and stripped |
| Cleaner.CleanProperties | backend/app/utils/universal_preprocess.py:67-80 | cleaned text has no BOM, zero-width space, CR or blank run, no surrounding whitespace, and every line passes the filter |
| Cleaner.CleanRemovesMarks | backend/app/utils/universal_preprocess.py:68-69 | no `\ufeff`, `\u200b` or `\r` in the output |
| Cleaner.SubRunsChars | backend/app/utils/universal_preprocess.py:70-71 | `re.sub` of runs introduces only characters of the replacement |
| Cleaner.SubRunsNoAdjacent | backend/app/utils/universal_preprocess.py:71 | after replacing runs of two or more by one character, no two class characters are adjacent |
| Cleaner.SplitLinesNoAdjacent | backend/app/utils/universal_preprocess.py:74 | splitting into lines keeps the absence of adjacent blanks |
| Cleaner.JoinNoAdjacent | backend/app/utils/universal_preprocess.py:80 | joining such lines with "\n" keeps it too |
| Cleaner.CleanHasNoBlankRun | backend/app/utils/universal_preprocess.py:71-80 | the output holds no two spaces or tabs side by side |
| Cleaner.CleanOnlyDeletesLines | backend/app/utils/universal_preprocess.py:73-79 | the kept lines are a subsequence of the lines, unmodified and in order; exactly the lines passing the filter are kept |
| Cleaner.KeepSurvivesStrip | backend/app/utils/universal_preprocess.py:75-77 | the filter's verdict is unchanged by `lstrip` or `rstrip` of a kept line |
| Cleaner.CleanLinesAreKept | backend/app/utils/universal_preprocess.py:74-80 | no line of the output, stripped, is a bare URL or a boilerplate word |
| Chunker.WindowsFrom | backend/app/utils/universal_preprocess.py:116-117 | no window is longer than `chunk_tokens` |
| Chunker.WindowsFromAt | backend/app/utils/universal_preprocess.py:116-126 | window `k` starts at `from + k*step` and runs for `chunk_tokens` tokens or to the end |
| Chunker.WindowsFromCount | backend/app/utils/universal_preprocess.py:116-126 | `k` windows satisfy `(k-1)*step < n - from <= k*step` |
| Chunker.CeilDiv | backend/app/utils/universal_preprocess.py:116-126 | that bound pins `k` to `ceil(n/step)` |
| Chunker.WindowsShape | backend/app/utils/universal_preprocess.py:114-126 | an oversized piece gives `ceil(n/step)` windows, window `k` being `tokens[k*step : k*step + chunk_tokens]` |
| Chunker.WindowExists | backend/app/utils/universal_preprocess.py:116 | window `k` exists exactly when `k*step < n` |
| Chunker.WindowsCover | backend/app/utils/universal_preprocess.py:114-126 | with `overlap >= 0` every token index lies in some window |
| Chunker.WindowsOverlap | backend/app/utils/universal_preprocess.py:114-126 | neighbouring windows share `min(chunk_tokens - step, n - (k+1)*step)` tokens, the tail of one opening the next |
| Chunker.RedundantTailWindow | backend/app/utils/universal_preprocess.py:85-126 | with the defaults a 950-token piece gives three windows, the third inside the second |
| Chunker.WindowBodies | backend/app/utils/universal_preprocess.py:117-124 | one body per window: body `j` is window `j` decoded and stripped, with the window's length |
| Chunker.PieceBodies | backend/app/utils/universal_preprocess.py:104-126 | no body of a piece counts more than `chunk_tokens` tokens |
| Chunker.PieceBodiesAt | backend/app/utils/universal_preprocess.py:104-126 | a piece that fits is one body, its stripped text with its token count; body `k` of an oversized piece is `decode(tokens[k*step : k*step + chunk_tokens]).strip()` with that window's length, and there are `ceil(n/step)` of them |
| Chunker.AllBodies | backend/app/utils/universal_preprocess.py:103-126 | no body of the whole text counts more than `chunk_tokens` tokens |
| Chunker.Label | backend/app/utils/universal_preprocess.py:106-125 | one chunk per body |
| Chunker.LabelAt | backend/app/utils/universal_preprocess.py:106-125 | chunk `i` carries the `i`-th id drawn, body `i`'s text and count, and the given source and title |
| Chunker.ChunkText | backend/app/utils/universal_preprocess.py:85-127 | the loop over rough pieces returns `Chunks`: each piece's bodies, labelled in order |
| Chunker.Chunks | backend/app/utils/universal_preprocess.py:102-127 | one chunk per body of the text, chunk `i` carrying the `i`-th id, body `i` and the given source and title |
| Chunker.WindowLoopAsWritten | backend/app/utils/universal_preprocess.py:113-126 | the `while start < len(tokens)` loop as written, `start` advancing by `chunk_tokens - overlap`: with `overlap < chunk_tokens` it stops within `n` turns; with `overlap >= chunk_tokens` and an oversized piece it is still running after any number of turns |
| Chunker.AppendWindows | backend/app/utils/universal_preprocess.py:113-126 | the `while start < len(tokens)` loop appends one chunk per window, in window order |
| Chunker.ChunksBounded | backend/app/utils/universal_preprocess.py:105-125 | every chunk has at most `chunk_tokens` tokens and the given source and title |
| Chunker.PieceCount | backend/app/utils/universal_preprocess.py:105-126 | a fitting piece gives one chunk, an oversized one `ceil(n/step)` |
| StateStore.Store.Empty | backend/app/utils/state_store.py:5 | a store starts with no state file and no directory |
| StateStore.Store.Current | backend/app/utils/state_store.py:7-11 | the map a load returns: the persisted map, or the empty map when nothing is persisted |
| StateStore.Store.Load | backend/app/utils/state_store.py:7-11 | `load_state` returns the persisted map, or the empty map when nothing is persisted, and changes nothing persisted |
| StateStore.Store.Save | backend/app/utils/state_store.py:13-16 | `save_state` creates the directory and replaces the whole persisted map |
| StateStore.LoadBeforeSave | backend/app/utils/state_store.py:8-9 | before any save, loading gives the empty map |
| StateStore.SaveThenLoad | backend/app/utils/state_store.py:7-16 | after a save, even into a missing directory, loading gives the saved map |
| StateStore.SaveOverwrites | backend/app/utils/state_store.py:15-16 | a second save replaces the first, with no merge |
| AutoIngest.EmbeddingService.EmbedBatch | backend/app/services/auto_ingest.py:31-39 | one embedding per text in order; `[]` is answered with `[]` and no request |
| AutoIngest.VectorIndex.Upsert | backend/app/services/auto_ingest.py:58 | the vector list is recorded as one upsert |
| AutoIngest.Drive.ListFiles | backend/app/services/auto_ingest.py:96 | the folder listing is returned and the listing request recorded |
| AutoIngest.Drive.DownloadFile | backend/app/services/auto_ingest.py:69 | the download to the given path is recorded and the path returned |
| AutoIngest.LocalName | backend/app/services/auto_ingest.py:65 | the name with "/" replaced by "_" and stripped holds no "/" |
| AutoIngest.LocalPath | backend/app/services/auto_ingest.py:66 | the path is the download directory itself or that directory joined with the name as one more segment (for ".." this is the parent directory); it always starts with the directory's string |
| AutoIngest.LocalNameIsOneSegment | backend/app/services/auto_ingest.py:65-66 | the sanitised name holds no "/"; the path is the download directory itself for "" or ".", and that directory joined with the name otherwise (for ".." this is its parent) |
| AutoIngest.VectorsOf | backend/app/services/auto_ingest.py:45-56 | one vector per chunk |
| AutoIngest.VectorsOfAt | backend/app/services/auto_ingest.py:46-56 | vector `j` is built from chunk `j`, its metadata holding the chunk's title, source and text and the file id |
| AutoIngest.TextRequests | backend/app/services/auto_ingest.py:49 | one embedding request per chunk, request `i` being the one-text list `[chunks[i].text]` |
| AutoIngest.UpsertChunks | backend/app/services/auto_ingest.py:44-58 | one embedding request per chunk in order, then one upsert of all vectors, none when there are no chunks |
| AutoIngest.ProcessSingleFile | backend/app/services/auto_ingest.py:63-81 | downloads to the sanitised local path, returns the file's chunks, and upserts them only when there are some |
| AutoIngest.SelectChanged | backend/app/services/auto_ingest.py:98-102 | the listed files that are new or whose stored time differs, in listing order |
| AutoIngest.IsChanged | backend/app/services/auto_ingest.py:101 | a file is changed exactly when recording its time would alter the state |
| AutoIngest.ChangedFiles | backend/app/services/auto_ingest.py:98-102 | the changed files are exactly the listed files that are changed |
| AutoIngest.MarkSeen | backend/app/services/auto_ingest.py:112-117 | the state after marking has the old keys plus the id of every attempted file |
| AutoIngest.Configured | backend/app/services/auto_ingest.py:91 | the run goes ahead only with a folder id set and non-empty |
| AutoIngest.ProcessNewDriveFiles | backend/app/services/auto_ingest.py:86-120 | unconfigured: `{processed: 0, skipped: 0}` and nothing touched; otherwise the counts, `found`, the recorded state saved once and every service request, file by file |
| AutoIngest.ChangedFilesExact | backend/app/services/auto_ingest.py:98-102 | a file is in the changed set exactly when it is listed and new or modified, as often as it is listed; the set keeps listing order |
| AutoIngest.CountsAddUp | backend/app/services/auto_ingest.py:104-120 | `processed + skipped == found` |
| AutoIngest.MarkSeenKeeps | backend/app/services/auto_ingest.py:112-117 | no key is removed, every attempted id is present, and other entries keep their loaded value |
| AutoIngest.MarkSeenLatest | backend/app/services/auto_ingest.py:112-117 | every attempted file's id maps to its listed time, whether or not it yielded chunks |
| AutoIngest.RerunFindsNothing | backend/app/services/auto_ingest.py:98-119 | over the same listing, a second run finds no changed file |
| RagService.EffectiveK | backend/app/services/rag_service.py:23 | `top_k` when truthy, otherwise the setting: 0 and `None` both fall back |
| RagService.MatchesOf | backend/app/services/rag_service.py:32 | a response without matches gives `[]`, otherwise its matches |
| RagService.ScoreOf | backend/app/services/rag_service.py:34 | a missing score counts as 0 |
| RagService.FilterByScore | backend/app/services/rag_service.py:33-34 | unfiltered when the minimum is not positive; otherwise exactly the matches scoring at least the minimum |
| Seqs.FilterCount | backend/app/services/rag_service.py:34 | the comprehension keeps every occurrence of an element satisfying the condition and no occurrence of any other |
| RagService.Retrieve | backend/app/services/rag_service.py:22-35 | the result is an order-keeping subsequence of the index's matches: all of them when the minimum is not positive, otherwise exactly those meeting the minimum |
| RagService.RetrieveCounts | backend/app/services/rag_service.py:32-35 | each match is kept as often as the index returned it when it meets the minimum or the minimum is not positive, and dropped otherwise |
| RagService.DefaultsKeepAll | backend/app/services/rag_service.py:22-35 | with the default settings the index is asked for 5 matches and all of them are returned |
| RagService.ScoreFilterKeepsOrder | backend/app/services/rag_service.py:34 | the filter only deletes matches |
| RagService.NoMatchesRetrievesNothing | backend/app/services/rag_service.py:32 | a response without matches gives `[]` |
| RagService.ScoreThreshold | backend/app/services/rag_service.py:33-34 | scores 0.91, 0.85, 0.40 with minimum 0.5 keep the first two, in order |
| RagService.OrElse | backend/app/services/rag_service.py:49-50 | Python's `or` on an optional string: the value when non-empty, else the fallback |
| RagService.TitleOf | backend/app/services/rag_service.py:48-49 | the title, else the source, else "Untitled"; never empty |
| RagService.MetaOf | backend/app/services/rag_service.py:48 | missing metadata counts as empty metadata |
| RagService.Part | backend/app/services/rag_service.py:49-51 | a part is "[title]\n" followed by the text, and splits back into the two |
| RagService.Parts | backend/app/services/rag_service.py:47-51 | one part per match, part `i` from match `i` |
| RagService.Context | backend/app/services/rag_service.py:45-52 | no matches give "", one match gives its part |
| RagService.BuildContext | backend/app/services/rag_service.py:45-52 | the loop computes `Context`: the parts joined with the divider |
| RagService.ContextInOrder | backend/app/services/rag_service.py:46-52 | each part follows the previous one after a divider, and each prefix of matches gives a prefix of the context |
| RagService.Messages | backend/app/services/rag_service.py:58-62 | two messages: the fixed system message, then the user message built from the context of the matches and the question |
| RagService.UserContent | backend/app/services/rag_service.py:61 | the user message starts with "Context:\n", ends with the closing instruction and has the length of its five pieces |
| RagService.UserContentParts | backend/app/services/rag_service.py:61 | the user message splits back into "Context:\n", the context, "\n\nQuestion: ", the query and the closing instruction |
| RagService.UserContentDeterminesQuery | backend/app/services/rag_service.py:61 | for one context, different questions give different user messages |
| RagService.AnswerFromContext | backend/app/services/rag_service.py:55-70 | the answer is the stripped completion of exactly `Messages(query, matches)`, so neither end is whitespace |
| RagService.AnswerIsStripped | backend/app/services/rag_service.py:70 | stripping the answer again changes nothing |
| RagService.AnswerUsesContextAndQuestion | backend/app/services/rag_service.py:55-70 | the context and the question can be read back from the user message, and matches with the same context give the same answer |
| RagService.RagAnswer | backend/app/services/rag_service.py:73-76 | the pair holds the answer and exactly the matches `retrieve` returned, the answer built from them |
| Routes.SourceOf | backend/app/api/routes.py:20-23 | title else "Untitled", source else "#", with no fallback from title to source |
| Routes.Sources | backend/app/api/routes.py:18-24 | at most three sources, as many as the matches when fewer, source `i` from match `i` |
| Routes.ExtractSources | backend/app/api/routes.py:18-24 | the loop over `matches[:3]` computes `Sources` |
| Routes.Ask | backend/app/api/routes.py:10-29 | a blank question is exactly what gives the 400 error; any other gives `{answer, sources}` from `rag_answer`'s pair |
| Routes.BlankQuestion | backend/app/api/routes.py:12 | a question is blank exactly when it is empty or whitespace only |
| Routes.AskAsWritten | backend/app/api/routes.py:12-19 | as written: a blank question gives 400 and any other fails with 500 |
| Routes.BlankAsksNoService | backend/app/api/routes.py:12-13 | a blank question is rejected whatever the services would answer |
| Routes.AsWrittenFailsOnQuestion | backend/app/api/routes.py:15-19 | "What is RAG?" fails with 500 as written, and the corrected handler answers it |
| Routes.UntitledSourceDiffers | backend/app/api/routes.py:22 | a match with a source and no title is shown as "Untitled", while its context block uses the source |

## Left out

- Hosted services: the embedding, index-query and chat calls, Drive listing and download, and the Pinecone upsert are parameters or logging classes. Their network behaviour, retries and credentials are not modelled.
- Format libraries: tiktoken, LangChain's `RecursiveCharacterTextSplitter`, pypdf, markdown and BeautifulSoup are uninterpreted functions.
- `process_file_to_chunks` is imported by `auto_ingest.py` but defined in no file of the repository. It is the parameter `chunksOf`.
- Exceptions: any error raised by a service aborts the run in the source. The model has no failing services, so it does not model a partial run that saves nothing.
- Floating point: scores and embeddings are `real`. IEEE rounding, `temperature` and `max_tokens` are not modelled.
- PyStr.LowerAscii: lower-cases only A-Z, not the full Unicode case mapping of `str.lower`.
- Chunker.ChunkText: `chunk_tokens` is a `nat`, and the method requires `overlap < chunk_tokens`. With a larger overlap the source loops forever on an oversized piece (see "## Findings"). Negative values would act as Python negative slice indices and are not modelled.
- Chunk and vector ids: `uuid4` is an oracle that gives the `k`-th id drawn. Uniqueness is not claimed.
- The JSON file of the state store: writing then reading is taken as the identity on string maps.
- `pathlib` joins: `RAW_DIR / name` drops an empty or "." name and keeps every other name, ".." included, as one more segment. The model does this exactly, since the sanitised name holds no "/". What happens when that path is the download directory or its parent is left out: the download then fails on opening a directory for writing, and the model has no failing services.
- A match whose score is `None`: `m.get("score", 0)` returns `None`, which `float` rejects. The model treats a missing score as 0 and has no `None` score.
- Configuration: environment parsing is not modelled, nor is `config.py:30` silently overriding `config.py:13`. The settings are the `Settings` value, with defaults `TOP_K = 5` and `MIN_SCORE = 0.0`. `main.py` imports a `settings` name that `config.py` does not define.
- Concurrency: no run-exclusion guard or scheduler exists in the code, so there is nothing to model.
- Console output and the file writes of the preprocessing `main` are left out.
- `clean_text` is not claimed idempotent. Blank lines are collapsed before lines are deleted, so a second pass can change the text.
- ReplaceCrLf: its own contract says only that no new character appears. What it replaces is stated by Cleaner.ReplaceCrLfNone, Cleaner.ReplaceCrLfEach and Cleaner.ReplaceCrLfConcat, and its effect on lines by Cleaner.UnixEolKeepsLines.
- SubRuns: its own contract says only which characters can appear. What it replaces and keeps is stated by Cleaner.SubRunsRun and Cleaner.SubRunsConcat, and that no long run remains by Cleaner.SubRunsNoLongRun.

## Findings

| source | as written | input that shows it | evidently intended | confidence | as-written member | corrected member |
|---|---|---|---|---|---|---|
| backend/app/api/routes.py:15-27 | `rag_answer` returns the pair `(answer, matches)`, and `ask` subscripts it as `result["matches"]` and `result["answer"]`. Subscripting a tuple with a string raises `TypeError`, which the framework answers with 500 | any non-blank question, e.g. "What is RAG?" | answer with `{answer, sources}` built from the pair's two parts | not executed | Routes.AskAsWritten, Routes.AsWrittenFailsOnQuestion | Routes.Ask |
| backend/app/utils/universal_preprocess.py:113-126 | `step = chunk_tokens - overlap` and the loop runs `while start < len(tokens)`, adding `step` each time. With `overlap >= chunk_tokens`, `step` is zero or negative and `start` never reaches the length | an oversized piece with `chunk_tokens=50` and `overlap=50` | the window loop ends, which needs `overlap < chunk_tokens` | not executed | Chunker.WindowLoopAsWritten | Chunker.ChunkText |
