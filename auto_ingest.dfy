/**
 * The incremental Drive sync: list the configured folder, pick the files whose id is new or
 * whose `modifiedTime` differs from the stored one, download and chunk each, embed and upsert
 * the chunks, record every attempted file in the state map and save the map once.
 *
 * The hosted services are objects that log what they are asked to do: the embedding service
 * logs each request batch, the vector index each upsert, and Drive each listing and download.
 * `process_file_to_chunks` is the parameter `chunksOf`.
 */
module AutoIngest {
  import opened Wrappers
  import opened PyStr
  import opened Seqs
  import opened StateStore
  import RagService

  /** One entry of the folder listing: the fields the listing asks for. */
  datatype DriveFile = DriveFile(id: string, name: string, mimeType: string, modifiedTime: string)

  /** A chunk record as `process_file_to_chunks` hands it over: `id`, `title` and `source` are
      read with `get` and may be absent; `text` is read by subscript. */
  datatype ChunkRecord = ChunkRecord(id: Option<string>, text: string, title: Option<string>, source: Option<string>)

  datatype VectorMeta = VectorMeta(title: Option<string>, source: Option<string>, text: string, fileId: string)

  /** The `(id, values, metadata)` triple handed to the index. */
  datatype Vector = Vector(id: string, values: RagService.Embedding, metadata: VectorMeta)

  /** A download request: the Drive file and the local path it is written to. */
  datatype Download = Download(fileId: string, dest: string)

  /** The dictionary the sync returns; `found` is absent when no folder is configured. */
  datatype Summary = Summary(processed: nat, skipped: nat, found: Option<nat>)

  /** The directory files are downloaded into. */
  const RawDir: string := "backend/data/raw"

  /** The embedding API. `embed` is what the model returns for one text. */
  class EmbeddingService {
    const embed: string -> RagService.Embedding
    /** The batches sent, in order. */
    var requests: seq<seq<string>>

    constructor(embed: string -> RagService.Embedding)
      ensures this.embed == embed && requests == []
    {
      this.embed := embed;
      requests := [];
    }

    /** `embed_batch(texts)`: one embedding per text, in order; an empty batch is answered
        without a request. */
    method EmbedBatch(texts: seq<string>) returns (r: seq<RagService.Embedding>)
      modifies this
      ensures |r| == |texts| && forall i :: 0 <= i < |texts| ==> r[i] == embed(texts[i])
      ensures requests == old(requests) + (if texts == [] then [] else [texts])
    {
      if texts == [] {
        return [];
      }
      requests := requests + [texts];
      r := seq(|texts|, i requires 0 <= i < |texts| => embed(texts[i]));
    }
  }

  /** The vector index. */
  class VectorIndex {
    /** The vector lists upserted, in order. */
    var upserts: seq<seq<Vector>>

    constructor()
      ensures upserts == []
    {
      upserts := [];
    }

    method Upsert(vectors: seq<Vector>)
      modifies this
      ensures upserts == old(upserts) + [vectors]
    {
      upserts := upserts + [vectors];
    }
  }

  /** Google Drive. `listing` is what listing a folder returns. */
  class Drive {
    const listing: string -> seq<DriveFile>
    var listed: seq<string>
    var downloads: seq<Download>

    constructor(listing: string -> seq<DriveFile>)
      ensures this.listing == listing && listed == [] && downloads == []
    {
      this.listing := listing;
      listed := [];
      downloads := [];
    }

    /** `list_files_in_folder(folder_id)`. */
    method ListFiles(folderId: string) returns (files: seq<DriveFile>)
      modifies this
      ensures files == listing(folderId)
      ensures listed == old(listed) + [folderId] && downloads == old(downloads)
    {
      listed := listed + [folderId];
      files := listing(folderId);
    }

    /** `download_file(file_id, name, mime_type, dest_path)`, which returns `dest_path`. */
    method DownloadFile(fileId: string, name: string, mimeType: string, dest: string) returns (path: string)
      modifies this
      ensures path == dest
      ensures downloads == old(downloads) + [Download(fileId, dest)] && listed == old(listed)
    {
      downloads := downloads + [Download(fileId, dest)];
      path := dest;
    }
  }

  // ---------------------------------------------------------------------------------------------
  // The local copy

  /** `name.replace("/", "_").strip()`. */
  function LocalName(name: string): (r: string)
    ensures '/' !in r
  {
    var replaced := ReplaceChar(name, '/', '_');
    StripChars(replaced, c => c != '/');
    Strip(replaced)
  }

  /** `str(RAW_DIR / base)`: `pathlib` drops an empty or "." part. */
  function LocalPath(base: string): (r: string)
    ensures RawDir <= r
    ensures r == RawDir || r == RawDir + "/" + base
  {
    if base == "" || base == "." then RawDir else RawDir + "/" + base
  }

  /** The local name is a single path segment. The path is the download directory itself when
      the name is "" or ".", and one segment below it otherwise; for ".." that segment is the
      parent directory. */
  lemma LocalNameIsOneSegment(name: string)
    ensures '/' !in LocalName(name)
    ensures LocalPath(LocalName(name)) == RawDir
      || LocalPath(LocalName(name)) == RawDir + "/" + LocalName(name)
    ensures LocalName(name) != "" && LocalName(name) != "." ==>
      LocalPath(LocalName(name)) == RawDir + "/" + LocalName(name)
  {
    var r := ReplaceChar(name, '/', '_');
    StripChars(r, c => c != '/');
    assert forall i :: 0 <= i < |LocalName(name)| ==> LocalName(name)[i] != '/';
  }

  // ---------------------------------------------------------------------------------------------
  // upsert_chunks

  /** The vector for the `j`-th chunk of a file: its id (a fresh one when the record has none),
      the embedding of its text, and its metadata tagged with the file id. */
  function VectorOf(ch: ChunkRecord, j: nat, fileId: string, embed: string -> RagService.Embedding,
                    freshId: (string, nat) -> string): Vector
  {
    Vector(if ch.id.Some? then ch.id.value else freshId(fileId, j), embed(ch.text),
           VectorMeta(ch.title, ch.source, ch.text, fileId))
  }

  function VectorsOf(chunks: seq<ChunkRecord>, fileId: string, embed: string -> RagService.Embedding,
                     freshId: (string, nat) -> string): (vs: seq<Vector>)
    ensures |vs| == |chunks|
  {
    if chunks == [] then []
    else
      var j := |chunks| - 1;
      VectorsOf(chunks[..j], fileId, embed, freshId) + [VectorOf(chunks[j], j, fileId, embed, freshId)]
  }

  /** The embedding requests for a file: one single-text batch per chunk. */
  function TextRequests(chunks: seq<ChunkRecord>): (rs: seq<seq<string>>)
    ensures |rs| == |chunks|
    ensures forall i :: 0 <= i < |chunks| ==> rs[i] == [chunks[i].text]
  {
    if chunks == [] then [] else TextRequests(chunks[..|chunks| - 1]) + [[chunks[|chunks| - 1].text]]
  }

  /** The upserts for a file: one, holding all its vectors, unless it has no chunks. */
  function FileUpserts(chunks: seq<ChunkRecord>, fileId: string, embed: string -> RagService.Embedding,
                       freshId: (string, nat) -> string): seq<seq<Vector>>
  {
    if chunks == [] then [] else [VectorsOf(chunks, fileId, embed, freshId)]
  }

  /** One vector per chunk, in chunk order, each carrying the chunk's text, title and source and
      the file id. */
  lemma {:induction false} VectorsOfAt(chunks: seq<ChunkRecord>, fileId: string, embed: string -> RagService.Embedding,
                                       freshId: (string, nat) -> string, j: nat)
    requires j < |chunks|
    ensures VectorsOf(chunks, fileId, embed, freshId)[j] == VectorOf(chunks[j], j, fileId, embed, freshId)
    ensures VectorsOf(chunks, fileId, embed, freshId)[j].metadata
      == VectorMeta(chunks[j].title, chunks[j].source, chunks[j].text, fileId)
  {
    if j < |chunks| - 1 {
      VectorsOfAt(chunks[..|chunks| - 1], fileId, embed, freshId, j);
    }
  }

  /** `upsert_chunks(chunks, file_id)`: embeds each chunk's text on its own, then upserts all the
      vectors in one call, if there are any. */
  method UpsertChunks(chunks: seq<ChunkRecord>, fileId: string, emb: EmbeddingService, index: VectorIndex,
                      freshId: (string, nat) -> string)
    modifies emb, index
    ensures emb.requests == old(emb.requests) + TextRequests(chunks)
    ensures index.upserts == old(index.upserts) + FileUpserts(chunks, fileId, emb.embed, freshId)
  {
    var vectors: seq<Vector> := [];
    for j := 0 to |chunks|
      invariant vectors == VectorsOf(chunks[..j], fileId, emb.embed, freshId)
      invariant emb.requests == old(emb.requests) + TextRequests(chunks[..j])
      invariant index.upserts == old(index.upserts)
    {
      var ch := chunks[j];
      assert chunks[..j + 1][..j] == chunks[..j];
      var es := emb.EmbedBatch([ch.text]);
      var id := if ch.id.Some? then ch.id.value else freshId(fileId, j);
      vectors := vectors + [Vector(id, es[0], VectorMeta(ch.title, ch.source, ch.text, fileId))];
    }
    TakeAll(chunks);
    if vectors != [] {
      index.Upsert(vectors);
    }
  }

  /** `process_single_file`: download to the sanitised local path, chunk, and upsert the chunks
      when there are any. */
  method ProcessSingleFile(f: DriveFile, drive: Drive, emb: EmbeddingService, index: VectorIndex,
                           chunksOf: DriveFile -> seq<ChunkRecord>, freshId: (string, nat) -> string)
    returns (chunks: seq<ChunkRecord>)
    modifies drive, emb, index
    ensures chunks == chunksOf(f)
    ensures drive.downloads == old(drive.downloads) + [Download(f.id, LocalPath(LocalName(f.name)))]
    ensures drive.listed == old(drive.listed)
    ensures emb.requests == old(emb.requests) + TextRequests(chunks)
    ensures index.upserts == old(index.upserts) + FileUpserts(chunks, f.id, emb.embed, freshId)
  {
    var baseName := LocalName(f.name);
    var localPath := LocalPath(baseName);
    var downloaded := drive.DownloadFile(f.id, f.name, f.mimeType, localPath);
    chunks := chunksOf(f);
    if chunks != [] {
      UpsertChunks(chunks, f.id, emb, index, freshId);
    }
  }

  // ---------------------------------------------------------------------------------------------
  // process_new_drive_files

  /** A listed file needs processing when its id is not in the state or its stored time differs. */
  predicate IsChanged(state: State, f: DriveFile): (b: bool)
    ensures !b <==> state[f.id := f.modifiedTime] == state
  {
    f.id !in state || state[f.id] != f.modifiedTime
  }

  function ChangedIn(state: State): DriveFile -> bool {
    f => IsChanged(state, f)
  }

  /** The changed set, in listing order. */
  function ChangedFiles(files: seq<DriveFile>, state: State): (r: seq<DriveFile>)
    ensures forall f :: f in r <==> f in files && IsChanged(state, f)
  {
    Filter(files, ChangedIn(state))
  }

  /** The state after recording each file's `modifiedTime`, one after the other. */
  function MarkSeen(state: State, fs: seq<DriveFile>): (r: State)
    ensures r.Keys == state.Keys + set f | f in fs :: f.id
  {
    if fs == [] then state
    else
      var f := fs[|fs| - 1];
      MarkSeen(state, fs[..|fs| - 1])[f.id := f.modifiedTime]
  }

  /** How many of the files yield chunks, and how many do not. */
  function Produced(fs: seq<DriveFile>, chunksOf: DriveFile -> seq<ChunkRecord>): nat {
    if fs == [] then 0
    else Produced(fs[..|fs| - 1], chunksOf) + (if chunksOf(fs[|fs| - 1]) != [] then 1 else 0)
  }

  function Skipped(fs: seq<DriveFile>, chunksOf: DriveFile -> seq<ChunkRecord>): nat {
    if fs == [] then 0
    else Skipped(fs[..|fs| - 1], chunksOf) + (if chunksOf(fs[|fs| - 1]) == [] then 1 else 0)
  }

  /** What a run asks of the services, file after file. */
  function RunDownloads(fs: seq<DriveFile>): seq<Download> {
    if fs == [] then []
    else
      var f := fs[|fs| - 1];
      RunDownloads(fs[..|fs| - 1]) + [Download(f.id, LocalPath(LocalName(f.name)))]
  }

  function RunRequests(fs: seq<DriveFile>, chunksOf: DriveFile -> seq<ChunkRecord>): seq<seq<string>> {
    if fs == [] then [] else RunRequests(fs[..|fs| - 1], chunksOf) + TextRequests(chunksOf(fs[|fs| - 1]))
  }

  function RunUpserts(fs: seq<DriveFile>, chunksOf: DriveFile -> seq<ChunkRecord>, embed: string -> RagService.Embedding,
                      freshId: (string, nat) -> string): seq<seq<Vector>>
  {
    if fs == [] then []
    else
      var f := fs[|fs| - 1];
      RunUpserts(fs[..|fs| - 1], chunksOf, embed, freshId) + FileUpserts(chunksOf(f), f.id, embed, freshId)
  }

  /** `GOOGLE_DRIVE_FOLDER_ID` is set to a non-empty value. */
  predicate Configured(folderId: Option<string>): (b: bool)
    ensures b ==> folderId.Some?
    ensures folderId == Some("") ==> !b
  {
    folderId.Some? && folderId.value != ""
  }

  /** The first loop of `process_new_drive_files`: the listed files whose id is not in the state
      or whose stored time differs, in listing order. */
  method SelectChanged(files: seq<DriveFile>, state: State) returns (newFiles: seq<DriveFile>)
    ensures newFiles == ChangedFiles(files, state)
  {
    newFiles := [];
    for i := 0 to |files|
      invariant newFiles == Filter(files[..i], ChangedIn(state))
    {
      var f := files[i];
      FilterTakeSnoc(files, i, ChangedIn(state));
      if f.id !in state || state[f.id] != f.modifiedTime {
        newFiles := newFiles + [f];
      }
    }
    TakeAll(files);
  }

  /** `process_new_drive_files()`. */
  method ProcessNewDriveFiles(folderId: Option<string>, store: Store, drive: Drive, emb: EmbeddingService,
                              index: VectorIndex, chunksOf: DriveFile -> seq<ChunkRecord>,
                              freshId: (string, nat) -> string)
    returns (summary: Summary)
    modifies store, drive, emb, index
    ensures !Configured(folderId) ==> summary == Summary(0, 0, None) && unchanged(store, drive, emb, index)
    ensures Configured(folderId) ==>
      var changed := ChangedFiles(drive.listing(folderId.value), old(store.Current()));
      && summary == Summary(Produced(changed, chunksOf), Skipped(changed, chunksOf), Some(|changed|))
      && store.persisted == Some(MarkSeen(old(store.Current()), changed))
      && store.loads == old(store.loads) + 1 && store.saves == old(store.saves) + 1
      && drive.listed == old(drive.listed) + [folderId.value]
      && drive.downloads == old(drive.downloads) + RunDownloads(changed)
      && emb.requests == old(emb.requests) + RunRequests(changed, chunksOf)
      && index.upserts == old(index.upserts) + RunUpserts(changed, chunksOf, emb.embed, freshId)
  {
    if folderId.None? || folderId.value == "" {
      return Summary(0, 0, None);
    }
    var state := store.Load();
    ghost var loaded := state;
    var files := drive.ListFiles(folderId.value);

    var newFiles := SelectChanged(files, state);

    var processed, skipped := 0, 0;
    for i := 0 to |newFiles|
      invariant state == MarkSeen(loaded, newFiles[..i])
      invariant processed == Produced(newFiles[..i], chunksOf) && skipped == Skipped(newFiles[..i], chunksOf)
      invariant store.persisted == old(store.persisted) && store.loads == old(store.loads) + 1
      invariant store.saves == old(store.saves)
      invariant drive.listed == old(drive.listed) + [folderId.value]
      invariant drive.downloads == old(drive.downloads) + RunDownloads(newFiles[..i])
      invariant emb.requests == old(emb.requests) + RunRequests(newFiles[..i], chunksOf)
      invariant index.upserts == old(index.upserts) + RunUpserts(newFiles[..i], chunksOf, emb.embed, freshId)
    {
      var f := newFiles[i];
      RunSnoc(newFiles, i, chunksOf, emb.embed, freshId);
      RunSnocState(loaded, newFiles, i);
      AppendAssoc(old(drive.downloads), RunDownloads(newFiles[..i]), [Download(f.id, LocalPath(LocalName(f.name)))]);
      AppendAssoc(old(emb.requests), RunRequests(newFiles[..i], chunksOf), TextRequests(chunksOf(f)));
      AppendAssoc(old(index.upserts), RunUpserts(newFiles[..i], chunksOf, emb.embed, freshId),
                  FileUpserts(chunksOf(f), f.id, emb.embed, freshId));
      var chunks := ProcessSingleFile(f, drive, emb, index, chunksOf, freshId);
      if chunks != [] {
        processed := processed + 1;
      } else {
        skipped := skipped + 1;
      }
      state := state[f.id := f.modifiedTime];
    }
    TakeAll(newFiles);
    store.Save(state);
    summary := Summary(processed, skipped, Some(|newFiles|));
  }

  /** One more file attempted: each record of the run grows by what that file contributes. */
  lemma RunSnoc(fs: seq<DriveFile>, i: nat, chunksOf: DriveFile -> seq<ChunkRecord>, embed: string -> RagService.Embedding,
                freshId: (string, nat) -> string)
    requires i < |fs|
    ensures Produced(fs[..i + 1], chunksOf) == Produced(fs[..i], chunksOf) + (if chunksOf(fs[i]) != [] then 1 else 0)
    ensures Skipped(fs[..i + 1], chunksOf) == Skipped(fs[..i], chunksOf) + (if chunksOf(fs[i]) == [] then 1 else 0)
    ensures RunDownloads(fs[..i + 1]) == RunDownloads(fs[..i]) + [Download(fs[i].id, LocalPath(LocalName(fs[i].name)))]
    ensures RunRequests(fs[..i + 1], chunksOf) == RunRequests(fs[..i], chunksOf) + TextRequests(chunksOf(fs[i]))
    ensures RunUpserts(fs[..i + 1], chunksOf, embed, freshId)
      == RunUpserts(fs[..i], chunksOf, embed, freshId) + FileUpserts(chunksOf(fs[i]), fs[i].id, embed, freshId)
  {
    assert fs[..i + 1][..i] == fs[..i];
  }

  lemma RunSnocState(state: State, fs: seq<DriveFile>, i: nat)
    requires i < |fs|
    ensures MarkSeen(state, fs[..i + 1]) == MarkSeen(state, fs[..i])[fs[i].id := fs[i].modifiedTime]
  {
    assert fs[..i + 1][..i] == fs[..i];
  }

  // ---------------------------------------------------------------------------------------------
  // Properties of a run

  /** The changed set holds exactly the listed files that are new or modified, in listing order. */
  lemma ChangedFilesExact(files: seq<DriveFile>, state: State)
    ensures forall f :: f in ChangedFiles(files, state) <==> f in files && IsChanged(state, f)
    ensures IsSubseq(ChangedFiles(files, state), files)
    ensures forall f ::
      multiset(ChangedFiles(files, state))[f] == if IsChanged(state, f) then multiset(files)[f] else 0
  {
    FilterIsSubseq(files, ChangedIn(state));
    forall f ensures multiset(ChangedFiles(files, state))[f] == if IsChanged(state, f) then multiset(files)[f] else 0 {
      FilterCount(files, ChangedIn(state), f);
    }
  }

  /** Every file of the run is counted once, as processed or as skipped. */
  lemma {:induction false} CountsAddUp(fs: seq<DriveFile>, chunksOf: DriveFile -> seq<ChunkRecord>)
    ensures Produced(fs, chunksOf) + Skipped(fs, chunksOf) == |fs|
  {
    if fs != [] {
      CountsAddUp(fs[..|fs| - 1], chunksOf);
    }
  }

  /** Recording never removes a key, and leaves every id that was not attempted as it was. */
  lemma {:induction false} MarkSeenKeeps(state: State, fs: seq<DriveFile>)
    ensures forall k :: k in state ==> k in MarkSeen(state, fs)
    ensures forall f :: f in fs ==> f.id in MarkSeen(state, fs)
    ensures forall k :: k in MarkSeen(state, fs) && (forall f :: f in fs ==> f.id != k) ==>
      k in state && MarkSeen(state, fs)[k] == state[k]
  {
    if fs != [] {
      var front := fs[..|fs| - 1];
      MarkSeenKeeps(state, front);
      assert forall f :: f in fs ==> f in front || f == fs[|fs| - 1];
      assert forall f :: f in front ==> f in fs;
    }
  }

  /** The listing names each id once: two listed files with the same id are the same entry. */
  predicate IdsDetermine(fs: seq<DriveFile>) {
    forall f, g :: f in fs && g in fs && f.id == g.id ==> f == g
  }

  /** After recording, each attempted file's id maps to its listed `modifiedTime`, whether or
      not it yielded chunks. */
  lemma {:induction false} MarkSeenLatest(state: State, fs: seq<DriveFile>)
    requires IdsDetermine(fs)
    ensures forall f :: f in fs ==> f.id in MarkSeen(state, fs) && MarkSeen(state, fs)[f.id] == f.modifiedTime
  {
    if fs != [] {
      var front, last := fs[..|fs| - 1], fs[|fs| - 1];
      assert forall f :: f in front ==> f in fs;
      MarkSeenLatest(state, front);
      forall f | f in fs
        ensures f.id in MarkSeen(state, fs) && MarkSeen(state, fs)[f.id] == f.modifiedTime
      {
        if f.id != last.id {
          assert f in front by {
            assert fs == front + [last];
          }
        }
      }
    }
  }

  /** A second run over the same listing finds nothing to do: every file attempted in the first
      run, including those that yielded no chunks, is recorded with its current time. */
  lemma RerunFindsNothing(files: seq<DriveFile>, state: State)
    requires IdsDetermine(files)
    ensures ChangedFiles(files, MarkSeen(state, ChangedFiles(files, state))) == []
  {
    var changed := ChangedFiles(files, state);
    var after := MarkSeen(state, changed);
    assert IdsDetermine(changed);
    MarkSeenLatest(state, changed);
    MarkSeenKeeps(state, changed);
    forall f | f in files ensures !IsChanged(after, f) {
      if f !in changed {
        assert forall g :: g in changed ==> g.id != f.id;
      }
    }
    FilterNone(files, ChangedIn(after));
  }
}
