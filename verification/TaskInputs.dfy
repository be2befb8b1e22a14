/** Preparing a compression job's task inputs from stored object metadata
    (compression-coordinator/src/job_handle.rs). */
module TaskInputs {
  import opened Wrappers
  import opened RoundRobin
  import opened Sequences
  import opened Partition

  const FETCH_CHUNK_SIZE: nat := 1000

  /** A row of the ingested-object table. */
  datatype Row = Row(ingestionJobId: nat, bucket: string, key: string, size: nat)

  type Table = map<nat, Row>

  datatype PrepareError =
    | NoS3ObjectMetadata
    | DuplicateS3ObjectMetadata(ids: seq<nat>)
    | MissingS3ObjectMetadata(id: nat)
    | EmptyS3ObjectMetadataField(id: nat, field: string)
    | Refused(error: AddError)
    | NoTaskInputs

  predicate Ascending(ids: seq<nat>) {
    forall i, j :: 0 <= i < j < |ids| ==> ids[i] <= ids[j]
  }

  lemma StaysBelow(r: seq<nat>, front: seq<nat>, x: nat, last: nat)
    requires multiset(r) == multiset(front) + multiset{x} && x <= last
    requires forall i :: 0 <= i < |front| ==> front[i] <= last
    ensures forall i :: 0 <= i < |r| ==> r[i] <= last
  {
    forall i | 0 <= i < |r| ensures r[i] <= last {
      assert r[i] in multiset(r);
      assert r[i] in multiset(front) || r[i] == x;
    }
  }

  function InsertId(sorted: seq<nat>, x: nat): (r: seq<nat>)
    requires Ascending(sorted)
    ensures Ascending(r) && multiset(r) == multiset(sorted) + multiset{x}
    decreases |sorted|
  {
    if sorted == [] then [x]
    else
      var front, last := sorted[..|sorted| - 1], sorted[|sorted| - 1];
      assert sorted == front + [last];
      if last <= x then sorted + [x]
      else
        var r := InsertId(front, x);
        StaysBelow(r, front, x, last);
        r + [last]
  }

  function SortIds(ids: seq<nat>): (r: seq<nat>)
    ensures Ascending(r) && multiset(r) == multiset(ids) && |r| == |ids|
    decreases |ids|
  {
    if ids == [] then []
    else
      assert ids == ids[..|ids| - 1] + [ids[|ids| - 1]];
      var r := InsertId(SortIds(ids[..|ids| - 1]), ids[|ids| - 1]);
      assert |multiset(r)| == |r| && |multiset(ids)| == |ids|;
      r
  }

  /** unique lists the IDs of p once each, ascending. */
  ghost predicate Lists(unique: seq<nat>, p: seq<nat>) {
    StrictlyAscending(unique) && forall x :: x in unique <==> x in p
  }

  /** duplicates lists the IDs that p holds more than once, once each, ascending. */
  ghost predicate ListsRepeats(duplicates: seq<nat>, p: seq<nat>) {
    StrictlyAscending(duplicates) && forall x :: x in duplicates <==> multiset(p)[x] > 1
  }

  lemma ListsNext(unique: seq<nat>, p: seq<nat>, x: nat)
    requires Lists(unique, p) && forall i :: 0 <= i < |p| ==> p[i] < x
    ensures Lists(unique + [x], p + [x])
  {
    forall i | 0 <= i < |unique| ensures unique[i] < x { assert unique[i] in p; }
    forall y ensures y in unique + [x] <==> y in p + [x] {}
  }

  lemma RepeatsNext(duplicates: seq<nat>, p: seq<nat>, x: nat)
    requires ListsRepeats(duplicates, p) && forall i :: 0 <= i < |p| ==> p[i] <= x
    ensures x !in p ==> ListsRepeats(duplicates, p + [x])
    ensures x in p && x in duplicates ==> ListsRepeats(duplicates, p + [x])
    ensures x in p && x !in duplicates ==> ListsRepeats(duplicates + [x], p + [x])
  {
    assert forall y :: y in duplicates ==> y in multiset(p);
    forall y ensures multiset(p + [x])[y] == multiset(p)[y] + (if y == x then 1 else 0) {}
    if x in p {
      assert multiset(p)[x] >= 1;
      if x !in duplicates {
        forall i | 0 <= i < |duplicates| ensures duplicates[i] < x { assert duplicates[i] in multiset(p); }
        forall y ensures y in duplicates + [x] <==> multiset(p + [x])[y] > 1 {}
      }
    } else {
      assert multiset(p)[x] == 0;
    }
  }

  lemma LastRepeat(duplicates: seq<nat>, p: seq<nat>, x: nat)
    requires ListsRepeats(duplicates, p) && x in p && forall i :: 0 <= i < |p| ==> p[i] <= x
    ensures x in duplicates <==> duplicates != [] && duplicates[|duplicates| - 1] == x
  {
    if x in duplicates {
      var k :| 0 <= k < |duplicates| && duplicates[k] == x;
      assert duplicates[|duplicates| - 1] in multiset(p);
    }
  }

  lemma Repeat(unique: seq<nat>, duplicates: seq<nat>, p: seq<nat>, x: nat)
    requires Lists(unique, p) && ListsRepeats(duplicates, p)
    requires p != [] && p[|p| - 1] == x && forall i :: 0 <= i < |p| ==> p[i] <= x
    ensures Lists(unique, p + [x])
    ensures var known := duplicates != [] && duplicates[|duplicates| - 1] == x;
            ListsRepeats(if known then duplicates else duplicates + [x], p + [x])
  {
    RepeatsNext(duplicates, p, x);
    LastRepeat(duplicates, p, x);
    forall y ensures y in p + [x] <==> y in p {}
  }

  /** The lists for a sorted prefix, extended by the next ID. */
  method DedupNext(unique: seq<nat>, duplicates: seq<nat>, ghost p: seq<nat>, curr: nat)
      returns (nextUnique: seq<nat>, nextDuplicates: seq<nat>)
    requires Lists(unique, p) && ListsRepeats(duplicates, p) && Ascending(p + [curr])
    requires if p == [] then unique == [] else unique != [] && unique[|unique| - 1] == p[|p| - 1]
    requires duplicates == [] ==> unique == p
    ensures Lists(nextUnique, p + [curr]) && ListsRepeats(nextDuplicates, p + [curr])
    ensures nextUnique != [] && nextUnique[|nextUnique| - 1] == curr
    ensures nextDuplicates == [] ==> nextUnique == p + [curr]
  {
    nextUnique, nextDuplicates := unique, duplicates;
    assert forall k :: 0 <= k < |p| ==> p[k] == (p + [curr])[k] <= (p + [curr])[|p|];
    if unique != [] && unique[|unique| - 1] == curr {
      Repeat(unique, duplicates, p, curr);
      if duplicates == [] || duplicates[|duplicates| - 1] != curr {
        nextDuplicates := duplicates + [curr];
      }
    } else {
      assert forall k :: 0 <= k < |p| ==> p[k] == (p + [curr])[k] <= (p + [curr])[|p| - 1] < curr;
      RepeatsNext(duplicates, p, curr);
      ListsNext(unique, p, curr);
      nextUnique := unique + [curr];
    }
  }

  lemma PrefixAscends(s: seq<nat>, i: nat)
    requires Ascending(s) && i <= |s|
    ensures Ascending(s[..i])
  {
  }

  /** Removes repeats from a sorted list and reports the repeated IDs, each once. */
  method Dedup(sorted: seq<nat>) returns (unique: seq<nat>, duplicates: seq<nat>)
    requires Ascending(sorted)
    ensures Lists(unique, sorted) && ListsRepeats(duplicates, sorted)
    ensures duplicates == [] ==> unique == sorted
  {
    unique, duplicates := [], [];
    for i := 0 to |sorted|
      invariant Lists(unique, sorted[..i]) && ListsRepeats(duplicates, sorted[..i])
      invariant if i == 0 then unique == [] else unique != [] && unique[|unique| - 1] == sorted[i - 1]
      invariant duplicates == [] ==> unique == sorted[..i]
    {
      TakeNext(sorted, i);
      PrefixAscends(sorted, i + 1);
      unique, duplicates := DedupNext(unique, duplicates, sorted[..i], sorted[i]);
    }
    TakeAll(sorted);
  }

  /** The rows of a query for the given IDs, in ascending order of ID; those without a row are missing. */
  function FetchRows(table: Table, jobId: nat, chunk: seq<nat>): (rows: seq<(nat, Row)>)
    ensures forall i :: 0 <= i < |rows| ==> rows[i].0 in chunk && rows[i].0 in table && rows[i].1 == table[rows[i].0]
  {
    if chunk == [] then []
    else
      var rest := FetchRows(table, jobId, chunk[1..]);
      if chunk[0] in table && table[chunk[0]].ingestionJobId == jobId
      then [(chunk[0], table[chunk[0]])] + rest
      else rest
  }

  /** What is wrong with a requested ID, if anything. */
  function Problem(table: Table, jobId: nat, config: S3Config, id: nat): Option<PrepareError> {
    if id !in table || table[id].ingestionJobId != jobId then Some(MissingS3ObjectMetadata(id))
    else
      var row := table[id];
      if row.bucket == "" then Some(EmptyS3ObjectMetadataField(id, "bucket"))
      else if row.key == "" then Some(EmptyS3ObjectMetadataField(id, "key"))
      else if row.bucket != config.bucket then Some(Refused(S3BucketMismatch(config.bucket, row.bucket)))
      else if !(config.keyPrefix <= row.key) then Some(Refused(S3KeyPrefixMismatch(config.keyPrefix, row.key)))
      else None
  }

  function FileFor(table: Table, id: nat): FileMetadata
    requires id in table
  {
    FileOf(ObjectMetadata(table[id].bucket, table[id].key, table[id].size))
  }

  /** One file per requested ID. */
  function FilesFor(table: Table, ids: seq<nat>): (files: multiset<FileMetadata>)
    requires forall i :: 0 <= i < |ids| ==> ids[i] in table
    ensures |files| == |ids|
  {
    if ids == [] then multiset{}
    else FilesFor(table, ids[..|ids| - 1]) + multiset{FileFor(table, ids[|ids| - 1])}
  }

  /** The first listed ID with a problem decides the error. */
  function FirstProblem(table: Table, jobId: nat, config: S3Config, ids: seq<nat>): (e: Option<PrepareError>)
    ensures e.None? <==> AllClean(table, jobId, config, ids)
  {
    if ids == [] then None
    else
      var front := FirstProblem(table, jobId, config, ids[..|ids| - 1]);
      if front.Some? then front else Problem(table, jobId, config, ids[|ids| - 1])
  }

  ghost predicate AllClean(table: Table, jobId: nat, config: S3Config, ids: seq<nat>) {
    forall i :: 0 <= i < |ids| ==> Problem(table, jobId, config, ids[i]).None?
  }

  /** Checks one fetched row against the ID expected next and adds it to the builder. */
  method AddRow(builder: CompressionInputBuilder, rows: seq<(nat, Row)>, next: nat, id: nat, table: Table, jobId: nat)
    returns (problem: Option<PrepareError>)
    requires builder.Valid() && next <= |rows|
    requires id in table && table[id].ingestionJobId == jobId ==> next < |rows| && rows[next] == (id, table[id])
    requires !(id in table && table[id].ingestionJobId == jobId) ==> next == |rows| || rows[next].0 != id
    modifies builder
    ensures builder.Valid()
    ensures problem == Problem(table, jobId, builder.config, id)
    ensures problem.None? ==> id in table && builder.accepted == old(builder.accepted) + multiset{FileFor(table, id)}
  {
    if next == |rows| || rows[next].0 != id { return Some(MissingS3ObjectMetadata(id)); }
    var row := rows[next].1;
    if row.bucket == "" { return Some(EmptyS3ObjectMetadataField(id, "bucket")); }
    if row.key == "" { return Some(EmptyS3ObjectMetadataField(id, "key")); }
    var added := builder.Add(ObjectMetadata(row.bucket, row.key, row.size));
    if added.Err? { return Some(Refused(added.error)); }
    problem := None;
  }

  lemma {:induction false} FirstProblemStops(table: Table, jobId: nat, config: S3Config, ids: seq<nat>, k: nat)
    requires k <= |ids| && FirstProblem(table, jobId, config, ids[..k]).Some?
    ensures FirstProblem(table, jobId, config, ids) == FirstProblem(table, jobId, config, ids[..k])
    decreases |ids|
  {
    if k == |ids| {
      assert ids[..k] == ids;
    } else {
      var front := ids[..|ids| - 1];
      assert front[..k] == ids[..k];
      FirstProblemStops(table, jobId, config, front, k);
    }
  }

  /** The rows fetched line up with the IDs asked for. */
  lemma FetchLinesUp(table: Table, jobId: nat, chunk: seq<nat>)
    requires chunk != [] && StrictlyAscending(chunk)
    ensures var rows := FetchRows(table, jobId, chunk);
            if chunk[0] in table && table[chunk[0]].ingestionJobId == jobId
            then
              && rows != [] && rows[0] == (chunk[0], table[chunk[0]])
              && rows[1..] == FetchRows(table, jobId, chunk[1..])
            else rows == [] || rows[0].0 != chunk[0]
  {
    var rest := FetchRows(table, jobId, chunk[1..]);
    assert rest != [] ==> rest[0].0 in chunk[1..];
    assert forall x :: x in chunk[1..] ==> chunk[0] < x;
  }

  /** Adds the row for the next ID of a chunk. */
  method AddNext(
    builder: CompressionInputBuilder, rows: seq<(nat, Row)>, next: nat, ghost done: seq<nat>, chunk: seq<nat>, i: nat,
    table: Table, jobId: nat)
    returns (problem: Option<PrepareError>)
    requires builder.Valid() && i < |chunk| && StrictlyAscending(chunk)
    requires next <= |rows| && rows[next..] == FetchRows(table, jobId, chunk[i..])
    requires AllClean(table, jobId, builder.config, done + chunk[..i])
    requires builder.accepted == FilesFor(table, done + chunk[..i])
    modifies builder
    ensures builder.Valid()
    ensures problem.Some? ==> problem == FirstProblem(table, jobId, builder.config, done + chunk)
    ensures problem.None? ==> next < |rows| && rows[next + 1..] == FetchRows(table, jobId, chunk[i + 1..])
    ensures problem.None? ==> AllClean(table, jobId, builder.config, done + chunk[..i + 1])
    ensures problem.None? ==> builder.accepted == FilesFor(table, done + chunk[..i + 1])
  {
    assert chunk[i..][1..] == chunk[i + 1..] && chunk[i..][0] == chunk[i];
    FetchLinesUp(table, jobId, chunk[i..]);
    assert next < |rows| ==> rows[next..][0] == rows[next] && rows[next..][1..] == rows[next + 1..];
    problem := AddRow(builder, rows, next, chunk[i], table, jobId);
    ExtendByOne(table, jobId, builder.config, done, chunk, i);
  }

  lemma ChunkStarts(done: seq<nat>, chunk: seq<nat>, rows: seq<(nat, Row)>)
    ensures done + chunk[..0] == done && chunk[0..] == chunk && rows[0..] == rows
  {
  }

  /** Adds the rows of one chunk, stopping at the first problem. */
  method AddChunk(builder: CompressionInputBuilder, ghost done: seq<nat>, chunk: seq<nat>, table: Table, jobId: nat)
    returns (problem: Option<PrepareError>)
    requires builder.Valid() && StrictlyAscending(chunk)
    requires AllClean(table, jobId, builder.config, done) && builder.accepted == FilesFor(table, done)
    modifies builder
    ensures builder.Valid()
    ensures problem == FirstProblem(table, jobId, builder.config, done + chunk)
    ensures problem.None? ==> AllClean(table, jobId, builder.config, done + chunk)
    ensures problem.None? ==> builder.accepted == FilesFor(table, done + chunk)
  {
    var rows := FetchRows(table, jobId, chunk);
    var next, i := 0, 0;
    ChunkStarts(done, chunk, rows);
    while i < |chunk|
      invariant 0 <= i <= |chunk| && 0 <= next <= |rows|
      invariant rows[next..] == FetchRows(table, jobId, chunk[i..])
      invariant builder.Valid() && AllClean(table, jobId, builder.config, done + chunk[..i])
      invariant builder.accepted == FilesFor(table, done + chunk[..i])
    {
      problem := AddNext(builder, rows, next, done, chunk, i, table, jobId);
      if problem.Some? { return; }
      next, i := next + 1, i + 1;
    }
    TakeAll(chunk);
    problem := None;
  }

  lemma ExtendByOne(table: Table, jobId: nat, config: S3Config, done: seq<nat>, chunk: seq<nat>, i: nat)
    requires i < |chunk| && AllClean(table, jobId, config, done + chunk[..i])
    ensures var p := Problem(table, jobId, config, chunk[i]);
            if p.Some? then FirstProblem(table, jobId, config, done + chunk) == p
            else AllClean(table, jobId, config, done + chunk[..i + 1])
                 && FilesFor(table, done + chunk[..i + 1])
                    == FilesFor(table, done + chunk[..i]) + multiset{FileFor(table, chunk[i])}
  {
    var front, all := done + chunk[..i], done + chunk[..i + 1];
    assert all[..|all| - 1] == front && all[|all| - 1] == chunk[i];
    if Problem(table, jobId, config, chunk[i]).Some? {
      assert FirstProblem(table, jobId, config, all) == Problem(table, jobId, config, chunk[i]);
      assert (done + chunk)[..|all|] == all;
      FirstProblemStops(table, jobId, config, done + chunk, |all|);
    }
  }

  lemma ChunkFacts(ids: seq<nat>, begin: nat, end: nat)
    requires begin <= end <= |ids| && StrictlyAscending(ids)
    ensures StrictlyAscending(ids[begin..end]) && ids[..begin] + ids[begin..end] == ids[..end]
  {
  }

  /** Adds every chunk of requested rows. */
  method AddAll(builder: CompressionInputBuilder, ids: seq<nat>, table: Table, jobId: nat)
    returns (problem: Option<PrepareError>)
    requires builder.Valid() && builder.accepted == multiset{} && StrictlyAscending(ids)
    modifies builder
    ensures builder.Valid()
    ensures problem == FirstProblem(table, jobId, builder.config, ids)
    ensures problem.None? ==> AllClean(table, jobId, builder.config, ids)
    ensures problem.None? ==> builder.accepted == FilesFor(table, ids)
  {
    var begin := 0;
    while begin < |ids|
      invariant 0 <= begin <= |ids| && builder.Valid()
      invariant AllClean(table, jobId, builder.config, ids[..begin])
      invariant builder.accepted == FilesFor(table, ids[..begin])
    {
      var end := if begin + FETCH_CHUNK_SIZE <= |ids| then begin + FETCH_CHUNK_SIZE else |ids|;
      ghost var done := ids[..begin];
      var chunk := ids[begin..end];
      ChunkFacts(ids, begin, end);
      problem := AddChunk(builder, done, chunk, table, jobId);
      if problem.Some? {
        FirstProblemStops(table, jobId, builder.config, ids, end);
        return;
      }
      begin := end;
    }
    assert ids[..|ids|] == ids;
    problem := None;
  }

  /** Prepares a job's task inputs. Repeated IDs are refused and listed; otherwise the first requested ID,
      in ascending order, with a missing or unusable row decides the error; otherwise the inputs hold
      exactly one key per requested ID. */
  method PrepareTaskInputs(ids: seq<nat>, table: Table, jobId: nat, config: S3Config, target: nat, naming: Naming)
    returns (r: Result<seq<S3InputSource>, PrepareError>, ghost parts: seq<seq<FileMetadata>>)
    requires target > 0
    ensures ids == [] ==> r == Err(NoS3ObjectMetadata)
    ensures ids != [] && HasRepeats(ids) ==>
              r.Err? && r.error.DuplicateS3ObjectMetadata? && ListsRepeats(r.error.ids, ids)
    ensures ids != [] && !HasRepeats(ids) ==>
              && (r.Ok? <==> AllClean(table, jobId, config, SortIds(ids)))
              && (r.Err? ==> FirstProblem(table, jobId, config, SortIds(ids)) == Some(r.error))
    ensures r.Ok? ==>
              AllClean(table, jobId, config, SortIds(ids)) && Holds(r.value, parts, FilesFor(table, SortIds(ids)))
    ensures r.Ok? ==> AllUnder(config, r.value)
  {
    parts := [];
    if ids == [] { return Err(NoS3ObjectMetadata), parts; }
    var sorted := SortIds(ids);
    var unique, duplicates := Dedup(sorted);
    if duplicates != [] {
      assert duplicates[0] in duplicates;
      return Err(DuplicateS3ObjectMetadata(duplicates)), parts;
    }
    r, parts := BuildInputs(unique, table, jobId, config, target, naming);
  }

  /** The sources hold the keys of the parts, and the parts hold exactly the files. */
  ghost predicate Holds(sources: seq<S3InputSource>, parts: seq<seq<FileMetadata>>, files: multiset<FileMetadata>) {
    && |sources| == |parts|
    && (forall i :: 0 <= i < |sources| ==> sources[i].objectKeys == Paths(parts[i]) && sources[i].objectKeys != [])
    && multiset(Flatten(parts)) == files
  }

  /** Every source points at the configured, non-empty bucket and endpoint, with the configured authentication,
      and every key in it is a non-empty one under the configured prefix. */
  predicate AllUnder(config: S3Config, sources: seq<S3InputSource>) {
    forall i :: 0 <= i < |sources| ==>
      && sources[i].endpointUrl == config.endpointUrl && sources[i].regionCode == config.regionCode
      && sources[i].bucket == config.bucket != "" && sources[i].awsAuthentication == config.awsAuthentication
      && forall k :: 0 <= k < |sources[i].objectKeys| ==>
           sources[i].objectKeys[k] != "" && config.keyPrefix <= sources[i].objectKeys[k]
  }

  lemma {:induction false} FilesAreRequested(table: Table, ids: seq<nat>, f: FileMetadata)
    requires (forall i :: 0 <= i < |ids| ==> ids[i] in table) && f in FilesFor(table, ids)
    ensures exists j :: 0 <= j < |ids| && f == FileFor(table, ids[j])
    decreases |ids|
  {
    var front := ids[..|ids| - 1];
    if f in FilesFor(table, front) { FilesAreRequested(table, front, f); }
  }

  lemma {:induction false} PartIsInFlatten(parts: seq<seq<FileMetadata>>, i: nat, k: nat)
    requires i < |parts| && k < |parts[i]|
    ensures parts[i][k] in Flatten(parts)
    decreases |parts|
  {
    if i > 0 { PartIsInFlatten(parts[1..], i - 1, k); }
  }

  lemma KeyIsUsable(table: Table, jobId: nat, config: S3Config, ids: seq<nat>, f: FileMetadata)
    requires AllClean(table, jobId, config, ids) && f in FilesFor(table, ids)
    ensures f.path != "" && config.keyPrefix <= f.path && config.bucket != ""
  {
    FilesAreRequested(table, ids, f);
  }

  lemma KeysAreUsable(table: Table, jobId: nat, config: S3Config, ids: seq<nat>, parts: seq<seq<FileMetadata>>,
                      sources: seq<S3InputSource>)
    requires AllClean(table, jobId, config, ids) && Holds(sources, parts, FilesFor(table, ids))
    requires forall i :: 0 <= i < |sources| ==> Reads(sources[i], config, Paths(parts[i]))
    ensures AllUnder(config, sources)
  {
    forall i, k | 0 <= i < |sources| && 0 <= k < |sources[i].objectKeys|
      ensures sources[i].objectKeys[k] != "" && config.keyPrefix <= sources[i].objectKeys[k] && config.bucket != ""
    {
      PartIsInFlatten(parts, i, k);
      assert parts[i][k] in multiset(Flatten(parts));
      KeyIsUsable(table, jobId, config, ids, parts[i][k]);
    }
  }

  /** Builds the inputs once the IDs are known to be distinct. */
  method BuildInputs(ids: seq<nat>, table: Table, jobId: nat, config: S3Config, target: nat, naming: Naming)
    returns (r: Result<seq<S3InputSource>, PrepareError>, ghost parts: seq<seq<FileMetadata>>)
    requires target > 0 && ids != [] && StrictlyAscending(ids)
    ensures r.Ok? <==> AllClean(table, jobId, config, ids)
    ensures r.Err? ==> FirstProblem(table, jobId, config, ids) == Some(r.error)
    ensures r.Ok? ==> Holds(r.value, parts, FilesFor(table, ids)) && AllUnder(config, r.value)
  {
    parts := [];
    var builder := new CompressionInputBuilder(config, target, naming);
    var problem := AddAll(builder, ids, table, jobId);
    if problem.Some? { return Err(problem.value), parts; }
    var sources := builder.IntoTaskInputSources();
    parts := builder.emitted;
    assert sources != [] by { assert |multiset(Flatten(parts))| == |ids|; }
    if sources == [] { return Err(NoTaskInputs), parts; }
    KeysAreUsable(table, jobId, config, ids, parts, sources);
    r := Ok(sources);
  }

  ghost predicate HasRepeats(ids: seq<nat>) {
    exists x :: multiset(ids)[x] > 1
  }
}
