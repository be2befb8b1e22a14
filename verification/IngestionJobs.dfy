/** The table of running ingestion jobs and its conflict rule
    (log-ingestor/src/ingestion_job_manager.rs). */
module IngestionJobs {
  import opened Wrappers

  type JobId = nat

  /** Where a job reads and which dataset it feeds. */
  datatype Source =
    Source(endpointUrl: Option<string>, region: Option<string>, bucketName: string, dataset: Option<string>)

  datatype Config = Config(source: Source, keyPrefix: string)

  datatype Error = JobIdCollision | PrefixConflict(existing: JobId) | StartFailed

  predicate StartsWith(s: string, prefix: string) {
    prefix <= s
  }

  predicate IsMutuallyPrefixFree(a: string, b: string) {
    !StartsWith(a, b) && !StartsWith(b, a)
  }

  /** The job ingests every object of its source whose key starts with its prefix. */
  predicate Covers(config: Config, source: Source, key: string) {
    config.source == source && StartsWith(key, config.keyPrefix)
  }

  /** Some object would be ingested by both jobs into the same dataset. */
  ghost predicate Overlap(a: Config, b: Config) {
    exists source, key :: Covers(a, source, key) && Covers(b, source, key)
  }

  predicate Conflicts(existing: Config, config: Config) {
    existing.source == config.source && !IsMutuallyPrefixFree(existing.keyPrefix, config.keyPrefix)
  }

  /** Two jobs share an object exactly when they read the same source and one prefix starts the other. */
  lemma ConflictIsOverlap(a: Config, b: Config)
    ensures Conflicts(a, b) <==> Overlap(a, b)
  {
    if Conflicts(a, b) {
      var key := if StartsWith(a.keyPrefix, b.keyPrefix) then a.keyPrefix else b.keyPrefix;
      assert Covers(a, a.source, key) && Covers(b, a.source, key);
    }
    if Overlap(a, b) {
      var source, key :| Covers(a, source, key) && Covers(b, source, key);
      var shorter := if |a.keyPrefix| <= |b.keyPrefix| then a.keyPrefix else b.keyPrefix;
      assert a.keyPrefix == key[..|a.keyPrefix|] && b.keyPrefix == key[..|b.keyPrefix|];
      assert shorter <= a.keyPrefix && shorter <= b.keyPrefix;
    }
  }

  class IngestionJobManager {
    var jobTable: map<JobId, Config>

    /** No object is ingested twice into the same dataset. */
    ghost predicate Valid()
      reads this
    {
      forall i, j :: i in jobTable && j in jobTable && i != j ==> !Overlap(jobTable[i], jobTable[j])
    }

    constructor ()
      ensures Valid() && jobTable == map[]
    {
      jobTable := map[];
    }

    /** Looks for a running job that conflicts with a configuration. */
    method FindConflict(config: Config) returns (existing: Option<JobId>)
      ensures existing.Some? ==> existing.value in jobTable && Overlap(jobTable[existing.value], config)
      ensures existing.None? ==> forall j :: j in jobTable ==> !Overlap(jobTable[j], config)
    {
      var remaining := jobTable.Keys;
      while remaining != {}
        invariant remaining <= jobTable.Keys
        invariant forall j :: j in jobTable && j !in remaining ==> !Overlap(jobTable[j], config)
      {
        var j :| j in remaining;
        ConflictIsOverlap(jobTable[j], config);
        if Conflicts(jobTable[j], config) { return Some(j); }
        remaining := remaining - {j};
      }
      existing := None;
    }

    /** Adds a job. It succeeds exactly when the ID is new, no running job shares an object with it,
        and it starts; otherwise the table is as before. */
    method CreateInstance(jobId: JobId, config: Config, starts: bool) returns (r: Result<(), Error>)
      requires Valid()
      modifies this
      ensures Valid()
      ensures r.Ok? <==> && jobId !in old(jobTable) && starts
                         && forall j :: j in old(jobTable) ==> !Overlap(old(jobTable)[j], config)
      ensures jobTable == if r.Ok? then old(jobTable)[jobId := config] else old(jobTable)
      ensures r == Err(JobIdCollision) <==> jobId in old(jobTable)
      ensures r.Err? && r.error.PrefixConflict? ==>
                r.error.existing in old(jobTable) && Overlap(old(jobTable)[r.error.existing], config)
      ensures r == Err(StartFailed) ==> !starts
    {
      if jobId in jobTable { return Err(JobIdCollision); }
      var existing := FindConflict(config);
      if existing.Some? { return Err(PrefixConflict(existing.value)); }
      if !starts { return Err(StartFailed); }
      forall j | j in jobTable ensures !Overlap(config, jobTable[j]) {
        ConflictIsOverlap(config, jobTable[j]);
        ConflictIsOverlap(jobTable[j], config);
      }
      jobTable := jobTable[jobId := config];
      r := Ok(());
    }

    /** Removes a job; whether it was running. */
    method RemoveInstance(jobId: JobId) returns (found: bool)
      requires Valid()
      modifies this
      ensures Valid() && jobTable == old(jobTable) - {jobId}
      ensures found <==> jobId in old(jobTable)
    {
      found := jobId in jobTable;
      jobTable := jobTable - {jobId};
    }
  }

  datatype Request = Create(jobId: JobId, config: Config, starts: bool) | Remove(jobId: JobId)

  /** The table that a request leaves. */
  ghost function After(jobTable: map<JobId, Config>, request: Request): map<JobId, Config> {
    match request
    case Create(jobId, config, starts) =>
      if jobId !in jobTable && starts && (forall j :: j in jobTable ==> !Overlap(jobTable[j], config))
      then jobTable[jobId := config] else jobTable
    case Remove(jobId) => jobTable - {jobId}
  }

  ghost function Reached(requests: seq<Request>): map<JobId, Config> {
    if requests == [] then map[] else After(Reached(requests[..|requests| - 1]), requests[|requests| - 1])
  }

  /** Whatever jobs are created and removed, no object key is ever covered by two running jobs with
      the same endpoint, region, bucket and dataset. */
  method Serve(requests: seq<Request>) returns (jobTable: map<JobId, Config>)
    ensures jobTable == Reached(requests)
    ensures forall i, j, source, key ::
              (i in jobTable && j in jobTable && Covers(jobTable[i], source, key) && Covers(jobTable[j], source, key))
              ==> i == j
  {
    var manager := new IngestionJobManager();
    for i := 0 to |requests|
      invariant fresh(manager) && manager.Valid() && manager.jobTable == Reached(requests[..i])
    {
      assert requests[..i + 1][..i] == requests[..i];
      match requests[i] {
        case Create(jobId, config, starts) => var result := manager.CreateInstance(jobId, config, starts);
        case Remove(jobId) => var found := manager.RemoveInstance(jobId);
      }
    }
    assert requests[..|requests|] == requests;
    jobTable := manager.jobTable;
    forall i, j, source, key | i in jobTable && j in jobTable
                               && Covers(jobTable[i], source, key) && Covers(jobTable[j], source, key)
      ensures i == j
    {
      assert Overlap(jobTable[i], jobTable[j]);
    }
  }
}
