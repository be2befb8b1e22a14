/** Partitioning of S3 objects into compression-task inputs (partition.rs). */
module Partition {
  import opened AsciiCase
  import opened Wrappers
  import opened RoundRobin
  import opened Sequences

  datatype AwsAuthentication =
    | Default
    | Credentials(accessKeyId: string, secretAccessKey: string, sessionToken: Option<string>)

  datatype S3Config = S3Config(
    bucket: string, keyPrefix: string, endpointUrl: Option<string>, regionCode: Option<string>,
    awsAuthentication: AwsAuthentication)

  datatype ObjectMetadata = ObjectMetadata(bucket: string, key: string, size: nat)

  datatype S3InputSource = S3InputSource(
    endpointUrl: Option<string>, regionCode: Option<string>, bucket: string, awsAuthentication: AwsAuthentication,
    objectKeys: seq<string>)

  datatype AddError =
    | S3BucketMismatch(expected: string, actual: string)
    | S3KeyPrefixMismatch(prefix: string, key: string)

  function LowerChar(c: char): char {
    if 'A' <= c <= 'Z' then (c as int - 'A' as int + 'a' as int) as char else c
  }

  predicate EqIgnoreAsciiCase(a: string, b: string) {
    |a| == |b| && forall i :: 0 <= i < |a| ==> LowerChar(a[i]) == LowerChar(b[i])
  }

  predicate EndsWithIgnoreAsciiCase(key: string, suffix: string) {
    var start := if |key| < |suffix| then 0 else |key| - |suffix|;
    EqIgnoreAsciiCase(key[start..], suffix)
  }

  /** The estimated uncompressed size, from the compressor suffix. */
  function EstimateUncompressedSize(key: string, size: nat): nat {
    if || EndsWithIgnoreAsciiCase(key, ".gz")
       || EndsWithIgnoreAsciiCase(key, ".gzip")
       || EndsWithIgnoreAsciiCase(key, ".tgz")
    then size * 13
    else if EndsWithIgnoreAsciiCase(key, ".zst") then size * 8
    else size
  }

  /** The key ends with the suffix, in any case. */
  ghost predicate EndsLike(key: string, suffix: string) {
    exists stem, end :: key == stem + end && AgreeButForCase(end, suffix)
  }

  lemma EndsWithIs(key: string, suffix: string)
    ensures EndsWithIgnoreAsciiCase(key, suffix) <==> EndsLike(key, suffix)
  {
    if |key| >= |suffix| {
      var stem, end := key[..|key| - |suffix|], key[|key| - |suffix|..];
      assert key == stem + end;
      if AgreeButForCase(end, suffix) { assert EndsLike(key, suffix); }
      if EndsLike(key, suffix) {
        var stem', end' :| key == stem' + end' && AgreeButForCase(end', suffix);
        assert end' == end;
      }
    }
  }

  lemma LastCharacterAgrees(key: string, suffix: string)
    requires EndsLike(key, suffix) && suffix != ""
    ensures key != "" && SameButForCase(key[|key| - 1], suffix[|suffix| - 1])
  {
  }

  /** Keys that end in .gz, .gzip or .tgz, in any case, count 13 times their size; those in .zst 8 times; all
      others their size. */
  lemma EstimateIs(key: string, size: nat)
    ensures EndsLike(key, ".gz") || EndsLike(key, ".gzip") || EndsLike(key, ".tgz") ==>
              EstimateUncompressedSize(key, size) == 13 * size
    ensures EndsLike(key, ".zst") ==> EstimateUncompressedSize(key, size) == 8 * size
    ensures !(EndsLike(key, ".gz") || EndsLike(key, ".gzip") || EndsLike(key, ".tgz") || EndsLike(key, ".zst")) ==>
              EstimateUncompressedSize(key, size) == size
  {
    EndsWithIs(key, ".gz");
    EndsWithIs(key, ".gzip");
    EndsWithIs(key, ".tgz");
    EndsWithIs(key, ".zst");
    if EndsLike(key, ".zst") {
      LastCharacterAgrees(key, ".zst");
      if EndsLike(key, ".gz") { LastCharacterAgrees(key, ".gz"); }
      if EndsLike(key, ".gzip") { LastCharacterAgrees(key, ".gzip"); }
      if EndsLike(key, ".tgz") { LastCharacterAgrees(key, ".tgz"); }
    }
  }

  function Sum(files: seq<FileMetadata>): nat {
    if files == [] then 0 else files[0].estimatedSize + Sum(files[1..])
  }

  function Paths(files: seq<FileMetadata>): (keys: seq<string>)
    ensures |keys| == |files|
    ensures forall i :: 0 <= i < |keys| ==> keys[i] == files[i].path
  {
    if files == [] then [] else [files[0].path] + Paths(files[1..])
  }

  lemma {:induction false} SumConcat(a: seq<FileMetadata>, b: seq<FileMetadata>)
    ensures Sum(a + b) == Sum(a) + Sum(b)
    decreases |a|
  {
    if a == [] {
      assert a + b == b;
    } else {
      SumConcat(a[1..], b);
      assert (a + b)[1..] == a[1..] + b;
    }
  }

  lemma RemoveOne(b: seq<FileMetadata>, k: nat) returns (rest: seq<FileMetadata>)
    requires k < |b|
    ensures multiset(b) == multiset(rest) + multiset{b[k]}
    ensures Sum(b) == Sum(rest) + b[k].estimatedSize && |rest| == |b| - 1
  {
    var front, back := b[..k], b[k + 1..];
    rest := front + back;
    assert b == front + ([b[k]] + back);
    SumConcat(front, back);
    SumConcat(front, [b[k]] + back);
    assert ([b[k]] + back)[1..] == back;
  }

  lemma {:induction false} SumPermutation(a: seq<FileMetadata>, b: seq<FileMetadata>)
    requires multiset(a) == multiset(b)
    ensures Sum(a) == Sum(b)
    decreases |a|
  {
    if a == [] {
      assert |multiset(b)| == 0;
    } else {
      var restA := RemoveOne(a, 0);
      assert a[0] in multiset(b);
      var k :| 0 <= k < |b| && b[k] == a[0];
      var restB := RemoveOne(b, k);
      assert multiset(restA) == multiset(a) - multiset{a[0]};
      assert multiset(restB) == multiset(b) - multiset{b[k]};
      SumPermutation(restA, restB);
    }
  }

  lemma {:induction false} DrainPermutes(groups: seq<seq<FileMetadata>>)
    requires NonEmptyGroups(groups)
    ensures multiset(Drain(groups)) == multiset(Flatten(groups))
    decreases TotalCount(groups)
  {
    if groups != [] {
      RotateKeeps(groups);
      DrainPermutes(Rotate(groups));
    }
  }

  /** A partition that reached the target only with its last file. */
  predicate Full(target: nat, part: seq<FileMetadata>) {
    part != [] && Sum(part) >= target && Sum(part[..|part| - 1]) < target
  }

  /** A partition cut short because there were no more files. */
  predicate Partial(target: nat, part: seq<FileMetadata>) {
    part != [] && Sum(part) < target
  }

  /** The source reads the keys from where the configuration says. */
  predicate Reads(source: S3InputSource, config: S3Config, keys: seq<string>) {
    && source.endpointUrl == config.endpointUrl && source.regionCode == config.regionCode
    && source.bucket == config.bucket && source.awsAuthentication == config.awsAuthentication
    && source.objectKeys == keys
  }

  lemma SameBuffer(emitted: seq<seq<FileMetadata>>, a: seq<FileMetadata>, b: seq<FileMetadata>,
                   accepted: multiset<FileMetadata>)
    requires multiset(Flatten(emitted)) + multiset(a) == accepted == multiset(Flatten(emitted)) + multiset(b)
    ensures Sum(a) == Sum(b)
  {
    assert multiset(a) == accepted - multiset(Flatten(emitted)) == multiset(b);
    SumPermutation(a, b);
  }

  class CompressionInputBuilder {
    const config: S3Config
    const naming: Naming
    const target: nat
    var buffer: seq<FileMetadata>
    var partitionedTaskInputs: seq<S3InputSource>
    var totalBufferedSize: nat
    /** The files behind each task input. */
    ghost var emitted: seq<seq<FileMetadata>>
    /** Every file accepted so far. */
    ghost var accepted: multiset<FileMetadata>

    /** The running total is right, nothing was lost or repeated, and the emitted inputs hold the files
        emitted. */
    ghost predicate Balanced()
      reads this
    {
      && target > 0
      && totalBufferedSize == Sum(buffer)
      && multiset(Flatten(emitted)) + multiset(buffer) == accepted
      && InputsMatch()
    }

    /** Between calls the buffer holds less than twice the target, and every task input emitted so far
        just reaches the target. */
    ghost predicate Valid()
      reads this
    {
      && Balanced()
      && totalBufferedSize < 2 * target
      && forall i :: 0 <= i < |emitted| ==> Full(target, emitted[i])
    }

    constructor (config: S3Config, target: nat, naming: Naming)
      requires target > 0
      ensures Valid() && accepted == multiset{} && emitted == [] && buffer == []
      ensures this.config == config && this.target == target && this.naming == naming
    {
      this.config, this.target, this.naming := config, target, naming;
      buffer, partitionedTaskInputs, totalBufferedSize := [], [], 0;
      emitted, accepted := [], multiset{};
    }

    method PushInputSource(part: seq<FileMetadata>)
      requires InputsMatch()
      modifies this`partitionedTaskInputs, this`emitted
      ensures InputsMatch()
      ensures emitted == if part == [] then old(emitted) else old(emitted) + [part]
    {
      var keys := Paths(part);
      if keys == [] { return; }
      partitionedTaskInputs := partitionedTaskInputs +
        [S3InputSource(config.endpointUrl, config.regionCode, config.bucket, config.awsAuthentication, keys)];
      emitted := emitted + [part];
    }

    /** Takes files round-robin until the target is reached or there are none left. */
    method FillPartition(it: RoundRobinIterator) returns (part: seq<FileMetadata>, exhausted: bool)
      requires it.Valid() && target > 0 && totalBufferedSize == Sum(Drain(it.groups))
      modifies it, this`totalBufferedSize
      ensures it.Valid() && totalBufferedSize == Sum(Drain(it.groups))
      ensures old(Drain(it.groups)) == part + Drain(it.groups)
      ensures old(TotalCount(it.groups)) == |part| + TotalCount(it.groups)
      ensures exhausted ==> it.groups == [] && (part == [] || Partial(target, part))
      ensures !exhausted ==> Full(target, part)
    {
      part := [];
      var partSize := 0;
      ghost var order := Drain(it.groups);
      assert [] + order == order;
      while partSize < target
        invariant it.Valid() && partSize == Sum(part)
        invariant order == part + Drain(it.groups)
        invariant old(TotalCount(it.groups)) == |part| + TotalCount(it.groups)
        invariant totalBufferedSize == Sum(Drain(it.groups))
        invariant part == [] ==> partSize == 0
        invariant part != [] ==> Sum(part[..|part| - 1]) < target
        decreases TotalCount(it.groups)
      {
        ghost var before := it.groups;
        var file := it.Next();
        if file.None? { return part, true; }
        RotateKeeps(before);
        var f := file.value;
        assert Drain(before) == [f] + Drain(it.groups);
        assert Drain(before)[1..] == Drain(it.groups);
        partSize := partSize + f.estimatedSize;
        totalBufferedSize := totalBufferedSize - f.estimatedSize;
        SumConcat(part, [f]);
        Associative(part, [f], Drain(it.groups));
        assert (part + [f])[..|part|] == part;
        part := part + [f];
      }
      exhausted := false;
    }

    /** The inputs hold exactly the files emitted, in the configured place. */
    ghost predicate InputsMatch()
      reads this`partitionedTaskInputs, this`emitted
    {
      && |partitionedTaskInputs| == |emitted|
      && forall i :: 0 <= i < |emitted| ==> Reads(partitionedTaskInputs[i], config, Paths(emitted[i]))
    }

    /** Fills one partition and emits it. */
    method EmitPartition(it: RoundRobinIterator, ghost parts: seq<seq<FileMetadata>>)
      returns (exhausted: bool, ghost parts': seq<seq<FileMetadata>>)
      requires it.Valid() && target > 0 && totalBufferedSize == Sum(Drain(it.groups)) && InputsMatch()
      modifies it, this`partitionedTaskInputs, this`totalBufferedSize, this`emitted
      ensures it.Valid() && totalBufferedSize == Sum(Drain(it.groups)) && InputsMatch()
      ensures Flatten(parts) + old(Drain(it.groups)) == Flatten(parts') + Drain(it.groups)
      ensures exhausted ==> it.groups == []
      ensures !exhausted ==> TotalCount(it.groups) < old(TotalCount(it.groups))
      ensures (parts' == parts && emitted == old(emitted))
              || exists part :: parts' == parts + [part] && emitted == old(emitted) + [part] &&
                   (Full(target, part) || (exhausted && old(totalBufferedSize) < target && Partial(target, part)))
    {
      var part;
      part, exhausted := FillPartition(it);
      SumConcat(part, Drain(it.groups));
      AppendPart(parts, part);
      Associative(Flatten(parts), part, Drain(it.groups));
      PushInputSource(part);
      NothingAdded(Flatten(parts));
      parts' := if part == [] then parts else parts + [part];
    }

    /** The partitioning loop: emits partitions while there is enough buffered, or until the end on a
        flush. */
    method CutPartitions(it: RoundRobinIterator, flush: bool) returns (ghost parts: seq<seq<FileMetadata>>)
      requires it.Valid() && target > 0 && totalBufferedSize == Sum(Drain(it.groups)) && InputsMatch()
      modifies it, this`partitionedTaskInputs, this`totalBufferedSize, this`emitted
      ensures it.Valid() && totalBufferedSize == Sum(Drain(it.groups)) && InputsMatch()
      ensures emitted == old(emitted) + parts
      ensures old(Drain(it.groups)) == Flatten(parts) + Drain(it.groups)
      ensures if flush then it.groups == [] else totalBufferedSize < target
      ensures CutCorrectly(target, parts, flush)
    {
      parts := [];
      ghost var order := Drain(it.groups);
      NothingAdded(order);
      NothingAdded(emitted);
      while flush || totalBufferedSize >= target
        invariant it.Valid() && totalBufferedSize == Sum(Drain(it.groups)) && InputsMatch()
        invariant emitted == old(emitted) + parts
        invariant order == Flatten(parts) + Drain(it.groups)
        invariant CutCorrectly(target, parts, false)
        decreases TotalCount(it.groups)
      {
        ghost var before := parts;
        var exhausted;
        exhausted, parts := EmitPartition(it, parts);
        if parts != before { Associative(old(emitted), before, [parts[|before|]]); }
        if exhausted { break; }
      }
    }

    /** Cuts partitions and puts what is left back into the buffer. */
    method CutAndRebuffer(it: RoundRobinIterator, flush: bool) returns (ghost parts: seq<seq<FileMetadata>>)
      requires it.Valid() && target > 0 && totalBufferedSize == Sum(Drain(it.groups)) && InputsMatch()
      modifies it, this`buffer, this`partitionedTaskInputs, this`totalBufferedSize, this`emitted
      ensures totalBufferedSize == Sum(buffer) && InputsMatch() && emitted == old(emitted) + parts
      ensures multiset(Flatten(parts)) + multiset(buffer) == multiset(Flatten(old(it.groups)))
      ensures Flatten(parts) <= old(Drain(it.groups))
      ensures if flush then buffer == [] && Flatten(parts) == old(Drain(it.groups)) else totalBufferedSize < target
      ensures CutCorrectly(target, parts, flush)
    {
      ghost var groups := it.groups;
      parts := CutPartitions(it, flush);
      CutConserves(groups, parts, it.groups);
      DrainKeepsSum(it.groups, Flatten(it.groups));
      buffer := it.IntoFlatten();
      NothingAdded(Flatten(parts));
    }

    method PartitionNonEmpty(flush: bool) returns (ghost order: seq<FileMetadata>, ghost parts: seq<seq<FileMetadata>>)
      requires target > 0 && totalBufferedSize == Sum(buffer) && InputsMatch()
      modifies this`buffer, this`partitionedTaskInputs, this`totalBufferedSize, this`emitted
      ensures totalBufferedSize == Sum(buffer) && InputsMatch() && emitted == old(emitted) + parts
      ensures IsRoundRobinOrder(naming, old(buffer), order)
      ensures multiset(Flatten(parts)) + multiset(buffer) == multiset(old(buffer))
      ensures Flatten(parts) <= order
      ensures if flush then buffer == [] && Flatten(parts) == order else totalBufferedSize < target
      ensures CutCorrectly(target, parts, flush)
    {
      var it := new RoundRobinIterator(naming, buffer);
      order := Drain(it.groups);
      DrainKeepsSum(it.groups, buffer);
      parts := CutAndRebuffer(it, flush);
    }

    /** Cuts the buffered files into task inputs in round-robin order. Without a flush, what cannot
        fill another partition stays buffered; with one, the rest becomes a last, partial input. */
    method PartitionBuffer(flush: bool) returns (ghost order: seq<FileMetadata>, ghost parts: seq<seq<FileMetadata>>)
      requires Balanced()
      modifies this`buffer, this`partitionedTaskInputs, this`totalBufferedSize, this`emitted
      ensures Balanced() && emitted == old(emitted) + parts
      ensures flush || old(totalBufferedSize) >= target ==> IsRoundRobinOrder(naming, old(buffer), order)
      ensures Flatten(parts) <= order
      ensures if flush then buffer == [] && Flatten(parts) == order else totalBufferedSize < target
      ensures CutCorrectly(target, parts, flush)
    {
      order, parts := [], [];
      NothingAdded(emitted);
      if !flush && totalBufferedSize < target { return; }
      if buffer == [] {
        EmptyOrder(naming);
        return;
      }
      order, parts := PartitionNonEmpty(flush);
      FlattenConcat(old(emitted), parts);
    }

    /** Adds an object, or refuses one from another bucket or outside the key prefix. */
    method Add(metadata: ObjectMetadata) returns (r: Result<(), AddError>)
      requires Valid()
      modifies this
      ensures Valid() && old(emitted) <= emitted
      ensures r == if metadata.bucket != config.bucket then Err(S3BucketMismatch(config.bucket, metadata.bucket))
                   else if !(config.keyPrefix <= metadata.key)
                   then Err(S3KeyPrefixMismatch(config.keyPrefix, metadata.key))
                   else Ok(())
      ensures r.Ok? ==> accepted == old(accepted) + multiset{FileOf(metadata)}
      ensures r.Ok? ==> if old(totalBufferedSize) + FileOf(metadata).estimatedSize < 2 * target
                        then buffer == old(buffer) + [FileOf(metadata)] && emitted == old(emitted)
                        else totalBufferedSize < target && |emitted| > |old(emitted)|
      ensures r.Err? ==> accepted == old(accepted) && buffer == old(buffer) && emitted == old(emitted)
    {
      if metadata.bucket != config.bucket {
        return Err(S3BucketMismatch(config.bucket, metadata.bucket));
      }
      if !(config.keyPrefix <= metadata.key) {
        return Err(S3KeyPrefixMismatch(config.keyPrefix, metadata.key));
      }
      AddFile(FileOf(metadata));
      r := Ok(());
    }

    method BufferFile(file: FileMetadata)
      requires Balanced()
      modifies this`buffer, this`totalBufferedSize, this`accepted
      ensures Balanced() && accepted == old(accepted) + multiset{file}
      ensures buffer == old(buffer) + [file] && totalBufferedSize == old(totalBufferedSize) + file.estimatedSize
    {
      totalBufferedSize := totalBufferedSize + file.estimatedSize;
      SumConcat(buffer, [file]);
      buffer := buffer + [file];
      accepted := accepted + multiset{file};
    }

    method AddFile(file: FileMetadata)
      requires Valid()
      modifies this
      ensures Valid() && old(emitted) <= emitted && accepted == old(accepted) + multiset{file}
      ensures if old(totalBufferedSize) + file.estimatedSize < 2 * target
              then buffer == old(buffer) + [file] && emitted == old(emitted)
              else totalBufferedSize < target && |emitted| > |old(emitted)|
    {
      BufferFile(file);
      if totalBufferedSize >= 2 * target {
        EmitFull();
      }
    }

    /** Emits full partitions until less than the target is left. */
    method EmitFull()
      requires Balanced() && totalBufferedSize >= target
      requires forall i :: 0 <= i < |emitted| ==> Full(target, emitted[i])
      modifies this`buffer, this`partitionedTaskInputs, this`totalBufferedSize, this`emitted
      ensures Valid() && totalBufferedSize < target
      ensures old(emitted) <= emitted && |emitted| > |old(emitted)|
    {
      ghost var order, parts := PartitionBuffer(false);
      if parts == [] {
        NothingAdded(old(emitted));
        SameBuffer(emitted, old(buffer), buffer, accepted);
      }
    }

    /** Flushes the buffer and hands over the emitted inputs: each accepted object exactly once, every
        input but possibly the last just reaching the target. */
    method IntoTaskInputSources() returns (sources: seq<S3InputSource>)
      requires Valid()
      modifies this
      ensures |sources| == |emitted|
      ensures forall i :: 0 <= i < |sources| ==> Reads(sources[i], config, Paths(emitted[i]))
      ensures multiset(Flatten(emitted)) == accepted == old(accepted)
      ensures CutCorrectly(target, emitted, true)
    {
      ghost var order, parts := PartitionBuffer(true);
      sources := partitionedTaskInputs;
      assert multiset(buffer) == multiset{};
    }
  }

  /** The file a metadata row stands for. */
  function FileOf(metadata: ObjectMetadata): FileMetadata {
    FileMetadata(metadata.key, EstimateUncompressedSize(metadata.key, metadata.size))
  }

  /** Every partition just reaches the target, except the last of a flush, which may fall short. */
  ghost predicate CutCorrectly(target: nat, parts: seq<seq<FileMetadata>>, flush: bool) {
    forall i :: 0 <= i < |parts| ==> Full(target, parts[i]) || (flush && i == |parts| - 1 && Partial(target, parts[i]))
  }

  ghost predicate IsRoundRobinOrder(nm: Naming, files: seq<FileMetadata>, order: seq<FileMetadata>) {
    exists groups ::
      SplitWhereDissimilar(nm, groups) && Flatten(groups) == SortByName(nm, files) && order == Drain(groups)
  }

  lemma EmptyOrder(nm: Naming)
    ensures IsRoundRobinOrder(nm, [], [])
  {
    var groups: seq<seq<FileMetadata>> := [];
    assert SplitWhereDissimilar(nm, groups) && Flatten(groups) == SortByName(nm, []) && [] == Drain(groups);
  }

  lemma DrainKeepsSum(groups: seq<seq<FileMetadata>>, files: seq<FileMetadata>)
    requires NonEmptyGroups(groups) && multiset(Flatten(groups)) == multiset(files)
    ensures Sum(Drain(groups)) == Sum(files)
  {
    DrainPermutes(groups);
    SumPermutation(Drain(groups), files);
  }

  lemma CutConserves(groups: seq<seq<FileMetadata>>, parts: seq<seq<FileMetadata>>, rest: seq<seq<FileMetadata>>)
    requires NonEmptyGroups(groups) && NonEmptyGroups(rest)
    requires Drain(groups) == Flatten(parts) + Drain(rest)
    ensures multiset(Flatten(parts)) + multiset(Flatten(rest)) == multiset(Flatten(groups))
  {
    DrainPermutes(groups);
    DrainPermutes(rest);
  }

  lemma AppendPart(parts: seq<seq<FileMetadata>>, part: seq<FileMetadata>)
    ensures Flatten(parts + [part]) == Flatten(parts) + part
  {
    FlattenConcat(parts, [part]);
    assert Flatten([part]) == part;
  }
}
