/** The segment index: a bit-array set of dictionary IDs, written per segment and inverted on reading
    (ArrayBackedPosIntSet.hpp, DictionaryWriter.hpp, DictionaryReader.hpp). */
module SegmentIndex {
  import opened Wrappers
  import opened Sequences

  // ---- Growth ---------------------------------------------------------------------------------

  function Grow(capacity: nat): nat {
    capacity + capacity / 2
  }

  /** The capacity after n growth steps. */
  function Grown(capacity: nat, n: nat): nat {
    if n == 0 then capacity else Grow(Grown(capacity, n - 1))
  }

  lemma {:induction false} SmallCapacityIsStuck(capacity: nat, n: nat)
    requires capacity < 2
    ensures Grown(capacity, n) == capacity
    decreases n
  {
    if n > 0 { SmallCapacityIsStuck(capacity, n - 1); }
  }

  lemma {:induction false} GrowthIsUnbounded(capacity: nat, n: nat)
    requires capacity >= 2
    ensures Grown(capacity, n) >= capacity + n
    decreases n
  {
    if n > 0 { GrowthIsUnbounded(capacity, n - 1); }
  }

  lemma GrowthReachesIn(capacity: nat, value: nat, n: nat)
    requires Grown(capacity, n) > value
    ensures exists m: nat :: Grown(capacity, m) > value
  {
  }

  /** Growing reaches past a value exactly when it starts past it or from a capacity of at least 2. */
  lemma GrowthReaches(capacity: nat, value: nat)
    ensures (exists n: nat :: Grown(capacity, n) > value) <==> capacity > value || capacity >= 2
  {
    if capacity >= 2 {
      GrowthIsUnbounded(capacity, value + 1);
      GrowthReachesIn(capacity, value, value + 1);
    } else if capacity > value {
      GrowthReachesIn(capacity, value, 0);
    } else {
      forall n: nat ensures Grown(capacity, n) == capacity { SmallCapacityIsStuck(capacity, n); }
    }
  }

  // ---- The bit-array set ----------------------------------------------------------------------

  function MembersOf(data: seq<bool>): set<nat> {
    set v: nat | v < |data| && data[v]
  }

  /** The members below a bound, in ascending order. */
  function Listed(data: seq<bool>, bound: nat): (r: seq<nat>)
    requires bound <= |data|
    ensures forall v :: v in r <==> 0 <= v < bound && data[v]
    ensures StrictlyAscending(r)
    decreases bound
  {
    if bound == 0 then []
    else
      var rest := Listed(data, bound - 1);
      assert forall i :: 0 <= i < |rest| ==> rest[i] in rest;
      rest + (if data[bound - 1] then [bound - 1] else [])
  }

  lemma {:induction false} AscendingCount(r: seq<nat>, s: set<nat>)
    requires StrictlyAscending(r) && forall v :: v in r <==> v in s
    ensures |r| == |s|
    decreases |r|
  {
    if r == [] {
      assert s == {};
    } else {
      var front, last := r[..|r| - 1], r[|r| - 1];
      forall v ensures v in front <==> v in s - {last} {
        assert v in r <==> v in front || v == last;
        assert last in r;
      }
      AscendingCount(front, s - {last});
    }
  }

  function SetOf(s: seq<nat>): set<nat> {
    set v | v in s
  }

  lemma SetOfNext(s: seq<nat>, i: nat)
    requires i < |s|
    ensures SetOf(s[..i + 1]) == SetOf(s[..i]) + {s[i]}
  {
    TakeNext(s, i);
    assert forall v :: v in s[..i] + [s[i]] <==> v in s[..i] || v == s[i];
  }

  function Below(s: set<nat>, bound: nat): set<nat> {
    set v | v in s && v < bound
  }

  lemma BelowNext(s: set<nat>, bound: nat)
    ensures Below(s, bound + 1) == Below(s, bound) + (if bound in s then {bound} else {})
  {
    assert forall v :: v in Below(s, bound + 1) <==> v in Below(s, bound) || (v == bound && bound in s);
  }

  lemma BelowAll(s: set<nat>, bound: nat)
    requires forall v :: v in s ==> v < bound
    ensures Below(s, bound) == s
  {
    assert forall v :: v in s ==> v in Below(s, bound);
  }

  class PosIntSet {
    const initialCapacity: nat
    var data: seq<bool>
    var size: nat
    var largest: nat

    ghost function Members(): set<nat>
      reads this
    {
      MembersOf(data)
    }

    /** The size counts the members, and no member exceeds the largest value. */
    ghost predicate Valid()
      reads this
    {
      && 2 <= |data|
      && size == |Members()|
      && largest < |data|
      && (forall v :: v in Members() ==> v <= largest)
      && (largest == 0 || largest in Members())
    }

    constructor (initialCapacity: nat)
      requires initialCapacity >= 2
      ensures Valid() && Members() == {} && this.initialCapacity == initialCapacity
    {
      this.initialCapacity := initialCapacity;
      data := seq(initialCapacity, _ => false);
      size, largest := 0, 0;
    }

    method Clear()
      requires initialCapacity >= 2
      modifies this
      ensures Valid() && Members() == {} && |data| == initialCapacity
    {
      data := seq(initialCapacity, _ => false);
      size, largest := 0, 0;
    }

    /** Grows the array until the value is a valid index; the members stay the same. */
    method IncreaseCapacity(value: nat)
      requires Valid() && value >= |data|
      modifies this`data
      ensures Valid() && value < |data| && Members() == old(Members())
      ensures exists n: nat :: |data| == Grown(|old(data)|, n)
    {
      var capacity := |data|;
      ghost var n := 0;
      while capacity <= value
        invariant |data| <= capacity && capacity == Grown(|data|, n)
        decreases value + 1 - capacity
      {
        n := n + 1;
        capacity := capacity + capacity / 2;
      }
      ghost var before := data;
      data := data + seq(capacity - |data|, _ => false);
      assert MembersOf(data) == MembersOf(before);
      assert |data| == Grown(|before|, n);
    }

    method Insert(value: nat)
      requires Valid()
      modifies this
      ensures Valid() && Members() == old(Members()) + {value}
    {
      if value >= |data| { IncreaseCapacity(value); }
      if !data[value] {
        ghost var before := data;
        data := data[value := true];
        assert MembersOf(data) == MembersOf(before) + {value};
        size := size + 1;
        if value > largest { largest := value; }
      } else {
        assert MembersOf(data) == MembersOf(data) + {value};
      }
    }

    method CopyValue(value: nat, inputData: seq<bool>)
      requires value < |data| && value < |inputData| && size == |Members()|
      modifies this`data, this`size
      ensures |data| == |old(data)| && size == |Members()|
      ensures Members() == old(Members()) + (if inputData[value] then {value} else {})
    {
      if !data[value] && inputData[value] {
        ghost var before := data;
        data := data[value := true];
        assert MembersOf(data) == MembersOf(before) + {value};
        size := size + 1;
      }
    }

    /** Copies every value up to the input's largest, which no input member exceeds. */
    method CopyValues(inputData: seq<bool>, inputLargest: nat)
      requires inputLargest < |data| && inputLargest < |inputData| && size == |Members()|
      requires forall v :: v in MembersOf(inputData) ==> v <= inputLargest
      modifies this`data, this`size
      ensures |data| == |old(data)| && size == |Members()|
      ensures Members() == old(Members()) + MembersOf(inputData)
    {
      ghost var members := MembersOf(inputData);
      var value := 0;
      while value <= inputLargest
        invariant 0 <= value <= inputLargest + 1 && |data| == |old(data)| && size == |Members()|
        invariant Members() == old(Members()) + Below(members, value)
      {
        BelowNext(members, value);
        CopyValue(value, inputData);
        value := value + 1;
      }
      BelowAll(members, value);
    }

    /** Inserts all members of another set, or of this one. */
    method InsertAllFromSet(input: PosIntSet)
      requires Valid() && input.Valid()
      modifies this
      ensures Valid() && Members() == old(Members()) + old(input.Members())
    {
      var inputLargest := input.largest;
      if inputLargest >= |data| { IncreaseCapacity(inputLargest); }
      CopyValues(input.data, inputLargest);
      if inputLargest > largest { largest := inputLargest; }
    }

    method InsertAllFromVector(values: seq<nat>)
      requires Valid()
      modifies this
      ensures Valid() && Members() == old(Members()) + SetOf(values)
    {
      for i := 0 to |values|
        invariant Valid() && Members() == old(Members()) + SetOf(values[..i])
      {
        SetOfNext(values, i);
        Insert(values[i]);
      }
      TakeAll(values);
    }

    /** The members in strictly ascending order, as many as the size says. */
    method WriteToCompressor() returns (out: seq<nat>)
      requires Valid()
      ensures StrictlyAscending(out) && (forall v :: v in out <==> v in Members()) && |out| == size
    {
      out := [];
      var value := 0;
      while value <= largest
        invariant 0 <= value <= largest + 1 && out == Listed(data, value)
      {
        if data[value] { out := out + [value]; }
        value := value + 1;
      }
      AscendingCount(out, Members());
    }
  }

  // ---- The stream of segment records ----------------------------------------------------------

  datatype Record = Record(segment: nat, ids: seq<nat>)

  datatype Error = NotInit | Corrupt | EndOfFile

  function EncodeRecord(r: Record): seq<nat> {
    [r.segment, |r.ids|] + r.ids
  }

  function Encode(log: seq<Record>): seq<nat> {
    if log == [] then [] else EncodeRecord(log[0]) + Encode(log[1..])
  }

  lemma {:induction false} EncodeSnoc(log: seq<Record>, r: Record)
    ensures Encode(log + [r]) == Encode(log) + EncodeRecord(r)
    decreases |log|
  {
    if log == [] {
      assert log + [r] == [r];
      assert Encode([r][1..]) == [];
    } else {
      assert (log + [r])[1..] == log[1..] + [r];
      EncodeSnoc(log[1..], r);
    }
  }

  lemma {:induction false} EncodeAppend(a: seq<Record>, b: seq<Record>)
    ensures Encode(a + b) == Encode(a) + Encode(b)
    decreases |a|
  {
    if a == [] {
      NothingAdded(b);
      NothingAdded(Encode(b));
    } else {
      DropFirst(a, b);
      EncodeAppend(a[1..], b);
      Associative(EncodeRecord(a[0]), Encode(a[1..]), Encode(b));
    }
  }

  /** The first record of a stream and what follows it, if the stream holds a whole record. */
  function ParseRecord(s: seq<nat>): Option<(Record, seq<nat>)> {
    if |s| < 2 || |s| < 2 + s[1] then None
    else Some((Record(s[0], s[2..2 + s[1]]), s[2 + s[1]..]))
  }

  /** The IDs of the first record that the stream does hold. */
  function AvailableIds(s: seq<nat>): seq<nat> {
    if |s| < 2 then [] else if |s| < 2 + s[1] then s[2..] else s[2..2 + s[1]]
  }

  /** A record's IDs follow its segment and their number. */
  lemma RecordParts(s: seq<nat>)
    requires |s| >= 2
    ensures var tail := s[2..];
            && AvailableIds(s) == (if s[1] <= |tail| then tail[..s[1]] else tail)
            && (s[1] <= |tail| ==> ParseRecord(s) == Some((Record(s[0], tail[..s[1]]), tail[s[1]..])))
            && (s[1] > |tail| ==> ParseRecord(s).None?)
  {
    var tail := s[2..];
    if s[1] <= |tail| {
      assert tail[..s[1]] == s[2..2 + s[1]] && tail[s[1]..] == s[2 + s[1]..];
    }
  }

  function ParseRecords(s: seq<nat>, n: nat): Option<(seq<Record>, seq<nat>)>
    decreases n
  {
    if n == 0 then Some(([], s))
    else
      var first := ParseRecord(s);
      if first.None? then None
      else
        var others := ParseRecords(first.value.1, n - 1);
        if others.None? then None else Some(([first.value.0] + others.value.0, others.value.1))
  }

  lemma ParseEncodeRecord(r: Record, rest: seq<nat>)
    ensures ParseRecord(EncodeRecord(r) + rest) == Some((r, rest))
  {
    var s := EncodeRecord(r) + rest;
    assert s[0] == r.segment && s[1] == |r.ids|;
    assert s[2..2 + |r.ids|] == r.ids;
    assert s[2 + |r.ids|..] == rest;
  }

  /** Parsing as many records as were written gives them back and leaves nothing. */
  lemma {:induction false} ParseEncode(log: seq<Record>)
    ensures ParseRecords(Encode(log), |log|) == Some((log, []))
    decreases |log|
  {
    if log != [] {
      ParseEncodeRecord(log[0], Encode(log[1..]));
      ParseEncode(log[1..]);
      assert log == [log[0]] + log[1..];
    }
  }

  /** The segments whose records list an ID. */
  function SegmentsWith(log: seq<Record>, id: nat): set<nat> {
    set k | 0 <= k < |log| && id in log[k].ids :: log[k].segment
  }

  lemma SegmentsWithLast(log: seq<Record>, last: Record, id: nat)
    ensures SegmentsWith(log + [last], id)
         == SegmentsWith(log, id) + (if id in last.ids then {last.segment} else {})
  {
    var all := log + [last];
    forall s ensures s in SegmentsWith(all, id)
                <==> s in SegmentsWith(log, id) || (id in last.ids && s == last.segment) {
      assert all[|log|] == last;
      if s in SegmentsWith(log, id) {
        var k :| 0 <= k < |log| && id in log[k].ids && log[k].segment == s;
        assert all[k] == log[k];
      }
    }
  }

  predicate IdsBelow(ids: seq<nat>, bound: nat) {
    forall k :: 0 <= k < |ids| ==> ids[k] < bound
  }

  predicate AllIdsBelow(log: seq<Record>, bound: nat) {
    forall k :: 0 <= k < |log| ==> IdsBelow(log[k].ids, bound)
  }

  /** Why reading n records fails, if it does: the first record that lists an unknown ID or is cut short. */
  function Failure(s: seq<nat>, n: nat, bound: nat): Option<Error>
    decreases n
  {
    if n == 0 then None
    else if !IdsBelow(AvailableIds(s), bound) then Some(Corrupt)
    else if ParseRecord(s).None? then Some(EndOfFile)
    else Failure(ParseRecord(s).value.1, n - 1, bound)
  }

  /** Reading fails exactly when some record is missing or lists an unknown ID. */
  lemma {:induction false} FailureMeaning(s: seq<nat>, n: nat, bound: nat)
    ensures Failure(s, n, bound).None?
       <==> ParseRecords(s, n).Some? && AllIdsBelow(ParseRecords(s, n).value.0, bound)
    decreases n
  {
    if n > 0 && ParseRecord(s).Some? {
      var (first, rest) := ParseRecord(s).value;
      FailureMeaning(rest, n - 1, bound);
      var others := ParseRecords(rest, n - 1);
      if others.Some? {
        var all := [first] + others.value.0;
        assert all[0] == first && all[1..] == others.value.0;
        assert AllIdsBelow(all, bound) ==> forall k :: 0 <= k < |others.value.0| ==> others.value.0[k] == all[k + 1];
      }
    }
  }

  lemma AllIdsBelowFirst(log: seq<Record>, bound: nat)
    requires log != []
    ensures AllIdsBelow(log, bound) <==> IdsBelow(log[0].ids, bound) && AllIdsBelow(log[1..], bound)
  {
    if AllIdsBelow(log[1..], bound) {
      assert forall k :: 0 < k < |log| ==> log[k] == log[1..][k - 1];
    }
  }

  /** Reading what was written and `extra` records more: an unknown ID is reported first, then the end. */
  lemma {:induction false} FailureOfLog(log: seq<Record>, extra: nat, bound: nat)
    ensures Failure(Encode(log), |log| + extra, bound)
            == (if !AllIdsBelow(log, bound) then Some(Corrupt) else if extra == 0 then None else Some(EndOfFile))
    decreases |log|
  {
    if log != [] {
      var rest := Encode(log[1..]);
      ParseEncodeRecord(log[0], rest);
      assert AvailableIds(EncodeRecord(log[0]) + rest) == log[0].ids;
      FailureOfLog(log[1..], extra, bound);
      AllIdsBelowFirst(log, bound);
    }
  }

  function Prepend(done: seq<Record>, others: Option<(seq<Record>, seq<nat>)>): Option<(seq<Record>, seq<nat>)> {
    if others.None? then None else Some((done + others.value.0, others.value.1))
  }

  lemma PrependNothing(others: Option<(seq<Record>, seq<nat>)>)
    ensures Prepend([], others) == others
  {
    if others.Some? { assert [] + others.value.0 == others.value.0; }
  }

  lemma PrependNext(done: seq<Record>, s: seq<nat>, n: nat)
    requires n > 0 && ParseRecord(s).Some?
    ensures Prepend(done, ParseRecords(s, n))
         == Prepend(done + [ParseRecord(s).value.0], ParseRecords(ParseRecord(s).value.1, n - 1))
  {
    var (first, rest) := ParseRecord(s).value;
    var others := ParseRecords(rest, n - 1);
    if others.Some? {
      assert done + ([first] + others.value.0) == done + [first] + others.value.0;
    }
  }

  class SegmentIndexWriter {
    var isOpen: bool
    var stream: seq<nat>
    var numSegmentsInIndex: nat
    ghost var log: seq<Record>

    ghost predicate Valid()
      reads this
    {
      stream == Encode(log) && numSegmentsInIndex == |log|
    }

    constructor ()
      ensures Valid() && isOpen && log == []
    {
      isOpen, stream, numSegmentsInIndex, log := true, [], 0, [];
    }

    /** Logs one record that lists exactly the members of the set, each once. */
    method IndexSegment(segmentId: nat, ids: PosIntSet) returns (error: Option<Error>)
      requires Valid() && ids.Valid()
      modifies this`stream, this`numSegmentsInIndex, this`log
      ensures Valid() && (error == if isOpen then None else Some(NotInit))
      ensures error.Some? ==> log == old(log)
      ensures error.None? ==>
          && |log| == |old(log)| + 1 && log[..|old(log)|] == old(log)
          && log[|old(log)|].segment == segmentId
          && StrictlyAscending(log[|old(log)|].ids)
          && SetOf(log[|old(log)|].ids) == ids.Members()
    {
      if !isOpen { return Some(NotInit); }
      var listed := ids.WriteToCompressor();
      stream := stream + [segmentId] + [ids.size] + listed;
      numSegmentsInIndex := numSegmentsInIndex + 1;
      assert SetOf(listed) == ids.Members();
      ghost var record := Record(segmentId, listed);
      EncodeSnoc(log, record);
      assert stream == Encode(log) + EncodeRecord(record);
      log := log + [record];
      error := None;
    }
  }

  /** Exactly the entries with the given IDs have gained the segment. */
  ghost predicate HasSegment(before: seq<set<nat>>, after: seq<set<nat>>, ids: seq<nat>, segment: nat) {
    && |after| == |before|
    && forall id :: 0 <= id < |after| ==> after[id] == before[id] + (if id in ids then {segment} else {})
  }

  lemma HasSegmentNext(before: seq<set<nat>>, after: seq<set<nat>>, ids: seq<nat>, segment: nat, id: nat)
    requires HasSegment(before, after, ids, segment) && id < |after|
    ensures HasSegment(before, after[id := after[id] + {segment}], ids + [id], segment)
  {
    assert forall j :: j in ids + [id] <==> j in ids || j == id;
  }

  lemma UnknownId(start: seq<nat>, i: nat, numIds: nat, bound: nat)
    requires i < numIds && i < |start| && start[i] >= bound
    ensures !IdsBelow(if numIds <= |start| then start[..numIds] else start, bound)
  {
    var ids := if numIds <= |start| then start[..numIds] else start;
    assert ids[i] == start[i];
  }

  /** Where reading n records stands after those in `done`. */
  ghost predicate ReadSoFar(start: seq<nat>, n: nat, unread: seq<nat>, left: nat, done: seq<Record>,
                            before: seq<set<nat>>, after: seq<set<nat>>) {
    && Gained(before, after, done)
    && Failure(start, n, |after|) == Failure(unread, left, |after|)
    && ParseRecords(start, n) == Prepend(done, ParseRecords(unread, left))
  }

  lemma ReadNext(start: seq<nat>, n: nat, unread: seq<nat>, left: nat, done: seq<Record>,
                 before: seq<set<nat>>, after: seq<set<nat>>, next: seq<set<nat>>)
    requires ReadSoFar(start, n, unread, left, done, before, after) && left > 0
    requires IdsBelow(AvailableIds(unread), |after|) && ParseRecord(unread).Some?
    requires HasSegment(after, next, ParseRecord(unread).value.0.ids, ParseRecord(unread).value.0.segment)
    ensures ReadSoFar(start, n, ParseRecord(unread).value.1, left - 1,
                      done + [ParseRecord(unread).value.0], before, next)
  {
    PrependNext(done, unread, left);
    GainedNext(before, after, next, done, ParseRecord(unread).value.0);
  }

  lemma ReadStops(start: seq<nat>, n: nat, unread: seq<nat>, left: nat, done: seq<Record>,
                  before: seq<set<nat>>, after: seq<set<nat>>)
    requires ReadSoFar(start, n, unread, left, done, before, after) && left > 0
    ensures !IdsBelow(AvailableIds(unread), |after|) ==> Failure(start, n, |after|) == Some(Corrupt)
    ensures IdsBelow(AvailableIds(unread), |after|) && ParseRecord(unread).None? ==>
              Failure(start, n, |after|) == Some(EndOfFile)
  {
  }

  lemma ReadEnds(start: seq<nat>, n: nat, unread: seq<nat>, done: seq<Record>,
                 before: seq<set<nat>>, after: seq<set<nat>>)
    requires ReadSoFar(start, n, unread, 0, done, before, after)
    ensures Failure(start, n, |after|) == None && ParseRecords(start, n) == Some((done, unread))
    ensures Gained(before, after, done)
  {
    NothingAdded(done);
  }

  class SegmentIndexReader {
    var isOpen: bool
    /** The part of the index stream that is still to be read. */
    var unread: seq<nat>
    var numSegmentsReadFromIndex: nat
    /** For every dictionary entry, the segments that contain it. */
    var entries: seq<set<nat>>

    constructor (stream: seq<nat>)
      ensures isOpen && unread == stream && entries == [] && numSegmentsReadFromIndex == 0
    {
      isOpen, unread, numSegmentsReadFromIndex, entries := true, stream, 0, [];
    }

    method ReadNumericValue() returns (value: Option<nat>)
      modifies this`unread
      ensures value == if old(unread) == [] then None else Some(old(unread)[0])
      ensures unread == if old(unread) == [] then [] else old(unread)[1..]
    {
      if unread == [] { return None; }
      value := Some(unread[0]);
      unread := unread[1..];
    }

    /** Adds the segment to every listed entry, until an ID is missing or names no entry. */
    method ReadIds(segment: nat, numIds: nat) returns (error: Option<Error>)
      modifies this`unread, this`entries
      ensures |entries| == |old(entries)|
      ensures var ids := if numIds <= |old(unread)| then old(unread)[..numIds] else old(unread);
              error == (if !IdsBelow(ids, |entries|) then Some(Corrupt)
                        else if numIds > |old(unread)| then Some(EndOfFile) else None)
      ensures error.None? ==> unread == old(unread)[numIds..]
      ensures error.None? ==> HasSegment(old(entries), entries, old(unread)[..numIds], segment)
    {
      ghost var start := unread;
      for i := 0 to numIds
        invariant i <= |start| && unread == start[i..]
        invariant IdsBelow(start[..i], |entries|) && HasSegment(old(entries), entries, start[..i], segment)
      {
        var value := ReadNumericValue();
        if value.None? {
          TakeAll(start);
          return Some(EndOfFile);
        }
        var id := value.value;
        assert start[i] == id;
        TakeNext(start, i);
        if id >= |entries| {
          UnknownId(start, i, numIds, |entries|);
          return Some(Corrupt);
        }
        HasSegmentNext(old(entries), entries, start[..i], segment, id);
        entries := entries[id := entries[id] + {segment}];
      }
      error := None;
    }

    /** Reads one record; it fails exactly when the record is cut short or lists an unknown ID. */
    method ReadSegmentIds() returns (error: Option<Error>)
      modifies this`unread, this`entries
      ensures |entries| == |old(entries)|
      ensures error == (if !IdsBelow(AvailableIds(old(unread)), |entries|) then Some(Corrupt)
                        else if ParseRecord(old(unread)).None? then Some(EndOfFile) else None)
      ensures error.None? ==>
          var (record, rest) := ParseRecord(old(unread)).value;
          unread == rest && HasSegment(old(entries), entries, record.ids, record.segment)
    {
      ghost var start := unread;
      var segment := ReadNumericValue();
      if segment.None? { return Some(EndOfFile); }
      var numIds := ReadNumericValue();
      if numIds.None? { return Some(EndOfFile); }
      assert unread == start[2..];
      RecordParts(start);
      error := ReadIds(segment.value, numIds.value);
    }

    /** Reads the next of n records. */
    method ReadRecord(ghost start: seq<nat>, ghost n: nat, ghost left: nat, ghost done: seq<Record>,
                      ghost before: seq<set<nat>>)
        returns (error: Option<Error>, ghost next: seq<Record>)
      requires left > 0 && ReadSoFar(start, n, unread, left, done, before, entries)
      modifies this`unread, this`entries
      ensures |entries| == |old(entries)|
      ensures error.Some? ==> error == Failure(start, n, |entries|)
      ensures error.None? ==> ReadSoFar(start, n, unread, left - 1, next, before, entries)
    {
      ghost var rest, held := unread, entries;
      next := done;
      error := ReadSegmentIds();
      if error.Some? {
        ReadStops(start, n, rest, left, done, before, held);
      } else {
        ReadNext(start, n, rest, left, done, before, held, entries);
        next := done + [ParseRecord(rest).value.0];
      }
    }

    /** Reads n records; on success every entry has gained exactly the segments that list it. */
    method ReadRecords(n: nat) returns (error: Option<Error>)
      modifies this`unread, this`entries
      ensures |entries| == |old(entries)|
      ensures error == Failure(old(unread), n, |entries|)
      ensures error.None? ==>
          && ParseRecords(old(unread), n).Some?
          && unread == ParseRecords(old(unread), n).value.1
          && Gained(old(entries), entries, ParseRecords(old(unread), n).value.0)
    {
      ghost var start := unread;
      ghost var done: seq<Record> := [];
      PrependNothing(ParseRecords(start, n));
      for i := 0 to n
        invariant ReadSoFar(start, n, unread, n - i, done, old(entries), entries)
      {
        error, done := ReadRecord(start, n, n - i, done, old(entries));
        if error.Some? { return; }
      }
      ReadEnds(start, n, unread, done, old(entries), entries);
      error := None;
    }

    /** Reads the entries and segments that were added. The count of segments read stays at zero. */
    method ReadNewEntries(numDictionaryEntries: nat, numSegments: nat) returns (error: Option<Error>)
      modifies this`unread, this`entries
      ensures error == if !isOpen then Some(NotInit)
                       else if numDictionaryEntries < |old(entries)| || numSegments < numSegmentsReadFromIndex
                       then Some(Corrupt)
                       else Failure(old(unread), numSegments - numSegmentsReadFromIndex, numDictionaryEntries)
      ensures error.None? ==>
          var grown := old(entries) + Empty(numDictionaryEntries - |old(entries)|);
          var records := ParseRecords(old(unread), numSegments - numSegmentsReadFromIndex);
          && records.Some? && unread == records.value.1
          && Gained(grown, entries, records.value.0)
    {
      if !isOpen { return Some(NotInit); }
      if numDictionaryEntries < |entries| { return Some(Corrupt); }
      entries := entries + Empty(numDictionaryEntries - |entries|);
      if numSegments < numSegmentsReadFromIndex { return Some(Corrupt); }
      error := ReadRecords(numSegments - numSegmentsReadFromIndex);
    }
  }

  function Empty(n: nat): seq<set<nat>> {
    seq(n, _ => {})
  }

  /** Every entry holds what it held before and the segments whose records list it. */
  ghost predicate Gained(before: seq<set<nat>>, after: seq<set<nat>>, log: seq<Record>) {
    && |after| == |before|
    && forall id :: 0 <= id < |after| ==> after[id] == before[id] + SegmentsWith(log, id)
  }

  lemma GainedNext(start: seq<set<nat>>, before: seq<set<nat>>, after: seq<set<nat>>, done: seq<Record>, record: Record)
    requires Gained(start, before, done) && HasSegment(before, after, record.ids, record.segment)
    ensures Gained(start, after, done + [record])
  {
    forall id | 0 <= id < |after| ensures after[id] == start[id] + SegmentsWith(done + [record], id) {
      SegmentsWithLast(done, record, id);
    }
  }

  /** Whatever was indexed is read back, inverted: an entry's segments are those that listed its ID.
      Reading fails exactly when a listed ID is not in the dictionary. */
  method ReadBack(writer: SegmentIndexWriter, numDictionaryEntries: nat)
    returns (reader: SegmentIndexReader, error: Option<Error>)
    requires writer.Valid()
    ensures fresh(reader) && reader.isOpen && reader.numSegmentsReadFromIndex == 0
    ensures error == None <==> AllIdsBelow(writer.log, numDictionaryEntries)
    ensures error.None? ==>
        && |reader.entries| == numDictionaryEntries && reader.unread == []
        && forall id :: 0 <= id < |reader.entries| ==> reader.entries[id] == SegmentsWith(writer.log, id)
  {
    reader := new SegmentIndexReader(writer.stream);
    error := reader.ReadNewEntries(numDictionaryEntries, writer.numSegmentsInIndex);
    ParseEncode(writer.log);
    FailureMeaning(writer.stream, |writer.log|, numDictionaryEntries);
  }

  const DEFAULT_INITIAL_CAPACITY: nat := 1024

  /** The segments whose ID lists hold an ID. */
  function SegmentsListing(segments: seq<(nat, seq<nat>)>, id: nat): set<nat> {
    set k | 0 <= k < |segments| && id in segments[k].1 :: segments[k].0
  }

  /** Every listed ID is below the bound. */
  predicate Within(segments: seq<(nat, seq<nat>)>, bound: nat) {
    forall k, id :: 0 <= k < |segments| && id in segments[k].1 ==> id < bound
  }

  /** The log has one record per segment, with the same IDs. */
  ghost predicate Logs(log: seq<Record>, segments: seq<(nat, seq<nat>)>) {
    && |log| == |segments|
    && forall k :: 0 <= k < |log| ==>
         log[k].segment == segments[k].0 && SetOf(log[k].ids) == SetOf(segments[k].1)
  }

  lemma LogsAgree(log: seq<Record>, segments: seq<(nat, seq<nat>)>, id: nat)
    requires Logs(log, segments)
    ensures SegmentsWith(log, id) == SegmentsListing(segments, id)
  {
    forall k | 0 <= k < |log| ensures id in log[k].ids <==> id in segments[k].1 {
      assert id in SetOf(log[k].ids) <==> id in SetOf(segments[k].1);
    }
    forall s ensures s in SegmentsWith(log, id) <==> s in SegmentsListing(segments, id) {
      if s in SegmentsWith(log, id) {
        var k :| 0 <= k < |log| && id in log[k].ids && log[k].segment == s;
        assert id in segments[k].1 && segments[k].0 == s;
      }
      if s in SegmentsListing(segments, id) {
        var k :| 0 <= k < |segments| && id in segments[k].1 && segments[k].0 == s;
        assert id in log[k].ids && log[k].segment == s;
      }
    }
  }

  lemma LogsBound(log: seq<Record>, segments: seq<(nat, seq<nat>)>, bound: nat)
    requires Logs(log, segments)
    ensures AllIdsBelow(log, bound) <==> Within(segments, bound)
  {
    forall k | 0 <= k < |log|
      ensures IdsBelow(log[k].ids, bound) <==> forall id :: id in segments[k].1 ==> id < bound
    {
      BelowAsSet(log[k].ids, bound);
      BelowAsSet(segments[k].1, bound);
      assert forall id :: id in segments[k].1 <==> id in SetOf(segments[k].1);
    }
  }

  lemma BelowAsSet(ids: seq<nat>, bound: nat)
    ensures IdsBelow(ids, bound) <==> forall id :: id in SetOf(ids) ==> id < bound
  {
    if forall id :: id in SetOf(ids) ==> id < bound {
      forall k | 0 <= k < |ids| ensures ids[k] < bound { assert ids[k] in SetOf(ids); }
    }
  }

  /** Collects a segment's IDs and logs them. */
  method IndexIds(writer: SegmentIndexWriter, segment: nat, ids: seq<nat>)
    requires writer.Valid() && writer.isOpen
    modifies writer`stream, writer`numSegmentsInIndex, writer`log
    ensures writer.Valid()
    ensures |writer.log| == |old(writer.log)| + 1 && writer.log[..|old(writer.log)|] == old(writer.log)
    ensures writer.log[|old(writer.log)|].segment == segment
    ensures SetOf(writer.log[|old(writer.log)|].ids) == SetOf(ids)
  {
    var members := new PosIntSet(DEFAULT_INITIAL_CAPACITY);
    members.InsertAllFromVector(ids);
    var error := writer.IndexSegment(segment, members);
  }

  /** Logs one record per segment. */
  method IndexAll(writer: SegmentIndexWriter, segments: seq<(nat, seq<nat>)>)
    requires writer.Valid() && writer.isOpen
    modifies writer`stream, writer`numSegmentsInIndex, writer`log
    ensures writer.Valid() && old(writer.log) <= writer.log && Logs(writer.log[|old(writer.log)|..], segments)
  {
    ghost var n := |writer.log|;
    for i := 0 to |segments|
      invariant writer.Valid() && old(writer.log) <= writer.log
      invariant Logs(writer.log[n..], segments[..i])
    {
      TakeNext(segments, i);
      ghost var before := writer.log;
      IndexIds(writer, segments[i].0, segments[i].1);
      LogsNext(before, writer.log, n, segments, i);
    }
    TakeAll(segments);
  }

  lemma LogsNext(before: seq<Record>, after: seq<Record>, n: nat, segments: seq<(nat, seq<nat>)>, i: nat)
    requires n <= |before| && |after| == |before| + 1 && after[..|before|] == before
    requires i < |segments| && Logs(before[n..], segments[..i])
    requires after[|before|].segment == segments[i].0 && SetOf(after[|before|].ids) == SetOf(segments[i].1)
    ensures Logs(after[n..], segments[..i + 1])
  {
    assert forall k :: 0 <= k < i ==> after[n..][k] == before[n..][k];
    assert after[n..][i] == after[|before|];
  }

  /** Indexing any segments and reading the index back gives every dictionary entry exactly the segments
      that listed its ID; it fails exactly when a listed ID is not in the dictionary. */
  method IndexThenRead(segments: seq<(nat, seq<nat>)>, numDictionaryEntries: nat)
    returns (error: Option<Error>, entries: seq<set<nat>>)
    ensures error.None? <==> Within(segments, numDictionaryEntries)
    ensures error.None? ==>
        && |entries| == numDictionaryEntries
        && forall id :: 0 <= id < |entries| ==> entries[id] == SegmentsListing(segments, id)
  {
    var writer := new SegmentIndexWriter();
    IndexAll(writer, segments);
    LogsBound(writer.log, segments, numDictionaryEntries);
    var reader;
    reader, error := ReadBack(writer, numDictionaryEntries);
    entries := reader.entries;
    forall id | 0 <= id < |entries| ensures SegmentsWith(writer.log, id) == SegmentsListing(segments, id) {
      LogsAgree(writer.log, segments, id);
    }
  }

  /** Reads records that were added after the first ones were read. */
  method ReadMore(reader: SegmentIndexReader, ghost first: seq<Record>, ghost added: seq<Record>,
                  numDictionaryEntries: nat, numSegments: nat)
    returns (error: Option<Error>)
    requires reader.isOpen && reader.numSegmentsReadFromIndex == 0
    requires reader.unread == Encode(added) && numSegments == |first| + |added|
    requires forall id :: 0 <= id < |reader.entries| ==> reader.entries[id] == SegmentsWith(first, id)
    modifies reader`unread, reader`entries
    ensures error == if numDictionaryEntries < |old(reader.entries)| || !AllIdsBelow(added, numDictionaryEntries)
                     then Some(Corrupt)
                     else if first == [] then None else Some(EndOfFile)
    ensures error.None? ==>
        && |reader.entries| == numDictionaryEntries
        && forall id :: 0 <= id < |reader.entries| ==> reader.entries[id] == SegmentsWith(added, id)
  {
    FailureOfLog(added, |first|, numDictionaryEntries);
    ParseEncode(added);
    error := reader.ReadNewEntries(numDictionaryEntries, numSegments);
  }

  /** A reader catches up with segments and entries added after its first read exactly if that read found no
      segment at all; otherwise the second read fails, even with nothing added. */
  method ReadTwice(writer: SegmentIndexWriter, numFirst: nat, more: seq<(nat, seq<nat>)>, numSecond: nat)
    returns (first: Option<Error>, second: Option<Error>, entries: seq<set<nat>>)
    requires writer.Valid() && writer.isOpen
    modifies writer`stream, writer`numSegmentsInIndex, writer`log
    ensures writer.Valid() && old(writer.log) <= writer.log && Logs(writer.log[|old(writer.log)|..], more)
    ensures first.None? <==> AllIdsBelow(old(writer.log), numFirst)
    ensures first.None? ==>
              second == if numSecond < numFirst || !Within(more, numSecond) then Some(Corrupt)
                        else if old(writer.log) == [] then None else Some(EndOfFile)
    ensures first.None? && second.None? ==>
        && |entries| == numSecond
        && forall id :: 0 <= id < |entries| ==> entries[id] == SegmentsListing(more, id)
  {
    var reader;
    reader, first := ReadBack(writer, numFirst);
    second, entries := first, [];
    ghost var before := writer.log;
    var length := |writer.stream|;
    IndexAll(writer, more);
    if first.Some? { return; }
    ghost var added := writer.log[|before|..];
    GrownStream(before, writer.log);
    reader.unread := reader.unread + writer.stream[length..];
    NothingAdded(Encode(added));
    second := ReadMore(reader, before, added, numSecond, writer.numSegmentsInIndex);
    entries := reader.entries;
    LogsBound(added, more, numSecond);
    forall id | 0 <= id < |entries| ensures SegmentsWith(added, id) == SegmentsListing(more, id) {
      LogsAgree(added, more, id);
    }
  }

  lemma GrownStream(before: seq<Record>, after: seq<Record>)
    requires before <= after
    ensures |Encode(before)| <= |Encode(after)|
    ensures Encode(after)[|Encode(before)|..] == Encode(after[|before|..])
  {
    assert after == before + after[|before|..];
    EncodeAppend(before, after[|before|..]);
  }
}
