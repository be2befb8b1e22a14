/** Grouping objects by filename similarity and taking them round-robin (partition.rs). */
module RoundRobin {
  import opened Wrappers
  import opened Sequences

  datatype FileMetadata = FileMetadata(path: string, estimatedSize: nat)

  function Flatten<T>(groups: seq<seq<T>>): seq<T> {
    if groups == [] then [] else groups[0] + Flatten(groups[1..])
  }

  lemma {:induction false} FlattenConcat<T>(a: seq<seq<T>>, b: seq<seq<T>>)
    ensures Flatten(a + b) == Flatten(a) + Flatten(b)
    decreases |a|
  {
    if a == [] {
      assert a + b == b;
    } else {
      FlattenConcat(a[1..], b);
      assert (a + b)[1..] == a[1..] + b;
      assert a[0] + (Flatten(a[1..]) + Flatten(b)) == a[0] + Flatten(a[1..]) + Flatten(b);
    }
  }

  predicate NonEmptyGroups<T>(groups: seq<seq<T>>) {
    forall i :: 0 <= i < |groups| ==> groups[i] != []
  }

  /** The queue after taking the first member of the front group, which goes to the back if it has
      members left. */
  function Rotate<T>(groups: seq<seq<T>>): seq<seq<T>>
    requires groups != [] && groups[0] != []
  {
    if |groups[0]| == 1 then groups[1..] else groups[1..] + [groups[0][1..]]
  }

  function TotalCount<T>(groups: seq<seq<T>>): nat {
    |Flatten(groups)|
  }

  lemma RotateKeeps<T>(groups: seq<seq<T>>)
    requires NonEmptyGroups(groups) && groups != []
    ensures NonEmptyGroups(Rotate(groups))
    ensures multiset(Flatten(groups)) == multiset{groups[0][0]} + multiset(Flatten(Rotate(groups)))
    ensures TotalCount(Rotate(groups)) == TotalCount(groups) - 1
  {
    var g := groups[0];
    assert g == [g[0]] + g[1..];
    if |g| > 1 {
      FlattenConcat(groups[1..], [g[1..]]);
      assert Flatten([g[1..]]) == g[1..] + Flatten<T>([]);
      assert Flatten(Rotate(groups)) == Flatten(groups[1..]) + g[1..];
    } else {
      assert g[1..] == [];
    }
  }

  /** Everything the iterator yields, in order. */
  function Drain<T>(groups: seq<seq<T>>): seq<T>
    requires NonEmptyGroups(groups)
    decreases TotalCount(groups)
  {
    if groups == [] then []
    else
      RotateKeeps(groups);
      [groups[0][0]] + Drain(Rotate(groups))
  }

  // ---- Column-major order ---------------------------------------------------------------------

  /** The first member of each group, in group order. */
  function Heads<T>(groups: seq<seq<T>>): seq<T>
    requires NonEmptyGroups(groups)
  {
    seq(|groups|, i requires 0 <= i < |groups| => groups[i][0])
  }

  /** The groups without their first members, dropping those left empty. */
  function Tails<T>(groups: seq<seq<T>>): (r: seq<seq<T>>)
    requires NonEmptyGroups(groups)
    ensures NonEmptyGroups(r)
    decreases |groups|
  {
    if groups == [] then []
    else
      var front := Tails(groups[..|groups| - 1]);
      var last := groups[|groups| - 1];
      if |last| == 1 then front else front + [last[1..]]
  }

  /** The members in position c of their groups, in group order. */
  function Column<T>(groups: seq<seq<T>>, c: nat): seq<T>
    decreases |groups|
  {
    if groups == [] then []
    else
      var last := groups[|groups| - 1];
      Column(groups[..|groups| - 1], c) + (if c < |last| then [last[c]] else [])
  }

  /** Columns c to n, one after the other. */
  function Columns<T>(groups: seq<seq<T>>, c: nat, n: nat): seq<T>
    decreases n - c
  {
    if c >= n then [] else Column(groups, c) + Columns(groups, c + 1, n)
  }

  lemma {:induction false} FirstColumnIsHeads<T>(groups: seq<seq<T>>)
    requires NonEmptyGroups(groups)
    ensures Column(groups, 0) == Heads(groups)
    decreases |groups|
  {
    if groups != [] { FirstColumnIsHeads(groups[..|groups| - 1]); }
  }

  lemma {:induction false} ColumnOfTails<T>(groups: seq<seq<T>>, c: nat)
    requires NonEmptyGroups(groups)
    ensures Column(Tails(groups), c) == Column(groups, c + 1)
    decreases |groups|
  {
    if groups != [] {
      var front, last := groups[..|groups| - 1], groups[|groups| - 1];
      ColumnOfTails(front, c);
      if |last| > 1 {
        assert (Tails(front) + [last[1..]])[..|Tails(front)|] == Tails(front);
      }
    }
  }

  lemma {:induction false} ColumnsOfTails<T>(groups: seq<seq<T>>, c: nat, n: nat)
    requires NonEmptyGroups(groups) && n > 0
    ensures Columns(Tails(groups), c, n - 1) == Columns(groups, c + 1, n)
    decreases n - c
  {
    if c < n - 1 {
      ColumnOfTails(groups, c);
      ColumnsOfTails(groups, c + 1, n);
    }
  }

  lemma DrainVisit<T>(waiting: seq<seq<T>>, done: seq<seq<T>>)
    requires NonEmptyGroups(waiting) && NonEmptyGroups(done) && waiting != []
    ensures NonEmptyGroups(waiting + done) && NonEmptyGroups(waiting[1..] + AfterVisit(waiting[0], done))
    ensures Drain(waiting + done) == [waiting[0][0]] + Drain(waiting[1..] + AfterVisit(waiting[0], done))
  {
    VisitFront(waiting, done);
    DropFirst(waiting, done);
    RotateKeeps(waiting + done);
  }

  lemma HeadsFromFront<T>(groups: seq<seq<T>>)
    requires NonEmptyGroups(groups) && groups != []
    ensures Heads(groups) == [groups[0][0]] + Heads(groups[1..])
  {
  }

  /** One round over the groups not yet visited yields their first members. */
  lemma {:induction false} OneRound<T>(waiting: seq<seq<T>>, done: seq<seq<T>>)
    requires NonEmptyGroups(waiting) && NonEmptyGroups(done)
    ensures NonEmptyGroups(waiting + done) && NonEmptyGroups(done + Tails(waiting))
    ensures Drain(waiting + done) == Heads(waiting) + Drain(done + Tails(waiting))
    decreases |waiting|
  {
    if waiting == [] {
      NothingAdded(done);
      assert waiting + done == done && done + Tails(waiting) == done;
      NothingAdded(Drain(done));
    } else {
      DrainVisit(waiting, done);
      OneRound(waiting[1..], AfterVisit(waiting[0], done));
      VisitKeepsTails(waiting, done);
      HeadsFromFront(waiting);
      Associative([waiting[0][0]], Heads(waiting[1..]), Drain(done + Tails(waiting)));
    }
  }

  function AfterVisit<T>(g: seq<T>, done: seq<seq<T>>): (r: seq<seq<T>>)
    requires g != [] && NonEmptyGroups(done)
    ensures NonEmptyGroups(r)
  {
    if |g| == 1 then done else done + [g[1..]]
  }

  lemma VisitFront<T>(waiting: seq<seq<T>>, done: seq<seq<T>>)
    requires NonEmptyGroups(waiting) && NonEmptyGroups(done) && waiting != []
    ensures NonEmptyGroups(waiting + done)
    ensures Rotate(waiting + done) == waiting[1..] + AfterVisit(waiting[0], done)
  {
    var g := waiting[0];
    DropFirst(waiting, done);
    if |g| > 1 { Associative(waiting[1..], done, [g[1..]]); }
  }

  lemma VisitKeepsTails<T>(waiting: seq<seq<T>>, done: seq<seq<T>>)
    requires NonEmptyGroups(waiting) && NonEmptyGroups(done) && waiting != []
    ensures AfterVisit(waiting[0], done) + Tails(waiting[1..]) == done + Tails(waiting)
  {
    var g := waiting[0];
    TailsFromFront(waiting);
    if |g| == 1 {
      NothingAdded(Tails(waiting[1..]));
    } else {
      Associative(done, [g[1..]], Tails(waiting[1..]));
    }
  }

  lemma {:induction false} TailsFromFront<T>(groups: seq<seq<T>>)
    requires NonEmptyGroups(groups) && groups != []
    ensures Tails(groups) == (if |groups[0]| == 1 then [] else [groups[0][1..]]) + Tails(groups[1..])
    decreases |groups|
  {
    if |groups| > 1 {
      var front := groups[..|groups| - 1];
      TailsFromFront(front);
      assert groups[1..][..|groups| - 2] == front[1..];
    } else {
      assert groups[..0] == [];
    }
  }

  lemma FullRound<T>(groups: seq<seq<T>>)
    requires NonEmptyGroups(groups)
    ensures Drain(groups) == Heads(groups) + Drain(Tails(groups))
  {
    OneRound(groups, []);
    NothingAdded(groups);
    NothingAdded(Tails(groups));
  }

  /** The iterator yields all first members in group order, then all second members, and so on. */
  lemma {:induction false} DrainIsColumnMajor<T>(groups: seq<seq<T>>, n: nat)
    requires NonEmptyGroups(groups)
    requires forall i :: 0 <= i < |groups| ==> |groups[i]| <= n
    ensures Drain(groups) == Columns(groups, 0, n)
    decreases n
  {
    if n > 0 {
      FullRound(groups);
      TailsAreShorter(groups, n);
      DrainIsColumnMajor(Tails(groups), n - 1);
      ColumnsOfTails(groups, 0, n);
      FirstColumnIsHeads(groups);
    }
  }

  lemma {:induction false} TailsAreShorter<T>(groups: seq<seq<T>>, n: nat)
    requires NonEmptyGroups(groups) && n > 0
    requires forall i :: 0 <= i < |groups| ==> |groups[i]| <= n
    ensures forall i :: 0 <= i < |Tails(groups)| ==> |Tails(groups)[i]| <= n - 1
    decreases |groups|
  {
    if groups != [] { TailsAreShorter(groups[..|groups| - 1], n); }
  }

  // ---- Grouping by filename -----------------------------------------------------------------

  /** How file names are derived from paths and compared; both are library functions of the source. */
  datatype Naming = Naming(filename: string -> string, similar: (string, string) -> bool)

  /** Byte order of strings. */
  predicate Leq(a: string, b: string) {
    if a == "" then true
    else if b == "" then false
    else a[0] < b[0] || (a[0] == b[0] && Leq(a[1..], b[1..]))
  }

  /** In byte order a string comes before another if it is a prefix of it or has the smaller character where
      they first differ. */
  lemma {:induction false} LeqIs(a: string, b: string)
    ensures Leq(a, b) <==> a <= b || exists i :: 0 <= i < |a| && i < |b| && a[..i] == b[..i] && a[i] < b[i]
    decreases |a|
  {
    if a != "" && b != "" {
      LeqIs(a[1..], b[1..]);
      if a[0] < b[0] {
        assert a[..0] == b[..0];
      } else if a[0] == b[0] {
        if i :| 0 <= i < |a| - 1 && i < |b| - 1 && a[1..][..i] == b[1..][..i] && a[1..][i] < b[1..][i] {
          assert a[..i + 1] == b[..i + 1] by { assert a == [a[0]] + a[1..] && b == [b[0]] + b[1..]; }
          assert a[i + 1] < b[i + 1];
        }
        if i :| 0 <= i < |a| && i < |b| && a[..i] == b[..i] && a[i] < b[i] {
          assert a[1..][..i - 1] == a[..i][1..] && b[1..][..i - 1] == b[..i][1..];
          assert a[1..][i - 1] < b[1..][i - 1];
        }
      }
    }
  }

  lemma {:induction false} LeqTotal(a: string, b: string)
    ensures Leq(a, b) || Leq(b, a)
    ensures Leq(a, b) && Leq(b, a) ==> a == b
    decreases |a|
  {
    if a != "" && b != "" {
      LeqTotal(a[1..], b[1..]);
      assert a == [a[0]] + a[1..] && b == [b[0]] + b[1..];
    }
  }

  lemma {:induction false} LeqTransitive(a: string, b: string, c: string)
    requires Leq(a, b) && Leq(b, c)
    ensures Leq(a, c)
    decreases |a|
  {
    if a != "" && a[0] == b[0] == c[0] { LeqTransitive(a[1..], b[1..], c[1..]); }
  }

  predicate SortedByName(nm: Naming, files: seq<FileMetadata>) {
    forall i, j :: 0 <= i < j < |files| ==> Leq(nm.filename(files[i].path), nm.filename(files[j].path))
  }

  /** Inserts after the files with the same or a smaller name. */
  function Insert(nm: Naming, sorted: seq<FileMetadata>, f: FileMetadata): (r: seq<FileMetadata>)
    ensures |r| == |sorted| + 1
    ensures multiset(r) == multiset(sorted) + multiset{f}
    decreases |sorted|
  {
    if sorted == [] then [f]
    else
      var front, last := sorted[..|sorted| - 1], sorted[|sorted| - 1];
      assert sorted == front + [last];
      if Leq(nm.filename(last.path), nm.filename(f.path)) then sorted + [f]
      else Insert(nm, front, f) + [last]
  }

  /** The stable sort by filename. */
  function SortByName(nm: Naming, files: seq<FileMetadata>): (r: seq<FileMetadata>)
    ensures |r| == |files| && multiset(r) == multiset(files)
    decreases |files|
  {
    if files == [] then []
    else
      assert files == files[..|files| - 1] + [files[|files| - 1]];
      Insert(nm, SortByName(nm, files[..|files| - 1]), files[|files| - 1])
  }

  predicate AllUpTo(nm: Naming, files: seq<FileMetadata>, last: FileMetadata) {
    forall i :: 0 <= i < |files| ==> Leq(nm.filename(files[i].path), nm.filename(last.path))
  }

  lemma InsertedStayBelow(nm: Naming, front: seq<FileMetadata>, f: FileMetadata, last: FileMetadata)
    requires Leq(nm.filename(f.path), nm.filename(last.path))
    requires AllUpTo(nm, front, last)
    ensures AllUpTo(nm, Insert(nm, front, f), last)
  {
    var r := Insert(nm, front, f);
    forall i | 0 <= i < |r| ensures Leq(nm.filename(r[i].path), nm.filename(last.path)) {
      assert r[i] in multiset(r);
      assert r[i] in multiset(front) || r[i] == f;
    }
  }

  lemma SortedNext(nm: Naming, files: seq<FileMetadata>, last: FileMetadata)
    requires SortedByName(nm, files) && AllUpTo(nm, files, last)
    ensures SortedByName(nm, files + [last])
  {
  }

  lemma {:induction false} InsertKeepsSorted(nm: Naming, sorted: seq<FileMetadata>, f: FileMetadata)
    requires SortedByName(nm, sorted)
    ensures SortedByName(nm, Insert(nm, sorted, f))
    decreases |sorted|
  {
    if sorted != [] {
      var front, last := sorted[..|sorted| - 1], sorted[|sorted| - 1];
      LeqTotal(nm.filename(last.path), nm.filename(f.path));
      if Leq(nm.filename(last.path), nm.filename(f.path)) {
        forall i | 0 <= i < |sorted| ensures Leq(nm.filename(sorted[i].path), nm.filename(f.path)) {
          if i < |front| { LeqTransitive(nm.filename(sorted[i].path), nm.filename(last.path), nm.filename(f.path)); }
        }
        SortedNext(nm, sorted, f);
      } else {
        assert SortedByName(nm, front);
        InsertKeepsSorted(nm, front, f);
        InsertedStayBelow(nm, front, f, last);
        SortedNext(nm, Insert(nm, front, f), last);
      }
    }
  }

  /** The files with a given name, in order. */
  function WithName(nm: Naming, files: seq<FileMetadata>, name: string): seq<FileMetadata>
    decreases |files|
  {
    if files == [] then []
    else
      var last := files[|files| - 1];
      WithName(nm, files[..|files| - 1], name) + (if nm.filename(last.path) == name then [last] else [])
  }

  lemma {:induction false} InsertIsStable(nm: Naming, sorted: seq<FileMetadata>, f: FileMetadata, name: string)
    ensures WithName(nm, Insert(nm, sorted, f), name)
            == WithName(nm, sorted, name) + (if nm.filename(f.path) == name then [f] else [])
    decreases |sorted|
  {
    var r := Insert(nm, sorted, f);
    if sorted != [] {
      var front, last := sorted[..|sorted| - 1], sorted[|sorted| - 1];
      LeqTotal(nm.filename(last.path), nm.filename(f.path));
      if Leq(nm.filename(last.path), nm.filename(f.path)) {
        assert r[..|r| - 1] == sorted;
      } else {
        InsertIsStable(nm, front, f, name);
        assert r[..|r| - 1] == Insert(nm, front, f);
      }
    } else {
      assert r[..0] == [];
    }
  }

  /** Sorting orders the files by name and keeps the order of those with equal names. */
  lemma {:induction false} SortByNameSorts(nm: Naming, files: seq<FileMetadata>, name: string)
    ensures SortedByName(nm, SortByName(nm, files))
    ensures WithName(nm, SortByName(nm, files), name) == WithName(nm, files, name)
    decreases |files|
  {
    if files != [] {
      var front := files[..|files| - 1];
      SortByNameSorts(nm, front, name);
      InsertKeepsSorted(nm, SortByName(nm, front), files[|files| - 1]);
      InsertIsStable(nm, SortByName(nm, front), files[|files| - 1], name);
    }
  }

  predicate Similar(nm: Naming, a: FileMetadata, b: FileMetadata) {
    nm.similar(nm.filename(a.path), nm.filename(b.path))
  }

  /** The groups are split exactly where neighbours are dissimilar. */
  ghost predicate SplitWhereDissimilar(nm: Naming, groups: seq<seq<FileMetadata>>) {
    && NonEmptyGroups(groups)
    && (forall g, i :: 0 <= g < |groups| && 0 <= i < |groups[g]| - 1 ==> Similar(nm, groups[g][i], groups[g][i + 1]))
    && (forall g :: 0 <= g < |groups| - 1 ==> !Similar(nm, groups[g][|groups[g]| - 1], groups[g + 1][0]))
  }

  lemma FlattenPush<T>(front: seq<seq<T>>, last: seq<T>, x: T)
    ensures Flatten(front + [last + [x]]) == Flatten(front + [last]) + [x]
  {
    FlattenConcat(front, [last]);
    FlattenConcat(front, [last + [x]]);
    assert Flatten([last]) == last && Flatten([last + [x]]) == last + [x];
  }

  /** The last member of the last group. */
  function Newest<T>(groups: seq<seq<T>>): T
    requires NonEmptyGroups(groups) && groups != []
  {
    var last := groups[|groups| - 1];
    last[|last| - 1]
  }

  lemma JoinsLastGroup(nm: Naming, front: seq<seq<FileMetadata>>, last: seq<FileMetadata>, curr: FileMetadata)
    requires SplitWhereDissimilar(nm, front + [last]) && last != []
    requires Similar(nm, last[|last| - 1], curr)
    ensures SplitWhereDissimilar(nm, front + [last + [curr]])
  {
    var old', new' := front + [last], front + [last + [curr]];
    assert old'[|front|] == last && new'[|front|] == last + [curr];
    assert forall g :: 0 <= g < |front| ==> new'[g] == old'[g];
    assert (last + [curr])[0] == last[0];
  }

  lemma StartsNewGroup(nm: Naming, groups: seq<seq<FileMetadata>>, curr: FileMetadata)
    requires SplitWhereDissimilar(nm, groups)
    requires groups != [] ==> !Similar(nm, Newest(groups), curr)
    ensures SplitWhereDissimilar(nm, groups + [[curr]])
  {
    var new' := groups + [[curr]];
    assert new'[|groups|] == [curr];
    assert forall g :: 0 <= g < |groups| ==> new'[g] == groups[g];
  }

  /** Adds one file to the newest group if it is similar to its last member, else to a new group. */
  method AddToGroups(nm: Naming, groups: seq<seq<FileMetadata>>, curr: FileMetadata)
      returns (next: seq<seq<FileMetadata>>)
    requires SplitWhereDissimilar(nm, groups)
    ensures Flatten(next) == Flatten(groups) + [curr]
    ensures SplitWhereDissimilar(nm, next) && next != [] && Newest(next) == curr
  {
    if groups != [] && Similar(nm, Newest(groups), curr) {
      var front, last := groups[..|groups| - 1], groups[|groups| - 1];
      assert groups == front + [last];
      FlattenPush(front, last, curr);
      JoinsLastGroup(nm, front, last, curr);
      next := front + [last + [curr]];
      LastOfPush(front, last + [curr]);
    } else {
      FlattenConcat(groups, [[curr]]);
      assert Flatten([[curr]]) == [curr];
      StartsNewGroup(nm, groups, curr);
      next := groups + [[curr]];
      LastOfPush(groups, [curr]);
    }
  }

  /** Sorts by filename and folds into runs of similar neighbours. */
  method GroupFilesBySimilarFilenames(nm: Naming, files: seq<FileMetadata>) returns (groups: seq<seq<FileMetadata>>)
    ensures Flatten(groups) == SortByName(nm, files)
    ensures SplitWhereDissimilar(nm, groups)
  {
    var sorted := SortByName(nm, files);
    groups := [];
    for i := 0 to |sorted|
      invariant Flatten(groups) == sorted[..i]
      invariant SplitWhereDissimilar(nm, groups)
    {
      TakeNext(sorted, i);
      groups := AddToGroups(nm, groups, sorted[i]);
    }
    TakeAll(sorted);
  }

  /** Owns the groups and yields one file from each in turn. */
  class RoundRobinIterator {
    var groups: seq<seq<FileMetadata>>

    ghost predicate Valid()
      reads this
    {
      NonEmptyGroups(groups)
    }

    constructor (nm: Naming, files: seq<FileMetadata>)
      ensures Valid() && SplitWhereDissimilar(nm, groups)
      ensures Flatten(groups) == SortByName(nm, files)
    {
      new;
      groups := GroupFilesBySimilarFilenames(nm, files);
    }

    /** Yields the next file in column-major order; nothing is lost or repeated. */
    method Next() returns (file: Option<FileMetadata>)
      requires Valid()
      modifies this
      ensures Valid()
      ensures file.None? <==> old(groups) == []
      ensures file.None? ==> groups == []
      ensures file.Some? ==> groups == Rotate(old(groups)) && file.value == old(groups)[0][0]
    {
      if groups == [] { return None; }
      RotateKeeps(groups);
      var group := groups[0];
      groups := groups[1..];
      if group == [] { return None; }
      var rest := group[1..];
      if rest != [] { groups := groups + [rest]; }
      file := Some(group[0]);
    }

    /** All files not yet yielded, group after group. */
    method IntoFlatten() returns (files: seq<FileMetadata>)
      ensures files == Flatten(groups)
    {
      files := [];
      var i := 0;
      while i < |groups|
        invariant 0 <= i <= |groups|
        invariant files + Flatten(groups[i..]) == Flatten(groups)
      {
        assert groups[i..][1..] == groups[i + 1..];
        Associative(files, groups[i], Flatten(groups[i + 1..]));
        files := files + groups[i];
        i := i + 1;
      }
    }
  }
}
