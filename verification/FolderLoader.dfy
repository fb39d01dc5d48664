/** Phase 3 of the migration run (packages/migration/src/pipeline.ts): folders are loaded by
    repeated passes, each persisting the rows whose parent is already mapped. */
module FolderLoader {
  /** A source row. `parent` is "" for a missing or empty parentExternalId. `throws` is what
      transforming and loading this row will do when its turn comes. */
  datatype Folder = Folder(externalId: string, parent: string, throws: bool)

  // ---------------------------------------------------------------- what should be loaded

  /** A chain of at most n + 1 non-failing rows leads from a root down to `id`. */
  ghost predicate ReachedWithin(folders: seq<Folder>, id: string, n: nat)
    decreases n, 1
  {
    exists i :: 0 <= i < |folders| && LinksWithin(folders, i, id, n)
  }

  ghost predicate LinksWithin(folders: seq<Folder>, i: nat, id: string, n: nat)
    requires i < |folders|
    decreases n, 0
  {
    && folders[i].externalId == id
    && !folders[i].throws
    && (folders[i].parent == "" || (n > 0 && ReachedWithin(folders, folders[i].parent, n - 1)))
  }

  /** The least set of ids closed under loading: some chain of rows from a root reaches the id. */
  ghost predicate Reached(folders: seq<Folder>, id: string) {
    exists n: nat :: ReachedWithin(folders, id, n)
  }

  ghost predicate ShouldLoad(folders: seq<Folder>, f: Folder) {
    !f.throws && (f.parent == "" || Reached(folders, f.parent))
  }

  // ---------------------------------------------------------------- the state of the passes

  function Ids(rows: seq<Folder>): set<string> {
    set f | f in rows :: f.externalId
  }

  predicate ParentResolved(f: Folder, loaded: set<string>) {
    f.parent == "" || f.parent in loaded
  }

  ghost predicate ParentsFirst(rows: seq<Folder>) {
    forall k :: 0 <= k < |rows| && rows[k].parent != "" ==> rows[k].parent in Ids(rows[..k])
  }

  ghost predicate Sound(folders: seq<Folder>, loaded: seq<Folder>, failed: seq<Folder>) {
    && (forall f :: f in loaded ==> ShouldLoad(folders, f) && f in folders)
    && (forall f :: f in failed ==> f.throws)
    && ParentsFirst(loaded)
  }

  /** The rows of the input, each in exactly one of the three lists. */
  ghost predicate Partition(folders: seq<Folder>, loaded: seq<Folder>, failed: seq<Folder>, rest: seq<Folder>) {
    multiset(folders) == multiset(loaded) + multiset(failed) + multiset(rest)
  }

  predicate Stuck(rows: seq<Folder>, loaded: seq<Folder>) {
    forall f :: f in rows ==> !ParentResolved(f, Ids(loaded))
  }

  lemma LoadingReaches(folders: seq<Folder>, f: Folder)
    requires f in folders && ShouldLoad(folders, f)
    ensures Reached(folders, f.externalId)
  {
    var i :| 0 <= i < |folders| && folders[i] == f;
    if f.parent == "" {
      assert LinksWithin(folders, i, f.externalId, 0);
      assert ReachedWithin(folders, f.externalId, 0);
    } else {
      var n: nat :| ReachedWithin(folders, f.parent, n);
      assert LinksWithin(folders, i, f.externalId, n + 1);
      assert ReachedWithin(folders, f.externalId, n + 1);
    }
  }

  /** A row whose turn has come and that does not fail keeps the state sound. */
  lemma LoadOne(folders: seq<Folder>, loaded: seq<Folder>, failed: seq<Folder>, f: Folder)
    requires Sound(folders, loaded, failed) && f in folders && !f.throws && ParentResolved(f, Ids(loaded))
    ensures Sound(folders, loaded + [f], failed)
  {
    if f.parent != "" {
      var p :| p in loaded && p.externalId == f.parent;
      LoadingReaches(folders, p);
    }
    forall k | 0 <= k < |loaded + [f]| && (loaded + [f])[k].parent != ""
      ensures (loaded + [f])[k].parent in Ids((loaded + [f])[..k])
    {
      assert (loaded + [f])[..k] == loaded[..k];
    }
  }

  /** The row whose turn it is may move to any of the three lists. */
  lemma Rearrange(folders: seq<Folder>, loaded: seq<Folder>, failed: seq<Folder>, next: seq<Folder>,
                  f: Folder, rest: seq<Folder>)
    requires Partition(folders, loaded, failed, next + ([f] + rest))
    ensures f in folders
    ensures Partition(folders, loaded, failed, (next + [f]) + rest)
    ensures Partition(folders, loaded + [f], failed, next + rest)
    ensures Partition(folders, loaded, failed + [f], next + rest)
  {
    assert next + ([f] + rest) == (next + [f]) + rest;
    assert f in multiset(folders);
  }

  /** When no remaining row has its parent loaded, everything that should be loaded is. */
  lemma {:induction false} StuckMeansComplete(folders: seq<Folder>, loaded: seq<Folder>, failed: seq<Folder>,
                                              remaining: seq<Folder>, id: string, n: nat)
    requires Partition(folders, loaded, failed, remaining) && Sound(folders, loaded, failed)
    requires Stuck(remaining, loaded)
    requires ReachedWithin(folders, id, n)
    ensures id in Ids(loaded)
    decreases n
  {
    var i :| 0 <= i < |folders| && LinksWithin(folders, i, id, n);
    var f := folders[i];
    assert f in multiset(folders);
    if f.parent != "" {
      StuckMeansComplete(folders, loaded, failed, remaining, f.parent, n - 1);
    }
    assert f !in remaining && f !in failed;
    assert f in multiset(loaded);
  }

  /** The body of the inner loop: one row is kept for the next pass, persisted, or reported. */
  method Visit(folders: seq<Folder>, next0: seq<Folder>, loaded0: seq<Folder>, failed0: seq<Folder>,
               f: Folder, ghost rest: seq<Folder>)
    returns (next: seq<Folder>, loaded: seq<Folder>, failed: seq<Folder>)
    requires Sound(folders, loaded0, failed0) && Partition(folders, loaded0, failed0, next0 + ([f] + rest))
    ensures Sound(folders, loaded, failed) && Partition(folders, loaded, failed, next + rest)
    ensures !ParentResolved(f, Ids(loaded0)) ==> next == next0 + [f] && loaded == loaded0 && failed == failed0
    ensures ParentResolved(f, Ids(loaded0)) && f.throws ==>
              next == next0 && loaded == loaded0 && failed == failed0 + [f]
    ensures ParentResolved(f, Ids(loaded0)) && !f.throws ==>
              next == next0 && loaded == loaded0 + [f] && failed == failed0
  {
    Rearrange(folders, loaded0, failed0, next0, f, rest);
    next, loaded, failed := next0, loaded0, failed0;
    if !ParentResolved(f, Ids(loaded)) {
      next := next + [f];
    } else if f.throws {
      failed := failed + [f];
    } else {
      LoadOne(folders, loaded, failed, f);
      loaded := loaded + [f];
    }
  }

  /** One pass over the remaining rows. */
  method Pass(folders: seq<Folder>, remaining: seq<Folder>, loaded0: seq<Folder>, failed0: seq<Folder>)
    returns (next: seq<Folder>, loaded: seq<Folder>, failed: seq<Folder>)
    requires Sound(folders, loaded0, failed0) && Partition(folders, loaded0, failed0, remaining)
    ensures Sound(folders, loaded, failed) && Partition(folders, loaded, failed, next)
    ensures |next| <= |remaining|
    ensures |next| == |remaining| ==> Stuck(next, loaded)
  {
    next, loaded, failed := [], loaded0, failed0;
    ghost var rest := remaining;
    assert next + rest == remaining;
    for i := 0 to |remaining|
      invariant rest == remaining[i..]
      invariant Sound(folders, loaded, failed)
      invariant Partition(folders, loaded, failed, next + rest)
      invariant |next| <= i
      invariant |next| == i ==> Stuck(next, loaded)
    {
      ghost var later := remaining[i + 1..];
      assert rest == [remaining[i]] + later;
      next, loaded, failed := Visit(folders, next, loaded, failed, remaining[i], later);
      rest := later;
    }
    assert next + rest == next;
  }

  /** The folder phase of `run`: `loaded` lists the persisted rows in order, `errors` the rows of
      `rowErrors`, and `passes` counts the rounds of the outer loop. */
  method LoadFolders(folders: seq<Folder>) returns (loaded: seq<Folder>, errors: seq<Folder>, passes: nat)
    // every row is either loaded or gets exactly one error
    ensures multiset(folders) == multiset(loaded) + multiset(errors)
    ensures |loaded| + |errors| == |folders|
    // exactly the rows whose parent chain reaches a root without a failing row are loaded
    ensures forall f :: f in loaded ==> ShouldLoad(folders, f)
    ensures forall f :: f in errors ==> !ShouldLoad(folders, f)
    // a child never comes before a row for its parent
    ensures ParentsFirst(loaded)
    ensures passes <= |folders| && (passes == 0 <==> folders == [])
  {
    var remaining, failed: seq<Folder> := folders, [];
    var lastSize := -1;
    loaded, passes := [], 0;
    while |remaining| > 0 && |remaining| != lastSize
      invariant Sound(folders, loaded, failed)
      invariant Partition(folders, loaded, failed, remaining)
      invariant |remaining| <= |folders|
      invariant lastSize == -1 || (lastSize > 0 && |remaining| <= lastSize)
      invariant |remaining| == lastSize ==> Stuck(remaining, loaded)
      invariant if passes == 0 then remaining == folders && lastSize == -1 else folders != []
      invariant passes + |remaining| <= |folders| + if |remaining| == lastSize then 1 else 0
      decreases |remaining|, if |remaining| == lastSize then 0 else 1
    {
      lastSize := |remaining|;
      remaining, loaded, failed := Pass(folders, remaining, loaded, failed);
      passes := passes + 1;
    }
    errors := failed + remaining;
    forall f | f in errors
      ensures !ShouldLoad(folders, f)
    {
      if f in remaining && f.parent != "" && Reached(folders, f.parent) {
        var n: nat :| ReachedWithin(folders, f.parent, n);
        StuckMeansComplete(folders, loaded, failed, remaining, f.parent, n);
        assert false;
      }
    }
    MultisetSizes(folders, loaded, errors);
  }

  lemma MultisetSizes(a: seq<Folder>, b: seq<Folder>, c: seq<Folder>)
    ensures multiset(a) == multiset(b) + multiset(c) ==> |a| == |b| + |c|
  {
    assert |multiset(a)| == |a| && |multiset(b)| == |b| && |multiset(c)| == |c|;
  }

  // ---------------------------------------------------------------- rows that are never loaded

  /** A set of ids whose rows all have their parent in the set, such as a cycle of parents and
      everything below it, is never reached; an id with no row at all is a case of it. */
  lemma {:induction false} CycleIsNeverReached(folders: seq<Folder>, cycle: set<string>, id: string, n: nat)
    requires forall f :: f in folders && f.externalId in cycle ==> f.parent != "" && f.parent in cycle
    requires ReachedWithin(folders, id, n)
    ensures id !in cycle
    decreases n
  {
    var i :| 0 <= i < |folders| && LinksWithin(folders, i, id, n);
    assert folders[i] in folders;
    if folders[i].parent != "" {
      CycleIsNeverReached(folders, cycle, folders[i].parent, n - 1);
    }
  }
}
