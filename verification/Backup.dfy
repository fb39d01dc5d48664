/** `stageStorageToDir` of apps/worker/src/backup.ts: copies every stored file, page by page. */
module Backup {
  import opened Optional
  import opened Numbers
  import opened Text
  import opened LocalStorage
  import opened KeyOrder

  const PAGE := 1000

  /** The test before each copy: absolute, or two dots anywhere in the key. */
  predicate Unsafe(key: string) {
    "/" <= key || exists i :: 0 <= i < |key| - 1 && key[i] == '.' && key[i + 1] == '.'
  }

  /** What `startsWith('/')` and `includes('..')` mean. */
  ghost predicate HoldsTwoDots(key: string) {
    exists a, b :: key == a + ".." + b
  }

  lemma UnsafeIff(key: string)
    ensures Unsafe(key) <==> (key != "" && key[0] == '/') || HoldsTwoDots(key)
  {
    if HoldsTwoDots(key) {
      var a, b :| key == a + ".." + b;
      assert key[|a|] == '.' && key[|a| + 1] == '.';
    }
    if i :| 0 <= i < |key| - 1 && key[i] == '.' && key[i + 1] == '.' {
      assert key == key[..i] + ".." + key[i + 2..];
    }
  }

  predicate IsSeparator(c: char) {
    c == '/' || c == '\\'
  }

  /** A part of `key.split(/[\\/]+/)` that is "..", at position i. */
  predicate ParentSegmentFrom(key: string, i: nat)
    requires i < |key| - 1
  {
    && key[i] == '.' && key[i + 1] == '.'
    && (i == 0 || IsSeparator(key[i - 1])) && (i + 2 == |key| || IsSeparator(key[i + 2]))
  }

  predicate HasParentSegment(key: string) {
    exists i: nat :: i < |key| - 1 && ParentSegmentFrom(key, i)
  }

  /** The keys that `validateKey` (apps/worker/src/storage.ts) lets into the storage. */
  predicate Storable(key: string) {
    key != "" && !IsSeparator(key[0]) && !HasParentSegment(key)
  }

  /** ".." between two ends or separators. */
  ghost predicate IsParentSegment(before: string, after: string) {
    && (before == "" || before[|before| - 1] in {'/', '\\'})
    && (after == "" || after[0] in {'/', '\\'})
  }

  ghost predicate HoldsParentSegment(key: string) {
    exists a, b :: key == a + ".." + b && IsParentSegment(a, b)
  }

  lemma ParentSegmentAt(key: string, a: string, b: string)
    requires key == a + ".." + b && IsParentSegment(a, b)
    ensures HasParentSegment(key)
  {
    var i := |a|;
    assert key[i] == '.' && key[i + 1] == '.';
    assert i > 0 ==> key[i - 1] == a[i - 1];
    assert b != "" ==> key[i + 2] == b[0];
    assert ParentSegmentFrom(key, i);
  }

  lemma HasParentSegmentIff(key: string)
    ensures HasParentSegment(key) <==> HoldsParentSegment(key)
  {
    if a, b :| key == a + ".." + b && IsParentSegment(a, b) {
      ParentSegmentAt(key, a, b);
    }
    if HasParentSegment(key) {
      var i: nat :| i < |key| - 1 && ParentSegmentFrom(key, i);
      assert key == key[..i] + ".." + key[i + 2..] && IsParentSegment(key[..i], key[i + 2..]);
    }
  }

  /** What the storage accepts: neither empty nor absolute, and no ".." segment. */
  lemma StorableIff(key: string)
    ensures Storable(key) <==> key != "" && key[0] !in {'/', '\\'} && !HoldsParentSegment(key)
  {
    HasParentSegmentIff(key);
  }

  /** The backup refuses every key that validateKey refuses for its segments ... */
  lemma ParentSegmentIsUnsafe(key: string)
    requires HasParentSegment(key)
    ensures Unsafe(key)
  {
    var i: nat :| i < |key| - 1 && ParentSegmentFrom(key, i);
    assert key[i] == '.' && key[i + 1] == '.';
  }

  /** ... and also keys that validateKey accepts: one such file makes every backup fail. */
  lemma StorableKeyCanBeRefused(a: char, b: char)
    requires a != '.' && b != '.' && !IsSeparator(a) && !IsSeparator(b)
    ensures Storable([a, '.', '.', b]) && Unsafe([a, '.', '.', b])
  {
    var k := [a, '.', '.', b];
    assert k[0] == a && k[1] == '.' && k[2] == '.' && k[3] == b;
    forall i | 0 <= i < 3
      ensures !(k[i] == '.' && k[i + 1] == '.' && (i == 0 || IsSeparator(k[i - 1])))
    {
      if i == 1 {
        assert k[i - 1] == a;
      }
    }
  }

  // ---------------------------------------------------------------- what paging yields

  function After(keys: seq<string>, cursor: string): seq<string> {
    Filter(keys, "", cursor)
  }

  lemma {:induction false} AfterShrinks(keys: seq<string>, c: string, c': string)
    requires c == "" || Less(c, c')
    requires c' != ""
    ensures |After(keys, c')| <= |After(keys, c)|
    ensures c' in keys ==> |After(keys, c')| < |After(keys, c)|
  {
    if keys != [] {
      AfterShrinks(keys[1..], c, c');
      if c != "" && Less(c', keys[0]) {
        LessIsTransitive(c, c', keys[0]);
      }
      LessIsIrreflexive(c');
    }
  }

  /** A full page from `cursor` leaves strictly less to list, whatever the order of the keys. */
  lemma NextPageIsSmaller(keys: seq<string>, limit: nat, cursor: string)
    requires "" !in keys && 1 <= limit <= |After(keys, cursor)|
    ensures |After(keys, After(keys, cursor)[limit - 1])| < |After(keys, cursor)|
  {
    var next := After(keys, cursor)[limit - 1];
    FilterMember(keys, "", cursor, next);
    AfterShrinks(keys, cursor, next);
  }

  /** All keys that following the cursor reaches, in the order of the pages. */
  ghost function Paged(keys: seq<string>, limit: nat, cursor: string): seq<string>
    requires "" !in keys && 1 <= limit
    decreases |After(keys, cursor)|
  {
    if |After(keys, cursor)| < limit then After(keys, cursor)
    else
      NextPageIsSmaller(keys, limit, cursor);
      After(keys, cursor)[..limit] + Paged(keys, limit, After(keys, cursor)[limit - 1])
  }

  /** The last key before position j separates the listing: nothing before it is greater, and
      everything from j on is. */
  predicate Pivot(keys: seq<string>, j: nat)
    requires 0 < j <= |keys|
  {
    && (forall i :: 0 <= i < j - 1 ==> !Less(keys[j - 1], keys[i]))
    && (forall i :: j <= i < |keys| ==> Less(keys[j - 1], keys[i]))
  }

  /** Every page boundary after position `from` is a pivot. */
  predicate PivotsFrom(keys: seq<string>, limit: nat, from: nat)
    requires 1 <= limit && from <= |keys|
    decreases |keys| - from
  {
    from + limit <= |keys| ==> Pivot(keys, from + limit) && PivotsFrom(keys, limit, from + limit)
  }

  lemma {:induction false} AfterKeepsAll(keys: seq<string>, cursor: string)
    requires forall i :: 0 <= i < |keys| ==> cursor == "" || Less(cursor, keys[i])
    ensures After(keys, cursor) == keys
  {
    if keys != [] {
      AfterKeepsAll(keys[1..], cursor);
    }
  }

  lemma {:induction false} AfterDropsAll(keys: seq<string>, cursor: string)
    requires cursor != "" && forall i :: 0 <= i < |keys| ==> !Less(cursor, keys[i])
    ensures After(keys, cursor) == []
  {
    if keys != [] {
      AfterDropsAll(keys[1..], cursor);
    }
  }

  lemma AfterPivot(keys: seq<string>, j: nat)
    requires "" !in keys && 0 < j <= |keys| && Pivot(keys, j)
    ensures After(keys, keys[j - 1]) == keys[j..]
  {
    var c := keys[j - 1];
    assert keys == keys[..j] + keys[j..];
    FilterOfConcat(keys[..j], keys[j..], "", c);
    LessIsIrreflexive(c);
    AfterDropsAll(keys[..j], c);
    AfterKeepsAll(keys[j..], c);
  }

  lemma {:induction false} PagedIsListedAfter(keys: seq<string>, limit: nat, cursor: string)
    requires "" !in keys && 1 <= limit
    ensures forall k :: k in Paged(keys, limit, cursor) ==> k in After(keys, cursor)
    ensures After(keys, cursor) != [] ==>
              Paged(keys, limit, cursor) != [] && Paged(keys, limit, cursor)[0] == After(keys, cursor)[0]
    decreases |After(keys, cursor)|
  {
    var after := After(keys, cursor);
    if |after| >= limit {
      NextPageIsSmaller(keys, limit, cursor);
      var next := after[limit - 1];
      PagedIsListedAfter(keys, limit, next);
      FilterMember(keys, "", cursor, next);
      forall k | k in Paged(keys, limit, next)
        ensures k in after
      {
        FilterMember(keys, "", cursor, k);
        FilterMember(keys, "", next, k);
        if cursor != "" {
          LessIsTransitive(cursor, next, k);
        }
      }
    }
  }

  /** The listing after a cursor starts with what the first j keys contribute, if anything. */
  lemma FirstIsEarlier(keys: seq<string>, j: nat, c: string)
    requires j <= |keys| && After(keys[..j], c) != []
    ensures After(keys, c) != [] && After(keys, c)[0] in keys[..j]
  {
    assert keys == keys[..j] + keys[j..];
    FilterOfConcat(keys[..j], keys[j..], "", c);
    FilterMember(keys[..j], "", c, After(keys[..j], c)[0]);
  }

  /** If paging on from position j yields what lies there, position j is a pivot. */
  lemma PivotFromPaged(keys: seq<string>, limit: nat, j: nat)
    requires "" !in keys && Distinct(keys) && 1 <= limit && 0 < j <= |keys|
    requires Paged(keys, limit, keys[j - 1]) == keys[j..]
    ensures Pivot(keys, j)
  {
    var c := keys[j - 1];
    PagedIsListedAfter(keys, limit, c);
    forall i | j <= i < |keys|
      ensures Less(c, keys[i])
    {
      assert keys[j..][i - j] in Paged(keys, limit, c);
      FilterMember(keys, "", c, keys[i]);
    }
    forall i | 0 <= i < j - 1
      ensures !Less(c, keys[i])
    {
      assert keys[..j][i] in keys[..j];
      FilterMember(keys[..j], "", c, keys[i]);
      if After(keys[..j], c) != [] {
        // the next page would start with a key of an earlier position
        FirstIsEarlier(keys, j, c);
        assert false;
      }
    }
  }

  lemma PagedStep(keys: seq<string>, limit: nat, from: nat, cursor: string)
    requires "" !in keys && 1 <= limit && from + limit <= |keys|
    requires After(keys, cursor) == keys[from..]
    ensures Paged(keys, limit, cursor) == keys[from..from + limit] + Paged(keys, limit, keys[from + limit - 1])
  {
    assert keys[from..][limit - 1] == keys[from + limit - 1];
    assert keys[from..][..limit] == keys[from..from + limit];
  }

  lemma SameAfterPrefix(a: seq<string>, b: seq<string>, c: seq<string>)
    ensures a + b == a + c <==> b == c
  {
    if a + b == a + c {
      assert b == (a + b)[|a|..] && c == (a + c)[|a|..];
    }
  }

  lemma NextPivot(keys: seq<string>, limit: nat, from: nat)
    requires "" !in keys && 1 <= limit && from + limit <= |keys| && PivotsFrom(keys, limit, from)
    ensures After(keys, keys[from + limit - 1]) == keys[from + limit..]
    ensures PivotsFrom(keys, limit, from + limit)
  {
    AfterPivot(keys, from + limit);
  }

  lemma {:induction false} PagedFromPivots(keys: seq<string>, limit: nat, from: nat, cursor: string)
    requires "" !in keys && 1 <= limit && from <= |keys|
    requires After(keys, cursor) == keys[from..] && PivotsFrom(keys, limit, from)
    ensures Paged(keys, limit, cursor) == keys[from..]
    decreases |keys| - from
  {
    if from + limit <= |keys| {
      var j := from + limit;
      PagedStep(keys, limit, from, cursor);
      NextPivot(keys, limit, from);
      PagedFromPivots(keys, limit, j, keys[j - 1]);
      assert keys[from..] == keys[from..j] + keys[j..];
    }
  }

  lemma NextFromPaged(keys: seq<string>, limit: nat, from: nat, cursor: string)
    requires "" !in keys && Distinct(keys) && 1 <= limit && from + limit <= |keys|
    requires After(keys, cursor) == keys[from..] && Paged(keys, limit, cursor) == keys[from..]
    ensures Pivot(keys, from + limit)
    ensures After(keys, keys[from + limit - 1]) == keys[from + limit..]
    ensures Paged(keys, limit, keys[from + limit - 1]) == keys[from + limit..]
  {
    var j := from + limit;
    PagedStep(keys, limit, from, cursor);
    assert keys[from..] == keys[from..j] + keys[j..];
    SameAfterPrefix(keys[from..j], Paged(keys, limit, keys[j - 1]), keys[j..]);
    PivotFromPaged(keys, limit, j);
    AfterPivot(keys, j);
  }

  lemma {:induction false} PivotsFromPaged(keys: seq<string>, limit: nat, from: nat, cursor: string)
    requires "" !in keys && Distinct(keys) && 1 <= limit && from <= |keys|
    requires After(keys, cursor) == keys[from..] && Paged(keys, limit, cursor) == keys[from..]
    ensures PivotsFrom(keys, limit, from)
    decreases |keys| - from
  {
    if from + limit <= |keys| {
      var j := from + limit;
      NextFromPaged(keys, limit, from, cursor);
      PivotsFromPaged(keys, limit, j, keys[j - 1]);
    }
  }

  /** From a pivot on (or from the start), paging yields the rest of the listing exactly when all
      further page boundaries are pivots. */
  lemma PagedFromIff(keys: seq<string>, limit: nat, from: nat, cursor: string)
    requires "" !in keys && Distinct(keys) && 1 <= limit && from <= |keys|
    requires After(keys, cursor) == keys[from..]
    ensures Paged(keys, limit, cursor) == keys[from..] <==> PivotsFrom(keys, limit, from)
  {
    if PivotsFrom(keys, limit, from) {
      PagedFromPivots(keys, limit, from, cursor);
    }
    if Paged(keys, limit, cursor) == keys[from..] {
      PivotsFromPaged(keys, limit, from, cursor);
    }
  }

  lemma {:induction false} IncreasingHasPivots(keys: seq<string>, limit: nat, from: nat)
    requires Increasing(keys) && 1 <= limit && from <= |keys|
    ensures PivotsFrom(keys, limit, from)
    decreases |keys| - from
  {
    if from + limit <= |keys| {
      var j := from + limit;
      forall i | 0 <= i < j - 1
        ensures !Less(keys[j - 1], keys[i])
      {
        if Less(keys[j - 1], keys[i]) {
          LessIsTransitive(keys[j - 1], keys[i], keys[j - 1]);
          LessIsIrreflexive(keys[j - 1]);
        }
      }
      IncreasingHasPivots(keys, limit, j);
    }
  }

  lemma {:induction false} SinglePivotsMeanIncreasing(keys: seq<string>, from: nat)
    requires from <= |keys| && PivotsFrom(keys, 1, from)
    ensures forall i, j :: from <= i < j < |keys| ==> Less(keys[i], keys[j])
    decreases |keys| - from
  {
    if from < |keys| {
      SinglePivotsMeanIncreasing(keys, from + 1);
    }
  }

  // ---------------------------------------------------------------- the theorems

  /** Paging with this page size lists every file exactly once, in listing order. */
  ghost predicate PagingComplete(root: seq<Entry>, limit: nat)
    requires WellFormed(root) && 1 <= limit
  {
    KeysAreNonEmpty(root, "");
    Paged(Keys(root, ""), limit, "") == Keys(root, "")
  }

  /** For every tree and page size: paging is complete if and only if every page boundary is a
      pivot. No key is then staged twice, since no key is listed twice. */
  lemma PagingIsCompleteIff(root: seq<Entry>, limit: nat)
    requires WellFormed(root) && 1 <= limit
    ensures PagingComplete(root, limit) <==> PivotsFrom(Keys(root, ""), limit, 0)
    ensures Distinct(Keys(root, ""))
  {
    var keys := Keys(root, "");
    KeysAreNonEmpty(root, "");
    KeysAreDistinct(root, "");
    AfterKeepsAll(keys, "");
    assert keys[0..] == keys;
    PagedFromIff(keys, limit, 0, "");
  }

  /** For every tree: paging is complete for all page sizes if and only if no directory with files
      is shadowed by a later sibling with files. The listing is then in strictly increasing order. */
  lemma PagingIsCompleteForAllSizesIff(root: seq<Entry>)
    requires WellFormed(root)
    ensures Unshadowed(root) <==> forall limit: nat | 1 <= limit :: PagingComplete(root, limit)
    ensures Unshadowed(root) <==> Increasing(Keys(root, ""))
  {
    var keys := Keys(root, "");
    IncreasingIffUnshadowed(root, "");
    if Unshadowed(root) {
      forall limit: nat | 1 <= limit
        ensures PagingComplete(root, limit)
      {
        PagingIsCompleteIff(root, limit);
        IncreasingHasPivots(keys, limit, 0);
      }
    }
    if PagingComplete(root, 1) {
      PagingIsCompleteIff(root, 1);
      SinglePivotsMeanIncreasing(keys, 0);
    }
  }

  // ---------------------------------------------------------------- files that a backup misses

  type UpToAPage = n: nat | n <= PAGE

  /** The i-th of a series of one-character names in increasing order. */
  function Name(i: UpToAPage): string {
    [(1000 + i) as char]
  }

  ghost function Files(n: UpToAPage): seq<Entry> {
    seq(n, i requires 0 <= i < n => File(Name(i)))
  }

  /** A directory "a" with n files beside the file "a.txt". */
  ghost function ShadowedTree(n: UpToAPage): seq<Entry> {
    [Dir("a", Files(n)), File("a.txt")]
  }

  lemma {:induction false} KeysOfFiles(entries: seq<Entry>, path: string)
    requires forall i :: 0 <= i < |entries| ==> entries[i].File?
    ensures |Keys(entries, path)| == |entries|
    ensures forall i :: 0 <= i < |entries| ==> Keys(entries, path)[i] == path + entries[i].name
  {
    if entries != [] {
      KeysOfFiles(entries[1..], path);
    }
  }

  lemma ShadowedTreeIsWellFormed(n: UpToAPage)
    ensures WellFormed(ShadowedTree(n))
  {
    var root := ShadowedTree(n);
    assert '/' !in "a" && '/' !in "a.txt";
    assert Less("a", "a.txt") by { assert "a.txt"[1..] == ".txt" && "a"[1..] == ""; }
    assert WellFormed(Files(n));
  }

  lemma ShadowedTreeKeys(n: UpToAPage) returns (keys: seq<string>)
    ensures keys == Keys(ShadowedTree(n), "") && |keys| == n + 1 && keys[n] == "a.txt"
    ensures forall i :: 0 <= i < n ==> keys[i] == "a/" + Name(i)
  {
    var root := ShadowedTree(n);
    keys := Keys(root, "");
    KeysOfFiles(Files(n), "a/");
    KeysOfFiles(root[1..], "");
    assert "" + "a" + "/" == "a/" && "" + "a.txt" == "a.txt";
    assert KeysOf(root[0], "") == Keys(Files(n), "" + "a" + "/");
    assert keys == Keys(Files(n), "a/") + Keys(root[1..], "");
  }

  /** With as many files in "a" as a page holds, paging ends normally after the first page and
      "a.txt" is not in it; the page size of the backup is one instance. */
  lemma PagingCanMissAFile(n: UpToAPage)
    requires 1 <= n
    ensures WellFormed(ShadowedTree(n)) && "a.txt" in Keys(ShadowedTree(n), "")
    ensures "" !in Keys(ShadowedTree(n), "") && "a.txt" !in Paged(Keys(ShadowedTree(n), ""), n, "")
  {
    ShadowedTreeIsWellFormed(n);
    var keys := ShadowedTreeKeys(n);
    KeysAreNonEmpty(ShadowedTree(n), "");
    AfterKeepsAll(keys, "");
    var last := keys[n - 1];
    forall i | 0 <= i < |keys|
      ensures !Less(last, keys[i])
    {
      if i < n {
        LessUnderPrefix("a/", Name(n - 1), Name(i));
      } else {
        assert last[0] == 'a' && last[1] == '/' && "a.txt"[1..] == ".txt";
      }
    }
    AfterDropsAll(keys, last);
    assert Paged(keys, n, "") == keys[..n] + Paged(keys, n, last);
    assert forall i :: 0 <= i < n ==> keys[i][1] == '/';
  }

  // ---------------------------------------------------------------- the code

  /** One round of the paging loop. */
  lemma PagedRound(keys: seq<string>, cursor: string)
    requires "" !in keys
    ensures var page := Page(keys, "", cursor, PAGE);
            match NextCursor(page, PAGE)
            case None => Paged(keys, PAGE, cursor) == page
            case Some(next) =>
              && next != ""
              && |After(keys, next)| < |After(keys, cursor)|
              && Paged(keys, PAGE, cursor) == page + Paged(keys, PAGE, next)
  {
    if |After(keys, cursor)| >= PAGE {
      NextPageIsSmaller(keys, PAGE, cursor);
      FilterMember(keys, "", cursor, After(keys, cursor)[PAGE - 1]);
    }
  }

  ghost predicate NoneUnsafe(keys: seq<string>) {
    forall k :: k in keys ==> !Unsafe(k)
  }

  /** No key begins with a slash or has two dots in a row. */
  ghost predicate AllCopyable(keys: seq<string>) {
    forall k :: k in keys ==> !(k != "" && k[0] == '/') && !HoldsTwoDots(k)
  }

  lemma CopyableIffNoneUnsafe(keys: seq<string>)
    ensures NoneUnsafe(keys) <==> AllCopyable(keys)
  {
    forall k | k in keys
      ensures Unsafe(k) <==> (k != "" && k[0] == '/') || HoldsTwoDots(k)
    {
      UnsafeIff(k);
    }
  }

  /** `staged` is all of `planned`, or stops right before its first unsafe key, which is refused. */
  ghost predicate StagedFrom(planned: seq<string>, staged: seq<string>, refused: Option<string>) {
    && NoneUnsafe(staged)
    && match refused
       case None => staged == planned
       case Some(key) => Unsafe(key) && staged + [key] <= planned
  }

  lemma StagingVerdict(root: seq<Entry>, staged: seq<string>, refused: Option<string>)
    requires WellFormed(root) && "" !in Keys(root, "")
    requires StagedFrom(Paged(Keys(root, ""), PAGE, ""), staged, refused)
    ensures refused.None? && staged == Keys(root, "") <==>
              PivotsFrom(Keys(root, ""), PAGE, 0) && AllCopyable(Keys(root, ""))
    ensures refused.None? <==> AllCopyable(Paged(Keys(root, ""), PAGE, ""))
  {
    PagingIsCompleteIff(root, PAGE);
    CopyableIffNoneUnsafe(Keys(root, ""));
    CopyableIffNoneUnsafe(Paged(Keys(root, ""), PAGE, ""));
    if refused.Some? {
      assert (staged + [refused.value])[|staged|] == Paged(Keys(root, ""), PAGE, "")[|staged|];
    }
  }

  /** Appends the keys of a page to what is staged, up to the first unsafe one. */
  method StagePage(before: seq<string>, page: seq<string>) returns (staged: seq<string>, refused: Option<string>)
    requires NoneUnsafe(before)
    ensures StagedFrom(before + page, staged, refused)
  {
    staged := before;
    for i := 0 to |page|
      invariant staged == before + page[..i]
      invariant NoneUnsafe(staged)
    {
      if Unsafe(page[i]) {
        return staged, Some(page[i]);
      }
      staged := staged + [page[i]];
    }
    refused := None;
  }

  /** `stageStorageToDir` over a LocalStorage. Returns the keys copied, in order, and the key the
      copy was refused for, if any. It terminates for every tree. */
  method StageStorageToDir(root: seq<Entry>) returns (staged: seq<string>, refused: Option<string>)
    requires WellFormed(root)
    ensures "" !in Keys(root, "")
    ensures StagedFrom(Paged(Keys(root, ""), PAGE, ""), staged, refused)
    // it is refused exactly for a leading slash or two dots in a row in some key that the paging yields
    ensures refused.None? <==> AllCopyable(Paged(Keys(root, ""), PAGE, ""))
    // exactly when the backup holds every file once, in listing order
    ensures refused.None? && staged == Keys(root, "") <==>
              PivotsFrom(Keys(root, ""), PAGE, 0) && AllCopyable(Keys(root, ""))
  {
    ghost var keys := Keys(root, "");
    KeysAreNonEmpty(root, "");
    ghost var all := Paged(keys, PAGE, "");
    var cursor := "";
    staged := [];
    while true
      invariant staged + Paged(keys, PAGE, cursor) == all
      invariant NoneUnsafe(staged)
      decreases |After(keys, cursor)|
    {
      var page, next := List(root, "", PAGE, cursor);
      PagedRound(keys, cursor);
      ghost var planned := staged + page;
      ghost var rest := if next.Some? then Paged(keys, PAGE, next.value) else [];
      assert planned + rest == all;
      staged, refused := StagePage(staged, page);
      if refused.Some? || next.None? || next.value == "" {
        assert StagedFrom(all, staged, refused);
        StagingVerdict(root, staged, refused);
        return;
      }
      cursor := next.value;
    }
  }
}
