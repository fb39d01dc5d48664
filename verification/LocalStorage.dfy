/** `LocalStorage.list` of apps/worker/src/storage.ts: a depth-first walk over the files below the
    storage root with a limit and a cursor. String order is code-unit order throughout, also for
    the per-directory sort. */
module LocalStorage {
  import opened Optional
  import opened Numbers
  import opened Text

  /** A directory entry; the entries of a directory are listed as `entries.sort` leaves them. */
  datatype Entry =
    | File(name: string)
    | Dir(name: string, entries: seq<Entry>)
    | Other(name: string) // neither file nor directory: skipped by the walk

  /** Names are non-empty, contain no separator, and are sorted and distinct per directory. */
  ghost predicate WellFormed(entries: seq<Entry>)
    decreases entries
  {
    && (forall i :: 0 <= i < |entries| ==> entries[i].name != "" && '/' !in entries[i].name)
    && (forall i, j :: 0 <= i < j < |entries| ==> Less(entries[i].name, entries[j].name))
    && (forall i :: 0 <= i < |entries| && entries[i].Dir? ==> WellFormed(entries[i].entries))
  }

  /** The keys below one entry, depth first; `path` is empty or ends in a separator. */
  function KeysOf(e: Entry, path: string): seq<string>
    decreases e, 0
  {
    match e
    case File(name) => [path + name]
    case Dir(name, entries) => Keys(entries, path + name + "/")
    case Other(_) => []
  }

  function Keys(entries: seq<Entry>, path: string): seq<string>
    decreases entries, 1
  {
    if entries == [] then [] else KeysOf(entries[0], path) + Keys(entries[1..], path)
  }

  /** A path of directories that leads to a file. */
  ghost predicate IsFile(entries: seq<Entry>, path: string)
    decreases entries
  {
    exists i :: 0 <= i < |entries| && (entries[i] == File(path) || LeadsToFile(entries[i], path))
  }

  ghost predicate LeadsToFile(e: Entry, path: string)
    decreases e
  {
    e.Dir? && e.name + "/" <= path && IsFile(e.entries, path[|e.name| + 1..])
  }

  lemma {:induction false} KeyOfEntryIff(e: Entry, path: string, key: string)
    ensures key in KeysOf(e, path) <==> path <= key && (e == File(key[|path|..]) || LeadsToFile(e, key[|path|..]))
    decreases e, 0
  {
    match e
    case File(name) =>
      assert key == path + name ==> key[|path|..] == name;
    case Other(_) =>
    case Dir(name, entries) =>
      var below := path + name + "/";
      KeyIff(entries, below, key);
      if path <= key {
        assert key == path + key[|path|..];
        assert below <= key <==> name + "/" <= key[|path|..] by {
          assert below == path + (name + "/");
          if below <= key {
            assert key[|path|..][..|name| + 1] == key[..|below|][|path|..] == name + "/";
          }
          if name + "/" <= key[|path|..] {
            assert key[..|below|] == path + key[|path|..][..|name| + 1];
          }
        }
        assert below <= key ==> key[|below|..] == key[|path|..][|name| + 1..];
      }
  }

  /** The listing holds the path of every file, and nothing else. */
  lemma {:induction false} KeyIff(entries: seq<Entry>, path: string, key: string)
    ensures key in Keys(entries, path) <==> path <= key && IsFile(entries, key[|path|..])
    decreases entries, 1
  {
    if entries != [] {
      KeyOfEntryIff(entries[0], path, key);
      KeyIff(entries[1..], path, key);
      if path <= key {
        IsFileCons(entries, key[|path|..]);
      }
    }
  }

  lemma IsFileCons(entries: seq<Entry>, path: string)
    requires entries != []
    ensures IsFile(entries, path) <==>
              entries[0] == File(path) || LeadsToFile(entries[0], path) || IsFile(entries[1..], path)
  {
    assert forall i :: 0 < i < |entries| ==> entries[1..][i - 1] == entries[i];
  }

  // ---------------------------------------------------------------- one page

  /** The two `continue` tests: prefix, and the cursor of the previous page ("" if there is none). */
  predicate Matches(key: string, prefix: string, cursor: string) {
    prefix <= key && (cursor == "" || Less(cursor, key))
  }

  function Filter(keys: seq<string>, prefix: string, cursor: string): seq<string> {
    if keys == [] then []
    else (if Matches(keys[0], prefix, cursor) then [keys[0]] else []) + Filter(keys[1..], prefix, cursor)
  }

  lemma {:induction false} FilterMember(keys: seq<string>, prefix: string, cursor: string, key: string)
    ensures key in Filter(keys, prefix, cursor) <==> key in keys && Matches(key, prefix, cursor)
  {
    if keys != [] {
      FilterMember(keys[1..], prefix, cursor, key);
    }
  }

  function Take(keys: seq<string>, n: int): seq<string> {
    if n <= 0 then [] else if n < |keys| then keys[..n] else keys
  }

  /** The simple form of a page: the first `limit` matching keys of the whole listing. */
  function Page(keys: seq<string>, prefix: string, cursor: string, limit: int): seq<string> {
    Take(Filter(keys, prefix, cursor), limit)
  }

  function NextCursor(page: seq<string>, limit: int): Option<string> {
    if |page| == limit && page != [] then Some(page[|page| - 1]) else None
  }

  lemma FilterCons(key: string, rest: seq<string>, prefix: string, cursor: string)
    ensures Filter([key] + rest, prefix, cursor)
         == (if Matches(key, prefix, cursor) then [key] else []) + Filter(rest, prefix, cursor)
  {
    assert ([key] + rest)[1..] == rest;
  }

  lemma {:induction false} FilterOfConcat(a: seq<string>, b: seq<string>, prefix: string, cursor: string)
    ensures Filter(a + b, prefix, cursor) == Filter(a, prefix, cursor) + Filter(b, prefix, cursor)
  {
    if a == [] {
      assert a + b == b;
    } else {
      var first, rest := a[0], a[1..];
      FilterOfConcat(rest, b, prefix, cursor);
      FilterCons(first, rest, prefix, cursor);
      FilterCons(first, rest + b, prefix, cursor);
      assert a == [first] + rest && a + b == [first] + (rest + b);
    }
  }

  /** The key begins with the prefix and comes after the cursor. */
  ghost predicate Wanted(key: string, prefix: string, cursor: string) {
    (exists rest :: key == prefix + rest) && (cursor == "" || Less(cursor, key))
  }

  lemma MatchesIff(key: string, prefix: string, cursor: string)
    ensures Matches(key, prefix, cursor) <==> Wanted(key, prefix, cursor)
  {
    if prefix <= key {
      assert key == prefix + key[|prefix|..];
    }
  }

  ghost predicate Ascending(at: seq<nat>) {
    forall i, j :: 0 <= i < j < |at| ==> at[i] < at[j]
  }

  /** The places of exactly the wanted keys, in order. */
  ghost predicate ArePlaces(at: seq<nat>, keys: seq<string>, prefix: string, cursor: string) {
    && Ascending(at)
    && (forall i :: 0 <= i < |at| ==> at[i] < |keys|)
    && (forall k: nat | k < |keys| :: k in at <==> Wanted(keys[k], prefix, cursor))
  }

  lemma PlacesSnoc(at: seq<nat>, keys: seq<string>, key: string, prefix: string, cursor: string)
    requires ArePlaces(at, keys, prefix, cursor)
    ensures ArePlaces(if Wanted(key, prefix, cursor) then at + [|keys|] else at, keys + [key], prefix, cursor)
  {
    assert |keys| !in at;
  }

  ghost predicate StandAt(filtered: seq<string>, at: seq<nat>, keys: seq<string>) {
    |filtered| == |at| && forall i :: 0 <= i < |at| ==> at[i] < |keys| && filtered[i] == keys[at[i]]
  }

  lemma StandAtSnoc(filtered: seq<string>, at: seq<nat>, keys: seq<string>, key: string)
    requires StandAt(filtered, at, keys)
    ensures StandAt(filtered, at, keys + [key]) && StandAt(filtered + [key], at + [|keys|], keys + [key])
  {
  }

  lemma FilterSnoc(keys: seq<string>, key: string, prefix: string, cursor: string)
    ensures Filter(keys + [key], prefix, cursor)
         == if Wanted(key, prefix, cursor) then Filter(keys, prefix, cursor) + [key] else Filter(keys, prefix, cursor)
  {
    FilterOfConcat(keys, [key], prefix, cursor);
    FilterCons(key, [], prefix, cursor);
    MatchesIff(key, prefix, cursor);
    assert [key] + [] == [key];
  }

  /** The filtered keys are the wanted ones, each in its old order. */
  ghost predicate Keeps(filtered: seq<string>, at: seq<nat>, keys: seq<string>, prefix: string, cursor: string) {
    ArePlaces(at, keys, prefix, cursor) && StandAt(filtered, at, keys)
  }

  lemma KeepsNone(prefix: string, cursor: string)
    ensures Keeps(Filter([], prefix, cursor), [], [], prefix, cursor)
  {
  }

  lemma KeepsSnoc(at: seq<nat>, keys: seq<string>, key: string, prefix: string, cursor: string) returns (at': seq<nat>)
    requires Keeps(Filter(keys, prefix, cursor), at, keys, prefix, cursor)
    ensures Keeps(Filter(keys + [key], prefix, cursor), at', keys + [key], prefix, cursor)
  {
    PlacesSnoc(at, keys, key, prefix, cursor);
    StandAtSnoc(Filter(keys, prefix, cursor), at, keys, key);
    FilterSnoc(keys, key, prefix, cursor);
    at' := if Wanted(key, prefix, cursor) then at + [|keys|] else at;
  }

  ghost predicate HasPlaces(keys: seq<string>, prefix: string, cursor: string) {
    exists at :: Keeps(Filter(keys, prefix, cursor), at, keys, prefix, cursor)
  }

  lemma HasPlacesSnoc(keys: seq<string>, key: string, prefix: string, cursor: string)
    requires HasPlaces(keys, prefix, cursor)
    ensures HasPlaces(keys + [key], prefix, cursor)
  {
    var at :| Keeps(Filter(keys, prefix, cursor), at, keys, prefix, cursor);
    var at' := KeepsSnoc(at, keys, key, prefix, cursor);
  }

  lemma {:induction false} FilterMeaning(keys: seq<string>, prefix: string, cursor: string, n: nat)
    requires n <= |keys|
    ensures HasPlaces(keys[..n], prefix, cursor)
  {
    if n == 0 {
      KeepsNone(prefix, cursor);
      assert keys[..0] == [];
    } else {
      FilterMeaning(keys, prefix, cursor, n - 1);
      HasPlacesSnoc(keys[..n - 1], keys[n - 1], prefix, cursor);
      assert keys[..n] == keys[..n - 1] + [keys[n - 1]];
    }
  }

  /** A page is what the filter leaves of the first n keys. */
  lemma {:induction false} FirstKeysFill(keys: seq<string>, prefix: string, cursor: string, limit: nat) returns (n: nat)
    ensures n <= |keys| && Page(keys, prefix, cursor, limit) == Filter(keys[..n], prefix, cursor)
    ensures |Page(keys, prefix, cursor, limit)| <= limit
    ensures n == |keys| || |Page(keys, prefix, cursor, limit)| == limit
  {
    n := |keys|;
    assert keys[..n] == keys;
    if |Filter(keys, prefix, cursor)| > limit {
      var last := keys[n - 1];
      assert keys == keys[..n - 1] + [last];
      FilterOfConcat(keys[..n - 1], [last], prefix, cursor);
      assert |Filter([last], prefix, cursor)| <= 1;
      n := FirstKeysFill(keys[..n - 1], prefix, cursor, limit);
      assert keys[..|keys| - 1][..n] == keys[..n];
    }
  }

  /** A page holds, in their order, exactly the wanted ones among the first n keys of the listing, and stops
      early only when it is full. */
  lemma PageMeaning(keys: seq<string>, prefix: string, cursor: string, limit: nat) returns (n: nat, at: seq<nat>)
    ensures n <= |keys| && Keeps(Page(keys, prefix, cursor, limit), at, keys[..n], prefix, cursor)
    ensures |Page(keys, prefix, cursor, limit)| <= limit
    ensures n == |keys| || |Page(keys, prefix, cursor, limit)| == limit
  {
    n := FirstKeysFill(keys, prefix, cursor, limit);
    FilterMeaning(keys, prefix, cursor, n);
    at :| Keeps(Filter(keys[..n], prefix, cursor), at, keys[..n], prefix, cursor);
  }

  /** The shared result list after walking past `keys`. */
  ghost function Fill(items: seq<string>, keys: seq<string>, prefix: string, cursor: string, limit: int): seq<string> {
    items + Take(Filter(keys, prefix, cursor), limit - |items|)
  }

  lemma TakeOfConcat(a: seq<string>, b: seq<string>, n: int)
    ensures Take(a + b, n) == Take(a, n) + Take(b, n - |Take(a, n)|)
  {
  }

  /** Taking up to the limit from two lists, one after the other. */
  lemma TakeTwice(items: seq<string>, a: seq<string>, b: seq<string>, limit: int)
    ensures items + Take(a + b, limit - |items|)
         == (items + Take(a, limit - |items|)) + Take(b, limit - |items + Take(a, limit - |items|)|)
  {
    TakeOfConcat(a, b, limit - |items|);
  }

  lemma FillOfConcat(items: seq<string>, a: seq<string>, b: seq<string>, prefix: string, cursor: string, limit: int)
    ensures Fill(items, a + b, prefix, cursor, limit)
         == Fill(Fill(items, a, prefix, cursor, limit), b, prefix, cursor, limit)
  {
    FilterOfConcat(a, b, prefix, cursor);
    TakeTwice(items, Filter(a, prefix, cursor), Filter(b, prefix, cursor), limit);
  }

  lemma FillOfOne(items: seq<string>, key: string, prefix: string, cursor: string, limit: int)
    ensures Fill(items, [key], prefix, cursor, limit)
         == if |items| < limit && Matches(key, prefix, cursor) then items + [key] else items
  {
    assert [key][1..] == [];
    assert Filter([key], prefix, cursor)
        == (if Matches(key, prefix, cursor) then [key] else []) + Filter([], prefix, cursor);
  }

  /** One turn of the loop in `walk`. */
  lemma FillOfEntry(items: seq<string>, entries: seq<Entry>, i: nat, path: string,
                    prefix: string, cursor: string, limit: int)
    requires i < |entries|
    ensures Fill(items, Keys(entries[i..], path), prefix, cursor, limit)
         == Fill(Fill(items, KeysOf(entries[i], path), prefix, cursor, limit), Keys(entries[i + 1..], path),
                 prefix, cursor, limit)
  {
    assert entries[i..][0] == entries[i] && entries[i..][1..] == entries[i + 1..];
    FillOfConcat(items, KeysOf(entries[i], path), Keys(entries[i + 1..], path), prefix, cursor, limit);
  }

  /** The walk with its shared result list. */
  class Lister {
    const prefix: string
    const cursor: string
    const limit: int
    var items: seq<string>

    constructor (prefix: string, cursor: string, limit: int)
      ensures this.prefix == prefix && this.cursor == cursor && this.limit == limit && items == []
    {
      this.prefix, this.cursor, this.limit := prefix, cursor, limit;
      items := [];
    }

    ghost function Filled(items: seq<string>, keys: seq<string>): seq<string> {
      Fill(items, keys, prefix, cursor, limit)
    }

    /** The inner function `walk`, with its early returns. */
    method Walk(entries: seq<Entry>, path: string)
      modifies this`items
      ensures items == Filled(old(items), Keys(entries, path))
      decreases entries
    {
      assert entries[0..] == entries;
      for i := 0 to |entries|
        invariant Filled(items, Keys(entries[i..], path)) == Filled(old(items), Keys(entries, path))
      {
        if |items| >= limit {
          assert Filled(items, Keys(entries[i..], path)) == items;
          return;
        }
        var e := entries[i];
        FillOfEntry(items, entries, i, path, prefix, cursor, limit);
        if e.Dir? {
          Walk(e.entries, path + e.name + "/");
        } else if e.File? {
          var rel := path + e.name;
          FillOfOne(items, rel, prefix, cursor, limit);
          if prefix != "" && !(prefix <= rel) {
            continue;
          }
          if cursor != "" && !Less(cursor, rel) {
            continue;
          }
          items := items + [rel];
          if |items| >= limit {
            assert Filled(items, Keys(entries[i + 1..], path)) == items;
            return;
          }
        } else {
          assert Filled(items, []) == items;
        }
      }
      assert Filled(items, []) == items;
    }
  }

  /** `list`: despite its early returns the walk yields exactly the simple form of the page. */
  method List(root: seq<Entry>, prefix: string, limit: int, cursor: string)
    returns (items: seq<string>, nextCursor: Option<string>)
    ensures items == Page(Keys(root, ""), prefix, cursor, limit)
    ensures nextCursor == NextCursor(items, limit)
  {
    var lister := new Lister(prefix, cursor, limit);
    lister.Walk(root, "");
    items := lister.items;
    nextCursor := if |items| == limit && items != [] then Some(items[|items| - 1]) else None;
  }
}
