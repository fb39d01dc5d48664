/** When the depth-first listing of a storage tree is in string order. The cursor of a page is
    compared with whole keys, so paging relies on it; a directory named like the beginning of a
    sibling breaks it, because "/" sorts after some characters a name may go on with. */
module KeyOrder {
  import opened LocalStorage
  import opened Text

  ghost predicate AllLess(a: seq<string>, b: seq<string>) {
    forall x, y :: x in a && y in b ==> Less(x, y)
  }

  ghost predicate Increasing(keys: seq<string>) {
    forall i, j :: 0 <= i < j < |keys| ==> Less(keys[i], keys[j])
  }

  ghost predicate Distinct(keys: seq<string>) {
    forall i, j :: 0 <= i < j < |keys| ==> keys[i] != keys[j]
  }

  predicate HasFile(e: Entry) {
    match e
    case File(_) => true
    case Dir(_, entries) => exists i :: 0 <= i < |entries| && HasFile(entries[i])
    case Other(_) => false
  }

  /** The name of a later sibling goes on, after the directory's name, with a character below "/". */
  predicate Shadows(dir: string, later: string) {
    dir < later && later[|dir|] < '/'
  }

  /** Two siblings in list order whose keys are in string order. */
  predicate InOrder(e: Entry, later: Entry) {
    e.Dir? && HasFile(e) && HasFile(later) ==> !Shadows(e.name, later.name)
  }

  /** The condition on names: nowhere in the tree does a directory with files precede a sibling
      with files that shadows it. */
  predicate Unshadowed(entries: seq<Entry>)
    decreases entries
  {
    && (forall i :: 0 <= i < |entries| && entries[i].Dir? ==> Unshadowed(entries[i].entries))
    && (forall i, j :: 0 <= i < j < |entries| ==> InOrder(entries[i], entries[j]))
  }

  // ---------------------------------------------------------------- keys of one entry

  /** Every key below an entry is the path, the name, and nothing or a separator and more. */
  lemma {:induction false} KeyShape(e: Entry, path: string, key: string) returns (tail: string)
    requires key in KeysOf(e, path)
    ensures key == path + e.name + tail
    ensures if e.Dir? then tail != "" && tail[0] == '/' else tail == ""
    decreases e, 0
  {
    if e.File? {
      tail := "";
      assert key == path + e.name + tail;
    } else {
      var inner := path + e.name + "/";
      var i, t := KeyOfOneEntry(e.entries, inner, key);
      tail := "/" + e.entries[i].name + t;
      assert inner + e.entries[i].name + t == path + e.name + tail;
    }
  }

  lemma {:induction false} KeyOfOneEntry(entries: seq<Entry>, path: string, key: string) returns (i: nat, tail: string)
    requires key in Keys(entries, path)
    ensures i < |entries| && key in KeysOf(entries[i], path) && key == path + entries[i].name + tail
    decreases entries, 1
  {
    if key in KeysOf(entries[0], path) {
      i := 0;
      tail := KeyShape(entries[0], path, key);
    } else {
      i, tail := KeyOfOneEntry(entries[1..], path, key);
      i := i + 1;
    }
  }

  lemma {:induction false} KeysFromEntry(entries: seq<Entry>, path: string, i: nat)
    requires i < |entries|
    ensures forall key :: key in KeysOf(entries[i], path) ==> key in Keys(entries, path)
    decreases i
  {
    if i > 0 {
      KeysFromEntry(entries[1..], path, i - 1);
    }
  }

  lemma {:induction false} HasFileMeansKeys(e: Entry, path: string)
    ensures HasFile(e) <==> KeysOf(e, path) != []
    decreases e
  {
    if e.Dir? {
      var inner := path + e.name + "/";
      if HasFile(e) {
        var i :| 0 <= i < |e.entries| && HasFile(e.entries[i]);
        HasFileMeansKeys(e.entries[i], inner);
        KeysFromEntry(e.entries, inner, i);
        assert KeysOf(e.entries[i], inner)[0] in Keys(e.entries, inner);
      }
      if KeysOf(e, path) != [] {
        var i, _ := KeyOfOneEntry(e.entries, inner, KeysOf(e, path)[0]);
        HasFileMeansKeys(e.entries[i], inner);
      }
    }
  }

  // ---------------------------------------------------------------- keys of two siblings

  /** Comparing `n1 + t1` with `n2 + t2` for names n1 before n2. */
  lemma {:induction false} CompareTails(n1: string, t1: string, n2: string, t2: string)
    requires Less(n1, n2) && '/' !in n1 && '/' !in n2
    requires t1 == "" || t1[0] == '/'
    ensures if t1 != "" && Shadows(n1, n2) then Less(n2 + t2, n1 + t1) else Less(n1 + t1, n2 + t2)
  {
    if n1 == "" {
      assert n1 + t1 == t1;
      assert (n2 + t2)[0] == n2[0];
      assert n2[0] in n2;
    } else if n1[0] == n2[0] {
      CompareTails(n1[1..], t1, n2[1..], t2);
      assert (n1 + t1)[1..] == n1[1..] + t1 && (n2 + t2)[1..] == n2[1..] + t2;
      assert n1 <= n2 <==> n1[1..] <= n2[1..];
    }
  }

  lemma CompareSiblings(e1: Entry, e2: Entry, path: string, k1: string, k2: string)
    requires Less(e1.name, e2.name) && '/' !in e1.name && '/' !in e2.name
    requires k1 in KeysOf(e1, path) && k2 in KeysOf(e2, path)
    ensures if InOrder(e1, e2) then Less(k1, k2) else Less(k2, k1)
  {
    var t1 := KeyShape(e1, path, k1);
    var t2 := KeyShape(e2, path, k2);
    HasFileMeansKeys(e1, path);
    HasFileMeansKeys(e2, path);
    CompareTails(e1.name, t1, e2.name, t2);
    assert k1 == path + (e1.name + t1) && k2 == path + (e2.name + t2);
    LessUnderPrefix(path, e1.name + t1, e2.name + t2);
    LessUnderPrefix(path, e2.name + t2, e1.name + t1);
  }

  // ---------------------------------------------------------------- the whole listing

  lemma IncreasingOfConcat(a: seq<string>, b: seq<string>)
    ensures Increasing(a + b) <==> Increasing(a) && Increasing(b) && AllLess(a, b)
  {
    if Increasing(a + b) {
      assert forall i :: 0 <= i < |a| ==> (a + b)[i] == a[i];
      assert forall j :: 0 <= j < |b| ==> (a + b)[|a| + j] == b[j];
    }
  }

  lemma {:induction false} SiblingsInOrder(e: Entry, rest: seq<Entry>, path: string)
    requires '/' !in e.name
    requires forall j :: 0 <= j < |rest| ==> Less(e.name, rest[j].name) && '/' !in rest[j].name
    ensures AllLess(KeysOf(e, path), Keys(rest, path)) <==> forall j :: 0 <= j < |rest| ==> InOrder(e, rest[j])
  {
    if forall j :: 0 <= j < |rest| ==> InOrder(e, rest[j]) {
      forall x, y | x in KeysOf(e, path) && y in Keys(rest, path)
        ensures Less(x, y)
      {
        var j, _ := KeyOfOneEntry(rest, path, y);
        CompareSiblings(e, rest[j], path, x, y);
      }
    } else {
      var j :| 0 <= j < |rest| && !InOrder(e, rest[j]);
      HasFileMeansKeys(e, path);
      HasFileMeansKeys(rest[j], path);
      var x, y := KeysOf(e, path)[0], KeysOf(rest[j], path)[0];
      CompareSiblings(e, rest[j], path, x, y);
      KeysFromEntry(rest, path, j);
      assert y in Keys(rest, path);
      if Less(x, y) {
        LessIsTransitive(x, y, x);
        LessIsIrreflexive(x);
      }
    }
  }

  lemma UnshadowedSplit(entries: seq<Entry>)
    requires entries != []
    ensures Unshadowed(entries) <==>
      && (entries[0].Dir? ==> Unshadowed(entries[0].entries))
      && Unshadowed(entries[1..])
      && forall j :: 0 <= j < |entries[1..]| ==> InOrder(entries[0], entries[1..][j])
  {
    if Unshadowed(entries) {
      assert forall j :: 0 <= j < |entries| - 1 ==> entries[1..][j] == entries[j + 1];
    } else if Unshadowed(entries[1..]) {
      assert forall j :: 1 <= j < |entries| ==> entries[j] == entries[1..][j - 1];
    }
  }

  /** Exactly when the listing is in string order: a condition on the names in the tree. */
  lemma {:induction false} IncreasingIffUnshadowed(entries: seq<Entry>, path: string)
    requires WellFormed(entries)
    ensures Increasing(Keys(entries, path)) <==> Unshadowed(entries)
    decreases entries
  {
    if entries != [] {
      var e, rest := entries[0], entries[1..];
      assert WellFormed(rest);
      UnshadowedSplit(entries);
      IncreasingOfConcat(KeysOf(e, path), Keys(rest, path));
      IncreasingIffUnshadowed(rest, path);
      assert forall j :: 0 <= j < |rest| ==> rest[j] == entries[j + 1];
      SiblingsInOrder(e, rest, path);
      if e.Dir? {
        IncreasingIffUnshadowed(e.entries, path + e.name + "/");
      }
    }
  }

  /** No key is listed twice. */
  lemma {:induction false} KeysAreDistinct(entries: seq<Entry>, path: string)
    requires WellFormed(entries)
    ensures Distinct(Keys(entries, path))
    decreases entries
  {
    if entries != [] {
      var e, rest := entries[0], entries[1..];
      assert WellFormed(rest);
      KeysAreDistinct(rest, path);
      if e.Dir? {
        KeysAreDistinct(e.entries, path + e.name + "/");
      }
      var a, b := KeysOf(e, path), Keys(rest, path);
      forall i, j | 0 <= i < |a| && 0 <= j < |b|
        ensures a[i] != b[j]
      {
        var k, _ := KeyOfOneEntry(rest, path, b[j]);
        assert rest[k] == entries[k + 1];
        CompareSiblings(e, rest[k], path, a[i], b[j]);
        LessIsIrreflexive(a[i]);
      }
      assert Distinct(a) && Distinct(a + b);
    }
  }

  lemma KeysAreNonEmpty(entries: seq<Entry>, path: string)
    requires WellFormed(entries)
    ensures forall key :: key in Keys(entries, path) ==> key != ""
  {
    forall key | key in Keys(entries, path)
      ensures key != ""
    {
      var i, tail := KeyOfOneEntry(entries, path, key);
      assert |entries[i].name| > 0;
    }
  }
}
