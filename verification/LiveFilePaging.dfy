/** Paging through directories, searches and target rows: which scans are exact. */
module LiveFilePaging {
  import opened Wrappers
  import opened RecordCodec
  import opened Paging
  import opened TargetRecords

  const SLASH: Byte := 47
  const BACKSLASH: Byte := 92

  /** A relative path, component by component. */
  type Path = seq<Text>

  /** A plain name: what a directory may hold, without the backslash that the projection rewrites. */
  predicate PlainName(name: Text) {
    name != [] && forall i :: 0 <= i < |name| ==> name[i] != SLASH && name[i] != BACKSLASH
  }

  predicate PlainPath(p: Path) {
    forall i :: 0 <= i < |p| ==> PlainName(p[i])
  }

  function Slashed(t: Text): (r: Text)
    ensures |r| == |t|
  {
    seq(|t|, i requires 0 <= i < |t| => if t[i] == BACKSLASH then SLASH else t[i])
  }

  function Joined(p: Path): Text {
    if p == [] then [] else [SLASH] + p[0] + Joined(p[1..])
  }

  /** The logical path of a relative one, under the workspace prefix. */
  function Logical(workspace: Text, p: Path): Text {
    workspace + Slashed(Joined(p))
  }

  lemma SlashedPlain(t: Text)
    requires forall i :: 0 <= i < |t| ==> t[i] != BACKSLASH
    ensures Slashed(t) == t
  {
  }

  lemma {:induction false} JoinedIsPlain(p: Path)
    requires PlainPath(p)
    ensures forall i :: 0 <= i < |Joined(p)| ==> Joined(p)[i] != BACKSLASH
  {
    if p != [] { JoinedIsPlain(p[1..]); }
  }

  // ---- One directory ----

  lemma {:induction false} JoinedChild(dir: Path, name: Text)
    ensures Joined(dir + [name]) == Joined(dir) + [SLASH] + name
  {
    if dir == [] {
      assert Joined([name][1..]) == [];
      assert dir + [name] == [name];
    } else {
      assert (dir + [name])[1..] == dir[1..] + [name];
      JoinedChild(dir[1..], name);
    }
  }

  /** What `list` scans: the children of a directory, sorted by name. */
  function DirectoryScan(workspace: Text, dir: Path, names: seq<Text>): seq<Item<Path>> {
    seq(|names|, i requires 0 <= i < |names| => Item(Logical(workspace, dir + [names[i]]), dir + [names[i]]))
  }

  predicate SortedNames(names: seq<Text>) {
    forall i, j :: 0 <= i < j < |names| ==> Less(names[i], names[j])
  }

  /** The names are still in order once backslashes are rewritten. */
  predicate NamesAscend(names: seq<Text>) {
    forall i, j :: 0 <= i < j < |names| ==> Less(Slashed(names[i]), Slashed(names[j]))
  }

  lemma SlashedConcat(a: Text, b: Text)
    ensures Slashed(a + b) == Slashed(a) + Slashed(b)
  {
  }

  lemma ChildLogical(workspace: Text, dir: Path, a: Text, b: Text)
    ensures Less(Logical(workspace, dir + [a]), Logical(workspace, dir + [b])) <==> Less(Slashed(a), Slashed(b))
  {
    hide Less, Slashed;
    var base := Joined(dir) + [SLASH];
    JoinedChild(dir, a);
    JoinedChild(dir, b);
    SlashedConcat(base, a);
    SlashedConcat(base, b);
    LessAfterPrefix(Slashed(base), Slashed(a), Slashed(b));
    LessAfterPrefix(workspace, Slashed(base) + Slashed(a), Slashed(base) + Slashed(b));
  }

  lemma ChildrenDiffer(workspace: Text, dir: Path, names: seq<Text>)
    requires SortedNames(names)
    ensures Distinct(DirectoryScan(workspace, dir, names))
  {
    hide Logical, Less;
    var scan := DirectoryScan(workspace, dir, names);
    forall i, j | 0 <= i < j < |scan| ensures scan[i] != scan[j] {
      LessIsTotal(names[i], names[j]);
      assert (dir + [names[i]])[|dir|] == names[i] && (dir + [names[j]])[|dir|] == names[j];
    }
  }

  // `list`, for any names: it yields every child exactly once exactly when every page boundary separates them.
  lemma ListIsExactIff(workspace: Text, dir: Path, names: seq<Text>, limit: nat)
    requires limit > 0 && SortedNames(names)
    ensures FollowFrom(DirectoryScan(workspace, dir, names), None, limit) == DirectoryScan(workspace, dir, names)
            <==> Splits(DirectoryScan(workspace, dir, names), limit)
  {
    ChildrenDiffer(workspace, dir, names);
    FollowsAreOne(DirectoryScan(workspace, dir, names), None, limit);
    FollowIsExactIff(DirectoryScan(workspace, dir, names), limit);
  }

  lemma PlainNamesAscend(names: seq<Text>)
    requires SortedNames(names) && forall i :: 0 <= i < |names| ==> PlainName(names[i])
    ensures NamesAscend(names)
  {
    forall i | 0 <= i < |names| ensures Slashed(names[i]) == names[i] { SlashedPlain(names[i]); }
  }

  // `list`, for any names, is exact for every page size exactly when its names stay in order with backslashes
  // rewritten; plain names do.
  lemma ListIsAlwaysExactIff(workspace: Text, dir: Path, names: seq<Text>)
    requires SortedNames(names)
    ensures NamesAscend(names) ==> forall limit: nat :: limit > 0 ==>
              FollowFrom(DirectoryScan(workspace, dir, names), None, limit) == DirectoryScan(workspace, dir, names)
    ensures FollowFrom(DirectoryScan(workspace, dir, names), None, 1) == DirectoryScan(workspace, dir, names) ==> NamesAscend(names)
    ensures (forall i :: 0 <= i < |names| ==> PlainName(names[i])) ==> NamesAscend(names)
  {
    hide Less, Logical, PlainName, Splits, FollowFrom;
    var scan := DirectoryScan(workspace, dir, names);
    forall i, j | 0 <= i < j < |scan|
      ensures Less(scan[i].identity, scan[j].identity) <==> Less(Slashed(names[i]), Slashed(names[j]))
    {
      ChildLogical(workspace, dir, names[i], names[j]);
    }
    assert Increasing(scan) <==> NamesAscend(names);
    if NamesAscend(names) {
      forall limit: nat | limit > 0 ensures FollowFrom(scan, None, limit) == scan { IncreasingIsExact(scan, limit); }
    }
    if forall i :: 0 <= i < |names| ==> PlainName(names[i]) { PlainNamesAscend(names); }
    ListIsExactIff(workspace, dir, names, 1);
    SinglePagesIff(scan);
  }

  /** The names `aA` and `a\b`, in byte order. */
  const BACKSLASH_NAMES: seq<Text> := [[97, 65], [97, 92, 98]]

  // The logical path of the second is before that of the first, so with pages of one it is never returned.
  lemma BackslashNameIsSkipped(workspace: Text, dir: Path)
    ensures SortedNames(BACKSLASH_NAMES)
    ensures FollowFrom(DirectoryScan(workspace, dir, BACKSLASH_NAMES), None, 1) == DirectoryScan(workspace, dir, BACKSLASH_NAMES)[..1]
  {
    var scan := DirectoryScan(workspace, dir, BACKSLASH_NAMES);
    assert Slashed([97, 65]) == [97, 65] && Slashed([97, 92, 98]) == [97, 47, 98];
    assert Less([97, 47, 98], [97, 65]) && Less([97, 65], [97, 92, 98]);
    ChildLogical(workspace, dir, [97, 92, 98], [97, 65]);
    LessIsTotal(scan[1].identity, scan[0].identity);
    LessIsTotal(scan[0].identity, scan[0].identity);
    hide Logical, Less;
    NonePast(scan, scan[0].identity);
  }

  // ---- A tree ----

  /** The order of `Path`: component by component. */
  predicate PathLess(p: Path, q: Path) {
    q != [] && (p == [] || (if p[0] == q[0] then PathLess(p[1..], q[1..]) else Less(p[0], q[0])))
  }

  predicate AboveSlash(p: Path) {
    forall i, j :: 0 <= i < |p| && 0 <= j < |p[i]| ==> p[i][j] > SLASH
  }

  // A name followed by the end or a slash sorts before any larger name, when names stay above the slash.
  lemma {:induction false} LessThroughSlash(a: Text, b: Text, x: Text, y: Text)
    requires Less(a, b) && (x == [] || x[0] == SLASH) && forall i :: 0 <= i < |b| ==> b[i] > SLASH
    ensures Less(a + x, b + y)
  {
    if a == [] {
      assert a + x == x;
      assert (b + y)[0] == b[0];
    } else if a[0] == b[0] {
      LessThroughSlash(a[1..], b[1..], x, y);
      assert (a + x)[1..] == a[1..] + x && (b + y)[1..] == b[1..] + y;
    }
  }

  lemma JoinedRight(p: Path)
    requires p != []
    ensures Joined(p) == [SLASH] + (p[0] + Joined(p[1..]))
  {
  }

  // Where every byte of every name is above the slash, component order is string order.
  lemma {:induction false} OrdersAgree(p: Path, q: Path)
    requires PlainPath(p) && PlainPath(q) && AboveSlash(p) && AboveSlash(q) && PathLess(p, q)
    ensures Less(Joined(p), Joined(q))
  {
    if p != [] {
      var rest, more := Joined(p[1..]), Joined(q[1..]);
      if p[0] == q[0] {
        OrdersAgree(p[1..], q[1..]);
        LessAfterPrefix([SLASH] + p[0], rest, more);
      } else {
        assert rest == [] || rest[0] == SLASH;
        JoinedRight(p);
        JoinedRight(q);
        hide Joined, Less;
        LessThroughSlash(p[0], q[0], rest, more);
        LessAfterPrefix([SLASH], p[0] + rest, q[0] + more);
      }
    }
  }

  /** What `find` and `grep` page over: the matching paths, sorted component by component. */
  function SearchScan(workspace: Text, paths: seq<Path>): seq<Item<Path>> {
    seq(|paths|, i requires 0 <= i < |paths| => Item(Logical(workspace, paths[i]), paths[i]))
  }

  predicate SortedPaths(paths: seq<Path>) {
    forall i, j :: 0 <= i < j < |paths| ==> PathLess(paths[i], paths[j])
  }

  lemma {:induction false} PathsDiffer(p: Path, q: Path)
    requires PathLess(p, q)
    ensures p != q
  {
    if p != [] {
      if p[0] == q[0] { PathsDiffer(p[1..], q[1..]); } else { LessIsTotal(p[0], q[0]); }
    }
  }

  lemma SortedIsDistinct(workspace: Text, paths: seq<Path>)
    requires SortedPaths(paths)
    ensures Distinct(SearchScan(workspace, paths))
  {
    hide Logical;
    var scan := SearchScan(workspace, paths);
    forall i, j | 0 <= i < j < |scan| ensures scan[i] != scan[j] { PathsDiffer(paths[i], paths[j]); }
  }

  // `find` and `grep` yield every match exactly once exactly when every page boundary separates the logical paths.
  lemma SearchIsExactIff(workspace: Text, paths: seq<Path>, limit: nat)
    requires limit > 0 && SortedPaths(paths)
    ensures FollowFrom(SearchScan(workspace, paths), None, limit) == SearchScan(workspace, paths)
            <==> Splits(SearchScan(workspace, paths), limit)
  {
    SortedIsDistinct(workspace, paths);
    FollowsAreOne(SearchScan(workspace, paths), None, limit);
    FollowIsExactIff(SearchScan(workspace, paths), limit);
  }

  // ---- The same condition on the names ----

  predicate ProperPrefix(a: Text, b: Text) {
    a <= b && |a| < |b|
  }

  /** An earlier path and a later one whose logical paths are in the other order: they first differ where the earlier
      one goes on below a directory whose name the later one continues with a byte before the slash. */
  predicate Misordered(p: Path, q: Path) {
    && p != [] && q != []
    && if p[0] == q[0] then Misordered(p[1..], q[1..])
       else ProperPrefix(p[0], q[0]) && q[0][|p[0]|] < SLASH && |p| > 1
  }

  // A name that goes on with a slash, or ends, against a larger name.
  lemma {:induction false} NameAgainstName(a: Text, b: Text, x: Text, y: Text)
    requires Less(a, b) && (x == [] || x[0] == SLASH) && forall i :: 0 <= i < |b| ==> b[i] != SLASH
    ensures Less(a + x, b + y) <==> !(ProperPrefix(a, b) && b[|a|] < SLASH && x != [])
  {
    if a == [] {
      assert a + x == x;
      assert (b + y)[0] == b[0];
    } else if a[0] == b[0] {
      NameAgainstName(a[1..], b[1..], x, y);
      assert (a + x)[1..] == a[1..] + x && (b + y)[1..] == b[1..] + y;
      assert a == [a[0]] + a[1..] && b == [b[0]] + b[1..];
    }
  }

  lemma {:induction false} OrdersDisagreeIff(p: Path, q: Path)
    requires PlainPath(p) && PlainPath(q) && PathLess(p, q)
    ensures Less(Joined(p), Joined(q)) <==> !Misordered(p, q)
  {
    if p != [] {
      var rest, more := Joined(p[1..]), Joined(q[1..]);
      JoinedRight(p);
      JoinedRight(q);
      if p[0] == q[0] {
        OrdersDisagreeIff(p[1..], q[1..]);
        assert [SLASH] + (p[0] + rest) == [SLASH] + p[0] + rest && [SLASH] + (q[0] + more) == [SLASH] + p[0] + more;
        LessAfterPrefix([SLASH] + p[0], rest, more);
      } else {
        assert rest == [] <==> |p| == 1;
        assert rest == [] || rest[0] == SLASH;
        assert PlainName(q[0]);
        hide Joined, Less;
        NameAgainstName(p[0], q[0], rest, more);
        LessAfterPrefix([SLASH], p[0] + rest, q[0] + more);
      }
    }
  }

  lemma LogicalOrder(workspace: Text, p: Path, q: Path)
    requires PlainPath(p) && PlainPath(q)
    ensures Less(Logical(workspace, p), Logical(workspace, q)) <==> Less(Joined(p), Joined(q))
  {
    hide Less;
    JoinedIsPlain(p);
    JoinedIsPlain(q);
    SlashedPlain(Joined(p));
    SlashedPlain(Joined(q));
    LessAfterPrefix(workspace, Joined(p), Joined(q));
  }

  predicate NoneMisordered(paths: seq<Path>) {
    forall i, j :: 0 <= i < j < |paths| ==> !Misordered(paths[i], paths[j])
  }

  /** The paths are still in order as strings, with backslashes rewritten. */
  predicate Ascending(paths: seq<Path>) {
    forall i, j :: 0 <= i < j < |paths| ==> Less(Slashed(Joined(paths[i])), Slashed(Joined(paths[j])))
  }

  predicate AllPlain(paths: seq<Path>) {
    forall i :: 0 <= i < |paths| ==> PlainPath(paths[i])
  }

  lemma AscendingIff(paths: seq<Path>)
    requires SortedPaths(paths) && AllPlain(paths)
    ensures Ascending(paths) <==> NoneMisordered(paths)
  {
    hide Less, PlainPath, Misordered, PathLess, Joined;
    forall i, j | 0 <= i < j < |paths|
      ensures Less(Slashed(Joined(paths[i])), Slashed(Joined(paths[j]))) <==> !Misordered(paths[i], paths[j])
    {
      OrdersDisagreeIff(paths[i], paths[j]);
      JoinedIsPlain(paths[i]);
      JoinedIsPlain(paths[j]);
      SlashedPlain(Joined(paths[i]));
      SlashedPlain(Joined(paths[j]));
    }
  }

  lemma IncreasingIff(workspace: Text, paths: seq<Path>)
    ensures Increasing(SearchScan(workspace, paths)) <==> Ascending(paths)
  {
    hide Less, Slashed;
    var scan := SearchScan(workspace, paths);
    forall i, j | 0 <= i < j < |scan|
      ensures Less(scan[i].identity, scan[j].identity) <==> Less(Slashed(Joined(paths[i])), Slashed(Joined(paths[j])))
    {
      LessAfterPrefix(workspace, Slashed(Joined(paths[i])), Slashed(Joined(paths[j])));
    }
  }

  // `find` and `grep` are exact for every page size exactly when the sorted matches are still in order as strings; with
  // plain names, exactly when no two of them are misordered.
  lemma SearchIsAlwaysExactIff(workspace: Text, paths: seq<Path>)
    requires SortedPaths(paths)
    ensures Ascending(paths) ==> forall limit: nat :: limit > 0 ==>
              FollowFrom(SearchScan(workspace, paths), None, limit) == SearchScan(workspace, paths)
    ensures FollowFrom(SearchScan(workspace, paths), None, 1) == SearchScan(workspace, paths) ==> Ascending(paths)
    ensures AllPlain(paths) ==> (Ascending(paths) <==> NoneMisordered(paths))
  {
    hide PathLess, AllPlain, NoneMisordered, Ascending, Splits, FollowFrom, Increasing;
    var scan := SearchScan(workspace, paths);
    IncreasingIff(workspace, paths);
    if AllPlain(paths) { AscendingIff(paths); }
    if Ascending(paths) {
      forall limit: nat | limit > 0 ensures FollowFrom(scan, None, limit) == scan { IncreasingIsExact(scan, limit); }
    }
    SearchIsExactIff(workspace, paths, 1);
    SinglePagesIff(scan);
  }

  // In particular wherever names stay above the slash, for every page size.
  lemma SearchIsExactAboveSlash(workspace: Text, paths: seq<Path>, limit: nat)
    requires limit > 0 && SortedPaths(paths)
    requires forall i :: 0 <= i < |paths| ==> PlainPath(paths[i]) && AboveSlash(paths[i])
    ensures FollowFrom(SearchScan(workspace, paths), None, limit) == SearchScan(workspace, paths)
  {
    hide PlainPath, AboveSlash, Less;
    var scan := SearchScan(workspace, paths);
    forall i, j | 0 <= i < j < |scan| ensures Less(scan[i].identity, scan[j].identity) {
      OrdersAgree(paths[i], paths[j]);
      LogicalOrder(workspace, paths[i], paths[j]);
    }
    IncreasingIsExact(scan, limit);
  }

  /** The paths `a`, `a/b` and `a.txt`, in component order. */
  const DOT_PATHS: seq<Path> := [[[97]], [[97], [98]], [[97, 46, 116, 120, 116]]]

  // With pages of two, `a.txt` is never returned: its logical path is before the cursor `a/b`.
  lemma DotIsSkipped(workspace: Text)
    ensures SortedPaths(DOT_PATHS)
    ensures FollowFrom(SearchScan(workspace, DOT_PATHS), None, 2) == SearchScan(workspace, DOT_PATHS)[..2]
  {
    var scan := SearchScan(workspace, DOT_PATHS);
    var ab, txt := Joined(DOT_PATHS[1]), Joined(DOT_PATHS[2]);
    assert Joined([[98]]) == [47, 98] && ab == [47, 97, 47, 98] && txt == [47, 97, 46, 116, 120, 116];
    SlashedPlain(ab);
    SlashedPlain(txt);
    assert Less(txt, ab);
    LessAfterPrefix(workspace, txt, ab);
    LessIsTotal(scan[1].identity, scan[2].identity);
    assert Joined(DOT_PATHS[0]) == [47, 97];
    SlashedPlain(Joined(DOT_PATHS[0]));
    assert Less(Joined(DOT_PATHS[0]), ab);
    LessAfterPrefix(workspace, Joined(DOT_PATHS[0]), ab);
    LessIsTotal(scan[0].identity, scan[1].identity);
    LessIsTotal(scan[1].identity, scan[1].identity);
    NonePast(scan, scan[1].identity);
  }

  /** The path `a/b` and a file named `a\b`, in component order. */
  const BACKSLASH_PATHS: seq<Path> := [[[97], [98]], [[97, 92, 98]]]

  // Both have one logical path, so with pages of one the second is never returned.
  lemma BackslashIsSkipped(workspace: Text)
    ensures SortedPaths(BACKSLASH_PATHS)
    ensures FollowFrom(SearchScan(workspace, BACKSLASH_PATHS), None, 1) == SearchScan(workspace, BACKSLASH_PATHS)[..1]
  {
    var scan := SearchScan(workspace, BACKSLASH_PATHS);
    assert Joined([[98]]) == [47, 98] && Joined(BACKSLASH_PATHS[0]) == [47, 97, 47, 98];
    assert Joined(BACKSLASH_PATHS[1]) == [47, 97, 92, 98];
    assert Slashed([47, 97, 92, 98]) == [47, 97, 47, 98] == Slashed([47, 97, 47, 98]);
    assert scan[0].identity == scan[1].identity;
    LessIsTotal(scan[0].identity, scan[0].identity);
    NonePast(scan, scan[0].identity);
  }

  // ---- Target rows of a root ----

  /** What the memory registry scans for a root: each of its rows once, in the order of their target keys, which
      `encode` gives as bytes. */
  predicate IsRootScan(records: map<TargetKey, TargetRecord>, root: string, rows: seq<Item<TargetRecord>>, encode: string -> Text) {
    && Increasing(rows)
    && (forall i :: 0 <= i < |rows| ==>
          && rows[i].value.key in records && records[rows[i].value.key] == rows[i].value
          && rows[i].value.key.rootId == root && rows[i].identity == encode(rows[i].value.key.targetKey))
    && (forall k :: k in records && k.rootId == root ==> Item(encode(k.targetKey), records[k]) in rows)
  }

  // `list_root`: following the cursors yields exactly the rows of the root, each once, in key order.
  lemma ListRootIsExact(records: map<TargetKey, TargetRecord>, root: string, rows: seq<Item<TargetRecord>>, encode: string -> Text, limit: nat)
    requires IsRootScan(records, root, rows, encode)
    ensures var clamped := if limit < 1 then 1 else if limit > MAX_PAGE then MAX_PAGE else limit;
            var all := FollowFrom(rows, None, clamped);
            && Increasing(all)
            && (forall k :: k in records && k.rootId == root ==> Item(encode(k.targetKey), records[k]) in all)
            && (forall x :: x in all ==> x.value.key in records && x.value.key.rootId == root)
  {
    IncreasingIsExact(rows, if limit < 1 then 1 else if limit > MAX_PAGE then MAX_PAGE else limit);
  }
}
