/** fs/vfs/mount.c: the tree of mount points. Tree nodes are numbered in the order they are made; a
    node number stands for a tree_node_t pointer, and 0 for a file stands for NULL. */
module Mounts {
  import opened Options
  import opened Tokens
  import opened Paths

  type Path = seq<string>

  // What a tree means: a file for each path that has a node.

  type View = map<Path, int>

  ghost function Prefixes(p: Path): set<Path> {
    set k | 0 <= k <= |p| :: p[..k]
  }

  /** Every path with a node has nodes all the way up. */
  ghost predicate Rooted(v: View) {
    forall p, q :: p in v && q in Prefixes(p) ==> q in v
  }

  /** Mounting dev at p: nodes for p and its prefixes, new ones without a file, and dev at p. */
  ghost function Mounted(v: View, p: Path, dev: int): View {
    map q | q in v.Keys + Prefixes(p) :: if q == p then dev else if q in v then v[q] else 0
  }

  /** The longest prefix of p that has a node. */
  ghost function Deepest(v: View, p: Path): Path
    requires [] in v
    ensures Deepest(v, p) in v && Deepest(v, p) in Prefixes(p)
  {
    if p in v || p == [] then assert p[..|p|] == p; p
    else
      var d := Deepest(v, p[..|p| - 1]);
      assert d == p[..|p| - 1][..|d|] == p[..|d|];
      d
  }

  // The tree as it is stored.

  /** Node c is listed as a child of node n, one name further down. */
  ghost predicate ChildOf(names: seq<string>, paths: seq<Path>, n: nat, c: nat)
    requires n < |paths| == |names|
  {
    0 < c < |paths| && names[c] != "" && paths[c] == paths[n] + [names[c]]
  }

  /** Node i hangs below the node of its parent path. */
  ghost predicate Hangs(kids: seq<seq<nat>>, paths: seq<Path>, i: nat)
    requires i < |paths| == |kids|
  {
    paths[i] != [] && exists n: nat :: n < |paths| && paths[n] == paths[i][..|paths[i]| - 1] && i in kids[n]
  }

  ghost predicate Kept(names: seq<string>, kids: seq<seq<nat>>, paths: seq<Path>) {
    && |names| == |kids| == |paths| > 0 && paths[0] == []
    && (forall i, j :: 0 <= i < j < |paths| ==> paths[i] != paths[j])
    && (forall n, k :: 0 <= n < |kids| && 0 <= k < |kids[n]| ==> ChildOf(names, paths, n, kids[n][k]))
    && (forall i :: 0 < i < |paths| ==> Hangs(kids, paths, i))
  }

  /** The view has the paths of the nodes and no others. */
  ghost predicate Viewed(files: seq<int>, paths: seq<Path>, v: View) {
    && |files| == |paths|
    && (forall i :: 0 <= i < |paths| ==> paths[i] in v && v[paths[i]] == files[i])
    && (forall p :: p in v ==> p in paths)
  }

  /** Children of one node have distinct names. */
  lemma SiblingsDistinct(names: seq<string>, kids: seq<seq<nat>>, paths: seq<Path>, n: nat, a: nat, b: nat)
    requires Kept(names, kids, paths) && n < |kids| && a < |kids[n]| && b < |kids[n]| && kids[n][a] != kids[n][b]
    ensures kids[n][a] < |names| && kids[n][b] < |names| && names[kids[n][a]] != names[kids[n][b]]
  {
    assert ChildOf(names, paths, n, kids[n][a]) && ChildOf(names, paths, n, kids[n][b]);
  }

  /** A path one below a node that has a node of its own is among the children. */
  lemma Listed(names: seq<string>, kids: seq<seq<nat>>, paths: seq<Path>, n: nat, name: string, i: nat)
    requires Kept(names, kids, paths) && n < |paths| && i < |paths| && paths[i] == paths[n] + [name]
    ensures i in kids[n] && names[i] == name
  {
    assert i > 0 && Hangs(kids, paths, i);
    var m: nat :| m < |paths| && paths[m] == paths[i][..|paths[i]| - 1] && i in kids[m];
    assert paths[m] == paths[n] && m == n;
    var k :| 0 <= k < |kids[n]| && kids[n][k] == i;
    assert ChildOf(names, paths, n, kids[n][k]);
    assert (paths[n] + [names[i]])[|paths[n]|] == names[i];
  }

  /** Adding a child keeps the tree stored properly. */
  lemma Added(names: seq<string>, kids: seq<seq<nat>>, paths: seq<Path>, n: nat, name: string)
    requires Kept(names, kids, paths) && n < |paths| && name != "" && paths[n] + [name] !in paths
    ensures Kept(names + [name], kids[n := kids[n] + [|kids|]] + [[]], paths + [paths[n] + [name]])
  {
    var ns, ks, ps := names + [name], kids[n := kids[n] + [|kids|]] + [[]], paths + [paths[n] + [name]];
    forall m, k | 0 <= m < |ks| && 0 <= k < |ks[m]| ensures ChildOf(ns, ps, m, ks[m][k]) {
      if m < |kids| && k < |kids[m]| {
        assert ks[m][k] == kids[m][k] && ChildOf(names, paths, m, kids[m][k]);
      }
    }
    forall i | 0 < i < |ps| ensures Hangs(ks, ps, i) {
      if i < |paths| {
        assert Hangs(kids, paths, i);
        var m: nat :| m < |paths| && paths[m] == paths[i][..|paths[i]| - 1] && i in kids[m];
        assert ps[m] == ps[i][..|ps[i]| - 1] && i in ks[m];
      } else {
        assert ps[n] == ps[i][..|ps[i]| - 1] && ks[n][|kids[n]|] == i;
      }
    }
  }

  lemma AddedView(files: seq<int>, paths: seq<Path>, v: View, p: Path)
    requires Viewed(files, paths, v) && p !in v
    ensures Viewed(files + [0], paths + [p], v[p := 0])
  {
    var ps := paths + [p];
    assert ps[|paths|] == p;
    forall q | q in v[p := 0] ensures q in ps {
      if q != p {
        var i :| 0 <= i < |paths| && paths[i] == q;
        assert ps[i] == q;
      }
    }
  }

  lemma SetView(files: seq<int>, names: seq<string>, kids: seq<seq<nat>>, paths: seq<Path>, v: View, n: nat, dev: int)
    requires Kept(names, kids, paths) && Viewed(files, paths, v) && n < |paths|
    ensures Viewed(files[n := dev], paths, v[paths[n] := dev])
  {
  }

  lemma PrefixIn(p: Path, k: nat)
    requires k <= |p|
    ensures p[..k] in Prefixes(p)
  {
  }

  /** A node made on the way is one the mount makes anyway. */
  lemma MountedVia(v: View, p: Path, k: nat, dev: int)
    requires k <= |p| && p[..k] !in v
    ensures Mounted(v[p[..k] := 0], p, dev) == Mounted(v, p, dev)
  {
    PrefixIn(p, k);
  }

  lemma MountedHere(v: View, p: Path, dev: int)
    requires Rooted(v) && p in v
    ensures Mounted(v, p, dev) == v[p := dev]
  {
    assert v.Keys + Prefixes(p) == v[p := dev].Keys;
  }

  lemma PrefixTrans(p: Path, q: Path, r: Path)
    requires q in Prefixes(p) && r in Prefixes(q)
    ensures r in Prefixes(p)
  {
    var k :| 0 <= k <= |p| && q == p[..k];
    var l :| 0 <= l <= |q| && r == q[..l];
    assert r == p[..l];
  }

  lemma MountedRooted(v: View, p: Path, dev: int)
    requires Rooted(v)
    ensures Rooted(Mounted(v, p, dev))
  {
    var w := Mounted(v, p, dev);
    forall q, r | q in w && r in Prefixes(q) ensures r in w {
      if q !in v {
        PrefixTrans(p, q, r);
      }
    }
  }

  lemma AddedRooted(v: View, p: Path, k: nat)
    requires Rooted(v) && k < |p| && p[..k] in v
    ensures Rooted(v[p[..k + 1] := 0])
  {
    var q := p[..k + 1];
    forall r | r in Prefixes(q) ensures r in v[q := 0] {
      var l :| 0 <= l <= |q| && r == q[..l];
      if l <= k {
        assert r == p[..k][..l];
        PrefixIn(p[..k], l);
      } else {
        assert r == q;
      }
    }
  }

  /** Where the next name has no node, nothing below it has one. */
  lemma {:induction false} DeepestStops(v: View, p: Path, k: nat)
    requires [] in v && Rooted(v) && k < |p| && p[..k] in v && p[..k + 1] !in v
    ensures Deepest(v, p) == p[..k]
    decreases |p|
  {
    PrefixIn(p, k + 1);
    var front := p[..|p| - 1];
    if k == |front| {
      assert front == p[..k];
    } else {
      assert front[..k] == p[..k] && front[..k + 1] == p[..k + 1];
      DeepestStops(v, front, k);
    }
  }

  class MountTree {
    var names: seq<string>
    var files: seq<int>
    var kids: seq<seq<nat>>
    ghost var paths: seq<Path>
    ghost var view: View
    ghost var calls: seq<MountCall>  // the mounts so far

    ghost predicate Shape()
      reads this
    {
      Kept(names, kids, paths) && Viewed(files, paths, view) && Rooted(view)
    }

    /** The tree is what the mounts so far make of the initial one. */
    ghost predicate Valid()
      reads this
    {
      Shape() && view == ViewAfter(calls) && forall k :: 0 <= k < |calls| ==> AllNamed(calls[k].at)
    }

    /** vfs_init: a root without a file. */
    constructor ()
      ensures Valid() && calls == []
    {
      names, files, kids := ["root"], [0], [[]];
      paths, view, calls := [[]], map[[] := 0], [];
    }

    /** The first child with the given name. */
    method FindChild(node: nat, name: string) returns (r: Option<nat>)
      requires Shape() && node < |paths|
      ensures r.Some? ==> r.value < |paths| && paths[r.value] == paths[node] + [name]
      ensures r.None? ==> paths[node] + [name] !in view
    {
      var k := 0;
      while k < |kids[node]|
        invariant k <= |kids[node]|
        invariant forall j :: 0 <= j < k ==> kids[node][j] < |names| && names[kids[node][j]] != name
      {
        assert ChildOf(names, paths, node, kids[node][k]);
        if names[kids[node][k]] == name && name != "" {
          return Some(kids[node][k]);
        }
        k := k + 1;
      }
      forall i: nat | i < |paths| ensures paths[i] != paths[node] + [name] {
        if paths[i] == paths[node] + [name] {
          Listed(names, kids, paths, node, name, i);
        }
      }
      r := None;
    }

    /** tree_insert of a new entry below a node. */
    method Insert(node: nat, name: string) returns (r: nat)
      requires Shape() && node < |paths| && name != "" && paths[node] + [name] !in view
      modifies this`names, this`files, this`kids, this`paths, this`view
      ensures Kept(names, kids, paths) && Viewed(files, paths, view)
      ensures r < |paths| && paths[r] == old(paths)[node] + [name]
      ensures view == old(view)[old(paths)[node] + [name] := 0]
    {
      Added(names, kids, paths, node, name);
      AddedView(files, paths, view, paths[node] + [name]);
      r := |kids|;
      ghost var p := paths[node] + [name];
      names, files, kids := names + [name], files + [0], kids[node := kids[node] + [r]] + [[]];
      paths, view := paths + [p], view[p := 0];
    }

    /** vfs_mount_recur */
    method MountRecur(path: Path, node: nat, dev: int, depth: nat)
      requires Shape() && depth <= |path| && node < |paths| && paths[node] == path[..depth]
      requires forall k :: 0 <= k < |path| ==> path[k] != ""
      modifies this`names, this`files, this`kids, this`paths, this`view
      ensures Shape() && view == Mounted(old(view), path, dev)
      decreases |path| - depth
    {
      if depth == |path| {
        assert paths[node] == path;
        MountedHere(view, path, dev);
        MountedRooted(view, path, dev);
        SetView(files, names, kids, paths, view, node, dev);
        files, view := files[node := dev], view[path := dev];
        return;
      }
      var name := path[depth];
      assert paths[node] + [name] == path[..depth + 1];
      var child := FindChild(node, name);
      var next;
      if child.None? {
        MountedVia(view, path, depth + 1, dev);
        AddedRooted(view, path, depth);
        next := Insert(node, name);
      } else {
        next := child.value;
      }
      MountRecur(path, next, dev, depth + 1);
    }

    /** A mount at the root. */
    method MountRoot(dev: int)
      requires Shape()
      modifies this`files, this`view
      ensures Shape() && view == Mounted(old(view), [], dev)
    {
      MountedHere(view, [], dev);
      MountedRooted(view, [], dev);
      SetView(files, names, kids, paths, view, 0, dev);
      files, view := files[0 := dev], view[[] := dev];
    }

    /** vfs_mount */
    method Mount(dev: int, mountPoint: string)
      requires Valid() && mountPoint != ""
      modifies this
      ensures Valid() && calls == old(calls) + [MountCall(MkPath(mountPoint, None), dev)]
    {
      var parts := MakePath(mountPoint, None);
      AfterMount(calls, MountCall(parts, dev));
      if |parts| == 0 {
        MountRoot(dev);
      } else {
        MountRecur(parts, 0, dev, 0);
      }
      calls := calls + [MountCall(parts, dev)];
    }

    /** vfs_get_mountpoint_recur: from the node of the tokens seen so far, with the next token in
        hand and strtok's cursor behind it. */
    method LookupRecur(node: nat, token: Option<string>, text: string, pos: nat, ghost seen: Path, ghost all: Path)
      returns (file: int)
      requires Shape() && node < |paths| && paths[node] == seen && Ahead(seen, token, Rest(text, pos), all)
      ensures [] in view && file == view[Deepest(view, all)]
      decreases |all| - |seen|
    {
      assert paths[0] in view;
      if token.None? {
        assert all == seen;
        return files[node];
      }
      var child := FindChild(node, token.value);
      var t, next := StrTok(text, pos);
      AheadNext(seen, token.value, Rest(text, pos), all, t, Rest(text, next));
      if child.None? {
        DeepestStops(view, all, |seen|);
        return files[node];
      }
      file := LookupRecur(child.value, t, text, next, seen + [token.value], all);
    }

    /** vfs_get_mountpoint: the device last mounted at the longest prefix known, or none. */
    method Lookup(path: string, behind: string) returns (file: int)
      requires Valid() && path != ""
      ensures [] in ViewAfter(calls) && file == LastAt(calls, Deepest(ViewAfter(calls), LookupPath(path, behind)))
    {
      assert paths[0] in view;
      AfterIs(calls, Deepest(view, LookupPath(path, behind)));
      if path == "/" {
        return files[0];
      }
      var text := Stored(path[1..], behind);
      var token, pos := StrTok(text, 0);
      assert Rest(text, 0) == text;
      file := LookupRecur(0, token, text, pos, [], LookupPath(path, behind));
    }
  }

  /** The tokens seen, the one in hand and those behind the cursor make up the whole path. */
  ghost predicate Ahead(seen: Path, token: Option<string>, rest: string, all: Path) {
    all == seen + Pending(token, rest)
  }

  lemma AheadNext(seen: Path, token: string, rest: string, all: Path, t: Option<string>, r: string)
    requires Ahead(seen, Some(token), rest, all) && Tokens.Tokens(rest) == Pending(t, r)
    ensures Ahead(seen + [token], t, r, all)
    ensures |seen| < |all| && all[..|seen|] == seen && all[..|seen| + 1] == seen + [token]
  {
    Regroup(seen, token, Pending(t, r));
  }

  /** The names a lookup follows: the tokens behind the leading slash. */
  function LookupPath(path: string, behind: string): Path
    requires path != ""
  {
    if path == "/" then [] else Tokens.Tokens(Stored(path[1..], behind))
  }

  // Mount and lookup by text.

  lemma {:induction false} NonEmptyAll(ts: seq<string>)
    ensures |NonEmpty(ts)| <= |ts|
    ensures NonEmpty(ts) == ts <==> forall k :: 0 <= k < |ts| ==> ts[k] != ""
    decreases |ts|
  {
    if ts != [] {
      NonEmptyAll(ts[1..]);
      assert ts == [ts[0]] + ts[1..];
      if ts[0] != "" {
        assert NonEmpty(ts) == [ts[0]] + NonEmpty(ts[1..]);
        assert NonEmpty(ts) == ts ==> NonEmpty(ts[1..]) == NonEmpty(ts)[1..] == ts[1..];
        assert forall k :: 0 <= k < |ts[1..]| ==> ts[1..][k] == ts[k + 1];
      } else {
        assert NonEmpty(ts) == NonEmpty(ts[1..]);
      }
    }
  }

  /** A slash at the start or behind another one. */
  predicate DoubleAt(t: string, k: int) {
    0 <= k < |t| && t[k] == '/' && (k == 0 || t[k - 1] == '/')
  }

  predicate HasName(t: string) {
    exists l :: 0 <= l < |t| && t[l] != '/'
  }

  /** An empty token, and a name behind an empty token. */
  predicate Gap(ts: seq<string>) {
    exists a :: 0 <= a < |ts| && ts[a] == ""
  }

  predicate HasToken(ts: seq<string>) {
    exists b :: 0 <= b < |ts| && ts[b] != ""
  }

  predicate GapBefore(ts: seq<string>) {
    exists a, b :: 0 <= a < b < |ts| && ts[a] == "" && ts[b] != ""
  }

  /** Two slashes together, and two slashes together before a name. */
  predicate Doubled(t: string) {
    exists k :: 0 <= k < |t| && DoubleAt(t, k)
  }

  predicate DoubledBefore(t: string) {
    exists k, l :: 0 <= k < l < |t| && DoubleAt(t, k) && t[l] != '/'
  }

  lemma DoubleShift(t: string, e: nat, k: int)
    requires e < |t| && t[e] == '/'
    ensures DoubleAt(t[e + 1..], k) <==> k >= 0 && DoubleAt(t, k + e + 1)
  {
  }

  lemma DoubledStep(t: string, e: nat)
    requires EndsToken(t, e) && NUL !in t && e < |t|
    ensures Doubled(t) <==> e == 0 || Doubled(t[e + 1..])
    ensures HasName(t) <==> e > 0 || HasName(t[e + 1..])
    ensures DoubledBefore(t) <==> (if e == 0 then HasName(t[e + 1..]) else DoubledBefore(t[e + 1..]))
  {
    var r := t[e + 1..];
    forall k ensures DoubleAt(r, k) <==> k >= 0 && DoubleAt(t, k + e + 1) { DoubleShift(t, e, k); }
    assert forall k :: 0 < k <= e ==> !DoubleAt(t, k);
    assert forall l :: 0 <= l < |r| ==> r[l] == t[l + e + 1];
    if e == 0 { assert DoubleAt(t, 0); }
    if Doubled(r) { var k :| 0 <= k < |r| && DoubleAt(r, k); assert DoubleAt(t, k + e + 1); }
    if Doubled(t) && e > 0 { var k :| 0 <= k < |t| && DoubleAt(t, k); assert DoubleAt(r, k - e - 1); }
    if HasName(r) { var l :| 0 <= l < |r| && r[l] != '/'; assert t[l + e + 1] != '/'; }
    if HasName(t) && e == 0 { var l :| 0 <= l < |t| && t[l] != '/'; assert r[l - 1] != '/'; }
    if e > 0 { assert t[0] != '/'; }
    if DoubledBefore(r) {
      var k, l :| 0 <= k < l < |r| && DoubleAt(r, k) && r[l] != '/';
      assert DoubleAt(t, k + e + 1) && t[l + e + 1] != '/';
    }
    if DoubledBefore(t) {
      var k, l :| 0 <= k < l < |t| && DoubleAt(t, k) && t[l] != '/';
      assert r[l - e - 1] != '/';
      if e > 0 { assert DoubleAt(r, k - e - 1); }
    }
  }

  lemma GapCons(t: string, ts: seq<string>)
    ensures Gap([t] + ts) <==> t == "" || Gap(ts)
  {
    var all := [t] + ts;
    assert all[0] == t;
    if Gap(ts) {
      var a :| 0 <= a < |ts| && ts[a] == "";
      assert all[a + 1] == ts[a];
    }
    if Gap(all) {
      var a :| 0 <= a < |all| && all[a] == "";
      assert a > 0 ==> ts[a - 1] == all[a];
    }
  }

  lemma TokenCons(t: string, ts: seq<string>)
    ensures HasToken([t] + ts) <==> t != "" || HasToken(ts)
  {
    var all := [t] + ts;
    assert all[0] == t;
    if HasToken(ts) {
      var b :| 0 <= b < |ts| && ts[b] != "";
      assert all[b + 1] == ts[b];
    }
    if HasToken(all) {
      var b :| 0 <= b < |all| && all[b] != "";
      assert b > 0 ==> ts[b - 1] == all[b];
    }
  }

  lemma GapBeforeCons(t: string, ts: seq<string>)
    ensures GapBefore([t] + ts) <==> (t == "" && HasToken(ts)) || GapBefore(ts)
    ensures GapBefore(ts) ==> HasToken(ts)
  {
    var all := [t] + ts;
    assert all[0] == t;
    if GapBefore(ts) {
      var a, b :| 0 <= a < b < |ts| && ts[a] == "" && ts[b] != "";
      assert all[a + 1] == ts[a] && all[b + 1] == ts[b];
    } else if t == "" && HasToken(ts) {
      var b :| 0 <= b < |ts| && ts[b] != "";
      assert all[b + 1] == ts[b];
    }
    if GapBefore(all) {
      var a, b :| 0 <= a < b < |all| && all[a] == "" && all[b] != "";
      assert ts[b - 1] == all[b];
      assert a > 0 ==> ts[a - 1] == all[a];
    }
  }

  /** The tokens have the gaps that the text has. */
  ghost predicate SameGaps(ts: seq<string>, t: string) {
    && (Gap(ts) <==> Doubled(t)) && (HasToken(ts) <==> HasName(t)) && (GapBefore(ts) <==> DoubledBefore(t))
  }

  lemma LastToken(t: string)
    requires t != "" && forall k :: 0 <= k < |t| ==> t[k] != '/'
    ensures SameGaps([t], t)
  {
    assert [t][0] != "" && t[0] != '/';
  }

  lemma MoreTokens(t: string, e: nat, ts: seq<string>)
    requires EndsToken(t, e) && NUL !in t && e < |t| && SameGaps(ts, t[e + 1..])
    ensures SameGaps([t[..e]] + ts, t)
  {
    DoubledStep(t, e);
    GapCons(t[..e], ts);
    TokenCons(t[..e], ts);
    GapBeforeCons(t[..e], ts);
  }

  /** Gaps between tokens are doubled slashes in the text. */
  lemma {:induction false} GapsAreDoubled(t: string)
    requires NUL !in t
    ensures SameGaps(Tokens.Tokens(t), t)
    decreases |t|
  {
    if t != "" {
      StopEnds(t, 0);
      var e := StopFrom(t, 0);
      if e < |t| {
        GapsAreDoubled(t[e + 1..]);
        MoreTokens(t, e, Tokens.Tokens(t[e + 1..]));
      } else {
        assert t[..e] == t && [t] + [] == [t];
        LastToken(t);
      }
    }
  }

  /** A lookup follows the names a mount would, exactly if no two slashes stand together behind the
      first character, provided nothing behind the text is taken for a token. */
  lemma SameNames(path: string, behind: string)
    requires path != "" && NUL !in path && Clean(path[1..], behind)
    ensures LookupPath(path, behind) == MkPath(path, None) <==> !Doubled(path[1..])
  {
    var t := path[1..];
    assert forall c :: c in t ==> c in path;
    TokensExact(t, behind);
    TokensAreFields(t);
    NonEmptyAll(Tokens.Tokens(t));
    GapsAreDoubled(t);
  }

  lemma {:induction false} BodyFront(names: seq<string>)
    requires names != []
    ensures Body(names) == ['/'] + names[0] + Body(names[1..])
    decreases |names|
  {
    var n := |names| - 1;
    if n == 0 {
      assert names[..0] == [] && names[1..] == [];
    } else {
      BodyFront(names[..n]);
      assert names[1..][..n - 1] == names[..n][1..] && names[1..][n - 1] == names[n];
    }
  }

  lemma FirstToken(first: string, rest: string)
    requires first != "" && '/' !in first && NUL !in first && (rest == "" || rest[0] == '/')
    ensures Tokens.Tokens(first + rest) == [first] + Tokens.Tokens(if rest == "" then "" else rest[1..])
  {
    var s := first + rest;
    assert s[..|first|] == first && s[|first|..] == rest;
    forall k | 0 <= k < |first| ensures !Stop(s[k]) {
      assert s[k] == first[k];
    }
    TokenFound(s, |first|);
    assert rest != "" ==> s[|first| + 1..] == rest[1..];
  }

  lemma {:induction false} TokensBody(names: seq<string>)
    requires AllProper(names) && names != [] && forall k :: 0 <= k < |names| ==> NUL !in names[k]
    ensures Tokens.Tokens(Body(names)[1..]) == names
    decreases |names|
  {
    var first, rest := names[0], names[1..];
    BodyFront(names);
    assert Body(names)[1..] == first + Body(rest);
    if rest == [] {
      FirstToken(first, "");
    } else {
      BodyFront(rest);
      TokensBody(rest);
      FirstToken(first, Body(rest));
    }
    assert [first] + rest == names;
  }

  lemma LeadingSlash(text: string)
    requires text != "" && text[0] == '/'
    ensures Parts(text[1..]) == Parts(text)
  {
  }

  /** Mounting at a canonical path and looking it up use the same names. The buffer of
      vfs_mk_canonpath has a zero byte behind the terminator, unless the path is the root. */
  lemma CanonicalNames(text: string, behind: string)
    requires Canonical(text) && NUL !in text && (text != "/" ==> behind == "" || behind[0] == NUL)
    ensures text != "" && LookupPath(text, behind) == MkPath(text, None) == Parts(text)
  {
    var names := Parts(text);
    RenderParts(names);
    LeadingSlash(text);
    if names != [] {
      var t := text[1..];
      assert forall c :: c in t ==> c in text;
      FieldsWithout('/', "", text, NUL);
      TokensBody(names);
      TokensExact(t, behind);
    }
  }

  // Every sequence of mounts.

  datatype MountCall = MountCall(at: Path, dev: int)

  /** The view after the calls, from the initial tree. */
  ghost function ViewAfter(calls: seq<MountCall>): View {
    if calls == [] then map[[] := 0]
    else Mounted(ViewAfter(calls[..|calls| - 1]), calls[|calls| - 1].at, calls[|calls| - 1].dev)
  }

  /** One more call is one more mount on the view. */
  lemma AfterMount(calls: seq<MountCall>, call: MountCall)
    ensures ViewAfter(calls + [call]) == Mounted(ViewAfter(calls), call.at, call.dev)
  {
    assert (calls + [call])[..|calls|] == calls;
  }

  /** The last device mounted exactly at p, or no file. */
  function LastAt(calls: seq<MountCall>, p: Path): int {
    if calls == [] then 0
    else if calls[|calls| - 1].at == p then calls[|calls| - 1].dev
    else LastAt(calls[..|calls| - 1], p)
  }

  /** Something was mounted at p or below it. */
  ghost predicate Known(calls: seq<MountCall>, p: Path) {
    p == [] || exists k :: 0 <= k < |calls| && p in Prefixes(calls[k].at)
  }

  lemma KnownSnoc(calls: seq<MountCall>, p: Path)
    requires calls != []
    ensures Known(calls, p) <==> Known(calls[..|calls| - 1], p) || p in Prefixes(calls[|calls| - 1].at)
  {
    var front := calls[..|calls| - 1];
    if Known(front, p) && p != [] {
      var k :| 0 <= k < |front| && p in Prefixes(front[k].at);
      assert calls[k] == front[k];
    }
    if Known(calls, p) && p != [] {
      var k :| 0 <= k < |calls| && p in Prefixes(calls[k].at);
      assert k < |front| ==> front[k] == calls[k];
    }
  }

  /** The tree has exactly the known paths, each with the device last mounted there. */
  lemma {:induction false} AfterIs(calls: seq<MountCall>, p: Path)
    ensures p in ViewAfter(calls) <==> Known(calls, p)
    ensures p in ViewAfter(calls) ==> ViewAfter(calls)[p] == LastAt(calls, p)
    ensures p !in ViewAfter(calls) ==> LastAt(calls, p) == 0
    decreases |calls|
  {
    if calls != [] {
      AfterIs(calls[..|calls| - 1], p);
      KnownSnoc(calls, p);
      PrefixIn(p, |p|);
      assert p[..|p|] == p;
    }
  }

  lemma {:induction false} DeepestLongest(v: View, p: Path, q: Path)
    requires [] in v && q in v && q in Prefixes(p)
    ensures |q| <= |Deepest(v, p)|
    decreases |p|
  {
    var k :| 0 <= k <= |p| && q == p[..k];
    if p !in v && p != [] {
      assert k == |p| ==> q == p;
      assert q == p[..|p| - 1][..k];
      PrefixIn(p[..|p| - 1], k);
      DeepestLongest(v, p[..|p| - 1], q);
    }
  }

  /** After any mounts a lookup of q finds the file of the longest prefix of q that was mounted at or
      above a mount: the device last mounted exactly there, or none. */
  lemma LookupAfter(calls: seq<MountCall>, q: Path)
    ensures [] in ViewAfter(calls)
    ensures var d := Deepest(ViewAfter(calls), q);
      && d in Prefixes(q) && Known(calls, d)
      && (forall r :: r in Prefixes(q) && Known(calls, r) ==> |r| <= |d|)
      && ViewAfter(calls)[d] == LastAt(calls, d)
  {
    AfterIs(calls, []);
    var d := Deepest(ViewAfter(calls), q);
    AfterIs(calls, d);
    forall r | r in Prefixes(q) && Known(calls, r) ensures |r| <= |d| {
      AfterIs(calls, r);
      DeepestLongest(ViewAfter(calls), q, r);
    }
  }

  /** A mount is found at its path until something else is mounted exactly there, whatever is
      mounted elsewhere. */
  lemma LastMountFound(calls: seq<MountCall>, k: nat)
    requires k < |calls| && forall j :: k < j < |calls| ==> calls[j].at != calls[k].at
    ensures [] in ViewAfter(calls) && ViewAfter(calls)[Deepest(ViewAfter(calls), calls[k].at)] == calls[k].dev
  {
    var q := calls[k].at;
    LookupAfter(calls, q);
    PrefixIn(q, |q|);
    assert q[..|q|] == q;
    AfterIs(calls, q);
    LastIs(calls, k);
  }

  lemma {:induction false} LastIs(calls: seq<MountCall>, k: nat)
    requires k < |calls| && forall j :: k < j < |calls| ==> calls[j].at != calls[k].at
    ensures LastAt(calls, calls[k].at) == calls[k].dev
    decreases |calls|
  {
    if k < |calls| - 1 {
      LastIs(calls[..|calls| - 1], k);
    }
  }

  // Mounting at a text and looking up the same text.

  /** No path of the tree has an empty name. */
  ghost predicate Named(v: View) {
    forall p :: p in v ==> AllNamed(p)
  }

  predicate AllNamed(p: Path) {
    forall k :: 0 <= k < |p| ==> p[k] != ""
  }

  lemma {:induction false} NonEmptyNamed(ts: seq<string>)
    ensures AllNamed(NonEmpty(ts)) && (GapBefore(ts) || NonEmpty(ts) <= ts)
    decreases |ts|
  {
    if ts != [] {
      NonEmptyNamed(ts[1..]);
      assert ts == [ts[0]] + ts[1..];
      GapBeforeCons(ts[0], ts[1..]);
      if ts[0] == "" {
        if !HasToken(ts[1..]) {
          NoTokens(ts[1..]);
        }
      }
    }
  }

  lemma {:induction false} NoTokens(ts: seq<string>)
    requires !HasToken(ts)
    ensures NonEmpty(ts) == []
    decreases |ts|
  {
    if ts != [] {
      assert ts == [ts[0]] + ts[1..];
      TokenCons(ts[0], ts[1..]);
      NoTokens(ts[1..]);
    }
  }

  /** Behind a prefix without gaps, a gap before a name leaves fewer names in the prefix than in all. */
  lemma {:induction false} ShortPrefix(ts: seq<string>, d: nat)
    requires GapBefore(ts) && d <= |ts| && AllNamed(ts[..d])
    ensures |NonEmpty(ts)| > d
    decreases |ts|
  {
    assert ts == [ts[0]] + ts[1..];
    GapBeforeCons(ts[0], ts[1..]);
    if d == 0 {
      if !GapBefore(ts[1..]) || ts[0] != "" {
        SomeName(ts[1..]);
      } else {
        ShortPrefix(ts[1..], 0);
      }
    } else {
      assert ts[..d][0] == ts[0] && ts[0] != "";
      var a := ts[..d];
      assert ts[1..][..d - 1] == a[1..] && forall k :: 0 <= k < |a[1..]| ==> a[1..][k] == a[k + 1];
      ShortPrefix(ts[1..], d - 1);
    }
  }

  lemma {:induction false} SomeName(ts: seq<string>)
    requires HasToken(ts)
    ensures |NonEmpty(ts)| > 0
    decreases |ts|
  {
    assert ts == [ts[0]] + ts[1..];
    TokenCons(ts[0], ts[1..]);
    if ts[0] == "" {
      SomeName(ts[1..]);
    }
  }

  /** After a mount at the names of ts, a lookup of ts ends at that node exactly if no name follows an
      empty token. */
  lemma FoundAtNode(v: View, ts: seq<string>, dev: int)
    requires [] in v && Rooted(v) && Named(v)
    ensures var w := Mounted(v, NonEmpty(ts), dev);
      [] in w && (Deepest(w, ts) == NonEmpty(ts) <==> !GapBefore(ts))
  {
    var p := NonEmpty(ts);
    var w := Mounted(v, p, dev);
    MountedRooted(v, p, dev);
    PrefixIn(p, |p|);
    assert p[..|p|] == p && p in w;
    NonEmptyNamed(ts);
    MountedNamed(v, p, dev);
    var d := Deepest(w, ts);
    if GapBefore(ts) {
      assert AllNamed(d) && d == ts[..|d|];
      ShortPrefix(ts, |d|);
    } else if |p| < |ts| {
      NextIsEmpty(ts);
      var q := ts[..|p| + 1];
      assert q[|p|] == "" && !AllNamed(q);
      assert ts[..|p|] == p;
      DeepestStops(w, ts, |p|);
    } else {
      assert p == ts;
    }
  }

  lemma MountedNamed(v: View, p: Path, dev: int)
    requires Named(v) && AllNamed(p)
    ensures Named(Mounted(v, p, dev))
  {
  }

  lemma {:induction false} NextIsEmpty(ts: seq<string>)
    requires !GapBefore(ts) && |NonEmpty(ts)| < |ts|
    ensures ts[|NonEmpty(ts)|] == ""
    decreases |ts|
  {
    assert ts == [ts[0]] + ts[1..];
    GapBeforeCons(ts[0], ts[1..]);
    if ts[0] == "" {
      NoTokens(ts[1..]);
    } else {
      NextIsEmpty(ts[1..]);
      assert ts[1..][|NonEmpty(ts[1..])|] == ts[|NonEmpty(ts[1..])| + 1];
    }
  }

  lemma {:induction false} AfterNamed(calls: seq<MountCall>)
    requires forall k :: 0 <= k < |calls| ==> AllNamed(calls[k].at)
    ensures [] in ViewAfter(calls) && Rooted(ViewAfter(calls)) && Named(ViewAfter(calls))
    decreases |calls|
  {
    if calls == [] {
      assert forall p :: p in ViewAfter(calls) ==> p == [];
    } else {
      var front, last := calls[..|calls| - 1], calls[|calls| - 1];
      AfterNamed(front);
      MountedRooted(ViewAfter(front), last.at, last.dev);
      MountedNamed(ViewAfter(front), last.at, last.dev);
    }
  }

  /** A device mounted at a text is found by looking up the same text, exactly if no two slashes stand
      together before a name behind the first character: then the lookup ends at its node, otherwise it
      ends at another. */
  lemma MountThenLookup(calls: seq<MountCall>, s: string, behind: string, dev: int)
    requires s != "" && NUL !in s && Clean(s[1..], behind)
    requires forall k :: 0 <= k < |calls| ==> AllNamed(calls[k].at)
    ensures var w := ViewAfter(calls + [MountCall(MkPath(s, None), dev)]);
      && [] in w
      && (Deepest(w, LookupPath(s, behind)) == MkPath(s, None) <==> !DoubledBefore(s[1..]))
      && (!DoubledBefore(s[1..]) ==> w[Deepest(w, LookupPath(s, behind))] == dev)
  {
    var t, p := s[1..], MkPath(s, None);
    assert forall c :: c in t ==> c in s;
    AfterNamed(calls);
    AfterMount(calls, MountCall(p, dev));
    TokensExact(t, behind);
    TokensAreFields(t);
    GapsAreDoubled(t);
    FoundAtNode(ViewAfter(calls), LookupPath(s, behind), dev);
    assert s == "/" ==> t == "";
  }
}
