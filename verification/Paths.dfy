/** fs/vfs/path.c: canonical paths and the working directory. */
module Paths {
  import opened Options
  import opened Tokens
  import Runs

  predicate Name(c: string) {
    c != "" && c != "." && c != ".."
  }

  /** A component that can stand in a canonical path. */
  predicate Proper(c: string) {
    Name(c) && '/' !in c
  }

  predicate AllProper(cs: seq<string>) {
    forall k :: 0 <= k < |cs| ==> Proper(cs[k])
  }

  // What a path means: names are entered, ".." leaves, at the root it stays.

  function Enter(stack: seq<string>, c: string): seq<string> {
    if c == "" || c == "." then stack
    else if c == ".." then if stack == [] then [] else stack[..|stack| - 1]
    else stack + [c]
  }

  function Resolve(cs: seq<string>): seq<string> {
    if cs == [] then [] else Enter(Resolve(cs[..|cs| - 1]), cs[|cs| - 1])
  }

  /** What follows only depends on where one is. */
  lemma {:induction false} ResolveFrom(a: seq<string>, b: seq<string>, rest: seq<string>)
    requires Resolve(a) == Resolve(b)
    ensures Resolve(a + rest) == Resolve(b + rest)
    decreases |rest|
  {
    if rest == [] {
      assert a + rest == a && b + rest == b;
    } else {
      var n := |rest| - 1;
      ResolveFrom(a, b, rest[..n]);
      assert (a + rest)[..|a + rest| - 1] == a + rest[..n] && (b + rest)[..|b + rest| - 1] == b + rest[..n];
    }
  }

  /** The laws of paths: empty and "." components drop out, a name and the ".." behind it cancel, ".."
      at the root drops out, and names alone are kept as they are. */
  lemma ResolveLaws(a: seq<string>, name: string, rest: seq<string>)
    ensures Resolve(a + [""] + rest) == Resolve(a + ["."] + rest) == Resolve(a + rest)
    ensures Name(name) ==> Resolve(a + [name, ".."] + rest) == Resolve(a + rest)
    ensures Resolve([".."] + rest) == Resolve(rest)
    ensures AllProper(rest) ==> Resolve(rest) == rest
  {
    ResolveSnoc(a, "");
    ResolveSnoc(a, ".");
    ResolveFrom(a + [""], a, rest);
    ResolveFrom(a + ["."], a, rest);
    if Name(name) {
      ResolveSnoc(a, name);
      ResolveSnoc(a + [name], "..");
      assert a + [name] + [".."] == a + [name, ".."];
      ResolveFrom(a + [name, ".."], a, rest);
    }
    ResolveSnoc([], "..");
    assert [] + [".."] == [".."] && [] + rest == rest;
    ResolveFrom([".."], [], rest);
    if AllProper(rest) {
      ResolveProper(rest);
    }
  }

  lemma ResolveSnoc(cs: seq<string>, c: string)
    ensures Resolve(cs + [c]) == Enter(Resolve(cs), c)
  {
    assert (cs + [c])[..|cs|] == cs;
  }

  // What the code does: popping the only element leaves the list's head set and its tail null, and
  // the next push writes through the null tail.

  datatype Stack = Names(names: seq<string>) | Dangling

  function Held(st: Stack): seq<string> {
    if st.Dangling? then [] else st.names
  }

  function Popped(names: seq<string>): Stack
    requires names != []
  {
    if |names| == 1 then Dangling else Names(names[..|names| - 1])
  }

  function Step(st: Stack, c: string): Option<Stack> {
    if c == "" || c == "." then Some(st)
    else if c == ".." then if Held(st) == [] then Some(st) else Some(Popped(st.names))
    else if st.Dangling? then None
    else Some(Names(st.names + [c]))
  }

  /** The list after all tokens, or None where a push faulted. */
  function Walk(cs: seq<string>): Option<Stack> {
    if cs == [] then Some(Names([]))
    else
      var st := Walk(cs[..|cs| - 1]);
      if st.None? then None else Step(st.value, cs[|cs| - 1])
  }

  /** Component i is a ".." that goes from depth one back to the root. */
  predicate Empties(cs: seq<string>, i: int) {
    0 <= i < |cs| && cs[i] == ".." && |Resolve(cs[..i])| == 1
  }

  ghost predicate Returns(cs: seq<string>) {
    exists i :: Empties(cs, i)
  }

  /** Component j is a name after a return to the root. */
  predicate Reenters(cs: seq<string>, i: int, j: int) {
    i < j < |cs| && Empties(cs, i) && Name(cs[j])
  }

  ghost predicate Revisits(cs: seq<string>) {
    exists i, j :: Reenters(cs, i, j)
  }

  lemma EmptiesPrefix(cs: seq<string>, n: nat, i: int)
    requires n <= |cs|
    ensures Empties(cs[..n], i) == (i < n && Empties(cs, i))
  {
    if 0 <= i < n {
      assert cs[..n][..i] == cs[..i];
    }
  }

  lemma LastStep(cs: seq<string>, n: nat)
    requires |cs| == n + 1
    ensures Returns(cs) <==> Returns(cs[..n]) || Empties(cs, n)
    ensures Revisits(cs) <==> Revisits(cs[..n]) || (Returns(cs[..n]) && Name(cs[n]))
  {
    var front := cs[..n];
    forall i ensures Empties(front, i) == (i < n && Empties(cs, i)) {
      EmptiesPrefix(cs, n, i);
    }
    if Returns(front) {
      var i :| Empties(front, i);
      assert Empties(cs, i);
      assert Name(cs[n]) ==> Reenters(cs, i, n);
    }
    if Revisits(front) {
      var i, j :| Reenters(front, i, j);
      assert Reenters(cs, i, j);
    }
    if Revisits(cs) {
      var i, j :| Reenters(cs, i, j);
      assert j < n ==> Reenters(front, i, j);
      assert Empties(front, i);
    }
  }

  /** The walk faults exactly if some name follows a return to the root; otherwise it holds what the
      path means, and it dangles exactly after a return to the root. */
  lemma {:induction false} WalkMeaning(cs: seq<string>)
    ensures Walk(cs).None? <==> Revisits(cs)
    ensures Walk(cs).Some? ==> Held(Walk(cs).value) == Resolve(cs)
    ensures Walk(cs).Some? ==> (Walk(cs).value.Dangling? <==> Returns(cs))
    decreases |cs|
  {
    if cs != [] {
      WalkMeaning(cs[..|cs| - 1]);
      LastStep(cs, |cs| - 1);
    }
  }

  /** A better list holds the same names and dangles no more than the other. */
  predicate Better(a: Option<Stack>, b: Option<Stack>) {
    b.Some? ==> a.Some? && Held(a.value) == Held(b.value) && (a.value.Dangling? ==> b.value.Dangling?)
  }

  lemma {:induction false} WalkBetter(a: seq<string>, b: seq<string>, rest: seq<string>)
    requires Better(Walk(a), Walk(b))
    ensures Better(Walk(a + rest), Walk(b + rest))
    decreases |rest|
  {
    if rest == [] {
      assert a + rest == a && b + rest == b;
    } else {
      var n := |rest| - 1;
      WalkBetter(a, b, rest[..n]);
      assert (a + rest)[..|a + rest| - 1] == a + rest[..n] && (b + rest)[..|b + rest| - 1] == b + rest[..n];
    }
  }

  lemma {:induction false} WalkStops(a: seq<string>, rest: seq<string>)
    requires Walk(a).None?
    ensures Walk(a + rest).None?
    decreases |rest|
  {
    if rest == [] {
      assert a + rest == a;
    } else {
      WalkStops(a, rest[..|rest| - 1]);
      assert (a + rest)[..|a + rest| - 1] == a + rest[..|rest| - 1];
    }
  }

  lemma WalkSnoc(cs: seq<string>, c: string)
    ensures Walk(cs + [c]) == if Walk(cs).None? then None else Step(Walk(cs).value, c)
  {
    assert (cs + [c])[..|cs|] == cs;
  }

  lemma {:induction false} NonEmptySnoc(cs: seq<string>, c: string)
    ensures NonEmpty(cs + [c]) == NonEmpty(cs) + Flush(c)
    decreases |cs|
  {
    if cs == [] {
      assert cs + [c] == [c];
    } else {
      NonEmptySnoc(cs[1..], c);
      assert (cs + [c])[1..] == cs[1..] + [c];
    }
  }

  /** Empty tokens change nothing. */
  lemma {:induction false} WalkNonEmpty(cs: seq<string>)
    ensures Walk(NonEmpty(cs)) == Walk(cs)
    decreases |cs|
  {
    if cs != [] {
      var n := |cs| - 1;
      WalkNonEmpty(cs[..n]);
      NonEmptySnoc(cs[..n], cs[n]);
      WalkSnoc(cs[..n], cs[n]);
      WalkSnoc(NonEmpty(cs[..n]), cs[n]);
      assert cs == cs[..n] + [cs[n]];
      assert NonEmpty(cs[..n]) + [] == NonEmpty(cs[..n]);
    }
  }

  lemma {:induction false} ResolveProper(cs: seq<string>)
    requires AllProper(cs)
    ensures Resolve(cs) == cs && Walk(cs) == Some(Names(cs))
    decreases |cs|
  {
    if cs != [] {
      var n := |cs| - 1;
      ResolveProper(cs[..n]);
      WalkSnoc(cs[..n], cs[n]);
      assert Proper(cs[n]);
      assert cs[..n] + [cs[n]] == cs;
    }
  }

  lemma {:induction false} ResolvedProper(cs: seq<string>)
    requires forall k :: 0 <= k < |cs| ==> '/' !in cs[k]
    ensures AllProper(Resolve(cs))
    decreases |cs|
  {
    if cs != [] {
      ResolvedProper(cs[..|cs| - 1]);
    }
  }

  // The text of a path.

  function Parts(text: string): seq<string> {
    Fields('/', "", text)
  }

  function Body(names: seq<string>): string {
    if names == [] then "" else Body(names[..|names| - 1]) + ['/'] + names[|names| - 1]
  }

  function Render(names: seq<string>): string {
    if names == [] then "/" else Body(names)
  }

  /** "/" or "/c1/.../cn" with no empty, "." or ".." component. */
  predicate Canonical(text: string) {
    AllProper(Parts(text)) && text == Render(Parts(text))
  }

  lemma {:induction false} BodyParts(names: seq<string>)
    requires AllProper(names)
    ensures Parts(Body(names)) == names && (names != [] ==> Body(names) != "" && Body(names)[0] == '/')
    decreases |names|
  {
    if names != [] {
      var front, last := names[..|names| - 1], names[|names| - 1];
      BodyParts(front);
      FieldsJoin('/', "", Body(front), last);
      FieldsPlain('/', "", last);
      assert "" + last == last && front + [last] == names;
    }
  }

  /** Rendering and splitting are inverse on canonical names. */
  lemma RenderParts(names: seq<string>)
    requires AllProper(names)
    ensures Parts(Render(names)) == names && Canonical(Render(names))
    ensures Render(names) != "" && Render(names)[0] == '/'
  {
    BodyParts(names);
    assert Fields('/', "", "/"[1..]) == [];
  }

  /** The text that is walked: relative paths are put after the working directory. */
  function Full(path: string, working: Option<string>): string {
    if working.Some? && (path == "" || path[0] != '/') then working.value + ['/'] + path else path
  }

  datatype Outcome = Text(text: string) | Fault

  /** The names the token loop gets to see: those of the text, and any strtok finds behind it. */
  function Seen(text: string, behind: string): seq<string> {
    Parts(text) + NonEmpty(Extra(text, behind))
  }

  /** vfs_mk_canonpath on values; behind is the memory behind the terminator of its copy. */
  function Canon(path: string, working: Option<string>, behind: string): Outcome {
    var st := Walk(Seen(Full(path, working), behind));
    if st.None? then Fault else Text(Render(Held(st.value)))
  }

  lemma {:induction false} NonEmptyPlain(ts: seq<string>)
    requires forall k :: 0 <= k < |ts| ==> '/' !in ts[k]
    ensures forall k :: 0 <= k < |NonEmpty(ts)| ==> '/' !in NonEmpty(ts)[k]
    decreases |ts|
  {
    if ts != [] {
      NonEmptyPlain(ts[1..]);
    }
  }

  lemma SeenPlain(text: string, behind: string)
    ensures forall k :: 0 <= k < |Seen(text, behind)| ==> '/' !in Seen(text, behind)[k]
    ensures Clean(text, behind) ==> Seen(text, behind) == Parts(text)
  {
    FieldsParts('/', "", text);
    TokensPlain(behind);
    NonEmptyPlain(Extra(text, behind));
    assert Parts(text) + [] == Parts(text);
  }

  /** It faults exactly when a name seen follows a ".." that went back to the root; otherwise the result
      is canonical and names what the names seen mean. They are those of the whole path when nothing
      behind its terminator is taken for a token. */
  lemma CanonMeaning(path: string, working: Option<string>, behind: string)
    ensures Canon(path, working, behind).Fault? <==> Revisits(Seen(Full(path, working), behind))
    ensures var r := Canon(path, working, behind);
      r.Text? ==> Canonical(r.text) && Parts(r.text) == Resolve(Seen(Full(path, working), behind))
    ensures Clean(Full(path, working), behind) ==> Seen(Full(path, working), behind) == Parts(Full(path, working))
  {
    var cs := Seen(Full(path, working), behind);
    WalkMeaning(cs);
    SeenPlain(Full(path, working), behind);
    ResolvedProper(cs);
    RenderParts(Resolve(cs));
  }

  /** With a zero byte behind the terminator the result is that of the path alone. */
  lemma CanonClean(path: string, working: Option<string>, behind: string)
    requires Clean(Full(path, working), behind)
    ensures Canon(path, working, behind) == Canon(path, working, "")
  {
    SeenPlain(Full(path, working), behind);
    SeenPlain(Full(path, working), "");
  }

  /** The copy gets |text| + 1 bytes from kmalloc, which clears up to the next multiple of 16. */
  predicate Padded(text: string, behind: string) {
    (|text| + 1) % 16 != 0 ==> behind == "" || behind[0] == NUL
  }

  /** So the result is that of the path alone, unless the copy fills its buffer and does not end in a
      slash. */
  lemma CanonPadded(path: string, working: Option<string>, behind: string)
    requires Padded(Full(path, working), behind)
    ensures var text := Full(path, working);
      (|text| + 1) % 16 != 0 || text == "" || text[|text| - 1] == '/' ==>
        Canon(path, working, behind) == Canon(path, working, "")
  {
    if Clean(Full(path, working), behind) {
      CanonClean(path, working, behind);
    }
  }

  /** One name, with a name behind the terminator: the result has both. */
  lemma ExtraAppears(name: string, extra: string)
    requires Proper(name) && Proper(extra) && NUL !in extra
    ensures Canon(['/'] + name, None, extra) == Text(['/'] + name + ['/'] + extra)
  {
    var text := ['/'] + name;
    assert text == "" + ['/'] + name;
    FieldsJoin('/', "", "", name);
    FieldsPlain('/', "", name);
    assert "" + name == name && [] + [name] == [name];
    assert Parts(text) == [name];
    OneToken(extra);
    assert text[|text| - 1] == name[|name| - 1];
    assert [name] + [extra] == [name, extra];
    assert Seen(text, extra) == [name, extra];
    ResolveProper([name, extra]);
    TwoNames(name, extra);
  }

  lemma OneToken(t: string)
    requires t != "" && '/' !in t && NUL !in t
    ensures Tokens.Tokens(t) == [t] && NonEmpty([t]) == [t]
  {
    assert forall k :: 0 <= k < |t| ==> t[k] in t;
    TokenFound(t, |t|);
    assert t[..|t|] == t && [t] + [] == [t] && [t][1..] == [];
  }

  lemma TwoNames(a: string, b: string)
    ensures Render([a, b]) == ['/'] + a + ['/'] + b
  {
    assert [a, b][..1] == [a] && [a][..0] == [];
    assert Body([a]) == "" + ['/'] + a;
    assert "" + ['/'] + a == ['/'] + a;
  }

  /** Such a path: fifteen characters, with the byte that the header of a 32-byte block begins with. */
  lemma ExtraWitness()
    ensures var path := ['/'] + "aaaaaaaaaaaaaa";
      |path| == 15 && Padded(path, [32 as char]) && Canon(path, None, [32 as char]) == Text(path + ['/', ' '])
  {
    var name := "aaaaaaaaaaaaaa";
    assert [32 as char] == " ";
    ExtraAppears(name, " ");
    assert ['/'] + name + ['/'] + " " == ['/'] + name + ['/', ' '];
  }

  /** A path that faults: /a/../b. */
  lemma FaultWitness()
    ensures Canon("/a/../b", None, "").Fault?
  {
    FieldsJoin('/', "", "", "a/../b");
    FieldsJoin('/', "", "a", "../b");
    FieldsJoin('/', "", "..", "b");
    assert "/a/../b" == "" + ['/'] + "a/../b" && "a/../b" == "a" + ['/'] + "../b" && "../b" == ".." + ['/'] + "b";
    FieldsPlain('/', "", "a");
    FieldsPlain('/', "", "..");
    FieldsPlain('/', "", "b");
    assert "" + "a" == "a" && "" + ".." == ".." && "" + "b" == "b";
    var cs := ["a", "..", "b"];
    assert Parts("/a/../b") == cs;
    ClimbBack();
    CanonMeaning("/a/../b", None, "");
  }

  lemma ClimbBack()
    ensures Revisits(["a", "..", "b"])
  {
    var cs := ["a", "..", "b"];
    assert cs[..1] == ["a"] && Resolve(["a"]) == ["a"] by { ResolveProper(["a"]); }
    assert Reenters(cs, 1, 2);
  }

  /** A canonical path is its own canonical form, whatever the working directory. */
  lemma CanonIdempotent(text: string, working: Option<string>, behind: string)
    requires Canonical(text) && Clean(text, behind)
    ensures Canon(text, working, behind) == Text(text)
  {
    SeenPlain(text, behind);
    RenderParts(Parts(text));
    ResolveProper(Parts(text));
  }

  /** Canonicalising the working directory first changes no result that was reached. */
  lemma CanonFromCanon(path: string, working: string)
    requires Canon(path, Some(working), "").Text? && (path == "" || path[0] != '/')
    ensures Canon(working, None, "").Text?
    ensures Canon(path, Some(Canon(working, None, "").text), "") == Canon(path, Some(working), "")
  {
    var ws, ps := Parts(working), Parts(path);
    FieldsJoin('/', "", working, path);
    SeenPlain(working, "");
    SeenPlain(Full(path, Some(working)), "");
    if Walk(ws).None? {
      WalkStops(ws, ps);
    }
    CanonMeaning(working, None, "");
    WalkMeaning(ws);
    var canon := Canon(working, None, "").text;
    SeenPlain(Full(path, Some(canon)), "");
    ResolveProper(Parts(canon));
    WalkBetter(Parts(canon), ws, ps);
    FieldsJoin('/', "", canon, path);
  }

  /** Going to p and then to q is going to p/q. */
  lemma CanonCompose(p: string, q: string, working: Option<string>)
    requires p != "" && (q == "" || q[0] != '/') && Canon(p + ['/'] + q, working, "").Text?
    ensures Canon(p, working, "").Text?
    ensures Canon(q, Some(Canon(p, working, "").text), "") == Canon(p + ['/'] + q, working, "")
  {
    var both, here := p + ['/'] + q, Full(p, working);
    FullJoin(p, q, working);
    SameFull(both, working, q, Some(here));
    SameFull(p, working, here, None);
    CanonFromCanon(q, here);
  }

  lemma FullJoin(p: string, q: string, working: Option<string>)
    requires p != "" && (q == "" || q[0] != '/')
    ensures Full(p + ['/'] + q, working) == Full(q, Some(Full(p, working)))
    ensures Full(Full(p, working), None) == Full(p, working)
  {
    assert (p + ['/'] + q)[0] == p[0];
    if working.Some? && p[0] != '/' {
      assert working.value + ['/'] + (p + ['/'] + q) == working.value + ['/'] + p + ['/'] + q;
    }
  }

  lemma SameFull(p: string, v: Option<string>, q: string, w: Option<string>)
    requires Full(p, v) == Full(q, w)
    ensures Canon(p, v, "") == Canon(q, w, "")
  {
  }

  // sys_chdir

  datatype Call = Call(path: string, behind: string)

  /** One chdir: the working directory becomes the canonical form of the path. */
  predicate Chdir(w: Option<string>, call: Call, v: Option<string>) {
    v.Some? && Canon(call.path, w, call.behind) == Text(v.value)
  }

  predicate Settled(w: Option<string>) {
    w.Some? ==> Canonical(w.value)
  }

  /** The working directory is canonical after every run of chdir, whatever lies behind the copies. */
  lemma EveryRunCanonical(w: Option<string>, calls: seq<Call>, v: Option<string>)
    requires Settled(w) && Runs.Run(Chdir, w, calls, v)
    ensures Settled(v) && (calls != [] ==> v.Some?)
  {
    forall w, call, v | Settled(w) && Chdir(w, call, v) ensures Settled(v) {
      CanonMeaning(call.path, w, call.behind);
    }
    Runs.RunKeeps(Chdir, Settled, w, calls, v);
    if calls != [] {
      Reached(w, calls, v);
    }
  }

  lemma {:induction false} Reached(w: Option<string>, calls: seq<Call>, v: Option<string>)
    requires calls != [] && Runs.Run(Chdir, w, calls, v)
    ensures v.Some?
    decreases |calls|
  {
    var u :| Chdir(w, calls[0], u) && Runs.Run(Chdir, u, calls[1..], v);
    if |calls| > 1 {
      Reached(u, calls[1..], v);
    }
  }

  // vfs_mkpath

  /** The parts vfs_mkpath collects. A relative path is put directly after the working directory. */
  function MkPath(path: string, working: Option<string>): seq<string>
    requires path != "" || working.Some?
  {
    if path == "/" then []
    else if working.Some? && (path == "" || path[0] != '/') then Parts(working.value + path)
    else Parts(path[1..])
  }

  /** A relative path adds its parts to those of the working directory exactly if the joint is at a
      slash or one side is empty. */
  lemma MkPathJoins(path: string, working: string)
    requires path == "" || path[0] != '/'
    ensures MkPath(path, Some(working)) == Parts(working) + Parts(path) <==>
            path == "" || working == "" || working[|working| - 1] == '/'
  {
    if path == "" {
      assert working + path == working;
    } else if working == "" {
      assert working + path == path;
    } else if working[|working| - 1] == '/' {
      var w := working[..|working| - 1];
      assert working + path == w + ['/'] + path && working == w + ['/'] + "";
      FieldsJoin('/', "", w, path);
      FieldsJoin('/', "", w, "");
    } else {
      assert "" + working == working;
      FieldsGlue('/', "", working, path);
    }
  }

  method MakePath(path: string, working: Option<string>) returns (parts: seq<string>)
    requires path != "" || working.Some?
    ensures parts == MkPath(path, working)
    ensures forall k :: 0 <= k < |parts| ==> parts[k] != "" && '/' !in parts[k]
  {
    if path == "/" {
      return [];
    }
    if working.Some? && (path == "" || path[0] != '/') {
      parts := StrSplit(working.value + path, '/');
    } else {
      parts := StrSplit(path[1..], '/');
    }
  }

  lemma {:induction false} NonEmptyConcat(a: seq<string>, b: seq<string>)
    ensures NonEmpty(a + b) == NonEmpty(a) + NonEmpty(b)
    decreases |a|
  {
    if a == [] {
      assert a + b == b;
    } else {
      NonEmptyConcat(a[1..], b);
      assert (a + b)[0] == a[0] && (a + b)[1..] == a[1..] + b;
      var x, y, z := Flush(a[0]), NonEmpty(a[1..]), NonEmpty(b);
      assert x + (y + z) == (x + y) + z;
    }
  }

  lemma WalkTokens(text: string, behind: string)
    requires NUL !in text
    ensures Walk(Seen(text, behind)) == Walk(Tokens.Tokens(Stored(text, behind)))
  {
    TokensAreFields(text);
    TokensBehind(text, behind);
    NonEmptyConcat(Tokens.Tokens(text), Extra(text, behind));
    WalkNonEmpty(Tokens.Tokens(Stored(text, behind)));
  }

  /** The tokens seen so far led to st, and the token in hand and the rest of the text remain. */
  ghost predicate At(text: string, seen: seq<string>, st: Stack, token: Option<string>, rest: string) {
    seen + Pending(token, rest) == Tokens.Tokens(text) && Walk(seen) == Some(st)
  }

  lemma AtNext(text: string, seen: seq<string>, st: Stack, token: string, rest: string, t: Option<string>, r: string)
    requires At(text, seen, st, Some(token), rest) && Tokens.Tokens(rest) == Pending(t, r)
    ensures Step(st, token).Some? ==> At(text, seen + [token], Step(st, token).value, t, r)
    ensures Step(st, token).None? ==> Walk(Tokens.Tokens(text)).None?
  {
    WalkSnoc(seen, token);
    Regroup(seen, token, Pending(t, r));
    if Step(st, token).None? {
      WalkStops(seen + [token], Pending(t, r));
    }
  }

  lemma AtEnd(text: string, seen: seq<string>, st: Stack, rest: string)
    requires At(text, seen, st, None, rest)
    ensures Walk(Tokens.Tokens(text)) == Some(st)
  {
    assert seen + [] == seen;
  }

  /** One token: what the list becomes, and the buffer size its names need. */
  method Feed(list: Stack, token: string, size: nat) returns (r: Option<Stack>, n: nat)
    requires size == 1 + |Body(Held(list))|
    ensures r == Step(list, token)
    ensures r.Some? ==> n == 1 + |Body(Held(r.value))|
  {
    r, n := Some(list), size;
    if token == "" {
    } else if token == ".." {
      if Held(list) != [] {
        var del := list.names[|list.names| - 1];
        r, n := Some(Popped(list.names)), size - (|del| + 1);
      }
    } else if token == "." {
    } else if list.Dangling? {
      r := None;
    } else {
      var names := list.names + [token];
      assert names[..|list.names|] == list.names;
      r, n := Some(Names(names)), size + |token| + 1;
    }
  }

  /** The token loop: the list after every token, unless a push faulted. */
  method Collect(temp: string) returns (r: Option<Stack>, size: nat)
    ensures r == Walk(Tokens.Tokens(temp))
    ensures r.Some? ==> size == 1 + |Body(Held(r.value))|
  {
    ghost var seen := [];
    var list := Names([]);
    size := 1;
    var token, pos := StrTok(temp, 0);
    while token.Some?
      invariant At(temp, seen, list, token, Rest(temp, pos)) && size == 1 + |Body(Held(list))|
      decreases token.Some?, |Rest(temp, pos)|
    {
      var next, end := StrTok(temp, pos);
      AtNext(temp, seen, list, token.value, Rest(temp, pos), next, Rest(temp, end));
      r, size := Feed(list, token.value, size);
      if r.None? {
        return;
      }
      list, seen := r.value, seen + [token.value];
      token, pos := next, end;
    }
    AtEnd(temp, seen, list, Rest(temp, pos));
    r := Some(list);
  }

  /** vfs_mk_canonpath. The size counted for the buffer has room for the text and its terminator, and
      for one more byte unless the result is the root. */
  method MkCanonPath(path: string, working: Option<string>, behind: string) returns (r: Outcome, size: nat)
    requires NUL !in path && (working.Some? ==> NUL !in working.value)
    ensures r == Canon(path, working, behind)
    ensures r.Text? ==> size == |r.text| + if r.text == "/" then 1 else 2
  {
    var temp := if working.Some? && (path == "" || path[0] != '/') then working.value + ['/'] + path else path;
    WalkTokens(temp, behind);
    var list;
    list, size := Collect(Stored(temp, behind));
    if list.None? {
      return Fault, size;
    }
    size := size + 1;
    var text := Write(Held(list.value));
    NotRoot(Held(list.value), Seen(temp, behind));
    r := Text(text);
  }

  /** Only the empty list is written as a lone slash. */
  lemma NotRoot(names: seq<string>, cs: seq<string>)
    requires Walk(cs).Some? && names == Held(Walk(cs).value)
    ensures Render(names) == "/" <==> names == []
  {
    WalkMeaning(cs);
    if names != [] {
      ResolvedNames(cs);
      assert Name(names[|names| - 1]) && |Body(names)| >= 1 + |names[|names| - 1]|;
    }
  }

  lemma {:induction false} ResolvedNames(cs: seq<string>)
    ensures forall k :: 0 <= k < |Resolve(cs)| ==> Name(Resolve(cs)[k])
    decreases |cs|
  {
    if cs != [] {
      ResolvedNames(cs[..|cs| - 1]);
    }
  }

  /** The final loop: each name after a slash, or a lone slash. */
  method Write(names: seq<string>) returns (text: string)
    ensures text == Render(names)
  {
    if |names| == 0 {
      return "/";
    }
    text := "";
    for i := 0 to |names|
      invariant text == Body(names[..i])
    {
      text := text + ['/'] + names[i];
      assert names[..i + 1][..i] == names[..i];
    }
    assert names[..|names|] == names;
  }
}
