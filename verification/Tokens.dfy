/** Splitting a text at a separator: strsplit of fs/vfs/path.c, which drops empty parts, and strtok
    of util/stdlib.c, which keeps them and moves a cursor through the text. */
module Tokens {
  import opened Options

  /** The part collected so far, unless it is empty. */
  function Flush(cur: string): seq<string> {
    if cur == "" then [] else [cur]
  }

  /** The non-empty parts of cur + s between separators, where cur is the part being collected. */
  function Fields(c: char, cur: string, s: string): seq<string>
    decreases |s|
  {
    if s == "" then Flush(cur)
    else if s[0] == c then Flush(cur) + Fields(c, "", s[1..])
    else Fields(c, cur + [s[0]], s[1..])
  }

  /** strsplit: one pass over the text and its terminator. */
  method StrSplit(str: string, c: char) returns (list: seq<string>)
    ensures list == Fields(c, "", str)
    ensures forall k :: 0 <= k < |list| ==> list[k] != "" && c !in list[k]
  {
    list := [];
    var token := "";
    var i := 0;
    while i < |str| + 1
      invariant i <= |str| + 1
      invariant i <= |str| ==> list + Fields(c, token, str[i..]) == Fields(c, "", str)
      invariant i == |str| + 1 ==> list == Fields(c, "", str)
    {
      if i == |str| || str[i] == c {
        if token != "" {
          list := list + [token];
          token := "";
        }
      } else {
        token := token + [str[i]];
      }
      assert i < |str| ==> str[i..][1..] == str[i + 1..];
      i := i + 1;
    }
    FieldsParts(c, "", str);
  }

  /** No part is empty and no part holds the separator. */
  lemma {:induction false} FieldsParts(c: char, cur: string, s: string)
    requires c !in cur
    ensures forall k :: 0 <= k < |Fields(c, cur, s)| ==> Fields(c, cur, s)[k] != "" && c !in Fields(c, cur, s)[k]
    decreases |s|
  {
    if s != "" {
      if s[0] == c {
        FieldsParts(c, "", s[1..]);
      } else {
        FieldsParts(c, cur + [s[0]], s[1..]);
      }
    }
  }

  /** Parts are made of the characters of the text. */
  lemma {:induction false} FieldsWithout(c: char, cur: string, s: string, x: char)
    requires x !in cur && x !in s
    ensures forall k :: 0 <= k < |Fields(c, cur, s)| ==> x !in Fields(c, cur, s)[k]
    decreases |s|
  {
    if s != "" {
      if s[0] == c {
        FieldsWithout(c, "", s[1..], x);
      } else {
        FieldsWithout(c, cur + [s[0]], s[1..], x);
      }
    }
  }

  /** A text without separators is one part, or none. */
  lemma {:induction false} FieldsPlain(c: char, cur: string, s: string)
    requires c !in s
    ensures Fields(c, cur, s) == Flush(cur + s)
    decreases |s|
  {
    if s == "" {
      assert cur + s == cur;
    } else {
      FieldsPlain(c, cur + [s[0]], s[1..]);
      assert cur + [s[0]] + s[1..] == cur + s;
    }
  }

  /** A separator splits the parts of a text in two. With FieldsPlain this fixes Fields on every
      text. */
  lemma {:induction false} FieldsJoin(c: char, cur: string, s: string, t: string)
    ensures Fields(c, cur, s + [c] + t) == Fields(c, cur, s) + Fields(c, "", t)
    decreases |s|
  {
    var u := s + [c] + t;
    if s == "" {
      assert u[1..] == t;
    } else {
      assert u[1..] == s[1..] + [c] + t;
      if s[0] == c {
        FieldsJoin(c, "", s[1..], t);
      } else {
        FieldsJoin(c, cur + [s[0]], s[1..], t);
      }
    }
  }

  /** How many parts there are does not depend on what a started part holds. */
  lemma {:induction false} FieldsCount(c: char, cur: string, other: string, s: string)
    requires cur != "" && other != ""
    ensures |Fields(c, cur, s)| == |Fields(c, other, s)|
    decreases |s|
  {
    if s != "" && s[0] != c {
      FieldsCount(c, cur + [s[0]], other + [s[0]], s[1..]);
    }
  }

  /** Without a separator at the joint the last part of one text and the first of the other become
      one. */
  lemma {:induction false} FieldsGlue(c: char, cur: string, s: string, t: string)
    requires cur + s != "" && (cur + s)[|cur + s| - 1] != c && t != "" && t[0] != c
    ensures |Fields(c, cur, s + t)| + 1 == |Fields(c, cur, s)| + |Fields(c, "", t)|
    decreases |s|
  {
    if s == "" {
      assert s + t == t;
      assert cur + s == cur;
      FieldsCount(c, cur + [t[0]], [t[0]], t[1..]);
      assert "" + [t[0]] == [t[0]];
    } else {
      assert (s + t)[1..] == s[1..] + t;
      if s[0] == c {
        assert |s| > 1 && ("" + s[1..])[|s| - 2] == (cur + s)[|cur + s| - 1];
        FieldsGlue(c, "", s[1..], t);
      } else {
        assert cur + [s[0]] + s[1..] == cur + s;
        FieldsGlue(c, cur + [s[0]], s[1..], t);
      }
    }
  }

  const NUL := '\0'

  /** Where strtok stops: at a slash or at a terminator. */
  predicate Stop(c: char) { c == '/' || c == NUL }

  /** The first such place at or behind i, or the end of memory. */
  function StopFrom(s: string, i: nat): nat
    requires i <= |s|
    decreases |s| - i
  {
    if i == |s| || Stop(s[i]) then i else StopFrom(s, i + 1)
  }

  predicate EndsToken(s: string, e: nat) {
    e <= |s| && (forall k :: 0 <= k < e ==> !Stop(s[k])) && (e < |s| ==> Stop(s[e]))
  }

  lemma {:induction false} StopEnds(s: string, i: nat)
    requires i <= |s| && forall k :: 0 <= k < i ==> !Stop(s[k])
    ensures EndsToken(s, StopFrom(s, i))
    decreases |s| - i
  {
    if i < |s| && !Stop(s[i]) {
      StopEnds(s, i + 1);
    }
  }

  /** What is left behind the place e. */
  function Beyond(s: string, e: nat): string {
    if e < |s| then s[e + 1..] else ""
  }

  /** The tokens strtok finds in memory that begins with s, empty ones between two slashes among them.
      It ends where a token would begin with a terminator, and not at the first terminator it meets. */
  function Tokens(s: string): seq<string>
    decreases |s|
  {
    if s == "" || s[0] == NUL then []
    else
      StopEnds(s, 0);
      var e := StopFrom(s, 0);
      [s[..e]] + Tokens(Beyond(s, e))
  }

  function NonEmpty(ts: seq<string>): seq<string> {
    if ts == [] then [] else Flush(ts[0]) + NonEmpty(ts[1..])
  }

  /** strtok and strsplit find the same names in every text, if nothing lies behind it. */
  lemma {:induction false} TokensAreFields(s: string)
    requires NUL !in s
    ensures NonEmpty(Tokens(s)) == Fields('/', "", s)
    decreases |s|
  {
    if s != "" {
      StopEnds(s, 0);
      var e := StopFrom(s, 0);
      TokensAreFields(Beyond(s, e));
      FirstField(s, e);
      NonEmptyCons(s[..e], Tokens(Beyond(s, e)));
    }
  }

  lemma NonEmptyCons(t: string, ts: seq<string>)
    ensures NonEmpty([t] + ts) == Flush(t) + NonEmpty(ts)
  {
    assert ([t] + ts)[1..] == ts;
  }

  lemma FirstField(s: string, e: nat)
    requires EndsToken(s, e) && NUL !in s
    ensures Fields('/', "", s) == Flush(s[..e]) + Fields('/', "", Beyond(s, e))
  {
    FieldsPlain('/', "", s[..e]);
    assert "" + s[..e] == s[..e];
    if e < |s| {
      assert s == s[..e] + ['/'] + s[e + 1..];
      FieldsJoin('/', "", s[..e], s[e + 1..]);
    } else {
      assert s == s[..e];
    }
  }

  /** A text in memory: the characters, the terminator and whatever comes behind it. */
  function Stored(text: string, behind: string): string {
    text + [NUL] + behind
  }

  /** The tokens strtok finds behind the terminator of a text: after a last token that ends there, its
      cursor stands one past the terminator. */
  function Extra(text: string, behind: string): seq<string> {
    if text == "" || text[|text| - 1] == '/' then [] else Tokens(behind)
  }

  /** Nothing behind the terminator is taken for a token. */
  predicate Clean(text: string, behind: string) {
    text == "" || text[|text| - 1] == '/' || behind == "" || behind[0] == NUL
  }

  lemma StoredEnds(text: string, behind: string, e: nat)
    requires NUL !in text && EndsToken(text, e)
    ensures EndsToken(Stored(text, behind), e)
  {
    var m := Stored(text, behind);
    assert m[|text|] == NUL && forall k :: 0 <= k < |text| ==> m[k] == text[k];
  }

  lemma StoredAfter(text: string, behind: string, e: nat)
    requires e <= |text|
    ensures Stored(text, behind)[..e] == text[..e]
    ensures Beyond(Stored(text, behind), e) == if e < |text| then Stored(Beyond(text, e), behind) else behind
  {
  }

  lemma TokenStored(text: string, behind: string, e: nat)
    requires NUL !in text && text != "" && EndsToken(text, e)
    ensures Tokens(Stored(text, behind)) ==
      [text[..e]] + Tokens(if e < |text| then Stored(Beyond(text, e), behind) else behind)
  {
    StoredEnds(text, behind, e);
    StoredAfter(text, behind, e);
    assert Stored(text, behind)[0] == text[0];
    TokenFound(Stored(text, behind), e);
  }

  /** strtok on a text in memory: the tokens of the text, and perhaps more. */
  lemma {:induction false} TokensBehind(text: string, behind: string)
    requires NUL !in text
    ensures Tokens(Stored(text, behind)) == Tokens(text) + Extra(text, behind)
    decreases |text|
  {
    if text != "" {
      StopEnds(text, 0);
      var e := StopFrom(text, 0);
      TokenStored(text, behind, e);
      TokenFound(text, e);
      if e < |text| {
        TokensBehind(Beyond(text, e), behind);
        LastOfRest(text, e, behind);
        Shifted(text[..e], Tokens(Beyond(text, e)), Extra(text, behind));
      } else {
        Shifted(text[..e], [], Extra(text, behind));
      }
    }
  }

  lemma Shifted<T>(x: T, a: seq<T>, b: seq<T>)
    ensures [x] + (a + b) == ([x] + a) + b
  {
  }

  lemma LastOfRest(text: string, e: nat, behind: string)
    requires e < |text| && text[e] == '/'
    ensures Extra(Beyond(text, e), behind) == Extra(text, behind)
  {
    var rest := Beyond(text, e);
    assert rest != "" ==> rest[|rest| - 1] == text[|text| - 1];
  }

  /** They are exactly those of the text when the text is empty, ends in a slash, or has a zero byte
      behind its terminator. */
  lemma TokensExact(text: string, behind: string)
    requires NUL !in text
    ensures Tokens(Stored(text, behind)) == Tokens(text) <==> Clean(text, behind)
  {
    TokensBehind(text, behind);
    assert |Tokens(text) + Extra(text, behind)| == |Tokens(text)| + |Extra(text, behind)|;
    assert Tokens(text) + [] == Tokens(text);
  }

  /** No token holds a slash or a terminator. */
  lemma {:induction false} TokensPlain(s: string)
    ensures forall k :: 0 <= k < |Tokens(s)| ==> '/' !in Tokens(s)[k] && NUL !in Tokens(s)[k]
    decreases |s|
  {
    if s != "" && s[0] != NUL {
      StopEnds(s, 0);
      var e := StopFrom(s, 0);
      TokensPlain(Beyond(s, e));
      assert forall c :: c in s[..e] ==> !Stop(c);
    }
  }

  /** The characters from pos up to the next place to stop. */
  method Scan(text: string, pos: nat) returns (ret: string)
    requires pos < |text|
    ensures |ret| <= |text| - pos && ret == text[pos..][..|ret|] && EndsToken(text[pos..], |ret|)
  {
    var i := pos;
    ret := "";
    while i < |text| && !Stop(text[i])
      invariant pos <= i <= |text| && ret == text[pos..i] && forall k :: pos <= k < i ==> !Stop(text[k])
    {
      ret := ret + [text[i]];
      i := i + 1;
    }
  }

  /** Memory from a cursor on. */
  function Rest(text: string, pos: nat): string {
    if pos <= |text| then text[pos..] else ""
  }

  /** The token in hand and all that follow it. */
  ghost function Pending(token: Option<string>, rest: string): seq<string> {
    if token.None? then [] else [token.value] + Tokens(rest)
  }

  lemma Regroup<T>(a: seq<T>, x: T, b: seq<T>)
    ensures a + ([x] + b) == a + [x] + b
    ensures (a + [x] + b)[..|a|] == a && (a + [x] + b)[..|a| + 1] == a + [x]
  {
  }

  /** strtok on memory; its static cursor is passed in and handed back. */
  method StrTok(text: string, pos: nat) returns (t: Option<string>, next: nat)
    ensures Pending(t, Rest(text, next)) == Tokens(Rest(text, pos))
    ensures t.Some? ==> |Rest(text, next)| < |Rest(text, pos)|
  {
    if pos >= |text| || text[pos] == NUL {
      NoToken(text, pos);
      return None, pos;
    }
    var ret := Scan(text, pos);
    TokenAt(text, pos, ret);
    next := pos + |ret| + 1;
    t := Some(ret);
  }

  lemma NoToken(text: string, pos: nat)
    requires pos >= |text| || text[pos] == NUL
    ensures Pending(None, Rest(text, pos)) == Tokens(Rest(text, pos))
  {
    assert pos < |text| ==> text[pos..][0] == NUL;
  }

  lemma TokenAt(text: string, pos: nat, ret: string)
    requires pos < |text| && text[pos] != NUL && |ret| <= |text| - pos && ret == text[pos..][..|ret|]
    requires EndsToken(text[pos..], |ret|)
    ensures Pending(Some(ret), Rest(text, pos + |ret| + 1)) == Tokens(Rest(text, pos))
    ensures |Rest(text, pos + |ret| + 1)| < |Rest(text, pos)|
  {
    var s := text[pos..];
    TokenFound(s, |ret|);
    assert Rest(text, pos + |ret| + 1) == Beyond(s, |ret|);
  }

  lemma EndUnique(s: string, e: nat, d: nat)
    requires EndsToken(s, e) && EndsToken(s, d)
    ensures e == d
  {
  }

  lemma TokenFound(s: string, e: nat)
    requires s != "" && s[0] != NUL && EndsToken(s, e)
    ensures Tokens(s) == [s[..e]] + Tokens(Beyond(s, e))
  {
    StopEnds(s, 0);
    EndUnique(s, e, StopFrom(s, 0));
  }
}
