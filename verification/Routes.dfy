/** Route templates: compiled to matchers, matched against request paths, and rendered back. */
module Routes {
  import opened Sequences
  import opened Text

  /** A compiled template is a sequence of literal characters and path parameters. */
  datatype Atom = Ch(c: char) | Param(name: string)

  // ---------------------------------------------------------------- compiling

  /** Where the parameter that starts at the first character ends, if one starts there: after the next
      closing brace, with something in between. The naming pattern also refuses a leading colon. */
  function ParamEnd(t: string, named: bool): Option<nat> {
    var j := IndexOf(t, '}');
    if t != "" && t[0] == '{' && j < |t| && 2 <= j && !(named && t[1] == ':') then Some(j + 1) else None
  }

  /** The name is what precedes a colon. */
  function ParamName(t: string, end: nat): string
    requires 1 <= end - 1 <= |t|
  {
    var inside := t[1..end - 1];
    inside[..IndexOf(inside, ':')]
  }

  /** The atom at the start of a template, and how much of the template it takes. */
  function FirstAtom(t: string, named: bool): (r: (Atom, nat))
    requires t != ""
    ensures 1 <= r.1 <= |t|
  {
    match ParamEnd(t, named)
    case Some(end) => (Param(ParamName(t, end)), end)
    case None => (Ch(t[0]), 1)
  }

  function Atoms(t: string, named: bool): seq<Atom>
    decreases |t|
  {
    if t == "" then [] else
    var (a, n) := FirstAtom(t, named);
    [a] + Atoms(t[n..], named)
  }

  lemma MoveOver(t: string, named: bool, out: seq<Atom>)
    requires t != ""
    ensures var (a, n) := FirstAtom(t, named);
            out + Atoms(t, named) == (out + [a]) + Atoms(t[n..], named)
  {
  }

  /** The loop over the template. */
  method Compile(t: string, named: bool) returns (out: seq<Atom>)
    ensures out == Atoms(t, named)
  {
    out := [];
    var pos := 0;
    ghost var rest := t;
    while pos < |t|
      invariant 0 <= pos <= |t| && rest == t[pos..]
      invariant Atoms(t, named) == out + Atoms(rest, named)
    {
      MoveOver(rest, named, out);
      var (a, n) := FirstAtom(t[pos..], named);
      rest := rest[n..];
      out := out + [a];
      pos := pos + n;
    }
  }

  // ---------------------------------------------------------------- matching

  /** The end of the pattern: an optional slash, then the end of the text or a last newline. */
  predicate IsTail(s: string) {
    s == "" || s == "/" || s == "\n" || s == "/\n"
  }

  /** The captures of the first match in the order a backtracking matcher tries: the longest id first. */
  function Match(atoms: seq<Atom>, s: string): Option<seq<string>>
    decreases |atoms|, 0
  {
    if atoms == [] then (if IsTail(s) then Some([]) else None)
    else if atoms[0].Ch? then
      (if s != "" && s[0] == atoms[0].c then Match(atoms[1..], s[1..]) else None)
    else MatchId(atoms, s, IndexOf(s, '/'))
  }

  /** Ids of at most `k` characters. */
  function MatchId(atoms: seq<Atom>, s: string, k: nat): Option<seq<string>>
    requires atoms != [] && k <= |s|
    decreases |atoms| - 1, k + 1
  {
    if k == 0 then None
    else if Match(atoms[1..], s[k..]).Some? then Some([s[..k]] + Match(atoms[1..], s[k..]).value)
    else MatchId(atoms, s, k - 1)
  }

  predicate IsId(id: string) {
    id != "" && '/' !in id
  }

  function ParamCount(atoms: seq<Atom>): nat {
    if atoms == [] then 0 else (if atoms[0].Param? then 1 else 0) + ParamCount(atoms[1..])
  }

  /** The path with the given ids in the places of the parameters. */
  function Render(atoms: seq<Atom>, ids: seq<string>): string
    requires |ids| == ParamCount(atoms)
  {
    if atoms == [] then ""
    else if atoms[0].Ch? then [atoms[0].c] + Render(atoms[1..], ids)
    else ids[0] + Render(atoms[1..], ids[1..])
  }

  ghost predicate Ids(atoms: seq<Atom>, ids: seq<string>) {
    |ids| == ParamCount(atoms) && forall i :: 0 <= i < |ids| ==> IsId(ids[i])
  }

  /** The path is a rendering of the template, with an optional ending. */
  ghost predicate Renders(atoms: seq<Atom>, ids: seq<string>, tail: string, s: string) {
    Ids(atoms, ids) && IsTail(tail) && s == Render(atoms, ids) + tail
  }

  lemma {:induction false} MatchIsSound(atoms: seq<Atom>, s: string) returns (tail: string)
    requires Match(atoms, s).Some?
    ensures Renders(atoms, Match(atoms, s).value, tail, s)
    decreases |atoms|, 0
  {
    if atoms == [] {
      tail := s;
    } else if atoms[0].Ch? {
      tail := MatchIsSound(atoms[1..], s[1..]);
    } else {
      tail := MatchIdIsSound(atoms, s, IndexOf(s, '/'));
    }
  }

  lemma {:induction false} MatchIdIsSound(atoms: seq<Atom>, s: string, k: nat) returns (tail: string)
    requires atoms != [] && atoms[0].Param? && k <= IndexOf(s, '/') && MatchId(atoms, s, k).Some?
    ensures Renders(atoms, MatchId(atoms, s, k).value, tail, s)
    decreases |atoms| - 1, k + 1
  {
    if Match(atoms[1..], s[k..]).Some? {
      tail := MatchIsSound(atoms[1..], s[k..]);
    } else {
      tail := MatchIdIsSound(atoms, s, k - 1);
    }
  }

  lemma {:induction false} MatchIsComplete(atoms: seq<Atom>, ids: seq<string>, tail: string, s: string)
    requires Renders(atoms, ids, tail, s)
    ensures Match(atoms, s).Some?
    decreases |atoms|
  {
    if atoms == [] {
      assert s == tail;
    } else if atoms[0].Ch? {
      assert s[1..] == Render(atoms[1..], ids) + tail;
      MatchIsComplete(atoms[1..], ids, tail, s[1..]);
    } else {
      var k := |ids[0]|;
      assert s[k..] == Render(atoms[1..], ids[1..]) + tail;
      assert s[..k] == ids[0];
      MatchIsComplete(atoms[1..], ids[1..], tail, s[k..]);
      ShorterIds(atoms, s, k);
    }
  }

  lemma {:induction false} ShorterIds(atoms: seq<Atom>, s: string, k: nat)
    requires atoms != [] && 0 < k <= |s| && '/' !in s[..k] && Match(atoms[1..], s[k..]).Some?
    ensures k <= IndexOf(s, '/') && MatchId(atoms, s, IndexOf(s, '/')).Some?
  {
    assert forall i :: 0 <= i < k ==> s[..k][i] == s[i];
    FoundBelow(atoms, s, k, IndexOf(s, '/'));
  }

  lemma {:induction false} FoundBelow(atoms: seq<Atom>, s: string, k: nat, n: nat)
    requires atoms != [] && 0 < k <= n <= |s| && Match(atoms[1..], s[k..]).Some?
    ensures MatchId(atoms, s, n).Some?
  {
    if k < n && Match(atoms[1..], s[n..]).None? {
      FoundBelow(atoms, s, k, n - 1);
    }
  }

  /** A template matches a path exactly when the path is a rendering with non-empty slash-free ids,
      followed by an optional slash and an optional newline. */
  lemma MatchIffRendering(atoms: seq<Atom>, s: string)
    ensures Match(atoms, s).Some? <==> exists ids, tail :: Renders(atoms, ids, tail, s)
  {
    if Match(atoms, s).Some? {
      var tail := MatchIsSound(atoms, s);
    }
    if exists ids, tail :: Renders(atoms, ids, tail, s) {
      var ids, tail :| Renders(atoms, ids, tail, s);
      MatchIsComplete(atoms, ids, tail, s);
    }
  }

  // ---------------------------------------------------------------- whole-segment parameters

  /** Each parameter is followed by a slash or ends the template. */
  predicate SegmentsAfter(atoms: seq<Atom>) {
    forall i :: 0 <= i < |atoms| - 1 && atoms[i].Param? ==> atoms[i + 1] == Ch('/')
  }

  ghost predicate NoLastNewline(s: string) {
    s != "" ==> s[|s| - 1] != '\n'
  }

  /** A last parameter may or may not take a newline that ends the path. */
  predicate NewlineIsOpen(atoms: seq<Atom>, s: string) {
    atoms != [] && atoms[|atoms| - 1].Param? && |s| >= 2 && s[|s| - 1] == '\n' && s[|s| - 2] != '/'
  }

  /** Everywhere else a template with whole-segment parameters matches a path in at most one way. */
  lemma {:induction false} RenderingIsUnique(atoms: seq<Atom>, ids: seq<string>, tail: string,
                                             ids': seq<string>, tail': string, s: string)
    requires SegmentsAfter(atoms) && !NewlineIsOpen(atoms, s)
    requires Renders(atoms, ids, tail, s) && Renders(atoms, ids', tail', s)
    ensures ids == ids' && tail == tail'
    decreases |atoms|
  {
    if atoms == [] {
      assert "" + tail == tail && "" + tail' == tail';
    } else if atoms[0].Ch? {
      DropChar(atoms, ids, tail, s);
      DropChar(atoms, ids', tail', s);
      RenderingIsUnique(atoms[1..], ids, tail, ids', tail', s[1..]);
    } else if |atoms| == 1 {
      LastIdIsUnique(atoms, ids, tail, ids', tail', s);
    } else {
      InnerIdIsFirstSegment(atoms, ids, tail, s);
      InnerIdIsFirstSegment(atoms, ids', tail', s);
      RenderingIsUnique(atoms[1..], ids[1..], tail, ids'[1..], tail', s[|ids[0]|..]);
      assert ids == [ids[0]] + ids[1..] && ids' == [ids'[0]] + ids'[1..];
    }
  }

  lemma DropChar(atoms: seq<Atom>, ids: seq<string>, tail: string, s: string)
    requires SegmentsAfter(atoms) && Renders(atoms, ids, tail, s) && atoms != [] && atoms[0].Ch?
    ensures s != "" && SegmentsAfter(atoms[1..]) && Renders(atoms[1..], ids, tail, s[1..])
  {
    assert s[1..] == Render(atoms[1..], ids) + tail;
  }

  /** An id before the last atom reaches to the next slash. */
  lemma InnerIdIsFirstSegment(atoms: seq<Atom>, ids: seq<string>, tail: string, s: string)
    requires SegmentsAfter(atoms) && Renders(atoms, ids, tail, s) && |atoms| > 1 && atoms[0].Param?
    ensures |ids[0]| == IndexOf(s, '/') && ids[0] == s[..IndexOf(s, '/')]
    ensures SegmentsAfter(atoms[1..]) && Renders(atoms[1..], ids[1..], tail, s[|ids[0]|..])
  {
    var id, t := ids[0], Render(atoms[1..], ids[1..]) + tail;
    assert s == id + t && s[|id|..] == t && s[..|id|] == id;
    assert atoms[1] == Ch('/') && t[0] == '/';
    IndexOfFirst(id, '/', t[1..]);
    assert s == id + ['/'] + t[1..];
  }

  lemma OneId(atoms: seq<Atom>, ids: seq<string>, tail: string, s: string)
    requires Renders(atoms, ids, tail, s) && |atoms| == 1 && atoms[0].Param?
    ensures ids == [ids[0]] && IsId(ids[0]) && s == ids[0] + tail
  {
    assert atoms[1..] == [] && ParamCount(atoms) == 1;
    assert Render(atoms, ids) == ids[0] + Render([], ids[1..]) == ids[0] + "" == ids[0];
  }

  lemma LastIdIsUnique(atoms: seq<Atom>, ids: seq<string>, tail: string,
                       ids': seq<string>, tail': string, s: string)
    requires |atoms| == 1 && atoms[0].Param? && !NewlineIsOpen(atoms, s)
    requires Renders(atoms, ids, tail, s) && Renders(atoms, ids', tail', s)
    ensures ids == ids' && tail == tail'
  {
    OneId(atoms, ids, tail, s);
    OneId(atoms, ids', tail', s);
    SplitIsUnique(ids[0], tail, ids'[0], tail');
  }

  lemma SplitIsUnique(id: string, tail: string, id': string, tail': string)
    requires IsId(id) && IsId(id') && IsTail(tail) && IsTail(tail') && id + tail == id' + tail'
    requires var s := id + tail; !(|s| >= 2 && s[|s| - 1] == '\n' && s[|s| - 2] != '/')
    ensures id == id' && tail == tail'
  {
    var s := id + tail;
    assert s[..|id|] == id && s[|id|..] == tail && s[..|id'|] == id' && s[|id'|..] == tail';
    assert forall i :: 0 <= i < |id| ==> s[i] == id[i];
    assert forall i :: 0 <= i < |id'| ==> s[i] == id'[i];
  }

  /** Each parameter also follows a slash or starts the template. */
  predicate WholeSegments(atoms: seq<Atom>) {
    SegmentsAfter(atoms) && forall i :: 0 < i < |atoms| && atoms[i].Param? ==> atoms[i - 1] == Ch('/')
  }

  lemma {:induction false} RenderLast(atoms: seq<Atom>, ids: seq<string>)
    requires atoms != [] && atoms[|atoms| - 1].Param? && |ids| == ParamCount(atoms)
    ensures ids != [] && |ids| - 1 == ParamCount(atoms[..|atoms| - 1])
    ensures Render(atoms, ids) == Render(atoms[..|atoms| - 1], ids[..|ids| - 1]) + ids[|ids| - 1]
  {
    var front := atoms[..|atoms| - 1];
    if |atoms| == 1 {
      assert ids[0] + "" == ids[0];
    } else {
      assert front[1..] == atoms[1..][..|atoms| - 2];
      if atoms[0].Ch? {
        RenderLast(atoms[1..], ids);
        Regroup([atoms[0].c], Render(front[1..], ids[..|ids| - 1]), ids[|ids| - 1]);
      } else {
        RenderLast(atoms[1..], ids[1..]);
        assert ids[1..][..|ids| - 2] == ids[..|ids| - 1][1..];
        Regroup(ids[0], Render(front[1..], ids[..|ids| - 1][1..]), ids[|ids| - 1]);
      }
    }
  }

  lemma Regroup(a: string, b: string, c: string)
    ensures a + (b + c) == (a + b) + c
  {
  }

  lemma {:induction false} RenderEndsIn(atoms: seq<Atom>, ids: seq<string>, c: char)
    requires atoms != [] && atoms[|atoms| - 1] == Ch(c) && |ids| == ParamCount(atoms)
    ensures var r := Render(atoms, ids); r != "" && r[|r| - 1] == c
  {
    if |atoms| > 1 {
      if atoms[0].Ch? {
        RenderEndsIn(atoms[1..], ids, c);
      } else {
        RenderEndsIn(atoms[1..], ids[1..], c);
      }
    }
  }

  lemma {:induction false} ReplaceLast(atoms: seq<Atom>, ids: seq<string>, id: string)
    requires atoms != [] && atoms[|atoms| - 1].Param? && Ids(atoms, ids) && IsId(id)
    ensures ids != [] && |ids| - 1 == ParamCount(atoms[..|atoms| - 1]) && Ids(atoms, ids[..|ids| - 1] + [id])
    ensures Render(atoms, ids[..|ids| - 1] + [id]) == Render(atoms[..|atoms| - 1], ids[..|ids| - 1]) + id
  {
    RenderLast(atoms, ids);
    var other := ids[..|ids| - 1] + [id];
    RenderLast(atoms, other);
    assert other[..|ids| - 1] == ids[..|ids| - 1];
  }

  lemma FrontEndsInSlash(atoms: seq<Atom>, ids: seq<string>)
    requires WholeSegments(atoms) && atoms != [] && atoms[|atoms| - 1].Param?
    requires |ids| == ParamCount(atoms[..|atoms| - 1])
    ensures var front := Render(atoms[..|atoms| - 1], ids); front == "" || front[|front| - 1] == '/'
  {
    if |atoms| > 1 {
      RenderEndsIn(atoms[..|atoms| - 1], ids, '/');
    }
  }

  lemma OpenTail(body: string, tail: string)
    requires IsTail(tail)
    requires var s := body + tail; |s| >= 2 && s[|s| - 1] == '\n' && s[|s| - 2] != '/'
    ensures tail == "" || tail == "\n"
  {
    assert (body + tail)[|body|..] == tail;
  }

  /** Where the newline is open, a match can be rendered in a second way. */
  lemma SecondRendering(atoms: seq<Atom>, ids: seq<string>, tail: string, s: string)
    returns (ids': seq<string>, tail': string)
    requires WholeSegments(atoms) && NewlineIsOpen(atoms, s) && Renders(atoms, ids, tail, s)
    ensures Renders(atoms, ids', tail', s) && tail' != tail
  {
    RenderLast(atoms, ids);
    var front, last := Render(atoms[..|atoms| - 1], ids[..|ids| - 1]), ids[|ids| - 1];
    assert s == (front + last) + tail;
    OpenTail(front + last, tail);
    if tail == "" {
      var id := last[..|last| - 1];
      FrontEndsInSlash(atoms, ids[..|ids| - 1]);
      assert s == front + last;
      ReplaceLast(atoms, ids, id);
      ids', tail' := ids[..|ids| - 1] + [id], "\n";
      assert s == (front + id) + "\n";
    } else {
      ReplaceLast(atoms, ids, last + "\n");
      ids', tail' := ids[..|ids| - 1] + [last + "\n"], "";
      assert s == (front + (last + "\n")) + "";
    }
  }

  ghost predicate OneRendering(atoms: seq<Atom>, s: string) {
    forall ids, tail, ids', tail' ::
      Renders(atoms, ids, tail, s) && Renders(atoms, ids', tail', s) ==> ids == ids' && tail == tail'
  }

  /** A template with whole-segment parameters matches a path in at most one way, except exactly where it ends in
      a parameter, matches, and the path ends in a newline that does not follow a slash. */
  lemma OneRenderingIff(atoms: seq<Atom>, s: string)
    requires WholeSegments(atoms)
    ensures OneRendering(atoms, s) <==> !(NewlineIsOpen(atoms, s) && Match(atoms, s).Some?)
  {
    if !NewlineIsOpen(atoms, s) {
      forall ids, tail, ids', tail' | Renders(atoms, ids, tail, s) && Renders(atoms, ids', tail', s)
        ensures ids == ids' && tail == tail'
      {
        RenderingIsUnique(atoms, ids, tail, ids', tail', s);
      }
    } else if Match(atoms, s).Some? {
      var ids := Match(atoms, s).value;
      var tail := MatchIsSound(atoms, s);
      var ids', tail' := SecondRendering(atoms, ids, tail, s);
    } else {
      forall ids, tail
        ensures !Renders(atoms, ids, tail, s)
      {
        if Renders(atoms, ids, tail, s) {
          MatchIsComplete(atoms, ids, tail, s);
        }
      }
    }
  }

  /** The id of a leading parameter reaches to the next slash, or to the end. */
  lemma IdIsFirstSegment(atoms: seq<Atom>, ids: seq<string>, tail: string, s: string)
    requires SegmentsAfter(atoms) && NoLastNewline(s) && Renders(atoms, ids, tail, s)
    requires atoms != [] && atoms[0].Param?
    ensures |ids[0]| == IndexOf(s, '/') && ids[0] == s[..IndexOf(s, '/')]
    ensures SegmentsAfter(atoms[1..]) && NoLastNewline(s[|ids[0]|..])
    ensures Renders(atoms[1..], ids[1..], tail, s[|ids[0]|..])
  {
    var id, t := ids[0], Render(atoms[1..], ids[1..]) + tail;
    assert s == id + t;
    assert s[|id|..] == t && s[..|id|] == id;
    if t == "" {
      IndexOfNone(id, '/');
    } else {
      if |atoms| > 1 {
        assert atoms[1] == Ch('/');
      }
      assert t[|t| - 1] == s[|s| - 1];
      assert t[0] == '/';
      IndexOfFirst(id, '/', t[1..]);
      assert s == id + ['/'] + t[1..];
    }
  }

  /** So there the captures are the ids, whatever order the matcher tries. */
  lemma CapturesAreTheIds(atoms: seq<Atom>, ids: seq<string>, tail: string, s: string)
    requires SegmentsAfter(atoms) && !NewlineIsOpen(atoms, s) && Renders(atoms, ids, tail, s)
    ensures Match(atoms, s) == Some(ids)
  {
    MatchIsComplete(atoms, ids, tail, s);
    var tail' := MatchIsSound(atoms, s);
    RenderingIsUnique(atoms, ids, tail, Match(atoms, s).value, tail', s);
  }

  /** On a path that ends in a newline a template can match in two ways; the longer id wins. */
  lemma NewlineMatchesTwice()
    ensures var atoms := [Ch('/'), Param("id")];
            && Renders(atoms, ["42"], "\n", "/42\n") && Renders(atoms, ["42\n"], "", "/42\n")
            && Match(atoms, "/42\n") == Some(["42\n"])
  {
    var atoms := [Ch('/'), Param("id")];
    assert atoms[1..] == [Param("id")] && atoms[1..][1..] == [];
    assert ParamCount(atoms[1..]) == 1 && ParamCount(atoms) == 1;
    assert Render(atoms[1..], ["42"]) == "42" + Render([], ["42"][1..]);
    assert Render(atoms[1..], ["42\n"]) == "42\n" + Render([], ["42\n"][1..]);
    var s := "42\n";
    assert "/42\n"[1..] == s;
    IndexOfNone(s, '/');
    assert s[3..] == "" && s[..3] == s;
    assert MatchId(atoms[1..], s, 3) == Some([s] + []);
    assert [s] + [] == [s];
  }

  // ---------------------------------------------------------------- what a template means

  lemma {:induction false} TextIsLiteral(t: string, rest: string, named: bool)
    requires '{' !in t
    ensures Atoms(t + rest, named) == seq(|t|, i requires 0 <= i < |t| => Ch(t[i])) + Atoms(rest, named)
  {
    if t == "" {
      assert t + rest == rest;
    } else {
      assert (t + rest)[1..] == t[1..] + rest;
      TextIsLiteral(t[1..], rest, named);
    }
  }

  /** A group in braces is a parameter; its name is all of it, or what precedes a colon. */
  lemma GroupIsParameter(inside: string, name: string, kind: string, rest: string, named: bool)
    requires name != "" && '}' !in name && ':' !in name && '}' !in kind
    requires inside == name || inside == name + [':'] + kind
    ensures Atoms("{" + inside + "}" + rest, named) == [Param(name)] + Atoms(rest, named)
  {
    if inside == name {
      IndexOfNone(name, ':');
    } else {
      IndexOfFirst(name, ':', kind);
    }
    assert inside[..|name|] == name;
    GroupOf(inside, rest, named);
  }

  lemma GroupOf(inside: string, rest: string, named: bool)
    requires inside != "" && '}' !in inside && inside[0] != ':'
    ensures Atoms("{" + inside + "}" + rest, named) ==
      [Param(inside[..IndexOf(inside, ':')])] + Atoms(rest, named)
  {
    var t := "{" + inside + "}" + rest;
    assert t == ("{" + inside) + ['}'] + rest;
    IndexOfFirst("{" + inside, '}', rest);
    assert t[1] == inside[0];
    assert t[1..|inside| + 1] == inside && t[|inside| + 2..] == rest;
  }

  /** The path of a template without parameters is matched by that path alone, with at most a slash and a newline
      after it. */
  lemma LiteralMatches(t: string, s: string, named: bool)
    requires '{' !in t
    ensures Match(Atoms(t, named), s).Some? <==> s in {t, t + "/", t + "\n", t + "/\n"}
  {
    var atoms := seq(|t|, i requires 0 <= i < |t| => Ch(t[i]));
    TextIsLiteral(t, "", named);
    assert t + "" == t && Atoms(t, named) == atoms;
    LiteralRenders(atoms, t);
    if Match(atoms, s).Some? {
      var tail := MatchIsSound(atoms, s);
      assert Match(atoms, s).value == [];
    }
    if s in {t, t + "/", t + "\n", t + "/\n"} {
      var tail := s[|t|..];
      assert s == t + tail && IsTail(tail);
      assert Renders(atoms, [], tail, s);
      MatchIffRendering(atoms, s);
    }
  }

  lemma {:induction false} LiteralRenders(atoms: seq<Atom>, t: string)
    requires |atoms| == |t| && forall i :: 0 <= i < |t| ==> atoms[i] == Ch(t[i])
    ensures ParamCount(atoms) == 0 && Render(atoms, []) == t
  {
    if atoms != [] {
      LiteralRenders(atoms[1..], t[1..]);
    }
  }
}
