/** The two ways a template is compiled, the order of the replaced routes, and their successor links. */
module Deprecations {
  import opened Sequences
  import opened Text
  import opened TextOrder
  import opened Sorting
  import opened Routes
  import opened Percent

  // ---------------------------------------------------------------- two compilers

  /** Some parameter group starts with a colon, such as `{:int}`. */
  predicate HasColonGroup(t: string)
    decreases |t|
  {
    if t == "" then false else
    match ParamEnd(t, false)
    case Some(end) => t[1] == ':' || HasColonGroup(t[end..])
    case None => HasColonGroup(t[1..])
  }

  ghost predicate SameLanguage(a: seq<Atom>, b: seq<Atom>) {
    forall s :: Match(a, s).Some? <==> Match(b, s).Some?
  }

  lemma {:induction false} SameAtoms(t: string)
    requires !HasColonGroup(t)
    ensures Atoms(t, true) == Atoms(t, false)
    decreases |t|
  {
    if t != "" {
      match ParamEnd(t, false)
      case Some(end) => SameAtoms(t[end..]);
      case None => SameAtoms(t[1..]);
    }
  }

  function Braces(atoms: seq<Atom>): nat {
    if atoms == [] then 0 else (if atoms[0] == Ch('{') then 1 else 0) + Braces(atoms[1..])
  }

  function BracesIn(s: string): nat {
    if s == "" then 0 else (if s[0] == '{' then 1 else 0) + BracesIn(s[1..])
  }

  lemma {:induction false} BracesInAppend(a: string, b: string)
    ensures BracesIn(a + b) == BracesIn(a) + BracesIn(b)
  {
    if a == "" {
      assert a + b == b;
    } else {
      assert (a + b)[1..] == a[1..] + b;
      BracesInAppend(a[1..], b);
    }
  }

  /** Past the closing brace of a group the naming pattern is in step again. */
  lemma {:induction false} BracesToClosing(t: string, j: nat)
    requires j < |t| && IndexOf(t, '}') == j
    ensures Braces(Atoms(t, true)) >= Braces(Atoms(t[j + 1..], true))
    decreases |t|
  {
    if ParamEnd(t, true).None? && j > 0 {
      assert IndexOf(t[1..], '}') == j - 1;
      assert t[1..][j..] == t[j + 1..];
      BracesToClosing(t[1..], j - 1);
      AtomsTail(t);
    } else if ParamEnd(t, true).None? {
      AtomsTail(t);
    } else {
      assert Atoms(t, true)[1..] == Atoms(t[j + 1..], true);
    }
  }

  lemma AtomsTail(t: string)
    requires t != "" && ParamEnd(t, true).None?
    ensures Atoms(t, true)[0] == Ch(t[0]) && Atoms(t, true)[1..] == Atoms(t[1..], true)
  {
  }

  lemma AtColonGroup(t: string)
    requires ParamEnd(t, false).Some? && t[1] == ':'
    ensures Braces(Atoms(t, true)) >= 1 + Braces(Atoms(t[ParamEnd(t, false).value..], true))
  {
    InsideGroup(t);
  }

  lemma InsideGroup(t: string)
    requires ParamEnd(t, false).Some?
    ensures Braces(Atoms(t[1..], true)) >= Braces(Atoms(t[ParamEnd(t, false).value..], true))
  {
    BracesToClosing(t[1..], ParamEnd(t, false).value - 2);
  }

  /** The naming pattern leaves at least as many braces as text, and more at a colon group. */
  lemma {:induction false} ColonGroupLeavesBrace(t: string)
    ensures Braces(Atoms(t, true)) >= Braces(Atoms(t, false)) + (if HasColonGroup(t) then 1 else 0)
    decreases |t|
  {
    if t != "" {
      match ParamEnd(t, false)
      case Some(end) =>
        ColonGroupLeavesBrace(t[end..]);
        assert Atoms(t, false)[1..] == Atoms(t[end..], false);
        if t[1] == ':' {
          AtColonGroup(t);
        } else {
          assert Atoms(t, true)[1..] == Atoms(t[end..], true);
        }
      case None =>
        ColonGroupLeavesBrace(t[1..]);
        AtomsTail(t);
        assert Atoms(t, false)[1..] == Atoms(t[1..], false);
    }
  }

  function Same(n: nat): seq<string> {
    seq(n, _ => "x")
  }

  lemma {:induction false} RenderBraces(atoms: seq<Atom>, ids: seq<string>)
    requires |ids| == ParamCount(atoms)
    ensures BracesIn(Render(atoms, ids)) >= Braces(atoms)
    ensures ids == Same(|ids|) ==> BracesIn(Render(atoms, ids)) == Braces(atoms)
  {
    if atoms != [] {
      if atoms[0].Ch? {
        RenderBraces(atoms[1..], ids);
      } else {
        RenderBraces(atoms[1..], ids[1..]);
        BracesInAppend(ids[0], Render(atoms[1..], ids[1..]));
      }
    }
  }

  /** The path with "x" for every id is matched by one of the two and not by the other. */
  lemma ColonGroupSeparates(t: string)
    requires HasColonGroup(t)
    ensures !SameLanguage(Atoms(t, false), Atoms(t, true))
  {
    var plain, named := Atoms(t, false), Atoms(t, true);
    var ids := Same(ParamCount(plain));
    var s := Render(plain, ids);
    RenderBraces(plain, ids);
    ColonGroupLeavesBrace(t);
    assert s + "" == s;
    assert Renders(plain, ids, "", s);
    MatchIsComplete(plain, ids, "", s);
    if Match(named, s).Some? {
      var tail := MatchIsSound(named, s);
      RenderBraces(named, Match(named, s).value);
      BracesInAppend(Render(named, Match(named, s).value), tail);
    }
  }

  /** The plain and the naming compiler accept the same paths exactly when no group starts with a colon. */
  lemma CompilersAgreeIff(t: string)
    ensures SameLanguage(Atoms(t, false), Atoms(t, true)) <==> !HasColonGroup(t)
  {
    if HasColonGroup(t) {
      ColonGroupSeparates(t);
    } else {
      SameAtoms(t);
    }
  }

  // ---------------------------------------------------------------- the table of replaced routes

  /** `successor` is a method, a space and a path template. */
  datatype Matcher = Matcher(httpMethod: string, template: string, successor: string, pattern: seq<Atom>)

  /** By method, then literal templates first, then by template. */
  predicate KeyLeq(a: Matcher, b: Matcher) {
    if a.httpMethod != b.httpMethod then TextLeq(a.httpMethod, b.httpMethod)
    else if ('{' in a.template) != ('{' in b.template) then '{' in b.template
    else TextLeq(a.template, b.template)
  }

  lemma KeyLeqIsOrder()
    ensures TotalPreorder(KeyLeq)
  {
    forall a, b
      ensures KeyLeq(a, b) || KeyLeq(b, a)
    {
      TextLeqTotal(a.httpMethod, b.httpMethod);
      TextLeqTotal(a.template, b.template);
    }
    forall a, b, c | KeyLeq(a, b) && KeyLeq(b, c)
      ensures KeyLeq(a, c)
    {
      KeyLeqTransitive(a, b, c);
    }
  }

  lemma KeyLeqTransitive(a: Matcher, b: Matcher, c: Matcher)
    requires KeyLeq(a, b) && KeyLeq(b, c)
    ensures KeyLeq(a, c)
  {
    if a.httpMethod == b.httpMethod == c.httpMethod {
      if TextLeq(a.template, b.template) && TextLeq(b.template, c.template) {
        TextLeqTransitive(a.template, b.template, c.template);
      }
    } else {
      TextLeqTotal(a.httpMethod, b.httpMethod);
      TextLeqTotal(b.httpMethod, c.httpMethod);
      if TextLeq(a.httpMethod, b.httpMethod) && TextLeq(b.httpMethod, c.httpMethod) {
        TextLeqTransitive(a.httpMethod, b.httpMethod, c.httpMethod);
      }
    }
  }

  /** One matcher per entry of the table. */
  function Table(routes: seq<(string, string, string)>): seq<Matcher> {
    seq(|routes|, i requires 0 <= i < |routes| =>
      Matcher(routes[i].0, routes[i].1, routes[i].2, Atoms(routes[i].1, true)))
  }

  /** The order in which they are tried. */
  function Matchers(routes: seq<(string, string, string)>): seq<Matcher> {
    Sort(Table(routes), KeyLeq)
  }

  predicate Hits(m: Matcher, httpMethod: string, path: string) {
    m.httpMethod == httpMethod && Match(m.pattern, path).Some?
  }

  /** The position of the first matcher that is hit, or the length. */
  function FirstHit(matchers: seq<Matcher>, httpMethod: string, path: string): (i: nat)
    ensures i <= |matchers|
    ensures i < |matchers| ==> Hits(matchers[i], httpMethod, path)
    ensures forall j :: 0 <= j < i ==> !Hits(matchers[j], httpMethod, path)
  {
    if matchers == [] || Hits(matchers[0], httpMethod, path) then 0
    else 1 + FirstHit(matchers[1..], httpMethod, path)
  }

  /** What follows the method in a successor. */
  function SuccessorPath(successor: string): string
    requires ' ' in successor
  {
    var i := IndexOf(successor, ' ');
    assert successor[..|successor|] == successor;
    successor[i + 1..]
  }

  /** The successor's path with this request's ids by position; a missing id is empty. */
  function Link(atoms: seq<Atom>, ids: seq<string>): string {
    if atoms == [] then ""
    else if atoms[0].Ch? then [atoms[0].c] + Link(atoms[1..], ids)
    else if ids == [] then Link(atoms[1..], [])
    else Quote(ids[0]) + Link(atoms[1..], ids[1..])
  }

  /** The lookup: template, successor and link of the first matcher that is hit. */
  method ReplacedRoute(matchers: seq<Matcher>, httpMethod: string, path: string)
    returns (r: Option<(string, string, string)>)
    requires forall i :: 0 <= i < |matchers| ==> ' ' in matchers[i].successor
    ensures var i := FirstHit(matchers, Upper(httpMethod), path);
            r == if i == |matchers| then None
                 else Some((matchers[i].template, matchers[i].successor,
                            Link(Atoms(SuccessorPath(matchers[i].successor), true),
                                 Match(matchers[i].pattern, path).value)))
  {
    var m := Upper(httpMethod);
    var i := 0;
    while i < |matchers|
      invariant 0 <= i <= |matchers|
      invariant FirstHit(matchers, m, path) == i + FirstHit(matchers[i..], m, path)
    {
      if matchers[i].httpMethod == m {
        var hit := Match(matchers[i].pattern, path);
        if hit.Some? {
          var successorPath := SuccessorPath(matchers[i].successor);
          return Some((matchers[i].template, matchers[i].successor, Link(Atoms(successorPath, true), hit.value)));
        }
      }
      assert matchers[i..][1..] == matchers[i + 1..];
      i := i + 1;
    }
    r := None;
  }

  /** A matching literal template beats a parameterised one: when the first hit has a brace in its
      template, no literal template of that method matches the path. */
  lemma LiteralBeatsParameterised(routes: seq<(string, string, string)>, httpMethod: string, path: string)
    ensures var matchers := Matchers(routes);
            var i := FirstHit(matchers, httpMethod, path);
            i < |matchers| && '{' in matchers[i].template ==>
              forall m :: m in matchers && Hits(m, httpMethod, path) ==> '{' in m.template
  {
    KeyLeqIsOrder();
    SortSorts(Table(routes), KeyLeq);
    var matchers := Matchers(routes);
    var i := FirstHit(matchers, httpMethod, path);
    if i < |matchers| && '{' in matchers[i].template {
      forall j | 0 <= j < |matchers| && Hits(matchers[j], httpMethod, path)
        ensures '{' in matchers[j].template
      {
        assert i <= j;
        assert i < j ==> KeyLeq(matchers[i], matchers[j]);
      }
    }
  }

  // ---------------------------------------------------------------- the successor link

  function Quoted(ids: seq<string>): seq<string> {
    seq(|ids|, i requires 0 <= i < |ids| => Quote(ids[i]))
  }

  predicate NoNewline(atoms: seq<Atom>) {
    forall i :: 0 <= i < |atoms| ==> atoms[i] != Ch('\n')
  }

  lemma {:induction false} LinkHasNoNewline(atoms: seq<Atom>, ids: seq<string>)
    requires NoNewline(atoms)
    ensures '\n' !in Link(atoms, ids)
  {
    if atoms != [] {
      if atoms[0].Ch? {
        LinkHasNoNewline(atoms[1..], ids);
      } else if ids == [] {
        LinkHasNoNewline(atoms[1..], []);
      } else {
        LinkHasNoNewline(atoms[1..], ids[1..]);
        QuoteIsOneSegment(ids[0]);
      }
    }
  }

  /** With enough ids the link is the rendering of the quoted ids. */
  lemma {:induction false} LinkIsRendering(atoms: seq<Atom>, ids: seq<string>)
    requires ParamCount(atoms) <= |ids|
    ensures var n := ParamCount(atoms); Link(atoms, ids) == Render(atoms, Quoted(ids[..n]))
  {
    if atoms != [] {
      if atoms[0].Ch? {
        LinkIsRendering(atoms[1..], ids);
      } else {
        var n := ParamCount(atoms);
        LinkIsRendering(atoms[1..], ids[1..]);
        assert ids[1..][..n - 1] == ids[..n][1..];
        assert Quoted(ids[..n])[1..] == Quoted(ids[..n][1..]);
      }
    }
  }

  /** With too few ids some segment of the link is empty, and the successor does not match it. */
  lemma {:induction false} MissingIdHasNoRendering(atoms: seq<Atom>, ids: seq<string>, ids': seq<string>, tail: string)
    requires SegmentsAfter(atoms) && NoNewline(atoms) && |ids| < ParamCount(atoms)
    requires forall i :: 0 <= i < |ids| ==> ids[i] != ""
    ensures !Renders(atoms, ids', tail, Link(atoms, ids))
    decreases |atoms|
  {
    var s := Link(atoms, ids);
    LinkHasNoNewline(atoms, ids);
    if Renders(atoms, ids', tail, s) {
      if atoms[0].Ch? {
        assert s[1..] == Link(atoms[1..], ids) == Render(atoms[1..], ids') + tail;
        MissingIdHasNoRendering(atoms[1..], ids, ids', tail);
      } else {
        IdIsFirstSegment(atoms, ids', tail, s);
        if ids == [] {
          EmptySegment(atoms);
        } else {
          QuotedSegment(atoms, ids);
          MissingIdHasNoRendering(atoms[1..], ids[1..], ids'[1..], tail);
        }
      }
    }
  }

  lemma EmptySegment(atoms: seq<Atom>)
    requires SegmentsAfter(atoms) && atoms != [] && atoms[0].Param?
    ensures IndexOf(Link(atoms, []), '/') == 0
  {
  }

  lemma QuotedSegment(atoms: seq<Atom>, ids: seq<string>)
    requires SegmentsAfter(atoms) && atoms != [] && atoms[0].Param? && ids != []
    ensures var s, q := Link(atoms, ids), Quote(ids[0]);
            IndexOf(s, '/') == |q| && s[|q|..] == Link(atoms[1..], ids[1..])
  {
    var q, t := Quote(ids[0]), Link(atoms[1..], ids[1..]);
    QuoteIsOneSegment(ids[0]);
    if |atoms| > 1 {
      assert atoms[1..][0] == Ch('/');
      assert t[0] == '/';
    }
    SegmentThen(q, t);
  }

  lemma SegmentThen(q: string, t: string)
    requires '/' !in q && (t != "" ==> t[0] == '/')
    ensures IndexOf(q + t, '/') == |q| && (q + t)[|q|..] == t
  {
  }

  /** The link matches the successor exactly when the successor has no more parameters than the request
      had ids; the captures then decode to those ids, in order. */
  lemma LinkMatchesSuccessorIff(atoms: seq<Atom>, ids: seq<string>)
    requires SegmentsAfter(atoms) && NoNewline(atoms)
    requires forall i :: 0 <= i < |ids| ==> IsId(ids[i])
    ensures Match(atoms, Link(atoms, ids)).Some? <==> ParamCount(atoms) <= |ids|
    ensures ParamCount(atoms) <= |ids| ==>
              var captured := Match(atoms, Link(atoms, ids)).value;
              && |captured| == ParamCount(atoms)
              && forall i :: 0 <= i < |captured| ==> Unquote(captured[i]) == Some(ids[i])
  {
    var n, s := ParamCount(atoms), Link(atoms, ids);
    LinkHasNoNewline(atoms, ids);
    if n <= |ids| {
      var quoted := Quoted(ids[..n]);
      LinkIsRendering(atoms, ids);
      forall i | 0 <= i < n
        ensures IsId(quoted[i]) && Unquote(quoted[i]) == Some(ids[i])
      {
        QuoteIsOneSegment(ids[i]);
        QuoteRoundTrip(ids[i]);
      }
      assert s == s + "";
      assert Renders(atoms, quoted, "", s);
      CapturesAreTheIds(atoms, quoted, "", s);
    } else if Match(atoms, s).Some? {
      var tail := MatchIsSound(atoms, s);
      MissingIdHasNoRendering(atoms, ids, Match(atoms, s).value, tail);
    }
  }

  /** The whole lookup: the request's path is the hit template's rendering with its captured ids, and the link it
      answers with matches the successor exactly when that has no more parameters than the template, and decodes
      to those ids. */
  lemma AnswerLeadsToSuccessorIff(matchers: seq<Matcher>, httpMethod: string, path: string) returns (tail: string)
    requires FirstHit(matchers, httpMethod, path) < |matchers|
    requires var m := matchers[FirstHit(matchers, httpMethod, path)];
      ' ' in m.successor && SegmentsAfter(Atoms(SuccessorPath(m.successor), true))
      && NoNewline(Atoms(SuccessorPath(m.successor), true))
    ensures var m := matchers[FirstHit(matchers, httpMethod, path)];
      var ids, next := Match(m.pattern, path).value, Atoms(SuccessorPath(m.successor), true);
      && Renders(m.pattern, ids, tail, path)
      && (Match(next, Link(next, ids)).Some? <==> ParamCount(next) <= ParamCount(m.pattern))
      && (ParamCount(next) <= ParamCount(m.pattern) ==>
            forall i :: 0 <= i < |Match(next, Link(next, ids)).value| ==>
              i < |ids| && Unquote(Match(next, Link(next, ids)).value[i]) == Some(ids[i]))
  {
    var m := matchers[FirstHit(matchers, httpMethod, path)];
    tail := MatchIsSound(m.pattern, path);
    LinkMatchesSuccessorIff(Atoms(SuccessorPath(m.successor), true), Match(m.pattern, path).value);
  }

  /** A successor's path is what follows its method and a blank. */
  lemma SuccessorPathIs(httpMethod: string, path: string)
    requires ' ' !in httpMethod
    ensures SuccessorPath(httpMethod + " " + path) == path
  {
    assert httpMethod + " " + path == httpMethod + [' '] + path;
    IndexOfFirst(httpMethod, ' ', path);
  }
}
