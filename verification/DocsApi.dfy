/** The loops of the merge and of the docs endpoint, proved against the merge functions. */
module DocsApi {
  import opened Sequences
  import opened Json
  import opened MergeOpenApi

  function RewriteRefs(j: Json, oldPrefix: string, newPrefix: string): Json {
    MapRefs(j, r => Str(Moved(r, oldPrefix, newPrefix)))
  }

  function Moved(r: string, oldPrefix: string, newPrefix: string): string {
    if oldPrefix <= r then newPrefix + r[|oldPrefix|..] else r
  }

  /** Moving references to a new prefix can be undone exactly when no reference that stayed already
      had the new prefix. */
  lemma RewriteCanBeUndone(j: Json, a: string, b: string)
    ensures RewriteRefs(RewriteRefs(j, a, b), b, a) == j <==> forall r :: HasRef(j, r) && b <= r ==> a <= r
  {
    var there, back := r => Moved(r, a, b), r => Str(Moved(r, b, a));
    var both := r => back(there(r));
    RenameThenMap(j, there, back);
    MapRefsSame(j, r => Str(there(r)), r => Str(Moved(r, a, b)));
    MapRefsSame(j, both, r => back(there(r)));
    MapRefsAgree(j, both, r => Str(r));
    MapRefsIdentity(j);
    forall r
      ensures both(r) == Str(r) <==> (b <= r ==> a <= r)
    {
      if a <= r {
        assert (b + r[|a|..])[|b|..] == r[|a|..];
        assert a + r[|a|..] == r;
      } else if b <= r {
        assert a <= Moved(r, b, a);
      }
    }
  }

  /** OpenAPI 3.0.3, section 4.7.7, fixes the section names; none holds a slash. */
  ghost predicate PlainSections(components: map<string, Json>) {
    forall s :: s in components ==> '/' !in s
  }

  /** The reference names a component of one of the sections done so far. */
  ghost predicate Listed(components: map<string, Json>, todo: set<string>, r: string) {
    ParseRef(r).Some? && ParseRef(r).value.0 !in todo && Resolve(components, r).Some?
  }

  ghost predicate IsRefMap(
    refMap: map<string, string>, components: map<string, Json>, prefix: string, todo: set<string>)
  {
    && (forall r :: r in refMap <==> Listed(components, todo, r))
    && (forall r :: r in refMap ==> refMap[r] == Renamed(components, prefix, r))
  }

  /** The renamed sections, and the map from old references to new ones. */
  method PrefixComponents(components: map<string, Json>, prefix: string)
    returns (prefixed: map<string, Json>, refMap: map<string, string>)
    requires PlainSections(components)
    ensures prefixed == Prefixed(components, prefix)
    ensures forall r :: r in refMap <==> Resolve(components, r).Some?
    ensures forall r :: r in refMap ==> refMap[r] == Renamed(components, prefix, r)
  {
    prefixed, refMap := map[], map[];
    var todo := components.Keys;
    while todo != {}
      invariant todo <= components.Keys
      invariant prefixed.Keys == Prefixed(components, prefix).Keys - todo
      invariant forall s :: s in prefixed ==> prefixed[s] == Prefixed(components, prefix)[s]
      invariant IsRefMap(refMap, components, prefix, todo)
    {
      var section :| section in todo;
      prefixed, refMap := AddSection(components, prefix, section, todo, prefixed, refMap);
      todo := todo - {section};
    }
    assert prefixed == Prefixed(components, prefix);
    assert forall r :: Resolve(components, r).Some? <==> Listed(components, todo, r);
  }

  /** One turn of the outer loop; a section that is not an object is left out. */
  method AddSection(components: map<string, Json>, prefix: string, section: string, ghost todo: set<string>,
                    prefixed: map<string, Json>, refMap: map<string, string>)
    returns (prefixed': map<string, Json>, refMap': map<string, string>)
    requires section in todo && section in components && '/' !in section
    requires IsRefMap(refMap, components, prefix, todo)
    ensures prefixed' == if components[section].Obj?
                         then prefixed[section := Obj(PrefixNames(components[section].fields, prefix))] else prefixed
    ensures IsRefMap(refMap', components, prefix, todo - {section})
  {
    if components[section].Obj? {
      var names, more := PrefixSection(section, components[section].fields, prefix);
      prefixed' := prefixed[section := Obj(names)];
      refMap' := refMap + more;
    } else {
      prefixed', refMap' := prefixed, refMap;
      assert forall r :: Listed(components, todo - {section}, r) <==> Listed(components, todo, r);
    }
  }

  /** One section's contribution to the reference map. */
  ghost predicate IsSectionMap(
    more: map<string, string>, section: string, fields: map<string, Json>, prefix: string, todo: set<string>)
  {
    && (forall r :: r in more <==> ParseRef(r).Some? && ParseRef(r).value.0 == section &&
                                   ParseRef(r).value.1 in fields && ParseRef(r).value.1 !in todo)
    && (forall r :: r in more ==> more[r] == RefOf(section, Named(prefix, ParseRef(r).value.1)))
  }

  /** The inner loop over the names of one section. */
  method PrefixSection(section: string, fields: map<string, Json>, prefix: string)
    returns (names: map<string, Json>, more: map<string, string>)
    requires '/' !in section
    ensures names == PrefixNames(fields, prefix)
    ensures IsSectionMap(more, section, fields, prefix, {})
  {
    names, more := map[], map[];
    var todo := fields.Keys;
    while todo != {}
      invariant todo <= fields.Keys
      invariant forall n :: n in names <==> n in PrefixNames(fields, prefix) && Unprefixed(prefix, n).value !in todo
      invariant forall n :: n in names ==> names[n] == PrefixNames(fields, prefix)[n]
      invariant IsSectionMap(more, section, fields, prefix, todo)
    {
      var name :| name in todo;
      todo := todo - {name};
      var newName := Named(prefix, name);
      UnprefixedNamed(prefix, name);
      PrefixNamesAt(fields, prefix, newName);
      NamedOnce(prefix, name);
      names := names[newName := fields[name]];
      ParseRefOf(section, name);
      RefOnce(section, name);
      more := more[RefOf(section, name) := RefOf(section, newName)];
    }
    assert names == PrefixNames(fields, prefix);
  }

  lemma NamedOnce(prefix: string, name: string)
    ensures forall n :: Unprefixed(prefix, n) == Some(name) <==> n == Named(prefix, name)
  {
  }

  lemma RefOnce(section: string, name: string)
    requires '/' !in section
    ensures forall r :: ParseRef(r) == Some((section, name)) <==> r == RefOf(section, name)
  {
    ParseRefOf(section, name);
    forall r | ParseRef(r) == Some((section, name)) { ParsedIsRefOf(r); }
  }

  // ---------------------------------------------------------------- the merge

  function ApplyRefMap(j: Json, refMap: map<string, string>): Json {
    MapRefs(j, r => Str(if r in refMap then refMap[r] else r))
  }

  lemma AppliedIsRewritten(j: Json, refMap: map<string, string>, components: map<string, Json>, prefix: string)
    requires forall r :: r in refMap <==> Resolve(components, r).Some?
    requires forall r :: r in refMap ==> refMap[r] == Renamed(components, prefix, r)
    ensures ApplyRefMap(j, refMap) == Rewritten(j, components, prefix)
  {
    MapRefsSame(j, r => Str(if r in refMap then refMap[r] else r), r => Str(Renamed(components, prefix, r)));
  }

  /** The whole merge; it fails exactly when a document is not mergeable. */
  method MergeOpenApiSpecs(main: Spec, secondary: Spec, prefix: string) returns (r: Result<Spec, MergeError>)
    requires PlainSections(secondary.components)
    ensures r == Merge(main, secondary, prefix)
  {
    var prefixed, refMap := PrefixComponents(secondary.components, prefix);
    var paths := MergePaths(main.paths, secondary, refMap, prefix);
    var tags := MergeTags(main.tags, secondary, refMap, prefix);
    if tags.Failure? {
      return Failure(Raised);
    }
    var components := MergeSections(main.components, prefixed);
    if components.Failure? {
      return Failure(Raised);
    }
    r := Success(Spec(MergedInfo(main.info, secondary.info), paths, tags.value, components.value, main.rest));
  }

  /** A path both documents have stays main's. */
  method MergePaths(main: map<string, Json>, secondary: Spec, refMap: map<string, string>, prefix: string)
    returns (paths: map<string, Json>)
    requires forall r :: r in refMap <==> Resolve(secondary.components, r).Some?
    requires forall r :: r in refMap ==> refMap[r] == Renamed(secondary.components, prefix, r)
    ensures paths == MergedPaths(main, secondary, prefix)
  {
    paths := main;
    var todo := secondary.paths.Keys;
    while todo != {}
      invariant todo <= secondary.paths.Keys
      invariant paths.Keys == main.Keys + (secondary.paths.Keys - todo)
      invariant forall k :: k in paths ==> paths[k] == MergedPaths(main, secondary, prefix)[k]
    {
      var k :| k in todo;
      todo := todo - {k};
      if k !in main {
        AppliedIsRewritten(secondary.paths[k], refMap, secondary.components, prefix);
        paths := paths[k := ApplyRefMap(secondary.paths[k], refMap)];
      }
    }
    assert paths == MergedPaths(main, secondary, prefix);
  }

  lemma RewrittenTag(tag: Json, components: map<string, Json>, prefix: string)
    ensures Rewritten(tag, components, prefix).Obj? == tag.Obj?
    ensures tag.Obj? ==> ("name" in Rewritten(tag, components, prefix).fields <==> "name" in tag.fields)
    ensures tag.Obj? ==> (Hashable(TagName(Rewritten(tag, components, prefix))) <==> Hashable(TagName(tag)))
    ensures tag.Obj? && Hashable(TagName(tag)) ==> TagName(Rewritten(tag, components, prefix)) == TagName(tag)
  {
    assert "name"[0] == 'n' && "$ref"[0] == '$';
    if tag.Obj? && "name" in tag.fields {
      var f := r => Str(Renamed(components, prefix, r));
      assert MapField("name", tag.fields["name"], f) == MapRefs(tag.fields["name"], f);
    }
  }

  lemma {:induction false} NewTagsAppend(tags: seq<Json>, t: Json, known: set<Json>)
    ensures NewTags(tags + [t], known) == NewTags(tags, known) + (if t.Obj? && TagName(t) !in known then [t] else [])
  {
    if tags == [] {
      assert (tags + [t])[1..] == [];
    } else {
      assert (tags + [t])[1..] == tags[1..] + [t];
      NewTagsAppend(tags[1..], t, known);
    }
  }

  /** The names of main's tags, or the exception of the first tag that has none. */
  method KnownNames(tags: seq<Json>) returns (names: Option<set<Json>>)
    ensures names == if forall t :: t in tags ==> UsableTag(t, true) then Some(TagNames(tags)) else None
  {
    var known: set<Json> := {};
    var i := 0;
    while i < |tags|
      invariant 0 <= i <= |tags|
      invariant known == TagNames(tags[..i])
      invariant forall t :: t in tags[..i] ==> UsableTag(t, true)
    {
      if !UsableTag(tags[i], true) {
        return None;
      }
      assert tags[..i + 1] == tags[..i] + [tags[i]];
      if tags[i].Obj? {
        known := known + {TagName(tags[i])};
      }
      i := i + 1;
    }
    assert tags[..i] == tags;
    names := Some(known);
  }

  /** Main's tags, then the secondary's whose name main does not use. */
  method MergeTags(main: seq<Json>, secondary: Spec, refMap: map<string, string>, prefix: string)
    returns (r: Result<seq<Json>, MergeError>)
    requires forall r :: r in refMap <==> Resolve(secondary.components, r).Some?
    requires forall r :: r in refMap ==> refMap[r] == Renamed(secondary.components, prefix, r)
    ensures var all := RewrittenAll(secondary.tags, secondary.components, prefix);
            r == if && (forall t :: t in main ==> UsableTag(t, true))
                    && (forall t :: t in secondary.tags ==> UsableTag(t, false))
                 then Success(main + NewTags(all, TagNames(main)))
                 else Failure(Raised)
  {
    var known := KnownNames(main);
    if known.None? {
      return Failure(Raised);
    }
    var all := RewrittenAll(secondary.tags, secondary.components, prefix);
    var tags := main;
    var i := 0;
    while i < |secondary.tags|
      invariant 0 <= i <= |secondary.tags|
      invariant forall t :: t in secondary.tags[..i] ==> UsableTag(t, false)
      invariant tags == main + NewTags(all[..i], known.value)
    {
      AppliedIsRewritten(secondary.tags[i], refMap, secondary.components, prefix);
      RewrittenTag(secondary.tags[i], secondary.components, prefix);
      var tag := ApplyRefMap(secondary.tags[i], refMap);
      if !UsableTag(tag, false) {
        assert secondary.tags[i] in secondary.tags;
        return Failure(Raised);
      }
      assert all[..i + 1] == all[..i] + [tag];
      NewTagsAppend(all[..i], tag, known.value);
      if tag.Obj? && TagName(tag) !in known.value {
        tags := tags + [tag];
      }
      i := i + 1;
    }
    assert all[..i] == all && secondary.tags[..i] == secondary.tags;
    r := Success(tags);
  }

  lemma AllMerged(merged: map<string, Json>, main: map<string, Json>, prefixed: map<string, Json>)
    requires PartlyMerged(merged, main, prefixed, {})
    ensures merged == MergedComponents(main, prefixed)
  {
  }

  /** The loop over the renamed sections. */
  method MergeSections(main: map<string, Json>, prefixed: map<string, Json>)
    returns (r: Result<map<string, Json>, MergeError>)
    requires forall s :: s in prefixed ==> prefixed[s].Obj?
    ensures r == if forall s :: s in prefixed && s in main ==> main[s].Obj?
                 then Success(MergedComponents(main, prefixed)) else Failure(Raised)
  {
    var merged := main;
    var todo := prefixed.Keys;
    while todo != {}
      invariant todo <= prefixed.Keys
      invariant forall s :: s in prefixed && s !in todo && s in main ==> main[s].Obj?
      invariant PartlyMerged(merged, main, prefixed, todo)
    {
      var s :| s in todo;
      todo := todo - {s};
      if s in merged && !merged[s].Obj? {
        return Failure(Raised);
      }
      merged := merged[s := Obj(FieldsOf(merged, s) + prefixed[s].fields)];
    }
    AllMerged(merged, main, prefixed);
    r := Success(merged);
  }

  /** The sections outside `todo` have been added. */
  ghost predicate PartlyMerged(
    merged: map<string, Json>, main: map<string, Json>, prefixed: map<string, Json>, todo: set<string>)
  {
    && merged.Keys == main.Keys + (prefixed.Keys - todo)
    && forall s :: s in merged ==>
         merged[s] == if s in prefixed && s !in todo then MergedComponents(main, prefixed)[s] else main[s]
  }

  // ---------------------------------------------------------------- the endpoint

  /** `unreachable` names the secondaries that did not answer. */
  datatype Response = BadGateway | ServerError | Document(spec: Spec, unreachable: seq<string>)

  /** The secondaries that answered, in order. */
  function Reached(secondaries: seq<(string, Option<Spec>)>): seq<(string, Spec)> {
    if secondaries == [] then [] else
    var (prefix, spec) := secondaries[|secondaries| - 1];
    Reached(secondaries[..|secondaries| - 1]) + (if spec.Some? then [(prefix, spec.value)] else [])
  }

  function Unreached(secondaries: seq<(string, Option<Spec>)>): seq<string> {
    if secondaries == [] then [] else
    var (prefix, spec) := secondaries[|secondaries| - 1];
    Unreached(secondaries[..|secondaries| - 1]) + (if spec.Some? then [] else [prefix])
  }

  /** What the endpoint answers. */
  function Answer(main: Option<Spec>, secondaries: seq<(string, Option<Spec>)>): Response {
    if main.None? then BadGateway else
    match MergeAll(main.value, Reached(secondaries))
    case Failure(_) => ServerError
    case Success(spec) => Document(spec, Unreached(secondaries))
  }

  lemma ReachedNext(secondaries: seq<(string, Option<Spec>)>, i: nat)
    requires i < |secondaries|
    ensures var (prefix, spec) := secondaries[i];
            && Reached(secondaries[..i + 1]) ==
               (if spec.Some? then Reached(secondaries[..i]) + [(prefix, spec.value)] else Reached(secondaries[..i]))
            && Unreached(secondaries[..i + 1]) ==
               (if spec.Some? then Unreached(secondaries[..i]) else Unreached(secondaries[..i]) + [prefix])
  {
    assert secondaries[..i + 1][..i] == secondaries[..i];
    assert Reached(secondaries[..i]) + [] == Reached(secondaries[..i]);
  }

  /** A failed merge is not repaired by later secondaries. */
  lemma {:induction false} FailureStays(main: Spec, secondaries: seq<(string, Option<Spec>)>, i: nat)
    requires i <= |secondaries| && MergeAll(main, Reached(secondaries[..i])).Failure?
    ensures MergeAll(main, Reached(secondaries)).Failure?
    decreases |secondaries|
  {
    var n := |secondaries| - 1;
    if i <= n {
      assert secondaries[..n][..i] == secondaries[..i];
      FailureStays(main, secondaries[..n], i);
      ReachedNext(secondaries, n);
      assert secondaries[..n + 1] == secondaries;
    } else {
      assert secondaries[..i] == secondaries;
    }
  }

  method MergedOpenApiResponse(main: Option<Spec>, secondaries: seq<(string, Option<Spec>)>)
    returns (response: Response)
    requires forall i :: 0 <= i < |secondaries| && secondaries[i].1.Some? ==>
               PlainSections(secondaries[i].1.value.components)
    ensures response == Answer(main, secondaries)
  {
    if main.None? {
      return BadGateway;
    }
    var merged := main.value;
    var unreachable := [];
    var i := 0;
    while i < |secondaries|
      invariant 0 <= i <= |secondaries|
      invariant MergeAll(main.value, Reached(secondaries[..i])) == Success(merged)
      invariant unreachable == Unreached(secondaries[..i])
    {
      ReachedNext(secondaries, i);
      var (prefix, spec) := secondaries[i];
      if spec.None? {
        unreachable := unreachable + [prefix];
      } else {
        var r := MergeOpenApiSpecs(merged, spec.value, prefix);
        if r.Failure? {
          FailureStays(main.value, secondaries, i + 1);
          return ServerError;
        }
        merged := r.value;
      }
      i := i + 1;
    }
    assert secondaries[..i] == secondaries;
    response := Document(merged, unreachable);
  }

  /** Every secondary is either merged, with what it answered, or named as unreachable. */
  lemma {:induction false} EachIsMergedOrNamed(secondaries: seq<(string, Option<Spec>)>)
    ensures forall p, s :: (p, s) in Reached(secondaries) <==> (p, Some(s)) in secondaries
    ensures forall p :: p in Unreached(secondaries) <==> (p, None) in secondaries
    ensures |Reached(secondaries)| + |Unreached(secondaries)| == |secondaries|
  {
    if secondaries != [] {
      var front, last := secondaries[..|secondaries| - 1], secondaries[|secondaries| - 1];
      EachIsMergedOrNamed(front);
      assert secondaries == front + [last];
      forall p, s
        ensures (p, s) in Reached(secondaries) <==> (p, Some(s)) in secondaries
      {
        assert (p, s) in Reached(secondaries) <==> (p, s) in Reached(front) || last == (p, Some(s));
        assert (p, Some(s)) in secondaries <==> (p, Some(s)) in front || last == (p, Some(s));
      }
      forall p
        ensures p in Unreached(secondaries) <==> (p, None) in secondaries
      {
        assert p in Unreached(secondaries) <==> p in Unreached(front) || last == (p, None);
        assert (p, None) in secondaries <==> (p, None) in front || last == (p, None);
      }
    }
  }

  /** The endpoint answers 502 exactly when main did not answer, and 500 exactly when a merge raises. */
  lemma AnswerIs(main: Option<Spec>, secondaries: seq<(string, Option<Spec>)>)
    ensures Answer(main, secondaries) == BadGateway <==> main.None?
    ensures Answer(main, secondaries) == ServerError <==>
      main.Some? && MergeAll(main.value, Reached(secondaries)).Failure?
    ensures main.Some? && MergeAll(main.value, Reached(secondaries)).Success? ==>
      Answer(main, secondaries) ==
        Document(MergeAll(main.value, Reached(secondaries)).value, Unreached(secondaries))
  {
  }
}
