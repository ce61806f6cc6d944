/** Merging OpenAPI documents: a secondary's components are renamed and its references follow. */
module MergeOpenApi {
  import opened Sequences
  import opened Json
  import opened Text

  /** The members of a document that the merge looks at; an absent `paths`, `tags` or `components` is
      empty, and `rest` holds every other member. */
  datatype Spec = Spec(info: map<string, Json>, paths: map<string, Json>, tags: seq<Json>,
                       components: map<string, Json>, rest: map<string, Json>)

  datatype MergeError = Raised

  const REF_ROOT := "#/components/"

  function RefOf(section: string, name: string): string {
    REF_ROOT + section + "/" + name
  }

  /** The section and the name a component reference points at. */
  function ParseRef(r: string): Option<(string, string)> {
    if !(REF_ROOT <= r) then None else
    var tail := r[|REF_ROOT|..];
    var i := IndexOf(tail, '/');
    if i == |tail| then None else Some((tail[..i], tail[i + 1..]))
  }

  lemma ParseRefOf(section: string, name: string)
    requires '/' !in section
    ensures ParseRef(RefOf(section, name)) == Some((section, name))
  {
    var r := RefOf(section, name);
    var tail := section + ['/'] + name;
    assert r == REF_ROOT + tail;
    assert r[|REF_ROOT|..] == tail;
    IndexOfFirst(section, '/', name);
    assert tail[..|section|] == section && tail[|section| + 1..] == name;
  }

  lemma ParsedIsRefOf(r: string)
    requires ParseRef(r).Some?
    ensures r == RefOf(ParseRef(r).value.0, ParseRef(r).value.1) && '/' !in ParseRef(r).value.0
  {
  }

  function ComponentAt(components: map<string, Json>, section: string, name: string): Option<Json> {
    if section in components && components[section].Obj? && name in components[section].fields
    then Some(components[section].fields[name]) else None
  }

  /** The component a reference names, if there is one. */
  function Resolve(components: map<string, Json>, r: string): Option<Json> {
    match ParseRef(r)
    case None => None
    case Some((section, name)) => ComponentAt(components, section, name)
  }

  /** What a reference stands for, one level deep: the body it resolves to, or itself. */
  function Target(components: map<string, Json>, r: string): Json {
    match Resolve(components, r)
    case Some(body) => Arr([body])
    case None => Str(r)
  }

  /** The one-level meaning of a document part: each reference is replaced by its target. */
  function Meaning(j: Json, components: map<string, Json>): Json {
    MapRefs(j, r => Target(components, r))
  }

  // ---------------------------------------------------------------- renaming

  function Named(prefix: string, name: string): string {
    prefix + "_" + name
  }

  function Unprefixed(prefix: string, name: string): Option<string> {
    if prefix + "_" <= name then Some(name[|prefix| + 1..]) else None
  }

  lemma UnprefixedNamed(prefix: string, name: string)
    ensures Unprefixed(prefix, Named(prefix, name)) == Some(name)
  {
  }

  lemma NamedUnprefixed(prefix: string, name: string)
    requires Unprefixed(prefix, name).Some?
    ensures Named(prefix, Unprefixed(prefix, name).value) == name
  {
  }

  lemma PrefixIsDetermined(p: string, q: string, s: string)
    requires '_' !in p && '_' !in q && p + ['_'] <= s && q + ['_'] <= s
    ensures p == q
  {
    IndexOfFirst(p, '_', s[|p| + 1..]);
    IndexOfFirst(q, '_', s[|q| + 1..]);
    assert s == p + ['_'] + s[|p| + 1..] == q + ['_'] + s[|q| + 1..];
    assert p == s[..|p|];
  }

  /** Distinct prefixes without an underscore never produce the same name. */
  lemma PrefixesKeepApart(p: string, q: string, name: string)
    requires '_' !in p && '_' !in q && p != q
    ensures Unprefixed(q, Named(p, name)) == None
  {
    if q + "_" <= Named(p, name) {
      assert p + ['_'] <= Named(p, name);
      PrefixIsDetermined(p, q, Named(p, name));
    }
  }

  /** The section as it appears in the merged document. */
  function PrefixNames(fields: map<string, Json>, prefix: string): map<string, Json> {
    map n | n in (set m | m in fields :: Named(prefix, m)) && Unprefixed(prefix, n).Some? &&
            Unprefixed(prefix, n).value in fields
      :: fields[Unprefixed(prefix, n).value]
  }

  lemma PrefixNamesAt(fields: map<string, Json>, prefix: string, n: string)
    ensures n in PrefixNames(fields, prefix) <==>
            Unprefixed(prefix, n).Some? && Unprefixed(prefix, n).value in fields
  {
    if Unprefixed(prefix, n).Some? && Unprefixed(prefix, n).value in fields {
      NamedUnprefixed(prefix, n);
    }
  }

  function Prefixed(components: map<string, Json>, prefix: string): map<string, Json> {
    map s | s in components && components[s].Obj? :: Obj(PrefixNames(components[s].fields, prefix))
  }

  /** Where a reference of the secondary points after the merge: one that names a component of the
      secondary follows it, any other stays as it is. */
  function Renamed(components: map<string, Json>, prefix: string, r: string): string {
    if Resolve(components, r).None? then r
    else RefOf(ParseRef(r).value.0, Named(prefix, ParseRef(r).value.1))
  }

  function Rewritten(j: Json, components: map<string, Json>, prefix: string): Json {
    MapRefs(j, r => Str(Renamed(components, prefix, r)))
  }

  // ---------------------------------------------------------------- one merge

  predicate Hashable(j: Json) {
    !j.Arr? && !j.Obj?
  }

  function TagName(tag: Json): Json
    requires tag.Obj?
  {
    if "name" in tag.fields then tag.fields["name"] else Null
  }

  function TagNames(tags: seq<Json>): set<Json> {
    set i | 0 <= i < |tags| && tags[i].Obj? :: TagName(tags[i])
  }

  /** The secondary's tag objects whose name is new, in order. */
  function NewTags(tags: seq<Json>, known: set<Json>): seq<Json> {
    if tags == [] then []
    else (if tags[0].Obj? && TagName(tags[0]) !in known then [tags[0]] else []) + NewTags(tags[1..], known)
  }

  function RewrittenAll(tags: seq<Json>, components: map<string, Json>, prefix: string): seq<Json> {
    seq(|tags|, i requires 0 <= i < |tags| => Rewritten(tags[i], components, prefix))
  }

  function MergedPaths(main: map<string, Json>, sec: Spec, prefix: string): map<string, Json> {
    map k | k in main.Keys + sec.paths.Keys ::
      if k in main then main[k] else Rewritten(sec.paths[k], sec.components, prefix)
  }

  function FieldsOf(components: map<string, Json>, section: string): map<string, Json> {
    if section in components && components[section].Obj? then components[section].fields else map[]
  }

  /** Each renamed section is added to the section of that name, which is created if it is missing. */
  function MergedComponents(main: map<string, Json>, added: map<string, Json>): map<string, Json> {
    map s | s in main.Keys + added.Keys ::
      if s in added then Obj(FieldsOf(main, s) + FieldsOf(added, s)) else main[s]
  }

  function InfoText(info: map<string, Json>, key: string, default: string): string {
    if key in info && info[key].Str? then info[key].s else if key in info then "?" else default
  }

  function MergedInfo(main: map<string, Json>, sec: map<string, Json>): map<string, Json> {
    map["title" := Str("Bifrost API (merged)"),
        "description" := Str(
          "Merged from: " + InfoText(main, "title", "Main") + ", " + InfoText(sec, "title", "Secondary")),
        "version" := if "version" in main then main["version"] else Str("0.1.0")]
  }

  predicate UsableTag(tag: Json, nameRequired: bool) {
    tag.Obj? ==> (nameRequired ==> "name" in tag.fields) && Hashable(TagName(tag))
  }

  /** The merge raises nothing: main's tags have names, names are scalars, and a section that both
      documents have is an object in both. */
  predicate Mergeable(main: Spec, sec: Spec) {
    && (forall t :: t in main.tags ==> UsableTag(t, true))
    && (forall t :: t in sec.tags ==> UsableTag(t, false))
    && (forall s :: s in sec.components && sec.components[s].Obj? && s in main.components ==> main.components[s].Obj?)
  }

  function Merged(main: Spec, sec: Spec, prefix: string): Spec
    requires Mergeable(main, sec)
  {
    Spec(MergedInfo(main.info, sec.info),
         MergedPaths(main.paths, sec, prefix),
         main.tags + NewTags(RewrittenAll(sec.tags, sec.components, prefix), TagNames(main.tags)),
         MergedComponents(main.components, Prefixed(sec.components, prefix)),
         main.rest)
  }

  function Merge(main: Spec, sec: Spec, prefix: string): Result<Spec, MergeError> {
    if Mergeable(main, sec) then Success(Merged(main, sec, prefix)) else Failure(Raised)
  }

  lemma PrefixedComponentAt(components: map<string, Json>, prefix: string, section: string, name: string)
    ensures var own := Unprefixed(prefix, name);
      ComponentAt(Prefixed(components, prefix), section, name) ==
      if own.Some? then ComponentAt(components, section, own.value) else None
  {
    if section in components && components[section].Obj? {
      PrefixNamesAt(components[section].fields, prefix, name);
    }
  }

  /** A component of the merged document is the secondary's under its new name, else the main one. */
  lemma MergedComponentAt(main: Spec, sec: Spec, prefix: string, section: string, name: string)
    requires Mergeable(main, sec)
    ensures ComponentAt(Merged(main, sec, prefix).components, section, name)
            == var own := Unprefixed(prefix, name);
               if own.Some? && ComponentAt(sec.components, section, own.value).Some?
               then ComponentAt(sec.components, section, own.value)
               else ComponentAt(main.components, section, name)
  {
    PrefixedComponentAt(sec.components, prefix, section, name);
  }

  // ---------------------------------------------------------------- the fold

  /** Each secondary merged in turn. */
  function MergeAll(main: Spec, secs: seq<(string, Spec)>): Result<Spec, MergeError>
    decreases |secs|
  {
    if secs == [] then Success(main) else
    var n := |secs| - 1;
    match MergeAll(main, secs[..n])
    case Failure(e) => Failure(e)
    case Success(m) => Merge(m, secs[n].1, secs[n].0)
  }

  /** What the secondaries put at a place of the merged components: the last one counts. */
  function Contributed(secs: seq<(string, Spec)>, section: string, name: string): Option<Json>
    decreases |secs|
  {
    if secs == [] then None else
    var (prefix, sec) := secs[|secs| - 1];
    var own := Unprefixed(prefix, name);
    if own.Some? && ComponentAt(sec.components, section, own.value).Some?
    then ComponentAt(sec.components, section, own.value)
    else Contributed(secs[..|secs| - 1], section, name)
  }

  lemma {:induction false} FoldComponentAt(main: Spec, secs: seq<(string, Spec)>, section: string, name: string)
    requires MergeAll(main, secs).Success?
    ensures ComponentAt(MergeAll(main, secs).value.components, section, name)
            == var c := Contributed(secs, section, name);
               if c.Some? then c else ComponentAt(main.components, section, name)
    decreases |secs|
  {
    if secs != [] {
      var n := |secs| - 1;
      FoldComponentAt(main, secs[..n], section, name);
      MergedComponentAt(MergeAll(main, secs[..n]).value, secs[n].1, secs[n].0, section, name);
    }
  }

  /** The prefixes come from a dictionary's keys, so they are distinct; here none has an underscore. */
  ghost predicate GoodPrefixes(secs: seq<(string, Spec)>) {
    && (forall i :: 0 <= i < |secs| ==> '_' !in secs[i].0)
    && (forall i, j :: 0 <= i < j < |secs| ==> secs[i].0 != secs[j].0)
  }

  /** No two secondaries' components collide. */
  lemma {:induction false} OwnComponentSurvives(secs: seq<(string, Spec)>, i: nat, section: string, name: string)
    requires GoodPrefixes(secs) && i < |secs| && ComponentAt(secs[i].1.components, section, name).Some?
    ensures Contributed(secs, section, Named(secs[i].0, name)) == ComponentAt(secs[i].1.components, section, name)
    decreases |secs|
  {
    var n := |secs| - 1;
    if i == n {
      UnprefixedNamed(secs[i].0, name);
    } else {
      PrefixesKeepApart(secs[i].0, secs[n].0, name);
      OwnComponentSurvives(secs[..n], i, section, name);
    }
  }

  /** After the whole fold a secondary's reference to one of its components resolves to that very body. */
  lemma OwnReferenceResolves(main: Spec, secs: seq<(string, Spec)>, i: nat, r: string)
    requires MergeAll(main, secs).Success? && GoodPrefixes(secs) && i < |secs|
    requires Resolve(secs[i].1.components, r).Some?
    ensures Resolve(MergeAll(main, secs).value.components, Renamed(secs[i].1.components, secs[i].0, r))
            == Resolve(secs[i].1.components, r)
  {
    var (section, name) := ParseRef(r).value;
    ParsedIsRefOf(r);
    ParseRefOf(section, Named(secs[i].0, name));
    OwnComponentSurvives(secs, i, section, name);
    FoldComponentAt(main, secs, section, Named(secs[i].0, name));
  }

  /** What the merged document holds at a place: the last secondary's component, else main's. */
  function AtPlace(main: Spec, secs: seq<(string, Spec)>, section: string, name: string): Option<Json> {
    var c := Contributed(secs, section, name);
    if c.Some? then c else ComponentAt(main.components, section, name)
  }

  /** A reference that resolves nowhere at home must not name a place that is filled. */
  ghost predicate StaysDangling(j: Json, own: map<string, Json>, main: Spec, secs: seq<(string, Spec)>) {
    forall r :: HasRef(j, r) && Resolve(own, r).None? && ParseRef(r).Some? ==>
      AtPlace(main, secs, ParseRef(r).value.0, ParseRef(r).value.1).None?
  }

  /** Every part of a secondary keeps its one-level meaning in the merged document exactly when no
      reference that dangles at home is caught by somebody else's component. */
  lemma SecondaryKeepsMeaning(main: Spec, secs: seq<(string, Spec)>, i: nat, j: Json)
    requires MergeAll(main, secs).Success? && GoodPrefixes(secs) && i < |secs|
    ensures var own, merged := secs[i].1.components, MergeAll(main, secs).value.components;
            Meaning(Rewritten(j, own, secs[i].0), merged) == Meaning(j, own) <==> StaysDangling(j, own, main, secs)
  {
    var prefix, own, merged := secs[i].0, secs[i].1.components, MergeAll(main, secs).value.components;
    var rename := r => Renamed(own, prefix, r);
    var after, before := r => Target(merged, rename(r)), r => Target(own, r);
    RenameThenMap(j, rename, r => Target(merged, r));
    MapRefsSame(j, r => Str(rename(r)), r => Str(Renamed(own, prefix, r)));
    MapRefsSame(j, after, r => (r => Target(merged, r))(rename(r)));
    MapRefsAgree(j, after, before);
    forall r
      ensures after(r) == before(r) <==>
        (Resolve(own, r).None? && ParseRef(r).Some? ==>
           AtPlace(main, secs, ParseRef(r).value.0, ParseRef(r).value.1).None?)
    {
      if Resolve(own, r).Some? {
        OwnReferenceResolves(main, secs, i, r);
      } else if ParseRef(r).Some? {
        FoldComponentAt(main, secs, ParseRef(r).value.0, ParseRef(r).value.1);
      }
    }
  }

  lemma MapRefsSame(j: Json, f: string -> Json, g: string -> Json)
    requires forall r :: f(r) == g(r)
    ensures MapRefs(j, f) == MapRefs(j, g)
  {
    MapRefsAgree(j, f, g);
  }

  /** What is in the main document stays: paths, leading tags, and each component unless a secondary puts one at
      the same place. */
  lemma {:induction false} MainSurvives(main: Spec, secs: seq<(string, Spec)>)
    requires MergeAll(main, secs).Success?
    ensures var m := MergeAll(main, secs).value;
            && main.tags <= m.tags && m.rest == main.rest
            && (forall k :: k in main.paths ==> k in m.paths && m.paths[k] == main.paths[k])
            && (forall s, n :: Contributed(secs, s, n).None? ==>
                  ComponentAt(m.components, s, n) == ComponentAt(main.components, s, n))
    decreases |secs|
  {
    if secs != [] {
      MainSurvives(main, secs[..|secs| - 1]);
    }
    forall s, n
      ensures Contributed(secs, s, n).None? ==>
        ComponentAt(MergeAll(main, secs).value.components, s, n) == ComponentAt(main.components, s, n)
    {
      FoldComponentAt(main, secs, s, n);
    }
  }

  /** A name no secondary can produce. */
  ghost predicate Unclaimed(secs: seq<(string, Spec)>, name: string) {
    forall i :: 0 <= i < |secs| ==> !(secs[i].0 + "_" <= name)
  }

  lemma {:induction false} UnclaimedHasNoContribution(secs: seq<(string, Spec)>, section: string, name: string)
    requires Unclaimed(secs, name)
    ensures Contributed(secs, section, name).None?
    decreases |secs|
  {
    if secs != [] {
      assert secs[|secs| - 1].0 + "_" <= name ==> false;
      UnclaimedHasNoContribution(secs[..|secs| - 1], section, name);
    }
  }

  /** Main's components are unchanged when no name among them starts with a used prefix and "_". */
  lemma MainComponentsSurvive(main: Spec, secs: seq<(string, Spec)>, section: string, name: string)
    requires MergeAll(main, secs).Success? && ComponentAt(main.components, section, name).Some?
    requires Unclaimed(secs, name)
    ensures ComponentAt(MergeAll(main, secs).value.components, section, name)
            == ComponentAt(main.components, section, name)
  {
    FoldComponentAt(main, secs, section, name);
    UnclaimedHasNoContribution(secs, section, name);
  }

  /** Every part of the main document keeps its one-level meaning exactly when no place it refers to is
      taken by a different component of a secondary. */
  lemma MainKeepsMeaning(main: Spec, secs: seq<(string, Spec)>, j: Json)
    requires MergeAll(main, secs).Success?
    ensures Meaning(j, MergeAll(main, secs).value.components) == Meaning(j, main.components) <==>
            forall r :: HasRef(j, r) && ParseRef(r).Some? ==>
              var (section, name) := ParseRef(r).value;
              var c := Contributed(secs, section, name);
              c.None? || c == ComponentAt(main.components, section, name)
  {
    var merged := MergeAll(main, secs).value.components;
    MapRefsAgree(j, r => Target(merged, r), r => Target(main.components, r));
    forall r | ParseRef(r).Some?
      ensures var (section, name) := ParseRef(r).value;
              var c := Contributed(secs, section, name);
              Target(merged, r) == Target(main.components, r) <==>
              c.None? || c == ComponentAt(main.components, section, name)
    {
      var (section, name) := ParseRef(r).value;
      FoldComponentAt(main, secs, section, name);
    }
  }

  /** A path of the result is main's, else that of the first secondary that has it. */
  lemma {:induction false} PathSurvives(main: Spec, secs: seq<(string, Spec)>, i: nat, k: string)
    requires MergeAll(main, secs).Success? && i < |secs| && k in secs[i].1.paths && k !in main.paths
    requires forall j :: 0 <= j < i ==> k !in secs[j].1.paths
    ensures var m := MergeAll(main, secs).value;
            k in m.paths && m.paths[k] == Rewritten(secs[i].1.paths[k], secs[i].1.components, secs[i].0)
    decreases |secs|
  {
    var n := |secs| - 1;
    if i == n {
      NoPath(main, secs[..n], k);
    } else {
      PathSurvives(main, secs[..n], i, k);
    }
  }

  /** The first secondary with a path. */
  predicate IsFirstWith(secs: seq<(string, Spec)>, i: int, k: string) {
    0 <= i < |secs| && k in secs[i].1.paths && forall j :: 0 <= j < i ==> k !in secs[j].1.paths
  }

  /** The result has main's paths as they are, the others rewritten from the first secondary that has one, and no
      more. */
  lemma PathsAre(main: Spec, secs: seq<(string, Spec)>, k: string)
    requires MergeAll(main, secs).Success?
    ensures var m := MergeAll(main, secs).value;
      && (k in m.paths <==> k in main.paths || exists i :: IsFirstWith(secs, i, k))
      && (k in main.paths ==> m.paths[k] == main.paths[k])
      && (forall i :: k !in main.paths && IsFirstWith(secs, i, k) ==>
            m.paths[k] == Rewritten(secs[i].1.paths[k], secs[i].1.components, secs[i].0))
  {
    MainSurvives(main, secs);
    if k !in main.paths {
      if exists i :: IsFirstWith(secs, i, k) {
        var i :| IsFirstWith(secs, i, k);
        PathSurvives(main, secs, i, k);
      } else {
        NoneHas(secs, k);
        NoPath(main, secs, k);
      }
    }
  }

  lemma {:induction false} NoneHas(secs: seq<(string, Spec)>, k: string)
    requires forall i :: !IsFirstWith(secs, i, k)
    ensures forall j :: 0 <= j < |secs| ==> k !in secs[j].1.paths
  {
    for n := 0 to |secs|
      invariant forall j :: 0 <= j < n ==> k !in secs[j].1.paths
    {
      assert !IsFirstWith(secs, n, k);
    }
  }

  lemma {:induction false} NoPath(main: Spec, secs: seq<(string, Spec)>, k: string)
    requires MergeAll(main, secs).Success? && k !in main.paths
    requires forall j :: 0 <= j < |secs| ==> k !in secs[j].1.paths
    ensures k !in MergeAll(main, secs).value.paths
    decreases |secs|
  {
    if secs != [] {
      NoPath(main, secs[..|secs| - 1], k);
    }
  }

  /** A surviving path of a secondary means in the merged document what it meant at home, exactly when
      its dangling references stay dangling. */
  lemma PathKeepsMeaning(main: Spec, secs: seq<(string, Spec)>, i: nat, k: string)
    requires MergeAll(main, secs).Success? && GoodPrefixes(secs) && i < |secs|
    requires k in secs[i].1.paths && k !in main.paths && forall j :: 0 <= j < i ==> k !in secs[j].1.paths
    ensures var m, sec := MergeAll(main, secs).value, secs[i].1;
            && k in m.paths
            && (Meaning(m.paths[k], m.components) == Meaning(sec.paths[k], sec.components) <==>
                StaysDangling(sec.paths[k], sec.components, main, secs))
  {
    PathSurvives(main, secs, i, k);
    SecondaryKeepsMeaning(main, secs, i, secs[i].1.paths[k]);
  }

  /** The tags after main's: for each secondary in turn, those whose name was new. */
  function AddedTags(main: Spec, secs: seq<(string, Spec)>): seq<Json>
    requires MergeAll(main, secs).Success?
    decreases |secs|
  {
    if secs == [] then [] else
    var n := |secs| - 1;
    var m := MergeAll(main, secs[..n]).value;
    AddedTags(main, secs[..n]) +
    NewTags(RewrittenAll(secs[n].1.tags, secs[n].1.components, secs[n].0), TagNames(m.tags))
  }

  /** The result's tags are main's, then those. */
  lemma {:induction false} TagsAre(main: Spec, secs: seq<(string, Spec)>)
    requires MergeAll(main, secs).Success?
    ensures MergeAll(main, secs).value.tags == main.tags + AddedTags(main, secs)
    decreases |secs|
  {
    if secs != [] {
      TagsAre(main, secs[..|secs| - 1]);
    }
  }

  lemma {:induction false} NewTagsFrom(tags: seq<Json>, known: set<Json>)
    ensures forall t :: t in NewTags(tags, known) <==> t in tags && t.Obj? && TagName(t) !in known
  {
    if tags != [] {
      NewTagsFrom(tags[1..], known);
      assert tags == [tags[0]] + tags[1..];
    }
  }

  /** Each added tag is a rewritten tag of one secondary and its name was not in use before. */
  lemma {:induction false} AddedTagOrigin(main: Spec, secs: seq<(string, Spec)>, t: Json) returns (i: nat, tag: Json)
    requires MergeAll(main, secs).Success? && t in AddedTags(main, secs)
    ensures i < |secs| && tag in secs[i].1.tags && t == Rewritten(tag, secs[i].1.components, secs[i].0)
    ensures t.Obj? && MergeAll(main, secs[..i]).Success?
    ensures TagName(t) !in TagNames(MergeAll(main, secs[..i]).value.tags)
    decreases |secs|
  {
    var n := |secs| - 1;
    if t in AddedTags(main, secs[..n]) {
      i, tag := AddedTagOrigin(main, secs[..n], t);
      assert secs[..n][..i] == secs[..i];
    } else {
      var all := RewrittenAll(secs[n].1.tags, secs[n].1.components, secs[n].0);
      NewTagsFrom(all, TagNames(MergeAll(main, secs[..n]).value.tags));
      i := n;
      var k :| 0 <= k < |all| && all[k] == t;
      tag := secs[n].1.tags[k];
    }
  }

  /** A rewritten tag of a secondary whose name neither main nor an earlier secondary uses. */
  ghost predicate IsNewTag(main: Spec, secs: seq<(string, Spec)>, i: int, t: Json)
    requires MergeAll(main, secs).Success?
  {
    && 0 <= i < |secs| && t.Obj? && t in RewrittenAll(secs[i].1.tags, secs[i].1.components, secs[i].0)
    && MergeAll(main, secs[..i]).Success?
    && forall u :: u in MergeAll(main, secs[..i]).value.tags && u.Obj? ==> NameIn(u.fields) != NameIn(t.fields)
  }

  function NameIn(fields: map<string, Json>): Json {
    if "name" in fields then fields["name"] else Null
  }

  lemma EarlierTag(main: Spec, secs: seq<(string, Spec)>, i: int, t: Json)
    requires MergeAll(main, secs).Success? && 0 <= i < |secs| - 1
    ensures IsNewTag(main, secs, i, t) <==> IsNewTag(main, secs[..|secs| - 1], i, t)
  {
    assert secs[..|secs| - 1][..i] == secs[..i];
  }

  lemma LastTag(main: Spec, secs: seq<(string, Spec)>, t: Json)
    requires MergeAll(main, secs).Success? && secs != []
    ensures t in AddedTags(main, secs) <==>
      t in AddedTags(main, secs[..|secs| - 1]) || IsNewTag(main, secs, |secs| - 1, t)
  {
    var n := |secs| - 1;
    NewTagsFrom(RewrittenAll(secs[n].1.tags, secs[n].1.components, secs[n].0),
      TagNames(MergeAll(main, secs[..n]).value.tags));
  }

  lemma {:induction false} NewTagIsAdded(main: Spec, secs: seq<(string, Spec)>, i: int, t: Json)
    requires MergeAll(main, secs).Success? && IsNewTag(main, secs, i, t)
    ensures t in AddedTags(main, secs)
    decreases |secs|
  {
    LastTag(main, secs, t);
    if i < |secs| - 1 {
      EarlierTag(main, secs, i, t);
      NewTagIsAdded(main, secs[..|secs| - 1], i, t);
    }
  }

  /** The added tags are exactly those: none is left out. */
  lemma AddedTagsAre(main: Spec, secs: seq<(string, Spec)>, t: Json)
    requires MergeAll(main, secs).Success?
    ensures t in AddedTags(main, secs) <==> exists i :: IsNewTag(main, secs, i, t)
  {
    if t in AddedTags(main, secs) {
      var i, tag := AddedTagOrigin(main, secs, t);
      var k :| 0 <= k < |secs[i].1.tags| && secs[i].1.tags[k] == tag;
      assert RewrittenAll(secs[i].1.tags, secs[i].1.components, secs[i].0)[k] == t;
      assert IsNewTag(main, secs, i, t);
    }
    if i :| IsNewTag(main, secs, i, t) {
      NewTagIsAdded(main, secs, i, t);
    }
  }

  /** Each added tag means what its secondary's tag meant, under the same condition. */
  lemma TagKeepsMeaning(main: Spec, secs: seq<(string, Spec)>, t: Json) returns (i: nat, tag: Json)
    requires MergeAll(main, secs).Success? && GoodPrefixes(secs) && t in AddedTags(main, secs)
    ensures i < |secs| && tag in secs[i].1.tags
    ensures var m, own := MergeAll(main, secs).value.components, secs[i].1.components;
            Meaning(t, m) == Meaning(tag, own) <==> StaysDangling(tag, own, main, secs)
  {
    i, tag := AddedTagOrigin(main, secs, t);
    SecondaryKeepsMeaning(main, secs, i, tag);
  }

  // ---------------------------------------------------------------- in the documents' own spelling

  lemma RefInItsSpelling(section: string, name: string)
    requires '/' !in section
    ensures ParseRef("#/components/" + section + "/" + name) == Some((section, name))
  {
    ParseRefOf(section, name);
    assert "#/components/" + section + "/" + name == RefOf(section, name);
  }

  /** An object's reference to a component of the secondary is rewritten to its name after the prefix and "_". */
  lemma ReferenceIsRenamed(fields: map<string, Json>, own: map<string, Json>, prefix: string, s: string, n: string)
    requires "$ref" in fields && fields["$ref"] == Str("#/components/" + s + "/" + n) && '/' !in s
    requires s in own && own[s].Obj? && n in own[s].fields
    ensures var out := Rewritten(Obj(fields), own, prefix);
      && out.Obj? && "$ref" in out.fields
      && out.fields["$ref"] == Str("#/components/" + s + "/" + prefix + "_" + n)
  {
    var r := "#/components/" + s + "/" + n;
    RefInItsSpelling(s, n);
    OnlyRefsAreReplaced(fields, r => Str(Renamed(own, prefix, r)));
    assert Renamed(own, prefix, r) == RefOf(s, Named(prefix, n));
    assert RefOf(s, Named(prefix, n)) == "#/components/" + s + "/" + prefix + "_" + n;
  }

  lemma OneReference(own: map<string, Json>, prefix: string, s: string, n: string)
    requires '/' !in s && s in own && own[s].Obj? && n in own[s].fields
    ensures Rewritten(Obj(map["$ref" := Str("#/components/" + s + "/" + n)]), own, prefix) ==
      Obj(map["$ref" := Str("#/components/" + s + "/" + prefix + "_" + n)])
  {
    var fields := map["$ref" := Str("#/components/" + s + "/" + n)];
    ReferenceIsRenamed(fields, own, prefix, s, n);
    OnlyRefsAreReplaced(fields, r => Str(Renamed(own, prefix, r)));
    assert Rewritten(Obj(fields), own, prefix).fields ==
      map["$ref" := Str("#/components/" + s + "/" + prefix + "_" + n)];
  }

  /** After the whole fold a surviving path that is such a reference points at the component's new name. */
  lemma PathReferenceIsRenamed(main: Spec, secs: seq<(string, Spec)>, i: nat, k: string, s: string, n: string)
    requires MergeAll(main, secs).Success? && IsFirstWith(secs, i, k) && k !in main.paths
    requires secs[i].1.paths[k] == Obj(map["$ref" := Str("#/components/" + s + "/" + n)]) && '/' !in s
    requires var own := secs[i].1.components; s in own && own[s].Obj? && n in own[s].fields
    ensures var paths := MergeAll(main, secs).value.paths;
      k in paths && paths[k] == Obj(map["$ref" := Str("#/components/" + s + "/" + secs[i].0 + "_" + n)])
  {
    PathSurvives(main, secs, i, k);
    OneReference(secs[i].1.components, secs[i].0, s, n);
  }

  /** And there the component is found, its body unchanged. */
  lemma ComponentIsUnderItsNewName(main: Spec, secs: seq<(string, Spec)>, i: nat, s: string, n: string)
    requires MergeAll(main, secs).Success? && GoodPrefixes(secs) && i < |secs|
    requires var own := secs[i].1.components; s in own && own[s].Obj? && n in own[s].fields
    ensures var m, name := MergeAll(main, secs).value.components, secs[i].0 + "_" + n;
      s in m && m[s].Obj? && name in m[s].fields && m[s].fields[name] == secs[i].1.components[s].fields[n]
  {
    OwnComponentSurvives(secs, i, s, n);
    FoldComponentAt(main, secs, s, Named(secs[i].0, n));
    assert secs[i].0 + "_" + n == Named(secs[i].0, n);
  }

  function TitleOf(info: map<string, Json>, default: string): string {
    if "title" in info && info["title"].Str? then info["title"].s else default
  }

  predicate PlainTitle(info: map<string, Json>) {
    "title" in info ==> info["title"].Str?
  }

  lemma InfoOfMerge(main: map<string, Json>, sec: map<string, Json>)
    requires PlainTitle(main) && PlainTitle(sec)
    ensures var info := MergedInfo(main, sec);
      && info.Keys == {"title", "description", "version"} && info["title"] == Str("Bifrost API (merged)")
      && info["version"] == (if "version" in main then main["version"] else Str("0.1.0"))
      && info["description"] == Str("Merged from: " + TitleOf(main, "Main") + ", " + TitleOf(sec, "Secondary"))
  {
  }

  /** The merged document's title is fixed, its description names the last two documents, and its version stays
      main's. */
  lemma {:induction false} InfoOfFold(main: Spec, secs: seq<(string, Spec)>)
    requires MergeAll(main, secs).Success? && secs != [] && PlainTitle(main.info)
    requires forall i :: 0 <= i < |secs| ==> PlainTitle(secs[i].1.info)
    ensures var info := MergeAll(main, secs).value.info;
      var first := if |secs| == 1 then TitleOf(main.info, "Main") else "Bifrost API (merged)";
      && info.Keys == {"title", "description", "version"} && info["title"] == Str("Bifrost API (merged)")
      && info["version"] == (if "version" in main.info then main.info["version"] else Str("0.1.0"))
      && info["description"] == Str("Merged from: " + first + ", " + TitleOf(secs[|secs| - 1].1.info, "Secondary"))
    decreases |secs|
  {
    var n := |secs| - 1;
    if n > 0 {
      InfoOfFold(main, secs[..n]);
    } else {
      assert secs[..n] == [];
    }
    InfoOfMerge(MergeAll(main, secs[..n]).value.info, secs[n].1.info);
  }

  /** A merge fails exactly when a tag object of main has no name or one that is an array or object, one of the
      secondary has such a name, or a section of objects of the secondary is something else in main. */
  lemma MergeFailsIff(main: Spec, sec: Spec, prefix: string)
    ensures Merge(main, sec, prefix).Failure? <==>
      || (exists t :: t in main.tags && t.Obj? &&
            ("name" !in t.fields || t.fields["name"].Arr? || t.fields["name"].Obj?))
      || (exists t :: t in sec.tags && t.Obj? &&
            "name" in t.fields && (t.fields["name"].Arr? || t.fields["name"].Obj?))
      || (exists s :: s in sec.components && s in main.components && sec.components[s].Obj? &&
            !main.components[s].Obj?)
  {
    assert forall t: Json :: t.Obj? && "name" !in t.fields ==> TagName(t) == Null;
  }

  // ---------------------------------------------------------------- one level only

  /** A reference inside a component body is copied as it is, so one that resolved at home dangles in the merged
      document unless a secondary or main has a component at the place it names. */
  lemma NestedReferenceDanglesIff(main: Spec, secs: seq<(string, Spec)>, i: nat, r: string)
    requires MergeAll(main, secs).Success? && i < |secs| && Resolve(secs[i].1.components, r).Some?
    ensures var (section, name) := ParseRef(r).value;
      Resolve(MergeAll(main, secs).value.components, r).None? <==>
      Contributed(secs, section, name).None? && ComponentAt(main.components, section, name).None?
  {
    var (section, name) := ParseRef(r).value;
    FoldComponentAt(main, secs, section, name);
  }

  /** A secondary's component is found under its new name with its body unchanged, and the body keeps its
      one-level meaning exactly when each place it names holds in the merged document what it held at home. */
  lemma ComponentKeepsMeaningIff(main: Spec, secs: seq<(string, Spec)>, i: nat, section: string, name: string)
    requires MergeAll(main, secs).Success? && GoodPrefixes(secs) && i < |secs|
    requires ComponentAt(secs[i].1.components, section, name).Some?
    ensures var own, merged := secs[i].1.components, MergeAll(main, secs).value.components;
      var body := ComponentAt(own, section, name).value;
      && ComponentAt(merged, section, Named(secs[i].0, name)) == Some(body)
      && (Meaning(body, merged) == Meaning(body, own) <==>
          forall r :: HasRef(body, r) && ParseRef(r).Some? ==>
            var (s, n) := ParseRef(r).value; AtPlace(main, secs, s, n) == ComponentAt(own, s, n))
  {
    var own, merged := secs[i].1.components, MergeAll(main, secs).value.components;
    var body := ComponentAt(own, section, name).value;
    OwnComponentSurvives(secs, i, section, name);
    FoldComponentAt(main, secs, section, Named(secs[i].0, name));
    MapRefsAgree(body, r => Target(merged, r), r => Target(own, r));
    forall r | ParseRef(r).Some?
      ensures var (s, n) := ParseRef(r).value;
        Target(merged, r) == Target(own, r) <==> AtPlace(main, secs, s, n) == ComponentAt(own, s, n)
    {
      var (s, n) := ParseRef(r).value;
      FoldComponentAt(main, secs, s, n);
    }
  }

  /** Two schemas, the first refers to the second; a path refers to the first. */
  function NestedSpec(): Spec {
    var outer := Obj(map["$ref" := Str(RefOf("schemas", "Inner"))]);
    Spec(map[], map["/x" := Obj(map["$ref" := Str(RefOf("schemas", "Outer"))])], [],
         map["schemas" := Obj(map["Outer" := outer, "Inner" := Null])], map[])
  }

  const EMPTY_SPEC := Spec(map[], map[], [], map[], map[])

  lemma NestedMerges()
    ensures MergeAll(EMPTY_SPEC, [("Research", NestedSpec())]).Success?
  {
  }

  /** A name shorter than the prefix is not one the secondary can produce. */
  lemma ShortNameIsMain(main: Spec, prefix: string, sec: Spec, section: string, name: string)
    requires MergeAll(main, [(prefix, sec)]).Success? && |name| <= |prefix| && '/' !in section
    ensures Resolve(MergeAll(main, [(prefix, sec)]).value.components, RefOf(section, name))
            == ComponentAt(main.components, section, name)
  {
    var secs := [(prefix, sec)];
    ParseRefOf(section, name);
    FoldComponentAt(main, secs, section, name);
    UnclaimedHasNoContribution(secs, section, name);
  }

  lemma NestedOuterSurvives()
    requires MergeAll(EMPTY_SPEC, [("Research", NestedSpec())]).Success?
    ensures ComponentAt(MergeAll(EMPTY_SPEC, [("Research", NestedSpec())]).value.components, "schemas",
                        Named("Research", "Outer"))
            == ComponentAt(NestedSpec().components, "schemas", "Outer")
  {
    var secs := [("Research", NestedSpec())];
    OwnComponentSurvives(secs, 0, "schemas", "Outer");
    FoldComponentAt(EMPTY_SPEC, secs, "schemas", Named("Research", "Outer"));
  }

  /** Component bodies are copied as they are: a reference inside a merged body dangles, though it
      resolved at home. */
  lemma NestedReferenceDangles()
    ensures var m := MergeAll(EMPTY_SPEC, [("Research", NestedSpec())]);
            && m.Success?
            && ComponentAt(m.value.components, "schemas", Named("Research", "Outer"))
               == Some(Obj(map["$ref" := Str(RefOf("schemas", "Inner"))]))
            && Resolve(NestedSpec().components, RefOf("schemas", "Inner")).Some?
            && Resolve(m.value.components, RefOf("schemas", "Inner")).None?
  {
    NestedMerges();
    ShortNameIsMain(EMPTY_SPEC, "Research", NestedSpec(), "schemas", "Inner");
    NestedOuterSurvives();
    ParseRefOf("schemas", "Inner");
  }
}
