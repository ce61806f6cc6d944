/** JSON documents and the references inside them. */
module Json {

  /** Objects are unordered here; nothing below depends on the order of keys. */
  datatype Json = Null | Bool(b: bool) | Num(n: real) | Str(s: string)
                | Arr(items: seq<Json>) | Obj(fields: map<string, Json>)

  /** Whether the value under key `k` is a reference. */
  predicate IsRef(k: string, v: Json) {
    k == "$ref" && v.Str?
  }

  /** Replace the value of every reference, and nothing else. */
  function MapRefs(j: Json, f: string -> Json): Json
    decreases j, 0
  {
    match j
    case Arr(items) => Arr(seq(|items|, i requires 0 <= i < |items| => MapRefs(items[i], f)))
    case Obj(fields) => Obj(map k | k in fields :: MapField(k, fields[k], f))
    case _ => j
  }

  function MapField(k: string, v: Json, f: string -> Json): Json
    decreases v, 1
  {
    if IsRef(k, v) then f(v.s) else MapRefs(v, f)
  }

  /** `r` is the target of a reference somewhere in `j`. */
  ghost predicate HasRef(j: Json, r: string)
    decreases j, 0
  {
    match j
    case Arr(items) => exists i :: 0 <= i < |items| && HasRef(items[i], r)
    case Obj(fields) => exists k :: k in fields && FieldHasRef(k, fields[k], r)
    case _ => false
  }

  ghost predicate FieldHasRef(k: string, v: Json, r: string)
    decreases v, 1
  {
    if IsRef(k, v) then v.s == r else HasRef(v, r)
  }

  /** Renaming the references, then replacing them, is replacing them by what the new names stand for. */
  lemma {:induction false} RenameThenMap(j: Json, f: string -> string, g: string -> Json)
    ensures MapRefs(MapRefs(j, r => Str(f(r))), g) == MapRefs(j, r => g(f(r)))
    decreases j, 0
  {
    var rename, both := r => Str(f(r)), r => g(f(r));
    match j
    case Arr(items) =>
      var left, right := MapRefs(MapRefs(j, rename), g).items, MapRefs(j, both).items;
      forall i | 0 <= i < |items|
        ensures left[i] == right[i]
      {
        RenameThenMap(items[i], f, g);
      }
      assert left == right;
    case Obj(fields) =>
      var left, right := MapRefs(MapRefs(j, rename), g).fields, MapRefs(j, both).fields;
      forall k | k in fields
        ensures left[k] == right[k]
      {
        RenameField(k, fields[k], f, g);
      }
      assert left == right;
    case _ =>
  }

  lemma {:induction false} RenameField(k: string, v: Json, f: string -> string, g: string -> Json)
    ensures MapField(k, MapField(k, v, r => Str(f(r))), g) == MapField(k, v, r => g(f(r)))
    decreases v, 1
  {
    if !IsRef(k, v) {
      RenameThenMap(v, f, g);
    }
  }

  /** Two replacements agree exactly when they agree on every reference the document holds. */
  lemma {:induction false} MapRefsAgree(j: Json, f: string -> Json, g: string -> Json)
    ensures MapRefs(j, f) == MapRefs(j, g) <==> forall r :: HasRef(j, r) ==> f(r) == g(r)
    decreases j, 0
  {
    match j
    case Arr(items) =>
      forall i | 0 <= i < |items| { MapRefsAgree(items[i], f, g); }
      var left, right := MapRefs(j, f).items, MapRefs(j, g).items;
      if forall r :: HasRef(j, r) ==> f(r) == g(r) {
        assert left == right;
      }
      if left == right {
        forall r | HasRef(j, r)
          ensures f(r) == g(r)
        {
          var i :| 0 <= i < |items| && HasRef(items[i], r);
          assert left[i] == right[i];
        }
      }
    case Obj(fields) =>
      forall k | k in fields { FieldAgree(k, fields[k], f, g); }
      var left, right := MapRefs(j, f).fields, MapRefs(j, g).fields;
      if forall r :: HasRef(j, r) ==> f(r) == g(r) {
        forall k | k in fields
          ensures left[k] == right[k]
        {
          assert forall r :: FieldHasRef(k, fields[k], r) ==> HasRef(j, r);
        }
        assert left == right;
      }
      if left == right {
        forall r | HasRef(j, r)
          ensures f(r) == g(r)
        {
          var k :| k in fields && FieldHasRef(k, fields[k], r);
          assert left[k] == right[k];
        }
      }
    case _ =>
  }

  lemma {:induction false} FieldAgree(k: string, v: Json, f: string -> Json, g: string -> Json)
    ensures MapField(k, v, f) == MapField(k, v, g) <==> forall r :: FieldHasRef(k, v, r) ==> f(r) == g(r)
    decreases v, 1
  {
    if IsRef(k, v) {
      assert FieldHasRef(k, v, v.s);
    } else {
      MapRefsAgree(v, f, g);
    }
  }

  lemma {:induction false} MapRefsIdentity(j: Json)
    ensures MapRefs(j, r => Str(r)) == j
  {
    match j
    case Arr(items) =>
      forall i | 0 <= i < |items| { MapRefsIdentity(items[i]); }
      assert MapRefs(j, r => Str(r)).items == items;
    case Obj(fields) =>
      forall k | k in fields
        ensures MapField(k, fields[k], r => Str(r)) == fields[k]
      {
        if !IsRef(k, fields[k]) { MapRefsIdentity(fields[k]); }
      }
      assert MapRefs(j, r => Str(r)).fields == fields;
    case _ =>
  }

  /** A field is replaced exactly when its key is "$ref" and its value a text; keys stay, and so do the scalars under
      every other key, while what is inside an array or an object is treated alike. */
  lemma OnlyRefsAreReplaced(fields: map<string, Json>, f: string -> Json)
    ensures var out := MapRefs(Obj(fields), f);
      && out.Obj? && out.fields.Keys == fields.Keys
      && ("$ref" in fields && fields["$ref"].Str? ==> out.fields["$ref"] == f(fields["$ref"].s))
      && (forall k :: k in fields && !(k == "$ref" && fields[k].Str?) ==> out.fields[k] == MapRefs(fields[k], f))
      && (forall k :: k in fields && k != "$ref" && !fields[k].Arr? && !fields[k].Obj? ==> out.fields[k] == fields[k])
  {
  }

  /** The references a document holds are the texts under "$ref" in its objects, at any depth. */
  lemma RefsHeld(fields: map<string, Json>, r: string)
    ensures HasRef(Obj(fields), r) <==>
      || ("$ref" in fields && fields["$ref"] == Str(r))
      || exists k :: k in fields && !(k == "$ref" && fields[k].Str?) && HasRef(fields[k], r)
  {
  }
}
