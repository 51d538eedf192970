/** Merging keeps what the upstreams' documents mean exactly where it keeps what their references denote: with local
    references unfolded to any depth, a merged path item is the upstream's own item, tagged. */
module OpenApiMeaning {
  import opened SharedTypes
  import opened Routing
  import opened OpenApiMerge
  import opened OpenApiPointer
  import opened OpenApiReferences
  import opened OpenApiTables

  // ----- the merge as a renaming of each upstream's schemas -----

  function DocOf(input: UpstreamSpecInput): Json {
    match input.doc case Some(doc) => doc case None => JNull
  }

  /** What the merge makes of one upstream's document. */
  ghost function ContextOf(inputs: seq<UpstreamSpecInput>, info: MergedInfo, i: nat): Context
    requires i < |inputs|
  {
    Context(DocOf(inputs[i]), MergedDocument(MergeAll(inputs), info), SchemasOf(inputs[i]), MergeAll(inputs).schemas,
            RenameFor(inputs[i]), SchemaNamespace(inputs[i].id) + "_", Hits(inputs, info))
  }

  ghost function Hits(inputs: seq<UpstreamSpecInput>, info: MergedInfo): iset<string> {
    iset text | IsLocal(text) && HitsMerged(inputs, info, text)
  }

  lemma MarkIsPlain(id: string)
    ensures IsPlain(SchemaNamespace(id) + "_") && SchemaNamespace(id) + "_" != ""
  {
    hide SchemaNamespace;
  }

  /** Only the upstream's own schemas carry its mark. */
  lemma MarkedIsOwn(inputs: seq<UpstreamSpecInput>, i: nat, name: string)
    requires DistinctNamespaces(inputs) && i < |inputs|
    requires Has(MergeAll(inputs).schemas, SchemaNamespace(inputs[i].id) + "_" + name)
    ensures Has(SchemasOf(inputs[i]), name)
  {
    var key := QualifiedName(SchemaNamespace(inputs[i].id), name);
    hide SchemaNamespace, SchemasOf, MergeAll;
    MergedKeysAreQualified(inputs, key);
    var j :| 0 <= j < |inputs| && QualifiedBy(inputs[j], key);
    var k :| 0 <= k < |SchemasOf(inputs[j])|
      && key == QualifiedName(SchemaNamespace(inputs[j].id), SchemasOf(inputs[j])[k].key);
    QualifiedNamesDiffer(inputs[i].id, inputs[j].id, name, SchemasOf(inputs[j])[k].key);
  }

  lemma OwnSchemaIsMerged(inputs: seq<UpstreamSpecInput>, i: nat, name: string)
    requires DistinctNamespaces(inputs) && i < |inputs| && Has(SchemasOf(inputs[i]), name)
    ensures Lookup(MergeAll(inputs).schemas, SchemaNamespace(inputs[i].id) + "_" + name)
         == Some(RewriteSchemaRefs(Lookup(SchemasOf(inputs[i]), name).value, RenameFor(inputs[i])))
  {
    hide RewriteSchemaRefs, SchemaNamespace, SchemasOf, MergeAll, Lookup, RenameFor;
    var env := SchemasOf(inputs[i]);
    var k :| 0 <= k < |env| && env[k].key == name;
    LookupDistinct(env, k);
    SchemaIsMerged(inputs, i, k);
  }

  lemma MergedTablesAgree(inputs: seq<UpstreamSpecInput>, info: MergedInfo, i: nat)
    requires DistinctNamespaces(inputs) && i < |inputs|
    ensures TablesAgree(ContextOf(inputs, info, i))
  {
    hide RewriteSchemaRefs, SchemaNamespace, SchemasOf, MergeAll, MergedDocument, Lookup, Hits, IsPlain;
    hide DistinctNamespaces, Has;
    var c := ContextOf(inputs, info, i);
    MarkIsPlain(inputs[i].id);
    forall name | Has(c.env, name)
      ensures Lookup(c.merged, c.mark + name) == Some(RewriteSchemaRefs(Lookup(c.env, name).value, c.rename))
    {
      OwnSchemaIsMerged(inputs, i, name);
    }
    forall name | Has(c.merged, c.mark + name) ensures Has(c.env, name) {
      MarkedIsOwn(inputs, i, name);
    }
  }

  lemma DescendPair(node: Json, a: string, b: string)
    ensures Descend(node, [a, b]) == match Member(node, a) case Some(inner) => Member(inner, b) case None => None
  {
    hide Member;
    assert [a, b][..1] == [a] && [a][..0] == [];
    assert Descend(node, []) == Some(node);
    assert Descend(node, [a]) == Member(node, a);
  }

  lemma NamesNoItem(items: seq<Json>, token: string)
    requires token != [] && !('0' <= token[0] <= '9')
    ensures Member(JArr(items), token) == None
  {
    var k := ArrayIndex(token, |items|);
    if k.Some? {
      assert Decimal(k.value)[0] in Decimal(k.value);
    }
  }

  lemma NoneInArray(node: Json, token: string)
    requires token != [] && !('0' <= token[0] <= '9')
    ensures Member(node, token) == if node.JObj? then Lookup(node.fields, token) else None
  {
    if node.JArr? {
      NamesNoItem(node.items, token);
    }
  }

  /** The object that stands at the place in the document, if there is one. */
  function ObjectAt(doc: Json, path: seq<string>): seq<Field> {
    var found := Descend(doc, path);
    if found.Some? && found.value.JObj? then found.value.fields else []
  }

  /** An upstream's schemas and paths are those where readers of its document look for them. */
  lemma TablesOfDocument(input: UpstreamSpecInput)
    ensures SchemasOf(input) == ObjectAt(DocOf(input), ["components", "schemas"])
    ensures PathsOf(input) == ObjectAt(DocOf(input), ["paths"])
  {
    var doc := DocOf(input);
    DescendPair(doc, "components", "schemas");
    NoneInArray(doc, "components");
    NoneInArray(doc, "paths");
    assert Descend(doc, ["paths"]) == Member(doc, "paths") by {
      DescendFromTop(doc, ["paths"]);
      assert ["paths"][1..] == [];
    }
    if Member(doc, "components").Some? {
      NoneInArray(Member(doc, "components").value, "schemas");
    }
    hide Lookup, Descend, Member;
  }

  lemma SchemasInDocument(input: UpstreamSpecInput)
    ensures SchemasOf(input) != [] ==> Descend(DocOf(input), SCHEMA_TABLE) == Some(JObj(SchemasOf(input)))
  {
    TablesOfDocument(input);
    hide SchemasOf, Descend;
  }

  lemma MergedSchemasInDocument(m: Merged, info: MergedInfo)
    ensures Descend(MergedDocument(m, info), SCHEMA_TABLE) == Some(JObj(m.schemas))
  {
    DescendPair(MergedDocument(m, info), "components", "schemas");
    MergedComponents(m, info);
    LookupOne("schemas", JObj(m.schemas), "schemas");
    hide Lookup, Descend;
  }

  lemma MergedComponents(m: Merged, info: MergedInfo)
    ensures Member(MergedDocument(m, info), "components") == Some(JObj([Field("schemas", JObj(m.schemas))]))
  {
    var fields := MergedDocument(m, info).fields;
    assert fields[3].key == "components";
    assert DistinctFields(fields) by {
      assert "openapi"[0] != "info"[0] && "openapi"[0] != "paths"[0] && "openapi"[0] != "components"[0];
    }
    LookupDistinct(fields, 3);
  }

  lemma MergedCarries(inputs: seq<UpstreamSpecInput>, info: MergedInfo, i: nat)
    requires DistinctNamespaces(inputs) && i < |inputs|
    ensures Carries(ContextOf(inputs, info, i))
  {
    var c := ContextOf(inputs, info, i);
    MergedTablesAgree(inputs, info, i);
    SchemasInDocument(inputs[i]);
    MergedSchemasInDocument(MergeAll(inputs), info);
    hide MergedDocument, MergeAll, Descend, SchemasOf, HitsMerged, Target, TablesAgree, SchemaNamespace;
    hide DistinctNamespaces;
    forall text | IsLocal(text) ensures text in c.hits <==> Target(c.whole, text).Some? {
      HitsAreExact(inputs, info, text);
    }
  }

  // ----- references -----

  /** A reference of an upstream goes to the same place of the same schema in the merged document, or to nowhere in
      both, exactly when it names an own schema, or dangles in its own document and hits nothing of the others. */
  lemma ReferenceIsCarriedIff(inputs: seq<UpstreamSpecInput>, info: MergedInfo, i: nat, text: string)
    requires DistinctNamespaces(inputs) && i < |inputs| && IsLocal(text)
    ensures var c := ContextOf(inputs, info, i);
            IsLocal(RenamedText(c, text))
            && (SamePlace(c, text) <==>
                  || (IsLocalRef(text) && Has(SchemasOf(inputs[i]), RefName(text)))
                  || (Target(DocOf(inputs[i]), text).None? && !HitsMerged(inputs, info, text)))
  {
    var c := ContextOf(inputs, info, i);
    MergedCarries(inputs, info, i);
    StillLocal(c, text);
    SamePlaceIff(c, text);
    hide Target, HitsMerged, SchemasOf, MergeAll, SamePlace, RenamedText, IsLocal, RefName, IsLocalRef, Carries;
  }

  /** The place is a whole schema of the upstream. */
  predicate IsOwnSchema(input: UpstreamSpecInput, path: seq<string>) {
    |path| == 3 && path[..2] == SCHEMA_TABLE && Has(SchemasOf(input), path[2])
  }

  /** The reference resolves in its own document to anything but a whole own schema, or it dangles there and hits
      something in the merged document. */
  ghost predicate IsLost(inputs: seq<UpstreamSpecInput>, info: MergedInfo, i: nat, text: string)
    requires i < |inputs| && IsLocal(text)
  {
    match Target(DocOf(inputs[i]), text)
    case Some(own) => !IsOwnSchema(inputs[i], own.path)
    case None => HitsMerged(inputs, info, text)
  }

  /** All that section "Components Object" of OpenAPI 3.0.3 allows as names. */
  ghost predicate PlainNames(input: UpstreamSpecInput) {
    forall key :: Has(SchemasOf(input), key) ==> IsPlain(key)
  }

  lemma LostReferences(inputs: seq<UpstreamSpecInput>, info: MergedInfo, i: nat, text: string)
    requires DistinctNamespaces(inputs) && i < |inputs| && IsLocal(text) && PlainNames(inputs[i])
    ensures KeptRef(ContextOf(inputs, info, i), text) <==> !IsLost(inputs, info, i, text)
  {
    var c := ContextOf(inputs, info, i);
    MergedCarries(inputs, info, i);
    hide HitsMerged, SchemasOf, MergeAll, MergedDocument, RefName;
    if IsRenamed(c, text) {
      WholeSchemaIsKept(c, text);
    } else if Target(c.doc, text).Some? && IsOwnSchema(inputs[i], Target(c.doc, text).value.path) {
      OwnSchemaIsRenamed(c, text);
    }
    hide Target, IsPlain, Carries;
  }

  lemma WholeSchemaIsKept(c: Context, text: string)
    requires Carries(c) && IsLocal(text) && IsRenamed(c, text) && IsPlain(RefName(text))
    ensures KeptRef(c, text)
    ensures Target(c.doc, text).Some? && Target(c.doc, text).value.path == SCHEMA_TABLE + [RefName(text)]
  {
    var name := RefName(text);
    TokensOfPlain(name);
    TargetRenamed(c, text);
    hide Target, Tokens, Lookup, RefName;
    assert [name][1..] == [];
    assert Locate(c.env, name).Some? && Locate(c.env, name).value.path == [];
    assert SCHEMA_TABLE + [name] + [] == SCHEMA_TABLE + [name];
  }

  lemma OwnSchemaIsRenamed(c: Context, text: string)
    requires Carries(c) && IsLocal(text) && Target(c.doc, text).Some?
    requires var path := Target(c.doc, text).value.path;
             |path| == 3 && path[..2] == SCHEMA_TABLE && Has(c.env, path[2]) && IsPlain(path[2])
    ensures IsRenamed(c, text)
  {
    hide Tokens, Target, RefName, IsLocalRef, IsPlain, IsLocal;
    var path := Target(c.doc, text).value.path;
    assert path == SCHEMA_TABLE + [path[2]];
    PathOfTarget(c.doc, text);
    WholeSchemaIsNamed(text, path[2]);
    RefNameOf(path[2]);
  }

  lemma PathOfTarget(doc: Json, text: string)
    requires IsLocal(text) && Target(doc, text).Some? && Target(doc, text).value.path != []
    ensures |text| >= 2 && text[1] == '/' && Target(doc, text).value.path == Tokens(text[2..])
  {
    hide Tokens, Descend;
  }

  // ----- fragments -----

  /** The rewritten fragment unfolds in the merged document to what the fragment unfolds to in its own. */
  ghost predicate MeansTheSame(c: Context, node: Json, n: nat) {
    Unfold(c.Merged(), RewriteSchemaRefs(node, c.rename), n) == Unfold(c.Own(), node, n)
  }

  /** Kept references keep their meaning: a rewritten fragment of a document unfolds, in the merged document, to
      what the fragment unfolds to in its own, to any depth. */
  lemma ReferencesKeepTheirMeaning(inputs: seq<UpstreamSpecInput>, info: MergedInfo, i: nat, node: Json, n: nat)
    requires DistinctNamespaces(inputs) && i < |inputs|
    requires AllKept(ContextOf(inputs, info, i)) && Kept(ContextOf(inputs, info, i), node)
    ensures MeansTheSame(ContextOf(inputs, info, i), node, n)
  {
    MergedCarries(inputs, info, i);
    KeptMeansTheSame(ContextOf(inputs, info, i), node, n);
  }

  /** A path item or a schema of the document. */
  ghost predicate IsFragment(input: UpstreamSpecInput, node: Json) {
    (exists f :: f in PathsOf(input) && f.value == node) || (exists f :: f in SchemasOf(input) && f.value == node)
  }

  /** Merging keeps the meaning of every path item and schema of a document exactly when all their references are
      kept. */
  lemma MeaningIsKeptIff(inputs: seq<UpstreamSpecInput>, info: MergedInfo, i: nat)
    requires DistinctNamespaces(inputs) && i < |inputs|
    ensures (forall node, n: nat :: IsFragment(inputs[i], node) ==> MeansTheSame(ContextOf(inputs, info, i), node, n))
       <==> (forall node :: IsFragment(inputs[i], node) ==> Kept(ContextOf(inputs, info, i), node))
  {
    var c := ContextOf(inputs, info, i);
    MergedCarries(inputs, info, i);
    hide Carries, Kept, Unfold, RewriteSchemaRefs, ContextOf;
    assert forall f :: f in SchemasOf(inputs[i]) ==> IsFragment(inputs[i], f.value);
    assert c.env == SchemasOf(inputs[i]) by {
      EnvOf(inputs, info, i);
    }
    hide IsFragment;
    if forall node :: IsFragment(inputs[i], node) ==> Kept(c, node) {
      forall node, n: nat | IsFragment(inputs[i], node)
        ensures MeansTheSame(c, node, n)
      {
        KeptMeansTheSame(c, node, n);
      }
    }
    if forall node, n: nat :: IsFragment(inputs[i], node) ==> MeansTheSame(c, node, n) {
      forall node | IsFragment(inputs[i], node) ensures Kept(c, node) {
        assert MeansTheSame(c, node, 1);
        SameMeaningIsKept(c, node);
      }
    }
  }

  lemma EnvOf(inputs: seq<UpstreamSpecInput>, info: MergedInfo, i: nat)
    requires i < |inputs|
    ensures ContextOf(inputs, info, i).env == SchemasOf(inputs[i])
  {
  }

  /** The fragment mentions no lost reference. */
  ghost predicate NothingIsLost(inputs: seq<UpstreamSpecInput>, info: MergedInfo, i: nat, node: Json)
    requires i < |inputs|
  {
    forall text :: IsLocal(text) && Mentions(node, text) ==> !IsLost(inputs, info, i, text)
  }

  lemma KeptIffNothingIsLost(inputs: seq<UpstreamSpecInput>, info: MergedInfo, i: nat, node: Json)
    requires DistinctNamespaces(inputs) && i < |inputs| && PlainNames(inputs[i])
    ensures Kept(ContextOf(inputs, info, i), node) <==> NothingIsLost(inputs, info, i, node)
  {
    hide ContextOf, Kept, KeptRef, Mentions, IsLost, IsLocal, DistinctNamespaces, PlainNames;
    KeptIffMentionsAre(ContextOf(inputs, info, i), node);
    forall text | IsLocal(text) ensures KeptRef(ContextOf(inputs, info, i), text) <==> !IsLost(inputs, info, i, text) {
      LostReferences(inputs, info, i, text);
    }
  }

  /** The same told from the upstreams' documents alone: no path item and no schema mentions a lost reference. */
  lemma MeaningIsKeptIffNothingIsLost(inputs: seq<UpstreamSpecInput>, info: MergedInfo, i: nat)
    requires DistinctNamespaces(inputs) && i < |inputs| && PlainNames(inputs[i])
    ensures (forall node, n: nat :: IsFragment(inputs[i], node) ==> MeansTheSame(ContextOf(inputs, info, i), node, n))
       <==> (forall node :: IsFragment(inputs[i], node) ==> NothingIsLost(inputs, info, i, node))
  {
    MeaningIsKeptIff(inputs, info, i);
    hide ContextOf, MeansTheSame, IsFragment, Kept, NothingIsLost, DistinctNamespaces, PlainNames;
    forall node ensures Kept(ContextOf(inputs, info, i), node) <==> NothingIsLost(inputs, info, i, node) {
      KeptIffNothingIsLost(inputs, info, i, node);
    }
  }

  // ----- tagging commutes with unfolding -----

  lemma {:induction false} LookupUnfolded(v: View, fields: seq<Field>, n: nat, key: string)
    requires key != "$ref"
    ensures Lookup(UnfoldFields(v, fields, n), key)
         == match Lookup(fields, key) case Some(value) => Some(Unfold(v, value, n)) case None => None
  {
    if fields != [] {
      LookupUnfolded(v, fields[1..], n, key);
      var r := UnfoldFields(v, fields, n);
      assert r[1..] == UnfoldFields(v, fields[1..], n);
    }
  }

  lemma {:induction false} PutUnfolded(v: View, fields: seq<Field>, n: nat, key: string, value: Json)
    requires key != "$ref"
    ensures UnfoldFields(v, Put(fields, key, value), n) == Put(UnfoldFields(v, fields, n), key, Unfold(v, value, n))
  {
    var one := Field(key, value);
    assert UnfoldField(v, one, n) == Field(key, Unfold(v, value, n));
    if fields == [] {
      assert [one][1..] == [];
    } else {
      var r := UnfoldFields(v, fields, n);
      assert r[1..] == UnfoldFields(v, fields[1..], n) && r[0] == UnfoldField(v, fields[0], n);
      if fields[0].key == key {
        assert ([one] + fields[1..])[1..] == fields[1..];
      } else {
        PutUnfolded(v, fields[1..], n, key, value);
        assert ([fields[0]] + Put(fields[1..], key, value))[1..] == Put(fields[1..], key, value);
      }
    }
  }

  lemma TagOperationUnfolded(v: View, op: seq<Field>, n: nat, tag: string)
    ensures UnfoldFields(v, TagOperation(op, tag), n) == TagOperation(UnfoldFields(v, op, n), tag)
  {
    hide Lookup, Put;
    assert "tags" != "$ref" by { assert "tags"[0] != "$ref"[0]; }
    LookupUnfolded(v, op, n, "tags");
    var existing := match Lookup(op, "tags") case Some(JArr(items)) => items case _ => [];
    var tags := if |existing| > 0 then existing else [JStr(tag)];
    PutUnfolded(v, op, n, "tags", JArr(tags));
    if |existing| == 0 {
      assert [JStr(tag)][1..] == [];
      assert UnfoldItems(v, [JStr(tag)], n) == [JStr(tag)];
    }
  }

  lemma MethodIsNoRef(i: nat)
    requires i < |HTTP_METHODS|
    ensures HTTP_METHODS[i] != "$ref"
  {
    assert HTTP_METHODS[i][0] != "$ref"[0];
  }

  lemma {:induction false} TagMethodsUnfolded(v: View, fields: seq<Field>, n: nat, tag: string, k: nat)
    requires k <= |HTTP_METHODS|
    ensures UnfoldFields(v, TagMethods(fields, tag, k), n) == TagMethods(UnfoldFields(v, fields, n), tag, k)
  {
    hide Lookup, Put, TagOperation, UnfoldFields;
    if k > 0 {
      TagMethodsUnfolded(v, fields, n, tag, k - 1);
      var out, name := TagMethods(fields, tag, k - 1), HTTP_METHODS[k - 1];
      MethodIsNoRef(k - 1);
      LookupUnfolded(v, out, n, name);
      match Lookup(out, name) {
        case Some(JObj(op)) =>
          TagOperationUnfolded(v, op, n, tag);
          PutUnfolded(v, out, n, name, JObj(TagOperation(op, tag)));
        case _ =>
      }
    }
  }

  // ----- the merged paths -----

  /** The headline: in the merged document, each path item unfolds to the upstream's own item, unfolded in the
      upstream's own document and tagged with the upstream's title. */
  lemma MergedPathMeansTheSame(
    inputs: seq<UpstreamSpecInput>, info: MergedInfo, i: nat, a: nat, item: seq<Field>, n: nat)
    requires DistinctNamespaces(inputs) && KeysUnique(inputs)
    requires i < |inputs| && a < |PathsOf(inputs[i])| && PathsOf(inputs[i])[a].value == JObj(item)
    requires AllKept(ContextOf(inputs, info, i)) && Kept(ContextOf(inputs, info, i), JObj(item))
    ensures var c := ContextOf(inputs, info, i);
            var found := Lookup(MergeAll(inputs).paths, MergedKey(inputs[i], a));
            found.Some?
            && Unfold(c.Merged(), found.value, n) == JObj(TagPathItem(UnfoldFields(c.Own(), item, n), inputs[i].title))
  {
    var c := ContextOf(inputs, info, i);
    PathIsMerged(inputs, i, a);
    ReferencesKeepTheirMeaning(inputs, info, i, JObj(item), n);
    hide Lookup, MergeAll, SchemasOf, AllKept, Kept, DistinctNamespaces, KeysUnique, MergedKey, TagMethods;
    TagMethodsUnfolded(c.Merged(), RewriteFields(item, c.rename), n, inputs[i].title, |HTTP_METHODS|);
  }

  // ----- documents -----

  function RefTo(text: string): Json {
    JObj([Field("$ref", JStr(text))])
  }

  lemma NotKeptNotTheSame(c: Context, node: Json)
    requires Carries(c) && !Kept(c, node)
    ensures !MeansTheSame(c, node, 1)
  {
    hide Carries, Kept, Unfold, RewriteSchemaRefs;
    if MeansTheSame(c, node, 1) {
      SameMeaningIsKept(c, node);
    }
  }

  /** A fragment that is one reference, not kept, changes its meaning. */
  lemma RefIsNotKept(inputs: seq<UpstreamSpecInput>, info: MergedInfo, i: nat, text: string)
    requires DistinctNamespaces(inputs) && i < |inputs| && IsLocal(text)
    requires !KeptRef(ContextOf(inputs, info, i), text)
    ensures !Kept(ContextOf(inputs, info, i), RefTo(text))
    ensures !MeansTheSame(ContextOf(inputs, info, i), RefTo(text), 1)
  {
    var c, item := ContextOf(inputs, info, i), RefTo(text);
    MergedCarries(inputs, info, i);
    hide Carries, Unfold, RewriteSchemaRefs, ContextOf, KeptRef;
    assert !KeptField(c, item.fields[0]);
    assert !Kept(c, item);
    NotKeptNotTheSame(c, item);
  }

  /** A reference to a component other than a schema that resolves in its own document dangles in the merged one. */
  lemma OtherComponentIsLost(inputs: seq<UpstreamSpecInput>, info: MergedInfo, i: nat, kind: string, name: string)
    requires DistinctNamespaces(inputs) && i < |inputs| && IsPlain(kind) && kind != "schemas"
    requires Target(DocOf(inputs[i]), ComponentRef(kind, name)).Some?
    ensures Target(MergedDocument(MergeAll(inputs), info), ComponentRef(kind, name)) == None
    ensures !Kept(ContextOf(inputs, info, i), RefTo(ComponentRef(kind, name)))
    ensures !MeansTheSame(ContextOf(inputs, info, i), RefTo(ComponentRef(kind, name)), 1)
  {
    var text := ComponentRef(kind, name);
    hide MergeAll, MergedDocument, Target, MeansTheSame, ContextOf, Tokens, DistinctNamespaces, ComponentRef, KeptRef;
    hide Kept, HitsMerged, SchemasOf, RefName, IsLocalRef, RefTo;
    HitsNothingElse(inputs, info, kind, name);
    HitsAreExact(inputs, info, text);
    NotASchemaRef(kind, name);
    NotRenamed(inputs, info, i, text);
    RefIsNotKept(inputs, info, i, text);
  }

  lemma HitsNothingElse(inputs: seq<UpstreamSpecInput>, info: MergedInfo, kind: string, name: string)
    requires IsPlain(kind) && kind != "schemas"
    ensures !HitsMerged(inputs, info, ComponentRef(kind, name))
  {
    TokensOfComponentRef(kind, name);
    hide Tokens, ComponentRef, Frame, HitsPath, HitsQualified, Descend, IsPlain;
    var tokens := ["components", kind] + Tokens(name);
    assert tokens[0] == "components" && tokens[1] == kind;
  }

  /** The reference to a component of a kind. */
  function ComponentRef(kind: string, name: string): (text: string)
    ensures IsLocal(text)
  {
    "#/components/" + kind + "/" + name
  }

  lemma TokensOfComponentRef(kind: string, name: string)
    requires IsPlain(kind)
    ensures ComponentRef(kind, name)[1] == '/'
    ensures Tokens(ComponentRef(kind, name)[2..]) == ["components", kind] + Tokens(name)
  {
    var text := ComponentRef(kind, name);
    assert text[2..] == "components" + "/" + (kind + "/" + name);
    TokensOfPath("components", kind + "/" + name);
    TokensOfPath(kind, name);
    hide Tokens;
    assert ["components"] + ([kind] + Tokens(name)) == ["components", kind] + Tokens(name);
  }

  lemma NotASchemaRef(kind: string, name: string)
    requires IsPlain(kind) && kind != "schemas"
    ensures !IsLocalRef(ComponentRef(kind, name))
  {
    TokensOfComponentRef(kind, name);
    assert (["components", kind] + Tokens(name))[1] == kind;
    hide Tokens, ComponentRef;
    if IsLocalRef(ComponentRef(kind, name)) {
      SecondToken(ComponentRef(kind, name));
    }
  }

  lemma SecondToken(text: string)
    requires IsLocalRef(text)
    ensures |text| >= 2 && |Tokens(text[2..])| >= 2 && Tokens(text[2..])[1] == "schemas"
  {
    PrefixAndName(text);
    TokensOfSchemaRef(RefName(text));
    assert (SCHEMA_TABLE + Tokens(RefName(text)))[1] == "schemas";
    hide Tokens, RefName;
  }

  lemma NotRenamed(inputs: seq<UpstreamSpecInput>, info: MergedInfo, i: nat, text: string)
    requires i < |inputs| && IsLocal(text) && !(IsLocalRef(text) && Has(SchemasOf(inputs[i]), RefName(text)))
    requires Target(DocOf(inputs[i]), text).Some? || HitsMerged(inputs, info, text)
    ensures !KeptRef(ContextOf(inputs, info, i), text)
  {
    hide Target, HitsMerged, SchemasOf, MergeAll, MergedDocument, RefName;
  }

  /** The document publishes one path, this item, and these schemas. */
  predicate Publishes(input: UpstreamSpecInput, path: string, item: Json, schemas: seq<Field>) {
    && PathsOf(input) == [Field(path, item)] && SchemasOf(input) == schemas
    && Descend(DocOf(input), SCHEMA_TABLE) == Some(JObj(schemas))
  }

  /** There are such documents. */
  lemma PublishingDocument(input: UpstreamSpecInput, path: string, item: Json, schemas: seq<Field>)
    requires input.doc == Some(JObj([Field("paths", JObj([Field(path, item)])),
                                     Field("components", JObj([Field("schemas", JObj(schemas))]))]))
    ensures Publishes(input, path, item, schemas)
  {
    var components, paths := [Field("schemas", JObj(schemas))], [Field(path, item)];
    LookupTwo("paths", JObj(paths), "components", JObj(components), "paths");
    LookupTwo("paths", JObj(paths), "components", JObj(components), "components");
    LookupOne("schemas", JObj(schemas), "schemas");
    DescendPair(DocOf(input), "components", "schemas");
    hide Lookup, Descend;
  }

  /** A document whose only reference is to its only schema, alone in the merge, keeps its meaning. */
  lemma NamedReferenceIsKept(input: UpstreamSpecInput, info: MergedInfo, path: string, schema: string)
    requires Publishes(input, path, RefTo(REF_PREFIX + schema), [Field(schema, JNull)])
    ensures var inputs, item := [input], RefTo(REF_PREFIX + schema);
            && DistinctNamespaces(inputs) && KeysUnique(inputs)
            && AllKept(ContextOf(inputs, info, 0)) && Kept(ContextOf(inputs, info, 0), item)
  {
    var env := [Field(schema, JNull)];
    RefNameOf(schema);
    hide MergeAll, MergedDocument, Hits, SchemasOf, PathsOf, SchemaNamespace, Tokens, Target;
    assert env[0].key == schema;
    assert Has(env, schema);
    if |Tokens(schema)| > 1 {
      NothingInNull(Tokens(schema)[1..]);
    }
  }

  lemma {:induction false} NothingInNull(path: seq<string>)
    requires path != []
    ensures Descend(JNull, path) == None
  {
    if |path| > 1 {
      NothingInNull(path[..|path| - 1]);
    } else {
      assert path[..0] == [];
    }
  }

  function DeepName(schema: string, outer: string, inner: string): string {
    schema + "/" + (outer + "/" + inner)
  }

  function Nested(outer: string, inner: string): Json {
    JObj([Field(outer, JObj([Field(inner, JNull)]))])
  }

  lemma DeepNameIsFound(schema: string, outer: string, inner: string)
    requires IsPlain(schema) && IsPlain(outer) && IsPlain(inner)
    ensures Tokens(DeepName(schema, outer, inner))[0] == schema
    ensures Locate([Field(schema, Nested(outer, inner))], DeepName(schema, outer, inner))
         == Some(Found(schema, [outer, inner], JNull))
  {
    TokensOfPath(schema, outer + "/" + inner);
    TokensOfPath(outer, inner);
    TokensOfPlain(inner);
    hide Tokens;
    var nested, fields := Nested(outer, inner), [Field(inner, JNull)];
    assert Tokens(DeepName(schema, outer, inner)) == [schema, outer, inner];
    assert [schema, outer, inner][1..] == [outer, inner];
    LookupOne(schema, nested, schema);
    LookupOne(outer, JObj(fields), outer);
    LookupOne(inner, JNull, inner);
    DescendPair(nested, outer, inner);
    hide Lookup, DeepName, Descend;
  }

  /** A reference into the inside of a schema, such as Pet/properties/id, resolves in the upstream's document and
      dangles in the merged one; the path item that makes it changes its meaning. */
  lemma DeepReferenceIsLost(
    input: UpstreamSpecInput, info: MergedInfo, path: string, schema: string, outer: string, inner: string)
    requires IsPlain(schema) && IsPlain(outer) && IsPlain(inner)
    requires Publishes(input, path, RefTo(REF_PREFIX + DeepName(schema, outer, inner)),
                       [Field(schema, Nested(outer, inner))])
    ensures var c, text := ContextOf([input], info, 0), REF_PREFIX + DeepName(schema, outer, inner);
            && IsLocal(text)
            && Target(c.doc, text) == Some(Place(SCHEMA_TABLE + [schema, outer, inner], JNull))
            && Target(c.whole, text) == None
            && DistinctNamespaces([input]) && !MeansTheSame(c, RefTo(text), 1)
  {
    var inputs, text := [input], REF_PREFIX + DeepName(schema, outer, inner);
    DeepTarget(DocOf(input), schema, outer, inner);
    DeepNameIsFound(schema, outer, inner);
    OnlyMarked(inputs, schema);
    DeepDangles(MergeAll(inputs), info, schema, outer, inner);
    hide Tokens, Target, MergeAll, MergedDocument, SchemaNamespace, SchemasOf, PathsOf, Nested, DeepName, MeansTheSame;
    hide Locate, Descend, HitsMerged, KeptRef, Kept, RefTo, IsPlain, RenameFor, DistinctFields, IsLocal;
    assert !Has(SchemasOf(input), DeepName(schema, outer, inner)) by {
      DeepIsLonger(schema, outer, inner);
    }
    RefNameOf(DeepName(schema, outer, inner));
    NotRenamed(inputs, info, 0, text);
    RefIsNotKept(inputs, info, 0, text);
  }

  lemma DeepIsLonger(schema: string, outer: string, inner: string)
    ensures |DeepName(schema, outer, inner)| > |schema|
  {
  }

  lemma DeepTarget(doc: Json, schema: string, outer: string, inner: string)
    requires IsPlain(schema) && IsPlain(outer) && IsPlain(inner)
    requires Descend(doc, SCHEMA_TABLE) == Some(JObj([Field(schema, Nested(outer, inner))]))
    ensures var text := REF_PREFIX + DeepName(schema, outer, inner);
            IsLocal(text) && Target(doc, text) == Some(Place(SCHEMA_TABLE + [schema, outer, inner], JNull))
  {
    hide Tokens, Target, Descend, DeepName, Nested, Locate, IsPlain, IsLocal;
    DeepNameIsFound(schema, outer, inner);
    SchemaRefIsLocated(doc, [Field(schema, Nested(outer, inner))], DeepName(schema, outer, inner));
    assert SCHEMA_TABLE + [schema] + [outer, inner] == SCHEMA_TABLE + [schema, outer, inner];
  }

  lemma DeepDangles(m: Merged, info: MergedInfo, schema: string, outer: string, inner: string)
    requires !Has(m.schemas, schema) && Tokens(DeepName(schema, outer, inner))[0] == schema
    ensures IsLocal(REF_PREFIX + DeepName(schema, outer, inner))
    ensures Target(MergedDocument(m, info), REF_PREFIX + DeepName(schema, outer, inner)) == None
  {
    hide Tokens, Target, Descend, DeepName, Locate, MergedDocument, IsLocal;
    MergedSchemasInDocument(m, info);
    NotThere(m.schemas, DeepName(schema, outer, inner));
    SchemaRefIsLocated(MergedDocument(m, info), m.schemas, DeepName(schema, outer, inner));
  }

  lemma NotThere(schemas: seq<Field>, name: string)
    requires !Has(schemas, Tokens(name)[0])
    ensures Locate(schemas, name) == None
  {
  }

  /** With one upstream, nothing is called by its own schema's name. */
  lemma OnlyMarked(inputs: seq<UpstreamSpecInput>, schema: string)
    requires |inputs| == 1 && forall f :: f in SchemasOf(inputs[0]) ==> f.key == schema
    ensures !Has(MergeAll(inputs).schemas, schema)
  {
    hide MergeAll, SchemasOf, SchemaNamespace, QualifiedBy;
    if Has(MergeAll(inputs).schemas, schema) {
      MergedKeysAreQualified(inputs, schema);
      QualifiedIsLonger(inputs[0], schema);
    }
  }

  /** A reference that dangles in its own document is captured when it happens to be another upstream's schema
      under its merged name, such as B_X for the schema X of upstream b. */
  lemma DanglingReferenceIsCaptured(
    a: UpstreamSpecInput, b: UpstreamSpecInput, info: MergedInfo, x: string, p: string, q: string)
    requires SchemaNamespace(a.id) != SchemaNamespace(b.id) && IsPlain(x)
    requires Publishes(a, p, RefTo(REF_PREFIX + QualifiedName(SchemaNamespace(b.id), x)), [])
    requires Publishes(b, q, RefTo(REF_PREFIX + x), [Field(x, JNull)])
    ensures var c, name := ContextOf([a, b], info, 0), QualifiedName(SchemaNamespace(b.id), x);
            var text := REF_PREFIX + name;
            && IsLocal(text) && Target(c.doc, text) == None
            && Target(c.whole, text) == Some(Place(SCHEMA_TABLE + [name], JNull))
            && DistinctNamespaces([a, b]) && !MeansTheSame(c, RefTo(text), 1)
  {
    var inputs, name := [a, b], QualifiedName(SchemaNamespace(b.id), x);
    var text := REF_PREFIX + name;
    RefNameOf(name);
    MarkIsPlain(b.id);
    hide Tokens, Target, MergeAll, MergedDocument, SchemaNamespace, SchemasOf, PathsOf, MeansTheSame, RewriteSchemaRefs;
    assert DistinctNamespaces(inputs);
    SchemaIsMerged(inputs, 1, 0);
    NullStaysNull(RenameFor(b));
    PlainIsLocated(MergeAll(inputs).schemas, name);
    NotThere([], name);
    SchemaRefIsLocated(DocOf(a), [], name);
    MergedSchemasInDocument(MergeAll(inputs), info);
    SchemaRefIsLocated(MergedDocument(MergeAll(inputs), info), MergeAll(inputs).schemas, name);
    assert SCHEMA_TABLE + [name] + [] == SCHEMA_TABLE + [name];
    HitsAreExact(inputs, info, text);
    NotRenamed(inputs, info, 0, text);
    RefIsNotKept(inputs, info, 0, text);
  }

  lemma NullStaysNull(rename: Rename)
    ensures RewriteSchemaRefs(JNull, rename) == JNull
  {
  }

  lemma PlainIsLocated(schemas: seq<Field>, name: string)
    requires IsPlain(name) && Lookup(schemas, name) == Some(JNull)
    ensures Locate(schemas, name) == Some(Found(name, [], JNull))
  {
    TokensOfPlain(name);
    hide Lookup, Tokens;
    assert [name][1..] == [];
  }

  // ----- an operation and its component -----

  /** An operation that refers to a component of a kind other than a schema. */
  function UsingItem(kind: string, name: string): Json {
    JObj([Field("get", JObj([Field(kind, JArr([RefTo(ComponentRef(kind, name))]))]))])
  }

  /** The document of such an operation, with the component. */
  function UsingDocument(path: string, kind: string, name: string): Json {
    JObj([Field("paths", JObj([Field(path, UsingItem(kind, name))])),
          Field("components", JObj([Field(kind, JObj([Field(name, JNull)]))]))])
  }

  /** The component of the operation resolves before the merge and dangles after it: its path item changes its
      meaning, whatever the other upstreams are. */
  lemma ComponentUseIsLost(
    inputs: seq<UpstreamSpecInput>, info: MergedInfo, i: nat, path: string, kind: string, name: string)
    requires DistinctNamespaces(inputs) && i < |inputs| && inputs[i].doc == Some(UsingDocument(path, kind, name))
    requires IsPlain(kind) && IsPlain(name) && kind != "schemas"
    ensures IsFragment(inputs[i], UsingItem(kind, name))
    ensures Target(DocOf(inputs[i]), ComponentRef(kind, name)) == Some(Place(["components", kind, name], JNull))
    ensures Target(MergedDocument(MergeAll(inputs), info), ComponentRef(kind, name)) == None
    ensures !MeansTheSame(ContextOf(inputs, info, i), UsingItem(kind, name), 1)
  {
    ComponentIsFound(path, kind, name);
    hide UsingDocument, UsingItem, RefTo, Target, MergeAll, MergedDocument, ContextOf, Kept, MeansTheSame, ComponentRef;
    hide IsPlain, KeptRef, DistinctNamespaces, Carries, IsFragment;
    OtherComponentIsLost(inputs, info, i, kind, name);
    UsingIsFragment(inputs[i], path, kind, name);
    UsingIsNotKept(ContextOf(inputs, info, i), kind, name);
    MergedCarries(inputs, info, i);
    NotKeptNotTheSame(ContextOf(inputs, info, i), UsingItem(kind, name));
  }

  lemma ComponentIsFound(path: string, kind: string, name: string)
    requires IsPlain(kind) && IsPlain(name)
    ensures Target(UsingDocument(path, kind, name), ComponentRef(kind, name))
         == Some(Place(["components", kind, name], JNull))
  {
    TokensOfComponentRef(kind, name);
    TokensOfPlain(name);
    hide Tokens, ComponentRef, UsingItem, IsPlain;
    var limits, place := [Field(name, JNull)], ["components", kind, name];
    var components, doc := JObj([Field(kind, JObj(limits))]), UsingDocument(path, kind, name);
    assert ["components", kind] + [name] == place;
    DescendTwice(doc, place);
    assert place[..2] == ["components", kind] && place[2..] == [name];
    DescendPair(doc, "components", kind);
    LookupTwo("paths", JObj([Field(path, UsingItem(kind, name))]), "components", components, "components");
    LookupOne(kind, JObj(limits), kind);
    LookupOne(name, JNull, name);
    DescendFromTop(JObj(limits), [name]);
    assert [name][1..] == [] && Descend(JNull, []) == Some(JNull);
    hide Lookup, Descend;
  }

  lemma UsingIsFragment(input: UpstreamSpecInput, path: string, kind: string, name: string)
    requires input.doc == Some(UsingDocument(path, kind, name))
    ensures IsFragment(input, UsingItem(kind, name))
  {
    hide UsingItem;
    var paths := [Field(path, UsingItem(kind, name))];
    assert UsingDocument(path, kind, name).fields[0] == Field("paths", JObj(paths));
    assert PathsOf(input) == paths;
    assert paths[0] in paths;
  }

  lemma UsingIsNotKept(c: Context, kind: string, name: string)
    requires !Kept(c, RefTo(ComponentRef(kind, name)))
    ensures !Kept(c, UsingItem(kind, name))
  {
    hide RefTo, KeptRef, ComponentRef;
    var list := JArr([RefTo(ComponentRef(kind, name))]);
    var op := JObj([Field(kind, list)]);
    assert !Kept(c, list) by {
      assert !Kept(c, list.items[0]);
    }
    assert !Kept(c, op) by {
      assert !KeptField(c, op.fields[0]);
    }
    assert UsingItem(kind, name).fields[0] == Field("get", op);
    assert !KeptField(c, UsingItem(kind, name).fields[0]);
  }

  // ----- at concrete documents -----

  lemma NamespacesOfLetters()
    ensures SchemaNamespace("a") == "A" && SchemaNamespace("b") == "B"
  {
    assert TakeRun("a") == "a" && TakeRun("b") == "b";
    assert "a"[1..] == [] && "b"[1..] == [];
    assert Parts("a") == ["a"] && Parts("b") == ["b"];
    assert ["a"][1..] == [] && ["b"][1..] == [];
  }

  /** Upstream a refers to B_X, which it does not have; in the merged document that is the schema X of b. */
  lemma CaptureOfBX(a: UpstreamSpecInput, b: UpstreamSpecInput, info: MergedInfo)
    requires a.id == "a" && Publishes(a, "/x", RefTo(REF_PREFIX + "B_X"), [])
    requires b.id == "b" && Publishes(b, "/y", RefTo(REF_PREFIX + "X"), [Field("X", JNull)])
    ensures DistinctNamespaces([a, b]) && !MeansTheSame(ContextOf([a, b], info, 0), RefTo(REF_PREFIX + "B_X"), 1)
  {
    NamespacesOfLetters();
    hide SchemaNamespace, Publishes, DistinctNamespaces, MeansTheSame, ContextOf, RefTo;
    assert "B_X" == QualifiedName("B", "X") && "A"[0] != "B"[0];
    DanglingReferenceIsCaptured(a, b, info, "X", "/x", "/y");
  }

  /** The upstream refers to Pet/properties/id of its own schema Pet; in the merged document that is nothing. */
  lemma LossOfPetId(input: UpstreamSpecInput, info: MergedInfo)
    requires Publishes(input, "/pets", RefTo(REF_PREFIX + "Pet/properties/id"),
                       [Field("Pet", Nested("properties", "id"))])
    ensures DistinctNamespaces([input])
    ensures !MeansTheSame(ContextOf([input], info, 0), RefTo(REF_PREFIX + "Pet/properties/id"), 1)
  {
    hide Publishes, DistinctNamespaces, MeansTheSame, ContextOf, Nested, RefTo;
    assert "Pet/properties/id" == DeepName("Pet", "properties", "id");
    DeepReferenceIsLost(input, info, "/pets", "Pet", "properties", "id");
  }

  lemma LimitIsPlain()
    ensures IsPlain("parameters") && IsPlain("Limit") && "parameters" != "schemas"
  {
    assert "parameters"[0] != "schemas"[0];
  }

  /** GET /drones takes the parameter Limit, kept in components.parameters; in the merged document that is nothing. */
  lemma LossOfLimit(inputs: seq<UpstreamSpecInput>, info: MergedInfo, i: nat)
    requires DistinctNamespaces(inputs) && i < |inputs|
    requires inputs[i].doc == Some(UsingDocument("/drones", "parameters", "Limit"))
    ensures !MeansTheSame(ContextOf(inputs, info, i), UsingItem("parameters", "Limit"), 1)
  {
    LimitIsPlain();
    hide UsingDocument, UsingItem, MeansTheSame, DistinctNamespaces, ContextOf, IsPlain, Target, IsFragment;
    ComponentUseIsLost(inputs, info, i, "/drones", "parameters", "Limit");
  }
}
