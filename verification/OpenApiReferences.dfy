/** Documents with their local references unfolded, and which references a renaming of schemas keeps. */
module OpenApiReferences {
  import opened SharedTypes
  import opened OpenApiMerge
  import opened OpenApiPointer

  // ----- unfolding references -----

  /** A document as one upstream sees it: its own schemas are the ones with its mark, when it has one. */
  datatype View = View(doc: Json, mark: Option<string>)

  function Strings(path: seq<string>): seq<Json> {
    seq(|path|, i requires 0 <= i < |path| => JStr(path[i]))
  }

  /** The place in the upstream's own document that a place stands for. */
  function OwnPlace(v: View, path: seq<string>): Option<seq<string>> {
    if v.mark.None? then Some(path)
    else if |path| >= 3 && path[..2] == SCHEMA_TABLE && v.mark.value <= path[2]
    then Some(SCHEMA_TABLE + [path[2][|v.mark.value|..]] + path[3..])
    else None
  }

  /** An own place by its own path, any other set apart. */
  function Shown(v: View, path: seq<string>): Json {
    match OwnPlace(v, path)
    case Some(own) => JArr(Strings(own))
    case None => JStr("elsewhere")
  }

  /** What stands for a reference: where it goes, and the content found there. */
  function Denotation(v: View, path: seq<string>, content: Json): Json {
    JObj([Field("place", Shown(v, path)), Field("content", content)])
  }

  /** The fragment with its local references replaced by what they denote, n levels deep. */
  function Unfold(v: View, node: Json, n: nat): Json
    decreases n, node
  {
    match node
    case JArr(items) => JArr(UnfoldItems(v, items, n))
    case JObj(fields) => JObj(UnfoldFields(v, fields, n))
    case _ => node
  }

  function UnfoldItems(v: View, items: seq<Json>, n: nat): (r: seq<Json>)
    ensures |r| == |items|
    decreases n, items
  {
    if items == [] then [] else [Unfold(v, items[0], n)] + UnfoldItems(v, items[1..], n)
  }

  /** A dangling reference denotes nothing. */
  function UnfoldField(v: View, f: Field, n: nat): Field
    decreases n, f
  {
    if IsLocalField(f) then
      match Target(v.doc, f.value.text)
      case None => Field(f.key, JNull)
      case Some(place) =>
        Field(f.key, Denotation(v, place.path, if n == 0 then JNull else Unfold(v, place.value, n - 1)))
    else Field(f.key, Unfold(v, f.value, n))
  }

  function UnfoldFields(v: View, fields: seq<Field>, n: nat): (r: seq<Field>)
    ensures |r| == |fields|
    decreases n, fields
  {
    if fields == [] then [] else [UnfoldField(v, fields[0], n)] + UnfoldFields(v, fields[1..], n)
  }

  // ----- which references are kept -----

  /** One upstream's document and schemas, the merged ones, how the upstream's names were changed, and which
      references hit something in the merged document. */
  datatype Context = Context(
    doc: Json,
    whole: Json,
    env: seq<Field>,
    merged: seq<Field>,
    rename: Rename,
    mark: string,
    hits: iset<string>
  ) {
    function Own(): View {
      View(doc, None)
    }

    function Merged(): View {
      View(whole, Some(mark))
    }
  }

  /** The merged table holds the upstream's schemas, rewritten, under marked names, and nothing else so marked. */
  ghost predicate TablesAgree(c: Context) {
    && IsPlain(c.mark) && c.mark != ""
    && (forall name :: name in c.rename <==> Has(c.env, name))
    && (forall name :: name in c.rename ==> c.rename[name] == c.mark + name)
    && (forall name :: Has(c.merged, c.mark + name) <==> Has(c.env, name))
    && (forall name :: Has(c.env, name) ==>
         Lookup(c.merged, c.mark + name) == Some(RewriteSchemaRefs(Lookup(c.env, name).value, c.rename)))
  }

  ghost predicate Carries(c: Context) {
    && TablesAgree(c)
    && (c.env != [] ==> Descend(c.doc, SCHEMA_TABLE) == Some(JObj(c.env)))
    && Descend(c.whole, SCHEMA_TABLE) == Some(JObj(c.merged))
    && (forall text :: IsLocal(text) ==> (text in c.hits <==> Target(c.whole, text).Some?))
  }

  /** The reference is to an own schema by name: the merge rewrites it. */
  predicate IsRenamed(c: Context, text: string) {
    IsLocalRef(text) && RefName(text) in c.rename
  }

  function RenamedText(c: Context, text: string): string {
    if IsRenamed(c, text) then REF_PREFIX + c.rename[RefName(text)] else text
  }

  /** The reference goes to a place that holds the text of a reference which is itself renamed. */
  predicate LandsOnRenamed(c: Context, name: string) {
    match Locate(c.env, name)
    case None => false
    case Some(found) =>
      && found.path != [] && IsRefField(Field(found.path[|found.path| - 1], found.value))
      && RefName(found.value.text) in c.rename
  }

  /** The reference is to an own schema by name, or it denotes nothing in its own document and hits nothing in the
      merged one. */
  ghost predicate KeptRef(c: Context, text: string)
    requires IsLocal(text)
  {
    if IsRenamed(c, text) then !LandsOnRenamed(c, RefName(text))
    else Target(c.doc, text).None? && text !in c.hits
  }

  /** All local references of the fragment are kept. */
  ghost predicate Kept(c: Context, node: Json) {
    match node
    case JArr(items) => forall i :: 0 <= i < |items| ==> Kept(c, items[i])
    case JObj(fields) => forall i :: 0 <= i < |fields| ==> KeptField(c, fields[i])
    case _ => true
  }

  ghost predicate KeptField(c: Context, f: Field) {
    if IsLocalField(f) then KeptRef(c, f.value.text) else Kept(c, f.value)
  }

  ghost predicate AllKept(c: Context) {
    forall f :: f in c.env ==> Kept(c, f.value)
  }

  /** The local reference stands somewhere in the fragment. */
  predicate Mentions(node: Json, text: string) {
    match node
    case JArr(items) => exists i :: 0 <= i < |items| && Mentions(items[i], text)
    case JObj(fields) => exists i :: 0 <= i < |fields| && MentionsField(fields[i], text)
    case _ => false
  }

  predicate MentionsField(f: Field, text: string) {
    if IsLocalField(f) then f.value.text == text else Mentions(f.value, text)
  }

  /** A fragment is kept when the references in it are. */
  lemma {:induction false} KeptIffMentionsAre(c: Context, node: Json)
    ensures Kept(c, node) <==> forall text :: IsLocal(text) && Mentions(node, text) ==> KeptRef(c, text)
  {
    hide KeptRef, IsLocal;
    match node
    case JArr(items) =>
      forall i | 0 <= i < |items|
        ensures Kept(c, items[i]) <==> forall text :: IsLocal(text) && Mentions(items[i], text) ==> KeptRef(c, text)
      {
        KeptIffMentionsAre(c, items[i]);
      }
    case JObj(fields) =>
      forall i | 0 <= i < |fields|
        ensures KeptField(c, fields[i])
           <==> forall text :: IsLocal(text) && MentionsField(fields[i], text) ==> KeptRef(c, text)
      {
        KeptIffMentionsAre(c, fields[i].value);
      }
    case _ =>
  }

  // ----- where references go -----

  lemma RefNameOf(name: string)
    ensures IsLocalRef(REF_PREFIX + name) && RefName(REF_PREFIX + name) == name && IsLocal(REF_PREFIX + name)
  {
  }

  /** A renamed reference goes to the same place of the same schema. */
  lemma LocateRenamed(c: Context, name: string)
    requires TablesAgree(c) && name in c.rename
    ensures Locate(c.merged, c.rename[name])
         == match Locate(c.env, name)
            case None => None
            case Some(found) =>
              Some(Found(c.mark + found.schema, found.path, RewrittenAt(found.path, found.value, c.rename)))
  {
    TokensAfterMark(c.mark, name);
    var tokens := Tokens(name);
    assert ([c.mark + tokens[0]] + tokens[1..])[1..] == tokens[1..];
    hide Tokens, Lookup, RewriteSchemaRefs, Descend;
    if Has(c.env, tokens[0]) {
      DescendRewritten(Lookup(c.env, tokens[0]).value, c.rename, tokens[1..]);
    } else {
      assert !Has(c.merged, c.mark + tokens[0]);
    }
  }

  lemma RenamedIsNotEmpty(c: Context, name: string)
    requires TablesAgree(c) && name in c.rename
    ensures c.env != []
  {
    assert Has(c.env, name);
  }

  lemma PrefixAndName(text: string)
    requires IsLocalRef(text)
    ensures text == REF_PREFIX + RefName(text)
  {
  }

  /** Where a renamed reference goes before and after. */
  lemma TargetRenamed(c: Context, text: string)
    requires Carries(c) && IsRenamed(c, text) && IsLocal(text)
    ensures IsLocal(RenamedText(c, text))
    ensures Locate(c.env, RefName(text)).None? <==> Target(c.doc, text).None?
    ensures Target(c.doc, text).None? <==> Target(c.whole, RenamedText(c, text)).None?
    ensures match Locate(c.env, RefName(text))
            case None => true
            case Some(found) =>
              && Target(c.doc, text).value == Place(SCHEMA_TABLE + [found.schema] + found.path, found.value)
              && Target(c.whole, RenamedText(c, text)).value
                 == Place(SCHEMA_TABLE + [c.mark + found.schema] + found.path,
                          RewrittenAt(found.path, found.value, c.rename))
  {
    var name := RefName(text);
    PrefixAndName(text);
    RefNameOf(c.rename[name]);
    RenamedIsNotEmpty(c, name);
    LocateRenamed(c, name);
    SchemaRefIsLocated(c.doc, c.env, name);
    SchemaRefIsLocated(c.whole, c.merged, c.rename[name]);
    hide Target, Locate, TablesAgree, RewrittenAt, IsLocal, RefName;
  }

  /** The path of a reference is its own text's: an unrenamed one goes to the same path before and after. */
  lemma TargetPath(doc: Json, whole: Json, text: string)
    requires IsLocal(text) && Target(doc, text).Some? && Target(whole, text).Some?
    ensures Target(doc, text).value.path == Target(whole, text).value.path
  {
    hide Tokens, Descend;
  }

  /** The place in the merged document where the own place is kept, if it is: that of the schema it is in. */
  predicate Corresponds(c: Context, own: seq<string>, path: seq<string>) {
    |own| >= 3 && own[..2] == SCHEMA_TABLE && path == SCHEMA_TABLE + [c.mark + own[2]] + own[3..]
  }

  lemma NothingCorrespondsToItself(c: Context, path: seq<string>)
    requires c.mark != ""
    ensures !Corresponds(c, path, path)
  {
    if |path| >= 3 {
      var there := SCHEMA_TABLE + [c.mark + path[2]] + path[3..];
      assert there[2] == c.mark + path[2] && |there[2]| > |path[2]|;
    }
  }

  /** What the merge writes for the reference goes to the corresponding place, or to nowhere if it did before. */
  predicate SamePlace(c: Context, text: string)
    requires IsLocal(text) && IsLocal(RenamedText(c, text))
  {
    match Target(c.doc, text)
    case None => Target(c.whole, RenamedText(c, text)).None?
    case Some(place) =>
      && Target(c.whole, RenamedText(c, text)).Some?
      && Corresponds(c, place.path, Target(c.whole, RenamedText(c, text)).value.path)
  }

  lemma StillLocal(c: Context, text: string)
    requires IsLocal(text)
    ensures IsLocal(RenamedText(c, text))
  {
    if IsRenamed(c, text) {
      RefNameOf(c.rename[RefName(text)]);
    }
  }

  lemma SchemaCorresponds(c: Context, found: Found)
    ensures Corresponds(c, SCHEMA_TABLE + [found.schema] + found.path,
                        SCHEMA_TABLE + [c.mark + found.schema] + found.path)
  {
    var own := SCHEMA_TABLE + [found.schema] + found.path;
    assert own[..2] == SCHEMA_TABLE && own[2] == found.schema && own[3..] == found.path;
  }

  lemma SamePlaceIff(c: Context, text: string)
    requires Carries(c) && IsLocal(text) && IsLocal(RenamedText(c, text))
    ensures SamePlace(c, text) <==> IsRenamed(c, text) || (Target(c.doc, text).None? && text !in c.hits)
  {
    hide Target, TablesAgree, Corresponds;
    if IsRenamed(c, text) {
      TargetRenamed(c, text);
      match Locate(c.env, RefName(text)) {
        case Some(found) => SchemaCorresponds(c, found);
        case None =>
      }
    } else if Target(c.doc, text).Some? && Target(c.whole, text).Some? {
      TargetPath(c.doc, c.whole, text);
      assert c.mark != "" by {
        MarkIsNotEmpty(c);
      }
      NothingCorrespondsToItself(c, Target(c.doc, text).value.path);
    }
  }

  lemma MarkIsNotEmpty(c: Context)
    requires TablesAgree(c)
    ensures c.mark != ""
  {
  }

  // ----- kept references mean the same -----

  lemma {:induction false} KeptInside(c: Context, node: Json, path: seq<string>)
    requires Kept(c, node) && Descend(node, path).Some?
    ensures Kept(c, Descend(node, path).value)
  {
    if path != [] {
      KeptInside(c, node, path[..|path| - 1]);
      var inner, token := Descend(node, path[..|path| - 1]).value, path[|path| - 1];
      match inner
      case JObj(fields) =>
        var v := Lookup(fields, token).value;
        assert Field(token, v) in fields;
        assert KeptField(c, Field(token, v));
      case JArr(items) =>
    }
  }

  lemma NothingRenamedThere(c: Context, name: string)
    requires Locate(c.env, name).Some? && !LandsOnRenamed(c, name)
    ensures var found := Locate(c.env, name).value;
            RewrittenAt(found.path, found.value, c.rename) == RewriteSchemaRefs(found.value, c.rename)
  {
  }

  lemma FoundIsKept(c: Context, name: string)
    requires AllKept(c) && Locate(c.env, name).Some?
    ensures Kept(c, Locate(c.env, name).value.value)
  {
    var tokens := Tokens(name);
    var schema := Lookup(c.env, tokens[0]).value;
    assert Field(tokens[0], schema) in c.env;
    KeptInside(c, schema, tokens[1..]);
  }

  lemma {:induction false} KeptMeansTheSame(c: Context, node: Json, n: nat)
    requires Carries(c) && AllKept(c) && Kept(c, node)
    ensures Unfold(c.Merged(), RewriteSchemaRefs(node, c.rename), n) == Unfold(c.Own(), node, n)
    decreases n, node
  {
    match node
    case JArr(items) => KeptItems(c, items, n);
    case JObj(fields) => KeptFields(c, fields, n);
    case _ =>
  }

  lemma {:induction false} KeptItems(c: Context, items: seq<Json>, n: nat)
    requires Carries(c) && AllKept(c) && forall i :: 0 <= i < |items| ==> Kept(c, items[i])
    ensures UnfoldItems(c.Merged(), RewriteItems(items, c.rename), n) == UnfoldItems(c.Own(), items, n)
    decreases n, items
  {
    hide Carries, AllKept, Kept, Unfold;
    if items != [] {
      KeptMeansTheSame(c, items[0], n);
      KeptItems(c, items[1..], n);
      assert RewriteItems(items, c.rename)[1..] == RewriteItems(items[1..], c.rename);
    }
  }

  lemma {:induction false} KeptFields(c: Context, fields: seq<Field>, n: nat)
    requires Carries(c) && AllKept(c) && forall i :: 0 <= i < |fields| ==> KeptField(c, fields[i])
    ensures UnfoldFields(c.Merged(), RewriteFields(fields, c.rename), n) == UnfoldFields(c.Own(), fields, n)
    decreases n, fields
  {
    hide Carries, AllKept, KeptField, UnfoldField;
    if fields != [] {
      KeptFieldMeansTheSame(c, fields[0], n);
      KeptFields(c, fields[1..], n);
      assert RewriteFields(fields, c.rename)[1..] == RewriteFields(fields[1..], c.rename);
    }
  }

  lemma {:induction false} KeptFieldMeansTheSame(c: Context, f: Field, n: nat)
    requires Carries(c) && AllKept(c) && KeptField(c, f)
    ensures UnfoldField(c.Merged(), RewriteField(f, c.rename), n) == UnfoldField(c.Own(), f, n)
    decreases n, f
  {
    hide Carries, AllKept, Kept, RewriteSchemaRefs, Unfold;
    if IsLocalField(f) {
      RewrittenLocal(c, f);
      if IsRenamed(c, f.value.text) && Locate(c.env, RefName(f.value.text)).Some? {
        FoundIsKept(c, RefName(f.value.text));
        if n > 0 {
          KeptMeansTheSame(c, Locate(c.env, RefName(f.value.text)).value.value, n - 1);
        }
      }
      KeptRefMeansTheSame(c, f, n);
    } else {
      KeptMeansTheSame(c, f.value, n);
      StillNotLocal(f, c.rename);
    }
  }

  /** Rewriting a local reference. */
  lemma RewrittenLocal(c: Context, f: Field)
    requires IsLocalField(f)
    ensures RewriteField(f, c.rename) == Field(f.key, JStr(RenamedText(c, f.value.text)))
    ensures IsLocalField(RewriteField(f, c.rename))
  {
  }

  lemma StillNotLocal(f: Field, rename: Rename)
    requires !IsLocalField(f)
    ensures !IsLocalField(RewriteField(f, rename))
    ensures RewriteField(f, rename) == Field(f.key, RewriteSchemaRefs(f.value, rename))
  {
  }

  lemma KeptRefMeansTheSame(c: Context, f: Field, n: nat)
    requires Carries(c) && IsLocalField(f) && KeptRef(c, f.value.text)
    requires IsRenamed(c, f.value.text) && Locate(c.env, RefName(f.value.text)).Some? && n > 0 ==>
      var value := Locate(c.env, RefName(f.value.text)).value.value;
      Unfold(c.Merged(), RewriteSchemaRefs(value, c.rename), n - 1) == Unfold(c.Own(), value, n - 1)
    ensures UnfoldField(c.Merged(), Field(f.key, JStr(RenamedText(c, f.value.text))), n) == UnfoldField(c.Own(), f, n)
  {
    var text := f.value.text;
    StillLocal(c, text);
    hide Unfold, Target, TablesAgree, Shown, RewrittenAt, LandsOnRenamed, RewriteSchemaRefs, RenamedText, IsRenamed;
    hide IsLocal;
    if IsRenamed(c, text) {
      TargetRenamed(c, text);
      if Locate(c.env, RefName(text)).Some? {
        var found := Locate(c.env, RefName(text)).value;
        NothingRenamedThere(c, RefName(text));
        OwnSchemaShows(c, found.schema, found.path);
      }
    } else {
      assert RenamedText(c, text) == text by {
        UnrenamedText(c, text);
      }
    }
  }

  lemma UnrenamedText(c: Context, text: string)
    requires !IsRenamed(c, text)
    ensures RenamedText(c, text) == text
  {
  }

  lemma OwnSchemaShows(c: Context, schema: string, path: seq<string>)
    ensures Shown(c.Merged(), SCHEMA_TABLE + [c.mark + schema] + path) == Shown(c.Own(), SCHEMA_TABLE + [schema] + path)
  {
    var there := SCHEMA_TABLE + [c.mark + schema] + path;
    assert there[..2] == SCHEMA_TABLE && there[2] == c.mark + schema && there[3..] == path;
    assert (c.mark + schema)[|c.mark|..] == schema;
  }

  // ----- and only they do -----

  lemma {:induction false} SameMeaningIsKept(c: Context, node: Json)
    requires Carries(c)
    requires Unfold(c.Merged(), RewriteSchemaRefs(node, c.rename), 1) == Unfold(c.Own(), node, 1)
    ensures Kept(c, node)
  {
    match node
    case JArr(items) => SameItemsAreKept(c, items);
    case JObj(fields) => SameFieldsAreKept(c, fields);
    case _ =>
  }

  lemma {:induction false} SameItemsAreKept(c: Context, items: seq<Json>)
    requires Carries(c)
    requires UnfoldItems(c.Merged(), RewriteItems(items, c.rename), 1) == UnfoldItems(c.Own(), items, 1)
    ensures forall i :: 0 <= i < |items| ==> Kept(c, items[i])
  {
    hide Carries, Kept, Unfold;
    if items != [] {
      var a, b := UnfoldItems(c.Merged(), RewriteItems(items, c.rename), 1), UnfoldItems(c.Own(), items, 1);
      assert RewriteItems(items, c.rename)[1..] == RewriteItems(items[1..], c.rename);
      assert a[0] == b[0] && a[1..] == b[1..];
      SameMeaningIsKept(c, items[0]);
      SameItemsAreKept(c, items[1..]);
      assert forall i :: 0 < i < |items| ==> items[i] == items[1..][i - 1];
    }
  }

  lemma {:induction false} SameFieldsAreKept(c: Context, fields: seq<Field>)
    requires Carries(c)
    requires UnfoldFields(c.Merged(), RewriteFields(fields, c.rename), 1) == UnfoldFields(c.Own(), fields, 1)
    ensures forall i :: 0 <= i < |fields| ==> KeptField(c, fields[i])
  {
    hide Carries, KeptField, UnfoldField;
    if fields != [] {
      var a, b := UnfoldFields(c.Merged(), RewriteFields(fields, c.rename), 1), UnfoldFields(c.Own(), fields, 1);
      assert RewriteFields(fields, c.rename)[1..] == RewriteFields(fields[1..], c.rename);
      assert a[0] == b[0] && a[1..] == b[1..];
      SameFieldIsKept(c, fields[0]);
      SameFieldsAreKept(c, fields[1..]);
      assert forall i :: 0 < i < |fields| ==> fields[i] == fields[1..][i - 1];
    }
  }

  lemma {:induction false} SameFieldIsKept(c: Context, f: Field)
    requires Carries(c)
    requires UnfoldField(c.Merged(), RewriteField(f, c.rename), 1) == UnfoldField(c.Own(), f, 1)
    ensures KeptField(c, f)
  {
    hide Carries, Kept, RewriteSchemaRefs, Unfold, KeptRef;
    if IsLocalField(f) {
      RewrittenLocal(c, f);
      SameRefIsKept(c, f);
    } else {
      StillNotLocal(f, c.rename);
      SameMeaningIsKept(c, f.value);
    }
  }

  lemma SameRefIsKept(c: Context, f: Field)
    requires Carries(c) && IsLocalField(f)
    requires UnfoldField(c.Merged(), Field(f.key, JStr(RenamedText(c, f.value.text))), 1) == UnfoldField(c.Own(), f, 1)
    ensures KeptRef(c, f.value.text)
  {
    var text := f.value.text;
    StillLocal(c, text);
    MarkIsNotEmpty(c);
    hide Unfold, Target, TablesAgree, LandsOnRenamed, Denotation, RewrittenAt, RenamedText, IsRenamed, IsLocal;
    var own, there := Target(c.doc, text), Target(c.whole, RenamedText(c, text));
    if own.Some? {
      IsNoNull(c.Own(), own.value.path, Unfold(c.Own(), own.value.value, 0));
    }
    if there.Some? {
      IsNoNull(c.Merged(), there.value.path, Unfold(c.Merged(), there.value.value, 0));
    }
    if own.Some? && there.Some? {
      DenotationShows(c, own.value.path, there.value.path,
        Unfold(c.Own(), own.value.value, 0), Unfold(c.Merged(), there.value.value, 0));
    }
    if IsRenamed(c, text) {
      TargetRenamed(c, text);
      if LandsOnRenamed(c, RefName(text)) {
        LandsSomewhere(c, RefName(text));
        RenamedTextShows(c, RefName(text));
      }
    } else {
      UnrenamedText(c, text);
      if own.Some? && there.Some? {
        TargetPath(c.doc, c.whole, text);
        NothingCorrespondsToItself(c, own.value.path);
      }
    }
  }

  lemma LandsSomewhere(c: Context, name: string)
    requires LandsOnRenamed(c, name)
    ensures Locate(c.env, name).Some?
  {
  }

  lemma IsNoNull(v: View, path: seq<string>, content: Json)
    ensures Denotation(v, path, content) != JNull
  {
  }

  lemma StringsDiffer(a: seq<string>, b: seq<string>)
    requires Strings(a) == Strings(b)
    ensures a == b
  {
    assert |a| == |b|;
    forall i | 0 <= i < |a| ensures a[i] == b[i] {
      assert Strings(a)[i] == JStr(a[i]) && Strings(b)[i] == JStr(b[i]);
    }
  }

  /** Two denotations are the same only with corresponding places and the same content. */
  lemma DenotationShows(c: Context, own: seq<string>, there: seq<string>, content: Json, content': Json)
    ensures Denotation(c.Merged(), there, content') == Denotation(c.Own(), own, content) ==>
      Corresponds(c, own, there) && content' == content
  {
    var a, b := Denotation(c.Merged(), there, content'), Denotation(c.Own(), own, content);
    if a == b {
      assert a.fields[0] == b.fields[0] && a.fields[1] == b.fields[1];
      ShownCorresponds(c, own, there);
    }
  }

  lemma ShownCorresponds(c: Context, own: seq<string>, there: seq<string>)
    requires Shown(c.Merged(), there) == Shown(c.Own(), own)
    ensures Corresponds(c, own, there)
  {
    assert OwnPlace(c.Merged(), there).Some?;
    var back := OwnPlace(c.Merged(), there).value;
    StringsDiffer(back, own);
    assert there == SCHEMA_TABLE + [there[2]] + there[3..];
    assert there[2] == c.mark + there[2][|c.mark|..];
    assert own[..2] == SCHEMA_TABLE && own[2] == there[2][|c.mark|..] && own[3..] == there[3..];
  }

  lemma RenamedTextShows(c: Context, name: string)
    requires TablesAgree(c) && LandsOnRenamed(c, name)
    ensures var found := Locate(c.env, name).value;
            Unfold(c.Merged(), RewrittenAt(found.path, found.value, c.rename), 0) != Unfold(c.Own(), found.value, 0)
  {
    var found := Locate(c.env, name).value;
    var old_ := RefName(found.value.text);
    hide Locate, Lookup;
    assert found.value.text == REF_PREFIX + old_;
    assert |c.rename[old_]| > |old_|;
  }
}
