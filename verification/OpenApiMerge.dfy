/** Merging the upstreams' OpenAPI documents: paths re-based, schemas namespaced, references rewritten. */
module OpenApiMerge {
  import opened SharedTypes
  import opened Routing

  /** A JSON value; an object lists its entries in insertion order. */
  datatype Json =
    | JNull
    | JBool(flag: bool)
    | JNum(number: real)
    | JStr(text: string)
    | JArr(items: seq<Json>)
    | JObj(fields: seq<Field>)

  datatype Field = Field(key: string, value: Json)

  // ----- objects -----

  predicate Has(fields: seq<Field>, key: string) {
    exists i :: 0 <= i < |fields| && fields[i].key == key
  }

  function Lookup(fields: seq<Field>, key: string): (r: Option<Json>)
    ensures r.Some? <==> Has(fields, key)
    ensures r.Some? ==> Field(key, r.value) in fields
  {
    if fields == [] then None
    else if fields[0].key == key then Some(fields[0].value)
    else
      var r := Lookup(fields[1..], key);
      assert Has(fields[1..], key) ==> Has(fields, key);
      assert Has(fields, key) ==> Has(fields[1..], key) by {
        if i :| 0 <= i < |fields| && fields[i].key == key {
          assert fields[1..][i - 1].key == key;
        }
      }
      r
  }

  /** Assigning a property: in place when the key exists, at the end otherwise. */
  function Put(fields: seq<Field>, key: string, value: Json): (r: seq<Field>)
    ensures r != []
  {
    if fields == [] then [Field(key, value)]
    else if fields[0].key == key then [Field(key, value)] + fields[1..]
    else [fields[0]] + Put(fields[1..], key, value)
  }

  lemma {:induction false} LookupAfterPut(fields: seq<Field>, key: string, value: Json, other: string)
    ensures Lookup(Put(fields, key, value), other) == if other == key then Some(value) else Lookup(fields, other)
  {
    if fields != [] && fields[0].key != key {
      var rest := Put(fields[1..], key, value);
      LookupAfterPut(fields[1..], key, value, other);
      assert ([fields[0]] + rest)[1..] == rest;
    } else if fields != [] {
      assert ([Field(key, value)] + fields[1..])[1..] == fields[1..];
    }
  }

  // ----- names and references -----

  predicate AlphaNumeric(c: char) {
    'a' <= c <= 'z' || 'A' <= c <= 'Z' || '0' <= c <= '9'
  }

  predicate GoodPart(part: string) {
    part != [] && forall c :: c in part ==> AlphaNumeric(c)
  }

  /** The first run of letters and digits, and what follows it. */
  function TakeRun(id: string): (run: string)
    ensures run <= id && forall c :: c in run ==> AlphaNumeric(c)
  {
    if id != [] && AlphaNumeric(id[0]) then
      assert id == [id[0]] + id[1..];
      [id[0]] + TakeRun(id[1..])
    else []
  }

  /** The non-empty runs of letters and digits, as splitting at everything else and filtering leaves them. */
  function Parts(id: string): (parts: seq<string>)
    ensures forall part :: part in parts ==> GoodPart(part)
    decreases |id|
  {
    if id == [] then []
    else if !AlphaNumeric(id[0]) then Parts(id[1..])
    else
      var run := TakeRun(id);
      assert run != [] by { assert id[0] == ([id[0]] + TakeRun(id[1..]))[0]; }
      [run] + Parts(id[|run|..])
  }

  function ToUpper(c: char): char {
    if 'a' <= c <= 'z' then (c as int - 'a' as int + 'A' as int) as char else c
  }

  function Capitalized(parts: seq<string>): (r: string)
    requires forall part :: part in parts ==> GoodPart(part)
    ensures forall c :: c in r ==> AlphaNumeric(c)
  {
    if parts == [] then []
    else
      assert GoodPart(parts[0]);
      [ToUpper(parts[0][0])] + parts[0][1..] + Capitalized(parts[1..])
  }

  function SchemaNamespace(id: string): (r: string)
    ensures forall c :: c in r ==> AlphaNumeric(c)
  {
    Capitalized(Parts(id))
  }

  const REF_PREFIX := "#/components/schemas/"

  predicate IsLocalRef(text: string) {
    REF_PREFIX <= text
  }

  function RefName(text: string): string
    requires IsLocalRef(text)
  {
    text[|REF_PREFIX|..]
  }

  function QualifiedName(namespace: string, name: string): string {
    namespace + "_" + name
  }

  lemma SameNamespace(a: string, b: string, x: string, y: string)
    requires (forall c :: c in a ==> AlphaNumeric(c)) && (forall c :: c in b ==> AlphaNumeric(c))
    requires a + "_" + x == b + "_" + y
    ensures a == b && x == y
  {
    var s := a + "_" + x;
    forall i | 0 <= i < |a| ensures s[i] != '_' {
      assert a[i] in a;
    }
    forall i | 0 <= i < |b| ensures (b + "_" + y)[i] != '_' {
      assert b[i] in b;
    }
    assert s[|a|] == '_' && (b + "_" + y)[|b|] == '_';
    assert |a| == |b|;
    assert a == s[..|a|] && b == s[..|a|];
    assert x == s[|a| + 1..] && y == s[|a| + 1..];
  }

  /** Qualified names of different upstreams never coincide: the namespace has no underscore. */
  lemma QualifiedNamesDiffer(id1: string, id2: string, x: string, y: string)
    ensures QualifiedName(SchemaNamespace(id1), x) == QualifiedName(SchemaNamespace(id2), y)
       <==> SchemaNamespace(id1) == SchemaNamespace(id2) && x == y
  {
    if QualifiedName(SchemaNamespace(id1), x) == QualifiedName(SchemaNamespace(id2), y) {
      SameNamespace(SchemaNamespace(id1), SchemaNamespace(id2), x, y);
    }
  }

  type Rename = map<string, string>

  function RewriteRef(text: string, rename: Rename): string
    requires IsLocalRef(text)
  {
    if RefName(text) in rename then REF_PREFIX + rename[RefName(text)] else text
  }

  predicate IsRefField(f: Field) {
    f.key == "$ref" && f.value.JStr? && IsLocalRef(f.value.text)
  }

  /** Rewrites local schema references everywhere in a fragment. */
  function RewriteSchemaRefs(node: Json, rename: Rename): Json {
    match node
    case JArr(items) => JArr(RewriteItems(items, rename))
    case JObj(fields) => JObj(RewriteFields(fields, rename))
    case _ => node
  }

  function RewriteItems(items: seq<Json>, rename: Rename): (r: seq<Json>)
    ensures |r| == |items|
    ensures forall i :: 0 <= i < |r| ==> r[i] == RewriteSchemaRefs(items[i], rename)
  {
    if items == [] then [] else [RewriteSchemaRefs(items[0], rename)] + RewriteItems(items[1..], rename)
  }

  function RewriteField(f: Field, rename: Rename): Field {
    if IsRefField(f) then Field(f.key, JStr(RewriteRef(f.value.text, rename)))
    else Field(f.key, RewriteSchemaRefs(f.value, rename))
  }

  function RewriteFields(fields: seq<Field>, rename: Rename): (r: seq<Field>)
    ensures |r| == |fields|
    ensures forall i :: 0 <= i < |r| ==> r[i] == RewriteField(fields[i], rename)
  {
    if fields == [] then [] else [RewriteField(fields[0], rename)] + RewriteFields(fields[1..], rename)
  }

  // ----- tagging a path item -----

  const HTTP_METHODS := ["get", "put", "post", "delete", "options", "head", "patch", "trace"]

  function TagOperation(op: seq<Field>, tag: string): seq<Field> {
    var existing := match Lookup(op, "tags") case Some(JArr(items)) => items case _ => [];
    Put(op, "tags", JArr(if |existing| > 0 then existing else [JStr(tag)]))
  }

  /** The loop over the first n methods. */
  function TagMethods(fields: seq<Field>, tag: string, n: nat): seq<Field>
    requires n <= |HTTP_METHODS|
  {
    if n == 0 then fields
    else
      var out := TagMethods(fields, tag, n - 1);
      match Lookup(out, HTTP_METHODS[n - 1])
      case Some(JObj(op)) => Put(out, HTTP_METHODS[n - 1], JObj(TagOperation(op, tag)))
      case _ => out
  }

  function TagPathItem(item: seq<Field>, tag: string): seq<Field> {
    TagMethods(item, tag, |HTTP_METHODS|)
  }

  method TagPathItemLoop(item: seq<Field>, tag: string) returns (out: seq<Field>)
    ensures out == TagPathItem(item, tag)
  {
    hide Lookup, Put, TagOperation;
    out := item;
    for i := 0 to |HTTP_METHODS|
      invariant out == TagMethods(item, tag, i)
    {
      match Lookup(out, HTTP_METHODS[i]) {
        case Some(JObj(op)) =>
          out := Put(out, HTTP_METHODS[i], JObj(TagOperation(op, tag)));
        case _ =>
      }
    }
  }

  // ----- merging -----

  /** An upstream's contribution; doc is None when it could not be fetched. */
  datatype UpstreamSpecInput = UpstreamSpecInput(id: string, title: string, prefix: string, doc: Option<Json>)

  datatype Merged = Merged(paths: seq<Field>, schemas: seq<Field>, tags: seq<string>)

  function Indexed(items: seq<Json>): seq<Field> {
    if items == [] then []
    else Indexed(items[..|items| - 1]) + [Field(Decimal(|items| - 1), items[|items| - 1])]
  }

  function Characters(text: string): seq<Json> {
    if text == [] then [] else Characters(text[..|text| - 1]) + [JStr([text[|text| - 1]])]
  }

  /** The own entries of a value spread into a new object. */
  function Spread(item: Json): seq<Field> {
    match item
    case JObj(fields) => fields
    case JArr(items) => Indexed(items)
    case JStr(text) => Indexed(Characters(text))
    case _ => []
  }

  function RecordAt(fields: seq<Field>, key: string): Option<seq<Field>> {
    match Lookup(fields, key) case Some(JObj(inner)) => Some(inner) case _ => None
  }

  /** The component schemas of a document, if it has any. */
  function SchemasOf(input: UpstreamSpecInput): seq<Field> {
    match input.doc
    case Some(JObj(fields)) =>
      (match RecordAt(fields, "components")
       case Some(components) => (match RecordAt(components, "schemas") case Some(schemas) => schemas case None => [])
       case None => [])
    case _ => []
  }

  function PathsOf(input: UpstreamSpecInput): seq<Field> {
    match input.doc
    case Some(JObj(fields)) => (match RecordAt(fields, "paths") case Some(paths) => paths case None => [])
    case _ => []
  }

  predicate HasDocument(input: UpstreamSpecInput) {
    input.doc.Some? && input.doc.value.JObj?
  }

  function RenameOf(namespace: string, schemas: seq<Field>): (rename: Rename)
    ensures forall name :: name in rename <==> Has(schemas, name)
    ensures forall name :: name in rename ==> rename[name] == QualifiedName(namespace, name)
  {
    if schemas == [] then map[]
    else
      var n := |schemas| - 1;
      var r := RenameOf(namespace, schemas[..n]);
      assert forall name :: Has(schemas, name) <==> Has(schemas[..n], name) || name == schemas[n].key by {
        forall name ensures Has(schemas, name) <==> Has(schemas[..n], name) || name == schemas[n].key {
          if i :| 0 <= i < |schemas| && schemas[i].key == name {
            assert i < n ==> schemas[..n][i].key == name;
          }
          if i :| 0 <= i < n && schemas[..n][i].key == name {
            assert schemas[i].key == name;
          }
        }
      }
      r[schemas[n].key := QualifiedName(namespace, schemas[n].key)]
  }

  function RenameFor(input: UpstreamSpecInput): Rename {
    RenameOf(SchemaNamespace(input.id), SchemasOf(input))
  }

  function MergedItem(input: UpstreamSpecInput, item: Json): Json {
    JObj(TagPathItem(Spread(RewriteSchemaRefs(item, RenameFor(input))), input.title))
  }

  /** The path loop over the first n paths of an upstream. */
  function AddPaths(acc: seq<Field>, input: UpstreamSpecInput, n: nat): seq<Field>
    requires n <= |PathsOf(input)|
  {
    if n == 0 then acc
    else
      var f := PathsOf(input)[n - 1];
      Put(AddPaths(acc, input, n - 1), JoinPath(input.prefix, f.key), MergedItem(input, f.value))
  }

  /** The schema loop over the first n schemas of an upstream. */
  function AddSchemas(acc: seq<Field>, input: UpstreamSpecInput, n: nat): seq<Field>
    requires n <= |SchemasOf(input)|
  {
    if n == 0 then acc
    else
      var f := SchemasOf(input)[n - 1];
      Put(AddSchemas(acc, input, n - 1), QualifiedName(SchemaNamespace(input.id), f.key),
          RewriteSchemaRefs(f.value, RenameFor(input)))
  }

  function AddUpstream(acc: Merged, input: UpstreamSpecInput): Merged {
    if !HasDocument(input) then acc
    else
      Merged(
        AddPaths(acc.paths, input, |PathsOf(input)|),
        AddSchemas(acc.schemas, input, |SchemasOf(input)|),
        acc.tags + [input.title])
  }

  function MergeAll(inputs: seq<UpstreamSpecInput>): Merged {
    if inputs == [] then Merged([], [], [])
    else AddUpstream(MergeAll(inputs[..|inputs| - 1]), inputs[|inputs| - 1])
  }

  /** The top-level `info` block of the merged document. */
  datatype MergedInfo = MergedInfo(title: string, version: string, description: Option<string>)

  function InfoObject(info: MergedInfo): Json {
    var described := match info.description case Some(text) => [Field("description", JStr(text))] case None => [];
    JObj([Field("title", JStr(info.title)), Field("version", JStr(info.version))] + described)
  }

  function TagObject(title: string): Json {
    JObj([Field("name", JStr(title)), Field("description", JStr("Operations served by " + title + "."))])
  }

  function TagObjects(titles: seq<string>): seq<Json> {
    seq(|titles|, i requires 0 <= i < |titles| => TagObject(titles[i]))
  }

  /** The merged document around the merged tables. */
  function MergedDocument(m: Merged, info: MergedInfo): Json {
    JObj([Field("openapi", JStr("3.0.0")),
          Field("info", InfoObject(info)),
          Field("paths", JObj(m.paths)),
          Field("components", JObj([Field("schemas", JObj(m.schemas))])),
          Field("tags", JArr(TagObjects(m.tags)))])
  }

  method MergeOpenApiDocuments(inputs: seq<UpstreamSpecInput>, info: MergedInfo) returns (merged: Json)
    ensures merged == MergedDocument(MergeAll(inputs), info)
  {
    hide SchemaNamespace, SchemasOf, PathsOf, JoinPath, Put, TagPathItem, RewriteSchemaRefs, HasDocument;
    var mergedPaths: seq<Field>, mergedSchemas: seq<Field>, tags: seq<string> := [], [], [];
    for k := 0 to |inputs|
      invariant Merged(mergedPaths, mergedSchemas, tags) == MergeAll(inputs[..k])
    {
      var input := inputs[k];
      ghost var before := MergeAll(inputs[..k]);
      assert inputs[..k + 1][..k] == inputs[..k];
      if HasDocument(input) {
        var namespace := SchemaNamespace(input.id);
        tags := tags + [input.title];
        var schemas, paths := SchemasOf(input), PathsOf(input);
        var rename := RenameOf(namespace, schemas);
        for i := 0 to |paths|
          invariant mergedPaths == AddPaths(before.paths, input, i)
        {
          var item := TagPathItemLoop(Spread(RewriteSchemaRefs(paths[i].value, rename)), input.title);
          mergedPaths := Put(mergedPaths, JoinPath(input.prefix, paths[i].key), JObj(item));
        }
        for i := 0 to |schemas|
          invariant mergedSchemas == AddSchemas(before.schemas, input, i)
        {
          var rewritten := RewriteSchemaRefs(schemas[i].value, rename);
          mergedSchemas := Put(mergedSchemas, QualifiedName(namespace, schemas[i].key), rewritten);
        }
      }
    }
    assert inputs[..|inputs|] == inputs;
    merged := MergedDocument(Merged(mergedPaths, mergedSchemas, tags), info);
  }
}
