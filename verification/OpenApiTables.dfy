/** What the merged document holds: every schema and path of the upstreams under its new name, and nothing else. */
module OpenApiTables {
  import opened SharedTypes
  import opened Routing
  import opened OpenApiMerge
  import opened OpenApiPointer

  // ----- the merged schemas -----

  ghost predicate DistinctFields(fields: seq<Field>) {
    forall i, j :: 0 <= i < j < |fields| ==> fields[i].key != fields[j].key
  }

  lemma {:induction false} LookupDistinct(fields: seq<Field>, i: nat)
    requires DistinctFields(fields) && i < |fields|
    ensures Lookup(fields, fields[i].key) == Some(fields[i].value)
  {
    if i > 0 {
      LookupDistinct(fields[1..], i - 1);
    }
  }

  lemma {:induction false} UnaffectedBySchemas(acc: seq<Field>, input: UpstreamSpecInput, n: nat, key: string)
    requires n <= |SchemasOf(input)|
    requires forall i :: 0 <= i < n ==> QualifiedName(SchemaNamespace(input.id), SchemasOf(input)[i].key) != key
    ensures Lookup(AddSchemas(acc, input, n), key) == Lookup(acc, key)
  {
    hide Lookup, Put, RewriteSchemaRefs, SchemaNamespace, SchemasOf;
    if n > 0 {
      UnaffectedBySchemas(acc, input, n - 1, key);
      var f := SchemasOf(input)[n - 1];
      LookupAfterPut(AddSchemas(acc, input, n - 1), QualifiedName(SchemaNamespace(input.id), f.key),
                     RewriteSchemaRefs(f.value, RenameFor(input)), key);
    }
  }

  lemma {:induction false} SchemaIsPlaced(acc: seq<Field>, input: UpstreamSpecInput, n: nat, i: nat)
    requires i < n <= |SchemasOf(input)| && DistinctFields(SchemasOf(input))
    ensures Lookup(AddSchemas(acc, input, n), QualifiedName(SchemaNamespace(input.id), SchemasOf(input)[i].key))
         == Some(RewriteSchemaRefs(SchemasOf(input)[i].value, RenameFor(input)))
  {
    hide Lookup, Put, RewriteSchemaRefs, SchemaNamespace, SchemasOf, QualifiedName;
    var f, g := SchemasOf(input)[n - 1], SchemasOf(input)[i];
    LookupAfterPut(AddSchemas(acc, input, n - 1), QualifiedName(SchemaNamespace(input.id), f.key),
                   RewriteSchemaRefs(f.value, RenameFor(input)), QualifiedName(SchemaNamespace(input.id), g.key));
    if i < n - 1 {
      SchemaIsPlaced(acc, input, n - 1, i);
      QualifiedNamesDiffer(input.id, input.id, g.key, f.key);
    }
  }

  /** The documents' namespaces are pairwise distinct, and each document's schema names are distinct. */
  ghost predicate DistinctNamespaces(inputs: seq<UpstreamSpecInput>) {
    && (forall i, j :: 0 <= i < j < |inputs| ==> SchemaNamespace(inputs[i].id) != SchemaNamespace(inputs[j].id))
    && (forall i :: 0 <= i < |inputs| ==> DistinctFields(SchemasOf(inputs[i])))
  }

  /** In the merged document every schema stands under its qualified name, rewritten. */
  lemma {:induction false} SchemaIsMerged(inputs: seq<UpstreamSpecInput>, i: nat, k: nat)
    requires DistinctNamespaces(inputs) && i < |inputs| && k < |SchemasOf(inputs[i])|
    ensures var f := SchemasOf(inputs[i])[k];
            Lookup(MergeAll(inputs).schemas, QualifiedName(SchemaNamespace(inputs[i].id), f.key))
              == Some(RewriteSchemaRefs(f.value, RenameFor(inputs[i])))
  {
    hide Lookup, RewriteSchemaRefs, SchemaNamespace, RenameFor, QualifiedName, AddSchemas, AddPaths;
    var front, last := inputs[..|inputs| - 1], inputs[|inputs| - 1];
    var f := SchemasOf(inputs[i])[k];
    var key := QualifiedName(SchemaNamespace(inputs[i].id), f.key);
    if i == |inputs| - 1 {
      SchemaIsPlaced(MergeAll(front).schemas, last, |SchemasOf(last)|, k);
    } else {
      SchemaIsMerged(front, i, k);
      forall l | 0 <= l < |SchemasOf(last)|
        ensures QualifiedName(SchemaNamespace(last.id), SchemasOf(last)[l].key) != key {
        QualifiedNamesDiffer(last.id, inputs[i].id, SchemasOf(last)[l].key, f.key);
      }
      UnaffectedBySchemas(MergeAll(front).schemas, last, |SchemasOf(last)|, key);
    }
  }

  /** The key is the qualified name of one of the upstream's schemas. */
  ghost predicate QualifiedBy(input: UpstreamSpecInput, key: string) {
    exists k :: 0 <= k < |SchemasOf(input)| && key == QualifiedName(SchemaNamespace(input.id), SchemasOf(input)[k].key)
  }

  lemma {:induction false} HasAfterSchemas(acc: seq<Field>, input: UpstreamSpecInput, n: nat, key: string)
    requires n <= |SchemasOf(input)| && Has(AddSchemas(acc, input, n), key)
    ensures Has(acc, key) || QualifiedBy(input, key)
  {
    hide Put, RewriteSchemaRefs, SchemaNamespace, SchemasOf, RenameFor, QualifiedName;
    if n > 0 {
      var f := SchemasOf(input)[n - 1];
      LookupAfterPut(AddSchemas(acc, input, n - 1), QualifiedName(SchemaNamespace(input.id), f.key),
                     RewriteSchemaRefs(f.value, RenameFor(input)), key);
      if key != QualifiedName(SchemaNamespace(input.id), f.key) {
        HasAfterSchemas(acc, input, n - 1, key);
      }
    }
  }

  /** Every key of the merged schema table is some document's qualified schema name. */
  lemma {:induction false} MergedKeysAreQualified(inputs: seq<UpstreamSpecInput>, key: string)
    requires Has(MergeAll(inputs).schemas, key)
    ensures exists i :: 0 <= i < |inputs| && QualifiedBy(inputs[i], key)
  {
    hide SchemaNamespace, SchemasOf, QualifiedName, AddSchemas, AddPaths;
    var front, last := inputs[..|inputs| - 1], inputs[|inputs| - 1];
    if HasDocument(last) {
      HasAfterSchemas(MergeAll(front).schemas, last, |SchemasOf(last)|, key);
    }
    if Has(MergeAll(front).schemas, key) {
      MergedKeysAreQualified(front, key);
      var i :| 0 <= i < |front| && QualifiedBy(front[i], key);
      assert inputs[i] == front[i];
    } else {
      assert QualifiedBy(inputs[|inputs| - 1], key);
    }
  }

  lemma QualifiedIsLonger(input: UpstreamSpecInput, key: string)
    requires QualifiedBy(input, key)
    ensures exists f :: f in SchemasOf(input) && |f.key| < |key|
  {
    hide SchemasOf, SchemaNamespace;
    var k :| 0 <= k < |SchemasOf(input)| && key == QualifiedName(SchemaNamespace(input.id), SchemasOf(input)[k].key);
    assert SchemasOf(input)[k] in SchemasOf(input);
  }

  // ----- the merged paths -----

  /** No two published paths are re-based to the same key. */
  ghost predicate KeysUnique(inputs: seq<UpstreamSpecInput>) {
    && (forall i, a, b :: 0 <= i < |inputs| && 0 <= a < b < |PathsOf(inputs[i])| ==>
          MergedKey(inputs[i], a) != MergedKey(inputs[i], b))
    && (forall i, j, a, b :: 0 <= i < j < |inputs| && 0 <= a < |PathsOf(inputs[i])| && 0 <= b < |PathsOf(inputs[j])| ==>
          MergedKey(inputs[i], a) != MergedKey(inputs[j], b))
  }

  function MergedKey(input: UpstreamSpecInput, a: nat): string
    requires a < |PathsOf(input)|
  {
    JoinPath(input.prefix, PathsOf(input)[a].key)
  }

  lemma {:induction false} UnaffectedByPaths(acc: seq<Field>, input: UpstreamSpecInput, n: nat, key: string)
    requires n <= |PathsOf(input)| && forall a :: 0 <= a < n ==> MergedKey(input, a) != key
    ensures Lookup(AddPaths(acc, input, n), key) == Lookup(acc, key)
  {
    hide Lookup, Put, MergedItem, PathsOf;
    if n > 0 {
      UnaffectedByPaths(acc, input, n - 1, key);
      assert MergedKey(input, n - 1) != key;
      LookupAfterPut(AddPaths(acc, input, n - 1), MergedKey(input, n - 1),
        MergedItem(input, PathsOf(input)[n - 1].value), key);
    }
  }

  lemma {:induction false} PathIsPlaced(acc: seq<Field>, input: UpstreamSpecInput, n: nat, a: nat)
    requires a < n <= |PathsOf(input)|
    requires forall b, c :: 0 <= b < c < |PathsOf(input)| ==> MergedKey(input, b) != MergedKey(input, c)
    ensures Lookup(AddPaths(acc, input, n), MergedKey(input, a)) == Some(MergedItem(input, PathsOf(input)[a].value))
  {
    hide Lookup, Put, MergedItem, PathsOf, JoinPath;
    LookupAfterPut(AddPaths(acc, input, n - 1), MergedKey(input, n - 1), MergedItem(input, PathsOf(input)[n - 1].value),
                   MergedKey(input, a));
    if a < n - 1 {
      PathIsPlaced(acc, input, n - 1, a);
    }
  }

  /** Every published path stands in the merged document under its re-based key. */
  lemma {:induction false} PathIsMerged(inputs: seq<UpstreamSpecInput>, i: nat, a: nat)
    requires KeysUnique(inputs) && i < |inputs| && a < |PathsOf(inputs[i])|
    ensures Lookup(MergeAll(inputs).paths, MergedKey(inputs[i], a))
         == Some(MergedItem(inputs[i], PathsOf(inputs[i])[a].value))
  {
    hide Lookup, MergedItem, AddPaths, AddSchemas, JoinPath, MergedKey;
    var front, last := inputs[..|inputs| - 1], inputs[|inputs| - 1];
    if i == |inputs| - 1 {
      PathIsPlaced(MergeAll(front).paths, last, |PathsOf(last)|, a);
    } else {
      PathIsMerged(front, i, a);
      UnaffectedByPaths(MergeAll(front).paths, last, |PathsOf(last)|, MergedKey(inputs[i], a));
    }
  }

  /** Each input belongs to an entry of the routing table, different inputs to entries with different prefixes;
      and an upstream names its paths with a leading slash and distinctly. */
  ghost predicate WellPublished(inputs: seq<UpstreamSpecInput>, definitions: seq<UpstreamDefinition>) {
    && (forall i :: 0 <= i < |inputs| ==> exists d :: d in definitions && d.prefix == inputs[i].prefix)
    && (forall i, j :: 0 <= i < j < |inputs| ==> inputs[i].prefix != inputs[j].prefix)
    && (forall i :: 0 <= i < |inputs| ==> DistinctFields(PathsOf(inputs[i])))
    && (forall i, a :: 0 <= i < |inputs| && 0 <= a < |PathsOf(inputs[i])| ==>
         StartsWithSlash(PathsOf(inputs[i])[a].key))
  }

  /** With a disjoint routing table the merged path keys never collide. */
  lemma PublishedKeysAreUnique(inputs: seq<UpstreamSpecInput>, definitions: seq<UpstreamDefinition>)
    requires Disjoint(definitions) && WellPublished(inputs, definitions)
    ensures KeysUnique(inputs)
  {
    hide PathsOf, JoinPath, Disjoint;
    forall i, a, b | 0 <= i < |inputs| && 0 <= a < b < |PathsOf(inputs[i])|
      ensures MergedKey(inputs[i], a) != MergedKey(inputs[i], b)
    {
      var d :| d in definitions && d.prefix == inputs[i].prefix;
      JoinedKeysCollideIff(definitions, d, d, PathsOf(inputs[i])[a].key, PathsOf(inputs[i])[b].key);
    }
    forall i, j, a, b | 0 <= i < j < |inputs| && 0 <= a < |PathsOf(inputs[i])| && 0 <= b < |PathsOf(inputs[j])|
      ensures MergedKey(inputs[i], a) != MergedKey(inputs[j], b)
    {
      var d :| d in definitions && d.prefix == inputs[i].prefix;
      var e :| e in definitions && e.prefix == inputs[j].prefix;
      JoinedKeysCollideIff(definitions, d, e, PathsOf(inputs[i])[a].key, PathsOf(inputs[j])[b].key);
    }
  }

  // ----- tags -----

  /** The operations of a path item. */
  ghost predicate IsMethod(key: string) {
    key in {"get", "put", "post", "delete", "options", "head", "patch", "trace"}
  }

  /** The operation `after` is `before` with its tags, or with this one if it has none. */
  ghost predicate Tagged(before: seq<Field>, after: seq<Field>, tag: string) {
    forall key :: Lookup(after, key) ==
      if key != "tags" then Lookup(before, key)
      else
        match Lookup(before, "tags")
        case Some(JArr(items)) => Some(JArr(if items == [] then [JStr(tag)] else items))
        case _ => Some(JArr([JStr(tag)]))
  }

  lemma OperationIsTagged(op: seq<Field>, tag: string)
    ensures Tagged(op, TagOperation(op, tag), tag)
  {
    hide Lookup, Put;
    var existing := match Lookup(op, "tags") case Some(JArr(items)) => items case _ => [];
    forall key
      ensures Lookup(TagOperation(op, tag), key)
        == if key == "tags" then Some(JArr(if |existing| > 0 then existing else [JStr(tag)])) else Lookup(op, key)
    {
      LookupAfterPut(op, "tags", JArr(if |existing| > 0 then existing else [JStr(tag)]), key);
    }
  }

  /** What stands at a key after the loop over the first n methods. */
  ghost predicate TaggedAt(item: seq<Field>, out: seq<Field>, tag: string, key: string, isMethod: bool) {
    match Lookup(item, key)
    case Some(JObj(op)) =>
      if isMethod then Lookup(out, key).Some? && Lookup(out, key).value.JObj?
                       && Tagged(op, Lookup(out, key).value.fields, tag)
      else Lookup(out, key) == Lookup(item, key)
    case _ => Lookup(out, key) == Lookup(item, key)
  }

  lemma MethodsDiffer(i: nat, j: nat)
    requires i < j < |HTTP_METHODS|
    ensures HTTP_METHODS[i] != HTTP_METHODS[j]
  {
    var a, b := HTTP_METHODS[i], HTTP_METHODS[j];
    assert a[0] != b[0] || a[1] != b[1];
  }

  lemma {:induction false} MethodsAreTagged(item: seq<Field>, tag: string, n: nat, key: string)
    requires n <= |HTTP_METHODS|
    ensures TaggedAt(item, TagMethods(item, tag, n), tag, key, exists i :: 0 <= i < n && HTTP_METHODS[i] == key)
  {
    hide Lookup, Put, TagOperation, Tagged, HTTP_METHODS;
    if n > 0 {
      MethodsAreTagged(item, tag, n - 1, key);
      var out, name := TagMethods(item, tag, n - 1), HTTP_METHODS[n - 1];
      if Lookup(out, name).Some? && Lookup(out, name).value.JObj? {
        var op := Lookup(out, name).value.fields;
        LookupAfterPut(out, name, JObj(TagOperation(op, tag)), key);
        OperationIsTagged(op, tag);
      }
      forall i | 0 <= i < n - 1 ensures HTTP_METHODS[i] != HTTP_METHODS[n - 1] {
        MethodsDiffer(i, n - 1);
      }
    }
  }

  /** Tagging a path item gives the tag to each of its operations that has none, and changes nothing else in it. */
  lemma ItemIsTagged(item: seq<Field>, tag: string, key: string)
    ensures TaggedAt(item, TagPathItem(item, tag), tag, key, IsMethod(key))
  {
    MethodsAreTagged(item, tag, |HTTP_METHODS|, key);
    MethodIsListed(key);
    hide TaggedAt, TagMethods, HTTP_METHODS;
  }

  lemma MethodIsListed(key: string)
    ensures IsMethod(key) <==> exists i :: 0 <= i < |HTTP_METHODS| && HTTP_METHODS[i] == key
  {
    var m := HTTP_METHODS;
    assert |m| == 8;
    assert m[0] == "get" && m[1] == "put" && m[2] == "post" && m[3] == "delete";
    assert m[4] == "options" && m[5] == "head" && m[6] == "patch" && m[7] == "trace";
  }

  // ----- names -----

  function Capital(c: char): char {
    if 'a' <= c <= 'z' then (c as int - 32) as char else c
  }

  predicate LetterOrDigit(c: char) {
    'a' <= c <= 'z' || 'A' <= c <= 'Z' || '0' <= c <= '9'
  }

  lemma {:induction false} RunIsTaken(run: string, rest: string)
    requires (forall c :: c in run ==> LetterOrDigit(c)) && (rest == "" || !LetterOrDigit(rest[0]))
    ensures TakeRun(run + rest) == run
  {
    if run == "" {
      assert run + rest == rest;
    } else {
      assert (run + rest)[0] == run[0] && (run + rest)[1..] == run[1..] + rest;
      assert run[0] in run && run == [run[0]] + run[1..];
      RunIsTaken(run[1..], rest);
    }
  }

  /** Namespaces are made run by run: of a word, the word with a capital letter; of what a separator separates, one
      after the other. */
  lemma NamespaceOfWord(word: string)
    requires word != "" && forall c :: c in word ==> LetterOrDigit(c)
    ensures SchemaNamespace(word) == [Capital(word[0])] + word[1..]
  {
    RunIsTaken(word, "");
    assert word + "" == word && word[|word|..] == "";
    assert Parts(word) == [word] + Parts("");
    assert [word][1..] == [] && Capitalized([]) == "";
  }

  lemma NamespaceOfParts(id: string, separator: char, more: string)
    requires !LetterOrDigit(separator)
    ensures SchemaNamespace(id + [separator] + more) == SchemaNamespace(id) + SchemaNamespace(more)
    ensures SchemaNamespace("") == ""
  {
    PartsOfBoth(id, [separator] + more);
    assert id + [separator] + more == id + ([separator] + more);
    assert ([separator] + more)[1..] == more;
    assert Parts([separator] + more) == Parts(more);
    CapitalizedBoth(Parts(id), Parts(more));
  }

  lemma {:induction false} PartsOfBoth(id: string, rest: string)
    requires rest != "" && !LetterOrDigit(rest[0])
    ensures Parts(id + rest) == Parts(id) + Parts(rest)
    decreases |id|
  {
    if id == "" {
      assert id + rest == rest;
    } else {
      assert (id + rest)[0] == id[0] && (id + rest)[1..] == id[1..] + rest;
      if !AlphaNumeric(id[0]) {
        PartsOfBoth(id[1..], rest);
      } else {
        var run := TakeRun(id);
        assert id == run + id[|run|..];
        RunEnds(id);
        RunIsTaken(run, id[|run|..] + rest);
        assert id + rest == run + (id[|run|..] + rest);
        assert (id + rest)[|run|..] == id[|run|..] + rest;
        PartsOfBoth(id[|run|..], rest);
        assert [run] + (Parts(id[|run|..]) + Parts(rest)) == Parts(id) + Parts(rest);
      }
    }
  }

  lemma {:induction false} RunEnds(id: string)
    requires id != "" && AlphaNumeric(id[0])
    ensures var n := |TakeRun(id)|; n > 0 && (n < |id| ==> !AlphaNumeric(id[n]))
  {
    if |id| > 1 && AlphaNumeric(id[1]) {
      RunEnds(id[1..]);
    }
  }

  lemma {:induction false} CapitalizedBoth(a: seq<string>, b: seq<string>)
    requires (forall part :: part in a ==> GoodPart(part)) && forall part :: part in b ==> GoodPart(part)
    ensures (forall part :: part in a + b ==> GoodPart(part)) && Capitalized(a + b) == Capitalized(a) + Capitalized(b)
  {
    if a == [] {
      assert a + b == b;
    } else {
      assert (a + b)[0] == a[0] && (a + b)[1..] == a[1..] + b;
      CapitalizedBoth(a[1..], b);
    }
  }

  // ----- items that are no objects -----

  /** An array is spread into its positions, a text into its characters, anything else into nothing. */
  lemma SpreadIs(item: Json)
    ensures match item
            case JObj(fields) => Spread(item) == fields
            case JArr(items) =>
              && |Spread(item)| == |items|
              && forall i :: 0 <= i < |items| ==> Spread(item)[i] == Field(Decimal(i), items[i])
            case JStr(text) =>
              && |Spread(item)| == |text|
              && forall i :: 0 <= i < |text| ==> Spread(item)[i] == Field(Decimal(i), JStr([text[i]]))
            case _ => Spread(item) == []
  {
    match item
    case JArr(items) => IndexedIs(items);
    case JStr(text) =>
      CharactersAre(text);
      IndexedIs(Characters(text));
    case _ =>
  }

  lemma {:induction false} IndexedIs(items: seq<Json>)
    ensures |Indexed(items)| == |items|
    ensures forall i :: 0 <= i < |items| ==> Indexed(items)[i] == Field(Decimal(i), items[i])
  {
    hide Decimal;
    if items != [] {
      IndexedIs(items[..|items| - 1]);
    }
  }

  lemma {:induction false} CharactersAre(text: string)
    ensures |Characters(text)| == |text| && forall i :: 0 <= i < |text| ==> Characters(text)[i] == JStr([text[i]])
  {
    if text != [] {
      CharactersAre(text[..|text| - 1]);
    }
  }

  // ----- what a reference hits in the merged document -----

  /** The titles of the upstreams whose document could be fetched. */
  function Titles(inputs: seq<UpstreamSpecInput>): seq<string> {
    if inputs == [] then []
    else
      var front, last := inputs[..|inputs| - 1], inputs[|inputs| - 1];
      Titles(front) + if last.doc.Some? && last.doc.value.JObj? then [last.title] else []
  }

  lemma {:induction false} TagsAreTitles(inputs: seq<UpstreamSpecInput>)
    ensures MergeAll(inputs).tags == Titles(inputs)
  {
    hide AddPaths, AddSchemas;
    if inputs != [] {
      TagsAreTitles(inputs[..|inputs| - 1]);
    }
  }

  /** The last of the first n paths that is re-based to the key, as merged. */
  function PublishedBy(input: UpstreamSpecInput, n: nat, key: string): Option<Json>
    requires n <= |PathsOf(input)|
  {
    if n == 0 then None
    else if MergedKey(input, n - 1) == key then Some(MergedItem(input, PathsOf(input)[n - 1].value))
    else PublishedBy(input, n - 1, key)
  }

  /** The last path of the last upstream that is re-based to the key, as merged. */
  function PublishedAt(inputs: seq<UpstreamSpecInput>, key: string): Option<Json> {
    if inputs == [] then None
    else
      var front, last := inputs[..|inputs| - 1], inputs[|inputs| - 1];
      match PublishedBy(last, |PathsOf(last)|, key)
      case Some(item) => Some(item)
      case None => PublishedAt(front, key)
  }

  /** The way leads into the item published under the key. */
  predicate HitsPath(inputs: seq<UpstreamSpecInput>, key: string, path: seq<string>) {
    PublishedAt(inputs, key).Some? && Descend(PublishedAt(inputs, key).value, path).Some?
  }

  lemma {:induction false} AddedPaths(acc: seq<Field>, input: UpstreamSpecInput, n: nat, key: string)
    requires n <= |PathsOf(input)|
    ensures Lookup(AddPaths(acc, input, n), key)
         == match PublishedBy(input, n, key) case Some(item) => Some(item) case None => Lookup(acc, key)
  {
    hide Lookup, Put, MergedItem, PathsOf, JoinPath;
    if n > 0 {
      AddedPaths(acc, input, n - 1, key);
      LookupAfterPut(AddPaths(acc, input, n - 1), MergedKey(input, n - 1),
        MergedItem(input, PathsOf(input)[n - 1].value), key);
    }
  }

  /** The merged path table, key by key. */
  lemma {:induction false} PathsArePublished(inputs: seq<UpstreamSpecInput>, key: string)
    ensures Lookup(MergeAll(inputs).paths, key) == PublishedAt(inputs, key)
  {
    hide Lookup, AddPaths, AddSchemas, PublishedBy;
    if inputs != [] {
      var front, last := inputs[..|inputs| - 1], inputs[|inputs| - 1];
      PathsArePublished(front, key);
      AddedPaths(MergeAll(front).paths, last, |PathsOf(last)|, key);
      if !HasDocument(last) {
        assert PathsOf(last) == [];
        assert PublishedBy(last, 0, key) == None by { NothingPublished(last, key); }
      }
    } else {
      assert Lookup([], key) == None by { LookupInNothing(key); }
    }
  }

  lemma NothingPublished(input: UpstreamSpecInput, key: string)
    ensures PublishedBy(input, 0, key) == None
  {
  }

  lemma LookupInNothing(key: string)
    ensures Lookup([], key) == None
  {
  }

  /** The first token is the qualified name of a schema of some upstream, and the others lead into that schema. */
  ghost predicate HitsQualified(inputs: seq<UpstreamSpecInput>, tokens: seq<string>)
    requires tokens != []
  {
    exists j, k :: 0 <= j < |inputs| && 0 <= k < |SchemasOf(inputs[j])| && HitsSchema(inputs[j], k, tokens)
  }

  predicate HitsSchema(input: UpstreamSpecInput, k: nat, tokens: seq<string>)
    requires k < |SchemasOf(input)| && tokens != []
  {
    && tokens[0] == QualifiedName(SchemaNamespace(input.id), SchemasOf(input)[k].key)
    && Descend(SchemasOf(input)[k].value, tokens[1..]).Some?
  }

  /** The top-level members of the merged document that do not come from the upstreams' tables. */
  function Frame(inputs: seq<UpstreamSpecInput>, info: MergedInfo): Json {
    JObj([Field("openapi", JStr("3.0.0")), Field("info", InfoObject(info)),
          Field("tags", JArr(TagObjects(Titles(inputs))))])
  }

  /** The reference resolves in the merged document, told from the upstreams' documents. */
  ghost predicate HitsMerged(inputs: seq<UpstreamSpecInput>, info: MergedInfo, text: string)
    requires IsLocal(text)
  {
    |text| == 1 || (text[1] == '/' && HitsTokens(inputs, info, Tokens(text[2..])))
  }

  ghost predicate HitsTokens(inputs: seq<UpstreamSpecInput>, info: MergedInfo, tokens: seq<string>)
    requires tokens != []
  {
    if tokens[0] == "components" then
      |tokens| == 1 || (tokens[1] == "schemas" && (|tokens| == 2 || HitsQualified(inputs, tokens[2..])))
    else if tokens[0] == "paths" then
      |tokens| == 1 || HitsPath(inputs, tokens[1], tokens[2..])
    else Descend(Frame(inputs, info), tokens).Some?
  }

  lemma QualifiedHitIsMerged(inputs: seq<UpstreamSpecInput>, j: nat, k: nat, tokens: seq<string>)
    requires DistinctNamespaces(inputs) && j < |inputs| && k < |SchemasOf(inputs[j])| && tokens != []
    requires tokens[0] == QualifiedName(SchemaNamespace(inputs[j].id), SchemasOf(inputs[j])[k].key)
    ensures Descend(JObj(MergeAll(inputs).schemas), tokens).Some? <==> HitsSchema(inputs[j], k, tokens)
  {
    var f, rename := SchemasOf(inputs[j])[k], RenameFor(inputs[j]);
    SchemaIsMerged(inputs, j, k);
    DescendFromTop(JObj(MergeAll(inputs).schemas), tokens);
    DescendRewritten(f.value, rename, tokens[1..]);
    hide Lookup, Descend, MergeAll, SchemasOf, SchemaNamespace, RewriteSchemaRefs, DistinctNamespaces;
  }

  /** A name in the merged schema table is hit from the upstreams' own tables. */
  lemma QualifiedHits(inputs: seq<UpstreamSpecInput>, tokens: seq<string>)
    requires DistinctNamespaces(inputs) && tokens != []
    ensures Descend(JObj(MergeAll(inputs).schemas), tokens).Some? <==> HitsQualified(inputs, tokens)
  {
    hide Descend, MergeAll, SchemasOf, SchemaNamespace, DistinctNamespaces, HitsSchema, QualifiedName;
    if HitsQualified(inputs, tokens) {
      var j, k :| 0 <= j < |inputs| && 0 <= k < |SchemasOf(inputs[j])| && HitsSchema(inputs[j], k, tokens);
      assert tokens[0] == QualifiedName(SchemaNamespace(inputs[j].id), SchemasOf(inputs[j])[k].key) by {
        HitNames(inputs[j], k, tokens);
      }
      QualifiedHitIsMerged(inputs, j, k, tokens);
    }
    if Descend(JObj(MergeAll(inputs).schemas), tokens).Some? {
      DescendFromTop(JObj(MergeAll(inputs).schemas), tokens);
      MergedKeysAreQualified(inputs, tokens[0]);
      var j :| 0 <= j < |inputs| && QualifiedBy(inputs[j], tokens[0]);
      var k :| 0 <= k < |SchemasOf(inputs[j])|
        && tokens[0] == QualifiedName(SchemaNamespace(inputs[j].id), SchemasOf(inputs[j])[k].key);
      QualifiedHitIsMerged(inputs, j, k, tokens);
    }
  }

  lemma HitNames(input: UpstreamSpecInput, k: nat, tokens: seq<string>)
    requires k < |SchemasOf(input)| && tokens != [] && HitsSchema(input, k, tokens)
    ensures tokens[0] == QualifiedName(SchemaNamespace(input.id), SchemasOf(input)[k].key)
  {
  }

  /** The members of the merged document by name. */
  lemma MergedMember(inputs: seq<UpstreamSpecInput>, info: MergedInfo, token: string)
    ensures var m := MergeAll(inputs);
            Member(MergedDocument(m, info), token)
              == if token == "components" then Some(JObj([Field("schemas", JObj(m.schemas))]))
                 else if token == "paths" then Some(JObj(m.paths))
                 else Member(Frame(inputs, info), token)
  {
    TagsAreTitles(inputs);
    var m := MergeAll(inputs);
    var before := [Field("openapi", JStr("3.0.0")), Field("info", InfoObject(info))];
    var tables := [Field("paths", JObj(m.paths)), Field("components", JObj([Field("schemas", JObj(m.schemas))]))];
    var after := [Field("tags", JArr(TagObjects(m.tags)))];
    hide MergeAll, InfoObject, TagObjects, Lookup;
    assert MergedDocument(m, info) == JObj(before + (tables + after));
    assert Frame(inputs, info) == JObj(before + after);
    LookupInBoth(before, tables + after, token);
    LookupInBoth(tables, after, token);
    LookupInBoth(before, after, token);
    NotInFrame(before, token);
    LookupTwo("paths", JObj(m.paths), "components", JObj([Field("schemas", JObj(m.schemas))]), token);
  }

  lemma NotInFrame(before: seq<Field>, token: string)
    requires |before| == 2 && before[0].key == "openapi" && before[1].key == "info"
    ensures token == "components" || token == "paths" ==> Lookup(before, token) == None
  {
    assert "components"[0] != "openapi"[0] && "components"[0] != "info"[0];
    assert "paths"[0] != "openapi"[0] && "paths"[0] != "info"[0];
  }

  lemma LookupTwo(a: string, v: Json, b: string, w: Json, key: string)
    ensures Lookup([Field(a, v), Field(b, w)], key) == if key == a then Some(v) else if key == b then Some(w) else None
  {
    assert [Field(a, v), Field(b, w)][1..] == [Field(b, w)];
  }

  lemma {:induction false} LookupInBoth(a: seq<Field>, b: seq<Field>, key: string)
    ensures Lookup(a + b, key) == if Lookup(a, key).Some? then Lookup(a, key) else Lookup(b, key)
  {
    if a == [] {
      assert a + b == b;
    } else {
      assert (a + b)[1..] == a[1..] + b;
      LookupInBoth(a[1..], b, key);
    }
  }

  /** A reference resolves in the merged document exactly when the upstreams' documents say so. */
  lemma HitsAreExact(inputs: seq<UpstreamSpecInput>, info: MergedInfo, text: string)
    requires DistinctNamespaces(inputs) && IsLocal(text)
    ensures Target(MergedDocument(MergeAll(inputs), info), text).Some? <==> HitsMerged(inputs, info, text)
  {
    if |text| > 1 && text[1] == '/' {
      TokensHit(inputs, info, Tokens(text[2..]));
    }
    hide Descend, MergeAll, HitsTokens, MergedDocument, Tokens, DistinctNamespaces;
  }

  lemma TokensHit(inputs: seq<UpstreamSpecInput>, info: MergedInfo, tokens: seq<string>)
    requires DistinctNamespaces(inputs) && tokens != []
    ensures Descend(MergedDocument(MergeAll(inputs), info), tokens).Some? <==> HitsTokens(inputs, info, tokens)
  {
    var doc, frame, rest := MergedDocument(MergeAll(inputs), info), Frame(inputs, info), tokens[1..];
    DescendFromTop(doc, tokens);
    DescendFromTop(frame, tokens);
    MergedMember(inputs, info, tokens[0]);
    hide MergeAll, MergedDocument, Frame, DistinctNamespaces, HitsQualified, Lookup, PublishedAt;
    if tokens[0] == "components" {
      SchemasHit(inputs, rest);
      assert |rest| > 1 ==> rest[1..] == tokens[2..];
    } else if tokens[0] == "paths" {
      PathsHit(inputs, rest);
      assert |rest| > 0 ==> rest[1..] == tokens[2..];
    }
    hide Descend, Member;
  }

  lemma SchemasHit(inputs: seq<UpstreamSpecInput>, rest: seq<string>)
    requires DistinctNamespaces(inputs)
    ensures Descend(JObj([Field("schemas", JObj(MergeAll(inputs).schemas))]), rest).Some?
       <==> rest == [] || (rest[0] == "schemas" && (|rest| == 1 || HitsQualified(inputs, rest[1..])))
  {
    if rest != [] {
      DescendFromTop(JObj([Field("schemas", JObj(MergeAll(inputs).schemas))]), rest);
      LookupOne("schemas", JObj(MergeAll(inputs).schemas), rest[0]);
      if |rest| > 1 {
        QualifiedHits(inputs, rest[1..]);
      } else {
        assert rest[1..] == [];
        assert Descend(JObj(MergeAll(inputs).schemas), []).Some?;
      }
    } else {
      assert Descend(JObj([Field("schemas", JObj(MergeAll(inputs).schemas))]), []).Some?;
    }
    hide Descend, MergeAll, Lookup, HitsQualified;
  }

  lemma PathsHit(inputs: seq<UpstreamSpecInput>, rest: seq<string>)
    ensures Descend(JObj(MergeAll(inputs).paths), rest).Some?
       <==> rest == [] || HitsPath(inputs, rest[0], rest[1..])
  {
    if rest != [] {
      DescendFromTop(JObj(MergeAll(inputs).paths), rest);
      PathsArePublished(inputs, rest[0]);
    } else {
      assert Descend(JObj(MergeAll(inputs).paths), []).Some?;
    }
    hide Descend, MergeAll, Lookup, PublishedAt;
  }

  lemma LookupOne(a: string, v: Json, key: string)
    ensures Lookup([Field(a, v)], key) == if key == a then Some(v) else None
  {
    assert [Field(a, v)][1..] == [];
  }

  // ----- what the merged document says of itself -----

  ghost predicate TellsInfo(o: Json, info: MergedInfo) {
    && o.JObj? && Lookup(o.fields, "title") == Some(JStr(info.title))
    && Lookup(o.fields, "version") == Some(JStr(info.version))
    && Lookup(o.fields, "description")
       == match info.description case Some(text) => Some(JStr(text)) case None => None
  }

  ghost predicate TellsTag(o: Json, title: string) {
    && o.JObj? && Lookup(o.fields, "name") == Some(JStr(title))
    && Lookup(o.fields, "description") == Some(JStr("Operations served by " + title + "."))
  }

  lemma InfoIsTold(info: MergedInfo)
    ensures TellsInfo(InfoObject(info), info)
  {
    var two := [Field("title", JStr(info.title)), Field("version", JStr(info.version))];
    var more := match info.description case Some(text) => [Field("description", JStr(text))] case None => [];
    assert InfoObject(info) == JObj(two + more);
    LookupInBoth(two, more, "title");
    LookupInBoth(two, more, "version");
    LookupInBoth(two, more, "description");
    LookupTwo("title", JStr(info.title), "version", JStr(info.version), "title");
    LookupTwo("title", JStr(info.title), "version", JStr(info.version), "version");
    LookupTwo("title", JStr(info.title), "version", JStr(info.version), "description");
    if info.description.Some? {
      LookupOne("description", JStr(info.description.value), "description");
    } else {
      LookupInNothing("description");
    }
    assert "title"[0] != "version"[0] && "title"[0] != "description"[0] && "version"[0] != "description"[0];
    hide Lookup;
  }

  lemma TagIsTold(title: string)
    ensures TellsTag(TagObject(title), title)
  {
    var about := JStr("Operations served by " + title + ".");
    LookupTwo("name", JStr(title), "description", about, "name");
    LookupTwo("name", JStr(title), "description", about, "description");
    assert "name"[0] != "description"[0];
    hide Lookup;
  }

  /** Besides the tables the merged document holds its version, its info, and a tag for each document merged. */
  lemma DocumentTellsItself(inputs: seq<UpstreamSpecInput>, info: MergedInfo)
    ensures var doc := MergedDocument(MergeAll(inputs), info);
            && Member(doc, "openapi") == Some(JStr("3.0.0"))
            && Member(doc, "info").Some? && TellsInfo(Member(doc, "info").value, info)
            && Member(doc, "tags").Some? && Member(doc, "tags").value.JArr?
            && var tags := Member(doc, "tags").value.items;
               |tags| == |Titles(inputs)| && forall i :: 0 <= i < |tags| ==> TellsTag(tags[i], Titles(inputs)[i])
  {
    InfoIsTold(info);
    forall title ensures TellsTag(TagObject(title), title) {
      TagIsTold(title);
    }
    FrameMembers(inputs, info);
    MergedMember(inputs, info, "openapi");
    MergedMember(inputs, info, "info");
    MergedMember(inputs, info, "tags");
    assert "openapi"[0] != "components"[0] && "openapi"[0] != "paths"[0] && "info"[0] != "components"[0];
    assert "info"[0] != "paths"[0] && "tags"[0] != "components"[0] && "tags"[0] != "paths"[0];
    hide MergedDocument, MergeAll, Frame, Lookup, InfoObject, TagObject, TellsInfo, TellsTag, Member;
  }

  lemma FrameMembers(inputs: seq<UpstreamSpecInput>, info: MergedInfo)
    ensures Member(Frame(inputs, info), "openapi") == Some(JStr("3.0.0"))
    ensures Member(Frame(inputs, info), "info") == Some(InfoObject(info))
    ensures Member(Frame(inputs, info), "tags") == Some(JArr(TagObjects(Titles(inputs))))
  {
    hide InfoObject, TagObjects, Titles;
    var fields := Frame(inputs, info).fields;
    assert "openapi"[0] != "info"[0] && "openapi"[0] != "tags"[0] && "info"[0] != "tags"[0];
    LookupDistinct(fields, 0);
    LookupDistinct(fields, 1);
    LookupDistinct(fields, 2);
  }
}
