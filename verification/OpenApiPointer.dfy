/** What a local reference denotes: JSON Pointers (RFC 6901, sections 3, 4 and 6) into a document, and into its table
    of schemas. */
module OpenApiPointer {
  import opened SharedTypes
  import opened OpenApiMerge

  /** The pieces between the slashes. */
  function Segments(s: string): (r: seq<string>)
    ensures r != []
  {
    if s == [] then [[]]
    else
      var rest := Segments(s[1..]);
      if s[0] == '/' then [[]] + rest else [[s[0]] + rest[0]] + rest[1..]
  }

  /** "~1" stands for a slash and "~0" for a tilde. */
  function Decode(s: string): string {
    if s == [] then []
    else if |s| >= 2 && s[0] == '~' && s[1] == '1' then "/" + Decode(s[2..])
    else if |s| >= 2 && s[0] == '~' && s[1] == '0' then "~" + Decode(s[2..])
    else [s[0]] + Decode(s[1..])
  }

  function Decoded(segments: seq<string>): (r: seq<string>)
    ensures |r| == |segments|
  {
    if segments == [] then [] else [Decode(segments[0])] + Decoded(segments[1..])
  }

  function Tokens(s: string): (r: seq<string>)
    ensures r != []
  {
    Decoded(Segments(s))
  }

  /** The position below n that the token spells. */
  function ArrayIndex(token: string, n: nat): (r: Option<nat>)
    ensures r.Some? ==> r.value < n && token == Decimal(r.value)
  {
    if n == 0 then None else if token == Decimal(n - 1) then Some(n - 1) else ArrayIndex(token, n - 1)
  }

  function Member(node: Json, token: string): Option<Json> {
    match node
    case JObj(fields) => Lookup(fields, token)
    case JArr(items) => (match ArrayIndex(token, |items|) case Some(k) => Some(items[k]) case None => None)
    case _ => None
  }

  function Descend(node: Json, path: seq<string>): Option<Json> {
    if path == [] then Some(node)
    else
      match Descend(node, path[..|path| - 1])
      case Some(inner) => Member(inner, path[|path| - 1])
      case None => None
  }

  /** How a name is written in a reference. */
  function Escaped(name: string): string {
    if name == [] then []
    else (if name[0] == '~' then "~0" else if name[0] == '/' then "~1" else [name[0]]) + Escaped(name[1..])
  }

  lemma {:induction false} EscapedReadsBack(name: string)
    ensures Decode(Escaped(name)) == name && '/' !in Escaped(name)
  {
    if name != [] {
      EscapedReadsBack(name[1..]);
      var rest := Escaped(name[1..]);
      assert name == [name[0]] + name[1..];
      if name[0] == '~' {
        assert Escaped(name) == "~0" + rest && ("~0" + rest)[2..] == rest;
      } else if name[0] == '/' {
        assert Escaped(name) == "~1" + rest && ("~1" + rest)[2..] == rest;
      } else {
        assert Escaped(name) == [name[0]] + rest && ([name[0]] + rest)[1..] == rest;
      }
    }
  }

  // ----- references into a document -----

  /** A reference within its own document. */
  predicate IsLocal(text: string) {
    text != [] && text[0] == '#'
  }

  /** A member that is such a reference. */
  predicate IsLocalField(f: Field) {
    f.key == "$ref" && f.value.JStr? && IsLocal(f.value.text)
  }

  /** Where a reference goes, and what is there. */
  datatype Place = Place(path: seq<string>, value: Json)

  function Target(doc: Json, text: string): Option<Place>
    requires IsLocal(text)
  {
    if |text| == 1 then Some(Place([], doc))
    else if text[1] != '/' then None
    else
      match Descend(doc, Tokens(text[2..]))
      case Some(value) => Some(Place(Tokens(text[2..]), value))
      case None => None
  }

  lemma {:induction false} DescendFromTop(node: Json, path: seq<string>)
    requires path != []
    ensures Descend(node, path)
         == match Member(node, path[0]) case Some(inner) => Descend(inner, path[1..]) case None => None
  {
    hide Member;
    if |path| == 1 {
      assert path[..0] == [] && path[1..] == [];
      assert Descend(node, []) == Some(node);
    } else {
      var front := path[..|path| - 1];
      DescendFromTop(node, front);
      assert front[0] == path[0] && path[1..][..|path[1..]| - 1] == front[1..];
      assert path[1..][|path[1..]| - 1] == path[|path| - 1];
    }
  }

  lemma DescendTwice(node: Json, path: seq<string>)
    requires |path| >= 2
    ensures Descend(node, path)
         == match Descend(node, path[..2]) case Some(inner) => Descend(inner, path[2..]) case None => None
  {
    hide Member;
    DescendFromTop(node, path);
    DescendFromTop(node, path[..2]);
    assert path[..2][1..] == [path[1]] && path[..2][0] == path[0];
    match Member(node, path[0]) {
      case Some(inner) =>
        DescendFromTop(inner, path[1..]);
        DescendFromTop(inner, [path[1]]);
        assert path[1..][1..] == path[2..] && [path[1]][1..] == [];
      case None =>
    }
  }

  // ----- references into a table of schemas -----

  /** The schema a reference goes to, the way into it, and what is there. */
  datatype Found = Found(schema: string, path: seq<string>, value: Json)

  /** What the text after REF_PREFIX denotes in a table of schemas. */
  function Locate(schemas: seq<Field>, name: string): Option<Found> {
    var tokens := Tokens(name);
    match Lookup(schemas, tokens[0])
    case None => None
    case Some(schema) =>
      match Descend(schema, tokens[1..])
      case Some(value) => Some(Found(tokens[0], tokens[1..], value))
      case None => None
  }

  lemma LocateIsDescend(schemas: seq<Field>, name: string)
    ensures Descend(JObj(schemas), Tokens(name))
         == match Locate(schemas, name) case Some(found) => Some(found.value) case None => None
  {
    DescendFromTop(JObj(schemas), Tokens(name));
    hide Tokens, Descend, Lookup;
  }

  predicate IsPlain(s: string) {
    '/' !in s && '~' !in s
  }

  lemma {:induction false} SegmentsAfterPlain(a: string, s: string)
    requires IsPlain(a)
    ensures Segments(a + s) == [a + Segments(s)[0]] + Segments(s)[1..]
  {
    if a == [] {
      assert a + s == s && a + Segments(s)[0] == Segments(s)[0];
    } else {
      assert (a + s)[0] == a[0] && (a + s)[1..] == a[1..] + s;
      SegmentsAfterPlain(a[1..], s);
      assert [a[0]] + (a[1..] + Segments(s)[0]) == a + Segments(s)[0];
    }
  }

  lemma {:induction false} DecodeAfterPlain(a: string, s: string)
    requires IsPlain(a)
    ensures Decode(a + s) == a + Decode(s)
  {
    if a == [] {
      assert a + s == s && a + Decode(s) == Decode(s);
    } else {
      assert (a + s)[0] == a[0] && (a + s)[1..] == a[1..] + s;
      DecodeAfterPlain(a[1..], s);
      assert [a[0]] + (a[1..] + Decode(s)) == a + Decode(s);
    }
  }

  /** A plain mark in front of a reference ends up in front of its first token. */
  lemma TokensAfterMark(mark: string, name: string)
    requires IsPlain(mark)
    ensures Tokens(mark + name) == [mark + Tokens(name)[0]] + Tokens(name)[1..]
  {
    SegmentsAfterPlain(mark, name);
    var segments := Segments(name);
    DecodeAfterPlain(mark, segments[0]);
    assert ([mark + segments[0]] + segments[1..])[1..] == segments[1..];
  }

  lemma TokensOfPlain(name: string)
    requires IsPlain(name)
    ensures Tokens(name) == [name]
  {
    TokensAfterMark(name, []);
    assert name + [] == name;
    var one: seq<string> := [[]];
    assert Segments([]) == one && one[1..] == [] && Decode([]) == [];
  }

  lemma {:induction false} PlainIsUnescaped(s: string)
    requires IsPlain(Decode(s)) && '/' !in s
    ensures Decode(s) == s
  {
    if s != [] {
      var d := Decode(s);
      assert !(s[0] == '~');
      assert d == [s[0]] + Decode(s[1..]);
      assert forall c :: c in Decode(s[1..]) ==> c in d;
      PlainIsUnescaped(s[1..]);
      assert s == [s[0]] + s[1..];
    }
  }

  lemma {:induction false} OneSegment(s: string)
    requires |Segments(s)| == 1
    ensures Segments(s) == [s] && '/' !in s
  {
    if s != [] {
      OneSegment(s[1..]);
      assert s == [s[0]] + s[1..];
    }
  }

  /** A reference without a way into a schema either is the plain name of one, or names none that is plain. */
  lemma PlainReference(name: string)
    requires |Tokens(name)| == 1 && IsPlain(Tokens(name)[0])
    ensures Tokens(name)[0] == name
  {
    OneSegment(name);
    PlainIsUnescaped(name);
  }

  lemma TokensOfPath(a: string, s: string)
    requires IsPlain(a)
    ensures Tokens(a + "/" + s) == [a] + Tokens(s)
  {
    var slashed := "/" + s;
    assert a + "/" + s == a + slashed && slashed[1..] == s;
    TokensAfterMark(a, slashed);
    assert Segments(slashed) == [[]] + Segments(s);
    assert ([[]] + Segments(s))[1..] == Segments(s);
    assert Tokens(slashed) == [[]] + Tokens(s) && ([[]] + Tokens(s))[1..] == Tokens(s);
    assert a + [] == a;
  }

  lemma {:induction false} FirstSegment(s: string)
    requires |Segments(s)| > 1
    ensures var a := Segments(s)[0];
            && '/' !in a && |a| < |s| && s == a + "/" + s[|a| + 1..] && Segments(s[|a| + 1..]) == Segments(s)[1..]
  {
    var a := Segments(s)[0];
    if s[0] == '/' {
      assert a == [] && s[0 + 1..] == s[1..];
    } else {
      FirstSegment(s[1..]);
      var b := Segments(s[1..])[0];
      assert a == [s[0]] + b && s[1..][|b| + 1..] == s[|a| + 1..];
      assert s == [s[0]] + s[1..];
    }
  }

  /** A plain first token stands in the reference as it is. */
  lemma FirstTokenIsPlain(s: string)
    requires |Tokens(s)| > 1 && IsPlain(Tokens(s)[0])
    ensures var a := Tokens(s)[0];
            |a| < |s| && s == a + "/" + s[|a| + 1..] && Tokens(s[|a| + 1..]) == Tokens(s)[1..]
  {
    FirstSegment(s);
    PlainIsUnescaped(Segments(s)[0]);
  }

  const SCHEMA_TABLE: seq<string> := ["components", "schemas"]

  /** The text of a schema reference, pointed into a document. */
  lemma TokensOfSchemaRef(name: string)
    ensures IsLocal(REF_PREFIX + name) && (REF_PREFIX + name)[1] == '/'
    ensures Tokens((REF_PREFIX + name)[2..]) == SCHEMA_TABLE + Tokens(name)
  {
    var text := REF_PREFIX + name;
    assert text[2..] == "components" + "/" + ("schemas" + "/" + name);
    TokensOfPath("components", "schemas" + "/" + name);
    TokensOfPath("schemas", name);
    assert ["components"] + (["schemas"] + Tokens(name)) == SCHEMA_TABLE + Tokens(name);
  }

  lemma OnePlainToken(s: string, c: string)
    requires Tokens(s) == [c] && IsPlain(c)
    ensures s == c
  {
    PlainReference(s);
  }

  lemma TwoPlainTokens(s: string, b: string, c: string)
    requires Tokens(s) == [b, c] && IsPlain(b) && IsPlain(c)
    ensures s == b + "/" + c
  {
    FirstTokenIsPlain(s);
    hide Tokens, IsPlain;
    assert [b, c][1..] == [c];
    OnePlainToken(s[|b| + 1..], c);
  }

  lemma ThreePlainTokens(s: string, a: string, b: string, c: string)
    requires Tokens(s) == [a, b, c] && IsPlain(a) && IsPlain(b) && IsPlain(c)
    ensures s == a + "/" + (b + "/" + c)
  {
    FirstTokenIsPlain(s);
    hide Tokens, IsPlain;
    assert [a, b, c][1..] == [b, c];
    TwoPlainTokens(s[|a| + 1..], b, c);
  }

  lemma PrefixInParts(name: string)
    ensures REF_PREFIX + name == ['#', '/'] + ("components" + "/" + ("schemas" + "/" + name))
  {
    var parts := ['#', '/'] + ("components" + "/" + ("schemas" + "/"));
    assert REF_PREFIX == parts;
    assert parts + name == ['#', '/'] + ("components" + "/" + ("schemas" + "/" + name));
  }

  /** A reference that goes to a whole schema of a plain name is written with the prefix and that name. */
  lemma WholeSchemaIsNamed(text: string, name: string)
    requires IsLocal(text) && |text| >= 2 && text[1] == '/'
    requires Tokens(text[2..]) == SCHEMA_TABLE + [name] && IsPlain(name)
    ensures text == REF_PREFIX + name
  {
    assert IsPlain("components") && IsPlain("schemas");
    assert SCHEMA_TABLE + [name] == ["components", "schemas", name];
    hide Tokens, IsPlain;
    ThreePlainTokens(text[2..], "components", "schemas", name);
    assert text == ['#', '/'] + text[2..];
    PrefixInParts(name);
  }

  /** In a document with this table of schemas, a schema reference goes where its name does in the table. */
  lemma SchemaRefIsLocated(doc: Json, schemas: seq<Field>, name: string)
    requires Descend(doc, SCHEMA_TABLE) == Some(JObj(schemas))
    ensures IsLocal(REF_PREFIX + name)
    ensures Target(doc, REF_PREFIX + name)
         == match Locate(schemas, name)
            case Some(found) => Some(Place(SCHEMA_TABLE + [found.schema] + found.path, found.value))
            case None => None
  {
    TokensOfSchemaRef(name);
    LocateIsDescend(schemas, name);
    var tokens := SCHEMA_TABLE + Tokens(name);
    DescendTwice(doc, tokens);
    assert tokens[..2] == SCHEMA_TABLE && tokens[2..] == Tokens(name);
    assert SCHEMA_TABLE + [Tokens(name)[0]] + Tokens(name)[1..] == tokens;
    hide Tokens, Descend, Lookup;
  }

  // ----- pointers into rewritten schemas -----

  /** A value reached by `path` after rewriting: as a field of its key, or as a whole schema. */
  function RewrittenAt(path: seq<string>, value: Json, rename: Rename): Json {
    if path == [] then RewriteSchemaRefs(value, rename)
    else RewriteField(Field(path[|path| - 1], value), rename).value
  }

  lemma {:induction false} LookupRewritten(fields: seq<Field>, rename: Rename, key: string)
    ensures Lookup(RewriteFields(fields, rename), key)
         == match Lookup(fields, key) case Some(v) => Some(RewriteField(Field(key, v), rename).value) case None => None
  {
    hide RewriteSchemaRefs, IsRefField;
    if fields != [] {
      LookupRewritten(fields[1..], rename, key);
      assert RewriteFields(fields, rename)[1..] == RewriteFields(fields[1..], rename);
    }
  }

  lemma IndexIsNoRef(k: nat)
    ensures Decimal(k) != "$ref"
  {
    assert "$ref"[0] == '$';
    assert Decimal(k)[0] in Decimal(k);
  }

  lemma MemberRewritten(node: Json, rename: Rename, token: string)
    ensures Member(RewriteSchemaRefs(node, rename), token)
         == match Member(node, token)
            case Some(v) => Some(RewriteField(Field(token, v), rename).value)
            case None => None
  {
    match node
    case JObj(fields) => LookupRewritten(fields, rename, token);
    case JArr(items) =>
      if ArrayIndex(token, |items|).Some? {
        IndexIsNoRef(ArrayIndex(token, |items|).value);
      }
    case _ =>
  }

  /** Rewriting changes what a pointer reaches, never whether it reaches anything. */
  lemma {:induction false} DescendRewritten(node: Json, rename: Rename, path: seq<string>)
    ensures Descend(RewriteSchemaRefs(node, rename), path)
         == match Descend(node, path) case Some(v) => Some(RewrittenAt(path, v, rename)) case None => None
  {
    hide RewriteSchemaRefs, Member;
    if path != [] {
      var front, last := path[..|path| - 1], path[|path| - 1];
      DescendRewritten(node, rename, front);
      if Descend(node, front).Some? {
        var inner := Descend(node, front).value;
        InnerRewritten(front, inner, rename);
        MemberRewritten(inner, rename, last);
        NoMemberOfString(inner, RewrittenAt(front, inner, rename), rename, last);
      }
    }
  }

  lemma InnerRewritten(path: seq<string>, inner: Json, rename: Rename)
    ensures RewrittenAt(path, inner, rename) == RewriteSchemaRefs(inner, rename)
         || (inner.JStr? && RewrittenAt(path, inner, rename).JStr?)
  {
  }

  lemma NoMemberOfString(inner: Json, rewritten: Json, rename: Rename, token: string)
    requires rewritten == RewriteSchemaRefs(inner, rename) || (inner.JStr? && rewritten.JStr?)
    ensures Member(rewritten, token) == Member(RewriteSchemaRefs(inner, rename), token)
  {
  }
}
