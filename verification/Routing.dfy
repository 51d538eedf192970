/** The gateway's routing table: which upstream owns a request path. */
module Routing {
  import opened SharedTypes

  datatype UpstreamDefinition = UpstreamDefinition(id: string, prefix: string, title: string)

  const UPSTREAM_DEFINITIONS := [
    UpstreamDefinition("fleet-registry", "/fleet", "Fleet Registry"),
    UpstreamDefinition("mission-planning", "/missions", "Mission Planning"),
    UpstreamDefinition("telemetry-ingestion", "/telemetry", "Telemetry Ingestion"),
    UpstreamDefinition("vision-ai", "/vision", "Vision AI Results"),
    UpstreamDefinition("alert-notification", "/alerts", "Alert & Notification")
  ]

  // ----- paths -----

  predicate EndsPath(c: char) {
    c == '?' || c == '#'
  }

  /** The part before the first '?' or '#'. */
  function CutQuery(path: string): (r: string)
    ensures r <= path
    ensures forall i :: 0 <= i < |r| ==> !EndsPath(r[i])
    ensures |r| < |path| ==> EndsPath(path[|r|])
  {
    if path == [] || EndsPath(path[0]) then []
    else
      var rest := CutQuery(path[1..]);
      assert path == [path[0]] + path[1..];
      [path[0]] + rest
  }

  function StripSlashes(path: string): (r: string)
    ensures r <= path
    ensures r != [] ==> r[|r| - 1] != '/'
  {
    if path != [] && path[|path| - 1] == '/' then StripSlashes(path[..|path| - 1]) else path
  }

  predicate StartsWithSlash(path: string) {
    path != [] && path[0] == '/'
  }

  function WithSlash(path: string): string {
    if StartsWithSlash(path) then path else "/" + path
  }

  /** The last two steps: no trailing slashes, but never empty. */
  function Trimmed(path: string): string {
    var stripped := if |path| > 1 && path[|path| - 1] == '/' then StripSlashes(path) else path;
    if stripped == [] then "/" else stripped
  }

  function Normalized(rawPath: string): string {
    var cut := CutQuery(rawPath);
    if cut == [] then "/" else Trimmed(WithSlash(cut))
  }

  method NormalizePath(rawPath: string) returns (path: string)
    ensures path == Normalized(rawPath)
  {
    hide CutQuery, StripSlashes;
    path := rawPath;
    path := CutQuery(path);
    if |path| == 0 {
      return "/";
    }
    if !StartsWithSlash(path) {
      path := "/" + path;
    }
    if |path| > 1 && path[|path| - 1] == '/' {
      path := StripSlashes(path);
    }
    path := if |path| == 0 then "/" else path;
  }

  /** A routing path: a leading slash, no query or fragment, no trailing slash except for the root. */
  ghost predicate IsNormal(path: string) {
    && StartsWithSlash(path)
    && (forall i :: 0 <= i < |path| ==> path[i] != '?' && path[i] != '#')
    && (path[|path| - 1] == '/' ==> path == "/")
  }

  lemma {:induction false} CutQueryOfClean(a: string, b: string)
    requires forall i :: 0 <= i < |a| ==> !EndsPath(a[i])
    ensures CutQuery(a + b) == a + CutQuery(b)
  {
    if a == [] {
      assert a + b == b;
    } else {
      assert (a + b)[1..] == a[1..] + b;
      CutQueryOfClean(a[1..], b);
      assert a == [a[0]] + a[1..];
    }
  }

  /** Normalization yields routing paths and leaves routing paths alone; so it is idempotent. */
  lemma NormalizationIsProjection(path: string)
    ensures IsNormal(Normalized(path))
    ensures IsNormal(path) <==> Normalized(path) == path
  {
    NormalizedIsNormal(path);
    if IsNormal(path) {
      NormalIsFixed(path);
    }
  }

  lemma NormalizedIsNormal(path: string)
    ensures IsNormal(Normalized(path))
  {
    hide CutQuery, StripSlashes;
  }

  lemma NormalIsFixed(path: string)
    requires IsNormal(path)
    ensures Normalized(path) == path
  {
    CutQueryOfClean(path, []);
    assert path + [] == path;
    hide CutQuery, StripSlashes;
  }

  lemma {:induction false} StripsAll(path: string, slashes: string)
    requires (path == "" || path[|path| - 1] != '/') && forall i :: 0 <= i < |slashes| ==> slashes[i] == '/'
    ensures StripSlashes(path + slashes) == path
  {
    if slashes == "" {
      assert path + slashes == path;
    } else {
      var n := |slashes| - 1;
      assert (path + slashes)[..|path| + n] == path + slashes[..n];
      StripsAll(path, slashes[..n]);
    }
  }

  /** The path is made of these: what counts, its trailing slashes, and its query or fragment. */
  ghost predicate MadeOf(whole: string, path: string, slashes: string, query: string) {
    && whole == path + slashes + query
    && (path == "" || path[|path| - 1] != '/') && (forall i :: 0 <= i < |slashes| ==> slashes[i] == '/')
    && (forall i :: 0 <= i < |path| ==> path[i] != '?' && path[i] != '#')
    && (query == "" || query[0] == '?' || query[0] == '#')
  }

  lemma {:induction false} StripLeavesSlashes(path: string)
    ensures forall i :: |StripSlashes(path)| <= i < |path| ==> path[i] == '/'
  {
    if path != [] && path[|path| - 1] == '/' {
      StripLeavesSlashes(path[..|path| - 1]);
    }
  }

  lemma EveryPathIsMadeOf(whole: string) returns (path: string, slashes: string, query: string)
    ensures MadeOf(whole, path, slashes, query)
  {
    hide CutQuery, StripSlashes;
    var cut := CutQuery(whole);
    path := StripSlashes(cut);
    slashes, query := cut[|path|..], whole[|cut|..];
    StripLeavesSlashes(cut);
    assert cut == path + slashes;
    assert whole == cut + query;
    hide MadeOf;
    assert forall i :: 0 <= i < |path| ==> path[i] == cut[i] && !EndsPath(cut[i]);
    assert query != "" ==> EndsPath(query[0]);
    assert MadeOf(whole, path, slashes, query) by {
      MadeOfParts(whole, path, slashes, query);
    }
  }

  lemma MadeOfParts(whole: string, path: string, slashes: string, query: string)
    requires whole == path + slashes + query
    requires (path == "" || path[|path| - 1] != '/') && (forall i :: 0 <= i < |slashes| ==> slashes[i] == '/')
    requires forall i :: 0 <= i < |path| ==> !EndsPath(path[i])
    requires query != "" ==> EndsPath(query[0])
    ensures MadeOf(whole, path, slashes, query)
  {
  }

  /** Whatever its query and its trailing slashes, a path is normalized to what counts, with a leading slash. */
  lemma NormalizedIsExact(path: string, slashes: string, query: string)
    requires MadeOf(path + slashes + query, path, slashes, query)
    ensures Normalized(path + slashes + query)
         == if path == "" then "/" else if path[0] == '/' then path else "/" + path
  {
    hide CutQuery, StripSlashes;
    CutIs(path, slashes, query);
    TrimmedIs(path, slashes);
    if path != "" && path[0] != '/' {
      assert WithSlash(path + slashes) == ("/" + path) + slashes;
      TrimmedIs("/" + path, slashes);
    }
  }

  lemma CutIs(path: string, slashes: string, query: string)
    requires MadeOf(path + slashes + query, path, slashes, query)
    ensures CutQuery(path + slashes + query) == path + slashes
  {
    CutQueryOfClean(path + slashes, query);
    assert CutQuery(query) == "";
    hide CutQuery;
  }

  lemma TrimmedIs(path: string, slashes: string)
    requires (path == "" || path[|path| - 1] != '/') && forall i :: 0 <= i < |slashes| ==> slashes[i] == '/'
    ensures path + slashes != "" ==> Trimmed(path + slashes) == if path == "" then "/" else path
    ensures StartsWithSlash(path + slashes) <==> (path == "" && slashes != "") || (path != "" && path[0] == '/')
  {
    hide StripSlashes;
    var whole := path + slashes;
    StripsAll(path, slashes);
    assert slashes == "" ==> whole == path;
    assert path == "" ==> whole == slashes;
    assert slashes != "" ==> whole[|whole| - 1] == '/';
  }

  predicate StartsWithTwoSlashes(path: string) {
    |path| >= 2 && path[0] == '/' && path[1] == '/'
  }

  lemma {:induction false} StripsToNothingIff(path: string)
    ensures StripSlashes(path) == "" <==> forall i :: 0 <= i < |path| ==> path[i] == '/'
  {
    if path != [] && path[|path| - 1] == '/' {
      StripsToNothingIff(path[..|path| - 1]);
    }
  }

  /** Normalization leaves a single leading slash unless the path, up to its query, starts with two slashes and
      does not consist of slashes only. */
  lemma LeadingSlashIsSingleIff(path: string)
    ensures StartsWithSlash(Normalized(path))
    ensures !StartsWithTwoSlashes(Normalized(path)) <==>
      !StartsWithTwoSlashes(CutQuery(path)) || forall i :: 0 <= i < |CutQuery(path)| ==> CutQuery(path)[i] == '/'
  {
    var cut := CutQuery(path);
    hide CutQuery;
    StripsToNothingIff(cut);
    StripKeepsSlashes(cut);
    StripKeepsSlashes(WithSlash(cut));
    hide StripSlashes;
  }

  lemma {:induction false} StripKeepsSlashes(path: string)
    ensures StripSlashes(path) != "" && StartsWithTwoSlashes(path) ==> StartsWithTwoSlashes(StripSlashes(path))
  {
    if path != [] && path[|path| - 1] == '/' {
      StripKeepsSlashes(path[..|path| - 1]);
    }
  }

  /** Such a path keeps both. */
  lemma TwoSlashesStay()
    ensures Normalized("//a") == "//a" && Normalized("//") == "/"
  {
    assert CutQuery("//a") == "//a" by {
      CutQueryOfClean("//a", []);
      assert "//a" + [] == "//a";
    }
    assert CutQuery("//") == "//" by {
      CutQueryOfClean("//", []);
      assert "//" + [] == "//";
    }
    StripsToNothingIff("//");
    hide CutQuery;
  }

  predicate PathHasPrefix(path: string, prefix: string) {
    path == prefix || prefix + "/" <= path
  }

  // ----- resolving -----

  function Resolve(path: string, definitions: seq<UpstreamDefinition>): (r: Option<UpstreamDefinition>)
    ensures r.Some? ==> r.value in definitions && PathHasPrefix(path, r.value.prefix)
    ensures r.None? ==> forall d :: d in definitions ==> !PathHasPrefix(path, d.prefix)
  {
    if definitions == [] then None
    else if PathHasPrefix(path, definitions[0].prefix) then Some(definitions[0])
    else Resolve(path, definitions[1..])
  }

  /** The entry that owns the path first. */
  ghost predicate FirstOwner(path: string, definitions: seq<UpstreamDefinition>, i: nat) {
    && i < |definitions| && PathHasPrefix(path, definitions[i].prefix)
    && forall j :: 0 <= j < i ==> !PathHasPrefix(path, definitions[j].prefix)
  }

  lemma {:induction false} ResolveIsFirst(path: string, definitions: seq<UpstreamDefinition>, i: nat)
    requires FirstOwner(path, definitions, i)
    ensures Resolve(path, definitions) == Some(definitions[i])
  {
    if i > 0 {
      assert forall j :: 0 <= j < i - 1 ==> definitions[1..][j] == definitions[j + 1];
      ResolveIsFirst(path, definitions[1..], i - 1);
    }
  }

  method ResolveUpstreamId(rawPath: string, definitions: seq<UpstreamDefinition>) returns (id: Option<string>)
    ensures id == match Resolve(Normalized(rawPath), definitions) case Some(d) => Some(d.id) case None => None
  {
    var path := NormalizePath(rawPath);
    for i := 0 to |definitions|
      invariant Resolve(path, definitions) == Resolve(path, definitions[i..])
    {
      if PathHasPrefix(path, definitions[i].prefix) {
        return Some(definitions[i].id);
      }
      assert definitions[i..][1..] == definitions[i + 1..];
    }
    return None;
  }

  /** No prefix equals or extends another one. */
  ghost predicate Disjoint(definitions: seq<UpstreamDefinition>) {
    forall i, j :: 0 <= i < |definitions| && 0 <= j < |definitions| && i != j ==>
      !PathHasPrefix(definitions[i].prefix, definitions[j].prefix)
  }

  /** The first prefix equals the second or is below it, in different entries of the table. */
  ghost predicate Overlap(definitions: seq<UpstreamDefinition>, pair: (string, string)) {
    exists i, j :: 0 <= i < |definitions| && 0 <= j < |definitions| && i != j
      && pair == (definitions[i].prefix, definitions[j].prefix) && PathHasPrefix(pair.0, pair.1)
  }

  method AssertDisjointPrefixes(definitions: seq<UpstreamDefinition>) returns (r: Outcome<(string, string)>)
    ensures r.Pass? <==> Disjoint(definitions)
    ensures r.Fail? ==> Overlap(definitions, r.error)
  {
    for i := 0 to |definitions|
      invariant forall k, l :: 0 <= k < i && 0 <= l < |definitions| && k != l ==>
        !PathHasPrefix(definitions[k].prefix, definitions[l].prefix)
    {
      var a := definitions[i];
      for j := 0 to |definitions|
        invariant forall l :: 0 <= l < j && l != i ==> !PathHasPrefix(a.prefix, definitions[l].prefix)
      {
        if i != j {
          var b := definitions[j];
          if a.prefix == b.prefix || PathHasPrefix(a.prefix, b.prefix) {
            return Fail((a.prefix, b.prefix));
          }
        }
      }
    }
    return Pass;
  }

  /** A path below two prefixes puts one of them below the other. */
  lemma CommonPath(path: string, p: string, q: string)
    requires PathHasPrefix(path, p) && PathHasPrefix(path, q)
    ensures PathHasPrefix(p, q) || PathHasPrefix(q, p)
  {
    if |p| < |q| {
      assert path[..|p| + 1] == p + "/";
      assert q == path[..|q|];
      assert q[..|p| + 1] == p + "/";
    } else if |q| < |p| {
      assert path[..|q| + 1] == q + "/";
      assert p == path[..|p|];
      assert p[..|q| + 1] == q + "/";
    } else {
      assert p == path[..|p|] && q == path[..|q|];
    }
  }

  /** No path is owned by two entries of the table. */
  ghost predicate OwnersUnique(definitions: seq<UpstreamDefinition>) {
    forall i, j, path :: 0 <= i < j < |definitions| && PathHasPrefix(path, definitions[i].prefix) ==>
      !PathHasPrefix(path, definitions[j].prefix)
  }

  /** The pairwise check accepts exactly the tables in which every path has at most one owner. */
  lemma DisjointIffOwnersUnique(definitions: seq<UpstreamDefinition>)
    ensures Disjoint(definitions) <==> OwnersUnique(definitions)
  {
    if Disjoint(definitions) {
      forall i, j, path | 0 <= i < j < |definitions| && PathHasPrefix(path, definitions[i].prefix)
        ensures !PathHasPrefix(path, definitions[j].prefix)
      {
        if PathHasPrefix(path, definitions[j].prefix) {
          CommonPath(path, definitions[i].prefix, definitions[j].prefix);
        }
      }
    }
  }

  /** With disjoint prefixes the owner of a path is found wherever it stands in the table. */
  lemma OwnerIsFound(path: string, definitions: seq<UpstreamDefinition>, d: UpstreamDefinition)
    requires Disjoint(definitions) && d in definitions && PathHasPrefix(path, d.prefix)
    ensures Resolve(path, definitions) == Some(d)
  {
    var r := Resolve(path, definitions).value;
    var i :| 0 <= i < |definitions| && definitions[i] == r;
    var j :| 0 <= j < |definitions| && definitions[j] == d;
    CommonPath(path, r.prefix, d.prefix);
  }

  /** Reordering a disjoint table changes no resolution. */
  lemma OrderIsIrrelevant(path: string, a: seq<UpstreamDefinition>, b: seq<UpstreamDefinition>)
    requires Disjoint(a) && forall d :: d in a <==> d in b
    ensures Resolve(path, a) == Resolve(path, b)
  {
    var r := Resolve(path, b);
    if r.Some? {
      OwnerIsFound(path, a, r.value);
    }
  }

  /** A path belongs to the prefix when it is the prefix or goes on with a slash right after it. */
  lemma OwnedIff(path: string, prefix: string)
    ensures PathHasPrefix(path, prefix) <==>
      path == prefix || (|path| > |prefix| && path[..|prefix|] == prefix && path[|prefix|] == '/')
  {
    if |path| > |prefix| {
      assert path[..|prefix| + 1] == path[..|prefix|] + [path[|prefix|]];
      assert prefix + "/" <= path <==> prefix + "/" == path[..|prefix| + 1];
    }
  }

  /** So a longer word is nobody's: /missions-old does not belong to /missions. */
  lemma LongerWordIsNobodys(prefix: string, rest: string)
    requires rest != "" && rest[0] != '/'
    ensures !PathHasPrefix(prefix + rest, prefix)
  {
    OwnedIff(prefix + rest, prefix);
    assert (prefix + rest)[|prefix|] == rest[0];
  }

  lemma DifferentInitials(p: string, q: string)
    requires |p| >= 2 && |q| >= 2 && p[1] != q[1]
    ensures !PathHasPrefix(p, q)
  {
    assert (q + "/")[1] == q[1];
  }

  lemma ConfiguredInitials(i: nat)
    requires i < 5
    ensures |UPSTREAM_DEFINITIONS| == 5
    ensures var p := UPSTREAM_DEFINITIONS[i].prefix; |p| >= 2 && p[1] == ['f', 'm', 't', 'v', 'a'][i] && IsNormal(p)
  {
  }

  /** The shipped routing table is disjoint and its prefixes are routing paths. */
  lemma ConfiguredPrefixesAreGood()
    ensures Disjoint(UPSTREAM_DEFINITIONS)
    ensures forall i :: 0 <= i < |UPSTREAM_DEFINITIONS| ==> IsNormal(UPSTREAM_DEFINITIONS[i].prefix)
  {
    ConfiguredInitials(0);
    hide UPSTREAM_DEFINITIONS, IsNormal, PathHasPrefix;
    forall i | 0 <= i < 5 ensures IsNormal(UPSTREAM_DEFINITIONS[i].prefix) {
      ConfiguredInitials(i);
    }
    forall i, j | 0 <= i < 5 && 0 <= j < 5 && i != j
      ensures !PathHasPrefix(UPSTREAM_DEFINITIONS[i].prefix, UPSTREAM_DEFINITIONS[j].prefix)
    {
      ConfiguredInitials(i);
      ConfiguredInitials(j);
      DifferentInitials(UPSTREAM_DEFINITIONS[i].prefix, UPSTREAM_DEFINITIONS[j].prefix);
    }
  }

  /** A path that keeps two leading slashes reaches no upstream of the shipped table. */
  lemma TwoSlashesReachNobody(path: string)
    requires StartsWithTwoSlashes(Normalized(path))
    ensures Resolve(Normalized(path), UPSTREAM_DEFINITIONS) == None
  {
    hide UPSTREAM_DEFINITIONS, PathHasPrefix, Normalized, Resolve;
    var r := Resolve(Normalized(path), UPSTREAM_DEFINITIONS);
    if r.Some? {
      EntryInitials(r.value);
      DifferentInitials(Normalized(path), r.value.prefix);
    }
  }

  lemma EntryInitials(d: UpstreamDefinition)
    requires d in UPSTREAM_DEFINITIONS
    ensures |d.prefix| >= 2 && d.prefix[1] != '/'
  {
    ConfiguredInitials(0);
    hide UPSTREAM_DEFINITIONS, IsNormal;
    var i :| 0 <= i < 5 && UPSTREAM_DEFINITIONS[i] == d;
    ConfiguredInitials(i);
  }

  /** No upstream of the shipped table gets the paths that only begin like its prefix. */
  lemma LongerWordsReachNobody(i: nat, rest: string)
    requires i < |UPSTREAM_DEFINITIONS| && rest != "" && rest[0] != '/'
    ensures Resolve(UPSTREAM_DEFINITIONS[i].prefix + rest, UPSTREAM_DEFINITIONS) == None
  {
    hide UPSTREAM_DEFINITIONS, PathHasPrefix, Resolve, IsNormal;
    ConfiguredInitials(0);
    var path := UPSTREAM_DEFINITIONS[i].prefix + rest;
    var r := Resolve(path, UPSTREAM_DEFINITIONS);
    if r.Some? {
      var j :| 0 <= j < |UPSTREAM_DEFINITIONS| && UPSTREAM_DEFINITIONS[j] == r.value;
      LongerWordIsNotOwned(i, j, rest);
    }
  }

  lemma LongerWordIsNotOwned(i: nat, j: nat, rest: string)
    requires i < |UPSTREAM_DEFINITIONS| && j < |UPSTREAM_DEFINITIONS| && rest != "" && rest[0] != '/'
    ensures !PathHasPrefix(UPSTREAM_DEFINITIONS[i].prefix + rest, UPSTREAM_DEFINITIONS[j].prefix)
  {
    hide UPSTREAM_DEFINITIONS, PathHasPrefix, IsNormal;
    ConfiguredInitials(0);
    ConfiguredInitials(i);
    ConfiguredInitials(j);
    if j == i {
      LongerWordIsNobodys(UPSTREAM_DEFINITIONS[i].prefix, rest);
    } else {
      DifferentInitials(UPSTREAM_DEFINITIONS[i].prefix + rest, UPSTREAM_DEFINITIONS[j].prefix);
    }
  }

  // ----- re-basing an upstream's paths under its prefix -----

  function JoinPath(prefix: string, path: string): string {
    var normalizedPath := WithSlash(path);
    if normalizedPath == "/" then prefix else prefix + normalizedPath
  }

  /** The merged key of a path is the prefix followed by the path, with a slash in between where the path has none; the
      root is the prefix itself. */
  lemma JoinedPathIs(prefix: string, path: string)
    ensures JoinPath(prefix, path)
         == if path == "" || path == "/" then prefix
            else if path[0] == '/' then prefix + path else prefix + ("/" + path)
  {
  }

  lemma JoinIsBelowPrefix(prefix: string, path: string)
    ensures PathHasPrefix(JoinPath(prefix, path), prefix)
  {
  }

  /** Two published paths get the same merged key only if they are one upstream's and differ at most in a
      missing leading slash. */
  lemma JoinedKeysCollideIff(
    definitions: seq<UpstreamDefinition>, d: UpstreamDefinition, e: UpstreamDefinition, p: string, q: string)
    requires Disjoint(definitions) && d in definitions && e in definitions
    ensures JoinPath(d.prefix, p) == JoinPath(e.prefix, q) <==> d.prefix == e.prefix && WithSlash(p) == WithSlash(q)
  {
    JoinIsBelowPrefix(d.prefix, p);
    JoinIsBelowPrefix(e.prefix, q);
    if JoinPath(d.prefix, p) == JoinPath(e.prefix, q) {
      OwnerIsFound(JoinPath(d.prefix, p), definitions, d);
      OwnerIsFound(JoinPath(d.prefix, p), definitions, e);
      var key := JoinPath(d.prefix, p);
      assert key[|d.prefix|..] == if WithSlash(p) == "/" then "" else WithSlash(p);
      assert key[|d.prefix|..] == if WithSlash(q) == "/" then "" else WithSlash(q);
    }
  }

  lemma {:induction false} StripSlashesOfSum(a: string, b: string)
    ensures StripSlashes(a + b) == if StripSlashes(b) == [] then StripSlashes(a) else a + StripSlashes(b)
  {
    if b == [] {
      assert a + b == a;
    } else if b[|b| - 1] == '/' {
      assert (a + b)[..|a + b| - 1] == a + b[..|b| - 1];
      StripSlashesOfSum(a, b[..|b| - 1]);
    }
  }

  lemma TrimmedBelow(prefix: string, r: string)
    requires prefix != [] && (prefix[|prefix| - 1] == '/' ==> prefix == "/")
    ensures Trimmed(prefix + r) == if StripSlashes(r) == [] then prefix else prefix + StripSlashes(r)
  {
    StripSlashesOfSum(prefix, r);
    if r == [] {
      assert prefix + r == prefix;
    } else {
      assert (prefix + r)[|prefix + r| - 1] == r[|r| - 1];
      assert prefix == "/" ==> StripSlashes(prefix) == StripSlashes("") == "";
    }
  }

  lemma BelowIsBelow(prefix: string, s: string)
    requires s == [] || StartsWithSlash(s)
    ensures PathHasPrefix(prefix + s, prefix)
  {
    if s == [] {
      assert prefix + s == prefix;
    } else {
      assert s == "/" + s[1..];
      assert prefix + s == prefix + "/" + s[1..];
    }
  }

  /** A normal prefix survives normalization of whatever is appended below it. */
  lemma NormalizedKeepsPrefix(prefix: string, rest: string)
    requires IsNormal(prefix) && (rest == [] || StartsWithSlash(rest))
    ensures PathHasPrefix(Normalized(prefix + rest), prefix)
  {
    var r := CutQuery(rest);
    CutQueryOfClean(prefix, rest);
    assert WithSlash(prefix + r) == prefix + r;
    TrimmedBelow(prefix, r);
    hide CutQuery, Trimmed, IsNormal;
    BelowIsBelow(prefix, StripSlashes(r));
    BelowIsBelow(prefix, "");
    assert prefix + "" == prefix;
  }

  /** Every merged path of an upstream routes back to it, whatever the upstream calls the path, exactly when
      the upstream's prefix is a routing path or empty. */
  lemma PublishedPathsRouteBackIff(definitions: seq<UpstreamDefinition>, d: UpstreamDefinition)
    requires Disjoint(definitions) && d in definitions
    ensures (forall path :: Resolve(Normalized(JoinPath(d.prefix, path)), definitions) == Some(d))
       <==> IsNormal(d.prefix) || d.prefix == ""
  {
    if IsNormal(d.prefix) || d.prefix == "" {
      forall path ensures Resolve(Normalized(JoinPath(d.prefix, path)), definitions) == Some(d) {
        var rest := if WithSlash(path) == "/" then "" else WithSlash(path);
        assert JoinPath(d.prefix, path) == d.prefix + rest;
        if d.prefix == "" {
          NormalizationIsProjection(JoinPath(d.prefix, path));
        } else {
          NormalizedKeepsPrefix(d.prefix, rest);
        }
        OwnerIsFound(Normalized(JoinPath(d.prefix, path)), definitions, d);
      }
    } else {
      assert JoinPath(d.prefix, "/") == d.prefix;
      NormalizationIsProjection(d.prefix);
      NormalizedNotBelow(d.prefix);
    }
  }

  lemma NormalizedShape(path: string)
    requires path != ""
    ensures |Normalized(path)| <= |path| || (Normalized(path) == "/" + path && !StartsWithSlash(path))
  {
  }

  /** A path that normalization changes does not own its normal form. */
  lemma NormalizedNotBelow(prefix: string)
    requires !IsNormal(prefix) && prefix != ""
    ensures !PathHasPrefix(Normalized(prefix), prefix)
  {
    NormalizationIsProjection(prefix);
    NormalizedShape(prefix);
    hide Normalized, IsNormal;
    assert forall n: string :: prefix + "/" <= n ==> n[0] == prefix[0] && |n| > |prefix|;
  }
}
