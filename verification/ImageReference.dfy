/** Parsing, rendering and combining container image references (pkg/bom/extract.go). */
module ImageReference {
  import opened Splitting

  datatype ImageRef = ImageRef(registry: string, repository: string, tag: string, digest: string)

  /* ---- Searching ---- */

  function IndexFrom(s: string, c: char, from: nat): (i: int)
    requires from <= |s|
    ensures i == -1 || (from <= i < |s| && s[i] == c)
    decreases |s| - from
  {
    if from == |s| then -1 else if s[from] == c then from else IndexFrom(s, c, from + 1)
  }

  function LastIndexBefore(s: string, c: char, to: nat): (i: int)
    requires to <= |s|
    ensures i == -1 || (0 <= i < to && s[i] == c)
  {
    if to == 0 then -1 else if s[to - 1] == c then to - 1 else LastIndexBefore(s, c, to - 1)
  }

  /** The first position of a character, or -1. */
  function Index(s: string, c: char): (i: int)
    ensures i == -1 || (0 <= i < |s| && s[i] == c)
  {
    IndexFrom(s, c, 0)
  }

  /** The last position of a character, or -1. */
  function LastIndex(s: string, c: char): (i: int)
    ensures i == -1 || (0 <= i < |s| && s[i] == c)
  {
    LastIndexBefore(s, c, |s|)
  }

  lemma {:induction false} IndexIsFirst(s: string, c: char, from: nat)
    requires from <= |s|
    ensures var i := IndexFrom(s, c, from); forall k :: from <= k < (if i >= 0 then i else |s|) ==> s[k] != c
    decreases |s| - from
  {
    if from < |s| && s[from] != c { IndexIsFirst(s, c, from + 1); }
  }

  lemma {:induction false} LastIndexIsLast(s: string, c: char, to: nat)
    requires to <= |s|
    ensures forall k :: LastIndexBefore(s, c, to) < k < to ==> s[k] != c
  {
    if to > 0 && s[to - 1] != c { LastIndexIsLast(s, c, to - 1); }
  }

  lemma IndexOfJoin(a: string, c: char, b: string)
    requires c !in a
    ensures Index(a + [c] + b, c) == |a|
  {
    var s := a + [c] + b;
    IndexIsFirst(s, c, 0);
    assert s[|a|] == c;
    assert forall k :: 0 <= k < |a| ==> s[k] == a[k];
  }

  lemma LastIndexOfJoin(a: string, c: char, b: string)
    requires c !in b
    ensures LastIndex(a + [c] + b, c) == |a|
  {
    var s := a + [c] + b;
    LastIndexIsLast(s, c, |s|);
    assert s[|a|] == c;
    assert forall k :: |a| < k < |s| ==> s[k] == b[k - |a| - 1];
  }

  /* ---- Parsing, one cut after the other ---- */

  predicate IsRegistryHost(s: string) {
    s == "localhost" || '.' in s || ':' in s
  }

  /** Where a ":tag" after the last "/" starts, or -1. */
  function TagColon(s: string): int {
    var i := LastIndex(s, ':');
    if i >= 0 && '/' !in s[i + 1..] then i else -1
  }

  /** Everything up to the first "@", and the digest after it. */
  function CutDigest(s: string): (string, string) {
    var at := Index(s, '@');
    if at >= 0 then (s[..at], s[at + 1..]) else (s, "")
  }

  /** The registry, "docker.io" unless the first segment is a host, and what follows it. */
  function CutRegistry(s: string): (string, string) {
    var slash := Index(s, '/');
    if slash >= 0 && IsRegistryHost(s[..slash]) then (s[..slash], s[slash + 1..]) else ("docker.io", s)
  }

  /** The path without its tag, and the tag. */
  function CutTag(s: string): (string, string) {
    var colon := TagColon(s);
    if colon >= 0 then (s[..colon], s[colon + 1..]) else (s, "")
  }

  function Canonical(registry: string, path: string): string {
    if registry == "docker.io" && '/' !in path then "library/" + path else path
  }

  function Parsed(s: string): ImageRef {
    var (plain, digest) := CutDigest(s);
    var (registry, path) := CutRegistry(plain);
    var (name, tag) := CutTag(path);
    ImageRef(registry, Canonical(registry, name), tag, digest)
  }

  method TakeDigest(s: string) returns (rest: string, digest: string)
    ensures (rest, digest) == CutDigest(s)
  {
    rest, digest := s, "";
    var at := Index(rest, '@');
    if at >= 0 {
      digest := rest[at + 1..];
      rest := rest[..at];
    }
  }

  method TakeRegistry(s: string) returns (registry: string, rest: string)
    ensures (registry, rest) == CutRegistry(s)
  {
    registry, rest := "docker.io", s;
    var slash := Index(rest, '/');
    if slash >= 0 && IsRegistryHost(rest[..slash]) {
      registry := rest[..slash];
      rest := rest[slash + 1..];
    }
  }

  method TakeTag(s: string) returns (rest: string, tag: string)
    ensures (rest, tag) == CutTag(s)
  {
    rest, tag := s, "";
    var colon := TagColon(rest);
    if colon >= 0 {
      tag := rest[colon + 1..];
      rest := rest[..colon];
    }
  }

  /** `ParseImageRef` */
  method ParseImageRef(s: string) returns (ref: ImageRef)
    ensures ref == Parsed(s)
  {
    ref := ImageRef("", "", "", "");
    var rest, digest := TakeDigest(s);
    ref := ref.(digest := digest);
    var registry;
    registry, rest := TakeRegistry(rest);
    ref := ref.(registry := registry);
    var tag;
    rest, tag := TakeTag(rest);
    ref := ref.(tag := tag);
    if ref.registry == "docker.io" && '/' !in rest {
      rest := "library/" + rest;
    }
    ref := ref.(repository := rest);
  }

  /* ---- Rendering ---- */

  function Suffix(mark: char, text: string): string {
    if text != "" then [mark] + text else ""
  }

  function Render(r: ImageRef): string {
    r.registry + "/" + (r.repository + Suffix(':', r.tag)) + Suffix('@', r.digest)
  }

  function NameOf(repository: string): string {
    var slash := LastIndex(repository, '/');
    if slash >= 0 then repository[slash + 1..] else repository
  }

  /** Where the image lies: registry, namespace if there is one, and name. */
  function Location(registry: string, repository: string): string {
    var slash := LastIndex(repository, '/');
    var namespace := if slash >= 0 then repository[..slash] else "";
    (if namespace != "" then registry + "/" + namespace else registry) + "/" + NameOf(repository)
  }

  function Version(r: ImageRef): string {
    if r.digest != "" then r.digest else r.tag
  }

  /** The Package URL; a tag moves to the qualifiers when there is a digest. */
  function PURL(r: ImageRef): string {
    var qualifier := if r.digest != "" then Suffix('&', TagQualifier(r.tag)) else "";
    "pkg:oci/" + (NameOf(r.repository) + Suffix('@', Version(r)))
    + "?" + ("repository_url=" + (Location(r.registry, r.repository) + qualifier))
  }

  function TagQualifier(tag: string): string {
    if tag != "" then "tag=" + tag else ""
  }

  /** What every parsed reference satisfies. */
  ghost predicate WellFormed(r: ImageRef) {
    && IsRegistryHost(r.registry) && '/' !in r.registry
    && '@' !in r.registry && '@' !in r.repository && '@' !in r.tag
    && ':' !in r.tag && '/' !in r.tag
    && (r.registry == "docker.io" ==> '/' in r.repository)
  }

  lemma CutDigestLeavesNone(s: string)
    ensures '@' !in CutDigest(s).0
  {
    IndexIsFirst(s, '@', 0);
  }

  lemma CutRegistryIsAHost(s: string)
    requires '@' !in s
    ensures var (registry, path) := CutRegistry(s);
            IsRegistryHost(registry) && '/' !in registry && '@' !in registry && '@' !in path
  {
    IndexIsFirst(s, '/', 0);
    assert "docker.io"[6] == '.';
    assert forall k :: 0 <= k < 9 ==> "docker.io"[k] != '/' && "docker.io"[k] != '@';
  }

  lemma CutTagIsPlain(s: string)
    requires '@' !in s
    ensures var (name, tag) := CutTag(s);
            '@' !in name && '@' !in tag && ':' !in tag && '/' !in tag
  {
    LastIndexIsLast(s, ':', |s|);
  }

  lemma CanonicalIsNamespaced(registry: string, path: string)
    requires '@' !in path
    ensures var r := Canonical(registry, path);
            '@' !in r && (registry == "docker.io" ==> '/' in r)
  {
    assert "library/"[7] == '/';
    assert forall k :: 0 <= k < 8 ==> "library/"[k] != '@';
  }

  lemma ParsedIsWellFormed(s: string)
    ensures WellFormed(Parsed(s))
  {
    CutDigestLeavesNone(s);
    CutRegistryIsAHost(CutDigest(s).0);
    var (registry, path) := CutRegistry(CutDigest(s).0);
    CutTagIsPlain(path);
    CanonicalIsNamespaced(registry, CutTag(path).0);
  }

  lemma CutDigestOfJoin(plain: string, digest: string)
    requires '@' !in plain
    ensures CutDigest(plain + Suffix('@', digest)) == (plain, digest)
  {
    var s := plain + Suffix('@', digest);
    if digest != "" {
      assert s == plain + ['@'] + digest;
      IndexOfJoin(plain, '@', digest);
    } else {
      assert s == plain;
    }
  }

  lemma CutDigestOfPlain(s: string)
    requires '@' !in s
    ensures CutDigest(s) == (s, "")
  {
    CutDigestOfJoin(s, "");
    assert s + Suffix('@', "") == s;
  }

  lemma CutRegistryOfJoin(registry: string, path: string)
    requires IsRegistryHost(registry) && '/' !in registry
    ensures CutRegistry(registry + "/" + path) == (registry, path)
  {
    IndexOfJoin(registry, '/', path);
    assert (registry + "/" + path)[..|registry|] == registry;
  }

  lemma CutTagOfJoin(name: string, tag: string)
    requires ':' !in tag && '/' !in tag
    ensures CutTag(name + [':'] + tag) == (name, tag)
  {
    var s := name + [':'] + tag;
    LastIndexOfJoin(name, ':', tag);
    assert s[|name| + 1..] == tag && s[..|name|] == name;
    assert TagColon(s) == |name|;
  }

  /** Cutting a repository again leaves it alone just when it does not look tagged. */
  lemma CutTagOfRepository(registry: string, repository: string)
    requires registry == "docker.io" ==> '/' in repository
    ensures var (name, tag) := CutTag(repository);
            (Canonical(registry, name) == repository && tag == "") <==> TagColon(repository) < 0
  {
    var colon := TagColon(repository);
    if colon >= 0 {
      assert |CutTag(repository).1| == |repository| - colon - 1;
      assert |Canonical(registry, repository[..colon])| in {colon, colon + 8};
    }
  }

  /** Parsing a rendered reference cuts it at the same places, unless its repository looks tagged. */
  lemma ParseOfRender(r: ImageRef)
    requires WellFormed(r)
    ensures Parsed(Render(r)) == r <==> r.tag != "" || TagColon(r.repository) < 0
  {
    var path := r.repository + Suffix(':', r.tag);
    assert '@' !in r.registry + "/" + path;
    CutDigestOfJoin(r.registry + "/" + path, r.digest);
    CutRegistryOfJoin(r.registry, path);
    if r.tag != "" {
      assert path == r.repository + [':'] + r.tag;
      CutTagOfJoin(r.repository, r.tag);
    } else {
      assert path == r.repository;
      CutTagOfRepository(r.registry, r.repository);
    }
  }

  /**
   Rendering loses nothing: reading the rendered form again gives the same reference, and so the same
   Package URL, exactly when the reference has a tag or its repository does not end in ":something".
   */
  lemma RenderingRoundTrips(s: string)
    ensures Parsed(Render(Parsed(s))) == Parsed(s) <==> Parsed(s).tag != "" || TagColon(Parsed(s).repository) < 0
    ensures ':' !in Parsed(s).repository ==>
              Parsed(Render(Parsed(s))) == Parsed(s) && PURL(Parsed(Render(Parsed(s)))) == PURL(Parsed(s))
  {
    ParsedIsWellFormed(s);
    ParseOfRender(Parsed(s));
  }

  /** Prepending a plain namespace does not move a tag. */
  lemma TagColonOfCanonical(registry: string, path: string)
    ensures TagColon(Canonical(registry, path)) < 0 <==> TagColon(path) < 0
  {
    if Canonical(registry, path) != path {
      assert forall k :: 0 <= k < 8 ==> "library/"[k] != ':';
      CutTagBelow("library/", path);
      var i := LastIndex(path, ':');
      LastIndexOfSuffix("library/", path, ':');
      assert i >= 0 ==> ("library/" + path)[8 + i + 1..] == path[i + 1..];
    }
  }

  /** The path of the string, after digest and registry, has an empty tag behind another one. */
  predicate EndsInTwoTags(s: string) {
    var path := CutRegistry(CutDigest(s).0).1;
    path != "" && path[|path| - 1] == ':' && TagColon(path[..|path| - 1]) >= 0
  }

  lemma EmptyTagAtTheEnd(path: string)
    ensures TagColon(path) >= 0 && CutTag(path).1 == "" <==> path != "" && path[|path| - 1] == ':'
    ensures path != "" && path[|path| - 1] == ':' ==> CutTag(path).0 == path[..|path| - 1]
  {
    if path != "" && path[|path| - 1] == ':' {
      LastIndexIsLast(path, ':', |path|);
      assert LastIndex(path, ':') == |path| - 1;
      assert path[|path|..] == "";
    }
  }

  /**
   The same read off the string itself: rendering loses something exactly when the path ends in an empty
   tag behind another one.
   */
  lemma RenderingLosesOnlyEmptyTags(s: string)
    ensures Parsed(Render(Parsed(s))) == Parsed(s) <==> !EndsInTwoTags(s)
  {
    var (registry, path) := CutRegistry(CutDigest(s).0);
    RenderingRoundTrips(s);
    EmptyTagAtTheEnd(path);
    TagColonOfCanonical(registry, CutTag(path).0);
  }

  /** A host, a name and a tag that are joined up parse back to just these. */
  lemma ParsedOfJoin(host: string, name: string, tag: string)
    requires IsRegistryHost(host) && '/' !in host && '@' !in host && '@' !in name
    requires ':' !in tag && '/' !in tag && '@' !in tag
    ensures Parsed(host + "/" + (name + [':'] + tag)) == ImageRef(host, Canonical(host, name), tag, "")
  {
    var path := name + [':'] + tag;
    CutDigestOfPlain(host + "/" + path);
    CutRegistryOfJoin(host, path);
    CutTagOfJoin(name, tag);
  }

  lemma RenderedUntagged(host: string, name: string)
    ensures Render(ImageRef(host, name, "", "")) == host + "/" + name
  {
  }

  /** The string "host/name:tag:" parses with an empty tag, and ":tag" in its repository. */
  lemma EmptyTagParses(host: string, name: string, tag: string)
    requires WellFormed(ImageRef(host, name, tag, ""))
    ensures Parsed(host + "/" + (name + [':'] + tag + [':'])) == ImageRef(host, name + [':'] + tag, "", "")
  {
    var full := name + [':'] + tag;
    ParsedOfJoin(host, full, "");
    assert full + [':'] + "" == full + [':'];
    assert host == "docker.io" ==> '/' in full;
  }

  /**
   An empty tag after a second colon is such an exception, for every host, name and tag: "host/name:tag:"
   keeps ":tag" in its repository, and its rendering reads as "host/name:tag".
   */
  lemma AnEmptyTagIsNotKept(host: string, name: string, tag: string)
    requires WellFormed(ImageRef(host, name, tag, "")) && tag != ""
    ensures var given := Parsed(host + "/" + (name + [':'] + tag + [':']));
            && given == ImageRef(host, name + [':'] + tag, "", "")
            && Parsed(Render(given)) == ImageRef(host, name, tag, "")
  {
    EmptyTagParses(host, name, tag);
    RenderedUntagged(host, name + [':'] + tag);
    ParsedOfJoin(host, name, tag);
  }

  /* ---- Different spellings, different images ---- */

  lemma LastIndexOfSuffix(a: string, s: string, c: char)
    requires c !in a
    ensures LastIndex(a + s, c) == if LastIndex(s, c) < 0 then -1 else |a| + LastIndex(s, c)
  {
    var t, i := a + s, LastIndex(a + s, c);
    LastIndexIsLast(t, c, |t|);
    LastIndexIsLast(s, c, |s|);
    assert forall k :: 0 <= k < |a| ==> t[k] == a[k];
    assert forall k :: |a| <= k < |t| ==> t[k] == s[k - |a|];
    assert forall k :: 0 <= k < |s| ==> s[k] == t[k + |a|];
  }

  lemma CutTagBelow(front: string, s: string)
    requires ':' !in front && '/' !in s
    ensures CutTag(front + s) == (front + CutTag(s).0, CutTag(s).1)
  {
    LastIndexOfSuffix(front, s, ':');
    var t, i := front + s, LastIndex(s, ':');
    if i >= 0 {
      assert t[|front| + i + 1..] == s[i + 1..];
      assert t[..|front| + i] == front + s[..i];
    }
  }

  /** A Docker Hub short name, with or without tag and digest, is the same image as its full spelling. */
  lemma ShortNamesAreCanonical(name: string, digest: string)
    requires '/' !in name && '@' !in name
    ensures Parsed(name + Suffix('@', digest)) == Parsed("docker.io" + "/" + ("library/" + name) + Suffix('@', digest))
    ensures PURL(Parsed(name + Suffix('@', digest)))
         == PURL(Parsed("docker.io" + "/" + ("library/" + name) + Suffix('@', digest)))
  {
    ShortNameParses(name, digest);
    FullNameParses(name, digest);
  }

  lemma ShortNameParses(name: string, digest: string)
    requires '/' !in name && '@' !in name
    ensures Parsed(name + Suffix('@', digest))
         == ImageRef("docker.io", "library/" + CutTag(name).0, CutTag(name).1, digest)
  {
    CutDigestOfJoin(name, digest);
    assert Index(name, '/') < 0;
  }

  lemma FullNameParses(name: string, digest: string)
    requires '/' !in name && '@' !in name
    ensures Parsed("docker.io" + "/" + ("library/" + name) + Suffix('@', digest))
         == ImageRef("docker.io", "library/" + CutTag(name).0, CutTag(name).1, digest)
  {
    var host, path := "docker.io", "library/" + name;
    assert host[6] == '.';
    assert forall k :: 0 <= k < 9 ==> host[k] != '/' && host[k] != '@';
    assert forall k :: 0 <= k < 8 ==> "library/"[k] != ':' && "library/"[k] != '@';
    assert '@' !in host + "/" + path;
    CutDigestOfJoin(host + "/" + path, digest);
    CutRegistryOfJoin(host, path);
    CutTagBelow("library/", name);
    var cut := "library/" + CutTag(name).0;
    assert cut[7] == '/';
  }

  /** No part uses a character that separates the parts of a Package URL; a digest names its algorithm. */
  ghost predicate UrlSafe(r: ImageRef) {
    && '/' !in r.registry && (r.repository != "" ==> r.repository[0] != '/')
    && ':' !in r.tag && (r.digest == "" || ':' in r.digest)
    && Unmarked(r.registry) && Unmarked(r.repository) && Unmarked(r.tag) && Unmarked(r.digest)
  }

  predicate Unmarked(s: string) {
    '@' !in s && '?' !in s && '&' !in s
  }

  lemma LocationIs(registry: string, repository: string)
    requires repository != "" ==> repository[0] != '/'
    ensures Location(registry, repository) == registry + ['/'] + repository
  {
    var slash := LastIndex(repository, '/');
    if slash >= 0 {
      assert repository == repository[..slash] + ['/'] + repository[slash + 1..];
      assert repository[..slash] != "";
    }
  }

  lemma SuffixMarks(a: string, c: char, x: string)
    requires c !in a
    ensures c in a + Suffix(c, x) <==> x != ""
  {
    if x != "" { assert (a + Suffix(c, x))[|a|] == c; }
  }

  lemma SuffixesAgree(a: string, b: string, c: char, x: string, y: string)
    requires c !in a && c !in b && a + Suffix(c, x) == b + Suffix(c, y)
    ensures a == b && x == y
  {
    SuffixMarks(a, c, x);
    SuffixMarks(b, c, y);
    if x != "" {
      assert a + Suffix(c, x) == a + [c] + x && b + Suffix(c, y) == b + [c] + y;
      CutsAtTheSamePlace(a, x, c, b, y);
    } else {
      assert a + Suffix(c, x) == a && b + Suffix(c, y) == b;
    }
  }

  /** Equal Package URLs have equal parts. */
  lemma PURLPartsAgree(r: ImageRef, q: ImageRef)
    requires UrlSafe(r) && UrlSafe(q) && PURL(r) == PURL(q)
    ensures r.registry == q.registry && r.repository == q.repository && Version(r) == Version(q)
    ensures (if r.digest != "" then TagQualifier(r.tag) else "") == (if q.digest != "" then TagQualifier(q.tag) else "")
  {
    var h, k := NameOf(r.repository) + Suffix('@', Version(r)), NameOf(q.repository) + Suffix('@', Version(q));
    var t, u := if r.digest != "" then TagQualifier(r.tag) else "", if q.digest != "" then TagQualifier(q.tag) else "";
    var l, m := Location(r.registry, r.repository), Location(q.registry, q.repository);
    assert '?' !in h && '?' !in k;
    CutsAtTheSamePlace("pkg:oci/" + h, "repository_url=" + (l + Suffix('&', t)), '?',
                       "pkg:oci/" + k, "repository_url=" + (m + Suffix('&', u)));
    SamePrefixCancels("pkg:oci/", h, k);
    SuffixesAgree(NameOf(r.repository), NameOf(q.repository), '@', Version(r), Version(q));
    SamePrefixCancels("repository_url=", l + Suffix('&', t), m + Suffix('&', u));
    LocationIs(r.registry, r.repository);
    LocationIs(q.registry, q.repository);
    SuffixesAgree(l, m, '&', t, u);
    CutsAtTheSamePlace(r.registry, r.repository, '/', q.registry, q.repository);
  }

  /** For references that are safe in a URL, the Package URL identifies the reference. */
  lemma ThePURLIsTheReference(r: ImageRef, q: ImageRef)
    requires UrlSafe(r) && UrlSafe(q)
    ensures PURL(r) == PURL(q) <==> r == q
  {
    if PURL(r) == PURL(q) {
      PURLPartsAgree(r, q);
      TagsAgree(r, q);
    }
  }

  /** A digest names its algorithm before a ':', a tag has none: the version tells them apart. */
  lemma TagsAgree(r: ImageRef, q: ImageRef)
    requires ':' !in r.tag && (r.digest == "" || ':' in r.digest)
    requires ':' !in q.tag && (q.digest == "" || ':' in q.digest)
    requires Version(r) == Version(q)
    requires (if r.digest != "" then TagQualifier(r.tag) else "")
          == (if q.digest != "" then TagQualifier(q.tag) else "")
    ensures r.tag == q.tag && r.digest == q.digest
  {
    if r.digest != "" && r.tag != "" && q.tag != "" {
      SamePrefixCancels("tag=", r.tag, q.tag);
    }
  }

  /* ---- Sibling image, repository and version fields ---- */

  function TrimRightSlash(s: string): string {
    if s != "" && s[|s| - 1] == '/' then TrimRightSlash(s[..|s| - 1]) else s
  }

  function TrimLeftSlash(s: string): string {
    if s != "" && s[0] == '/' then TrimLeftSlash(s[1..]) else s
  }

  /** `combineCRDTriplet` */
  function CombineCRDTriplet(image: string, repository: string, version: string): string {
    var slash := Index(image, '/');
    var hosted := slash >= 0 && IsRegistryHost(image[..slash]);
    var out := if repository != "" && !hosted then TrimRightSlash(repository) + "/" + TrimLeftSlash(image) else image;
    if version != "" && TagColon(out) < 0 && '@' !in out then out + ":" + version else out
  }

  lemma {:induction false} TrimmedRepositoryKeepsItsHost(host: string, path: string)
    requires host != "" && '/' !in host && (path == "" || path[0] == '/')
    ensures var base := TrimRightSlash(host + path);
            host <= base <= host + path && (base == host || base[|host|] == '/')
  {
    var s := host + path;
    assert s[|s| - 1] == if path == "" then host[|host| - 1] else path[|path| - 1];
    if path != "" && path[|path| - 1] == '/' {
      assert s[..|s| - 1] == host + path[..|path| - 1];
      TrimmedRepositoryKeepsItsHost(host, path[..|path| - 1]);
    }
  }

  lemma NoTagAfterSlash(base: string, image: string)
    requires ':' !in image
    ensures TagColon(base + "/" + image) < 0
  {
    var out := base + "/" + image;
    var i := LastIndex(out, ':');
    LastIndexIsLast(out, ':', |out|);
    assert forall k :: |base| < k < |out| ==> out[k] == image[k - |base| - 1];
    assert out[|base|] == '/';
    assert 0 <= i < |base| ==> out[i + 1..][|base| - i - 1] == '/';
  }

  /** What stays of the repository after its host is cut away. */
  function Below(host: string, base: string): string
    requires host <= base && (base == host || base[|host|] == '/')
  {
    if base == host then "" else base[|host| + 1..] + "/"
  }

  predicate BareName(image: string) {
    '/' !in image && ':' !in image && '@' !in image
  }

  lemma HostInFront(host: string, base: string, image: string, version: string)
    requires host <= base && (base == host || base[|host|] == '/')
    ensures host + "/" + Below(host, base) == base + "/"
    ensures base + "/" + image + ":" + version == host + "/" + (Below(host, base) + image + [':'] + version)
  {
    assert base + "/" + image == host + "/" + Below(host, base) + image;
  }

  lemma NoDigestMark(host: string, path: string, base: string, image: string)
    requires '@' !in host && '@' !in path && '@' !in image && host <= base <= host + path
    requires base == host || base[|host|] == '/'
    ensures '@' !in base + "/" + image && '@' !in Below(host, base)
  {
  }

  lemma CombinedIsTagged(image: string, repository: string, version: string)
    requires '/' !in image && repository != "" && version != ""
    requires var out := TrimRightSlash(repository) + "/" + image; TagColon(out) < 0 && '@' !in out
    ensures CombineCRDTriplet(image, repository, version) == TrimRightSlash(repository) + "/" + image + ":" + version
  {
    assert Index(image, '/') < 0;
    assert TrimLeftSlash(image) == image;
  }

  lemma CombinedForm(image: string, host: string, path: string, version: string) returns (front: string)
    requires BareName(image) && version != ""
    requires IsRegistryHost(host) && '/' !in host && '@' !in host
    requires '@' !in path && (path == "" || path[0] == '/')
    ensures CombineCRDTriplet(image, host + path, version) == host + "/" + (front + image + [':'] + version)
    ensures '@' !in front && host + "/" + front == TrimRightSlash(host + path) + "/"
  {
    var base := TrimRightSlash(host + path);
    TrimmedRepositoryKeepsItsHost(host, path);
    NoTagAfterSlash(base, image);
    NoDigestMark(host, path, base, image);
    CombinedIsTagged(image, host + path, version);
    HostInFront(host, base, image, version);
    front := Below(host, base);
  }

  /**
   For a bare image name without a tag, a repository that starts with a registry host, and a plain
   version, the combined reference parses back to that host, that version and that image name below
   what the repository names after its host.
   */
  lemma CombinedTripletIsRecovered(image: string, host: string, path: string, version: string)
    returns (front: string)
    requires BareName(image) && version != "" && BareName(version)
    requires IsRegistryHost(host) && '/' !in host && '@' !in host
    requires '@' !in path && (path == "" || path[0] == '/')
    ensures Parsed(CombineCRDTriplet(image, host + path, version))
         == ImageRef(host, Canonical(host, front + image), version, "")
    ensures host + "/" + front == TrimRightSlash(host + path) + "/"
  {
    front := CombinedForm(image, host, path, version);
    ParsedOfJoin(host, front + image, version);
  }

  /* ---- The rules, spelled out ---- */

  /** A first segment is a registry exactly when it is "localhost" or holds a dot or a colon. */
  lemma TheFirstSegmentIsARegistry(first: string, rest: string)
    requires '/' !in first && '@' !in first && '@' !in rest
    ensures Parsed(first + "/" + rest).registry ==
              if first == "localhost" || '.' in first || ':' in first then first else "docker.io"
    ensures '/' !in rest && !(first == "localhost" || '.' in first || ':' in first) && ':' !in rest ==>
              Parsed(first + "/" + rest) == ImageRef("docker.io", first + "/" + rest, "", "")
  {
    var s := first + "/" + rest;
    CutDigestOfPlain(s);
    IndexOfJoin(first, '/', rest);
    assert s[..|first|] == first && s[|first|] == '/';
    if !(first == "localhost" || '.' in first || ':' in first) && ':' !in rest {
      assert ':' !in s;
    }
  }

  lemma WithoutASlash(name: string)
    requires '/' !in name && '@' !in name && ':' !in name
    ensures Parsed(name) == ImageRef("docker.io", "library/" + name, "", "")
  {
    CutDigestOfPlain(name);
    assert Index(name, '/') == -1 && CutRegistry(name) == ("docker.io", name);
    assert LastIndex(name, ':') == -1 && CutTag(name) == (name, "");
    assert Canonical("docker.io", name) == "library/" + name;
  }

  /** A reference with all its parts. */
  lemma AFullReference(host: string, name: string, tag: string, digest: string)
    requires '/' !in host && (host == "localhost" || '.' in host || ':' in host)
    requires '@' !in host && '@' !in name && '@' !in tag && ':' !in tag && '/' !in tag
    ensures Parsed(host + "/" + (name + ":" + tag) + "@" + digest) ==
              ImageRef(host, if host == "docker.io" && '/' !in name then "library/" + name else name, tag, digest)
  {
    var path := name + [':'] + tag;
    var plain := host + "/" + path;
    IndexOfJoin(plain, '@', digest);
    var s := plain + ['@'] + digest;
    assert s[..|plain|] == plain && s[|plain| + 1..] == digest;
    CutRegistryOfJoin(host, path);
    CutTagOfJoin(name, tag);
  }

  /** The Package URL of an image in a namespace, with and without tag and digest. */
  lemma ThePURLIsSpelled(registry: string, namespace: string, name: string, tag: string, digest: string)
    requires namespace != "" && '/' !in name
    ensures var r := ImageRef(registry, namespace + "/" + name, tag, digest);
            var at := "repository_url=" + (registry + "/" + namespace + "/" + name);
            PURL(r) == if digest == "" && tag == "" then "pkg:oci/" + name + "?" + at
                       else if digest == "" then "pkg:oci/" + (name + "@" + tag) + "?" + at
                       else if tag == "" then "pkg:oci/" + (name + "@" + digest) + "?" + at
                       else "pkg:oci/" + (name + "@" + digest) + "?" + (at + ("&tag=" + tag))
  {
    var repository := namespace + "/" + name;
    LastIndexOfJoin(namespace, '/', name);
    assert repository[|namespace| + 1..] == name && repository[..|namespace|] == namespace;
    var l := registry + "/" + namespace + "/" + name;
    assert NameOf(repository) == name && Location(registry, repository) == l;
    assert ['@'] + tag == "@" + tag && ['@'] + digest == "@" + digest;
    assert name + "@" + tag == name + ("@" + tag) && name + "@" + digest == name + ("@" + digest);
    assert name + "" == name && l + "" == l;
    if tag != "" && digest != "" {
      assert ['&'] + ("tag=" + tag) == "&tag=" + tag;
      assert "repository_url=" + l + ("&tag=" + tag) == "repository_url=" + (l + ("&tag=" + tag));
    }
  }

  /** What a combined reference is, before and after the version is considered. */
  lemma WithoutAVersion(image: string, repository: string)
    ensures repository == "" ==> CombineCRDTriplet(image, repository, "") == image
    ensures forall first, rest :: image == first + "/" + rest && '/' !in first
                                  && (first == "localhost" || '.' in first || ':' in first) ==>
              CombineCRDTriplet(image, repository, "") == image
    ensures '/' !in image && repository != "" && repository[|repository| - 1] != '/' ==>
              CombineCRDTriplet(image, repository, "") == repository + "/" + image
  {
    forall first, rest | image == first + "/" + rest && '/' !in first
                         && (first == "localhost" || '.' in first || ':' in first)
      ensures CombineCRDTriplet(image, repository, "") == image
    {
      IndexOfJoin(first, '/', rest);
      assert image[..|first|] == first;
    }
  }

  /** The tag of a string is what follows its last colon, unless a slash does. */
  lemma TaggedStrings(s: string)
    ensures TagColon(s) >= 0 <==> exists front, tag :: s == front + ":" + tag && ':' !in tag && '/' !in tag
  {
    var i := TagColon(s);
    if i >= 0 {
      LastIndexIsLast(s, ':', |s|);
      assert s == s[..i] + ":" + s[i + 1..];
    }
    if front, tag :| s == front + ":" + tag && ':' !in tag && '/' !in tag {
      LastIndexOfJoin(front, ':', tag);
      assert s[|front| + 1..] == tag;
    }
  }

  /** A version is appended exactly when it is there and nothing pins the image yet. */
  lemma TheVersionIsAppendedOnce(image: string, repository: string, version: string)
    ensures var out := CombineCRDTriplet(image, repository, "");
            CombineCRDTriplet(image, repository, version) ==
              if || version == "" || '@' in out
                 || (exists front, tag :: out == front + ":" + tag && ':' !in tag && '/' !in tag)
              then out else out + ":" + version
  {
    TaggedStrings(CombineCRDTriplet(image, repository, ""));
  }

  /** Slashes where repository and image meet are not doubled. */
  lemma SlashesMeetOnce(base: string, image: string, version: string)
    requires base != "" && base[|base| - 1] != '/' && '/' !in image
    ensures CombineCRDTriplet(image, base + "/", version) == CombineCRDTriplet(image, base, version)
  {
    var slashed := base + "/";
    assert slashed[..|slashed| - 1] == base && slashed[|slashed| - 1] == '/';
    assert TrimRightSlash(slashed) == TrimRightSlash(base) == base;
  }
}
