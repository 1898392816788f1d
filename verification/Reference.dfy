/** Image references and digests: `ImageReference::parse` and `Sha256Digest::parse` in
    `oci.rs`. Strings are sequences of Unicode scalar values. */
module Reference {
  import opened Sequences
  import opened Wrappers

  const DOCKER_HUB_REGISTRY := "registry-1.docker.io"
  const DOCKER_HUB_LIBRARY := "library"
  const DOCKER_HUB_ALIAS := "docker.io"
  const LATEST := "latest"
  const SHA256_PREFIX := "sha256:"
  const SHA256_HEX_LENGTH := 64

  // ----- Text

  /** Unicode's White_Space property, which `str::trim` goes by. */
  predicate IsWhitespace(c: char) {
    || '\U{9}' <= c <= '\U{D}' || c == ' ' || c == '\U{85}' || c == '\U{A0}' || c == '\U{1680}'
    || '\U{2000}' <= c <= '\U{200A}' || c == '\U{2028}' || c == '\U{2029}' || c == '\U{202F}'
    || c == '\U{205F}' || c == '\U{3000}'
  }

  function TrimStart(s: string): (r: string)
    ensures r != [] ==> !IsWhitespace(r[0])
    ensures |r| <= |s| && r == s[|s| - |r|..]
  {
    if s != [] && IsWhitespace(s[0]) then TrimStart(s[1..]) else s
  }

  function TrimEnd(s: string): (r: string)
    ensures r != [] ==> !IsWhitespace(r[|r| - 1])
    ensures |r| <= |s| && r == s[..|r|]
  {
    if s != [] && IsWhitespace(s[|s| - 1]) then TrimEnd(s[..|s| - 1]) else s
  }

  function Trim(s: string): (r: string)
    ensures r != [] ==> !IsWhitespace(r[0]) && !IsWhitespace(r[|r| - 1])
  {
    TrimEnd(TrimStart(s))
  }

  function Find(s: string, c: char): (r: Option<nat>)
    ensures r.Some? ==> r.value < |s| && s[r.value] == c && forall j :: 0 <= j < r.value ==> s[j] != c
    ensures r.None? ==> forall j :: 0 <= j < |s| ==> s[j] != c
  {
    if s == [] then None
    else if s[0] == c then Some(0)
    else
      var rest := Find(s[1..], c);
      if rest.None? then None else Some(rest.value + 1)
  }

  function FindLast(s: string, c: char): (r: Option<nat>)
    ensures r.Some? ==> r.value < |s| && s[r.value] == c && forall j :: r.value < j < |s| ==> s[j] != c
    ensures r.None? ==> forall j :: 0 <= j < |s| ==> s[j] != c
  {
    if s == [] then None
    else if s[|s| - 1] == c then Some(|s| - 1)
    else FindLast(s[..|s| - 1], c)
  }

  /** `str::split` on one character. */
  function Split(s: string, c: char): (r: seq<string>)
    ensures r != []
    decreases |s|
  {
    match Find(s, c)
    case None => [s]
    case Some(i) => [s[..i]] + Split(s[i + 1..], c)
  }

  // ----- Digests

  datatype Digest = Digest(text: string)

  datatype DigestError = MissingAlgorithm | UnsupportedAlgorithm | InvalidLength(actual: nat) | InvalidEncoding

  function Utf8Length(s: string): nat {
    if s == [] then 0
    else
      (if s[0] < '\U{80}' then 1 else if s[0] < '\U{800}' then 2 else if s[0] < '\U{10000}' then 3 else 4)
      + Utf8Length(s[1..])
  }

  predicate IsHex(c: char) {
    '0' <= c <= '9' || 'a' <= c <= 'f' || 'A' <= c <= 'F'
  }

  predicate IsLowerHex(c: char) {
    '0' <= c <= '9' || 'a' <= c <= 'f'
  }

  function LowerChar(c: char): char {
    if 'A' <= c <= 'Z' then c - 'A' + 'a' else c
  }

  function Lower(s: string): string {
    seq(|s|, i requires 0 <= i < |s| => LowerChar(s[i]))
  }

  function ParseDigest(value: string): Result<Digest, DigestError> {
    match Find(value, ':')
    case None => Err(MissingAlgorithm)
    case Some(colon) =>
      var algorithm, encoded := value[..colon], value[colon + 1..];
      if algorithm != "sha256" then Err(UnsupportedAlgorithm)
      else if Utf8Length(encoded) != SHA256_HEX_LENGTH then Err(InvalidLength(Utf8Length(encoded)))
      else if !forall i :: 0 <= i < |encoded| ==> IsHex(encoded[i]) then Err(InvalidEncoding)
      else Ok(Digest(SHA256_PREFIX + Lower(encoded)))
  }

  /** `sha256:` and 64 lower-case hex digits. */
  predicate CanonicalDigest(d: Digest) {
    && |d.text| == |SHA256_PREFIX| + SHA256_HEX_LENGTH
    && SHA256_PREFIX <= d.text
    && forall i :: |SHA256_PREFIX| <= i < |d.text| ==> IsLowerHex(d.text[i])
  }

  lemma {:induction false} AsciiLength(s: string)
    requires forall i :: 0 <= i < |s| ==> s[i] < '\U{80}'
    ensures Utf8Length(s) == |s|
  {
    if s != [] {
      AsciiLength(s[1..]);
    }
  }

  /** Case is folded: a digest parses to a canonical one, which differs from it in case only. */
  lemma ParsedDigest(value: string)
    requires ParseDigest(value).Ok?
    ensures CanonicalDigest(ParseDigest(value).value)
    ensures ParseDigest(value).value.text == Lower(value)
  {
    var colon := Find(value, ':').value;
    var encoded := value[colon + 1..];
    AsciiLength(encoded);
    assert value == value[..colon + 1] + encoded;
    LowerAppend(value[..colon + 1], encoded);
    assert value[..colon + 1] == value[..colon] + [':'];
    PrefixIsLower();
    LowerDigest(encoded);
  }

  lemma LowerAppend(a: string, b: string)
    ensures Lower(a + b) == Lower(a) + Lower(b)
  {
  }

  lemma PrefixIsLower()
    ensures "sha256" + [':'] == SHA256_PREFIX && Lower(SHA256_PREFIX) == SHA256_PREFIX
  {
  }

  lemma LowerDigest(encoded: string)
    requires |encoded| == SHA256_HEX_LENGTH && forall i :: 0 <= i < |encoded| ==> IsHex(encoded[i])
    ensures CanonicalDigest(Digest(SHA256_PREFIX + Lower(encoded)))
  {
    var text := SHA256_PREFIX + Lower(encoded);
    forall i | |SHA256_PREFIX| <= i < |text| ensures IsLowerHex(text[i]) {
      assert text[i] == LowerChar(encoded[i - |SHA256_PREFIX|]) && IsHex(encoded[i - |SHA256_PREFIX|]);
    }
  }

  lemma ColonAfterPrefix(value: string)
    requires SHA256_PREFIX <= value
    ensures Find(value, ':') == Some(6) && value[..6] == "sha256"
  {
    assert value[6] == SHA256_PREFIX[6];
    assert forall j :: 0 <= j < 6 ==> value[j] == SHA256_PREFIX[j];
  }

  /** Accepted is exactly `sha256:` followed by 64 hex digits of either case; anything else is
      refused for what comes first. */
  lemma DigestAcceptedExactly(value: string)
    ensures ParseDigest(value).Ok? <==>
            && |value| == |SHA256_PREFIX| + SHA256_HEX_LENGTH && SHA256_PREFIX <= value
            && forall i :: |SHA256_PREFIX| <= i < |value| ==> IsHex(value[i])
    ensures ParseDigest(value) == Err(MissingAlgorithm) <==> ':' !in value
    ensures ParseDigest(value) == Err(UnsupportedAlgorithm) <==> ':' in value && !(SHA256_PREFIX <= value)
  {
    if SHA256_PREFIX <= value {
      ColonAfterPrefix(value);
      var encoded := value[7..];
      if forall i :: 7 <= i < |value| ==> IsHex(value[i]) {
        assert forall i :: 0 <= i < |encoded| ==> encoded[i] == value[i + 7];
        AsciiLength(encoded);
      }
      if ParseDigest(value).Ok? {
        AsciiLength(encoded);
        assert forall i :: 7 <= i < |value| ==> value[i] == encoded[i - 7];
      }
    } else if Find(value, ':').Some? {
      var colon := Find(value, ':').value;
      assert value[..colon + 1] == value[..colon] + [':'];
    }
  }

  lemma DigestRoundTrip(d: Digest)
    ensures ParseDigest(d.text) == Ok(d) <==> CanonicalDigest(d)
  {
    if CanonicalDigest(d) {
      var encoded := d.text[|SHA256_PREFIX|..];
      assert d.text[6] == SHA256_PREFIX[6];
      assert forall j :: 0 <= j < 6 ==> d.text[j] == SHA256_PREFIX[j];
      assert Find(d.text, ':') == Some(6);
      assert d.text[..6] == "sha256";
      AsciiLength(encoded);
      assert Lower(encoded) == encoded;
      assert d.text == SHA256_PREFIX + encoded;
    } else if ParseDigest(d.text) == Ok(d) {
      ParsedDigest(d.text);
    }
  }

  // ----- References

  datatype ImageVersion = Tag(tag: string) | ByDigest(digest: Digest)

  datatype ImageReference = ImageReference(registry: string, repository: string, version: ImageVersion)

  datatype ReferenceError = Empty | EmptyComponent | InvalidRepository | EmptyTag | InvalidDigest | TagAndDigest

  predicate After(a: Option<nat>, b: Option<nat>) {
    a.Some? && (b.Some? ==> a.value > b.value)
  }

  /** A name with what follows the at-sign. */
  function DigestVersion(name: string, digest: Result<Digest, DigestError>)
    : Result<(string, ImageVersion), ReferenceError>
  {
    if After(FindLast(name, ':'), FindLast(name, '/')) then Err(TagAndDigest)
    else if digest.Ok? then Ok((name, ByDigest(digest.value)))
    else Err(InvalidDigest)
  }

  /** A name with what follows the colon. */
  function TagVersion(name: string, tag: string): Result<(string, ImageVersion), ReferenceError> {
    if tag == [] then Err(EmptyTag) else Ok((name, Tag(tag)))
  }

  function SplitVersion(reference: string): Result<(string, ImageVersion), ReferenceError> {
    match Find(reference, '@')
    case Some(at) => DigestVersion(reference[..at], ParseDigest(reference[at + 1..]))
    case None =>
      var colon := FindLast(reference, ':');
      if After(colon, FindLast(reference, '/'))
      then TagVersion(reference[..colon.value], reference[colon.value + 1..])
      else Ok((reference, Tag(LATEST)))
  }

  /** A first component is a host when it has a dot or a port, or is `localhost`. */
  predicate IsHost(head: string) {
    '.' in head || ':' in head || head == "localhost"
  }

  function SplitRegistry(name: string): (string, string) {
    var slash := Find(name, '/');
    if slash.None? then (DOCKER_HUB_REGISTRY, name)
    else
      var head := name[..slash.value];
      if '.' in head || ':' in head || head == "localhost" then
        (if head == DOCKER_HUB_ALIAS then DOCKER_HUB_REGISTRY else head, name[slash.value + 1..])
      else
        (DOCKER_HUB_REGISTRY, name)
  }

  predicate IsAlphanumeric(c: char) {
    'a' <= c <= 'z' || '0' <= c <= '9'
  }

  predicate IsComponentChar(c: char) {
    IsAlphanumeric(c) || c == '.' || c == '_' || c == '-'
  }

  predicate IsValidComponent(component: string)
    requires component != []
  {
    && IsAlphanumeric(component[0])
    && IsAlphanumeric(component[|component| - 1])
    && forall i :: 0 <= i < |component| ==> IsComponentChar(component[i])
  }

  /** The first component that is empty or malformed decides the error. */
  function ComponentsProblem(components: seq<string>): Option<ReferenceError> {
    if components == [] then None
    else if components[0] == [] then Some(EmptyComponent)
    else if !IsValidComponent(components[0]) then Some(InvalidRepository)
    else ComponentsProblem(components[1..])
  }

  function Qualify(registry: string, path: string): Result<string, ReferenceError> {
    if path == [] then Err(EmptyComponent)
    else
      var problem := ComponentsProblem(Split(path, '/'));
      if problem.Some? then Err(problem.value)
      else if registry == DOCKER_HUB_REGISTRY && '/' !in path then Ok(DOCKER_HUB_LIBRARY + "/" + path)
      else Ok(path)
  }

  function Assemble(registry: string, path: string, version: ImageVersion): Result<ImageReference, ReferenceError> {
    var repository := Qualify(registry, path);
    if repository.Err? then Err(repository.error)
    else Ok(ImageReference(registry, repository.value, version))
  }

  function Parse(text: string): Result<ImageReference, ReferenceError> {
    var reference := Trim(text);
    if reference == [] then Err(Empty)
    else
      var split := SplitVersion(reference);
      if split.Err? then Err(split.error)
      else
        var (name, version) := split.value;
        var (registry, path) := SplitRegistry(name);
        Assemble(registry, path, version)
  }

  function Name(r: ImageReference): string {
    r.registry + "/" + r.repository
  }

  function Print(r: ImageReference): string {
    Name(r) + match r.version
              case Tag(tag) => ":" + tag
              case ByDigest(digest) => "@" + digest.text
  }

  // ----- Canonical form

  /** Repository paths, character by character: a slash stands between two alphanumerics, and
      so does the path as a whole. */
  predicate PathBoundary(path: string, i: int) {
    0 <= i < |path| && IsAlphanumeric(path[i])
  }

  predicate CanonicalPath(path: string) {
    && PathBoundary(path, 0)
    && PathBoundary(path, |path| - 1)
    && (forall i :: 0 <= i < |path| ==> path[i] == '/' || IsComponentChar(path[i]))
    && (forall i :: 0 <= i < |path| && path[i] == '/' ==> PathBoundary(path, i - 1) && PathBoundary(path, i + 1))
  }

  predicate CanonicalRegistry(registry: string) {
    && IsHost(registry)
    && registry != DOCKER_HUB_ALIAS
    && registry != []
    && !IsWhitespace(registry[0])
    && '/' !in registry
    && '@' !in registry
  }

  predicate CanonicalVersion(version: ImageVersion) {
    match version
    case Tag(tag) =>
      && tag != []
      && !IsWhitespace(tag[|tag| - 1])
      && ':' !in tag && '/' !in tag && '@' !in tag
    case ByDigest(digest) => CanonicalDigest(digest)
  }

  predicate Canonical(r: ImageReference) {
    && CanonicalRegistry(r.registry)
    && CanonicalPath(r.repository)
    && (r.registry == DOCKER_HUB_REGISTRY ==> '/' in r.repository)
    && CanonicalVersion(r.version)
  }

  /** The component-wise check and the character-wise one accept the same paths. */
  lemma {:induction false} PathExactly(path: string)
    ensures CanonicalPath(path) <==> ComponentsProblem(Split(path, '/')).None?
    decreases |path|
  {
    var slash := Find(path, '/');
    if slash.None? {
      assert Split(path, '/') == [path];
      assert ComponentsProblem([path][1..]).None?;
    } else {
      var i := slash.value;
      var head, rest := path[..i], path[i + 1..];
      PathExactly(rest);
      assert Split(path, '/')[0] == head && Split(path, '/')[1..] == Split(rest, '/');
      PathSplits(path, i);
    }
  }

  lemma PathSplits(path: string, i: nat)
    requires i < |path| && path[i] == '/' && forall j :: 0 <= j < i ==> path[j] != '/'
    ensures CanonicalPath(path) <==>
            path[..i] != [] && IsValidComponent(path[..i]) && CanonicalPath(path[i + 1..])
  {
    var head, rest := path[..i], path[i + 1..];
    assert forall j :: 0 <= j < |rest| ==> rest[j] == path[i + 1 + j];
    if CanonicalPath(path) {
      assert PathBoundary(path, i - 1) && PathBoundary(path, i + 1);
      forall j | 0 <= j < |rest| && rest[j] == '/' ensures PathBoundary(rest, j - 1) && PathBoundary(rest, j + 1) {
        assert path[i + 1 + j] == '/';
        assert PathBoundary(path, i + j) && PathBoundary(path, i + 2 + j);
      }
    }
    if head != [] && IsValidComponent(head) && CanonicalPath(rest) {
      forall j | 0 <= j < |path| && path[j] == '/' ensures PathBoundary(path, j - 1) && PathBoundary(path, j + 1) {
        if j > i {
          assert rest[j - i - 1] == '/';
          assert PathBoundary(rest, j - i - 2) && PathBoundary(rest, j - i);
        } else {
          assert j == i && PathBoundary(rest, 0);
        }
      }
      forall j | 0 <= j < |path| ensures path[j] == '/' || IsComponentChar(path[j]) {
        if j < i { assert head[j] == path[j]; } else if j > i { assert rest[j - i - 1] == path[j]; }
      }
    }
  }

  lemma QualifiedPath(registry: string, path: string)
    ensures Qualify(registry, path).Ok? <==> CanonicalPath(path)
    ensures Qualify(registry, path).Ok? ==>
              && CanonicalPath(Qualify(registry, path).value)
              && (registry == DOCKER_HUB_REGISTRY ==> '/' in Qualify(registry, path).value)
  {
    PathExactly(path);
    if CanonicalPath(path) && registry == DOCKER_HUB_REGISTRY && '/' !in path {
      var full := DOCKER_HUB_LIBRARY + "/" + path;
      assert full[7] == '/' && full[..7] == DOCKER_HUB_LIBRARY && full[7 + 1..] == path;
      assert IsValidComponent(DOCKER_HUB_LIBRARY);
      assert forall j :: 0 <= j < 7 ==> full[j] == DOCKER_HUB_LIBRARY[j];
      PathSplits(full, 7);
    }
  }

  lemma SplitVersionCanonical(reference: string)
    requires reference != [] && !IsWhitespace(reference[0]) && !IsWhitespace(reference[|reference| - 1])
    requires SplitVersion(reference).Ok?
    ensures CanonicalVersion(SplitVersion(reference).value.1)
    ensures SplitVersion(reference).value.0 <= reference
    ensures '@' !in SplitVersion(reference).value.0
  {
    match Find(reference, '@')
    case Some(at) => ParsedDigest(reference[at + 1..]);
    case None =>
  }

  lemma SplitRegistryCanonical(name: string)
    requires name != [] ==> !IsWhitespace(name[0])
    requires '@' !in name
    ensures CanonicalRegistry(SplitRegistry(name).0)
  {
    var slash := Find(name, '/');
    if slash.Some? && IsHost(name[..slash.value]) && name[..slash.value] != DOCKER_HUB_ALIAS {
      var head := name[..slash.value];
      assert head != [];
    } else {
      assert DOCKER_HUB_REGISTRY[10] == '.';
    }
  }

  /** Whatever parses comes out canonical. */
  lemma ParsedCanonical(text: string)
    requires Parse(text).Ok?
    ensures Canonical(Parse(text).value)
  {
    var reference := Trim(text);
    SplitVersionCanonical(reference);
    var name := SplitVersion(reference).value.0;
    SplitRegistryCanonical(name);
    QualifiedPath(SplitRegistry(name).0, SplitRegistry(name).1);
  }

  lemma TrimmedStays(s: string)
    requires s != [] && !IsWhitespace(s[0]) && !IsWhitespace(s[|s| - 1])
    ensures Trim(s) == s
  {
  }

  lemma SplitsRegistryBack(r: ImageReference)
    requires CanonicalRegistry(r.registry)
    ensures SplitRegistry(Name(r)) == (r.registry, r.repository)
  {
    var name, i := Name(r), |r.registry|;
    assert name[i] == '/' && forall j :: 0 <= j < i ==> name[j] == r.registry[j];
    assert Find(name, '/') == Some(i);
    assert name[..i] == r.registry && name[i + 1..] == r.repository;
  }

  lemma NameChars(r: ImageReference)
    requires CanonicalRegistry(r.registry) && CanonicalPath(r.repository)
    ensures forall j :: 0 <= j < |Name(r)| ==> Name(r)[j] != '@'
    ensures !After(FindLast(Name(r), ':'), FindLast(Name(r), '/'))
  {
    var name, i := Name(r), |r.registry|;
    assert name[i] == '/';
    forall j | 0 <= j < |name| ensures name[j] != '@' && (j > i ==> name[j] != ':') {
      if j < i { assert name[j] == r.registry[j]; }
      if j > i { assert name[j] == r.repository[j - i - 1]; }
    }
  }

  lemma SplitsVersionBack(r: ImageReference)
    requires Canonical(r)
    ensures SplitVersion(Print(r)) == Ok((Name(r), r.version))
  {
    NameChars(r);
    match r.version
    case ByDigest(digest) =>
      DigestSplitsOff(Name(r), digest);
    case Tag(tag) =>
      TagSplitsOff(Name(r), tag);
  }

  lemma FindIs(s: string, c: char, i: nat)
    requires i < |s| && s[i] == c && forall j :: 0 <= j < i ==> s[j] != c
    ensures Find(s, c) == Some(i)
  {
  }

  lemma FindLastIs(s: string, c: char, i: nat)
    requires i < |s| && s[i] == c && forall j :: i < j < |s| ==> s[j] != c
    ensures FindLast(s, c) == Some(i)
  {
  }

  lemma CutAt(name: string, c: char, rest: string)
    ensures (name + [c] + rest)[|name|] == c
    ensures (name + [c] + rest)[..|name|] == name
    ensures (name + [c] + rest)[|name| + 1..] == rest
  {
  }

  lemma FirstOccurrence(name: string, c: char, rest: string)
    requires forall j :: 0 <= j < |name| ==> name[j] != c
    ensures Find(name + [c] + rest, c) == Some(|name|)
  {
    var text := name + [c] + rest;
    CutAt(name, c, rest);
    assert forall j :: 0 <= j < |name| ==> text[j] == name[j];
    FindIs(text, c, |name|);
  }

  lemma LastOccurrence(name: string, c: char, rest: string)
    requires forall j :: 0 <= j < |rest| ==> rest[j] != c
    ensures FindLast(name + [c] + rest, c) == Some(|name|)
  {
    var text := name + [c] + rest;
    CutAt(name, c, rest);
    assert forall j :: |name| < j < |text| ==> text[j] == rest[j - |name| - 1];
    FindLastIs(text, c, |name|);
  }

  lemma SplitsAtSign(name: string, rest: string)
    requires forall j :: 0 <= j < |name| ==> name[j] != '@'
    ensures SplitVersion(name + ['@'] + rest) == DigestVersion(name, ParseDigest(rest))
  {
    FirstOccurrence(name, '@', rest);
    CutAt(name, '@', rest);
  }

  lemma DigestSplitsOff(name: string, digest: Digest)
    requires forall j :: 0 <= j < |name| ==> name[j] != '@'
    requires !After(FindLast(name, ':'), FindLast(name, '/')) && CanonicalDigest(digest)
    ensures SplitVersion(name + ("@" + digest.text)) == Ok((name, ByDigest(digest)))
  {
    Associative(name, ['@'], digest.text);
    SplitsAtSign(name, digest.text);
    DigestRoundTrip(digest);
  }

  lemma NotFound(name: string, sep: char, rest: string, c: char)
    requires c != sep
    requires forall j :: 0 <= j < |name| ==> name[j] != c
    requires forall j :: 0 <= j < |rest| ==> rest[j] != c
    ensures Find(name + [sep] + rest, c) == None
  {
    var text := name + [sep] + rest;
    forall j | 0 <= j < |text| ensures text[j] != c {
      if j > |name| { assert text[j] == rest[j - |name| - 1]; }
    }
  }

  lemma LastBefore(name: string, sep: char, rest: string, c: char)
    requires c != sep
    requires forall j :: 0 <= j < |rest| ==> rest[j] != c
    ensures FindLast(name + [sep] + rest, c).Some? ==> FindLast(name + [sep] + rest, c).value < |name|
  {
    var text := name + [sep] + rest;
    forall j | |name| <= j < |text| ensures text[j] != c {
      if j > |name| { assert text[j] == rest[j - |name| - 1]; }
    }
  }

  lemma TagSplitsOff(name: string, tag: string)
    requires forall j :: 0 <= j < |name| ==> name[j] != '@'
    requires tag != [] && ':' !in tag && '/' !in tag && '@' !in tag
    ensures SplitVersion(name + (":" + tag)) == Ok((name, Tag(tag)))
  {
    Associative(name, [':'], tag);
    NotFound(name, ':', tag, '@');
    LastBefore(name, ':', tag, '/');
    LastOccurrence(name, ':', tag);
    CutAt(name, ':', tag);
  }

  lemma PrintEnds(r: ImageReference)
    requires Canonical(r)
    ensures Print(r) != [] && !IsWhitespace(Print(r)[0]) && !IsWhitespace(Print(r)[|Print(r)| - 1])
  {
    assert Print(r)[0] == r.registry[0];
    match r.version
    case ByDigest(digest) => assert Print(r)[|Print(r)| - 1] == digest.text[|digest.text| - 1];
    case Tag(tag) => assert Print(r)[|Print(r)| - 1] == tag[|tag| - 1];
  }

  /** Printing and parsing again gives the same reference exactly for the canonical ones. */
  lemma PrintRoundTrip(r: ImageReference)
    ensures Parse(Print(r)) == Ok(r) <==> Canonical(r)
  {
    if Canonical(r) {
      PrintEnds(r);
      TrimmedStays(Print(r));
      SplitsVersionBack(r);
      SplitsRegistryBack(r);
      QualifiedPath(r.registry, r.repository);
    } else if Parse(Print(r)) == Ok(r) {
      ParsedCanonical(Print(r));
    }
  }

  /** So one pass through the parser is enough, for every text that parses. */
  lemma ParseStable(text: string)
    requires Parse(text).Ok?
    ensures Parse(Print(Parse(text).value)) == Parse(text)
  {
    ParsedCanonical(text);
    PrintRoundTrip(Parse(text).value);
  }

  // ----- What a text means

  /** No colon after the last slash, so no tag. */
  predicate Untagged(name: string) {
    forall i :: 0 <= i < |name| && name[i] == ':' ==> '/' in name[i..]
  }

  /** What stands before the first `c`. */
  predicate HeadOf(head: string, text: string, c: char) {
    head + [c] <= text && c !in head
  }

  lemma HeadIs(head: string, text: string, c: char)
    ensures HeadOf(head, text, c) <==> Find(text, c).Some? && head == text[..Find(text, c).value]
  {
    if HeadOf(head, text, c) {
      assert text == head + [c] + text[|head| + 1..];
      FirstOccurrence(head, c, text[|head| + 1..]);
    }
    if Find(text, c).Some? {
      var i := Find(text, c).value;
      assert text[..i] + [c] == text[..i + 1];
    }
  }

  /** `name` is followed by a digest, by a tag, or by nothing. */
  ghost predicate ReadsVersion(text: string, name: string, version: ImageVersion) {
    match version
    case ByDigest(digest) =>
      HeadOf(name, text, '@') && Untagged(name) && ParseDigest(text[|name| + 1..]) == Ok(digest)
    case Tag(tag) =>
      '@' !in text && (Tagged(text, name, tag) || (tag == LATEST && text == name && Untagged(name)))
  }

  predicate Tagged(text: string, name: string, tag: string) {
    tag != [] && ':' !in tag && '/' !in tag && text == name + [':'] + tag
  }

  /** The first component is a host, the hub's alias standing for the hub; or all is a path there. */
  ghost predicate ReadsRegistry(name: string, registry: string, path: string) {
    || (exists head :: HeadOf(head, name, '/') && IsHost(head) && name[|head| + 1..] == path
                       && registry == if head == DOCKER_HUB_ALIAS then DOCKER_HUB_REGISTRY else head)
    || ((forall head :: HeadOf(head, name, '/') ==> !IsHost(head))
        && registry == DOCKER_HUB_REGISTRY && path == name)
  }

  lemma SplitRegistryExactly(name: string, registry: string, path: string)
    ensures SplitRegistry(name) == (registry, path) <==> ReadsRegistry(name, registry, path)
  {
    forall head: string
      ensures HeadOf(head, name, '/') <==> Find(name, '/').Some? && head == name[..Find(name, '/').value]
    {
      HeadIs(head, name, '/');
    }
    if Find(name, '/').Some? {
      assert HeadOf(name[..Find(name, '/').value], name, '/');
    }
  }

  lemma UntaggedExactly(name: string)
    ensures Untagged(name) <==> !After(FindLast(name, ':'), FindLast(name, '/'))
  {
    var colon, slash := FindLast(name, ':'), FindLast(name, '/');
    if After(colon, slash) {
      assert '/' !in name[colon.value..];
    } else {
      forall i | 0 <= i < |name| && name[i] == ':' ensures '/' in name[i..] {
        assert name[i..][slash.value - i] == '/';
      }
    }
  }

  lemma DigestVersionExactly(before: string, parsed: Result<Digest, DigestError>, name: string, version: ImageVersion)
    ensures DigestVersion(before, parsed) == Ok((name, version)) <==>
            Untagged(before) && name == before && version.ByDigest? && parsed == Ok(version.digest)
  {
    UntaggedExactly(before);
  }

  lemma DigestReads(text: string, name: string, version: ImageVersion)
    requires '@' in text
    ensures SplitVersion(text) == Ok((name, version)) <==> ReadsVersion(text, name, version)
  {
    var at := Find(text, '@').value;
    var parsed := ParseDigest(text[at + 1..]);
    HeadIs(name, text, '@');
    assert SplitVersion(text) == DigestVersion(text[..at], parsed);
    DigestVersionExactly(text[..at], parsed, name, version);
  }

  lemma TagSplits(text: string, name: string, tag: string)
    requires '@' !in text && Tagged(text, name, tag)
    ensures SplitVersion(text) == Ok((name, Tag(tag))) && After(FindLast(text, ':'), FindLast(text, '/'))
  {
    LastBefore(name, ':', tag, '/');
    LastOccurrence(name, ':', tag);
    CutAt(name, ':', tag);
  }

  lemma TaggedAt(text: string, colon: nat)
    requires colon + 1 < |text| && text[colon] == ':'
    requires forall j :: colon < j < |text| ==> text[j] != ':' && text[j] != '/'
    ensures Tagged(text, text[..colon], text[colon + 1..])
  {
    var tag := text[colon + 1..];
    assert forall j :: 0 <= j < |tag| ==> tag[j] == text[colon + 1 + j];
    assert text == text[..colon] + [':'] + tag;
  }

  lemma TagReads(text: string, name: string, version: ImageVersion)
    requires '@' !in text
    ensures SplitVersion(text) == Ok((name, version)) <==> ReadsVersion(text, name, version)
  {
    UntaggedExactly(text);
    var colon := FindLast(text, ':');
    if version.Tag? && Tagged(text, name, version.tag) {
      TagSplits(text, name, version.tag);
    } else if After(colon, FindLast(text, '/')) && colon.value + 1 < |text| {
      TaggedAt(text, colon.value);
    }
    if version.ByDigest? {
      HeadIs(name, text, '@');
    }
  }

  lemma SplitVersionExactly(text: string, name: string, version: ImageVersion)
    ensures SplitVersion(text) == Ok((name, version)) <==> ReadsVersion(text, name, version)
  {
    if '@' in text {
      DigestReads(text, name, version);
    } else {
      TagReads(text, name, version);
    }
  }

  /** The hub's own images live under `library/`. */
  predicate ReadsPath(registry: string, path: string, repository: string) {
    && CanonicalPath(path)
    && repository == if registry == DOCKER_HUB_REGISTRY && '/' !in path then DOCKER_HUB_LIBRARY + "/" + path else path
  }

  ghost predicate Means(text: string, r: ImageReference, name: string, path: string) {
    && ReadsVersion(text, name, r.version)
    && ReadsRegistry(name, r.registry, path)
    && ReadsPath(r.registry, path, r.repository)
  }

  lemma ParsedMeans(text: string)
    requires Parse(text).Ok?
    ensures exists name, path :: Means(Trim(text), Parse(text).value, name, path)
  {
    var t, r := Trim(text), Parse(text).value;
    var (name, version) := SplitVersion(t).value;
    var (registry, path) := SplitRegistry(name);
    SplitVersionExactly(t, name, version);
    SplitRegistryExactly(name, registry, path);
    QualifiedPath(registry, path);
    QualifiedExactly(registry, path);
    assert Means(t, r, name, path);
  }

  lemma MeaningParses(text: string, r: ImageReference, name: string, path: string)
    requires Means(Trim(text), r, name, path)
    ensures Parse(text) == Ok(r)
  {
    SplitVersionExactly(Trim(text), name, r.version);
    SplitRegistryExactly(name, r.registry, path);
    QualifiedExactly(r.registry, path);
    assert Trim(text) != [];
  }

  /** The parser gives exactly what the trimmed text means: for every text and every reference. */
  lemma ParseExactly(text: string, r: ImageReference)
    ensures Parse(text) == Ok(r) <==> exists name, path :: Means(Trim(text), r, name, path)
  {
    if Parse(text) == Ok(r) {
      ParsedMeans(text);
    }
    if name, path :| Means(Trim(text), r, name, path) {
      MeaningParses(text, r, name, path);
    }
  }

  /** Trimming takes the white space at both ends and nothing else. */
  lemma TrimExactly(before: string, s: string, after: string)
    requires s != [] && !IsWhitespace(s[0]) && !IsWhitespace(s[|s| - 1])
    requires forall c :: c in before || c in after ==> IsWhitespace(c)
    ensures Trim(before + s + after) == s
  {
    var text := before + s + after;
    assert text == before + (s + after);
    StartTrims(before, s + after);
    EndTrims(s, after);
  }

  lemma {:induction false} OnlySpaceBefore(s: string)
    ensures forall j :: 0 <= j < |s| - |TrimStart(s)| ==> IsWhitespace(s[j])
  {
    if s != [] && IsWhitespace(s[0]) {
      OnlySpaceBefore(s[1..]);
      assert forall j :: 1 <= j < |s| ==> s[j] == s[1..][j - 1];
    }
  }

  lemma {:induction false} OnlySpaceAfter(s: string)
    ensures forall j :: |TrimEnd(s)| <= j < |s| ==> IsWhitespace(s[j])
  {
    if s != [] && IsWhitespace(s[|s| - 1]) {
      OnlySpaceAfter(s[..|s| - 1]);
    }
  }

  lemma StartTrims(before: string, s: string)
    requires s != [] && !IsWhitespace(s[0]) && forall c :: c in before ==> IsWhitespace(c)
    ensures TrimStart(before + s) == s
  {
    var text := before + s;
    var dropped := |text| - |TrimStart(text)|;
    OnlySpaceBefore(text);
    assert forall j :: 0 <= j < |before| ==> text[j] in before;
    assert dropped >= |before| && text[|before|] == s[0];
    assert dropped <= |before|;
  }

  lemma EndTrims(s: string, after: string)
    requires s != [] && !IsWhitespace(s[|s| - 1]) && forall c :: c in after ==> IsWhitespace(c)
    ensures TrimEnd(s + after) == s
  {
    var text := s + after;
    var kept := |TrimEnd(text)|;
    OnlySpaceAfter(text);
    assert forall j :: |s| <= j < |text| ==> text[j] in after;
    assert kept <= |s| && text[|s| - 1] == s[|s| - 1];
    assert kept >= |s|;
  }

  lemma VersionRefusals(t: string)
    ensures SplitVersion(t) == Err(TagAndDigest) <==> exists name :: HeadOf(name, t, '@') && !Untagged(name)
    ensures SplitVersion(t) == Err(InvalidDigest) <==>
            exists name :: HeadOf(name, t, '@') && Untagged(name) && ParseDigest(t[|name| + 1..]).Err?
    ensures SplitVersion(t) == Err(EmptyTag) <==> '@' !in t && t != [] && t[|t| - 1] == ':'
    ensures SplitVersion(t).Err? ==> SplitVersion(t).error in {TagAndDigest, InvalidDigest, EmptyTag}
  {
    forall other: string
      ensures HeadOf(other, t, '@') <==> Find(t, '@').Some? && other == t[..Find(t, '@').value]
    {
      HeadIs(other, t, '@');
    }
    if '@' in t {
      var name := t[..Find(t, '@').value];
      assert HeadOf(name, t, '@');
      UntaggedExactly(name);
    } else if t != [] && t[|t| - 1] == ':' {
      FindLastIs(t, ':', |t| - 1);
    }
  }

  /** What it refuses, it refuses for the first thing wrong: nothing but white space, a tag before
      a digest, a bad digest, an empty tag, and then the path. */
  lemma ParseRefusals(text: string)
    ensures
      var t, r := Trim(text), Parse(text);
      && (r == Err(Empty) <==> forall c :: c in text ==> IsWhitespace(c))
      && (r == Err(TagAndDigest) <==> exists name :: HeadOf(name, t, '@') && !Untagged(name))
      && (r == Err(InvalidDigest) <==>
          exists name :: HeadOf(name, t, '@') && Untagged(name) && ParseDigest(t[|name| + 1..]).Err?)
      && (r == Err(EmptyTag) <==> '@' !in t && t != [] && t[|t| - 1] == ':')
  {
    TrimmedAway(text);
    VersionRefusals(Trim(text));
    if Parse(text).Err? && SplitVersion(Trim(text)).Ok? && Trim(text) != [] {
      var (registry, path) := SplitRegistry(SplitVersion(Trim(text)).value.0);
      PathRefusals(registry, path);
    }
  }

  /** An empty component is told from a malformed one by whichever comes first. */
  lemma PathRefusals(registry: string, path: string)
    ensures Qualify(registry, path).Err? ==> Qualify(registry, path).error in {EmptyComponent, InvalidRepository}
  {
    FirstProblem(Split(path, '/'));
  }

  lemma {:induction false} FirstProblem(components: seq<string>)
    ensures ComponentsProblem(components).Some? ==>
              exists k ::
                && 0 <= k < |components|
                && (forall j :: 0 <= j < k ==> components[j] != [] && IsValidComponent(components[j]))
                && (components[k] == [] || !IsValidComponent(components[k]))
                && ComponentsProblem(components).value ==
                   if components[k] == [] then EmptyComponent else InvalidRepository
  {
    if components != [] && components[0] != [] && IsValidComponent(components[0]) {
      FirstProblem(components[1..]);
      if ComponentsProblem(components).Some? {
        var k :|
          && 0 <= k < |components| - 1
          && (forall j :: 0 <= j < k ==> components[1..][j] != [] && IsValidComponent(components[1..][j]))
          && (components[1..][k] == [] || !IsValidComponent(components[1..][k]))
          && ComponentsProblem(components[1..]).value ==
             if components[1..][k] == [] then EmptyComponent else InvalidRepository;
        assert components[1..][k] == components[k + 1];
        assert forall j :: 0 < j < k + 1 ==> components[j] == components[1..][j - 1];
      }
    }
  }

  lemma TrimmedAway(text: string)
    ensures Trim(text) == [] <==> forall c :: c in text ==> IsWhitespace(c)
  {
    var started := TrimStart(text);
    OnlySpaceBefore(text);
    OnlySpaceAfter(started);
    assert forall j :: |text| - |started| <= j < |text| ==> text[j] == started[j - (|text| - |started|)];
    if Trim(text) != [] {
      assert started[0] in text;
    }
  }

  // ----- What a bare name stands for

  function HubReference(path: string): ImageReference {
    ImageReference(
      DOCKER_HUB_REGISTRY, if '/' in path then path else DOCKER_HUB_LIBRARY + "/" + path, Tag(LATEST))
  }

  /** A path with no tag is all name: its version is `latest`. */
  lemma UntaggedName(name: string)
    requires name != [] && !IsWhitespace(name[0]) && !IsWhitespace(name[|name| - 1])
    requires forall j :: 0 <= j < |name| ==> name[j] != '@' && name[j] != ':'
    ensures Parse(name) == Assemble(SplitRegistry(name).0, SplitRegistry(name).1, Tag(LATEST))
  {
    TrimmedStays(name);
    assert SplitVersion(name) == Ok((name, Tag(LATEST)));
  }

  lemma CanonicalPathChars(path: string)
    requires CanonicalPath(path)
    ensures path != [] && !IsWhitespace(path[0]) && !IsWhitespace(path[|path| - 1])
    ensures forall j :: 0 <= j < |path| ==> path[j] != '@' && path[j] != ':'
  {
    assert PathBoundary(path, 0) && PathBoundary(path, |path| - 1);
  }

  lemma HostSplitsOff(host: string, path: string)
    requires IsHost(host) && forall j :: 0 <= j < |host| ==> host[j] != '/'
    ensures SplitRegistry(host + ['/'] + path) == (if host == DOCKER_HUB_ALIAS then DOCKER_HUB_REGISTRY else host, path)
  {
    FirstOccurrence(host, '/', path);
    CutAt(host, '/', path);
  }

  lemma JoinedEnds(host: string, path: string)
    requires host != [] && path != []
    ensures
      var name := host + ['/'] + path;
      name != [] && name[0] == host[0] && name[|name| - 1] == path[|path| - 1]
  {
  }

  lemma JoinedChars(host: string, path: string, c: char)
    requires c != '/'
    requires forall j :: 0 <= j < |host| ==> host[j] != c
    requires forall j :: 0 <= j < |path| ==> path[j] != c
    ensures forall j :: 0 <= j < |host + ['/'] + path| ==> (host + ['/'] + path)[j] != c
  {
    var name := host + ['/'] + path;
    forall j | 0 <= j < |name| ensures name[j] != c {
      if j > |host| { assert name[j] == path[j - |host| - 1]; }
    }
  }

  lemma HostedName(host: string, path: string)
    requires host != [] && !IsWhitespace(host[0]) && IsHost(host)
    requires path != [] && !IsWhitespace(path[|path| - 1])
    requires forall j :: 0 <= j < |host| ==> host[j] != '@' && host[j] != ':' && host[j] != '/'
    requires forall j :: 0 <= j < |path| ==> path[j] != '@' && path[j] != ':'
    ensures Parse(host + "/" + path) ==
            Assemble(if host == DOCKER_HUB_ALIAS then DOCKER_HUB_REGISTRY else host, path, Tag(LATEST))
  {
    JoinedEnds(host, path);
    JoinedChars(host, path, '@');
    JoinedChars(host, path, ':');
    UntaggedName(host + ['/'] + path);
    HostSplitsOff(host, path);
  }

  lemma AliasChars()
    ensures '.' in DOCKER_HUB_ALIAS
    ensures forall j :: 0 <= j < |DOCKER_HUB_ALIAS| ==>
              DOCKER_HUB_ALIAS[j] != '@' && DOCKER_HUB_ALIAS[j] != ':' && DOCKER_HUB_ALIAS[j] != '/'
  {
    assert DOCKER_HUB_ALIAS[6] == '.';
  }

  lemma QualifiedExactly(registry: string, path: string)
    requires CanonicalPath(path)
    ensures Qualify(registry, path) ==
            Ok(if registry == DOCKER_HUB_REGISTRY && '/' !in path then DOCKER_HUB_LIBRARY + "/" + path else path)
  {
    PathExactly(path);
  }

  lemma AliasIsHub(path: string)
    requires CanonicalPath(path)
    ensures Parse(DOCKER_HUB_ALIAS + "/" + path) == Ok(HubReference(path))
  {
    CanonicalPathChars(path);
    AliasChars();
    HostedName(DOCKER_HUB_ALIAS, path);
    QualifiedExactly(DOCKER_HUB_REGISTRY, path);
  }

  /** Prefixing the rest of a path with `library/` cannot give the path back when it began
      with a host. */
  lemma LibraryIsNoHost(head: string, rest: string)
    requires IsHost(head) && '/' !in head
    ensures DOCKER_HUB_LIBRARY + "/" + rest != head + "/" + rest
  {
    if |head| == |DOCKER_HUB_LIBRARY| {
      assert (DOCKER_HUB_LIBRARY + "/" + rest)[..7] == DOCKER_HUB_LIBRARY;
      assert (head + "/" + rest)[..7] == head;
    }
  }

  lemma QualifiedRestDiffers(registry: string, path: string, i: nat)
    requires i < |path| && path[i] == '/' && IsHost(path[..i]) && '/' !in path[..i]
    ensures Qualify(registry, path[i + 1..]) != Ok(path)
  {
    LibraryIsNoHost(path[..i], path[i + 1..]);
    assert path == path[..i] + "/" + path[i + 1..];
  }

  /** A bare path means the same as the path under `docker.io/` exactly when its first
      component does not read as a host. */
  lemma BareNameIsHubExactly(path: string)
    requires CanonicalPath(path)
    ensures Parse(path) == Parse(DOCKER_HUB_ALIAS + "/" + path) <==>
            '/' !in path || !IsHost(path[..Find(path, '/').value])
  {
    AliasIsHub(path);
    ParsedPath(path);
    QualifiedExactly(DOCKER_HUB_REGISTRY, path);
    var slash := Find(path, '/');
    if slash.Some? && IsHost(path[..slash.value]) {
      QualifiedRestDiffers(SplitRegistry(path).0, path, slash.value);
    }
  }

  lemma ParsedPath(path: string)
    requires CanonicalPath(path)
    ensures Parse(path) == Assemble(SplitRegistry(path).0, SplitRegistry(path).1, Tag(LATEST))
  {
    CanonicalPathChars(path);
    UntaggedName(path);
  }
}
