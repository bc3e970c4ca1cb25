/** Reference names (pkg/name): parsing with defaults, printing, and what parsing a printed
    name gives.  `authority` says which strings are RFC 3986 authorities (section 3.2). */
module Names {
  import opened Common

  const DEFAULT_REGISTRY := "index.docker.io"
  const DEFAULT_REGISTRY_ALIAS := "docker.io"
  const DEFAULT_TAG := "latest"
  const DEFAULT_NAMESPACE := "library"

  datatype Options = Options(strict: bool, insecure: bool, defaultRegistry: string, defaultTag: string)

  const DEFAULTS := Options(false, false, DEFAULT_REGISTRY, DEFAULT_TAG)

  /** Which of the checks rejected a name. */
  datatype BadName = BadElement(what: string) | Unspecified(what: string) | BadAuthority | NotOneAt | NotAReference

  datatype Registry = Registry(insecure: bool, registry: string)
  datatype Repository = Repository(registry: Registry, repository: string)
  datatype Tag = Tag(repository: Repository, tag: string, original: string)
  datatype Digest = Digest(repository: Repository, digest: string, original: string)
  datatype Reference = ByTag(t: Tag) | ByDigest(d: Digest)

  // ---------------------------------------------------------------- strings

  /** Position of the first `c` in `s`, or |s|. */
  function First(s: string, c: char): (i: nat)
    ensures i <= |s| && c !in s[..i] && (i < |s| ==> s[i] == c)
  {
    if s == [] || s[0] == c then 0
    else
      var i := First(s[1..], c) + 1;
      assert s[..i] == [s[0]] + s[1..][..i - 1];
      i
  }

  /** Position of the last `c` in `s`, if any. */
  function Last(s: string, c: char): (i: Option<nat>)
    ensures i.None? <==> c !in s
    ensures i.Some? ==> i.value < |s| && s[i.value] == c && c !in s[i.value + 1..]
  {
    if s == [] then None
    else if s[|s| - 1] == c then Some(|s| - 1)
    else
      assert s == s[..|s| - 1] + [s[|s| - 1]];
      Last(s[..|s| - 1], c)
  }

  predicate IsTagChar(c: char) { (IsRepositoryChar(c) && c != '/') || 'A' <= c <= 'Z' }

  predicate IsRepositoryChar(c: char) {
    'a' <= c <= 'z' || '0' <= c <= '9' || c == '_' || c == '-' || c == '.' || c == '/'
  }

  predicate IsDigestChar(c: char) { '0' <= c <= '9' || 'a' <= c <= 'f' || c == 's' || c == 'h' || c == ':' }

  function CheckElement(what: string, element: string, allowed: char -> bool, min: nat, max: nat): Result<(), BadName> {
    if |element| < min || max < |element| || exists c :: c in element && !allowed(c)
    then Failure(BadElement(what))
    else Success(())
  }

  // ---------------------------------------------------------------- registry and repository

  function NewRegistry(authority: string -> bool, name: string, opt: Options): Result<Registry, BadName> {
    if opt.strict && name == "" then Failure(Unspecified("registry"))
    else if !authority(name) then Failure(BadAuthority)
    else
      var named := if name == "" then opt.defaultRegistry else name;
      Success(Registry(opt.insecure, if named == DEFAULT_REGISTRY_ALIAS then DEFAULT_REGISTRY else named))
  }

  predicate HasImplicitNamespace(repo: string, reg: Registry) {
    '/' !in repo && reg.registry == DEFAULT_REGISTRY
  }

  function RepositoryStr(r: Repository): string {
    if HasImplicitNamespace(r.repository, r.registry) then DEFAULT_NAMESPACE + "/" + r.repository
    else r.repository
  }

  function RepositoryName(r: Repository): string {
    if r.registry.registry != "" then r.registry.registry + "/" + RepositoryStr(r) else RepositoryStr(r)
  }

  /** The first part names a registry iff something follows it and it has a '.' or a ':'. */
  function SplitRegistry(name: string): (string, string) {
    var i := First(name, '/');
    if i < |name| && ('.' in name[..i] || ':' in name[..i]) then (name[..i], name[i + 1..])
    else ("", name)
  }

  function NewRepository(authority: string -> bool, name: string, opt: Options): Result<Repository, BadName> {
    if name == "" then Failure(Unspecified("repository"))
    else
      var (registry, repo) := SplitRegistry(name);
      var _ :- CheckElement("repository", repo, IsRepositoryChar, 2, 255);
      var reg :- NewRegistry(authority, registry, opt);
      if HasImplicitNamespace(repo, reg) && opt.strict then Failure(Unspecified("namespace"))
      else Success(Repository(reg, repo))
  }

  // ---------------------------------------------------------------- tags and digests

  /** The part after the last ':' is a tag unless it has a '/', as in a host with a port. */
  function SplitTag(name: string): (string, string) {
    match Last(name, ':')
    case None => (name, "")
    case Some(i) => if '/' in name[i + 1..] then (name, "") else (name[..i], name[i + 1..])
  }

  function NewTag(authority: string -> bool, name: string, opt: Options): Result<Tag, BadName> {
    var (base, tag) := SplitTag(name);
    var _ :- if tag != "" || opt.strict then CheckElement("tag", tag, IsTagChar, 1, 128) else Success(());
    var repo :- NewRepository(authority, base, opt);
    Success(Tag(repo, if tag == "" then opt.defaultTag else tag, name))
  }

  function TagName(t: Tag): string { RepositoryName(t.repository) + ":" + t.tag }

  function NewDigest(authority: string -> bool, name: string, opt: Options): Result<Digest, BadName> {
    var i := First(name, '@');
    if i == |name| || '@' in name[i + 1..] then Failure(NotOneAt)
    else
      var base, digest := name[..i], name[i + 1..];
      var _ :- CheckElement("digest", digest, IsDigestChar, 7 + 64, 7 + 64);
      var tag := NewTag(authority, base, opt);
      var repo :- NewRepository(authority, if tag.Success? then RepositoryName(tag.value.repository) else base, opt);
      Success(Digest(repo, digest, name))
  }

  function DigestName(d: Digest): string { RepositoryName(d.repository) + "@" + d.digest }

  function ParseReference(authority: string -> bool, s: string, opt: Options): Result<Reference, BadName> {
    match NewTag(authority, s, opt)
    case Success(t) => Success(ByTag(t))
    case Failure(_) =>
      match NewDigest(authority, s, opt)
      case Success(d) => Success(ByDigest(d))
      case Failure(_) => Failure(NotAReference)
  }

  function ReferenceName(r: Reference): string {
    match r
    case ByTag(t) => TagName(t)
    case ByDigest(d) => DigestName(d)
  }

  // ---------------------------------------------------------------- what parsing accepts

  predicate GoodTag(tag: string) { 1 <= |tag| <= 128 && forall c :: c in tag ==> IsTagChar(c) }

  predicate GoodRepository(repo: string) { 2 <= |repo| <= 255 && forall c :: c in repo ==> IsRepositoryChar(c) }

  predicate GoodDigest(digest: string) { |digest| == 71 && forall c :: c in digest ==> IsDigestChar(c) }

  /** The characters that may occur, by their codes in ASCII. */
  lemma AllowedCharacters(c: char)
    ensures var n := c as int;
            var lower, upper, digit := 97 <= n <= 122, 65 <= n <= 90, 48 <= n <= 57;
            // '-' is 45, '.' is 46, '/' is 47, ':' is 58, '_' is 95, 'h' is 104, 's' is 115
            && (IsRepositoryChar(c) <==> lower || digit || n in {45, 46, 47, 95})
            && (IsTagChar(c) <==> lower || upper || digit || n in {45, 46, 95})
            && (IsDigestChar(c) <==> digit || 97 <= n <= 102 || n in {58, 104, 115})
  {
  }

  /** NewRegistry: an empty name stands for the default registry, and docker.io for index.docker.io. */
  lemma RegistryAccepted(authority: string -> bool, name: string, opt: Options)
    ensures var r := NewRegistry(authority, name, opt);
            && (r.Success? <==> authority(name) && (opt.strict ==> name != ""))
            && (r.Success? ==>
                  && r.value.insecure == opt.insecure
                  && (name == "" && opt.defaultRegistry != "docker.io" ==> r.value.registry == opt.defaultRegistry)
                  && (name == "docker.io" || (name == "" && opt.defaultRegistry == "docker.io") ==> r.value.registry == "index.docker.io")
                  && (name != "" && name != "docker.io" ==> r.value.registry == name))
  {
  }

  /** NewRepository read backwards. */
  lemma RepositoryAccepted(authority: string -> bool, name: string, opt: Options)
    ensures var (registry, repo) := SplitRegistry(name);
            NewRepository(authority, name, opt).Success? <==>
              && name != "" && GoodRepository(repo) && (opt.strict ==> registry != "") && authority(registry)
              && !(opt.strict && HasImplicitNamespace(repo, NewRegistry(authority, registry, opt).value))
    ensures NewRepository(authority, name, opt).Success? ==>
              var (registry, repo) := SplitRegistry(name);
              NewRepository(authority, name, opt).value == Repository(NewRegistry(authority, registry, opt).value, repo)
  {
    hide SplitRegistry, IsRepositoryChar, First;
  }

  /** Why a repository is rejected; the checks come in this order. */
  lemma RepositoryRejected(authority: string -> bool, name: string, opt: Options)
    requires NewRepository(authority, name, opt).Failure?
    ensures var (registry, repo) := SplitRegistry(name);
            NewRepository(authority, name, opt).error ==
              if name == "" then Unspecified("repository")
              else if !GoodRepository(repo) then BadElement("repository")
              else if opt.strict && registry == "" then Unspecified("registry")
              else if !authority(registry) then BadAuthority
              else Unspecified("namespace")
  {
    hide SplitRegistry, IsRepositoryChar, First;
  }

  /** Why a tag or a digest is. */
  lemma TagRejected(authority: string -> bool, s: string, opt: Options)
    requires NewTag(authority, s, opt).Failure?
    ensures var (base, tag) := SplitTag(s);
            NewTag(authority, s, opt).error ==
              if !GoodTag(tag) && (tag != "" || opt.strict) then BadElement("tag")
              else NewRepository(authority, base, opt).error
  {
    hide SplitTag, NewRepository, IsTagChar;
  }

  lemma DigestRejected(authority: string -> bool, s: string, opt: Options)
    requires NewDigest(authority, s, opt).Failure?
    ensures var i := First(s, '@');
            NewDigest(authority, s, opt).error ==
              if i == |s| || '@' in s[i + 1..] then NotOneAt
              else if !GoodDigest(s[i + 1..]) then BadElement("digest")
              else NewRepository(authority, DigestBase(authority, s[..i], opt), opt).error
  {
    hide First, NewTag, NewRepository, IsDigestChar, RepositoryName;
    var i := First(s, '@');
    if i < |s| {
      assert CheckElement("digest", s[i + 1..], IsDigestChar, 71, 71).Success? <==> GoodDigest(s[i + 1..]);
      hide CheckElement, GoodDigest;
    }
  }

  /** The registry part: empty, or free of '/', with a '.' or a ':', and followed by '/'. */
  lemma SplitRegistryParts(name: string)
    ensures var (registry, repo) := SplitRegistry(name);
            if registry == "" then repo == name
            else name == registry + "/" + repo && '/' !in registry && ('.' in registry || ':' in registry)
  {
    hide First;
  }

  lemma FirstAt(s: string, c: char, i: nat)
    requires i < |s| && s[i] == c && c !in s[..i]
    ensures First(s, c) == i
  {
    hide First;
    var k := First(s, c);
  }

  lemma LastAt(s: string, c: char, i: nat)
    requires i < |s| && s[i] == c && c !in s[i + 1..]
    ensures Last(s, c) == Some(i)
  {
    hide Last;
    assert c in s;
    var k := Last(s, c).value;
  }

  lemma JoinedSplits(registry: string, repo: string)
    requires '/' !in registry && ('.' in registry || ':' in registry)
    ensures SplitRegistry(registry + "/" + repo) == (registry, repo)
  {
    var name := registry + "/" + repo;
    assert name[..|registry|] == registry && name[|registry| + 1..] == repo;
    FirstAt(name, '/', |registry|);
  }

  lemma JoinedSplitsTag(base: string, tag: string)
    requires ':' !in tag && '/' !in tag
    ensures SplitTag(base + ":" + tag) == (base, tag)
  {
    var name := base + ":" + tag;
    assert name[..|base|] == base && name[|base| + 1..] == tag;
    LastAt(name, ':', |base|);
  }

  lemma SplitTagParts(name: string)
    ensures var (base, tag) := SplitTag(name);
            (base == name && tag == "") || (name == base + ":" + tag && '/' !in tag)
  {
    hide Last;
  }

  // ---------------------------------------------------------------- the two grammars

  /** In an accepted tag an '@' can only stand in the registry, so a '/' follows it. */
  lemma AtInTagIsInRegistry(authority: string -> bool, s: string, opt: Options, k: nat)
    requires NewTag(authority, s, opt).Success? && k < |s| && s[k] == '@'
    ensures exists j :: k < j < |s| && s[j] == '/'
  {
    var (base, tag) := SplitTag(s);
    var (registry, repo) := SplitRegistry(base);
    SplitTagParts(s);
    SplitRegistryParts(base);
    RepositoryAccepted(authority, base, opt);
    TagAccepted(authority, s, opt);
    hide NewTag, SplitTag, SplitRegistry;
    assert '@' !in repo && '@' !in tag;
    if k < |base| {
      if registry != "" {
        assert base[|registry|] == '/' && s[|registry|] == '/';
      }
    }
  }

  lemma TagAccepted(authority: string -> bool, s: string, opt: Options)
    ensures var (base, tag) := SplitTag(s);
            NewTag(authority, s, opt).Success? <==>
              (GoodTag(tag) || (tag == "" && !opt.strict)) && NewRepository(authority, base, opt).Success?
    ensures NewTag(authority, s, opt).Success? ==>
              var (base, tag) := SplitTag(s);
              NewTag(authority, s, opt).value ==
              Tag(NewRepository(authority, base, opt).value, if tag == "" then opt.defaultTag else tag, s)
  {
    hide SplitTag, NewRepository, IsTagChar;
  }

  lemma DigestHasNoSlash(digest: string)
    requires GoodDigest(digest)
    ensures '/' !in digest && '@' !in digest
  {
  }

  /** NewDigest read backwards. */
  lemma DigestParts(authority: string -> bool, s: string, opt: Options)
    ensures var i := First(s, '@');
            NewDigest(authority, s, opt).Success? <==>
              && i < |s| && '@' !in s[i + 1..] && GoodDigest(s[i + 1..])
              && NewRepository(authority, DigestBase(authority, s[..i], opt), opt).Success?
    ensures NewDigest(authority, s, opt).Success? ==>
              var i := First(s, '@');
              NewDigest(authority, s, opt).value ==
              Digest(NewRepository(authority, DigestBase(authority, s[..i], opt), opt).value, s[i + 1..], s)
  {
    hide First, NewTag, NewRepository, IsDigestChar;
  }

  /** What NewDigest takes for the repository: a tag, if any, is dropped. */
  function DigestBase(authority: string -> bool, base: string, opt: Options): string {
    var tag := NewTag(authority, base, opt);
    if tag.Success? then RepositoryName(tag.value.repository) else base
  }

  lemma DigestAccepted(authority: string -> bool, s: string, opt: Options)
    ensures NewDigest(authority, s, opt).Success? ==>
              var i := First(s, '@');
              && i < |s| && '@' !in s[i + 1..] && '/' !in s[i + 1..] && GoodDigest(s[i + 1..])
  {
    DigestParts(authority, s, opt);
    hide First, NewTag, NewRepository, NewDigest, GoodDigest;
    if NewDigest(authority, s, opt).Success? {
      DigestHasNoSlash(s[First(s, '@') + 1..]);
    }
  }

  /** No string is both a tag and a digest. */
  lemma GrammarsAreDisjoint(authority: string -> bool, s: string, opt: Options)
    ensures NewDigest(authority, s, opt).Success? ==> NewTag(authority, s, opt).Failure?
  {
    if NewDigest(authority, s, opt).Success? {
      DigestAccepted(authority, s, opt);
      hide NewTag, NewDigest, GoodDigest;
      var i := First(s, '@');
      forall j | i < j < |s|
        ensures s[j] != '/'
      {
        assert s[i + 1..][j - i - 1] == s[j];
        assert s[j] in s[i + 1..];
      }
      if NewTag(authority, s, opt).Success? {
        AtInTagIsInRegistry(authority, s, opt, i);
      }
    }
  }

  /** Trying the digest first would give the same result. */
  lemma OrderOfAttemptsIsIrrelevant(authority: string -> bool, s: string, opt: Options)
    ensures ParseReference(authority, s, opt) ==
            match NewDigest(authority, s, opt)
            case Success(d) => Success(ByDigest(d))
            case Failure(_) =>
              match NewTag(authority, s, opt)
              case Success(t) => Success(ByTag(t))
              case Failure(_) => Failure(NotAReference)
  {
    hide NewTag, NewDigest;
    GrammarsAreDisjoint(authority, s, opt);
  }

  // ---------------------------------------------------------------- printing is a normal form

  /** What holds of the registry of every repository that was parsed with default options. */
  ghost predicate Printable(authority: string -> bool, r: Repository) {
    var reg := r.registry.registry;
    && '/' !in reg && ('.' in reg || ':' in reg) && authority(reg)
    && reg != DEFAULT_REGISTRY_ALIAS
    && GoodRepository(r.repository)
  }

  lemma ParsedIsPrintable(authority: string -> bool, name: string)
    requires authority(DEFAULT_REGISTRY)
    requires NewRepository(authority, name, DEFAULTS).Success?
    ensures Printable(authority, NewRepository(authority, name, DEFAULTS).value)
  {
    RepositoryAccepted(authority, name, DEFAULTS);
    SplitRegistryParts(name);
    hide NewRepository, SplitRegistry, GoodRepository;
    assert DEFAULT_REGISTRY[5] == '.';
    assert '/' !in DEFAULT_REGISTRY;
    assert |DEFAULT_REGISTRY| != |DEFAULT_REGISTRY_ALIAS|;
  }

  lemma RepositoryStrIsGood(r: Repository)
    requires GoodRepository(r.repository)
    ensures GoodRepository(RepositoryStr(r)) <==> |RepositoryStr(r)| <= 255
    ensures '/' in RepositoryStr(r) || RepositoryStr(r) == r.repository
  {
    if HasImplicitNamespace(r.repository, r.registry) {
      assert RepositoryStr(r)[|DEFAULT_NAMESPACE|] == '/';
      forall c | c in RepositoryStr(r)
        ensures IsRepositoryChar(c)
      {
        assert c in DEFAULT_NAMESPACE || c == '/' || c in r.repository;
      }
    }
  }

  /** The printed repository parses to the same printed repository, unless the implied
      namespace makes it too long. */
  lemma RepositoryNormalForm(authority: string -> bool, r: Repository)
    requires Printable(authority, r)
    ensures var again := NewRepository(authority, RepositoryName(r), DEFAULTS);
            && (again.Success? <==> |RepositoryStr(r)| <= 255)
            && (again.Success? ==> RepositoryName(again.value) == RepositoryName(r)
                                   && RepositoryStr(again.value) == RepositoryStr(r))
  {
    var reg, repo := r.registry.registry, RepositoryStr(r);
    RepositoryStrIsGood(r);
    JoinedSplits(reg, repo);
    RepositoryAccepted(authority, RepositoryName(r), DEFAULTS);
    hide NewRepository, SplitRegistry, GoodRepository;
  }

  lemma TagIsGood(authority: string -> bool, s: string)
    requires NewTag(authority, s, DEFAULTS).Success?
    ensures GoodTag(NewTag(authority, s, DEFAULTS).value.tag)
  {
    TagAccepted(authority, s, DEFAULTS);
    hide NewTag, SplitTag;
    assert GoodTag(DEFAULT_TAG);
  }

  lemma GoodTagHasNoDelimiter(tag: string)
    requires GoodTag(tag)
    ensures ':' !in tag && '/' !in tag && '@' !in tag && tag != ""
  {
  }

  /** Printing a parsed tag and parsing it again gives the same printed name, exactly when the
      repository as printed stays within its length limit. */
  lemma TagNormalForm(authority: string -> bool, s: string)
    requires authority(DEFAULT_REGISTRY)
    requires NewTag(authority, s, DEFAULTS).Success?
    ensures var t := NewTag(authority, s, DEFAULTS).value;
            var again := NewTag(authority, TagName(t), DEFAULTS);
            && (again.Success? <==> |RepositoryStr(t.repository)| <= 255)
            && (again.Success? ==> TagName(again.value) == TagName(t))
  {
    var t := NewTag(authority, s, DEFAULTS).value;
    TagAccepted(authority, s, DEFAULTS);
    TagIsGood(authority, s);
    GoodTagHasNoDelimiter(t.tag);
    ParsedIsPrintable(authority, SplitTag(s).0);
    RepositoryNormalForm(authority, t.repository);
    JoinedSplitsTag(RepositoryName(t.repository), t.tag);
    TagAccepted(authority, TagName(t), DEFAULTS);
    hide NewTag, NewRepository, SplitTag, RepositoryName, RepositoryStr, GoodTag;
  }

  /** A printed repository has no tag of its own: its last ':' can only belong to a port. */
  lemma PrintedHasNoTag(authority: string -> bool, r: Repository)
    requires Printable(authority, r)
    ensures SplitTag(RepositoryName(r)) == (RepositoryName(r), "")
  {
    var reg, repo := r.registry.registry, RepositoryStr(r);
    var name := RepositoryName(r);
    assert name == reg + "/" + repo;
    RepositoryStrHasNoDelimiter(r);
    hide RepositoryStr, RepositoryName;
    if ':' in name {
      var i := Last(name, ':').value;
      assert i < |reg|;
      assert name[i + 1..][|reg| - i - 1] == '/';
    }
  }

  lemma RepositoryStrHasNoDelimiter(r: Repository)
    requires GoodRepository(r.repository)
    ensures ':' !in RepositoryStr(r) && '@' !in RepositoryStr(r)
  {
  }

  /** If the base of a digest is not a tag it is not a repository either. */
  lemma NoTagNoRepository(authority: string -> bool, base: string)
    requires NewTag(authority, base, DEFAULTS).Failure?
    ensures NewRepository(authority, base, DEFAULTS).Failure?
  {
    TagAccepted(authority, base, DEFAULTS);
    SplitTagParts(base);
    SplitRegistryParts(base);
    RepositoryAccepted(authority, base, DEFAULTS);
    var (front, tag) := SplitTag(base);
    var (registry, repo) := SplitRegistry(base);
    hide NewTag, NewRepository, SplitTag, SplitRegistry;
    if front != base {
      assert base[|front|] == ':';
      assert base[|front| + 1..] == tag;
      if registry != "" {
        assert base[|registry|] == '/';
        assert |registry| < |front|;
        assert repo[|front| - |registry| - 1] == ':';
      } else {
        assert repo[|front|] == ':';
      }
      assert ':' in repo;
    }
  }

  lemma NoAtInPrinted(authority: string -> bool, name: string)
    requires authority(DEFAULT_REGISTRY) && '@' !in name
    requires NewRepository(authority, name, DEFAULTS).Success?
    ensures '@' !in RepositoryName(NewRepository(authority, name, DEFAULTS).value)
  {
    var r := NewRepository(authority, name, DEFAULTS).value;
    ParsedIsPrintable(authority, name);
    RepositoryAccepted(authority, name, DEFAULTS);
    SplitRegistryParts(name);
    RepositoryStrHasNoDelimiter(r);
    var (registry, repo) := SplitRegistry(name);
    hide NewRepository, SplitRegistry, RepositoryStr, GoodRepository;
    assert '@' !in DEFAULT_REGISTRY;
    assert registry != "" ==> '@' !in registry;
  }

  /** The repository of an accepted digest prints as something that parses to itself. */
  lemma DigestRepository(authority: string -> bool, base: string)
    requires authority(DEFAULT_REGISTRY) && '@' !in base
    requires NewRepository(authority, DigestBase(authority, base, DEFAULTS), DEFAULTS).Success?
    ensures var r := NewRepository(authority, DigestBase(authority, base, DEFAULTS), DEFAULTS).value;
            var name := RepositoryName(r);
            && '@' !in name && Printable(authority, r) && |RepositoryStr(r)| <= 255
  {
    NoTagFromBase(authority, base);
    var t := NewTag(authority, base, DEFAULTS).value;
    TagAccepted(authority, base, DEFAULTS);
    SplitTagParts(base);
    var front := SplitTag(base).0;
    assert '@' !in front;
    NoAtInPrinted(authority, front);
    ParsedIsPrintable(authority, front);
    RepositoryNormalForm(authority, t.repository);
    NoAtInPrinted(authority, RepositoryName(t.repository));
    ParsedIsPrintable(authority, RepositoryName(t.repository));
    hide NewTag, NewRepository, RepositoryName, RepositoryStr, Printable, SplitTag;
  }

  lemma NoTagFromBase(authority: string -> bool, base: string)
    requires NewRepository(authority, DigestBase(authority, base, DEFAULTS), DEFAULTS).Success?
    ensures NewTag(authority, base, DEFAULTS).Success?
  {
    if NewTag(authority, base, DEFAULTS).Failure? {
      NoTagNoRepository(authority, base);
    }
  }

  /** Printing a parsed digest and parsing it again always gives the same printed name. */
  lemma DigestNormalForm(authority: string -> bool, s: string)
    requires authority(DEFAULT_REGISTRY)
    ensures NewDigest(authority, s, DEFAULTS).Success? ==>
              var d := NewDigest(authority, s, DEFAULTS).value;
              var again := NewDigest(authority, DigestName(d), DEFAULTS);
              again.Success? && DigestName(again.value) == DigestName(d)
  {
    DigestParts(authority, s, DEFAULTS);
    var i := First(s, '@');
    if NewDigest(authority, s, DEFAULTS).Failure? {
      return;
    }
    var d := NewDigest(authority, s, DEFAULTS).value;
    DigestRepository(authority, s[..i]);
    var name := RepositoryName(d.repository);
    PrintedHasNoTag(authority, d.repository);
    TagAccepted(authority, name, DEFAULTS);
    RepositoryNormalForm(authority, d.repository);
    var again := NewRepository(authority, name, DEFAULTS).value;
    ParsedIsPrintable(authority, name);
    RepositoryNormalForm(authority, again);
    DigestParts(authority, DigestName(d), DEFAULTS);
    hide NewDigest, NewTag, NewRepository, RepositoryStr, RepositoryName, Printable, GoodDigest, SplitTag;
    var printed := DigestName(d);
    assert printed[|name|] == '@' && printed[..|name|] == name && printed[|name| + 1..] == d.digest;
    FirstAt(printed, '@', |name|);
  }

  /** A parsed reference prints as a reference with the same printed name; only a tag whose
      implied namespace makes its repository too long does not. */
  lemma ReferenceNormalForm(authority: string -> bool, s: string)
    requires authority(DEFAULT_REGISTRY)
    requires ParseReference(authority, s, DEFAULTS).Success?
    ensures var r := ParseReference(authority, s, DEFAULTS).value;
            var again := ParseReference(authority, ReferenceName(r), DEFAULTS);
            (again.Success? && ReferenceName(again.value) == ReferenceName(r)) <==>
            (r.ByTag? ==> |RepositoryStr(r.t.repository)| <= 255)
  {
    var r := ParseReference(authority, s, DEFAULTS).value;
    if r.ByTag? {
      TagNormalForm(authority, s);
      TagAccepted(authority, s, DEFAULTS);
      TagIsGood(authority, s);
      ParsedIsPrintable(authority, SplitTag(s).0);
      PrintedTagIsNoDigest(authority, r.t);
    } else {
      DigestNormalForm(authority, s);
      GrammarsAreDisjoint(authority, ReferenceName(r), DEFAULTS);
    }
    hide NewTag, NewDigest, TagName, DigestName, RepositoryStr, Printable, GoodTag;
  }

  lemma PrintedTagIsNoDigest(authority: string -> bool, t: Tag)
    requires Printable(authority, t.repository) && GoodTag(t.tag)
    ensures NewDigest(authority, TagName(t), DEFAULTS).Failure?
  {
    var reg, name := t.repository.registry.registry, TagName(t);
    var rest := RepositoryStr(t.repository) + ":" + t.tag;
    RepositoryStrHasNoDelimiter(t.repository);
    GoodTagHasNoDelimiter(t.tag);
    assert name == reg + "/" + rest && '@' !in rest;
    DigestParts(authority, name, DEFAULTS);
    var i := First(name, '@');
    hide NewDigest, RepositoryStr, TagName, GoodDigest;
    if i < |name| {
      assert i < |reg|;
      assert name[i + 1..][|reg| - i - 1] == '/';
      if GoodDigest(name[i + 1..]) {
        DigestHasNoSlash(name[i + 1..]);
      }
    }
  }

  // ---------------------------------------------------------------- what is printed

  /** A registry as it can be written: no '/', and a '.' or a ':'. */
  predicate IsRegistryPart(registry: string) { '/' !in registry && ('.' in registry || ':' in registry) }

  /** A repository as it can be written after `registry`.  Without a registry, its first element
      must not look like one. */
  predicate IsRepositoryPart(registry: Option<string>, repo: string) {
    ':' !in repo && (registry.None? ==> forall i :: 0 <= i < |repo| && repo[i] == '/' ==> !IsRegistryPart(repo[..i]))
  }

  function Written(registry: Option<string>, repo: string): string {
    if registry.Some? then registry.value + "/" + repo else repo
  }

  /** The full name that it stands for. */
  function FullName(registry: Option<string>, repo: string): string {
    if registry.Some? && registry.value != "docker.io" && registry.value != "index.docker.io" then registry.value + "/" + repo
    else if '/' in repo then "index.docker.io/" + repo
    else "index.docker.io/library/" + repo
  }

  lemma WrittenSplits(registry: Option<string>, repo: string)
    requires registry.Some? ==> IsRegistryPart(registry.value)
    requires IsRepositoryPart(registry, repo)
    ensures SplitRegistry(Written(registry, repo)) == (if registry.Some? then registry.value else "", repo)
  {
    match registry
    case Some(r) => JoinedSplits(r, repo);
    case None =>
      var i := First(repo, '/');
      assert i < |repo| ==> repo[i] == '/' && !IsRegistryPart(repo[..i]);
  }

  /** A repository prints under its full name. */
  lemma RepositoryPrinted(authority: string -> bool, registry: Option<string>, repo: string)
    requires registry.Some? ==> IsRegistryPart(registry.value)
    requires IsRepositoryPart(registry, repo)
    ensures var r := NewRepository(authority, Written(registry, repo), DEFAULTS);
            r.Success? ==> RepositoryName(r.value) == FullName(registry, repo)
  {
    hide NewRepository, SplitRegistry, GoodRepository, IsRepositoryPart;
    WrittenSplits(registry, repo);
    RepositoryAccepted(authority, Written(registry, repo), DEFAULTS);
    hide IsRegistryPart, Written;
    assert "index.docker.io" + "/" == "index.docker.io/";
    assert "index.docker.io" + "/" + ("library" + "/" + repo) == "index.docker.io/library/" + repo;
  }

  /** A name and a tag, if there is one, come apart again. */
  lemma TagSplits(registry: Option<string>, repo: string, tag: Option<string>)
    requires registry.Some? ==> IsRegistryPart(registry.value)
    requires IsRepositoryPart(registry, repo)
    requires tag.Some? ==> ':' !in tag.value && '/' !in tag.value
    ensures var name := Written(registry, repo);
            SplitTag(name + if tag.Some? then ":" + tag.value else "") == (name, if tag.Some? then tag.value else "")
  {
    var name := Written(registry, repo);
    match tag
    case Some(t) =>
      JoinedSplitsTag(name, t);
      assert name + ":" + t == name + (":" + t);
    case None =>
      assert name + "" == name;
      if Last(name, ':').Some? {
        var i, r := Last(name, ':').value, registry.value;
        assert name[|r|] == '/' && i < |r|;
        assert name[i + 1..][|r| - i - 1] == '/';
      }
  }

  /** So does a tag, with "latest" for a missing or empty tag. */
  lemma TagPrinted(authority: string -> bool, registry: Option<string>, repo: string, tag: Option<string>)
    requires registry.Some? ==> IsRegistryPart(registry.value)
    requires IsRepositoryPart(registry, repo)
    requires tag.Some? ==> ':' !in tag.value && '/' !in tag.value
    ensures var t := NewTag(authority, Written(registry, repo) + if tag.Some? then ":" + tag.value else "", DEFAULTS);
            t.Success? ==>
              TagName(t.value) == FullName(registry, repo) + ":" + if tag.Some? && tag.value != "" then tag.value else "latest"
  {
    hide NewTag, NewRepository, RepositoryName, FullName, Written, SplitTag;
    RepositoryPrinted(authority, registry, repo);
    TagSplits(registry, repo, tag);
    TagAccepted(authority, Written(registry, repo) + if tag.Some? then ":" + tag.value else "", DEFAULTS);
  }

  /** Every string that is accepted as a tag has such parts. */
  lemma TagHasParts(authority: string -> bool, s: string) returns (registry: Option<string>, repo: string, tag: Option<string>)
    requires NewTag(authority, s, DEFAULTS).Success?
    ensures registry.Some? ==> IsRegistryPart(registry.value)
    ensures IsRepositoryPart(registry, repo)
    ensures tag.Some? ==> ':' !in tag.value && '/' !in tag.value
    ensures s == Written(registry, repo) + if tag.Some? then ":" + tag.value else ""
  {
    hide NewTag, NewRepository, SplitTag, SplitRegistry, IsRegistryPart, GoodRepository;
    var (base, t) := SplitTag(s);
    var (r, path) := SplitRegistry(base);
    TagAccepted(authority, s, DEFAULTS);
    SplitTagParts(s);
    RepositoryAccepted(authority, base, DEFAULTS);
    RepositoryStandsAlone(base);
    registry, repo := if r == "" then None else Some(r), path;
    tag := if base == s then None else Some(t);
    if t != "" {
      GoodTagHasNoDelimiter(t);
    }
    assert r != "" ==> base == r + "/" + path;
  }

  /** What SplitRegistry leaves as the repository. */
  lemma RepositoryStandsAlone(name: string)
    ensures var (registry, repo) := SplitRegistry(name);
      && (registry != "" ==> IsRegistryPart(registry) && name == registry + "/" + repo)
      && (registry == "" ==> repo == name)
      && (GoodRepository(repo) ==> IsRepositoryPart(if registry == "" then None else Some(registry), repo))
  {
    SplitRegistryParts(name);
    var (registry, repo) := SplitRegistry(name);
    if registry == "" {
      var k := First(repo, '/');
      forall i | 0 <= i < |repo| && repo[i] == '/'
        ensures !IsRegistryPart(repo[..i])
      {
        assert k <= i;
        if k < i {
          assert repo[..i][k] == '/';
        }
      }
    }
  }

  /** So does a digest; a tag before it is dropped. */
  lemma DigestPrinted(authority: string -> bool, registry: Option<string>, repo: string, tag: Option<string>, digest: string)
    requires authority(DEFAULT_REGISTRY)
    requires registry.Some? ==> IsRegistryPart(registry.value)
    requires IsRepositoryPart(registry, repo)
    requires tag.Some? ==> ':' !in tag.value && '/' !in tag.value
    ensures var base := Written(registry, repo) + if tag.Some? then ":" + tag.value else "";
            var d := NewDigest(authority, base + "@" + digest, DEFAULTS);
            '@' !in base && d.Success? ==> DigestName(d.value) == FullName(registry, repo) + "@" + digest
  {
    hide NewDigest, NewTag, NewRepository, RepositoryName, RepositoryStr, Printable, SplitTag, First, FullName, Written,
      IsRepositoryPart;
    var base := Written(registry, repo) + if tag.Some? then ":" + tag.value else "";
    var s := base + "@" + digest;
    if '@' in base || NewDigest(authority, s, DEFAULTS).Failure? {
      return;
    }
    assert s[|base|] == '@' && s[..|base|] == base && s[|base| + 1..] == digest;
    FirstAt(s, '@', |base|);
    DigestParts(authority, s, DEFAULTS);
    NoTagFromBase(authority, base);
    TagAccepted(authority, base, DEFAULTS);
    TagSplits(registry, repo, tag);
    RepositoryPrinted(authority, registry, repo);
    ParsedIsPrintable(authority, Written(registry, repo));
    RepositoryNormalForm(authority, NewTag(authority, base, DEFAULTS).value.repository);
  }

  // ---------------------------------------------------------------- strict validation

  /** Under strict validation a tag prints as it was written, unless its registry was written
      as the alias docker.io. */
  lemma StrictTagPrintsItself(authority: string -> bool, s: string, opt: Options)
    requires opt.strict
    ensures NewTag(authority, s, opt).Success? ==>
              (TagName(NewTag(authority, s, opt).value) == s <==>
               SplitRegistry(SplitTag(s).0).0 != DEFAULT_REGISTRY_ALIAS)
  {
    if NewTag(authority, s, opt).Failure? {
      return;
    }
    var t := NewTag(authority, s, opt).value;
    var (base, tag) := SplitTag(s);
    var (registry, repo) := SplitRegistry(base);
    TagAccepted(authority, s, opt);
    SplitTagParts(s);
    RepositoryAccepted(authority, base, opt);
    SplitRegistryParts(base);
    hide NewTag, NewRepository, SplitTag, SplitRegistry, GoodTag, GoodRepository;
    assert t.tag == tag && t.repository.repository == repo && RepositoryStr(t.repository) == repo;
    assert s == registry + "/" + repo + ":" + tag;
    if registry == DEFAULT_REGISTRY_ALIAS {
      assert TagName(t)[0] == 'i' && s[0] == 'd';
    }
  }

  // ---------------------------------------------------------------- a name that is too long once printed

  /** 250 letters are a repository, "library/" and 250 letters are not. */
  lemma LongNameDoesNotParseAgain(authority: string -> bool)
    requires authority("") && authority(DEFAULT_REGISTRY)
    ensures var s := seq(250, _ => 'a');
            && NewTag(authority, s, DEFAULTS).Success?
            && NewTag(authority, TagName(NewTag(authority, s, DEFAULTS).value), DEFAULTS).Failure?
  {
    var s := seq(250, _ => 'a');
    assert ':' !in s && '/' !in s;
    assert SplitTag(s) == (s, "") && SplitRegistry(s) == ("", s);
    TagAccepted(authority, s, DEFAULTS);
    RepositoryAccepted(authority, s, DEFAULTS);
    TagNormalForm(authority, s);
  }
}
