// The policy index (internal/policy/snapshot.go, authorize.go) and the configuration checks it relies on
// (internal/config/validate.go).
module PolicyIndex {
  import opened Text
  import opened PushPolicy

  type Capability = string

  const GITHUB := "github"
  const GITEA := "gitea"

  datatype Provider = Provider(kind: string, gitHost: Bytes, sshUser: Bytes, sshPort: nat)

  datatype Repository = Repository(provider: string, owner: Bytes, name: Bytes, git: Policy)

  datatype Grant = Grant(repository: string, capabilities: seq<Capability>)

  datatype Config = Config(
    providers: map<string, Provider>, repositories: map<string, Repository>, principals: map<string, seq<Grant>>)

  datatype Snapshot = Snapshot(
    providers: map<string, Provider>, repositories: map<string, Repository>,
    grants: map<string, map<string, set<Capability>>>)

  // ----- reading Go maps -----

  function RepositoryAt(repositories: map<string, Repository>, id: string): Repository {
    if id in repositories then repositories[id] else Repository("", "", "", Policy([], false, 0))
  }

  function ProviderAt(providers: map<string, Provider>, id: string): Provider {
    if id in providers then providers[id] else Provider("", "", "", 0)
  }

  // ----- case folding -----

  predicate Ascii(s: Bytes) {
    forall i :: 0 <= i < |s| ==> s[i] < 0x80 as char
  }

  /** Equal up to ASCII case, and ASCII: a string with any other byte is not even equal to itself. */
  predicate EqualFold(a: Bytes, b: Bytes) {
    Ascii(a) && Ascii(b) && ToLower(a) == ToLower(b)
  }

  method AsciiEqualFold(left: Bytes, right: Bytes) returns (equal: bool)
    ensures equal <==> EqualFold(left, right)
  {
    if |left| != |right| {
      return false;
    }
    var i := 0;
    while i < |left|
      invariant 0 <= i <= |left|
      invariant forall j :: 0 <= j < i ==>
          left[j] < 0x80 as char && right[j] < 0x80 as char && LowerChar(left[j]) == LowerChar(right[j])
    {
      var l, r := left[i], right[i];
      if l >= 0x80 as char || r >= 0x80 as char {
        return false;
      }
      if 'A' <= l <= 'Z' {
        l := l + ('a' - 'A');
      }
      if 'A' <= r <= 'Z' {
        r := r + ('a' - 'A');
      }
      if l != r {
        assert ToLower(left)[i] != ToLower(right)[i];
        return false;
      }
      i := i + 1;
    }
    return true;
  }

  // ----- selectors -----

  datatype Selector = Selector(kind: string, host: Bytes, sshPort: nat, owner: Bytes, name: Bytes)

  datatype GitSelector = GitSelector(sshUser: Bytes, host: Bytes, sshPort: nat, owner: Bytes, name: Bytes)

  predicate SameSlug(kind: string, owner: Bytes, name: Bytes, r: Repository) {
    if kind == GITEA then EqualFold(owner, r.owner) && EqualFold(name, r.name)
    else owner == r.owner && name == r.name
  }

  predicate Matches(s: Selector, r: Repository, p: Provider) {
    && (s.kind == "" || s.kind == p.kind)
    && (s.host == "" || s.host == p.gitHost)
    && (s.sshPort == 0 || s.sshPort == p.sshPort)
    && (s.owner == "" || (if p.kind == GITEA then EqualFold(s.owner, r.owner) else s.owner == r.owner))
    && (s.name == "" || (if p.kind == GITEA then EqualFold(s.name, r.name) else s.name == r.name))
  }

  predicate MatchesGit(s: GitSelector, r: Repository, p: Provider) {
    && (if s.sshUser == "" then p.kind == GITHUB && p.sshUser == "git" else s.sshUser == p.sshUser)
    && EqualFold(s.host, p.gitHost)
    && (s.sshPort == 0 || s.sshPort == p.sshPort)
    && SameSlug(p.kind, s.owner, s.name, r)
  }

  // ----- building the index -----

  predicate ProvidersDefined(cfg: Config) {
    forall id :: id in cfg.repositories ==> cfg.repositories[id].provider in cfg.providers
  }

  predicate RepositoriesDefined(cfg: Config) {
    forall p :: p in cfg.principals ==> GrantsDefined(cfg.principals[p], cfg.repositories)
  }

  predicate GrantsDefined(grants: seq<Grant>, repositories: map<string, Repository>) {
    forall i :: 0 <= i < |grants| ==> grants[i].repository in repositories
  }

  function CapabilitySet(capabilities: seq<Capability>): set<Capability> {
    set c | c in capabilities
  }

  /** The index of one principal's grants, where a later grant of the same repository replaces an earlier one. */
  function GrantIndex(grants: seq<Grant>): map<string, set<Capability>> {
    if grants == [] then map[]
    else
      var last := grants[|grants| - 1];
      GrantIndex(grants[..|grants| - 1])[last.repository := CapabilitySet(last.capabilities)]
  }

  function SnapshotOf(cfg: Config): Snapshot {
    Snapshot(cfg.providers, cfg.repositories, map p | p in cfg.principals :: GrantIndex(cfg.principals[p]))
  }

  method IndexGrants(grants: seq<Grant>, repositories: map<string, Repository>)
    returns (index: Option<map<string, set<Capability>>>)
    ensures index == if GrantsDefined(grants, repositories) then Some(GrantIndex(grants)) else None
  {
    var found: map<string, set<Capability>> := map[];
    var i := 0;
    while i < |grants|
      invariant 0 <= i <= |grants|
      invariant GrantsDefined(grants[..i], repositories) && found == GrantIndex(grants[..i])
    {
      if grants[i].repository !in repositories {
        return None;
      }
      var capabilities: set<Capability> := {};
      var k := 0;
      while k < |grants[i].capabilities|
        invariant 0 <= k <= |grants[i].capabilities|
        invariant capabilities == CapabilitySet(grants[i].capabilities[..k])
      {
        capabilities := capabilities + {grants[i].capabilities[k]};
        k := k + 1;
      }
      assert grants[i].capabilities[..k] == grants[i].capabilities;
      assert grants[..i + 1][..i] == grants[..i];
      found := found[grants[i].repository := capabilities];
      i := i + 1;
    }
    assert grants[..i] == grants;
    return Some(found);
  }

  method IndexRepositories(cfg: Config) returns (index: Option<map<string, Repository>>)
    ensures index == if ProvidersDefined(cfg) then Some(cfg.repositories) else None
  {
    var found: map<string, Repository> := map[];
    var todo := cfg.repositories.Keys;
    while todo != {}
      invariant todo <= cfg.repositories.Keys && found.Keys == cfg.repositories.Keys - todo
      invariant forall id :: id in found ==> found[id] == cfg.repositories[id] && found[id].provider in cfg.providers
      decreases |todo|
    {
      var id :| id in todo;
      if cfg.repositories[id].provider !in cfg.providers {
        return None;
      }
      found := found[id := cfg.repositories[id]];
      todo := todo - {id};
    }
    assert found == cfg.repositories;
    return Some(found);
  }

  method IndexPrincipals(cfg: Config) returns (index: Option<map<string, map<string, set<Capability>>>>)
    ensures index == if RepositoriesDefined(cfg) then Some(SnapshotOf(cfg).grants) else None
  {
    var found: map<string, map<string, set<Capability>>> := map[];
    var todo := cfg.principals.Keys;
    while todo != {}
      invariant todo <= cfg.principals.Keys && found.Keys == cfg.principals.Keys - todo
      invariant forall p :: p in found ==>
          found[p] == GrantIndex(cfg.principals[p]) && GrantsDefined(cfg.principals[p], cfg.repositories)
      decreases |todo|
    {
      var p :| p in todo;
      var grants := IndexGrants(cfg.principals[p], cfg.repositories);
      if grants.None? {
        return None;
      }
      found := found[p := grants.value];
      todo := todo - {p};
    }
    assert found == SnapshotOf(cfg).grants;
    return Some(found);
  }

  /** Whatever order its maps are walked in, New builds the index of a configuration whose references are all defined,
      and refuses every other. */
  method New(cfg: Config) returns (snapshot: Option<Snapshot>)
    ensures snapshot == if ProvidersDefined(cfg) && RepositoriesDefined(cfg) then Some(SnapshotOf(cfg)) else None
  {
    var repositories := IndexRepositories(cfg);
    if repositories.None? {
      return None;
    }
    var grants := IndexPrincipals(cfg);
    if grants.None? {
      return None;
    }
    return Some(Snapshot(cfg.providers, repositories.value, grants.value));
  }

  // ----- resolving -----

  datatype Resolved = Resolved(id: string, repository: Repository, provider: Provider)

  predicate Hit(s: Snapshot, matches: (Repository, Provider) -> bool, id: string) {
    var r := RepositoryAt(s.repositories, id);
    matches(r, ProviderAt(s.providers, r.provider))
  }

  /** The one granted repository that matches. */
  predicate Only(s: Snapshot, principal: string, matches: (Repository, Provider) -> bool, id: string) {
    principal in s.grants && id in s.grants[principal] && Hit(s, matches, id) &&
    forall other :: other in s.grants[principal] && Hit(s, matches, other) ==> other == id
  }

  function ResolvedAt(s: Snapshot, id: string): Resolved {
    var r := RepositoryAt(s.repositories, id);
    Resolved(id, r, ProviderAt(s.providers, r.provider))
  }

  /** The answer depends on the snapshot alone, not on the order in which the grants are visited. */
  method Resolve(s: Snapshot, principal: string, capability: Capability, matches: (Repository, Provider) -> bool)
    returns (r: Option<Resolved>)
    ensures r.Some? ==>
        Only(s, principal, matches, r.value.id) && capability in s.grants[principal][r.value.id] &&
            r.value == ResolvedAt(s, r.value.id)
    ensures r.None? ==> forall id :: Only(s, principal, matches, id) ==> capability !in s.grants[principal][id]
  {
    if principal !in s.grants {
      return None;
    }
    var grants := s.grants[principal];
    var matched: Option<Resolved> := None;
    var todo := grants.Keys;
    while todo != {}
      invariant todo <= grants.Keys
      invariant matched.None? ==> forall id :: id in grants && id !in todo ==> !Hit(s, matches, id)
      invariant matched.Some? ==>
          matched.value == ResolvedAt(s, matched.value.id) && matched.value.id in grants &&
              matched.value.id !in todo && Hit(s, matches, matched.value.id)
      invariant matched.Some? ==> forall id :: id in grants && id !in todo && Hit(s, matches, id) ==>
          id == matched.value.id
      decreases |todo|
    {
      var id :| id in todo;
      todo := todo - {id};
      if Hit(s, matches, id) {
        if matched.Some? {
          assert !Only(s, principal, matches, id) && !Only(s, principal, matches, matched.value.id);
          return None;
        }
        matched := Some(ResolvedAt(s, id));
      }
    }
    if matched.None? || capability !in grants[matched.value.id] {
      return None;
    }
    return matched;
  }

  // ----- the configured grants -----

  const CAPABILITIES := {
    "repository:read", "issues:read", "issues:write", "pull_requests:read", "pull_requests:write",
    "actions:read", "statuses:read", "git:read", "git:write"}

  predicate CapabilitiesOk(capabilities: seq<Capability>) {
    && capabilities != []
    && (forall i :: 0 <= i < |capabilities| ==> capabilities[i] in CAPABILITIES)
    && (forall i, j :: 0 <= i < j < |capabilities| ==> capabilities[i] != capabilities[j])
    && ("git:write" in capabilities ==> "git:read" in capabilities)
  }

  method ValidateCapabilities(capabilities: seq<Capability>) returns (ok: bool)
    ensures ok <==> CapabilitiesOk(capabilities)
  {
    if capabilities == [] {
      return false;
    }
    var seen: set<Capability> := {};
    var i := 0;
    while i < |capabilities|
      invariant 0 <= i <= |capabilities|
      invariant forall c :: c in seen <==> c in capabilities[..i]
      invariant forall j :: 0 <= j < i ==> capabilities[j] in CAPABILITIES
      invariant forall j, k :: 0 <= j < k < i ==> capabilities[j] != capabilities[k]
    {
      if capabilities[i] !in CAPABILITIES || capabilities[i] in seen {
        return false;
      }
      seen := seen + {capabilities[i]};
      i := i + 1;
    }
    return "git:write" in seen ==> "git:read" in seen;
  }

  /** Each grant names a configured repository that no earlier grant names, and lists proper capabilities. */
  predicate GrantsOk(grants: seq<Grant>, repositories: map<string, Repository>) {
    && GrantsDefined(grants, repositories)
    && (forall i, j :: 0 <= i < j < |grants| ==> grants[i].repository != grants[j].repository)
    && (forall i :: 0 <= i < |grants| ==> CapabilitiesOk(grants[i].capabilities))
  }

  method ValidateGrants(grants: seq<Grant>, repositories: map<string, Repository>) returns (ok: bool)
    ensures ok <==> GrantsOk(grants, repositories)
  {
    hide CapabilitiesOk;
    var granted: set<string> := {};
    var i := 0;
    while i < |grants|
      invariant 0 <= i <= |grants|
      invariant forall id :: id in granted <==> exists j :: 0 <= j < i && grants[j].repository == id
      invariant forall j :: 0 <= j < i ==>
          grants[j].repository in repositories && CapabilitiesOk(grants[j].capabilities)
      invariant forall j, k :: 0 <= j < k < i ==> grants[j].repository != grants[k].repository
    {
      if grants[i].repository !in repositories || grants[i].repository in granted {
        return false;
      }
      granted := granted + {grants[i].repository};
      var fine := ValidateCapabilities(grants[i].capabilities);
      if !fine {
        return false;
      }
      i := i + 1;
    }
    return true;
  }

  lemma {:induction false} IndexHolds(grants: seq<Grant>, id: string)
    ensures id in GrantIndex(grants) <==> exists i :: 0 <= i < |grants| && grants[i].repository == id
  {
    if grants != [] {
      var last := |grants| - 1;
      IndexHolds(grants[..last], id);
      if i :| 0 <= i < |grants| && grants[i].repository == id {
        assert i == last || grants[..last][i].repository == id;
      }
    }
  }

  /** In a grant list that repeats no repository, the index gives each one its own configured capabilities. */
  lemma {:induction false} IndexIsGrant(grants: seq<Grant>, i: nat)
    requires i < |grants|
    requires forall j, k :: 0 <= j < k < |grants| ==> grants[j].repository != grants[k].repository
    ensures grants[i].repository in GrantIndex(grants)
    ensures GrantIndex(grants)[grants[i].repository] == CapabilitySet(grants[i].capabilities)
  {
    var last := |grants| - 1;
    if i < last {
      IndexIsGrant(grants[..last], i);
    }
  }

  /** Grant i of the principal, read straight from the configuration, matches. */
  predicate GrantMatches(cfg: Config, principal: string, matches: (Repository, Provider) -> bool, i: nat)
    requires principal in cfg.principals && i < |cfg.principals[principal]|
  {
    var r := RepositoryAt(cfg.repositories, cfg.principals[principal][i].repository);
    matches(r, ProviderAt(cfg.providers, r.provider))
  }

  /** Grant i is the only one of the principal's configured grants that matches, and it lists the capability. */
  predicate Authorizes(cfg: Config, principal: string, capability: Capability, matches: (Repository, Provider) -> bool,
      i: nat) {
    principal in cfg.principals && i < |cfg.principals[principal]| &&
    GrantMatches(cfg, principal, matches, i) &&
    (forall j: nat :: j < |cfg.principals[principal]| && GrantMatches(cfg, principal, matches, j) ==> j == i) &&
    capability in cfg.principals[principal][i].capabilities
  }

  /** The index refines direct search: for validated grants, a repository is resolved exactly when a direct search of
      the configured grants finds one matching grant and it lists the capability. */
  lemma IndexRefinesSearch(cfg: Config, principal: string, capability: Capability,
      matches: (Repository, Provider) -> bool, id: string)
    requires forall p :: p in cfg.principals ==> GrantsOk(cfg.principals[p], cfg.repositories)
    ensures var s := SnapshotOf(cfg);
            (Only(s, principal, matches, id) && capability in s.grants[principal][id]) <==>
            exists i: nat ::
              Authorizes(cfg, principal, capability, matches, i) && cfg.principals[principal][i].repository == id
  {
    var s := SnapshotOf(cfg);
    if principal in cfg.principals {
      var grants := cfg.principals[principal];
      assert GrantsOk(grants, cfg.repositories);
      if Only(s, principal, matches, id) && capability in s.grants[principal][id] {
        OnlyAuthorizes(cfg, principal, capability, matches, id);
      }
      if i: nat :| Authorizes(cfg, principal, capability, matches, i) && grants[i].repository == id {
        AuthorizesOnly(cfg, principal, capability, matches, i);
      }
    }
  }

  lemma OnlyAuthorizes(cfg: Config, principal: string, capability: Capability, matches: (Repository, Provider) -> bool,
      id: string)
    requires principal in cfg.principals && GrantsOk(cfg.principals[principal], cfg.repositories)
    requires Only(SnapshotOf(cfg), principal, matches, id) && capability in SnapshotOf(cfg).grants[principal][id]
    ensures exists i: nat ::
              Authorizes(cfg, principal, capability, matches, i) && cfg.principals[principal][i].repository == id
  {
    var s, grants := SnapshotOf(cfg), cfg.principals[principal];
    IndexHolds(grants, id);
    var i :| 0 <= i < |grants| && grants[i].repository == id;
    IndexIsGrant(grants, i);
    forall j: nat | j < |grants| && GrantMatches(cfg, principal, matches, j)
      ensures j == i
    {
      IndexIsGrant(grants, j);
      assert Hit(s, matches, grants[j].repository);
    }
    assert Authorizes(cfg, principal, capability, matches, i);
  }

  lemma AuthorizesOnly(cfg: Config, principal: string, capability: Capability, matches: (Repository, Provider) -> bool,
      i: nat)
    requires principal in cfg.principals && GrantsOk(cfg.principals[principal], cfg.repositories)
    requires Authorizes(cfg, principal, capability, matches, i)
    ensures var id := cfg.principals[principal][i].repository;
            Only(SnapshotOf(cfg), principal, matches, id) && capability in SnapshotOf(cfg).grants[principal][id]
  {
    var s, grants := SnapshotOf(cfg), cfg.principals[principal];
    var id := grants[i].repository;
    IndexIsGrant(grants, i);
    forall other | other in s.grants[principal] && Hit(s, matches, other)
      ensures other == id
    {
      IndexHolds(grants, other);
      var j :| 0 <= j < |grants| && grants[j].repository == other;
      assert GrantMatches(cfg, principal, matches, j);
    }
  }

  // ----- Gitea slugs -----

  predicate NameChar(c: char) {
    'A' <= c <= 'Z' || 'a' <= c <= 'z' || '0' <= c <= '9' || c == '.' || c == '_' || c == '-'
  }

  predicate AlphaNumeric(c: char) {
    'A' <= c <= 'Z' || 'a' <= c <= 'z' || '0' <= c <= '9'
  }

  predicate ValidGiteaName(s: Bytes) {
    1 <= |s| <= 100 && AlphaNumeric(s[0]) && (forall i :: 0 <= i < |s| ==> NameChar(s[i])) && s != "." && s != ".."
  }

  predicate OnGitea(cfg: Config, id: string) {
    id in cfg.repositories && ProviderAt(cfg.providers, cfg.repositories[id].provider).kind == GITEA
  }

  /** What validateRepository leaves true of a Gitea repository. */
  predicate IdentitiesOk(cfg: Config) {
    forall id :: id in cfg.repositories && OnGitea(cfg, id) ==>
      && ValidGiteaName(cfg.repositories[id].owner)
      && ValidGiteaName(cfg.repositories[id].name)
      && !HasSuffix(ToLower(cfg.repositories[id].name), ".git")
  }

  function SlugKey(r: Repository): Bytes {
    ToLower(r.owner) + "/" + ToLower(r.name)
  }

  predicate Collide(cfg: Config, a: string, b: string)
    requires a in cfg.repositories && b in cfg.repositories
  {
    a != b && OnGitea(cfg, a) && OnGitea(cfg, b) && EqualFold(cfg.repositories[a].owner, cfg.repositories[b].owner) &&
        EqualFold(cfg.repositories[a].name, cfg.repositories[b].name)
  }

  predicate CollisionFree(cfg: Config) {
    forall a, b :: a in cfg.repositories && b in cfg.repositories ==> !Collide(cfg, a, b)
  }

  lemma NamesFold(a: Bytes, b: Bytes)
    requires ValidGiteaName(a)
    ensures Ascii(a) && '/' !in ToLower(a)
    ensures ValidGiteaName(b) ==> (EqualFold(a, b) <==> ToLower(a) == ToLower(b))
  {
  }

  /** The slug key separates: its owner part ends at its only slash. */
  lemma SlugKeysAgree(a: Repository, b: Repository)
    requires ValidGiteaName(a.owner) && ValidGiteaName(a.name) && ValidGiteaName(b.owner) && ValidGiteaName(b.name)
    ensures SlugKey(a) == SlugKey(b) <==> EqualFold(a.owner, b.owner) && EqualFold(a.name, b.name)
  {
    NamesFold(a.owner, b.owner);
    NamesFold(a.name, b.name);
    NamesFold(b.owner, a.owner);
    if SlugKey(a) == SlugKey(b) {
      var ao, bo := ToLower(a.owner), ToLower(b.owner);
      assert SlugKey(a)[|ao|] == '/' && SlugKey(b)[|bo|] == '/';
      assert |ao| == |bo|;
      assert ao == SlugKey(a)[..|ao|] && bo == SlugKey(b)[..|bo|];
      assert ToLower(a.name) == SlugKey(a)[|ao| + 1..] && ToLower(b.name) == SlugKey(b)[|bo| + 1..];
    }
  }

  /** The collision check passes exactly when no two Gitea repositories differ only in ASCII case. */
  method ValidateGiteaCollisions(cfg: Config) returns (ok: bool)
    requires IdentitiesOk(cfg)
    ensures ok <==> CollisionFree(cfg)
  {
    var slugs: map<Bytes, string> := map[];
    var todo := cfg.repositories.Keys;
    while todo != {}
      invariant todo <= cfg.repositories.Keys
      invariant forall key :: key in slugs ==>
          slugs[key] in cfg.repositories && slugs[key] !in todo && OnGitea(cfg, slugs[key]) &&
              SlugKey(cfg.repositories[slugs[key]]) == key
      invariant forall id :: id in cfg.repositories && id !in todo && OnGitea(cfg, id) ==>
                  SlugKey(cfg.repositories[id]) in slugs && slugs[SlugKey(cfg.repositories[id])] == id
      decreases |todo|
    {
      hide SlugKey, EqualFold, ValidGiteaName;
      var id :| id in todo;
      todo := todo - {id};
      if OnGitea(cfg, id) {
        var key := SlugKey(cfg.repositories[id]);
        if key in slugs {
          SlugKeysAgree(cfg.repositories[slugs[key]], cfg.repositories[id]);
          assert Collide(cfg, slugs[key], id);
          return false;
        }
        slugs := slugs[key := id];
      }
    }
    forall a, b | a in cfg.repositories && b in cfg.repositories
      ensures !Collide(cfg, a, b)
    {
      if Collide(cfg, a, b) {
        SlugKeysAgree(cfg.repositories[a], cfg.repositories[b]);
      }
    }
    return true;
  }

  lemma FoldTransitive(s: Bytes, a: Bytes, b: Bytes)
    requires EqualFold(s, a) && EqualFold(s, b)
    ensures EqualFold(a, b)
  {
  }

  /** In a collision-free configuration a selector with owner and name matches at most one Gitea repository. */
  lemma GiteaSelectorUnique(cfg: Config, s: Selector, a: string, b: string)
    requires CollisionFree(cfg) && s.owner != "" && s.name != ""
    requires OnGitea(cfg, a) && OnGitea(cfg, b) && Hit(SnapshotOf(cfg), (r, p) => Matches(s, r, p), a) &&
        Hit(SnapshotOf(cfg), (r, p) => Matches(s, r, p), b)
    ensures a == b
  {
    FoldTransitive(s.owner, cfg.repositories[a].owner, cfg.repositories[b].owner);
    FoldTransitive(s.name, cfg.repositories[a].name, cfg.repositories[b].name);
    assert !Collide(cfg, a, b);
  }

  lemma GiteaGitSelectorUnique(cfg: Config, s: GitSelector, a: string, b: string)
    requires CollisionFree(cfg)
    requires OnGitea(cfg, a) && OnGitea(cfg, b) && Hit(SnapshotOf(cfg), (r, p) => MatchesGit(s, r, p), a) &&
        Hit(SnapshotOf(cfg), (r, p) => MatchesGit(s, r, p), b)
    ensures a == b
  {
    FoldTransitive(s.owner, cfg.repositories[a].owner, cfg.repositories[b].owner);
    FoldTransitive(s.name, cfg.repositories[a].name, cfg.repositories[b].name);
    assert !Collide(cfg, a, b);
  }

  /** So in a validated configuration every granted Gitea repository can be resolved by its own owner and name, in any
      spelling of their case. */
  lemma GiteaGrantResolvable(cfg: Config, principal: string, id: string, owner: Bytes, name: Bytes)
    requires CollisionFree(cfg) && IdentitiesOk(cfg)
    requires principal in cfg.principals && GrantsOk(cfg.principals[principal], cfg.repositories)
    requires id in GrantIndex(cfg.principals[principal]) && OnGitea(cfg, id)
    requires EqualFold(owner, cfg.repositories[id].owner) && EqualFold(name, cfg.repositories[id].name)
    ensures Only(SnapshotOf(cfg), principal, (r, p) => Matches(Selector(GITEA, "", 0, owner, name), r, p), id)
  {
    var s := Selector(GITEA, "", 0, owner, name);
    var matches := (r, p) => Matches(s, r, p);
    var index := SnapshotOf(cfg);
    assert Hit(index, matches, id);
    assert |ToLower(owner)| == |owner| && |ToLower(name)| == |name|;
    forall other | other in index.grants[principal] && Hit(index, matches, other)
      ensures other == id
    {
      IndexHolds(cfg.principals[principal], other);
      GiteaSelectorUnique(cfg, s, other, id);
    }
  }

  // ----- what a selector finds -----

  /** Equal byte for byte, except that Gitea names may differ in ASCII case. */
  predicate SameName(kind: string, asked: Bytes, found: Bytes) {
    if kind == "gitea" then |asked| == |found| && forall i :: 0 <= i < |asked| ==> SameLetter(asked[i], found[i])
    else asked == found
  }

  predicate SameLetter(a: char, b: char) {
    a == b || ('A' <= a <= 'Z' && b as int == a as int + 32) || ('A' <= b <= 'Z' && a as int == b as int + 32)
  }

  lemma FoldLetters(a: Bytes, b: Bytes)
    requires EqualFold(a, b)
    ensures |a| == |b| && forall i :: 0 <= i < |a| ==> SameLetter(a[i], b[i])
  {
    assert |ToLower(a)| == |a| && |ToLower(b)| == |b|;
    forall i | 0 <= i < |a|
      ensures SameLetter(a[i], b[i])
    {
      assert ToLower(a)[i] == ToLower(b)[i];
    }
  }

  /** Snapshot.Resolve. What is resolved is what was asked for, field by field. */
  method ResolveSelector(s: Snapshot, principal: string, selector: Selector, capability: Capability)
    returns (r: Option<Resolved>)
    ensures r.Some? ==> Only(s, principal, (repo, p) => Matches(selector, repo, p), r.value.id)
    ensures r.Some? ==> capability in s.grants[principal][r.value.id] && r.value == ResolvedAt(s, r.value.id)
    ensures r.None? ==> forall id :: Only(s, principal, (repo, p) => Matches(selector, repo, p), id) ==>
                                       capability !in s.grants[principal][id]
    ensures r.Some? ==>
              && selector.kind in {"", r.value.provider.kind}
              && selector.host in {"", r.value.provider.gitHost}
              && selector.sshPort in {0, r.value.provider.sshPort}
              && (selector.owner != "" ==>
                    SameName(r.value.provider.kind, selector.owner, r.value.repository.owner))
              && (selector.name != "" ==>
                    SameName(r.value.provider.kind, selector.name, r.value.repository.name))
  {
    r := Resolve(s, principal, capability, (repo, p) => Matches(selector, repo, p));
    if r.Some? && r.value.provider.kind == GITEA {
      if selector.owner != "" {
        FoldLetters(selector.owner, r.value.repository.owner);
      }
      if selector.name != "" {
        FoldLetters(selector.name, r.value.repository.name);
      }
    }
  }

  /** Snapshot.ResolveGit. A missing user stands for git on GitHub; the host may differ in ASCII case. */
  method ResolveGit(s: Snapshot, principal: string, selector: GitSelector, capability: Capability)
    returns (r: Option<Resolved>)
    ensures r.Some? ==> Only(s, principal, (repo, p) => MatchesGit(selector, repo, p), r.value.id)
    ensures r.Some? ==> capability in s.grants[principal][r.value.id] && r.value == ResolvedAt(s, r.value.id)
    ensures r.None? ==> forall id :: Only(s, principal, (repo, p) => MatchesGit(selector, repo, p), id) ==>
                                       capability !in s.grants[principal][id]
    ensures r.Some? ==>
              && (selector.sshUser != "" ==> r.value.provider.sshUser == selector.sshUser)
              && (selector.sshUser == "" ==> r.value.provider.kind == "github" && r.value.provider.sshUser == "git")
              && |selector.host| == |r.value.provider.gitHost|
              && (forall i :: 0 <= i < |selector.host| ==> SameLetter(selector.host[i], r.value.provider.gitHost[i]))
              && selector.sshPort in {0, r.value.provider.sshPort}
              && SameName(r.value.provider.kind, selector.owner, r.value.repository.owner)
              && SameName(r.value.provider.kind, selector.name, r.value.repository.name)
  {
    r := Resolve(s, principal, capability, (repo, p) => MatchesGit(selector, repo, p));
    if r.Some? {
      FoldLetters(selector.host, r.value.provider.gitHost);
      if r.value.provider.kind == GITEA {
        FoldLetters(selector.owner, r.value.repository.owner);
        FoldLetters(selector.name, r.value.repository.name);
      }
    }
  }

  predicate OnGitHub(cfg: Config, id: string) {
    id in cfg.repositories && ProviderAt(cfg.providers, cfg.repositories[id].provider).kind == "github"
  }

  /** The same repository of the same provider endpoint, as far as a selector can tell. */
  predicate SameGitHub(cfg: Config, a: string, b: string)
    requires a in cfg.repositories && b in cfg.repositories
  {
    var p, q := ProviderAt(cfg.providers, cfg.repositories[a].provider),
        ProviderAt(cfg.providers, cfg.repositories[b].provider);
    && p.kind == q.kind && p.gitHost == q.gitHost && p.sshPort == q.sshPort
    && cfg.repositories[a].owner == cfg.repositories[b].owner && cfg.repositories[a].name == cfg.repositories[b].name
  }

  predicate Granted(cfg: Config, principal: string, id: string) {
    principal in cfg.principals && id in GrantIndex(cfg.principals[principal]) && id in cfg.repositories
  }

  /** The second repository answers to the user, host, port and slug of the first. */
  predicate SameGitTarget(cfg: Config, a: string, b: string)
    requires a in cfg.repositories && b in cfg.repositories
  {
    && SameEndpoint(cfg, a, b)
    && SameSlug(KindOf(cfg, b), cfg.repositories[a].owner, cfg.repositories[a].name, cfg.repositories[b])
  }

  /** Leaving a field out of a selector never loses a match, and the selector that gives nothing matches everything. */
  lemma BlankMatches(s: Selector, r: Repository, p: Provider)
    ensures Matches(Selector("", "", 0, "", ""), r, p)
    ensures Matches(s, r, p) ==>
              && Matches(s.(kind := ""), r, p) && Matches(s.(host := ""), r, p) && Matches(s.(sshPort := 0), r, p)
              && Matches(s.(owner := ""), r, p) && Matches(s.(name := ""), r, p)
  {
  }

  /** A Git selector without a port is for any port, and one without a user is one for git, on GitHub only. */
  lemma BlankMatchesGit(s: GitSelector, r: Repository, p: Provider)
    ensures MatchesGit(s, r, p) ==> MatchesGit(s.(sshPort := 0), r, p)
    ensures MatchesGit(s.(sshUser := ""), r, p) <==> p.kind == "github" && MatchesGit(s.(sshUser := "git"), r, p)
  {
  }

  function FullSelector(cfg: Config, id: string): Selector
    requires id in cfg.repositories
  {
    var p := ProviderAt(cfg.providers, cfg.repositories[id].provider);
    Selector(p.kind, p.gitHost, p.sshPort, cfg.repositories[id].owner, cfg.repositories[id].name)
  }

  /** A selector with owner and name matches GitHub repositories of one owner and name only. */
  lemma GitHubSelectorUnique(cfg: Config, s: Selector, a: string, b: string)
    requires s.owner != "" && s.name != "" && OnGitHub(cfg, a) && OnGitHub(cfg, b)
    requires Hit(SnapshotOf(cfg), (r, p) => Matches(s, r, p), a) && Hit(SnapshotOf(cfg), (r, p) => Matches(s, r, p), b)
    ensures cfg.repositories[a].owner == cfg.repositories[b].owner == s.owner
    ensures cfg.repositories[a].name == cfg.repositories[b].name == s.name
  {
  }

  lemma GitHubGitSelectorUnique(cfg: Config, s: GitSelector, a: string, b: string)
    requires OnGitHub(cfg, a) && OnGitHub(cfg, b)
    requires Hit(SnapshotOf(cfg), (r, p) => MatchesGit(s, r, p), a) &&
        Hit(SnapshotOf(cfg), (r, p) => MatchesGit(s, r, p), b)
    ensures cfg.repositories[a].owner == cfg.repositories[b].owner == s.owner
    ensures cfg.repositories[a].name == cfg.repositories[b].name == s.name
  {
  }

  /** A granted GitHub repository is the only match of its own full selector exactly when no other granted repository
      has the same kind, host, port, owner and name. */
  lemma GitHubGrantResolvable(cfg: Config, principal: string, id: string)
    requires principal in cfg.principals && GrantsOk(cfg.principals[principal], cfg.repositories)
    requires id in GrantIndex(cfg.principals[principal]) && OnGitHub(cfg, id)
    requires cfg.repositories[id].owner != "" && cfg.repositories[id].name != ""
    requires var p := ProviderAt(cfg.providers, cfg.repositories[id].provider); p.gitHost != "" && p.sshPort != 0
    ensures Only(SnapshotOf(cfg), principal, (r, p) => Matches(FullSelector(cfg, id), r, p), id) <==>
            forall other :: Granted(cfg, principal, other) && SameGitHub(cfg, id, other) ==> other == id
  {
    var s, index := FullSelector(cfg, id), SnapshotOf(cfg);
    var matches := (r, p) => Matches(s, r, p);
    assert Hit(index, matches, id);
    forall other | other in index.grants[principal]
      ensures other in cfg.repositories && (Hit(index, matches, other) <==> SameGitHub(cfg, id, other))
    {
      IndexHolds(cfg.principals[principal], other);
    }
  }

  /** The same for Git: user, host and slug of a granted GitHub repository find it, unless another granted repository
      has the same user, host and port, and the same slug. */
  lemma GitHubGitGrantResolvable(cfg: Config, principal: string, id: string)
    requires principal in cfg.principals && GrantsOk(cfg.principals[principal], cfg.repositories)
    requires id in GrantIndex(cfg.principals[principal]) && OnGitHub(cfg, id)
    requires var p := ProviderAt(cfg.providers, cfg.repositories[id].provider);
             p.sshUser != "" && p.sshPort != 0 && Ascii(p.gitHost)
    requires forall other :: Granted(cfg, principal, other) && SameGitTarget(cfg, id, other) ==> other == id
    ensures Only(SnapshotOf(cfg), principal, (r, p) => MatchesGit(FullGitSelector(cfg, id), r, p), id)
  {
    var s, index := FullGitSelector(cfg, id), SnapshotOf(cfg);
    var matches := (r, p) => MatchesGit(s, r, p);
    assert Hit(index, matches, id);
    forall other | other in index.grants[principal] && Hit(index, matches, other)
      ensures other == id
    {
      IndexHolds(cfg.principals[principal], other);
      assert Granted(cfg, principal, other);
      assert SameGitTarget(cfg, id, other);
    }
  }

  function KindOf(cfg: Config, id: string): string
    requires id in cfg.repositories
  {
    ProviderAt(cfg.providers, cfg.repositories[id].provider).kind
  }

  predicate SameEndpoint(cfg: Config, a: string, b: string)
    requires a in cfg.repositories && b in cfg.repositories
  {
    var p, q := ProviderAt(cfg.providers, cfg.repositories[a].provider),
        ProviderAt(cfg.providers, cfg.repositories[b].provider);
    p.sshUser == q.sshUser && EqualFold(p.gitHost, q.gitHost) && p.sshPort == q.sshPort
  }

  function FullGitSelector(cfg: Config, id: string): GitSelector
    requires id in cfg.repositories
  {
    var p := ProviderAt(cfg.providers, cfg.repositories[id].provider);
    GitSelector(p.sshUser, p.gitHost, p.sshPort, cfg.repositories[id].owner, cfg.repositories[id].name)
  }
}
