/** Host configuration files, the server entries in them, and which entries belong to one repository
    (apps/cognis-mcp/src/mcpConfigMigrate.ts, mcpEnv.ts, mcpServerName.ts). */
module MigrationPlans {
  import opened Options

  /** A server entry: JSON null, or an object of which `env` matters here. A missing `env` reads as an empty one. */
  datatype Block = NullBlock | Block(env: map<string, string>, body: string)

  /** A parsed configuration: the `mcpServers` object, if there is one, and every other key. */
  datatype Config = Config(servers: Option<map<string, Block>>, other: map<string, string>) {
    function ServerMap(): map<string, Block> {
      if servers.Some? then servers.value else map[]
    }
  }

  const EmptyConfig := Config(None, map[])

  /** The bytes of a file: a configuration in some layout (a blank file is an empty one), or something that does not parse. */
  datatype Content = Json(config: Config, layout: string) | Malformed(raw: string)

  const PrintedLayout := "two-space indented, one trailing newline"
  const Torn := Malformed("partly written")

  /** A configuration file, or a timestamped sibling of one. */
  datatype Path = Live(name: string) | Backup(name: string, timestamp: string, suffix: nat)

  type Disk = map<Path, Content>

  /** A repository; `normal` is path resolution followed by slash and case folding. */
  datatype Repo = Repo(root: string, dbPath: string, canonicalName: string, normal: string -> string)

  function Lookup(env: map<string, string>, key: string): Option<string> {
    if key in env then Some(env[key]) else None
  }

  function FirstOf(a: Option<string>, b: Option<string>): Option<string> {
    if a.Some? then a else b
  }

  /** JavaScript truth of an optional string. */
  predicate Truthy(s: Option<string>) { s.Some? && s.value != "" }

  predicate EnvMatchesRepo(repo: Repo, env: map<string, string>) {
    var db := Lookup(env, "COGNIS_DB_PATH");
    var root := FirstOf(FirstOf(Lookup(env, "COGNIS_REPO_ROOT"), Lookup(env, "REPO_ROOT")), Lookup(env, "repo_root"));
    && Truthy(db) && repo.normal(db.value) == repo.normal(repo.dbPath)
    && (Truthy(root) ==> repo.normal(root.value) == repo.normal(repo.root))
  }

  predicate IsCognisName(name: string) { name == "cognis" || "cognis-" <= name }

  function EnvOf(b: Block): map<string, string> { if b.NullBlock? then map[] else b.env }

  predicate Belongs(repo: Repo, name: string, b: Block) {
    IsCognisName(name) && (name == repo.canonicalName || EnvMatchesRepo(repo, EnvOf(b)))
  }

  /** The entries a migration would move. */
  function Selected(repo: Repo, servers: map<string, Block>): set<string> {
    set n | n in servers && Belongs(repo, n, servers[n])
  }

  function Parse(disk: Disk, p: Path): Option<Config> {
    if p !in disk then Some(EmptyConfig)
    else if disk[p].Json? then Some(disk[p].config)
    else None
  }

  function Merged(source: Config, destination: Config, names: set<string>): Config {
    var moved := map n | n in names && n in source.ServerMap() :: source.ServerMap()[n];
    destination.(servers := Some(destination.ServerMap() + moved))
  }

  function Without(source: Config, names: set<string>): Config {
    source.(servers := Some(source.ServerMap() - names))
  }

  predicate Distinct(names: seq<string>) {
    forall i, j :: 0 <= i < j < |names| ==> names[i] != names[j]
  }

  function Names(names: seq<string>): set<string> { set n | n in names }

  /** Walks the source entries in the order `entries` lists them. */
  method FindRepoCognisEntries(servers: map<string, Block>, entries: seq<string>, repo: Repo) returns (names: seq<string>)
    requires Distinct(entries) && Names(entries) == servers.Keys
    ensures Distinct(names) && Names(names) == Selected(repo, servers)
    ensures forall n :: n in names ==> n in entries
  {
    names := [];
    for i := 0 to |entries|
      invariant Distinct(names)
      invariant forall n :: n in names <==> n in entries[..i] && Belongs(repo, n, servers[n])
    {
      var name := entries[i];
      assert name in Names(entries);
      assert name !in entries[..i];
      if IsCognisName(name) {
        if name == repo.canonicalName || EnvMatchesRepo(repo, EnvOf(servers[name])) {
          names := names + [name];
        }
      }
      assert entries[..i + 1] == entries[..i] + [name];
    }
    assert entries[..|entries|] == entries;
    forall n | n in Selected(repo, servers) ensures n in names { assert n in Names(entries); }
    forall n | n in names ensures n in Selected(repo, servers) { assert n in Names(entries); }
  }

  /** Moving the selected entries leaves nothing to select, so a second migration has nothing to do. */
  lemma {:induction false} NothingLeftToSelect(repo: Repo, source: Config)
    ensures Selected(repo, Without(source, Selected(repo, source.ServerMap())).ServerMap()) == {}
  {
    var names := Selected(repo, source.ServerMap());
    var left := Without(source, names).ServerMap();
    assert forall n :: n in left ==> n !in names && left[n] == source.ServerMap()[n];
  }

  // ---- What belongs to a repository, said on the entries themselves -----------------------------------

  /** A value names the same place as another. */
  predicate Same(repo: Repo, path: string, other: string) { repo.normal(path) == repo.normal(other) }

  /** The entry names a database, and it is the repository's. */
  predicate NamesItsDatabase(repo: Repo, b: Block) {
    b.Block? && "COGNIS_DB_PATH" in b.env && b.env["COGNIS_DB_PATH"] != ""
    && Same(repo, b.env["COGNIS_DB_PATH"], repo.dbPath)
  }

  /** It names another database. */
  predicate NamesAnother(repo: Repo, b: Block) {
    b.Block? && "COGNIS_DB_PATH" in b.env && b.env["COGNIS_DB_PATH"] != ""
    && !Same(repo, b.env["COGNIS_DB_PATH"], repo.dbPath)
  }

  /** It names another root: the first that is present of three variables does, and is not empty. */
  predicate NamesAnotherRoot(repo: Repo, b: Block) {
    b.Block? &&
    if "COGNIS_REPO_ROOT" in b.env then
      b.env["COGNIS_REPO_ROOT"] != "" && !Same(repo, b.env["COGNIS_REPO_ROOT"], repo.root)
    else if "REPO_ROOT" in b.env then
      b.env["REPO_ROOT"] != "" && !Same(repo, b.env["REPO_ROOT"], repo.root)
    else
      "repo_root" in b.env && b.env["repo_root"] != "" && !Same(repo, b.env["repo_root"], repo.root)
  }

  /** Exactly these entries are moved: those of a Cognis name that carry the canonical one, or that name the repository's
      database and no other root. */
  lemma {:induction false} SelectedIff(repo: Repo, servers: map<string, Block>, name: string)
    ensures name in Selected(repo, servers) <==>
      && name in servers && (name == "cognis" || (|name| >= 7 && name[..7] == "cognis-"))
      && (name == repo.canonicalName
          || (NamesItsDatabase(repo, servers[name]) && !NamesAnotherRoot(repo, servers[name])))
  {
  }

  /** The destination check should pass an entry that is there, does not name another database, and does not name the
      repository's together with another root. */
  predicate Acceptable(repo: Repo, b: Block) {
    b.Block? && !NamesAnother(repo, b) && !(NamesItsDatabase(repo, b) && NamesAnotherRoot(repo, b))
  }

  lemma {:induction false} AcceptableIff(repo: Repo, b: Block)
    ensures Acceptable(repo, b) <==>
      b.Block? && !(Truthy(Lookup(b.env, "COGNIS_DB_PATH")) && !EnvMatchesRepo(repo, b.env))
  {
  }

  /** Of two repositories with different databases, only an entry under one of their canonical names can go to both. */
  lemma {:induction false} SelectedForTwo(a: Repo, b: Repo, servers: map<string, Block>, name: string)
    requires (forall p :: a.normal(p) == b.normal(p)) && a.normal(a.dbPath) != b.normal(b.dbPath)
    requires name in Selected(a, servers) && name in Selected(b, servers)
    ensures name == a.canonicalName || name == b.canonicalName
  {
    SelectedIff(a, servers, name);
    SelectedIff(b, servers, name);
  }

  /** A file that is not there reads as an empty configuration, and one that is there reads as what it holds, unless that
      does not parse. */
  lemma {:induction false} ParseIff(disk: Disk, p: Path)
    ensures Parse(disk, p).Some? <==> (p in disk ==> disk[p].Json?)
    ensures p !in disk ==> Parse(disk, p) == Some(Config(None, map[]))
    ensures p in disk && disk[p].Json? ==> Parse(disk, p) == Some(disk[p].config)
  {
  }
}
