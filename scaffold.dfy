/** The steps of the script that involve no I/O, composed in the script's order, with what the
    file system and the downloaded template would supply passed in as parameters. */
module Scaffold {
  import opened Errors
  import opened Names
  import opened Templates
  import opened Paths
  import opened Manifest
  import opened TitleCasing

  /** What a run settles: the project directory (as path components), the template repository and
      the address of its archive, and the two rewritten manifests. */
  datatype Project = Project(dir: seq<string>, repo: string, archive: string, package: Members, game: Members)

  /** One run. commander parses the `--template` option before the `<name>` argument, so an unknown
      template is reported first; then the directory `path.resolve(cwd, name)` must not be among the
      `existing` ones; then the template's `package.json` and `game.v1.json` members are rewritten. */
  function Scaffold(nameArg: string, templateArg: Option<string>, cwd: seq<string>,
                    existing: set<seq<string>>, pkg: Members, game: Members): (r: Result<Project>)
  {
    match ResolveTemplate(templateArg)
    case Err(e) => Err(e)
    case Ok(repo) =>
      match ValidateName(nameArg)
      case Err(e) => Err(e)
      case Ok(name) =>
        var dir := Resolve(cwd, name);
        if dir in existing then Err(AlreadyExists(dir))
        else Ok(Project(dir, repo, ArchiveUrl(repo), RewritePackage(pkg, name), RewriteGame(game, name)))
  }

  /** An accepted name is one plain path component, so the project directory is a new entry directly
      inside the working directory. */
  lemma {:induction false} ProjectDirIsChild(cwd: seq<string>, name: string)
    requires IsValidName(name)
    ensures Resolve(cwd, name) == cwd + [name]
    ensures IsNormalPath(cwd) ==> IsNormalPath(Resolve(cwd, name))
  {
    ValidNameIsPlain(name);
    assert '/' !in name;
    ResolveComponent(cwd, name);
  }

  /** A run succeeds exactly when the template selector is absent or known, the name is accepted and
      the directory does not exist yet. */
  lemma {:induction false} ScaffoldSucceeds(nameArg: string, templateArg: Option<string>, cwd: seq<string>,
                                            existing: set<seq<string>>, pkg: Members, game: Members)
    ensures Scaffold(nameArg, templateArg, cwd, existing, pkg, game).Ok? <==>
      && (templateArg == None || templateArg == Some("empty"))
      && IsValidName(nameArg)
      && cwd + [nameArg] !in existing
  {
    if IsValidName(nameArg) {
      ProjectDirIsChild(cwd, nameArg);
    }
  }

  /** A successful run creates `<cwd>/<name>` from the starter game, names the package and the game
      after the project and gives the game the title-cased friendly name. */
  lemma {:induction false} ScaffoldResult(nameArg: string, templateArg: Option<string>, cwd: seq<string>,
                                          existing: set<seq<string>>, pkg: Members, game: Members)
    requires Scaffold(nameArg, templateArg, cwd, existing, pkg, game).Ok?
    ensures var p := Scaffold(nameArg, templateArg, cwd, existing, pkg, game).value;
      && p.dir == cwd + [nameArg]
      && p.repo == DefaultRepo
      && p.archive == ArchiveUrl(DefaultRepo)
      && Get(p.package, "name") == Some(Str(nameArg))
      && Get(p.game, "name") == Some(Str(nameArg))
      && Get(p.game, "friendlyName") == Some(Str(TitleCase(nameArg)))
      && p.package == RewritePackage(pkg, nameArg)
      && p.game == RewriteGame(game, nameArg)
  {
    ProjectDirIsChild(cwd, nameArg);
    RewritePackageFields(pkg, nameArg);
    RewriteGameFields(game, nameArg);
  }

  /** A bad template selector or name is reported before anything is looked at: the outcome does not
      depend on the file system or on the template's contents. An existing file or directory is reported
      before the template is used. */
  lemma {:induction false} ScaffoldFailsEarly(nameArg: string, templateArg: Option<string>, cwd: seq<string>,
                                              existing: set<seq<string>>, pkg: Members, game: Members,
                                              existing': set<seq<string>>, pkg': Members, game': Members)
    ensures !IsValidName(nameArg) ==>
      && Scaffold(nameArg, templateArg, cwd, existing, pkg, game).Err?
      && Scaffold(nameArg, templateArg, cwd, existing, pkg, game) == Scaffold(nameArg, templateArg, cwd, existing', pkg', game')
    ensures (templateArg == None || templateArg == Some("empty")) && !IsValidName(nameArg) ==>
      Scaffold(nameArg, templateArg, cwd, existing, pkg, game) == Err(InvalidArgument(NameRule))
    ensures !(templateArg == None || templateArg == Some("empty")) ==>
      Scaffold(nameArg, templateArg, cwd, existing, pkg, game) == Err(InvalidArgument("Must be one of empty"))
    ensures (templateArg == None || templateArg == Some("empty")) && IsValidName(nameArg)
            && cwd + [nameArg] in existing ==>
      Scaffold(nameArg, templateArg, cwd, existing, pkg, game) == Err(AlreadyExists(cwd + [nameArg]))
  {
    if IsValidName(nameArg) {
      ProjectDirIsChild(cwd, nameArg);
    }
  }

  /** `create-boardzilla-game space-trader` where `space-trader` does not exist yet. */
  lemma SpaceTraderRun(name: string, cwd: seq<string>, existing: set<seq<string>>, pkg: Members, game: Members)
    requires name == "space-trader" && cwd + [name] !in existing
    ensures Scaffold(name, None, cwd, existing, pkg, game).Ok?
    ensures Scaffold(name, None, cwd, existing, pkg, game).value.dir == cwd + [name]
    ensures Get(Scaffold(name, None, cwd, existing, pkg, game).value.game, "friendlyName") == Some(Str("Space Trader"))
  {
    SpaceTraderExample();
    ScaffoldSucceeds(name, None, cwd, existing, pkg, game);
    ScaffoldResult(name, None, cwd, existing, pkg, game);
  }
}
