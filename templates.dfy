/** `validateTemplateName`, the `--template` option and the archive address derived from it. */
module Templates {
  import opened Errors
  import opened Strings

  /** The repository used when no template is chosen (`|| "boardzilla-starter-game"`). */
  const DefaultRepo := "boardzilla-starter-game"

  /** The `options` map of `validateTemplateName`, in insertion order: selector to repository. */
  const TemplateOptions: seq<(string, string)> := [("empty", "boardzilla-starter-game")]

  /** `Map.prototype.get` on `new Map(entries)`: the value of the last entry with that key, since a
      later entry overwrites an earlier one with the same key. */
  function Lookup(entries: seq<(string, string)>, key: string): (r: Option<string>)
    ensures r.Some? <==> exists i :: 0 <= i < |entries| && entries[i].0 == key
    ensures r.Some? ==> exists i :: 0 <= i < |entries| && entries[i] == (key, r.value)
                                    && forall j :: i < j < |entries| ==> entries[j].0 != key
  {
    if entries == [] then None
    else if entries[|entries| - 1].0 == key then Some(entries[|entries| - 1].1)
    else
      var r := Lookup(entries[..|entries| - 1], key);
      assert forall i :: 0 <= i < |entries| - 1 ==> entries[..|entries| - 1][i] == entries[i];
      r
  }

  function SelectorNames(entries: seq<(string, string)>): (keys: seq<string>)
    ensures |keys| == |entries|
    ensures forall i :: 0 <= i < |entries| ==> keys[i] == entries[i].0
  {
    seq(|entries|, i requires 0 <= i < |entries| => entries[i].0)
  }

  /** The message of the `InvalidArgumentError` thrown for an unknown selector. */
  function TemplateRule(): string
  {
    "Must be one of " + Join(SelectorNames(TemplateOptions), ", ")
  }

  /** `validateTemplateName(name)`: the repository of a known selector; an unknown selector, or one
      whose repository is empty (falsy), is rejected. */
  function ValidateTemplateName(key: string): (r: Result<string>)
    ensures r.Ok? <==> key == "empty"
    ensures r.Ok? ==> r.value == "boardzilla-starter-game"
    ensures r.Err? ==> r.error == InvalidArgument("Must be one of empty")
  {
    assert SelectorNames(TemplateOptions) == ["empty"];
    assert TemplateRule() == "Must be one of empty";
    match Lookup(TemplateOptions, key)
    case None => Err(InvalidArgument(TemplateRule()))
    case Some(repo) => if repo == "" then Err(InvalidArgument(TemplateRule())) else Ok(repo)
  }

  /** `program.opts()["template"] || "boardzilla-starter-game"`: the stored option value unless it is
      absent or empty. */
  function OrDefault(stored: Option<string>): (repo: string)
    ensures repo != ""
    ensures stored.Some? && stored.value != "" ==> repo == stored.value
    ensures !(stored.Some? && stored.value != "") ==> repo == DefaultRepo
  {
    if stored.Some? && stored.value != "" then stored.value else DefaultRepo
  }

  /** The repository the script downloads for the `--template` argument: commander runs
      `validateTemplateName` on a given value, and the default applies when none is given. The
      option is declared with a required value, so it is either absent or carries a selector. */
  function ResolveTemplate(arg: Option<string>): (r: Result<string>)
    ensures r.Ok? <==> arg == None || arg == Some("empty")
    ensures r.Ok? ==> r.value == DefaultRepo
    ensures r.Err? ==> r.error == InvalidArgument("Must be one of empty")
  {
    match arg
    case None => Ok(OrDefault(None))
    case Some(key) =>
      match ValidateTemplateName(key)
      case Err(e) => Err(e)
      case Ok(repo) => Ok(OrDefault(Some(repo)))
  }

  const UrlPrefix := "https://github.com/boardzilla/"
  const UrlSuffix := "/zipball/master/"

  /** The address `curl` fetches the template archive from. */
  function ArchiveUrl(repo: string): (url: string)
    ensures |url| == |UrlPrefix| + |repo| + |UrlSuffix|
    ensures url[..|UrlPrefix|] == UrlPrefix
    ensures url[|UrlPrefix|..|UrlPrefix| + |repo|] == repo
    ensures url[|UrlPrefix| + |repo|..] == UrlSuffix
  {
    UrlPrefix + repo + UrlSuffix
  }

  /** The repository named by an archive address, if it has the expected shape. */
  function RepoOfUrl(url: string): (r: Option<string>)
  {
    if |url| >= |UrlPrefix| + |UrlSuffix|
      && url[..|UrlPrefix|] == UrlPrefix && url[|url| - |UrlSuffix|..] == UrlSuffix
    then Some(url[|UrlPrefix|..|url| - |UrlSuffix|])
    else None
  }

  /** The address determines the repository: distinct templates are fetched from distinct places. */
  lemma {:induction false} ArchiveUrlRoundTrip(repo: string)
    ensures RepoOfUrl(ArchiveUrl(repo)) == Some(repo)
  {
    var url := ArchiveUrl(repo);
    assert url[..|UrlPrefix|] == UrlPrefix;
    assert url[|url| - |UrlSuffix|..] == UrlSuffix;
    assert url[|UrlPrefix|..|url| - |UrlSuffix|] == repo;
  }
}
