/** The manifest `systemConfig.json` as `json.load` hands it to the installers.
    A JSON object is a Python dict, which iterates in insertion order, so it is
    kept as the ordered sequence of its key/value pairs. A key the installers
    index but the document lacks is `None`: indexing it raises `KeyError`. */
module Manifest {
  import opened Wrappers
  import opened PyStr
  import opened Shell

  /** A Python dict with string keys, in iteration order. A Python dict
      never repeats a key; where this sequence does, lookups see the first. */
  type Dict<V> = seq<(string, V)>

  /** The position of `key` in `d`, if any (the first one). */
  function KeyIndex<V>(d: Dict<V>, key: string): (r: Option<nat>)
    ensures r.Some? ==> r.value < |d|
  {
    if d == [] then None
    else if d[0].0 == key then Some(0)
    else match KeyIndex(d[1..], key)
      case None => None
      case Some(i) => Some(i + 1)
  }

  /** KeyIndex finds the first entry with the key, and None means no entry has it. */
  lemma {:induction false} KeyIndexFindsFirst<V>(d: Dict<V>, key: string)
    ensures var r := KeyIndex(d, key);
      && (r.Some? ==> d[r.value].0 == key && forall j :: 0 <= j < r.value ==> d[j].0 != key)
      && (r.None? ==> forall j :: 0 <= j < |d| ==> d[j].0 != key)
  {
    if d != [] && d[0].0 != key {
      KeyIndexFindsFirst(d[1..], key);
    }
  }

  /** Python's `key in d`. */
  predicate HasKey<V>(d: Dict<V>, key: string) {
    KeyIndex(d, key).Some?
  }

  /** Python's `d[key]`, with `None` where it raises `KeyError`. */
  function Lookup<V>(d: Dict<V>, key: string): Option<V> {
    match KeyIndex(d, key)
    case None => None
    case Some(i) => Some(d[i].1)
  }

  /** Iterating a dict directly (`for k in d`) yields its keys in order. */
  function Keys<V>(d: Dict<V>): (r: seq<string>)
    ensures |r| == |d|
    ensures forall i :: 0 <= i < |d| ==> r[i] == d[i].0
  {
    if d == [] then [] else [d[0].0] + Keys(d[1..])
  }

  /** One entry of the `all` package group. */
  datatype PackageInfo = PackageInfo(
    installationMethod: Option<string>,    // "installation_method"
    packageName: Option<string>,           // "package-name"
    script: Option<seq<string>>,           // "script"
    alternates: Option<Dict<string>>)      // "alternate_installation_methods"

  /** The value of one `requirements` entry: the `all` group maps package names
      to PackageInfo objects, the other groups list plain package names. Either
      shape may appear under any key. */
  datatype Group = PackageMap(entries: Dict<PackageInfo>) | NameList(names: seq<string>)

  /** One theme entry. */
  datatype ThemeDescriptor = ThemeDescriptor(
    gitRepo: Option<string>,                 // "git_repo"
    installationScript: Option<seq<string>>) // "installation_script"

  /** The `packages` object. `themes` maps a desktop category (the installers
      read only "gnome") to a map from desktop-environment name to theme. */
  datatype PackagesSection = PackagesSection(
    requirements: Option<Dict<Group>>,
    themes: Option<Dict<Dict<ThemeDescriptor>>>)

  /** The top-level document. */
  datatype Config = Config(packages: Option<PackagesSection>)

  /** `config_data["packages"]["requirements"]`. */
  function Requirements(c: Config): (r: Option<Dict<Group>>)
    ensures r.Some? <==> c.packages.Some? && c.packages.value.requirements.Some?
  {
    match c.packages
    case None => None
    case Some(p) => p.requirements
  }

  /** `config_data["packages"]["themes"]["gnome"]`. */
  function GnomeThemes(c: Config): (r: Option<Dict<ThemeDescriptor>>)
    ensures r.Some? <==> c.packages.Some? && c.packages.value.themes.Some?
                         && HasKey(c.packages.value.themes.value, "gnome")
  {
    match c.packages
    case None => None
    case Some(p) =>
      match p.themes
      case None => None
      case Some(t) => Lookup(t, "gnome")
  }

  /** Where the manifest lives inside the repository. */
  const ManifestPath := "/raw/main/systemConfig.json"

  /** `f"{git_repo.rstrip('/')}/raw/main/systemConfig.json"`: the repository URL
      is the URL's base followed only by slashes, the base does not end in a
      slash (so `//raw` can only appear when the base is empty), and the fixed
      path follows the base. */
  function ManifestUrl(gitRepo: string): (url: string)
    ensures |url| >= |ManifestPath| && url[|url| - |ManifestPath|..] == ManifestPath
    ensures |url| - |ManifestPath| <= |gitRepo|
    ensures url[..|url| - |ManifestPath|] == gitRepo[..|url| - |ManifestPath|]
    ensures forall k :: |url| - |ManifestPath| <= k < |gitRepo| ==> gitRepo[k] == '/'
    ensures |url| > |ManifestPath| ==> url[|url| - |ManifestPath| - 1] != '/'
  {
    var base := RStripChar(gitRepo, '/');
    RStripCharDrops(gitRepo, '/');
    assert (base + ManifestPath)[..|base|] == base;
    base + ManifestPath
  }

  /** Trailing slashes on the repository URL do not change the manifest URL. */
  lemma ManifestUrlTrailingSlash(gitRepo: string)
    ensures ManifestUrl(gitRepo + "/") == ManifestUrl(gitRepo)
  {
    assert (gitRepo + "/")[..|gitRepo|] == gitRepo;
  }

  /** `curl -o systemConfig.json <url>`. */
  function DownloadCommand(url: string): Command {
    Command(["curl", "-o", "systemConfig.json", url], None)
  }
}
