/** installSystem.py: the installer that takes the distribution from
    `platform.linux_distribution`, downloads the manifest with an unchecked
    `curl`, installs the requirements and then every gnome theme. */
module InstallSystem {
  import opened Wrappers
  import opened PyStr
  import opened Shell
  import opened Manifest
  import opened Distro
  import opened Packages
  import opened Themes

  /** get_package_manager of installSystem.py, given the distribution name
      `platform.linux_distribution(full_distribution_name=False)[0]`. */
  function PlatformManager(distro: string): Option<string> {
    ManagerFor(Lower(distro))
  }

  /** The mapping ignores case and never yields anything outside the table. */
  lemma PlatformManagerTable(distro: string)
    ensures var mgr := PlatformManager(distro);
      && (mgr.Some? ==> mgr.value in {"apt", "dnf", "pacman"} && Truthy(mgr))
      && (mgr.None? <==> Lower(distro) !in AptDistros + DnfDistros + PacmanDistros)
      && PlatformManager(Lower(distro)) == mgr
  {
    LowerIdempotent(distro);
  }

  // ---------------------------------------------------------------------
  // install_themes

  /** install_themes of installSystem.py: every entry of the map, in order,
      stopping at the first one that raises. */
  function AllThemesEffect(themes: Dict<ThemeDescriptor>): Effect {
    if themes == [] then Nothing
    else ThemeEffect(themes[0].1).Then(AllThemesEffect(themes[1..]))
  }

  method InstallAllThemes(host: Host, themes: Dict<ThemeDescriptor>) returns (raised: bool)
    modifies host
    ensures host.log == old(host.log) + AllThemesEffect(themes).cmds
    ensures raised == AllThemesEffect(themes).raised
  {
    ghost var whole := AllThemesEffect(themes);
    var i := 0;
    while i < |themes|
      invariant 0 <= i <= |themes|
      invariant host.log + AllThemesEffect(themes[i..]).cmds == old(host.log) + whole.cmds
      invariant AllThemesEffect(themes[i..]).raised == whole.raised
    {
      assert AllThemesEffect(themes[i..]) == ThemeEffect(themes[i].1).Then(AllThemesEffect(themes[i + 1..])) by {
        assert themes[i..][1..] == themes[i + 1..];
      }
      LogThen(host.log, ThemeEffect(themes[i].1), AllThemesEffect(themes[i + 1..]));
      var r := InstallTheme(host, themes[i].1);
      if r {
        return true;
      }
      i := i + 1;
    }
    return false;
  }

  /** The repositories of the entries of a theme map, in map order. */
  function Repos(themes: Dict<ThemeDescriptor>): seq<string>
    requires forall i :: 0 <= i < |themes| ==> Completes(themes[i].1)
  {
    if themes == [] then []
    else
      assert Completes(themes[0].1);
      [themes[0].1.gitRepo.value] + Repos(themes[1..])
  }

  /** install_themes raises exactly when some entry does not complete (it
      lacks a key, or its script cannot be entered); when every entry
      completes, it clones every entry's repository once, in map order, and
      clones nothing else. */
  lemma {:induction false} AllThemesClonesInOrder(themes: Dict<ThemeDescriptor>)
    ensures !AllThemesEffect(themes).raised <==> forall i :: 0 <= i < |themes| ==> Completes(themes[i].1)
    ensures !AllThemesEffect(themes).raised ==> ClonedRepos(AllThemesEffect(themes).cmds) == Repos(themes)
  {
    if themes != [] {
      var first := ThemeEffect(themes[0].1);
      var rest := AllThemesEffect(themes[1..]);
      AllThemesClonesInOrder(themes[1..]);
      ThemeCloneThenScript(themes[0].1);
      assert forall i :: 1 <= i < |themes| ==> themes[1..][i - 1] == themes[i];
      if !first.raised {
        ThemeClonesItsRepo(themes[0].1);
        ClonedReposAppend(first.cmds, rest.cmds);
      }
    }
  }

  /** The first entry that does not complete stops install_themes: the
      entries before it are installed completely, that entry spawns what it
      gets to (its clone, if it has both keys), and no later entry is cloned. */
  lemma {:induction false} AllThemesStopAtIncomplete(themes: Dict<ThemeDescriptor>, k: nat)
    requires k < |themes| && !Completes(themes[k].1)
    requires forall i :: 0 <= i < k ==> Completes(themes[i].1)
    ensures AllThemesEffect(themes)
         == Effect(AllThemesEffect(themes[..k]).cmds + ThemeEffect(themes[k].1).cmds, true)
  {
    ThemeCloneThenScript(themes[0].1);
    if k == 0 {
      assert themes[..0] == [];
    } else {
      assert themes[..k][1..] == themes[1..][..k - 1];
      assert themes[..k][0] == themes[0];
      AllThemesStopAtIncomplete(themes[1..], k - 1);
      ThenLaws(ThemeEffect(themes[0].1), AllThemesEffect(themes[1..][..k - 1]), Effect(ThemeEffect(themes[k].1).cmds, true));
    }
  }

  // ---------------------------------------------------------------------
  // main

  /** What a run of installSystem.py depends on: the repository argument,
      the distribution name (None where `platform.linux_distribution` raises,
      as it does from Python 3.8 on, where it no longer exists) and the
      manifest as `json.load` returns it (None when the file cannot be read
      or parsed). */
  datatype Inputs = Inputs(gitRepo: string, distro: Option<string>, config: Option<Config>)

  /** The body of main's `try` block. The download's exit status is not
      checked. */
  function TryBlockEffect(inp: Inputs): Effect {
    Effect([DownloadCommand(ManifestUrl(inp.gitRepo))], false)
      .Then(
        match inp.config
        case None => Raise
        case Some(config) =>
          match inp.distro
          case None => Raise
          case Some(distro) =>
            (match Requirements(config)
             case None => Raise
             case Some(groups) => GroupsEffect(groups, PlatformManager(distro), None))
            .Then(
              match GnomeThemes(config)
              case None => Raise
              case Some(themes) => AllThemesEffect(themes)))
  }

  /** A whole run: every exception ends in the top-level handler. */
  function Plan(inp: Inputs): Run {
    var body := TryBlockEffect(inp);
    Run(body.cmds, if body.raised then Aborted else Completed)
  }

  method RunInstaller(host: Host, inp: Inputs) returns (outcome: Outcome)
    modifies host
    ensures host.log == old(host.log) + Plan(inp).log
    ensures outcome == Plan(inp).outcome
  {
    var raised := TryBlock(host, inp);
    outcome := if raised then Aborted else Completed;
  }

  method TryBlock(host: Host, inp: Inputs) returns (raised: bool)
    modifies host
    ensures host.log == old(host.log) + TryBlockEffect(inp).cmds
    ensures raised == TryBlockEffect(inp).raised
  {
    host.Spawn(DownloadCommand(ManifestUrl(inp.gitRepo)));
    ghost var afterDownload := host.log;
    if inp.config.None? || inp.distro.None? {
      return true;
    }
    var config := inp.config.value;
    var mgr := PlatformManager(inp.distro.value);
    var requirements := Requirements(config);
    if requirements.None? {
      return true;
    }
    raised := InstallRequirements(host, requirements.value, mgr);
    ghost var groups := GroupsEffect(requirements.value, mgr, None);
    if raised {
      return;
    }
    var themes := GnomeThemes(config);
    if themes.None? {
      return true;
    }
    raised := InstallAllThemes(host, themes.value);
    AppendAssoc(old(host.log), [DownloadCommand(ManifestUrl(inp.gitRepo))], groups.cmds + AllThemesEffect(themes.value).cmds);
    AppendAssoc(afterDownload, groups.cmds, AllThemesEffect(themes.value).cmds);
  }

  // ---------------------------------------------------------------------
  // Properties of whole runs

  /** installSystem.py never exits with status 1, always downloads the
      manifest first, and goes on whatever the download's status. An
      unreadable manifest, a missing distribution function or a manifest
      without requirements aborts right after the download. */
  lemma DownloadIsUnchecked(inp: Inputs)
    ensures Plan(inp).outcome != Exit1
    ensures |Plan(inp).log| >= 1 && Plan(inp).log[0] == DownloadCommand(ManifestUrl(inp.gitRepo))
    ensures inp.config.None? || inp.distro.None? || Requirements(inp.config.value).None? ==>
      Plan(inp) == Run([DownloadCommand(ManifestUrl(inp.gitRepo))], Aborted)
  {
  }

  /** An `all` entry with method "flatpak" or without a method aborts the
      run: the packages before it are installed, and no later package and no
      theme is. */
  lemma FlatpakEntryAbortsRun(inp: Inputs, i: nat, k: nat)
    requires inp.config.Some? && inp.distro.Some? && Requirements(inp.config.value).Some?
    requires var groups := Requirements(inp.config.value).value;
      && i < |groups| && groups[i].0 == "all" && groups[i].1.PackageMap?
      && k < |groups[i].1.entries| && AbortsAllGroup(groups[i].1.entries[k].1)
      && !GroupsEffect(groups[..i], PlatformManager(inp.distro.value), None).raised
      && !AllGroupEffect(groups[i].1.entries[..k], PlatformManager(inp.distro.value)).raised
    ensures var groups := Requirements(inp.config.value).value;
      var mgr := PlatformManager(inp.distro.value);
      Plan(inp) == Run([DownloadCommand(ManifestUrl(inp.gitRepo))]
                       + (GroupsEffect(groups[..i], mgr, None).cmds
                          + AllGroupEffect(groups[i].1.entries[..k], mgr).cmds), Aborted)
  {
    var groups := Requirements(inp.config.value).value;
    GroupsStopAtAbort(groups, PlatformManager(inp.distro.value), None, i, k);
  }
}
