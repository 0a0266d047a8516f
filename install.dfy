/** install.py: the installer that finds the distribution with `lsb_release`,
    makes sure `curl` is present, downloads the manifest with a checked
    `curl`, installs the requirements and then the one theme selected by the
    desktop session. */
module InstallPy {
  import opened Wrappers
  import opened PyStr
  import opened Shell
  import opened Manifest
  import opened Distro
  import opened Packages
  import opened Themes

  // ---------------------------------------------------------------------
  // get_package_manager

  /** `lsb_release -i -r`, run with `check=True`. */
  const LsbRelease := Command(["lsb_release", "-i", "-r"], None)

  /** The lowercased distribution id read from the `lsb_release -i -r`
      output: the text after the first `:` of the first line (up to a
      second one), stripped. Python raises `IndexError` when the output has
      fewer than two lines or either of its first two lines has no `:`;
      get_package_manager turns that into None. */
  function ParseDistroName(stdout: string): Option<string> {
    var lines := Split(Strip(stdout), '\n');
    var first := Split(lines[0], ':');
    if |first| < 2 then None
    else if |lines| < 2 then None
    else if |Split(lines[1], ':')| < 2 then None
    else Some(Lower(Strip(first[1])))
  }

  /** get_package_manager: `lsb` is the standard output of `lsb_release`,
      None when the command could not be run or exited non-zero. */
  function DetectManager(lsb: Option<string>): Option<string> {
    match lsb
    case None => None
    case Some(stdout) =>
      match ParseDistroName(stdout)
      case None => None
      case Some(name) => ManagerFor(name)
  }

  method GetPackageManager(host: Host, lsb: Option<string>) returns (mgr: Option<string>)
    modifies host
    ensures host.log == old(host.log) + [LsbRelease]
    ensures mgr == DetectManager(lsb)
  {
    host.Spawn(LsbRelease);
    mgr := DetectManager(lsb);
  }

  /** The parse succeeds exactly when the stripped output has at least two
      lines and each of the first two holds a `:`; the name it yields holds
      neither a newline nor an upper-case letter. */
  lemma ParseDistroNameSucceeds(stdout: string)
    ensures var lines := Split(Strip(stdout), '\n');
      ParseDistroName(stdout).Some? <==> |lines| >= 2 && ':' in lines[0] && ':' in lines[1]
    ensures ParseDistroName(stdout).Some? ==>
      var name := ParseDistroName(stdout).value;
      '\n' !in name && ':' !in name && forall k :: 0 <= k < |name| ==> !IsUpper(name[k])
  {
    var lines := Split(Strip(stdout), '\n');
    SplitSingle(lines[0], ':');
    if |lines| >= 2 {
      SplitSingle(lines[1], ':');
    }
    if ParseDistroName(stdout).Some? {
      SplitPieces(Strip(stdout), '\n');
      FieldIsClean(lines[0]);
    }
  }

  /** The value after the first `:` of a line, stripped and lowercased,
      holds no line break, no `:` and no upper-case letter. */
  lemma FieldIsClean(line: string)
    requires '\n' !in line && |Split(line, ':')| >= 2
    ensures var name := Lower(Strip(Split(line, ':')[1]));
      '\n' !in name && ':' !in name && forall k :: 0 <= k < |name| ==> !IsUpper(name[k])
  {
    var field := Split(line, ':')[1];
    SplitPieces(line, ':');
    SplitAddsNothing(line, ':', '\n');
    StripAddsNothing(field, '\n');
    StripAddsNothing(field, ':');
    LowerChars(Strip(field));
  }

  /** Output without a line break (after stripping) has no second line, so
      no distribution is found. */
  lemma ParseNeedsTwoLines(stdout: string)
    requires '\n' !in Strip(stdout)
    ensures ParseDistroName(stdout) == None
  {
    SplitOfPiece(Strip(stdout), '\n');
  }

  /** Text made of a first line, a line break and a second line holding a
      `:` (at position `n` of `heading`) keeps both lines through `strip` and
      `split('\n')`, whatever follows the heading. */
  lemma TwoLines(line0: string, heading: string, n: nat, rest: string)
    requires line0 != [] && !IsSpace(line0[0]) && '\n' !in line0
    requires n < |heading| && heading[n] == ':' && '\n' !in heading
    ensures var lines := Split(Strip(line0 + "\n" + heading + rest), '\n');
      |lines| >= 2 && lines[0] == line0 && ':' in lines[1]
  {
    var s := line0 + "\n" + heading + rest;
    assert LStrip(s) == s;
    var k := |line0| + 1 + n;
    assert s[k] == ':';
    RStripKeeps(s, k);
    var r := RStrip(s);
    var kept := heading[..n + 1];
    var after := r[k + 1..];
    assert r == line0 + ['\n'] + (kept + after) by {
      assert r[..k + 1] == s[..k + 1];
      assert s[..k + 1] == line0 + ['\n'] + kept;
    }
    assert '\n' !in kept;
    SplitPieceThen(line0, kept + after, '\n');
    SplitFirstPiece(kept, after, '\n');
    assert Split(r, '\n')[1] == kept + Split(after, '\n')[0];
    assert Split(r, '\n')[1][n] == ':';
  }

  /** A line `key:value` with no other `:` splits into the key and the value. */
  lemma FieldLine(key: string, value: string)
    requires ':' !in key && ':' !in value
    ensures Split(key + ":" + value, ':') == [key, value]
  {
    SplitPieceThen(key, value, ':');
    SplitOfPiece(value, ':');
  }

  /** The output of `lsb_release -i -r` has the form
      "Distributor ID:\t<id>\nRelease:\t<version>\n"; for it the parsed
      name is the id, stripped and lowercased, whatever the version. */
  lemma ParseLsbReleaseOutput(id: string, version: string)
    requires ':' !in id && '\n' !in id
    ensures ParseDistroName("Distributor ID:\t" + id + "\n" + "Release:\t" + version + "\n")
         == Some(Lower(Strip(id)))
  {
    var line0 := "Distributor ID" + ":" + ("\t" + id);
    assert line0 == "Distributor ID:\t" + id;
    assert '\n' !in line0 by {
      assert forall k :: 0 <= k < |line0| ==> line0[k] != '\n';
    }
    TwoLines(line0, "Release:\t", 7, version + "\n");
    assert line0 + "\n" + "Release:\t" + (version + "\n")
        == "Distributor ID:\t" + id + "\n" + "Release:\t" + version + "\n";
    var lines := Split(Strip(line0 + "\n" + "Release:\t" + (version + "\n")), '\n');
    SplitSingle(lines[1], ':');
    FieldLine("Distributor ID", "\t" + id);
    assert LStrip("\t" + id) == LStrip(id) by {
      assert ("\t" + id)[1..] == id;
    }
  }

  /** get_package_manager never raises: a failed command or an unexpected
      output gives None, and any name outside the table gives None too. */
  lemma DetectManagerTable(lsb: Option<string>)
    ensures var mgr := DetectManager(lsb);
      && (mgr.Some? ==> mgr.value in {"apt", "dnf", "pacman"} && Truthy(mgr))
      && (lsb.None? ==> mgr.None?)
      && (lsb.Some? && ParseDistroName(lsb.value).None? ==> mgr.None?)
      && (lsb.Some? && ParseDistroName(lsb.value).Some? ==> mgr == ManagerFor(ParseDistroName(lsb.value).value))
  {
  }

  /** On real `lsb_release -i -r` output the manager is the table entry of
      the id, stripped and lowercased (so "Ubuntu" selects apt and "Arch"
      pacman); the version line is never consulted. */
  lemma DetectFromLsbRelease(id: string, version: string)
    requires ':' !in id && '\n' !in id
    ensures DetectManager(Some("Distributor ID:\t" + id + "\n" + "Release:\t" + version + "\n"))
         == ManagerFor(Lower(Strip(id)))
  {
    ParseLsbReleaseOutput(id, version);
  }

  // ---------------------------------------------------------------------
  // install_themes

  /** install_themes of install.py: the theme under the lowercased desktop
      session name, if the session is set and the map has it. */
  function ThemesForSession(themes: Dict<ThemeDescriptor>, session: string): Effect {
    var desktopEnv := Lower(session);
    if desktopEnv == "" then Nothing
    else
      match Lookup(themes, desktopEnv)
      case None => Nothing
      case Some(theme) => ThemeEffect(theme)
  }

  method InstallThemes(host: Host, themes: Dict<ThemeDescriptor>, session: string) returns (raised: bool)
    modifies host
    ensures host.log == old(host.log) + ThemesForSession(themes, session).cmds
    ensures raised == ThemesForSession(themes, session).raised
  {
    var desktopEnv := Lower(session);
    if desktopEnv == "" {
      return false;
    }
    if HasKey(themes, desktopEnv) {
      raised := InstallTheme(host, Lookup(themes, desktopEnv).value);
    } else {
      raised := false;
    }
  }

  /** An unset session, or one no entry is named after, installs no theme;
      otherwise the theme installed is the first entry whose name is the
      lowercased session. */
  lemma ThemeSelection(themes: Dict<ThemeDescriptor>, session: string)
    ensures session == "" ==> ThemesForSession(themes, session) == Nothing
    ensures (forall j :: 0 <= j < |themes| ==> themes[j].0 != Lower(session)) ==>
              ThemesForSession(themes, session) == Nothing
    ensures forall i :: 0 <= i < |themes| && session != "" && themes[i].0 == Lower(session)
                        && (forall j :: 0 <= j < i ==> themes[j].0 != Lower(session)) ==>
              ThemesForSession(themes, session) == ThemeEffect(themes[i].1)
  {
    KeyIndexFindsFirst(themes, Lower(session));
    var idx := KeyIndex(themes, Lower(session));
    if idx.Some? {
      forall i | 0 <= i < |themes| && themes[i].0 == Lower(session)
                 && (forall j :: 0 <= j < i ==> themes[j].0 != Lower(session))
        ensures i == idx.value
      {
        assert !(i < idx.value) && !(idx.value < i);
      }
    }
    if session != "" {
      assert Lower(session) != "" by {
        assert |Lower(session)| == |session|;
      }
    }
  }

  // ---------------------------------------------------------------------
  // check_and_install_curl

  const WhichCurl := Command(["which", "curl"], None)

  /** check_and_install_curl, `curlPresent` being whether `which curl`
      succeeded. `raised` here is the `SystemExit` of `exit(1)`. */
  function CurlCheckEffect(curlPresent: bool, lsb: Option<string>): Effect {
    if curlPresent then Effect([WhichCurl], false)
    else
      var mgr := DetectManager(lsb);
      if Truthy(mgr) then Effect([WhichCurl, LsbRelease, SudoCommand(mgr.value, "install", "curl")], false)
      else Effect([WhichCurl, LsbRelease], true)
  }

  method CheckAndInstallCurl(host: Host, curlPresent: bool, lsb: Option<string>) returns (exits: bool)
    modifies host
    ensures host.log == old(host.log) + CurlCheckEffect(curlPresent, lsb).cmds
    ensures exits == CurlCheckEffect(curlPresent, lsb).raised
  {
    host.Spawn(WhichCurl);
    if curlPresent {
      return false;
    }
    var mgr := GetPackageManager(host, lsb);
    if Truthy(mgr) {
      host.Spawn(SudoCommand(mgr.value, "install", "curl"));
      exits := false;
    } else {
      exits := true;
    }
  }

  // ---------------------------------------------------------------------
  // main

  /** What a run of install.py depends on besides the manifest's text:
      the repository argument, whether `which curl` succeeds, the output of
      `lsb_release` (None when it fails), whether the checked `curl`
      download succeeds, the manifest as `json.load` returns it (None when
      the file cannot be read or parsed) and `DESKTOP_SESSION` ("" when unset). */
  datatype Inputs = Inputs(
    gitRepo: string,
    curlPresent: bool,
    lsbOutput: Option<string>,
    downloadOk: bool,
    config: Option<Config>,
    desktopSession: string)

  /** The body of main's `try` block, from the download to the themes. */
  function TryBlockEffect(inp: Inputs): Effect {
    Effect([DownloadCommand(ManifestUrl(inp.gitRepo))], !inp.downloadOk)
      .Then(
        match inp.config
        case None => Raise
        case Some(config) =>
          Effect([LsbRelease], false)
            .Then(
              match Requirements(config)
              case None => Raise
              case Some(groups) => GroupsEffect(groups, DetectManager(inp.lsbOutput), None))
            .Then(
              match GnomeThemes(config)
              case None => Raise
              case Some(themes) => ThemesForSession(themes, inp.desktopSession)))
  }

  /** A whole run: the curl check outside the `try`, then the `try` block,
      whose exceptions the top-level handler turns into an abort. */
  function Plan(inp: Inputs): Run {
    var curl := CurlCheckEffect(inp.curlPresent, inp.lsbOutput);
    if curl.raised then Run(curl.cmds, Exit1)
    else
      var body := TryBlockEffect(inp);
      Run(curl.cmds + body.cmds, if body.raised then Aborted else Completed)
  }

  method RunInstaller(host: Host, inp: Inputs) returns (outcome: Outcome)
    modifies host
    ensures host.log == old(host.log) + Plan(inp).log
    ensures outcome == Plan(inp).outcome
  {
    var exits := CheckAndInstallCurl(host, inp.curlPresent, inp.lsbOutput);
    if exits {
      return Exit1;
    }
    ghost var afterCurl := host.log;
    var raised := TryBlock(host, inp);
    AppendAssoc(old(host.log), CurlCheckEffect(inp.curlPresent, inp.lsbOutput).cmds, TryBlockEffect(inp).cmds);
    outcome := if raised then Aborted else Completed;
  }

  method TryBlock(host: Host, inp: Inputs) returns (raised: bool)
    modifies host
    ensures host.log == old(host.log) + TryBlockEffect(inp).cmds
    ensures raised == TryBlockEffect(inp).raised
  {
    host.Spawn(DownloadCommand(ManifestUrl(inp.gitRepo)));
    if !inp.downloadOk {
      return true;    // CalledProcessError from check=True
    }
    ghost var afterDownload := host.log;
    if inp.config.None? {
      return true;
    }
    var config := inp.config.value;
    var mgr := GetPackageManager(host, inp.lsbOutput);
    ghost var afterLsb := host.log;
    var requirements := Requirements(config);
    if requirements.None? {
      AppendAssoc(old(host.log), [DownloadCommand(ManifestUrl(inp.gitRepo))], [LsbRelease]);
      return true;
    }
    raised := InstallRequirements(host, requirements.value, mgr);
    ghost var groups := GroupsEffect(requirements.value, mgr, None);
    ghost var afterGroups := host.log;
    if raised {
      AppendAssoc(old(host.log), [DownloadCommand(ManifestUrl(inp.gitRepo))], [LsbRelease] + groups.cmds);
      AppendAssoc(afterDownload, [LsbRelease], groups.cmds);
      return;
    }
    var themes := GnomeThemes(config);
    if themes.None? {
      AppendAssoc(old(host.log), [DownloadCommand(ManifestUrl(inp.gitRepo))], [LsbRelease] + groups.cmds);
      AppendAssoc(afterDownload, [LsbRelease], groups.cmds);
      return true;
    }
    raised := InstallThemes(host, themes.value, inp.desktopSession);
    ghost var chosen := ThemesForSession(themes.value, inp.desktopSession);
    AppendAssoc(afterDownload, [LsbRelease], groups.cmds);
    AppendAssoc(afterDownload, [LsbRelease] + groups.cmds, chosen.cmds);
    AppendAssoc(old(host.log), [DownloadCommand(ManifestUrl(inp.gitRepo))], [LsbRelease] + groups.cmds + chosen.cmds);
  }

  // ---------------------------------------------------------------------
  // Properties of whole runs

  /** The run ends with `exit(1)` exactly when `which curl` fails and no
      manager is found; it has then spawned only `which curl` and
      `lsb_release`, so no download and no installation happens. */
  lemma ExitWithoutCurlOrManager(inp: Inputs)
    ensures Plan(inp).outcome == Exit1 <==> !inp.curlPresent && DetectManager(inp.lsbOutput).None?
    ensures Plan(inp).outcome == Exit1 ==> Plan(inp).log == [WhichCurl, LsbRelease]
  {
    DetectManagerTable(inp.lsbOutput);
  }

  /** A missing `curl` is installed with `sudo <mgr> install curl`, with the
      literal verb `install` even when the manager is pacman, before anything
      else is downloaded. */
  lemma CurlInstalledWithLiteralVerb(inp: Inputs)
    requires !inp.curlPresent && DetectManager(inp.lsbOutput).Some?
    ensures var mgr := DetectManager(inp.lsbOutput).value;
      && Plan(inp).outcome != Exit1
      && |Plan(inp).log| > 3
      && Plan(inp).log[..4] == [WhichCurl, LsbRelease, Command(["sudo", mgr, "install", "curl"], None),
                                DownloadCommand(ManifestUrl(inp.gitRepo))]
  {
    DetectManagerTable(inp.lsbOutput);
    var curl := CurlCheckEffect(inp.curlPresent, inp.lsbOutput);
    var body := TryBlockEffect(inp);
    assert body.cmds[0] == DownloadCommand(ManifestUrl(inp.gitRepo));
    assert (curl.cmds + body.cmds)[..4] == curl.cmds + [body.cmds[0]];
  }

  /** Unless the curl check exits, the first command after it is the download
      of the manifest; when the download fails the run aborts right there. */
  lemma DownloadFollowsCurlCheck(inp: Inputs)
    requires Plan(inp).outcome != Exit1
    ensures var curl := CurlCheckEffect(inp.curlPresent, inp.lsbOutput).cmds;
      && |Plan(inp).log| > |curl|
      && Plan(inp).log[..|curl|] == curl
      && Plan(inp).log[|curl|] == DownloadCommand(ManifestUrl(inp.gitRepo))
      && (!inp.downloadOk ==> Plan(inp) == Run(curl + [DownloadCommand(ManifestUrl(inp.gitRepo))], Aborted))
  {
    var curl := CurlCheckEffect(inp.curlPresent, inp.lsbOutput).cmds;
    var body := TryBlockEffect(inp);
    assert body.cmds[0] == DownloadCommand(ManifestUrl(inp.gitRepo));
    assert (curl + body.cmds)[..|curl|] == curl;
  }

  /** The commands of a run that gets past the download and reads a manifest
      with requirements, up to the end of the requirements loop. */
  function UpToRequirements(inp: Inputs, groups: Dict<Group>): seq<Command> {
    CurlCheckEffect(inp.curlPresent, inp.lsbOutput).cmds
      + [DownloadCommand(ManifestUrl(inp.gitRepo)), LsbRelease]
      + GroupsEffect(groups, DetectManager(inp.lsbOutput), None).cmds
  }

  /** An exception in the requirements loop (an `all` entry with method
      "flatpak" or without a method, say) aborts the run: nothing after the
      loop, in particular no theme, is installed. A manifest without
      requirements aborts before any package command. */
  lemma RequirementsAbortSkipsThemes(inp: Inputs)
    requires !CurlCheckEffect(inp.curlPresent, inp.lsbOutput).raised && inp.downloadOk && inp.config.Some?
    ensures Requirements(inp.config.value).None? ==>
      Plan(inp) == Run(CurlCheckEffect(inp.curlPresent, inp.lsbOutput).cmds
                       + [DownloadCommand(ManifestUrl(inp.gitRepo)), LsbRelease], Aborted)
    ensures Requirements(inp.config.value).Some?
            && GroupsEffect(Requirements(inp.config.value).value, DetectManager(inp.lsbOutput), None).raised ==>
      Plan(inp) == Run(UpToRequirements(inp, Requirements(inp.config.value).value), Aborted)
  {
    var curl := CurlCheckEffect(inp.curlPresent, inp.lsbOutput).cmds;
    var download := DownloadCommand(ManifestUrl(inp.gitRepo));
    assert curl + [download] + [LsbRelease] == curl + [download, LsbRelease];
    if Requirements(inp.config.value).Some? {
      var groups := GroupsEffect(Requirements(inp.config.value).value, DetectManager(inp.lsbOutput), None);
      AppendAssoc(curl, [download], [LsbRelease] + groups.cmds);
      AppendAssoc(curl + [download], [LsbRelease], groups.cmds);
    }
  }

  /** A run that gets through the requirements loop installs the session's
      theme after it, and completes unless the manifest has no gnome themes or
      the theme lacks a key. */
  lemma ThemesAfterRequirements(inp: Inputs)
    requires !CurlCheckEffect(inp.curlPresent, inp.lsbOutput).raised && inp.downloadOk && inp.config.Some?
    requires Requirements(inp.config.value).Some?
    requires !GroupsEffect(Requirements(inp.config.value).value, DetectManager(inp.lsbOutput), None).raised
    ensures var upTo := UpToRequirements(inp, Requirements(inp.config.value).value);
      match GnomeThemes(inp.config.value)
      case None => Plan(inp) == Run(upTo, Aborted)
      case Some(themes) =>
        var chosen := ThemesForSession(themes, inp.desktopSession);
        Plan(inp) == Run(upTo + chosen.cmds, if chosen.raised then Aborted else Completed)
  {
    var curl := CurlCheckEffect(inp.curlPresent, inp.lsbOutput).cmds;
    var download := DownloadCommand(ManifestUrl(inp.gitRepo));
    var groups := GroupsEffect(Requirements(inp.config.value).value, DetectManager(inp.lsbOutput), None);
    AppendAssoc(curl, [download], [LsbRelease] + groups.cmds);
    AppendAssoc(curl + [download], [LsbRelease], groups.cmds);
    assert curl + [download] + [LsbRelease] == curl + [download, LsbRelease];
    if GnomeThemes(inp.config.value).Some? {
      var chosen := ThemesForSession(GnomeThemes(inp.config.value).value, inp.desktopSession);
      AppendAssoc(curl, [download], [LsbRelease] + groups.cmds + chosen.cmds);
      AppendAssoc(curl + [download], [LsbRelease] + groups.cmds, chosen.cmds);
      AppendAssoc(curl + [download], [LsbRelease], groups.cmds);
    }
  }

  /** An `all` entry with method "flatpak" or without a method aborts the
      run: the packages before it are installed, and no later package and no
      theme is. */
  lemma FlatpakEntryAbortsRun(inp: Inputs, i: nat, k: nat)
    requires !CurlCheckEffect(inp.curlPresent, inp.lsbOutput).raised && inp.downloadOk
    requires inp.config.Some? && Requirements(inp.config.value).Some?
    requires var groups := Requirements(inp.config.value).value;
      && i < |groups| && groups[i].0 == "all" && groups[i].1.PackageMap?
      && k < |groups[i].1.entries| && AbortsAllGroup(groups[i].1.entries[k].1)
      && !GroupsEffect(groups[..i], DetectManager(inp.lsbOutput), None).raised
      && !AllGroupEffect(groups[i].1.entries[..k], DetectManager(inp.lsbOutput)).raised
    ensures var groups := Requirements(inp.config.value).value;
      var mgr := DetectManager(inp.lsbOutput);
      Plan(inp) == Run(CurlCheckEffect(inp.curlPresent, inp.lsbOutput).cmds
                       + [DownloadCommand(ManifestUrl(inp.gitRepo)), LsbRelease]
                       + (GroupsEffect(groups[..i], mgr, None).cmds
                          + AllGroupEffect(groups[i].1.entries[..k], mgr).cmds), Aborted)
  {
    var groups := Requirements(inp.config.value).value;
    GroupsStopAtAbort(groups, DetectManager(inp.lsbOutput), None, i, k);
    RequirementsAbortSkipsThemes(inp);
  }
}
