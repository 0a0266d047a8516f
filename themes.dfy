/** Installing one theme, as both installers' `install_themes` do for each
    theme they select (install.py:71-80, installSystem.py:58-66): clone the
    repository, then run each installation script line inside the clone. */
module Themes {
  import opened Wrappers
  import opened PyStr
  import opened Shell
  import opened Manifest
  import opened Packages

  function CloneCommand(gitRepo: string): Command {
    Command(["git", "clone", gitRepo], None)
  }

  /** The directory the script lines run in: `os.path.basename(git_repo)`. */
  function CloneDir(gitRepo: string): Option<string> {
    Some(Basename(gitRepo))
  }

  /** Both keys are read before anything is spawned; a missing one raises
      `KeyError`. The clone always runs; the script then runs in the clone
      directory, or raises at its first line when that directory cannot be
      entered. */
  function ThemeEffect(theme: ThemeDescriptor): (r: Effect)
    ensures r.raised ==> |r.cmds| <= 1
  {
    match theme.gitRepo
    case None => Raise
    case Some(repo) =>
      match theme.installationScript
      case None => Raise
      case Some(lines) => Effect([CloneCommand(repo)], false).Then(ScriptEffect(lines, CloneDir(repo)))
  }

  method InstallTheme(host: Host, theme: ThemeDescriptor) returns (raised: bool)
    modifies host
    ensures host.log == old(host.log) + ThemeEffect(theme).cmds
    ensures raised == ThemeEffect(theme).raised
  {
    match theme.gitRepo
    case None =>
      raised := true;
    case Some(gitRepo) =>
      match theme.installationScript
      case None =>
        raised := true;
      case Some(installationScript) =>
        ghost var log0 := host.log;
        host.Spawn(CloneCommand(gitRepo));
        raised := RunScript(host, installationScript, CloneDir(gitRepo));
        ghost var script := ScriptEffect(installationScript, CloneDir(gitRepo));
        AppendAssoc(log0, [CloneCommand(gitRepo)], script.cmds);
        assert ThemeEffect(theme) == Effect([CloneCommand(gitRepo)] + script.cmds, script.raised);
  }

  /** Whether install_themes gets through a theme: both keys are present,
      and the script is empty or its working directory can be entered. */
  predicate Completes(theme: ThemeDescriptor) {
    && theme.gitRepo.Some? && theme.installationScript.Some?
    && (theme.installationScript.value == [] || !ChdirFails(CloneDir(theme.gitRepo.value)))
  }

  /** A clone command followed by a script: the command, then one `bash -c`
      per line in order. */
  lemma {:induction false} CommandThenScript(c: Command, lines: seq<string>, cwd: Option<string>)
    ensures var cmds := [c] + ScriptCommands(lines, cwd);
      && |cmds| == 1 + |lines| && cmds[0] == c
      && forall k :: 0 <= k < |lines| ==> cmds[k + 1] == BashCommand(lines[k], cwd)
  {
    var s := ScriptCommands(lines, cwd);
    ScriptCommandsOnePerLine(lines, cwd);
    forall k | 0 <= k < |lines|
      ensures ([c] + s)[k + 1] == BashCommand(lines[k], cwd)
    {
      assert ([c] + s)[k + 1] == s[k];
    }
  }

  /** A theme cloned from `<dir>/<name>` is worked in as `name`, so a `.git`
      suffix is kept ("https://host/user/repo.git" gives "repo.git"); one
      cloned from a URL ending in `/` gives "", which cannot be entered. */
  lemma CloneDirOfUrl(dir: string, name: string)
    requires '/' !in name
    ensures CloneDir(dir + "/" + name) == Some(name)
    ensures CloneDir(dir + "/") == Some("") && ChdirFails(CloneDir(dir + "/"))
  {
    BasenameOfChild(dir, name);
  }

  /** A theme whose repository URL ends in `/` and whose script has a line
      is cloned, and then its first script line raises `FileNotFoundError`:
      no script line runs. */
  lemma TrailingSlashThemeRaises(theme: ThemeDescriptor, dir: string)
    requires theme.gitRepo == Some(dir + "/")
    requires theme.installationScript.Some? && theme.installationScript.value != []
    ensures !Completes(theme)
    ensures ThemeEffect(theme) == Effect([CloneCommand(dir + "/")], true)
  {
    CloneDirOfUrl(dir, "");
    assert [CloneCommand(dir + "/")] + [] == [CloneCommand(dir + "/")];
  }

  /** A theme missing a key raises and spawns nothing; one whose script
      cannot be entered spawns only its `git clone` and raises; otherwise
      the theme spawns one `git clone` of its repository and then one
      `bash -c` per script line, in order, each run in the directory named by
      the repository URL's last path segment. */
  lemma ThemeCloneThenScript(theme: ThemeDescriptor)
    ensures var e := ThemeEffect(theme);
      && (e.raised <==> !Completes(theme))
      && (theme.gitRepo.None? || theme.installationScript.None? ==> e == Raise)
      && (theme.gitRepo.Some? && theme.installationScript.Some? && !Completes(theme) ==>
            e == Effect([CloneCommand(theme.gitRepo.value)], true))
      && (!e.raised ==>
            var repo := theme.gitRepo.value;
            var lines := theme.installationScript.value;
            && |e.cmds| == 1 + |lines|
            && e.cmds[0] == CloneCommand(repo)
            && forall k :: 0 <= k < |lines| ==>
                 e.cmds[k + 1] == BashCommand(lines[k], CloneDir(repo)))
  {
    if theme.gitRepo.Some? && theme.installationScript.Some? {
      var repo := theme.gitRepo.value;
      var lines := theme.installationScript.value;
      if Completes(theme) {
        assert ThemeEffect(theme) == Effect([CloneCommand(repo)] + ScriptCommands(lines, CloneDir(repo)), false);
        CommandThenScript(CloneCommand(repo), lines, CloneDir(repo));
      } else {
        assert [CloneCommand(repo)] + [] == [CloneCommand(repo)];
      }
    }
  }

  /** Whether a command is a `git clone <repo>`. */
  predicate IsClone(c: Command) {
    |c.argv| == 3 && c.argv[0] == "git" && c.argv[1] == "clone"
  }

  /** The repositories cloned by a command sequence, in order. */
  function ClonedRepos(cmds: seq<Command>): seq<string> {
    if cmds == [] then []
    else if IsClone(cmds[0]) then [cmds[0].argv[2]] + ClonedRepos(cmds[1..])
    else ClonedRepos(cmds[1..])
  }

  lemma {:induction false} ClonedReposAppend(a: seq<Command>, b: seq<Command>)
    ensures ClonedRepos(a + b) == ClonedRepos(a) + ClonedRepos(b)
  {
    if a == [] {
      assert a + b == b;
    } else {
      assert (a + b)[0] == a[0];
      assert (a + b)[1..] == a[1..] + b;
      ClonedReposAppend(a[1..], b);
    }
  }

  /** Script lines never clone anything. */
  lemma {:induction false} ScriptClonesNothing(lines: seq<string>, cwd: Option<string>)
    ensures ClonedRepos(ScriptCommands(lines, cwd)) == []
  {
    if lines != [] {
      var s := ScriptCommands(lines, cwd);
      assert s == [BashCommand(lines[0], cwd)] + ScriptCommands(lines[1..], cwd);
      assert s[0].argv[0] == "bash";
      assert "bash"[0] != "git"[0];
      assert !IsClone(s[0]);
      assert s[1..] == ScriptCommands(lines[1..], cwd);
      ScriptClonesNothing(lines[1..], cwd);
    }
  }

  /** A single clone command clones its repository. */
  lemma CloneClonesRepo(repo: string)
    ensures ClonedRepos([CloneCommand(repo)]) == [repo]
  {
    assert [CloneCommand(repo)][1..] == [];
    assert IsClone(CloneCommand(repo));
  }

  /** A theme with both keys clones exactly its own repository, whether or
      not its script then runs; one missing a key clones nothing. */
  lemma ThemeClonesItsRepo(theme: ThemeDescriptor)
    ensures theme.gitRepo.Some? && theme.installationScript.Some? ==>
      ClonedRepos(ThemeEffect(theme).cmds) == [theme.gitRepo.value]
    ensures theme.gitRepo.None? || theme.installationScript.None? ==> ClonedRepos(ThemeEffect(theme).cmds) == []
  {
    if theme.gitRepo.Some? && theme.installationScript.Some? {
      var repo := theme.gitRepo.value;
      var lines := theme.installationScript.value;
      var script := ScriptEffect(lines, CloneDir(repo));
      assert ThemeEffect(theme) == Effect([CloneCommand(repo)] + script.cmds, script.raised);
      ClonedReposAppend([CloneCommand(repo)], script.cmds);
      ScriptClonesNothing(lines, CloneDir(repo));
      CloneClonesRepo(repo);
      assert ClonedRepos([]) == [];
    }
  }
}
