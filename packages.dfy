/** Package installation, common to both installers: `install_package`,
    `try_alternative_installation` and the requirements loop of `main`
    (install.py:27-62 and 111-126; installSystem.py:19-54 and 82-97 hold the
    same logic). Each operation is a specification function giving its Effect
    and a method on the Host that spawns exactly those commands. */
module Packages {
  import opened Wrappers
  import opened Shell
  import opened Manifest

  /** Python truthiness of the `package_manager` variable (`None` and "" are false). */
  predicate Truthy(mgr: Option<string>) {
    mgr.Some? && mgr.value != ""
  }

  /** `bash -c <line>`, run in `cwd`. */
  function BashCommand(line: string, cwd: Option<string>): Command {
    Command(["bash", "-c", line], cwd)
  }

  /** `sudo <mgr> <verb> <name>`. */
  function SudoCommand(mgr: string, verb: string, name: string): Command {
    Command(["sudo", mgr, verb, name], None)
  }

  /** The verb install_package gives each supported manager: pacman takes `-S`. */
  function Verb(mgr: string): string {
    if mgr == "pacman" then "-S" else "install"
  }

  /** A script run line by line: exactly one `bash -c` per line, in the
      declared order, all in `cwd`. */
  function ScriptCommands(lines: seq<string>, cwd: Option<string>): seq<Command> {
    if lines == [] then [] else [BashCommand(lines[0], cwd)] + ScriptCommands(lines[1..], cwd)
  }

  /** Running a script spawns exactly one `bash -c` per line, in the declared
      order, none skipped, all in the same working directory. */
  lemma {:induction false} ScriptCommandsOnePerLine(lines: seq<string>, cwd: Option<string>)
    ensures |ScriptCommands(lines, cwd)| == |lines|
    ensures forall k :: 0 <= k < |lines| ==> ScriptCommands(lines, cwd)[k] == BashCommand(lines[k], cwd)
  {
    if lines != [] {
      ScriptCommandsOnePerLine(lines[1..], cwd);
    }
  }

  /** A script run line by line in `cwd`. When `cwd` cannot be entered,
      the first `subprocess.run` raises before its child starts, so nothing
      is spawned; an empty script never reaches it. */
  function ScriptEffect(lines: seq<string>, cwd: Option<string>): Effect {
    if lines != [] && ChdirFails(cwd) then Raise else Effect(ScriptCommands(lines, cwd), false)
  }

  method RunScript(host: Host, lines: seq<string>, cwd: Option<string>) returns (raised: bool)
    modifies host
    ensures host.log == old(host.log) + ScriptEffect(lines, cwd).cmds
    ensures raised == ScriptEffect(lines, cwd).raised
  {
    var i := 0;
    while i < |lines|
      invariant 0 <= i <= |lines|
      invariant ChdirFails(cwd) ==> i == 0
      invariant i == 0 ==> host.log == old(host.log)
      invariant host.log + ScriptCommands(lines[i..], cwd) == old(host.log) + ScriptCommands(lines, cwd)
    {
      if ChdirFails(cwd) {
        return true;    // FileNotFoundError from the child's chdir
      }
      assert lines[i..][1..] == lines[i + 1..];
      assert ScriptCommands(lines[i..], cwd) == [BashCommand(lines[i], cwd)] + ScriptCommands(lines[i + 1..], cwd);
      host.Spawn(BashCommand(lines[i], cwd));
      i := i + 1;
    }
    return false;
  }

  /** `package_info.get("alternate_installation_methods", {})`. */
  function Alternates(info: PackageInfo): Dict<string> {
    info.alternates.GetOr([])
  }

  /** try_alternative_installation: snap when a snap alternate is declared,
      otherwise flatpak when a flatpak alternate is declared, otherwise nothing. */
  function FallbackCommands(info: PackageInfo): (r: seq<Command>)
    ensures |r| <= 1
    ensures r == [] <==> !HasKey(Alternates(info), "snap") && !HasKey(Alternates(info), "flatpak")
  {
    match Lookup(Alternates(info), "snap")
    case Some(snap) => [SudoCommand("snap", "install", snap)]
    case None =>
      match Lookup(Alternates(info), "flatpak")
      case Some(flatpak) => [Command(["flatpak", "install", flatpak], None)]
      case None => []
  }

  method TryAlternativeInstallation(host: Host, info: PackageInfo)
    modifies host
    ensures host.log == old(host.log) + FallbackCommands(info)
  {
    var alternates := Alternates(info);
    if HasKey(alternates, "snap") {
      host.Spawn(SudoCommand("snap", "install", Lookup(alternates, "snap").value));
      return;
    }
    if HasKey(alternates, "flatpak") {
      host.Spawn(Command(["flatpak", "install", Lookup(alternates, "flatpak").value], None));
      return;
    }
  }

  /** The fallback tries snap first: a declared snap alternate is installed
      with `sudo snap install`, and flatpak is used only when no snap
      alternate is declared. */
  lemma FallbackPrefersSnap(info: PackageInfo)
    ensures HasKey(Alternates(info), "snap") ==>
      FallbackCommands(info) == [SudoCommand("snap", "install", Lookup(Alternates(info), "snap").value)]
    ensures !HasKey(Alternates(info), "snap") && HasKey(Alternates(info), "flatpak") ==>
      FallbackCommands(info) == [Command(["flatpak", "install", Lookup(Alternates(info), "flatpak").value], None)]
    ensures forall c :: c in FallbackCommands(info) && c.argv[0] == "flatpak" ==> !HasKey(Alternates(info), "snap")
  {
  }

  /** install_package. A missing "package-name" or "script" key raises
      `KeyError` before anything is spawned. */
  function InstallPackageEffect(info: PackageInfo, mgr: Option<string>): Effect {
    match info.installationMethod
    case None => Nothing
    case Some(how) =>
      if how == "package-manager" then
        match info.packageName
        case None => Raise
        case Some(name) =>
          if mgr == Some("apt") || mgr == Some("dnf") || mgr == Some("pacman") then
            Effect([SudoCommand(mgr.value, Verb(mgr.value), name)], false)
          else
            Effect(FallbackCommands(info), false)
      else if how == "script" then
        match info.script
        case None => Raise
        case Some(lines) => ScriptEffect(lines, None)
      else Nothing
  }

  method InstallPackage(host: Host, info: PackageInfo, mgr: Option<string>) returns (raised: bool)
    modifies host
    ensures host.log == old(host.log) + InstallPackageEffect(info, mgr).cmds
    ensures raised == InstallPackageEffect(info, mgr).raised
  {
    raised := false;
    if info.installationMethod.Some? {
      if info.installationMethod.value == "package-manager" {
        if info.packageName.None? {
          return true;
        }
        var name := info.packageName.value;
        if mgr == Some("apt") {
          host.Spawn(SudoCommand("apt", "install", name));
        } else if mgr == Some("dnf") {
          host.Spawn(SudoCommand("dnf", "install", name));
        } else if mgr == Some("pacman") {
          host.Spawn(SudoCommand("pacman", "-S", name));
        } else {
          TryAlternativeInstallation(host, info);
        }
      } else if info.installationMethod.value == "script" {
        if info.script.None? {
          return true;
        }
        raised := RunScript(host, info.script.value, None);
      }
    }
  }

  /** A "package-manager" entry: apt and dnf get `sudo <mgr> install <name>`,
      pacman gets `sudo pacman -S <name>`, and any other manager, absent
      included, goes to the fallback, which spawns at most one command. */
  lemma PackageManagerInstall(info: PackageInfo, mgr: Option<string>)
    requires info.installationMethod == Some("package-manager") && info.packageName.Some?
    ensures var e := InstallPackageEffect(info, mgr);
      && !e.raised
      && (mgr == Some("apt") || mgr == Some("dnf") ==>
            e.cmds == [Command(["sudo", mgr.value, "install", info.packageName.value], None)])
      && (mgr == Some("pacman") ==>
            e.cmds == [Command(["sudo", "pacman", "-S", info.packageName.value], None)])
      && (mgr !in {Some("apt"), Some("dnf"), Some("pacman")} ==>
            e.cmds == FallbackCommands(info) && |e.cmds| <= 1)
  {
  }

  /** A "script" entry spawns one `bash -c` per line, in order, none skipped,
      with no working directory; an entry with no or another method spawns
      nothing; install_package raises exactly when the key its method needs
      is missing. */
  lemma InstallPackageScriptsAndErrors(info: PackageInfo, mgr: Option<string>)
    ensures var e := InstallPackageEffect(info, mgr);
      && (e.raised <==> (info.installationMethod == Some("package-manager") && info.packageName.None?)
                        || (info.installationMethod == Some("script") && info.script.None?))
      && (info.installationMethod == Some("script") && info.script.Some? ==>
            |e.cmds| == |info.script.value|
            && forall k :: 0 <= k < |e.cmds| ==> e.cmds[k].argv == ["bash", "-c", info.script.value[k]]
                                                 && e.cmds[k].cwd == None)
      && (info.installationMethod.None? || info.installationMethod.value !in {"package-manager", "script"} ==>
            e == Nothing)
  {
    if info.installationMethod == Some("script") && info.script.Some? {
      ScriptCommandsOnePerLine(info.script.value, None);
    }
  }

  // ---------------------------------------------------------------------
  // The requirements loop of main

  /** An `all` entry that main cannot hand to install_package: one without
      "installation_method" (`KeyError`) or one whose method is "flatpak"
      (the undefined `install_flatpak` raises `NameError`). */
  predicate AbortsAllGroup(info: PackageInfo) {
    info.installationMethod.None? || info.installationMethod.value == "flatpak"
  }

  /** One iteration of the loop over the `all` group. */
  function AllEntryEffect(info: PackageInfo, mgr: Option<string>): Effect {
    if AbortsAllGroup(info) then Raise else InstallPackageEffect(info, mgr)
  }

  /** The loop over the `all` group's items, stopping at the first exception. */
  function AllGroupEffect(entries: Dict<PackageInfo>, mgr: Option<string>): Effect {
    if entries == [] then Nothing
    else AllEntryEffect(entries[0].1, mgr).Then(AllGroupEffect(entries[1..], mgr))
  }

  /** What the name `package_info` is bound to after the loop over the `all`
      group: its last entry, or what it was bound to before when the group is empty. */
  function LastInfo(entries: Dict<PackageInfo>, bound: Option<PackageInfo>): Option<PackageInfo> {
    if entries == [] then bound else Some(entries[|entries| - 1].1)
  }

  /** One name of a group other than `all`: `sudo <mgr> install <name>` when a
      manager is known, otherwise the fallback applied to whatever
      `package_info` is still bound to, and `NameError` when it is unbound. */
  function NameEffect(name: string, mgr: Option<string>, bound: Option<PackageInfo>): Effect {
    if Truthy(mgr) then Effect([SudoCommand(mgr.value, "install", name)], false)
    else if bound.None? then Raise
    else Effect(FallbackCommands(bound.value), false)
  }

  function NamesEffect(names: seq<string>, mgr: Option<string>, bound: Option<PackageInfo>): Effect {
    if names == [] then Nothing
    else NameEffect(names[0], mgr, bound).Then(NamesEffect(names[1..], mgr, bound))
  }

  /** `for package_name in package_data`: a list yields its items, a dict its keys. */
  function GroupNames(g: Group): seq<string> {
    match g
    case NameList(names) => names
    case PackageMap(entries) => Keys(entries)
  }

  /** One iteration of the loop over `requirements.items()`, with `bound`
      the current binding of `package_info`. An `all` group that is a list
      raises (a list has no `items()`). */
  function GroupEffect(groupName: string, group: Group, mgr: Option<string>, bound: Option<PackageInfo>): Effect {
    if groupName == "all" then
      match group
      case NameList(_) => Raise
      case PackageMap(entries) => AllGroupEffect(entries, mgr)
    else
      NamesEffect(GroupNames(group), mgr, bound)
  }

  /** The binding of `package_info` after one iteration that did not raise. */
  function BoundAfter(groupName: string, group: Group, bound: Option<PackageInfo>): Option<PackageInfo> {
    if groupName == "all" && group.PackageMap? then LastInfo(group.entries, bound) else bound
  }

  /** The loop over `requirements.items()`, stopping at the first exception. */
  function GroupsEffect(groups: Dict<Group>, mgr: Option<string>, bound: Option<PackageInfo>): Effect
    decreases |groups|
  {
    if groups == [] then Nothing
    else
      GroupEffect(groups[0].0, groups[0].1, mgr, bound)
        .Then(GroupsEffect(groups[1..], mgr, BoundAfter(groups[0].0, groups[0].1, bound)))
  }

  method InstallAllGroup(host: Host, entries: Dict<PackageInfo>, mgr: Option<string>, bound: Option<PackageInfo>)
    returns (raised: bool, boundAfter: Option<PackageInfo>)
    modifies host
    ensures host.log == old(host.log) + AllGroupEffect(entries, mgr).cmds
    ensures raised == AllGroupEffect(entries, mgr).raised
    ensures !raised ==> boundAfter == LastInfo(entries, bound)
  {
    ghost var whole := AllGroupEffect(entries, mgr);
    boundAfter := bound;
    var i := 0;
    while i < |entries|
      invariant 0 <= i <= |entries|
      invariant host.log + AllGroupEffect(entries[i..], mgr).cmds == old(host.log) + whole.cmds
      invariant AllGroupEffect(entries[i..], mgr).raised == whole.raised
      invariant boundAfter == LastInfo(entries[..i], bound)
    {
      assert AllGroupEffect(entries[i..], mgr) == AllEntryEffect(entries[i].1, mgr).Then(AllGroupEffect(entries[i + 1..], mgr)) by {
        assert entries[i..][1..] == entries[i + 1..];
      }
      LogThen(host.log, AllEntryEffect(entries[i].1, mgr), AllGroupEffect(entries[i + 1..], mgr));
      var info := entries[i].1;
      boundAfter := Some(info);
      var r;
      if info.installationMethod.None? || info.installationMethod.value == "flatpak" {
        r := true;
      } else {
        r := InstallPackage(host, info, mgr);
      }
      if r {
        return true, boundAfter;
      }
      i := i + 1;
    }
    return false, boundAfter;
  }

  method InstallNamedGroup(host: Host, names: seq<string>, mgr: Option<string>, bound: Option<PackageInfo>)
    returns (raised: bool)
    modifies host
    ensures host.log == old(host.log) + NamesEffect(names, mgr, bound).cmds
    ensures raised == NamesEffect(names, mgr, bound).raised
  {
    ghost var whole := NamesEffect(names, mgr, bound);
    var i := 0;
    while i < |names|
      invariant 0 <= i <= |names|
      invariant host.log + NamesEffect(names[i..], mgr, bound).cmds == old(host.log) + whole.cmds
      invariant NamesEffect(names[i..], mgr, bound).raised == whole.raised
    {
      assert NamesEffect(names[i..], mgr, bound) == NameEffect(names[i], mgr, bound).Then(NamesEffect(names[i + 1..], mgr, bound)) by {
        assert names[i..][1..] == names[i + 1..];
      }
      LogThen(host.log, NameEffect(names[i], mgr, bound), NamesEffect(names[i + 1..], mgr, bound));
      var r := InstallName(host, names[i], mgr, bound);
      if r {
        return true;
      }
      i := i + 1;
    }
    return false;
  }

  /** One iteration of the loop over a group other than `all`. */
  method InstallName(host: Host, name: string, mgr: Option<string>, bound: Option<PackageInfo>) returns (raised: bool)
    modifies host
    ensures host.log == old(host.log) + NameEffect(name, mgr, bound).cmds
    ensures raised == NameEffect(name, mgr, bound).raised
  {
    raised := false;
    if Truthy(mgr) {
      host.Spawn(SudoCommand(mgr.value, "install", name));
    } else {
      if bound.None? {
        return true;    // NameError: package_info is unbound
      }
      TryAlternativeInstallation(host, bound.value);
    }
  }

  /** One iteration of the requirements loop. */
  method InstallGroup(host: Host, groupName: string, group: Group, mgr: Option<string>, bound: Option<PackageInfo>)
    returns (raised: bool, boundAfter: Option<PackageInfo>)
    modifies host
    ensures host.log == old(host.log) + GroupEffect(groupName, group, mgr, bound).cmds
    ensures raised == GroupEffect(groupName, group, mgr, bound).raised
    ensures !raised ==> boundAfter == BoundAfter(groupName, group, bound)
  {
    boundAfter := bound;
    if groupName == "all" {
      match group
      case NameList(_) =>
        raised := true;    // a list has no items()
      case PackageMap(entries) =>
        raised, boundAfter := InstallAllGroup(host, entries, mgr, bound);
    } else {
      raised := InstallNamedGroup(host, GroupNames(group), mgr, bound);
    }
  }

  /** The requirements loop; `package_info` starts out unbound. */
  method InstallRequirements(host: Host, groups: Dict<Group>, mgr: Option<string>) returns (raised: bool)
    modifies host
    ensures host.log == old(host.log) + GroupsEffect(groups, mgr, None).cmds
    ensures raised == GroupsEffect(groups, mgr, None).raised
  {
    ghost var whole := GroupsEffect(groups, mgr, None);
    var bound: Option<PackageInfo> := None;
    var i := 0;
    while i < |groups|
      invariant 0 <= i <= |groups|
      invariant host.log + GroupsEffect(groups[i..], mgr, bound).cmds == old(host.log) + whole.cmds
      invariant GroupsEffect(groups[i..], mgr, bound).raised == whole.raised
    {
      GroupsSuffixUnfold(groups, mgr, bound, i);
      LogThen(host.log, GroupEffect(groups[i].0, groups[i].1, mgr, bound),
              GroupsEffect(groups[i + 1..], mgr, BoundAfter(groups[i].0, groups[i].1, bound)));
      var r;
      r, bound := InstallGroup(host, groups[i].0, groups[i].1, mgr, bound);
      if r {
        return true;
      }
      i := i + 1;
    }
    return false;
  }

  /** Unfolding GroupsEffect once on a non-empty suffix of `groups`. */
  lemma GroupsSuffixUnfold(groups: Dict<Group>, mgr: Option<string>, bound: Option<PackageInfo>, i: nat)
    requires i < |groups|
    ensures GroupsEffect(groups[i..], mgr, bound)
         == GroupEffect(groups[i].0, groups[i].1, mgr, bound)
              .Then(GroupsEffect(groups[i + 1..], mgr, BoundAfter(groups[i].0, groups[i].1, bound)))
  {
    assert groups[i..][0] == groups[i];
    assert groups[i..][1..] == groups[i + 1..];
  }

  // ---------------------------------------------------------------------
  // Properties of the requirements loop

  /** An `all` entry without "installation_method" or with method "flatpak"
      ends the loop over the group: the commands spawned are those of the
      entries before it, and nothing of the entries after it. */
  lemma {:induction false} AllGroupStopsAtAbort(entries: Dict<PackageInfo>, mgr: Option<string>, k: nat)
    requires k < |entries| && AbortsAllGroup(entries[k].1)
    requires !AllGroupEffect(entries[..k], mgr).raised
    ensures AllGroupEffect(entries, mgr) == Effect(AllGroupEffect(entries[..k], mgr).cmds, true)
  {
    if k > 0 {
      assert entries[..k][1..] == entries[1..][..k - 1];
      AllGroupStopsAtAbort(entries[1..], mgr, k - 1);
    }
  }

  /** The same at the level of the whole requirements loop: once an `all`
      entry aborts, no later entry and no later group spawns anything. */
  lemma {:induction false} GroupsStopAtAbort(groups: Dict<Group>, mgr: Option<string>, bound: Option<PackageInfo>, i: nat, k: nat)
    requires i < |groups| && groups[i].0 == "all" && groups[i].1.PackageMap?
    requires k < |groups[i].1.entries| && AbortsAllGroup(groups[i].1.entries[k].1)
    requires !GroupsEffect(groups[..i], mgr, bound).raised
    requires !AllGroupEffect(groups[i].1.entries[..k], mgr).raised
    ensures GroupsEffect(groups, mgr, bound)
         == Effect(GroupsEffect(groups[..i], mgr, bound).cmds + AllGroupEffect(groups[i].1.entries[..k], mgr).cmds, true)
  {
    var stopped := AllGroupEffect(groups[i].1.entries[..k], mgr).cmds;
    if i == 0 {
      AllGroupStopsAtAbort(groups[i].1.entries, mgr, k);
    } else {
      var next := BoundAfter(groups[0].0, groups[0].1, bound);
      var first := GroupEffect(groups[0].0, groups[0].1, mgr, bound);
      GroupsPrefixUnfold(groups, mgr, bound, i);
      GroupsStopAtAbort(groups[1..], mgr, next, i - 1, k);
      var before := GroupsEffect(groups[1..][..i - 1], mgr, next);
      assert Effect(before.cmds + stopped, true) == before.Then(Effect(stopped, true));
      ThenLaws(first, before, Effect(stopped, true));
    }
  }

  /** Unfolding GroupsEffect once on a non-empty prefix of `groups`. */
  lemma GroupsPrefixUnfold(groups: Dict<Group>, mgr: Option<string>, bound: Option<PackageInfo>, i: nat)
    requires 0 < i <= |groups|
    ensures GroupsEffect(groups[..i], mgr, bound)
         == GroupEffect(groups[0].0, groups[0].1, mgr, bound)
              .Then(GroupsEffect(groups[1..][..i - 1], mgr, BoundAfter(groups[0].0, groups[0].1, bound)))
  {
    assert groups[..i][0] == groups[0];
    assert groups[..i][1..] == groups[1..][..i - 1];
  }

  /** With a manager, a group other than `all` spawns `sudo <mgr> install <name>`
      for each name, in order, with the literal verb `install` even for pacman. */
  lemma {:induction false} NamedGroupWithManager(names: seq<string>, mgr: Option<string>, bound: Option<PackageInfo>)
    requires Truthy(mgr)
    ensures !NamesEffect(names, mgr, bound).raised
    ensures |NamesEffect(names, mgr, bound).cmds| == |names|
    ensures forall k :: 0 <= k < |names| ==>
      NamesEffect(names, mgr, bound).cmds[k] == Command(["sudo", mgr.value, "install", names[k]], None)
  {
    if names != [] {
      NamedGroupWithManager(names[1..], mgr, bound);
    }
  }

  /** `n` copies of `cmds`, one after the other. */
  function Repeat(cmds: seq<Command>, n: nat): seq<Command> {
    if n == 0 then [] else cmds + Repeat(cmds, n - 1)
  }

  /** Without a manager, each name of a group other than `all` triggers the
      fallback of the entry `package_info` is still bound to: the listed
      names themselves are never installed. */
  lemma {:induction false} NamedGroupReusesBoundInfo(names: seq<string>, mgr: Option<string>, info: PackageInfo)
    requires !Truthy(mgr)
    ensures NamesEffect(names, mgr, Some(info)) == Effect(Repeat(FallbackCommands(info), |names|), false)
  {
    if names != [] {
      NamedGroupReusesBoundInfo(names[1..], mgr, info);
    }
  }

  // ---------------------------------------------------------------------
  // The leftover binding of `package_info`

  /** The binding of `package_info` once the loop has gone through `groups`,
      starting from `bound`, as the requirements loop updates it. */
  function BoundAt(groups: Dict<Group>, bound: Option<PackageInfo>): Option<PackageInfo>
    decreases |groups|
  {
    if groups == [] then bound else BoundAt(groups[1..], BoundAfter(groups[0].0, groups[0].1, bound))
  }

  /** Whether a group rebinds `package_info`: an `all` map with an entry. */
  predicate Rebinds(g: (string, Group)) {
    g.0 == "all" && g.1.PackageMap? && g.1.entries != []
  }

  /** The entry the inner loop of a rebinding group leaves `package_info` bound to. */
  function LastEntry(g: (string, Group)): PackageInfo
    requires Rebinds(g)
  {
    g.1.entries[|g.1.entries| - 1].1
  }

  lemma {:induction false} BoundAtSnoc(groups: Dict<Group>, g: (string, Group), bound: Option<PackageInfo>)
    ensures BoundAt(groups + [g], bound) == BoundAfter(g.0, g.1, BoundAt(groups, bound))
    decreases |groups|
  {
    if groups == [] {
      assert [g][1..] == [];
    } else {
      assert (groups + [g])[0] == groups[0];
      assert (groups + [g])[1..] == groups[1..] + [g];
      BoundAtSnoc(groups[1..], g, BoundAfter(groups[0].0, groups[0].1, bound));
    }
  }

  /** Going through groups none of which is a non-empty `all` map leaves
      `package_info` as it was. */
  lemma {:induction false} BoundAtKeeps(groups: Dict<Group>, bound: Option<PackageInfo>)
    requires forall j :: 0 <= j < |groups| ==> !Rebinds(groups[j])
    ensures BoundAt(groups, bound) == bound
    decreases |groups|
  {
    if groups != [] {
      assert !Rebinds(groups[0]);
      assert forall j :: 0 <= j < |groups| - 1 ==> groups[1..][j] == groups[j + 1];
      BoundAtKeeps(groups[1..], bound);
    }
  }

  /** `package_info` is bound to the last entry of the last non-empty `all`
      map gone through. */
  lemma {:induction false} BoundAtIsLastAllEntry(groups: Dict<Group>, bound: Option<PackageInfo>, j: nat)
    requires j < |groups| && Rebinds(groups[j])
    requires forall j' :: j < j' < |groups| ==> !Rebinds(groups[j'])
    ensures BoundAt(groups, bound) == Some(LastEntry(groups[j]))
  {
    var upTo := groups[..j + 1];
    var rest := groups[j + 1..];
    assert groups == upTo + rest;
    assert upTo == groups[..j] + [groups[j]];
    BoundAtSnoc(groups[..j], groups[j], bound);
    BoundAtAppend(upTo, rest, bound);
    assert forall k :: 0 <= k < |rest| ==> rest[k] == groups[j + 1 + k];
    BoundAtKeeps(rest, BoundAt(upTo, bound));
  }

  lemma {:induction false} BoundAtAppend(groups: Dict<Group>, more: Dict<Group>, bound: Option<PackageInfo>)
    ensures BoundAt(groups + more, bound) == BoundAt(more, BoundAt(groups, bound))
    decreases |groups|
  {
    if groups == [] {
      assert groups + more == more;
    } else {
      assert (groups + more)[0] == groups[0];
      assert (groups + more)[1..] == groups[1..] + more;
      BoundAtAppend(groups[1..], more, BoundAfter(groups[0].0, groups[0].1, bound));
    }
  }

  /** The requirements loop split after its first `i` groups: the rest runs
      with `package_info` bound as those groups left it. */
  lemma {:induction false} GroupsSplit(groups: Dict<Group>, mgr: Option<string>, bound: Option<PackageInfo>, i: nat)
    requires i <= |groups|
    ensures GroupsEffect(groups, mgr, bound)
         == GroupsEffect(groups[..i], mgr, bound).Then(GroupsEffect(groups[i..], mgr, BoundAt(groups[..i], bound)))
    decreases i
  {
    if i == 0 {
      assert groups[..0] == [];
      assert groups[0..] == groups;
      ThenLaws(GroupsEffect(groups, mgr, bound), Nothing, Nothing);
    } else {
      var first := GroupEffect(groups[0].0, groups[0].1, mgr, bound);
      var next := BoundAfter(groups[0].0, groups[0].1, bound);
      GroupsPrefixUnfold(groups, mgr, bound, i);
      assert groups[..i][1..] == groups[1..][..i - 1];
      assert BoundAt(groups[..i], bound) == BoundAt(groups[1..][..i - 1], next);
      assert groups[1..][i - 1..] == groups[i..];
      GroupsSplit(groups[1..], mgr, next, i - 1);
      ThenLaws(first, GroupsEffect(groups[1..][..i - 1], mgr, next),
               GroupsEffect(groups[i..], mgr, BoundAt(groups[..i], bound)));
    }
  }

  /** Without a manager, a non-empty group other than `all` reached before
      any `all` map with an entry raises `NameError` (`package_info` is
      unbound): nothing is spawned after the commands of the groups before
      it, and the loop stops there. */
  lemma UnboundNameAborts(groups: Dict<Group>, mgr: Option<string>, i: nat)
    requires i < |groups| && groups[i].0 != "all" && GroupNames(groups[i].1) != [] && !Truthy(mgr)
    requires forall j :: 0 <= j < i ==> !Rebinds(groups[j])
    ensures GroupsEffect(groups, mgr, None) == Effect(GroupsEffect(groups[..i], mgr, None).cmds, true)
  {
    var before := GroupsEffect(groups[..i], mgr, None);
    assert forall j :: 0 <= j < i ==> groups[..i][j] == groups[j];
    BoundAtKeeps(groups[..i], None);
    GroupsSplit(groups, mgr, None, i);
    GroupsSuffixUnfold(groups, mgr, None, i);
    var names := GroupNames(groups[i].1);
    assert NamesEffect(names, mgr, None) == Raise.Then(NamesEffect(names[1..], mgr, None));
    assert before.cmds + [] == before.cmds;
  }

  /** Without a manager, a group other than `all` repeats, once per name,
      the fallback of the last entry of the last non-empty `all` map before
      it: the listed names themselves are never installed. */
  lemma GroupReusesLastAllEntry(groups: Dict<Group>, mgr: Option<string>, i: nat, j: nat)
    requires j < i < |groups| && Rebinds(groups[j]) && (forall j' :: j < j' < i ==> !Rebinds(groups[j']))
    requires groups[i].0 != "all" && !Truthy(mgr)
    requires !GroupsEffect(groups[..i], mgr, None).raised
    ensures GroupsEffect(groups[..i + 1], mgr, None)
         == Effect(GroupsEffect(groups[..i], mgr, None).cmds
                   + Repeat(FallbackCommands(LastEntry(groups[j])), |GroupNames(groups[i].1)|), false)
  {
    var upTo := groups[..i + 1];
    assert upTo[..i] == groups[..i];
    assert upTo[i..] == [groups[i]];
    assert forall k :: 0 <= k < i ==> groups[..i][k] == groups[k];
    BoundAtIsLastAllEntry(groups[..i], None, j);
    var info := LastEntry(groups[j]);
    GroupsSplit(upTo, mgr, None, i);
    var names := GroupNames(groups[i].1);
    NamedGroupReusesBoundInfo(names, mgr, info);
    assert [groups[i]][1..] == [];
    ThenLaws(NamesEffect(names, mgr, Some(info)), Nothing, Nothing);
  }
}
