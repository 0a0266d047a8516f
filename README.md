# Install planner of LinuxSystemConfigurator

The repository ships two near-duplicate bootstrap installers, `install.py` and
`installSystem.py`. Each reads a repository URL, downloads the manifest
`systemConfig.json` from it, installs the packages listed under
`packages.requirements` and then installs gnome themes. Almost everything they
do is start external processes. This project models the planner underneath:
given the inputs of a run, which commands are started, in which order, in
which working directory, and how the run ends.

The inputs of a run are:
- the repository URL;
- for `install.py`: whether `which curl` succeeds, the output of
  `lsb_release -i -r` (or its failure), whether the checked download succeeds,
  and `DESKTOP_SESSION`;
- for `installSystem.py`: the distribution name reported by
  `platform.linux_distribution`;
- the manifest as `json.load` returns it.

## How it is modelled

- Every `subprocess.run` appends a `Command(argv, cwd)` to the `log` of a
  `Host` object (`Shell.Host.Spawn`).
- Each installer function is a module-level method that takes the `Host`
  and may modify it. Each method is proved equal to a specification
  function. Most of these return an `Effect`: the commands spawned and
  whether an exception follows. The others return what the method returns
  besides its commands: `DetectManager` gives the manager
  (`GetPackageManager`), `FallbackCommands` gives a command list
  (`TryAlternativeInstallation`), and `Plan` gives a whole `Run`
  (`RunInstaller` of each script). `Effect.Then` sequences two pieces of code
  and stops at the first exception.
- A run ends as `Run(log, outcome)` with outcome `Completed`, `Aborted` or
  `Exit1`. `Aborted` means an exception reached the top-level
  `except Exception`. `Exit1` is `exit(1)` in `check_and_install_curl`.
- A JSON object is a `Dict`: the sequence of its key/value pairs in insertion
  order, which is the order Python iterates it. A key the code indexes but the
  manifest lacks is `None`, and indexing it raises `KeyError`.

Modules:
- `PyStr`: the string operations used (`lower`, `strip`, `split`, `rstrip`,
  `os.path.basename`).
- `Manifest`: the manifest and the manifest URL.
- `Distro`: the distribution table.
- `Packages`: `install_package`, `try_alternative_installation` and the
  requirements loop of `main`. The two scripts hold the same code for these,
  so it is modelled once.
- `Themes`: the installation of one theme.
- `InstallPy` and `InstallSystem`: the rest of each script.
- `Agreement`: how the two scripts relate.

The model reproduces these behaviours of the code as written:
- An `all` entry whose method is `"flatpak"` calls `install_flatpak`, which
  is not defined. The resulting `NameError` aborts the run, so no later
  package and no theme is installed. An `all` entry without
  `installation_method` aborts the same way (`KeyError`).
- In a group other than `all`, without a package manager, the code hands
  `try_alternative_installation` whatever `package_info` is still bound to
  from the last `all` loop. If nothing is bound, the run aborts with
  `NameError`. The model carries that binding as `Option` loop state.
- Groups other than `all` always use the literal verb `install`, even for
  pacman. The curl installation does too.
- `os.path.basename` keeps a `.git` suffix, so a theme cloned from
  `…/repo.git` has its script run in `repo.git`.
- A theme URL ending in `/` has the basename `""`. `subprocess.run` with
  `cwd=""` raises `FileNotFoundError`, because `chdir("")` always fails. Such a
  theme with at least one script line is cloned, and then its first script
  line aborts the run. With an empty script the theme completes.
- A manifest without `packages`, `requirements` or `themes` raises
  `KeyError`, because the code indexes these keys directly. The run then
  aborts.
- `install.py` reads three exit statuses: those of `which curl`, of
  `lsb_release` (`check=True`) and of the manifest download (`check=True`).
  `installSystem.py` reads none.

## Model

| member | source | states |
|---|---|---|
| `Shell.Host.Spawn` | install.py:45 | each `subprocess.run` appends exactly its command to the log and changes nothing else |
| `Shell.Effect.Then` | install.py:103-132 | run one piece of code and then the next, unless the first raised |
| `Shell.ThenLaws` | install.py:103-132 | sequencing has `Nothing` as its unit and is associative, and nothing after an exception runs |
| `Shell.LogThen` | install.py:103-132 | the log after two pieces of code is the log after the first followed by the commands of the second, unless the first raised |
| `Shell.ChdirFails` | install.py:80 | `subprocess.run(..., cwd="")` raises before its child starts |
| `PyStr.Lower` | install.py:11 | lowercasing keeps the length |
| `PyStr.LowerChars` | install.py:11 | lowercasing maps each character on its own |
| `PyStr.LowerIdempotent` | installSystem.py:9 | lowercasing twice is lowercasing once |
| `PyStr.IsUpper` | install.py:11 | the characters `lower()` changes: the ASCII capitals |
| `PyStr.LowerChar` | install.py:11 | one character lowercased: a capital becomes the small letter at the same place in the alphabet, anything else stays, and the result is never a capital |
| `PyStr.LStrip` | install.py:10 | `lstrip` never lengthens |
| `PyStr.LStripDropsSpace` | install.py:10 | `lstrip` leaves a suffix, drops only white space and stops at a non-space character |
| `PyStr.RStrip` | install.py:10 | `rstrip` never lengthens |
| `PyStr.RStripDropsSpace` | install.py:10 | `rstrip` leaves a prefix, drops only white space and stops at a non-space character |
| `PyStr.RStripKeeps` | install.py:10 | `rstrip` keeps everything up to any non-space character |
| `PyStr.IsSpace` | install.py:10-11 | the characters `strip()` drops: those `str.isspace` accepts, ASCII and Unicode |
| `PyStr.Strip` | install.py:10-11 | `strip` is `rstrip` of `lstrip`, with Python's white-space set |
| `PyStr.StripAddsNothing` | install.py:11 | `strip` adds no character to the string |
| `PyStr.RStripChar` | install.py:102 | `rstrip('/')` never lengthens |
| `PyStr.RStripCharDrops` | install.py:102 | `rstrip('/')` leaves a prefix followed only by slashes that does not itself end in a slash |
| `PyStr.Split` | install.py:10-12 | `split` yields at least one piece |
| `PyStr.SplitPieces` | install.py:10-12 | no piece holds the separator, and joining the pieces with it gives the string back |
| `PyStr.Join` | install.py:10-12 | the separator put back between the pieces: the inverse of `split` |
| `PyStr.SplitJoin` | install.py:10-12 | splitting joined separator-free pieces gives the pieces back |
| `PyStr.SplitOfPiece` | install.py:11-12 | a string without the separator splits into itself alone |
| `PyStr.SplitPieceThen` | install.py:10-12 | splitting `p + sep + t` gives `p` and then the pieces of `t` |
| `PyStr.SplitSingle` | install.py:11-12 | `split` yields one piece exactly when the separator is absent, so `[1]` raises `IndexError` exactly then |
| `PyStr.SplitFirstPiece` | install.py:10-12 | the first piece of `p + t` starts with a separator-free `p` |
| `PyStr.SplitAddsNothing` | install.py:10-11 | no piece of a split holds a character the string does not hold |
| `PyStr.Basename` | install.py:80 | `os.path.basename`: the text after the last `/` |
| `PyStr.BasenameIsLastSegment` | install.py:80 | the basename is a suffix without `/`, either the whole path or preceded by `/` |
| `PyStr.BasenameAfterLastSlash` | install.py:80 | the basename is the text after the last `/` |
| `PyStr.BasenameOfChild` | install.py:80 | the basename of `dir/name` is `name`, suffixes such as `.git` included |
| `Manifest.KeyIndex` | install.py:70-71 | a found key index lies inside the dict |
| `Manifest.KeyIndexFindsFirst` | install.py:70-71 | lookup finds the first entry with the key, and a miss means no entry has it |
| `Manifest.HasKey` | install.py:28 | `key in d`: some entry has the key |
| `Manifest.Lookup` | install.py:71 | `d[key]`: the value of the first entry with the key, and None where it raises `KeyError` |
| `Manifest.Keys` | install.py:120 | iterating a dict yields its keys in order |
| `Manifest.Requirements` | install.py:112 | `config["packages"]["requirements"]` exists exactly when both keys are present |
| `Manifest.GnomeThemes` | install.py:129 | `config["packages"]["themes"]["gnome"]` exists exactly when all three keys are present |
| `Manifest.ManifestUrl` | install.py:102 | the URL is the repository URL with all trailing slashes removed, then `/raw/main/systemConfig.json`; `//raw` occurs only when nothing is left of the repository URL |
| `Manifest.ManifestUrlTrailingSlash` | installSystem.py:73 | a trailing slash on the repository URL does not change the manifest URL |
| `Manifest.DownloadCommand` | install.py:105 | `curl -o systemConfig.json <url>`, the manifest download |
| `Distro.ManagerFor` | install.py:17-25 | ubuntu and debian give apt, fedora, centos and rhel give dnf, arch gives pacman, and any other name gives None |
| `Packages.Truthy` | install.py:122 | `if package_manager:`: a manager is used only when it is not None and not empty |
| `Packages.BashCommand` | install.py:45 | `bash -c <line>`, in the given working directory |
| `Packages.SudoCommand` | install.py:33 | `sudo <mgr> <verb> <name>`, with no working directory |
| `Packages.Verb` | install.py:32-37 | install_package gives pacman the verb `-S` and apt and dnf `install` |
| `Packages.ScriptCommands` | install.py:43-45 | the commands of a script: one `bash -c` per line, in order |
| `Packages.ScriptCommandsOnePerLine` | install.py:42-45 | a script spawns one `bash -c` per line, in order, none skipped |
| `Packages.ScriptEffect` | install.py:43-45 | a script is one `bash -c` per line in `cwd`; when `cwd` cannot be entered, a non-empty script raises before spawning anything |
| `Packages.RunScript` | install.py:43-45 | the loop over script lines spawns exactly `ScriptEffect`: every line in order, or, when the directory cannot be entered, nothing before the exception |
| `Packages.FallbackCommands` | install.py:47-62 | the fallback spawns at most one command, and none exactly when no snap or flatpak alternate is declared |
| `Packages.TryAlternativeInstallation` | install.py:47-62 | try_alternative_installation spawns exactly the fallback's commands |
| `Packages.FallbackPrefersSnap` | installSystem.py:39-54 | a snap alternate wins; flatpak is used only without one |
| `Packages.Alternates` | install.py:48 | `package_info.get("alternate_installation_methods", {})`: the declared alternates, or none |
| `Packages.InstallPackageEffect` | install.py:27-45 | install_package: a missing or unknown method does nothing, "package-manager" installs with apt, dnf or pacman or falls back, "script" runs the script; a missing "package-name" or "script" raises |
| `Packages.InstallPackage` | install.py:27-45 | install_package spawns exactly the commands of `InstallPackageEffect` and raises exactly when it does |
| `Packages.PackageManagerInstall` | install.py:29-40 | apt and dnf get `sudo <mgr> install <name>`, pacman gets `sudo pacman -S <name>`, any other manager, absent included, goes to the fallback |
| `Packages.InstallPackageScriptsAndErrors` | installSystem.py:19-37 | a script entry spawns one `bash -c` per line with no working directory; a missing or unknown method spawns nothing; it raises exactly when the key its method needs is missing |
| `Packages.AbortsAllGroup` | install.py:115-116 | an `all` entry without a method raises `KeyError`, and one with method "flatpak" `NameError` |
| `Packages.AllEntryEffect` | install.py:115-118 | one iteration of the `all` loop: an entry without a method or with method "flatpak" raises, any other goes to install_package |
| `Packages.AllGroupEffect` | install.py:114-118 | the loop over the `all` map: each entry aborts or goes to install_package, in order, until the first exception |
| `Packages.LastInfo` | install.py:114 | after the `all` loop, `package_info` is bound to its last entry, or keeps its binding when the map is empty |
| `Packages.NameEffect` | install.py:121-126 | one name of another group: `sudo <mgr> install <name>` with a manager, else the fallback of the bound `package_info`, else `NameError` |
| `Packages.NamesEffect` | install.py:120-126 | the loop over the names of another group, until the first exception |
| `Packages.GroupNames` | install.py:120 | `for package_name in package_data`: a list yields its items, a map its keys |
| `Packages.GroupEffect` | install.py:112-126 | one group: an `all` map runs its entries, an `all` list raises, any other group runs its names |
| `Packages.BoundAfter` | install.py:113-114 | the binding of `package_info` after one group: an `all` map rebinds it, any other group leaves it |
| `Packages.GroupsEffect` | install.py:112-126 | the requirements loop, threading the binding of `package_info` from group to group, until the first exception |
| `Packages.InstallAllGroup` | install.py:113-118 | the loop over the `all` group spawns exactly `AllGroupEffect`'s commands and leaves `package_info` bound to the last entry |
| `Packages.InstallName` | install.py:121-126 | one name of another group spawns `sudo <mgr> install <name>` or the fallback of the bound `package_info`, and raises when nothing is bound |
| `Packages.InstallNamedGroup` | install.py:119-126 | the loop over a group other than `all` spawns exactly `NamesEffect`'s commands |
| `Packages.InstallGroup` | install.py:112-126 | one iteration of the requirements loop, where an `all` group that is a list raises |
| `Packages.InstallRequirements` | install.py:112-126 | the requirements loop spawns exactly `GroupsEffect`'s commands, with `package_info` unbound at the start, and stops at the first exception |
| `Packages.GroupsSuffixUnfold` | installSystem.py:83-97 | the requirements loop on a suffix of the groups is one group followed by the rest |
| `Packages.GroupsPrefixUnfold` | installSystem.py:83-97 | the same on a prefix of the groups |
| `Packages.AllGroupStopsAtAbort` | install.py:114-116 | a flatpak entry, or one without a method, ends the `all` loop after the entries before it |
| `Packages.GroupsStopAtAbort` | installSystem.py:83-89 | such an entry ends the whole requirements loop: no later entry and no later group spawns anything |
| `Packages.NamedGroupWithManager` | install.py:122-123 | with a manager, every name of a group other than `all` gets `sudo <mgr> install <name>`, in order, with the literal verb `install` |
| `Packages.NamedGroupReusesBoundInfo` | install.py:124-126 | without a manager, each name repeats the fallback of the still-bound `package_info`; the names themselves are never installed |
| `Packages.Repeat` | install.py:120-126 | the same commands once per name of a group |
| `Packages.BoundAt` | install.py:113-114 | the binding of `package_info` after the loop has gone through some groups |
| `Packages.Rebinds` | install.py:113-114 | the groups that rebind `package_info`: `all` maps with an entry |
| `Packages.LastEntry` | install.py:114 | the entry a rebinding group leaves `package_info` bound to: its last |
| `Packages.BoundAtSnoc` | install.py:112-114 | going through one more group updates the binding as that group does |
| `Packages.BoundAtAppend` | install.py:112-114 | going through two runs of groups composes their updates of the binding |
| `Packages.BoundAtKeeps` | install.py:113-114 | groups none of which is a non-empty `all` map leave `package_info` as it was |
| `Packages.BoundAtIsLastAllEntry` | install.py:113-114 | `package_info` is bound to the last entry of the last non-empty `all` map gone through |
| `Packages.GroupsSplit` | installSystem.py:83-97 | the requirements loop splits after any number of groups, the rest running with `package_info` bound as those groups left it |
| `Packages.UnboundNameAborts` | installSystem.py:91-97 | without a manager, a non-empty group other than `all` reached before any non-empty `all` map raises `NameError`, right after the commands of the groups before it |
| `Packages.GroupReusesLastAllEntry` | install.py:113-126 | without a manager, a group other than `all` repeats, once per name, the fallback of the last entry of the last non-empty `all` map before it |
| `Themes.InstallTheme` | install.py:71-80 | installing one theme spawns exactly `ThemeEffect`'s commands and raises exactly when it does |
| `Themes.CloneCommand` | install.py:76 | `git clone <repo>`, with no working directory |
| `Themes.CloneDir` | install.py:80 | the working directory of the script lines: `os.path.basename(git_repo)` |
| `Themes.ThemeEffect` | install.py:71-80 | one theme: both keys are read first, then `git clone <repo>`, then the script in the clone directory; a raised theme has spawned at most the clone |
| `Themes.Completes` | install.py:72-80 | a theme completes when it has both keys and its script is empty or can be entered |
| `Themes.CommandThenScript` | installSystem.py:62-66 | a clone followed by a script spawns the clone, then one `bash -c` per line in order |
| `Themes.ThemeCloneThenScript` | install.py:71-80 | a theme missing a key raises and spawns nothing; one whose script cannot be entered spawns only `git clone <repo>` and raises; any other spawns the clone, then each script line in the directory named by the repository's basename, and completes |
| `Themes.CloneDirOfUrl` | installSystem.py:66 | a repository `dir/name` is worked in as `name`, `.git` included; a URL ending in `/` gives `""`, which `subprocess.run` cannot enter |
| `Themes.TrailingSlashThemeRaises` | installSystem.py:62-66 | a theme whose URL ends in `/` and whose script has a line is cloned and then raises, running no script line |
| `Themes.ScriptClonesNothing` | install.py:79-80 | script lines clone nothing |
| `Themes.IsClone` | install.py:76 | a command is a `git clone <repo>` |
| `Themes.ClonedRepos` | install.py:76 | the repositories a command sequence clones, in order |
| `Themes.ClonedReposAppend` | install.py:76 | the clones of two command sequences run one after the other are the clones of each, in order |
| `Themes.CloneClonesRepo` | install.py:76 | the clone command clones its repository |
| `Themes.ThemeClonesItsRepo` | install.py:71-80 | a theme with both keys clones exactly its own repository, whether or not its script then runs; one missing a key clones nothing |
| `InstallPy.GetPackageManager` | install.py:7-25 | get_package_manager spawns `lsb_release -i -r` and returns the manager detected from its output |
| `InstallPy.ParseDistroName` | install.py:9-15 | the distribution name parsed from `lsb_release` output, or None where the code catches an exception |
| `InstallPy.DetectManager` | install.py:7-25 | get_package_manager of `install.py`: None when `lsb_release` fails or its output does not parse, otherwise the table entry of the name |
| `InstallPy.ParseDistroNameSucceeds` | install.py:9-15 | parsing succeeds exactly when the stripped output has two lines that both hold a `:`; the name holds no newline, no `:` and no upper-case letter |
| `InstallPy.FieldIsClean` | install.py:11 | the stripped, lowercased value after the first `:` of a line holds no line break, no `:` and no upper-case letter |
| `InstallPy.ParseNeedsTwoLines` | install.py:10-13 | output with a single line gives no distribution instead of raising |
| `InstallPy.TwoLines` | install.py:10 | stripping and splitting keep a first line and a second line holding a `:` |
| `InstallPy.FieldLine` | install.py:11 | `key:value` splits into the key and the value |
| `InstallPy.ParseLsbReleaseOutput` | install.py:9-11 | on `lsb_release -i -r` output the name is the distributor id, stripped and lowercased, whatever the release |
| `InstallPy.DetectManagerTable` | install.py:7-25 | get_package_manager never raises: a failed command or unexpected output gives None, otherwise the table decides |
| `InstallPy.DetectFromLsbRelease` | install.py:9-25 | on real output the manager is the table entry of the stripped, lowercased id |
| `InstallPy.ThemesForSession` | install.py:64-82 | install_themes of `install.py`: nothing for an empty session or one without an entry, otherwise the first entry named after the lowercased session |
| `InstallPy.InstallThemes` | install.py:64-82 | install_themes spawns exactly `ThemesForSession`'s commands |
| `InstallPy.ThemeSelection` | install.py:65-82 | an empty session, or one no entry is named after, installs nothing; otherwise the first entry named after the lowercased session is installed |
| `InstallPy.CurlCheckEffect` | install.py:84-92 | `which curl`; when it fails, `lsb_release` and then `sudo <mgr> install curl`, or `exit(1)` without a manager |
| `InstallPy.CheckAndInstallCurl` | install.py:84-92 | check_and_install_curl spawns `which curl`, and when that fails `lsb_release` and then `sudo <mgr> install curl` or `exit(1)` |
| `InstallPy.TryBlockEffect` | install.py:103-129 | main's `try` block: the checked download, the manifest, `lsb_release`, the requirements loop and the session's theme, each stopping the rest when it raises |
| `InstallPy.Plan` | install.py:94-132 | a run of `install.py`: the curl check, which may exit with status 1, then the `try` block, whose exception becomes an abort |
| `InstallPy.TryBlock` | install.py:103-129 | main's `try` block spawns exactly `TryBlockEffect`'s commands |
| `InstallPy.RunInstaller` | install.py:94-132 | a run spawns exactly the commands of `Plan` and ends with its outcome |
| `InstallPy.ExitWithoutCurlOrManager` | install.py:84-92 | the run exits with status 1 exactly when curl is missing and no manager is found, having spawned only `which curl` and `lsb_release` |
| `InstallPy.CurlInstalledWithLiteralVerb` | install.py:86-89 | a missing curl is installed with `sudo <mgr> install curl`, literally `install` even for pacman, right before the download |
| `InstallPy.DownloadFollowsCurlCheck` | install.py:100-105 | the download of the manifest URL comes right after the curl check, and a failed download aborts right there |
| `InstallPy.RequirementsAbortSkipsThemes` | install.py:112-132 | an exception in the requirements loop aborts the run with no theme command; a manifest without requirements aborts before any package command |
| `InstallPy.ThemesAfterRequirements` | install.py:128-132 | after a complete requirements loop the session's theme follows, and a manifest without gnome themes aborts |
| `InstallPy.UpToRequirements` | install.py:100-126 | the commands of a run up to the end of the requirements loop: the curl check, the download, `lsb_release` and the loop |
| `InstallPy.FlatpakEntryAbortsRun` | install.py:112-132 | an `all` entry with method "flatpak" or without a method aborts the run after the packages before it, with no later package and no theme |
| `InstallSystem.PlatformManagerTable` | installSystem.py:8-17 | the mapping ignores case, yields only apt, dnf or pacman, and None exactly for names outside the table |
| `InstallSystem.PlatformManager` | installSystem.py:8-17 | get_package_manager of `installSystem.py`: the table entry of the lowercased distribution name |
| `InstallSystem.InstallAllThemes` | installSystem.py:56-66 | install_themes spawns exactly `AllThemesEffect`'s commands |
| `InstallSystem.AllThemesEffect` | installSystem.py:56-66 | install_themes of `installSystem.py`: every entry of the map in order, until the first exception |
| `InstallSystem.AllThemesClonesInOrder` | installSystem.py:56-66 | install_themes raises exactly when an entry lacks a key or has a script it cannot enter; otherwise it clones every entry's repository once, in map order, and nothing else |
| `InstallSystem.Repos` | installSystem.py:58-62 | the repositories of the entries of a theme map, in map order |
| `InstallSystem.AllThemesStopAtIncomplete` | installSystem.py:57-66 | the first entry that does not complete stops install_themes: the entries before it run in full, that entry spawns what it reaches, and no later entry spawns anything |
| `InstallSystem.TryBlockEffect` | installSystem.py:74-100 | main's `try` block: the unchecked download, the manifest, the distribution, the requirements loop and every theme, each stopping the rest when it raises |
| `InstallSystem.Plan` | installSystem.py:68-103 | a run of `installSystem.py`: the `try` block, whose exception becomes an abort |
| `InstallSystem.TryBlock` | installSystem.py:74-100 | main's `try` block spawns exactly `TryBlockEffect`'s commands |
| `InstallSystem.RunInstaller` | installSystem.py:68-103 | a run spawns exactly the commands of `Plan` and ends with its outcome |
| `InstallSystem.DownloadIsUnchecked` | installSystem.py:73-83 | the run never exits with status 1 and always starts with the download; an unreadable manifest, a missing `platform.linux_distribution` or a manifest without requirements aborts right after it |
| `InstallSystem.FlatpakEntryAbortsRun` | installSystem.py:83-103 | a flatpak `all` entry aborts the run after the packages before it, with no later package and no theme |
| `Agreement.ManagersAgree` | installSystem.py:8-17 | for a distribution id without surrounding white space, both scripts pick the same manager |
| `Agreement.ThemesAgreeOnSessionEntry` | installSystem.py:56-66 | on any theme map, `install.py` does what `installSystem.py` does on the one-entry map holding the first entry named after the session |
| `Agreement.SessionThemeClonesAtMostOne` | install.py:64-82 | `install.py` clones at most one theme repository |

## Left out

- Running processes is not modelled. The only exit statuses the code reads
  are inputs: `which curl`, `lsb_release` with `check=True`, and the checked
  manifest download of `install.py`.
- The network and the file `systemConfig.json` are not modelled. The
  manifest is an input, `None` when the file cannot be opened or parsed.
  Nothing ties its content to the URL it was downloaded from.
- JSON parsing is not modelled. The manifest is a typed value with the
  schema's shapes. Values of other JSON types are out of scope: a script given
  as one string (which Python would iterate character by character), or a
  themes value that is not an object.
- `argparse`, printing, ANSI colours and the `colorama` import of
  `installSystem.py` are left out. Without `colorama` that script fails
  before `main` runs. Exception messages are left out too; only the fact of
  an abort is kept.
- `os.environ` is not read: `DESKTOP_SESSION` is an input, `""` when unset.
- `platform.linux_distribution` is a foreign call. It was removed in
  Python 3.8, where it raises. Its result is an input: `None` stands for the
  call raising.
- When `which curl` fails, `install.py` runs `lsb_release` twice. The model
  gives both runs the same output.
- `PyStr.Lower`: folds only the ASCII letters. Python's `str.lower` also
  folds other scripts, but the distribution table and `DESKTOP_SESSION`
  values it is compared against are ASCII.
- The version field of the `lsb_release` output only appears in a warning
  message. The model only checks that its line holds a `:`.
- `Shell.Host.Spawn`: never raises. `subprocess.run` raises
  `FileNotFoundError` for a missing executable or a working directory that
  does not exist; the model knows no file system, so the only such case it
  captures is `cwd=""` (`Shell.ChdirFails`). For instance, `git clone` of
  `…/repo.git` normally creates `repo`, so the script lines run in `repo.git`
  would raise; the model runs them.
- One log for the whole machine; the effects of the commands on the file
  system are not modelled (for instance, `git clone` into an existing
  directory failing).
