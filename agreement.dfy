/** How the two installers relate: they share install_package,
    try_alternative_installation and the requirements loop (module Packages),
    pick the same manager for the same distribution, and differ in which
    themes they install. */
module Agreement {
  import opened Wrappers
  import opened PyStr
  import opened Shell
  import opened Manifest
  import opened Themes
  import InstallPy
  import InstallSystem

  /** For a distribution id without surrounding white space, the manager
      install.py derives from `lsb_release` output equals the one
      installSystem.py derives from the bare name. */
  lemma ManagersAgree(id: string, version: string)
    requires ':' !in id && '\n' !in id && Strip(id) == id
    ensures InstallPy.DetectManager(Some("Distributor ID:\t" + id + "\n" + "Release:\t" + version + "\n"))
         == InstallSystem.PlatformManager(id)
  {
    InstallPy.DetectFromLsbRelease(id, version);
  }

  /** On any theme map, install.py does exactly what installSystem.py does
      on the one-entry map made of the first entry named after the session:
      the one script installs a single entry, the other all of them. */
  lemma ThemesAgreeOnSessionEntry(themes: Dict<ThemeDescriptor>, session: string, i: nat)
    requires session != "" && i < |themes| && themes[i].0 == Lower(session)
    requires forall j :: 0 <= j < i ==> themes[j].0 != Lower(session)
    ensures InstallPy.ThemesForSession(themes, session) == InstallSystem.AllThemesEffect(themes[i..i + 1])
  {
    InstallPy.ThemeSelection(themes, session);
    assert themes[i..i + 1][0] == themes[i];
    assert themes[i..i + 1][1..] == [];
    ThenLaws(ThemeEffect(themes[i].1), Nothing, Nothing);
  }

  /** install.py clones at most one repository, installSystem.py one per
      entry of the map. */
  lemma SessionThemeClonesAtMostOne(themes: Dict<ThemeDescriptor>, session: string)
    ensures |ClonedRepos(InstallPy.ThemesForSession(themes, session).cmds)| <= 1
  {
    if Lower(session) != "" && Lookup(themes, Lower(session)).Some? {
      ThemeClonesItsRepo(Lookup(themes, Lower(session)).value);
    }
  }
}
