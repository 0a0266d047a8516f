/** The distribution table shared by both installers' `get_package_manager`
    (install.py:17-25, installSystem.py:10-17): which package manager a
    lowercased distribution id calls for. */
module Distro {
  import opened Wrappers

  const AptDistros: set<string> := {"ubuntu", "debian"}
  const DnfDistros: set<string> := {"fedora", "centos", "rhel"}
  const PacmanDistros: set<string> := {"arch"}

  function ManagerFor(distro: string): (r: Option<string>)
    ensures r == Some("apt") <==> distro in AptDistros
    ensures r == Some("dnf") <==> distro in DnfDistros
    ensures r == Some("pacman") <==> distro in PacmanDistros
    ensures r.None? <==> distro !in AptDistros + DnfDistros + PacmanDistros
    ensures r.Some? ==> r.value in {"apt", "dnf", "pacman"}
  {
    if distro in AptDistros then Some("apt")
    else if distro in DnfDistros then Some("dnf")
    else if distro in PacmanDistros then Some("pacman")
    else None
  }
}
