/** src/components/AppSidebar.tsx: the route-prefix test `isActive` and the
    link class chooser `getNavCls`. */
module AppSidebar {

  const ActiveClass := "bg-primary text-primary-foreground"
  const InactiveClass := "hover:bg-muted"

  /** `isActive(path)` on the page at `currentPath`: the root link only on
      the root itself, every other link on any path that starts with it. */
  predicate IsActive(currentPath: string, path: string)
    ensures IsActive(currentPath, path) ==> path <= currentPath
    ensures path <= currentPath && !IsActive(currentPath, path) ==> path == "/" && currentPath != "/"
  {
    if path == "/" then currentPath == "/" else path <= currentPath
  }

  /** `getNavCls({isActive})`. */
  function NavClass(isActive: bool): (cls: string)
    ensures isActive <==> cls == ActiveClass
    ensures !isActive <==> cls == InactiveClass
  {
    if isActive then ActiveClass else InactiveClass
  }

  /** The root link is active on "/" and nowhere else. */
  lemma RootOnlyOnRoot(currentPath: string)
    ensures IsActive(currentPath, "/") <==> currentPath == "/"
  {
  }

  /** Any other link is active exactly when the current path begins with it. */
  lemma OtherLinksByPrefix(currentPath: string, path: string)
    requires path != "/"
    ensures IsActive(currentPath, path) <==>
      |path| <= |currentPath| && forall i :: 0 <= i < |path| ==> currentPath[i] == path[i]
  {
    if |path| <= |currentPath| && forall i :: 0 <= i < |path| ==> currentPath[i] == path[i] {
      assert currentPath[..|path|] == path;
    }
  }

  /** Every link is active on its own page. */
  lemma ActiveOnOwnPath(path: string)
    ensures IsActive(path, path)
  {
  }

  /** The prefix test ignores path-segment boundaries: "/patients" lights up
      on "/patients/new" and on "/patientsX" alike. */
  lemma PrefixIgnoresSegments()
    ensures IsActive("/patients/new", "/patients")
    ensures IsActive("/patientsX", "/patients")
    ensures !IsActive("/appointments", "/patients")
  {
    assert "/patients/new"[..9] == "/patients";
    assert "/patientsX"[..9] == "/patients";
    assert "/appointments"[1] != "/patients"[1];
  }
}
