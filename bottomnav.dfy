/** src/components/nav/BottomNav.tsx: which navigation button is highlighted. */
module BottomNav {
  import opened Strings

  const HOME := "/"
  const ACCOUNT := "/konto"

  /** `isActive(path)` on the current `pathname`: the home button only on "/"
      itself, every other button on every path beginning with its own. */
  predicate IsActive(pathname: string, path: string) {
    if path == HOME && pathname == HOME then true
    else if path != HOME && StartsWith(pathname, path) then true
    else false
  }

  /** The home button lights up on "/" and nowhere else. */
  lemma HomeOnlyOnRoot(pathname: string)
    ensures IsActive(pathname, HOME) <==> pathname == HOME
  {
  }

  /** Any other button lights up exactly on the paths it is a prefix of. */
  lemma OtherButtonsByPrefix(pathname: string, path: string)
    requires path != HOME
    ensures IsActive(pathname, path) <==> |path| <= |pathname| && pathname[..|path|] == path
  {
  }

  /** A button that is lit stays lit on every extension of the path, so the
      prefix rule also lights "/konto" on "/kontoX". */
  lemma ActiveOnExtensions(pathname: string, path: string, rest: string)
    requires path != HOME && IsActive(pathname, path)
    ensures IsActive(pathname + rest, path)
  {
    StartsWithAppend(pathname, path, rest);
  }

  lemma AccountActiveOnLongerName()
    ensures IsActive("/kontoX", ACCOUNT)
    ensures IsActive("/konto/dane", ACCOUNT)
  {
    assert "/kontoX"[..|ACCOUNT|] == ACCOUNT;
    assert "/konto/dane"[..|ACCOUNT|] == ACCOUNT;
  }

  /** The two buttons the bar asks about are never lit together. */
  lemma HomeAndAccountExclusive(pathname: string)
    ensures !(IsActive(pathname, HOME) && IsActive(pathname, ACCOUNT))
  {
  }
}
