/** The platform's own state (tileschema/privilege.go): which host paths reach it. */
module Trust {
  import opened Text
  import opened Paths

  /** The protected roots and what inside them is not protected, by component. */
  const ETC_RASPUTIN: Path := ["etc", "rasputin"]
  const VAR_RASPUTIN: Path := ["var", "lib", "rasputin"]
  const APPS: Path := ["var", "lib", "rasputin", "apps"]
  const DOCKER: Path := ["var", "lib", "rasputin", "docker"]
  const CONTAINERD: Path := ["var", "lib", "rasputin", "containerd"]

  /** The same as text. */
  lemma RootTexts()
    ensures Render(ETC_RASPUTIN) == "/etc/rasputin" && Render(VAR_RASPUTIN) == "/var/lib/rasputin"
  {
    Joined2("etc", "rasputin");
    Joined3("var", "lib", "rasputin");
  }

  lemma ExceptionTexts()
    ensures Render(APPS) == Render(VAR_RASPUTIN) + "/" + "apps"
    ensures Render(DOCKER) == Render(VAR_RASPUTIN) + "/" + "docker"
    ensures Render(CONTAINERD) == Render(VAR_RASPUTIN) + "/" + "containerd"
  {
    assert APPS == VAR_RASPUTIN + ["apps"] && DOCKER == VAR_RASPUTIN + ["docker"];
    assert CONTAINERD == VAR_RASPUTIN + ["containerd"];
    ChildText(VAR_RASPUTIN, "apps");
    ChildText(VAR_RASPUTIN, "docker");
    ChildText(VAR_RASPUTIN, "containerd");
  }

  lemma ChildText(c: Path, x: string)
    requires c != []
    ensures Render(c + [x]) == Render(c) + "/" + x
  {
    JoinConcat(c, [x]);
    assert Join([x], '/') == x;
  }

  lemma Joined2(a: string, b: string)
    ensures Join([a, b], '/') == a + "/" + b
  {
    assert [a, b][1..] == [b];
  }

  lemma Joined3(a: string, b: string, c: string)
    ensures Join([a, b, c], '/') == a + "/" + (b + "/" + c)
  {
    assert [a, b, c][1..] == [b, c];
    Joined2(b, c);
  }

  predicate Within(a: string, b: string) {
    a == b || Under(a, b)
  }

  predicate Reaches(a: string, b: string) {
    Within(a, b) || Under(b, a)
  }

  predicate Excepted(clean: string) {
    Within(clean, Render(APPS)) || Within(clean, Render(DOCKER)) || Within(clean, Render(CONTAINERD))
  }

  const RELATIVE := "(relative path)"

  function TrustChainViolation(p: string): string {
    if !Absolute(p) then RELATIVE
    else
      var clean := Clean(p);
      if Excepted(clean) then ""
      else if Reaches(clean, Render(ETC_RASPUTIN)) then Render(ETC_RASPUTIN)
      else if Reaches(clean, Render(VAR_RASPUTIN)) then Render(VAR_RASPUTIN)
      else ""
  }

  // ---------- what it means ----------

  ghost predicate InException(q: Path) {
    APPS <= q || DOCKER <= q || CONTAINERD <= q
  }

  /** A path that belongs to the trust chain. */
  ghost predicate Protected(q: Path) {
    (ETC_RASPUTIN <= q || VAR_RASPUTIN <= q) && !InException(q)
  }

  lemma RootsProper()
    ensures Proper(ETC_RASPUTIN) && Proper(VAR_RASPUTIN)
    ensures Proper(APPS) && Proper(DOCKER) && Proper(CONTAINERD)
  {
  }

  lemma WithinIff(a: Path, b: Path)
    requires Proper(a) && Proper(b)
    ensures Within(Render(a), Render(b)) <==> b <= a
    ensures Reaches(Render(a), Render(b)) <==> b <= a || a <= b
  {
    UnderIff(a, b);
    UnderIff(b, a);
    RenderInjective(a, b);
  }

  /** The violation, by component. */
  lemma ViolationComponents(p: string)
    requires Absolute(p)
    ensures var c := Components(p);
            TrustChainViolation(p) ==
            if InException(c) then ""
            else if ETC_RASPUTIN <= c || c <= ETC_RASPUTIN then Render(ETC_RASPUTIN)
            else if VAR_RASPUTIN <= c || c <= VAR_RASPUTIN then Render(VAR_RASPUTIN)
            else ""
  {
    var c := Components(p);
    ComponentsProper(p);
    RootsProper();
    WithinIff(c, ETC_RASPUTIN);
    WithinIff(c, VAR_RASPUTIN);
    WithinIff(c, APPS);
    WithinIff(c, DOCKER);
    WithinIff(c, CONTAINERD);
  }

  lemma Comparable(a: Path, b: Path, q: Path)
    requires a <= q && b <= q
    ensures a <= b || b <= a
  {
    if |a| <= |b| {
      assert a == q[..|a|] && b == q[..|b|];
    }
  }

  /** A path is refused exactly when the tree mounted from it holds a path that is
      in a protected root and not in an exception. */
  lemma ViolationIff(p: string)
    requires Absolute(p)
    ensures TrustChainViolation(p) != "" <==> exists q :: Components(p) <= q && Protected(q)
  {
    var c := Components(p);
    ViolationComponents(p);
    if TrustChainViolation(p) != "" {
      if ETC_RASPUTIN <= c || VAR_RASPUTIN <= c {
        assert Protected(c);
      } else if c <= ETC_RASPUTIN {
        assert Protected(ETC_RASPUTIN);
      } else {
        assert Protected(VAR_RASPUTIN);
      }
    }
    if q :| c <= q && Protected(q) {
      if InException(c) {
        PrefixTransitive(APPS, c, q);
        PrefixTransitive(DOCKER, c, q);
        PrefixTransitive(CONTAINERD, c, q);
      }
      if ETC_RASPUTIN <= q {
        Comparable(c, ETC_RASPUTIN, q);
      } else {
        Comparable(c, VAR_RASPUTIN, q);
      }
    }
  }

  lemma PrefixTransitive(a: Path, b: Path, q: Path)
    requires b <= q
    ensures a <= b ==> a <= q
  {
  }

  /** The path the refusal names is one whose tree meets the path's own. */
  lemma ViolationNames(p: string)
    requires Absolute(p) && TrustChainViolation(p) != ""
    ensures exists root, q :: TrustChainViolation(p) == Render(root) && root <= q && Components(p) <= q && Protected(q)
  {
    var c := Components(p);
    ViolationComponents(p);
    if ETC_RASPUTIN <= c {
      assert Protected(c);
    } else if c <= ETC_RASPUTIN {
      assert Protected(ETC_RASPUTIN);
    } else if VAR_RASPUTIN <= c {
      assert Protected(c);
    } else {
      assert Protected(VAR_RASPUTIN);
    }
  }

  /** Leaving an exception by two dots is reaching the root again: whatever way the
      exception is written, a name after it that is not an exception's is refused. */
  lemma LeavingException(p: string, x: string)
    requires Absolute(p) && (Components(p) == APPS || Components(p) == DOCKER || Components(p) == CONTAINERD)
    requires x != "" && x != "." && x != ".." && '/' !in x && x != "apps" && x != "docker" && x != "containerd"
    ensures TrustChainViolation(p + ['/'] + ".." + ['/'] + x) == Render(VAR_RASPUTIN)
  {
    var up := p + ['/'] + "..";
    ComponentsStep(p, "..");
    assert Components(up) == VAR_RASPUTIN;
    ComponentsStep(up, x);
    var c := VAR_RASPUTIN + [x];
    assert (up + ['/'] + x)[0] == '/';
    ViolationComponents(up + ['/'] + x);
    assert c[3] == x && c[0] == "var" && "var"[0] != "etc"[0] && ETC_RASPUTIN[0] == "etc";
    assert APPS[3] == "apps" && DOCKER[3] == "docker" && CONTAINERD[3] == "containerd";
    assert VAR_RASPUTIN <= c;
  }
}
