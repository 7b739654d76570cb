/** How the derivation rates the paths that are refused (tileschema/privilege.go):
    the refusal looks at the path as given, the rating at the path trimmed. */
module Rating {
  import opened Text
  import opened Paths
  import opened Trust
  import opened Privilege

  const VAR_LIB: Path := ["var", "lib"]

  ghost predicate HostTrusting(r: Reach) {
    exists g :: g in r.grants && r.grants[g] == 2
  }

  // ---------- trimming the end of a path ----------

  predicate SolidText(s: string) {
    forall i :: 0 <= i < |s| ==> Solid(s[i])
  }

  lemma TrimmedPath(p: string)
    requires Absolute(p)
    ensures Blankless(p, TrimSpace(p)) && Absolute(TrimSpace(p))
  {
    TrimSolid(p);
    TrimRightTail(p);
  }

  /** `raw` is `p` without some bytes of white space at its end. */
  ghost predicate Blankless(p: string, raw: string) {
    raw <= p && forall i :: |raw| <= i < |p| ==> !Solid(p[i])
  }

  /** Text appended to a path changes its last component, whatever dots it was. */
  lemma AppendedComponents(raw: string, w: string) returns (d: Path, x: string, y: string)
    requires w != "" && forall i :: 0 <= i < |w| ==> !Solid(w[i])
    ensures Components(raw + w) == d + [y] && Components(raw) == Push(d, x) && !SolidText(y)
  {
    assert '/' !in w;
    SplitAppend(raw, w, '/');
    d, x, y := LastComponent(Split(raw, '/'), w);
  }

  lemma LastComponent(parts: seq<string>, w: string) returns (d: Path, x: string, y: string)
    requires parts != [] && w != "" && forall i :: 0 <= i < |w| ==> !Solid(w[i])
    ensures var init, last := parts[..|parts| - 1], parts[|parts| - 1];
            Resolve(init + [last + w]) == d + [y] && Resolve(parts) == Push(d, x) && !SolidText(y)
  {
    var init := parts[..|parts| - 1];
    x := parts[|parts| - 1];
    y := x + w;
    d := Resolve(init);
    ResolveConcat(init, y);
    assert y[|y| - 1] == w[|w| - 1];
    assert SolidText(".") && SolidText("..");
  }

  /** Trimming changes at most the last component, and then the one it had was
      none that a fixed root has. */
  lemma TrimmedComponents(p: string) returns (d: Path, x: string, y: string)
    requires Absolute(p) && TrimSpace(p) != p
    ensures Components(p) == d + [y] && Components(TrimSpace(p)) == Push(d, x) && !SolidText(y)
  {
    TrimmedPath(p);
    d, x, y := BlanklessComponents(p, TrimSpace(p));
  }

  lemma BlanklessComponents(p: string, raw: string) returns (d: Path, x: string, y: string)
    requires Blankless(p, raw) && raw != p
    ensures Components(p) == d + [y] && Components(raw) == Push(d, x) && !SolidText(y)
  {
    assert p == raw + p[|raw|..];
    d, x, y := AppendedComponents(raw, p[|raw|..]);
  }

  // ---------- refused paths ----------

  predicate Near(c: Path) {
    ETC_RASPUTIN <= c || c <= ETC_RASPUTIN || VAR_RASPUTIN <= c || c <= VAR_RASPUTIN
  }

  lemma RootsSolid()
    ensures forall i :: 0 <= i < |ETC_RASPUTIN| ==> SolidText(ETC_RASPUTIN[i])
    ensures forall i :: 0 <= i < |VAR_RASPUTIN| ==> SolidText(VAR_RASPUTIN[i])
  {
  }

  lemma BelowRoot(root: Path, d: Path, y: string)
    requires root <= d + [y] || d + [y] <= root
    requires !SolidText(y) && forall i :: 0 <= i < |root| ==> SolidText(root[i])
    ensures root <= d
  {
    var c := d + [y];
    assert c[|d|] == y;
  }

  lemma PushNear(root: Path, d: Path, x: string)
    requires root <= d
    ensures root <= Push(d, x) || Push(d, x) <= root
  {
    if x == ".." && root == d && d != [] {
      assert d[..|d| - 1] <= root;
    }
  }

  /** After trimming, a refused path is still an ancestor or a descendant of a root. */
  lemma RefusedNear(p: string)
    requires Absolute(p) && TrustChainViolation(p) != ""
    ensures Near(Components(TrimSpace(p)))
  {
    ViolationComponents(p);
    if TrimSpace(p) != p {
      var d, x, y := TrimmedComponents(p);
      RootsSolid();
      if ETC_RASPUTIN <= d + [y] || d + [y] <= ETC_RASPUTIN {
        BelowRoot(ETC_RASPUTIN, d, y);
        PushNear(ETC_RASPUTIN, d, x);
      } else {
        BelowRoot(VAR_RASPUTIN, d, y);
        PushNear(VAR_RASPUTIN, d, x);
      }
    }
  }

  // ---------- the rating near a root ----------

  lemma OneTrusting(g: string, rank: nat)
    ensures HostTrusting(One(g, rank)) <==> rank == 2
  {
    assert g in One(g, rank).grants;
  }

  /** Near a root or not: which of the ratings are host-trusting. */
  lemma TrustingIff(c: Path, prefix: string)
    ensures HostTrusting(Rated(c, prefix)) <==>
            || Contains(c, SOCKETS)
            || (!(APPS <= c) && c != LOCALTIME
                && (c == DEV || Holds(SYSTEM, c) || Holds(DATA_ROOTS, c) || Holds(STATE, c)))
  {
    var r, bind := Rated(c, prefix), prefix + Render(c);
    OneTrusting(bind, 1);
    OneTrusting(bind, 2);
    OneTrusting(DOCKER_DATA_ROOT, 2);
    assert [] <= SOCKETS[0];
    if Contains(c, SOCKETS) {
      assert r.grants[DOCKER_SOCKET] == 2;
    } else {
      NoSocket(c);
    }
  }

  lemma EtcTrusting(c: Path, prefix: string)
    requires ETC_RASPUTIN <= c || c == ["etc"]
    ensures HostTrusting(Rated(c, prefix)) && !(APPS <= c) && c != VAR_LIB
  {
    assert c[0] == "etc" && "etc"[0] != "var"[0];
    assert SYSTEM[1] == ["etc"] && SYSTEM[1] <= c;
    assert |c| > 1 ==> c[1] == "rasputin";
    assert LOCALTIME[1] == "localtime" && "rasputin"[0] != "localtime"[0];
    TrustingIff(c, prefix);
  }

  lemma NoSocketInLib(c: Path)
    requires VAR_LIB <= c
    ensures !Contains(c, SOCKETS) && c != LOCALTIME
  {
    assert c[0] == "var" && c[1] == "lib";
    assert "var"[0] != "run"[0] && "lib"[0] != "run"[0] && "var"[0] != "etc"[0];
  }

  lemma VarTrusting(c: Path, prefix: string)
    requires VAR_RASPUTIN <= c
    ensures HostTrusting(Rated(c, prefix)) <==> !(APPS <= c)
    ensures c != VAR_LIB
  {
    NoSocketInLib(c);
    assert STATE[0] == VAR_RASPUTIN;
    TrustingIff(c, prefix);
  }

  lemma VarLibElevated(prefix: string)
    ensures !HostTrusting(Rated(VAR_LIB, prefix))
  {
    NoSocketInLib(VAR_LIB);
    assert "var" != "dev";
    forall i | 0 <= i < |SYSTEM| ensures !(SYSTEM[i] <= VAR_LIB) {
      assert "lib" != "run";
      assert SYSTEM[i][0] == "var" ==> SYSTEM[i][1] == "run";
    }
    TrustingIff(VAR_LIB, prefix);
  }

  lemma NearTrusting(c: Path, prefix: string)
    requires Near(c)
    ensures HostTrusting(Rated(c, prefix)) <==> c != VAR_LIB && !(APPS <= c)
  {
    if ETC_RASPUTIN <= c || c == ["etc"] {
      EtcTrusting(c, prefix);
    } else if VAR_RASPUTIN <= c {
      VarTrusting(c, prefix);
    } else if c == VAR_LIB {
      VarLibElevated(prefix);
    } else {
      assert c == [] || c == ["var"];
      assert c <= SOCKETS[0];
      TrustingIff(c, prefix);
    }
  }

  /** A refused path is rated host-trusting exactly when, trimmed and cleaned, it is
      neither /var/lib nor inside the app data. */
  lemma RefusedRatedIff(p: string, prefix: string)
    requires Absolute(p) && TrustChainViolation(p) != ""
    ensures var c := Components(TrimSpace(p));
            HostTrusting(HostPath(p, prefix)) <==> c != VAR_LIB && !(APPS <= c)
  {
    TrimmedPath(p);
    RefusedNear(p);
    NearTrusting(Components(TrimSpace(p)), prefix);
  }

  /** For a path without trailing white space: exactly /var/lib is rated lower. */
  lemma RefusedRated(p: string, prefix: string)
    requires Absolute(p) && TrustChainViolation(p) != "" && TrimSpace(p) == p
    ensures HostTrusting(HostPath(p, prefix)) <==> Components(p) != VAR_LIB
  {
    ViolationComponents(p);
    RefusedRatedIff(p, prefix);
  }

  const SPACED: Path := ["var", "lib", "rasputin", "apps "]

  lemma AppsSpaced()
    ensures Render(APPS) + " " == Render(SPACED)
    ensures Solid(Render(APPS)[|Render(APPS)| - 1])
  {
    assert APPS == VAR_RASPUTIN + ["apps"] && SPACED == VAR_RASPUTIN + ["apps "];
    JoinConcat(VAR_RASPUTIN, ["apps"]);
    JoinConcat(VAR_RASPUTIN, ["apps "]);
    assert Join(["apps"], '/') == "apps" && Join(["apps "], '/') == "apps" + " ";
  }

  lemma AppsComponents()
    ensures Components(Render(APPS)) == APPS && Components(Render(SPACED)) == SPACED
  {
    RootsProper();
    ComponentsRender(APPS);
    assert Proper(SPACED);
    ComponentsRender(SPACED);
  }

  /** White space after the app-data path makes it another path to the refusal and
      the same one to the rating. */
  lemma TrailingSpace(prefix: string)
    ensures TrustChainViolation(Render(APPS) + " ") == Render(VAR_RASPUTIN)
    ensures HostPath(Render(APPS) + " ", prefix) == NONE
  {
    AppsSpaced();
    AppsComponents();
    SpacedRefused();
    TrimSpaceAfter(Render(APPS));
    AppsRoutine(prefix);
  }

  lemma SpacedRefused()
    requires Components(Render(SPACED)) == SPACED
    ensures TrustChainViolation(Render(SPACED)) == Render(VAR_RASPUTIN)
  {
    ViolationComponents(Render(SPACED));
    assert SPACED[0] == "var" && SPACED[3] == "apps " && |"apps "| == 5;
    assert "var"[0] != "etc"[0] && APPS[3] == "apps" && DOCKER[3] == "docker" && CONTAINERD[3] == "containerd";
  }

  lemma AppsRoutine(prefix: string)
    ensures Rated(APPS, prefix) == NONE
  {
    NoSocketInLib(APPS);
    NoSocket(APPS);
  }
}
