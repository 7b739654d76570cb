/** What each kind of fact is worth (tileschema/privilege.go), by name and rank. */
module GrantTable {
  import opened Text
  import opened Paths
  import opened Trust
  import opened Privilege
  import opened Derivation
  import opened Rating

  const ESCAPES :=
    {"ALL", "SYS_ADMIN", "SYS_MODULE", "SYS_RAWIO", "SYS_PTRACE", "DAC_READ_SEARCH", "DAC_OVERRIDE", "BPF"}

  /** A capability counts the same with and without its prefix, under its upper-case
      name, host-trusting exactly for the eight that are escapes in practice. */
  lemma CapTable(c: string, k: Casing, n: string)
    requires n != "" && !("CAP_" <= n)
    requires k.upper(TrimSpace(c)) == n || k.upper(TrimSpace(c)) == "CAP_" + n
    ensures ItemYield(CapAdd, c, k) == One("cap:" + n, if n in ESCAPES then 2 else 1)
  {
    CapNamed(k.upper(TrimSpace(c)), n);
    CapRank(n);
  }

  lemma CapNamed(text: string, n: string)
    requires !("CAP_" <= n) && (text == n || text == "CAP_" + n)
    ensures (if "CAP_" <= text then text[4..] else text) == n
  {
    assert ("CAP_" + n)[4..] == n;
  }

  lemma CapRank(n: string)
    ensures EscapeCap(n) <==> n in ESCAPES
  {
  }

  /** A group is host-trusting exactly when it is docker, disk or kmem in any case. */
  lemma GroupTable(g: string, k: Casing)
    ensures ItemYield(GroupAdd, g, k) ==
            One("group:" + TrimSpace(g), if k.lower(TrimSpace(g)) in {"docker", "disk", "kmem"} then 2 else 1)
  {
    GroupRank(k.lower(TrimSpace(g)));
  }

  lemma GroupRank(t: string)
    ensures HostTrustingGroup(t) <==> t in {"docker", "disk", "kmem"}
  {
  }

  lemma MentionsIff(s: string, t: string)
    ensures Mentions(s, t) <==> exists a, b :: s == a + t + b
  {
    if Mentions(s, t) {
      var i :| 0 <= i <= |s| && t <= s[i..];
      assert s == s[..i] + s[i..] && s[i..] == t + s[i..][|t|..];
      assert s == s[..i] + t + s[i..][|t|..];
    }
    if a, b :| s == a + t + b {
      assert s[|a|..] == t + b;
    }
  }

  /** Joining a sibling of the stack is no grant; joining anything else is. */
  lemma JoinTable(j: string, k: Casing)
    ensures (exists a, b :: j == a + ":service:" + b) ==> ItemYield(NamespaceJoin, j, k) == NONE
    ensures !(exists a, b :: j == a + ":service:" + b) ==>
              ItemYield(NamespaceJoin, j, k) == One("namespace-join:" + TrimSpace(j), 1)
  {
    MentionsIff(j, ":service:");
  }

  /** The security options that switch something off, the one that restricts, and
      the rest. */
  lemma OptTable(o: string, k: Casing)
    ensures var t := k.lower(TrimSpace(o));
            && (t == "seccomp=unconfined" ==> ItemYield(SecurityOpt, o, k) == One("seccomp-unconfined", 2))
            && (t == "apparmor=unconfined" ==> ItemYield(SecurityOpt, o, k) == One("apparmor-unconfined", 2))
            && (t == "label=disable" ==> ItemYield(SecurityOpt, o, k) == One("selinux-disabled", 2))
            && (t == "no-new-privileges=true" ==> ItemYield(SecurityOpt, o, k) == NONE)
            && (t !in {"seccomp=unconfined", "apparmor=unconfined", "label=disable", "no-new-privileges=true"} ==>
                  ItemYield(SecurityOpt, o, k) == One("security-opt:" + t, 1))
  {
    YieldOfOpt(o, k);
    OptRanks(k.lower(TrimSpace(o)));
  }

  lemma YieldOfOpt(o: string, k: Casing)
    ensures ItemYield(SecurityOpt, o, k) == OptReach(k.lower(TrimSpace(o)))
  {
  }

  lemma OptRanks(t: string)
    ensures t == "seccomp=unconfined" ==> OptReach(t) == One("seccomp-unconfined", 2)
    ensures t == "apparmor=unconfined" ==> OptReach(t) == One("apparmor-unconfined", 2)
    ensures t == "label=disable" ==> OptReach(t) == One("selinux-disabled", 2)
    ensures t == "no-new-privileges=true" ==> OptReach(t) == NONE
    ensures t !in {"seccomp=unconfined", "apparmor=unconfined", "label=disable", "no-new-privileges=true"} ==>
              OptReach(t) == One("security-opt:" + t, 1)
  {
    OptApart();
  }

  lemma OptApart()
    ensures "seccomp=unconfined" != "apparmor=unconfined" && "seccomp=unconfined" != "label=disable"
    ensures "seccomp=unconfined" != "no-new-privileges=true" && "apparmor=unconfined" != "label=disable"
    ensures "apparmor=unconfined" != "no-new-privileges=true" && "label=disable" != "no-new-privileges=true"
  {
    assert "seccomp=unconfined"[0] == 's' && "apparmor=unconfined"[0] == 'a';
    assert "label=disable"[0] == 'l' && "no-new-privileges=true"[0] == 'n';
  }

  // ---------- host paths ----------

  const TREES := {"boot", "etc", "usr", "bin", "sbin", "lib", "lib64", "root", "proc", "sys", "run"}

  lemma TreesAreSystem(c: Path)
    requires c != [] && c[0] in TREES
    ensures Holds(SYSTEM, c)
  {
    var i := match c[0]
      case "boot" => 0
      case "etc" => 1
      case "usr" => 2
      case "bin" => 3
      case "sbin" => 4
      case "lib" => 5
      case "lib64" => 6
      case "root" => 7
      case "proc" => 8
      case "sys" => 9
      case _ => 10;
    assert SYSTEM[i] == [c[0]] && SYSTEM[i] <= c;
  }

  lemma SystemAreTrees(c: Path)
    requires Holds(SYSTEM, c)
    ensures c != [] && (c[0] in TREES || ["var", "run"] <= c)
  {
    var i :| 0 <= i < |SYSTEM| && SYSTEM[i] <= c;
    assert c[0] == SYSTEM[i][0];
    assert i < 11 ==> SYSTEM[i][0] in TREES;
  }

  /** Any path in a system tree but the timezone file is host-trusting, under its
      own name. */
  lemma TreeTable(c: Path, prefix: string)
    requires c != [] && (c[0] in TREES || ["var", "run"] <= c) && c != ["etc", "localtime"]
    ensures HostTrusting(Rated(c, prefix))
    ensures !Rated(c, prefix).socket ==> Rated(c, prefix) == One(prefix + Render(c), 2)
  {
    if c[0] in TREES {
      TreesAreSystem(c);
    } else {
      assert SYSTEM[11] <= c;
    }
    assert !(APPS <= c) by {
      assert "var"[0] != "run"[0] && "lib"[0] != "run"[0];
      assert APPS[0] == "var" && APPS[1] == "lib" && "var" !in TREES;
    }
    TrustingIff(c, prefix);
  }

  lemma VarIsNoTree()
    ensures "var" !in TREES && "dev" !in TREES && "lib" != "run"
  {
    assert "var"[0] == 'v' && "dev"[0] == 'd' && "lib"[0] != "run"[0];
    assert "boot"[0] == 'b' && "etc"[0] == 'e' && "usr"[0] == 'u' && "bin"[0] == 'b' && "sbin"[0] == 's';
    assert "lib64"[0] == 'l' && "root"[0] == 'r' && "proc"[0] == 'p' && "sys"[0] == 's';
  }

  /** Outside the system trees, /var and the whole of /dev, a path is elevated. */
  lemma ElsewhereTable(c: Path, prefix: string)
    requires c != [] && c[0] !in TREES && c[0] != "var" && c != ["dev"]
    ensures Rated(c, prefix) == One(prefix + Render(c), 1)
  {
    assert !Holds(SYSTEM, c) by {
      if Holds(SYSTEM, c) {
        SystemAreTrees(c);
      }
    }
    forall i | 0 <= i < |SOCKETS| ensures !(c <= SOCKETS[i]) {
      assert SOCKETS[i][0] == "var" || SOCKETS[i][0] in TREES;
    }
    NoSocket(c);
    forall i | 0 <= i < |DATA_ROOTS| ensures !(DATA_ROOTS[i] <= c) {
      assert DATA_ROOTS[i][0] == "var";
    }
    forall i | 0 <= i < |STATE| ensures !(STATE[i] <= c) {
      assert STATE[i][0] == "var" || STATE[i][0] in TREES;
    }
    assert APPS[0] == "var" && LOCALTIME[0] in TREES;
  }

  /** The socket is flagged exactly for the four sockets and what contains them. */
  lemma SocketTable(c: Path, prefix: string)
    ensures Rated(c, prefix).socket <==>
            || c <= ["var", "run", "docker.sock"] || c <= ["run", "docker.sock"]
            || c <= ["var", "run", "containerd", "containerd.sock"] || c <= ["run", "containerd", "containerd.sock"]
    ensures Rated(c, prefix).socket ==>
              "docker-socket" in Rated(c, prefix).grants && Rated(c, prefix).grants["docker-socket"] == 2
  {
    assert SOCKETS[0] == ["var", "run", "docker.sock"] && SOCKETS[1] == ["run", "docker.sock"];
    assert SOCKETS[2] == ["var", "run", "containerd", "containerd.sock"];
    assert SOCKETS[3] == ["run", "containerd", "containerd.sock"];
    if !Contains(c, SOCKETS) {
      NoSocket(c);
    }
  }

  /** Per-app data and the timezone file are no grant at all. */
  lemma RoutineTable(c: Path, prefix: string)
    requires ["var", "lib", "rasputin", "apps"] <= c || c == ["etc", "localtime"]
    ensures Rated(c, prefix) == NONE
  {
    if c == ["etc", "localtime"] {
      LocaltimeNoSocket();
    } else {
      assert VAR_LIB <= c;
      NoSocketInLib(c);
    }
    NoSocket(c);
  }

  /** The runtimes' storage goes by one name. */
  lemma StorageTable(c: Path, prefix: string)
    requires || ["var", "lib", "docker"] <= c || ["var", "lib", "containerd"] <= c
             || ["var", "lib", "rasputin", "docker"] <= c || ["var", "lib", "rasputin", "containerd"] <= c
    ensures Rated(c, prefix) == One("docker-data-root", 2)
  {
    assert DATA_ROOTS[0] == ["var", "lib", "docker"] && DATA_ROOTS[1] == ["var", "lib", "containerd"];
    assert DATA_ROOTS[2] == DOCKER && DATA_ROOTS[3] == CONTAINERD;
    assert Holds(DATA_ROOTS, c);
    assert VAR_LIB <= c && c[0] == "var" && c[1] == "lib";
    NoSocketInLib(c);
    NoSocket(c);
    VarIsNoTree();
    assert !Holds(SYSTEM, c) by {
      if Holds(SYSTEM, c) {
        SystemAreTrees(c);
      }
    }
    NotApps(c);
  }

  /** The rest of the platform's state is host-trusting, the rest of /var elevated. */
  lemma VarTable(c: Path, prefix: string)
    requires |c| > 1 && c[0] == "var" && c[1] != "run"
    requires !(["var", "lib", "docker"] <= c) && !(["var", "lib", "containerd"] <= c)
    requires forall x :: x in ["apps", "docker", "containerd"] ==> !(["var", "lib", "rasputin", x] <= c)
    ensures Rated(c, prefix) == One(prefix + Render(c), if ["var", "lib", "rasputin"] <= c then 2 else 1)
  {
    VarIsNoTree();
    var excepted := ["apps", "docker", "containerd"];
    assert excepted[0] == "apps" && excepted[1] == "docker" && excepted[2] == "containerd";
    assert !(APPS <= c) && !(DOCKER <= c) && !(CONTAINERD <= c);
    NoSocketBelowVar(c);
    NoSocket(c);
    assert !Holds(SYSTEM, c) by {
      if Holds(SYSTEM, c) {
        SystemAreTrees(c);
      }
    }
    assert !Holds(DATA_ROOTS, c);
    assert STATE[0] == VAR_RASPUTIN && STATE[1] == ETC_RASPUTIN;
    assert ETC_RASPUTIN[0] != "var" && LOCALTIME[0] != "var" by {
      assert "etc"[0] != "var"[0];
    }
  }

  lemma NoSocketBelowVar(c: Path)
    requires |c| > 1 && c[0] == "var" && c[1] != "run"
    ensures !Contains(c, SOCKETS)
  {
    assert "var"[0] != "run"[0];
    forall i | 0 <= i < |SOCKETS| ensures !(c <= SOCKETS[i]) {
      assert SOCKETS[i][0] == "run" || SOCKETS[i][1] == "run";
    }
  }

  /** The whole of /dev is host-trusting; what is in it is elevated. */
  lemma DevTable(c: Path, prefix: string)
    requires c != [] && c[0] == "dev"
    ensures Rated(c, prefix) == One(prefix + Render(c), if |c| == 1 then 2 else 1)
  {
    VarIsNoTree();
    assert "dev"[0] != "var"[0];
    if |c| == 1 {
      assert c == DEV;
      DevNoSocket();
      NoSocket(c);
      assert APPS[0] == "var" && LOCALTIME[0] == "etc" && "etc"[0] != "dev"[0];
    } else {
      ElsewhereTable(c, prefix);
    }
  }

  lemma DevNoSocket()
    ensures !Contains(DEV, SOCKETS)
  {
    assert "dev"[0] != "var"[0] && "dev"[0] != "run"[0];
    forall i | 0 <= i < |SOCKETS| ensures !(DEV <= SOCKETS[i]) {
      assert SOCKETS[i][0] != "dev";
    }
  }

  /** A mount and a device are rated alike under their own prefixes: nothing for a
      blank one, host-trusting for a relative one, by component otherwise. */
  lemma PathTable(s: string, k: Casing)
    ensures TrimSpace(s) == "" ==> ItemYield(BindMount, s, k) == NONE && ItemYield(Device, s, k) == NONE
    ensures TrimSpace(s) != "" && TrimSpace(s)[0] != '/' ==>
              && ItemYield(BindMount, s, k) == One("bind:" + TrimSpace(s), 2)
              && ItemYield(Device, s, k) == One("device:" + TrimSpace(s), 2)
    ensures TrimSpace(s) != "" && TrimSpace(s)[0] == '/' ==>
              && ItemYield(BindMount, s, k) == Rated(Components(TrimSpace(s)), "bind:")
              && ItemYield(Device, s, k) == Rated(Components(TrimSpace(s)), "device:")
  {
    YieldOfPath(s, k);
  }

  lemma YieldOfPath(s: string, k: Casing)
    ensures ItemYield(BindMount, s, k) == HostPath(s, "bind:") && ItemYield(Device, s, k) == HostPath(s, "device:")
  {
  }

  lemma NotApps(c: Path)
    requires || ["var", "lib", "docker"] <= c || ["var", "lib", "containerd"] <= c
             || ["var", "lib", "rasputin", "docker"] <= c || ["var", "lib", "rasputin", "containerd"] <= c
    ensures !(APPS <= c)
  {
    assert APPS[2] == "rasputin" && APPS[3] == "apps";
    assert "docker"[0] == 'd' && "containerd"[0] == 'c' && "rasputin"[0] == 'r' && "apps"[0] == 'a';
    if ["var", "lib", "docker"] <= c {
      assert c[2] == "docker";
    } else if ["var", "lib", "containerd"] <= c {
      assert c[2] == "containerd";
    } else {
      assert c[3] == "docker" || c[3] == "containerd";
    }
  }

  lemma LocaltimeNoSocket()
    ensures !Contains(["etc", "localtime"], SOCKETS)
  {
    assert "etc"[0] != "var"[0] && "etc"[0] != "run"[0];
    forall i | 0 <= i < |SOCKETS| ensures !(["etc", "localtime"] <= SOCKETS[i]) {
      assert SOCKETS[i][0] != "etc";
    }
  }

  /** The facts that are their own name. */
  lemma PlainTable(s: string, k: Casing)
    ensures Yield(Privileged, k) == One("privileged", 2) && Yield(HostNetwork, k) == One("host-network", 1)
    ensures Yield(HostPidOrIpc, k) == One("host-pid-ipc", 2)
    ensures ItemYield(VolumesFrom, s, k) == One("volumes-from:" + TrimSpace(s), 1)
    ensures ItemYield(ReservedDevice, s, k) == One("reserved-device:" + TrimSpace(s), 1)
    ensures ItemYield(CgroupParent, s, k) == One("cgroup-parent:" + TrimSpace(s), 1)
    ensures ItemYield(Userns, s, k) ==
            if k.fold(TrimSpace(s), "host") then One("userns-host", 2) else One("userns:" + TrimSpace(s), 1)
  {
  }
}
