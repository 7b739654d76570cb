/** DerivePrivilege (tileschema/privilege.go): the union of what each fact grants,
    at the highest rank, whatever the order of the facts. */
module Derivation {
  import opened Text
  import opened Paths
  import opened Privilege
  import opened Sorting

  /** The case mappings of the Go library, for any locale-independent tables. */
  datatype Casing = Casing(upper: string -> string, lower: string -> string, fold: (string, string) -> bool)

  datatype SafetyFacts = SafetyFacts(
    images: seq<string>, privileged: bool, hostNetwork: bool, hostPidOrIpc: bool,
    capAdd: seq<string>, bindMounts: seq<string>, devices: seq<string>, securityOpt: seq<string>,
    usernsMode: seq<string>, groupAdd: seq<string>, volumesFrom: seq<string>, reservedDevices: seq<string>,
    cgroupParent: seq<string>, namespaceJoins: seq<string>)

  /** The dimensions that list texts. */
  datatype Dimension =
    | CapAdd | BindMount | Device | SecurityOpt | Userns | GroupAdd | VolumesFrom | ReservedDevice
    | CgroupParent | NamespaceJoin

  /** One fact. */
  datatype Fact = Privileged | HostNetwork | HostPidOrIpc | Item(dimension: Dimension, text: string)

  function Listed(f: SafetyFacts, d: Dimension): seq<string> {
    match d
    case CapAdd => f.capAdd
    case BindMount => f.bindMounts
    case Device => f.devices
    case SecurityOpt => f.securityOpt
    case Userns => f.usernsMode
    case GroupAdd => f.groupAdd
    case VolumesFrom => f.volumesFrom
    case ReservedDevice => f.reservedDevices
    case CgroupParent => f.cgroupParent
    case NamespaceJoin => f.namespaceJoins
  }

  function Flag(isSet: bool, fact: Fact): seq<Fact> {
    if isSet then [fact] else []
  }

  function Each(f: SafetyFacts, d: Dimension): (fs: seq<Fact>)
    ensures |fs| == |Listed(f, d)| && forall i :: 0 <= i < |fs| ==> fs[i] == Item(d, Listed(f, d)[i])
  {
    seq(|Listed(f, d)|, i requires 0 <= i < |Listed(f, d)| => Item(d, Listed(f, d)[i]))
  }

  /** Every fact, in the order the derivation visits them. */
  function FactsOf(f: SafetyFacts): seq<Fact> {
    Flag(f.privileged, Privileged) + Flag(f.hostNetwork, HostNetwork) + Flag(f.hostPidOrIpc, HostPidOrIpc)
    + Each(f, CapAdd) + Each(f, BindMount) + Each(f, Device) + Each(f, SecurityOpt) + Each(f, Userns)
    + Each(f, GroupAdd) + Each(f, VolumesFrom) + Each(f, ReservedDevice) + Each(f, CgroupParent)
    + Each(f, NamespaceJoin)
  }

  // ---------- what one fact grants ----------

  function CapName(c: string, k: Casing): string {
    var name := k.upper(TrimSpace(c));
    if "CAP_" <= name then name[4..] else name
  }

  predicate EscapeCap(name: string) {
    || name == "ALL" || name == "SYS_ADMIN" || name == "SYS_MODULE" || name == "SYS_RAWIO"
    || name == "SYS_PTRACE" || name == "DAC_READ_SEARCH" || name == "DAC_OVERRIDE" || name == "BPF"
  }

  predicate HostTrustingGroup(name: string) {
    name == "docker" || name == "disk" || name == "kmem"
  }

  predicate Mentions(s: string, t: string) {
    exists i :: 0 <= i <= |s| && t <= s[i..]
  }

  function OptReach(opt: string): Reach {
    if opt == "seccomp=unconfined" then One("seccomp-unconfined", 2)
    else if opt == "apparmor=unconfined" then One("apparmor-unconfined", 2)
    else if opt == "label=disable" then One("selinux-disabled", 2)
    else if opt == "no-new-privileges=true" then NONE
    else One("security-opt:" + opt, 1)
  }

  function CapReach(name: string): Reach {
    if name == "" then NONE else One("cap:" + name, if EscapeCap(name) then 2 else 1)
  }

  /** What one listed text grants. */
  ghost function ItemYield(d: Dimension, s: string, k: Casing): Reach {
    var t := TrimSpace(s);
    match d
    case CapAdd => CapReach(CapName(s, k))
    case BindMount => HostPath(s, "bind:")
    case Device => HostPath(s, "device:")
    case SecurityOpt => OptReach(k.lower(t))
    case Userns => if k.fold(t, "host") then One("userns-host", 2) else One("userns:" + t, 1)
    case GroupAdd => One("group:" + t, if HostTrustingGroup(k.lower(t)) then 2 else 1)
    case VolumesFrom => One("volumes-from:" + t, 1)
    case ReservedDevice => One("reserved-device:" + t, 1)
    case CgroupParent => One("cgroup-parent:" + t, 1)
    case NamespaceJoin => if Mentions(s, ":service:") then NONE else One("namespace-join:" + t, 1)
  }

  ghost function Yield(f: Fact, k: Casing): Reach {
    match f
    case Privileged => One("privileged", 2)
    case HostNetwork => One("host-network", 1)
    case HostPidOrIpc => One("host-pid-ipc", 2)
    case Item(d, s) => ItemYield(d, s, k)
  }

  /** One turn of one of the derivation's loops. */
  method AddItem(b: Builder, d: Dimension, s: string, k: Casing)
    modifies b
    ensures b.Value() == Both(old(b.Value()), ItemYield(d, s, k))
  {
    BothNone(b.Value());
    var t := TrimSpace(s);
    match d
    case CapAdd => AddCap(b, CapName(s, k));
    case BindMount => b.ClassifyHostPath(s, "bind:");
    case Device => b.ClassifyHostPath(s, "device:");
    case SecurityOpt => AddOpt(b, k.lower(t));
    case Userns =>
      if k.fold(t, "host") {
        b.Add(2, "userns-host");
      } else {
        b.Add(1, "userns:" + t);
      }
    case GroupAdd => b.Add(if HostTrustingGroup(k.lower(t)) then 2 else 1, "group:" + t);
    case VolumesFrom => b.Add(1, "volumes-from:" + t);
    case ReservedDevice => b.Add(1, "reserved-device:" + t);
    case CgroupParent => b.Add(1, "cgroup-parent:" + t);
    case NamespaceJoin =>
      if !Mentions(s, ":service:") {
        b.Add(1, "namespace-join:" + t);
      }
  }

  method AddFact(b: Builder, f: Fact, k: Casing)
    modifies b
    ensures b.Value() == Both(old(b.Value()), Yield(f, k))
  {
    match f
    case Privileged => b.Add(2, "privileged");
    case HostNetwork => b.Add(1, "host-network");
    case HostPidOrIpc => b.Add(2, "host-pid-ipc");
    case Item(d, s) => AddItem(b, d, s, k);
  }

  method AddCap(b: Builder, name: string)
    modifies b
    ensures b.Value() == Both(old(b.Value()), CapReach(name))
  {
    BothNone(b.Value());
    if name != "" {
      b.Add(if EscapeCap(name) then 2 else 1, "cap:" + name);
    }
  }

  method AddOpt(b: Builder, opt: string)
    modifies b
    ensures b.Value() == Both(old(b.Value()), OptReach(opt))
  {
    BothNone(b.Value());
    if opt == "seccomp=unconfined" {
      b.Add(2, "seccomp-unconfined");
    } else if opt == "apparmor=unconfined" {
      b.Add(2, "apparmor-unconfined");
    } else if opt == "label=disable" {
      b.Add(2, "selinux-disabled");
    } else if opt != "no-new-privileges=true" {
      b.Add(1, "security-opt:" + opt);
    }
  }

  // ---------- all facts together ----------

  ghost function Total(fs: seq<Fact>, grant: Fact -> Reach): Reach {
    if fs == [] then NONE else Both(Total(fs[..|fs| - 1], grant), grant(fs[|fs| - 1]))
  }

  ghost predicate Below(a: Reach, b: Reach) {
    && (a.socket ==> b.socket)
    && forall g :: g in a.grants ==> g in b.grants && a.grants[g] <= b.grants[g]
  }

  lemma BelowBoth(a: Reach, b: Reach, c: Reach)
    ensures Below(a, Both(a, b)) && Below(b, Both(a, b))
    ensures Below(a, c) && Below(b, c) ==> Below(Both(a, b), c)
  {
  }

  /** The total is an upper bound of what the facts yield. */
  lemma {:induction false} TotalAbove(fs: seq<Fact>, grant: Fact -> Reach, f: Fact)
    requires f in fs
    ensures Below(grant(f), Total(fs, grant))
  {
    var init, last := fs[..|fs| - 1], fs[|fs| - 1];
    BelowBoth(Total(init, grant), grant(last), NONE);
    if f != last {
      assert f in init;
      TotalAbove(init, grant, f);
    }
  }

  /** And the least one. */
  lemma {:induction false} TotalLeast(fs: seq<Fact>, grant: Fact -> Reach, bound: Reach)
    requires forall f :: f in fs ==> Below(grant(f), bound)
    ensures Below(Total(fs, grant), bound)
  {
    if fs != [] {
      var init, last := fs[..|fs| - 1], fs[|fs| - 1];
      TotalLeast(init, grant, bound);
      BelowBoth(Total(init, grant), grant(last), bound);
    }
  }

  lemma TotalMonotone(fs: seq<Fact>, gs: seq<Fact>, grant: Fact -> Reach)
    requires forall f :: f in fs ==> f in gs
    ensures Below(Total(fs, grant), Total(gs, grant))
  {
    forall f | f in fs ensures Below(grant(f), Total(gs, grant)) {
      TotalAbove(gs, grant, f);
    }
    TotalLeast(fs, grant, Total(gs, grant));
  }

  /** The total depends on the set of facts alone: neither order nor repetition. */
  lemma TotalBySet(fs: seq<Fact>, gs: seq<Fact>, grant: Fact -> Reach)
    requires forall f :: f in fs <==> f in gs
    ensures Total(fs, grant) == Total(gs, grant)
  {
    TotalMonotone(fs, gs, grant);
    TotalMonotone(gs, fs, grant);
    BelowAntisymmetric(Total(fs, grant), Total(gs, grant));
  }

  lemma BelowAntisymmetric(a: Reach, b: Reach)
    requires Below(a, b) && Below(b, a)
    ensures a == b
  {
    assert a.grants == b.grants;
  }

  /** Every grant comes from some fact, at the rank that fact gives it. */
  lemma {:induction false} TotalFrom(fs: seq<Fact>, grant: Fact -> Reach, g: string)
    requires g in Total(fs, grant).grants
    ensures exists f :: f in fs && g in grant(f).grants && grant(f).grants[g] == Total(fs, grant).grants[g]
  {
    var init, last := fs[..|fs| - 1], fs[|fs| - 1];
    var r, y := Total(init, grant), grant(last);
    if g in y.grants && y.grants[g] == Total(fs, grant).grants[g] {
      assert last in fs;
    } else {
      TotalFrom(init, grant, g);
      var f :| f in init && g in grant(f).grants && grant(f).grants[g] == r.grants[g];
      assert f in fs;
    }
  }

  ghost function Taken(f: SafetyFacts, k: Casing): Reach {
    Total(FactsOf(f), Yields(k))
  }

  ghost function Yields(k: Casing): Fact -> Reach {
    fact => Yield(fact, k)
  }

  // ---------- the result ----------

  datatype Declaration = Declaration(tier: string, dockerSocket: bool, grants: seq<string>)

  /** `r` is the highest rank among the grants. */
  ghost predicate Top(r: nat, grants: Grants) {
    && (forall g :: g in grants ==> grants[g] <= r)
    && (r > 0 ==> exists g :: g in grants && grants[g] == r)
  }

  ghost predicate Describes(p: Declaration, reach: Reach) {
    && (p.tier == ROUTINE || p.tier == ELEVATED || p.tier == HOST_TRUSTING)
    && Top(Rank(p.tier), reach.grants)
    && SortedKeysOf(p.grants, reach.grants)
    && p.dockerSocket == reach.socket
  }

  ghost predicate AtMostTwo(grants: Grants) {
    forall g :: g in grants ==> grants[g] <= 2
  }

  lemma RatedAtMostTwo(c: Path, prefix: string)
    ensures AtMostTwo(Rated(c, prefix).grants)
  {
  }

  lemma HostPathAtMostTwo(p: string, prefix: string)
    ensures AtMostTwo(HostPath(p, prefix).grants)
  {
    RatedAtMostTwo(Components(TrimSpace(p)), prefix);
  }

  lemma ItemAtMostTwo(d: Dimension, s: string, k: Casing)
    ensures AtMostTwo(ItemYield(d, s, k).grants)
  {
    match d
    case BindMount => HostPathAtMostTwo(s, "bind:");
    case Device => HostPathAtMostTwo(s, "device:");
    case CapAdd => assert AtMostTwo(CapReach(CapName(s, k)).grants);
    case SecurityOpt => assert AtMostTwo(OptReach(k.lower(TrimSpace(s))).grants);
    case _ =>
  }

  lemma YieldAtMostTwo(f: Fact, k: Casing)
    ensures AtMostTwo(Yield(f, k).grants)
  {
    if f.Item? {
      ItemAtMostTwo(f.dimension, f.text, k);
    }
  }

  lemma MergeAtMostTwo(a: Grants, b: Grants)
    requires AtMostTwo(a) && AtMostTwo(b)
    ensures AtMostTwo(Merge(a, b))
  {
  }

  /** privilegeBuilder.result. */
  method Result(b: Builder) returns (p: Declaration)
    requires AtMostTwo(b.grants)
    ensures Describes(p, b.Value())
  {
    var keys := SortedKeys(b.grants);
    var top := 0;
    for i := 0 to |keys|
      invariant top <= 2
      invariant forall j :: 0 <= j < i ==> b.grants[keys[j]] <= top
      invariant top > 0 ==> exists g :: g in b.grants && b.grants[g] == top
    {
      assert keys[i] in keys;
      if b.grants[keys[i]] > top {
        top := b.grants[keys[i]];
      }
    }
    p := Declaration(TierByRank(top), b.socket, keys);
  }

  lemma {:induction false} TotalAtMostTwo(fs: seq<Fact>, grant: Fact -> Reach)
    requires forall f :: AtMostTwo(grant(f).grants)
    ensures AtMostTwo(Total(fs, grant).grants)
  {
    if fs != [] {
      var init := fs[..|fs| - 1];
      TotalAtMostTwo(init, grant);
      MergeAtMostTwo(Total(init, grant).grants, grant(fs[|fs| - 1]).grants);
    }
  }

  lemma TotalMore(fs: seq<Fact>, i: nat, grant: Fact -> Reach)
    requires i < |fs|
    ensures Total(fs[..i + 1], grant) == Both(Total(fs[..i], grant), grant(fs[i]))
  {
    assert fs[..i + 1][..i] == fs[..i];
  }

  method AddAll(b: Builder, facts: seq<Fact>, k: Casing)
    requires b.Value() == NONE
    modifies b
    ensures b.Value() == Total(facts, Yields(k))
  {
    assert facts[..0] == [];
    for i := 0 to |facts|
      invariant b.Value() == Total(facts[..i], Yields(k))
    {
      TotalMore(facts, i, Yields(k));
      AddFact(b, facts[i], k);
    }
    assert facts[..|facts|] == facts;
  }

  method DerivePrivilege(f: SafetyFacts, k: Casing) returns (p: Declaration)
    ensures Describes(p, Taken(f, k))
  {
    var b := new Builder();
    AddAll(b, FactsOf(f), k);
    forall fact ensures AtMostTwo(Yields(k)(fact).grants) {
      YieldAtMostTwo(fact, k);
    }
    TotalAtMostTwo(FactsOf(f), Yields(k));
    p := Result(b);
  }

  /** Two derivations from the same facts, in any order, agree. */
  lemma DerivedUnique(p: Declaration, q: Declaration, reach: Reach)
    requires Describes(p, reach) && Describes(q, reach)
    ensures p == q
  {
    SortedKeysUnique(p.grants, q.grants);
  }
}
