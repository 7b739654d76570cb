/** ValidateTileSafety (tileschema/validate.go): no undeclared privilege, and no
    reach into the trust chain at all. */
module Safety {
  import opened Text
  import opened Paths
  import opened Trust
  import opened Privilege
  import opened Derivation

  const CAPABILITY := "privilege-tiers-v1"

  datatype Tile = Tile(privilege: Option<Declaration>, required: seq<string>, needsHardware: string)

  function Declared(t: Tile): Declaration {
    match t.privilege
    case None => Declaration("", false, [])
    case Some(p) => p
  }

  predicate HexDigit(c: char) {
    '0' <= c <= '9' || 'a' <= c <= 'f'
  }

  /** validateImagePin. */
  predicate Pinned(img: string) {
    var at := IndexOf(img, '@');
    && TrimSpace(img) != ""
    && at < |img|
    && "sha256:" <= img[at + 1..]
    && |img[at + 8..]| == 64
    && (forall i :: at + 8 <= i < |img| ==> HexDigit(img[i]))
    && TrimSpace(img[..at]) != ""
  }

  predicate MountAllowed(m: string) {
    Absolute(TrimSpace(m)) && TrustChainViolation(m) == ""
  }

  predicate DeviceAllowed(d: string) {
    TrustChainViolation(d) == ""
  }

  // ---------- what is accepted ----------

  ghost predicate DeclaresGrant(d: Declaration, g: string) {
    exists h :: h in d.grants && TrimSpace(h) == g
  }

  /** The declaration covers everything the stack takes. */
  ghost predicate Covers(d: Declaration, taken: Reach) {
    && (forall g :: g in taken.grants ==> taken.grants[g] <= Rank(d.tier) && DeclaresGrant(d, g))
    && (taken.socket ==> d.dockerSocket)
  }

  ghost predicate AboveRoutine(taken: Reach) {
    exists g :: g in taken.grants && taken.grants[g] > 0
  }

  /** A name, then a sha256 digest of 64 lower-case hexadecimal digits. */
  ghost predicate DigestPinned(img: string) {
    exists name, hex: string :: PinnedAs(img, name, hex)
  }

  predicate PinnedAs(img: string, name: string, hex: string) {
    && img == name + ['@'] + ("sha256:" + hex) && '@' !in name && TrimSpace(name) != ""
    && |hex| == 64 && forall i :: 0 <= i < 64 ==> '0' <= hex[i] <= '9' || 'a' <= hex[i] <= 'f'
  }

  /** The facts that no declaration could excuse are not there. */
  ghost predicate FactsAllowed(f: SafetyFacts) {
    && f.images != [] && (forall img :: img in f.images ==> DigestPinned(img))
    && (forall m :: m in f.bindMounts ==> Absolute(TrimSpace(m)) && TrustChainViolation(m) == "")
    && (forall d :: d in f.devices ==> TrustChainViolation(d) == "")
  }

  ghost predicate DeclarationAllowed(t: Tile, hasDevices: bool, taken: Reach) {
    && Covers(Declared(t), taken)
    && (AboveRoutine(taken) ==> "privilege-tiers-v1" in t.required)
    && (hasDevices ==> TrimSpace(t.needsHardware) != "")
  }

  ghost predicate Accepts(t: Tile, f: SafetyFacts, k: Casing) {
    FactsAllowed(f) && DeclarationAllowed(t, f.devices != [], Taken(f, k))
  }

  // ---------- the validator ----------

  /** A loop that returns at the first text refused. */
  method All(texts: seq<string>, allowed: string -> bool) returns (ok: bool)
    ensures ok <==> forall s :: s in texts ==> allowed(s)
  {
    for i := 0 to |texts|
      invariant forall j :: 0 <= j < i ==> allowed(texts[j])
    {
      if !allowed(texts[i]) {
        return false;
      }
    }
    return true;
  }

  /** grantSet. */
  method GrantSet(d: Declaration) returns (have: set<string>)
    ensures forall g :: g in have <==> DeclaresGrant(d, g)
  {
    have := {};
    for i := 0 to |d.grants|
      invariant forall g :: g in have <==> exists h :: h in d.grants[..i] && TrimSpace(h) == g
    {
      assert d.grants[..i + 1] == d.grants[..i] + [d.grants[i]];
      have := have + {TrimSpace(d.grants[i])};
    }
    assert d.grants[..|d.grants|] == d.grants;
  }

  /** The derived grants that are not declared, in order. */
  method UndeclaredGrants(d: Declaration, derived: seq<string>) returns (missing: seq<string>)
    ensures forall g :: g in missing <==> g in derived && !DeclaresGrant(d, g)
  {
    var have := GrantSet(d);
    missing := [];
    for i := 0 to |derived|
      invariant forall g :: g in missing <==> g in derived[..i] && g !in have
    {
      if derived[i] !in have {
        missing := missing + [derived[i]];
      }
    }
  }

  /** The checks on the declaration, for a derived privilege that describes `taken`. */
  method DeclarationCovers(d: Declaration, derived: Declaration, ghost taken: Reach) returns (ok: bool)
    requires Describes(derived, taken)
    ensures ok <==> Covers(d, taken)
  {
    if Rank(d.tier) < Rank(derived.tier) {
      return false;
    }
    var missing := UndeclaredGrants(d, derived.grants);
    if |missing| > 0 {
      assert missing[0] in missing;
      return false;
    }
    return !derived.dockerSocket || d.dockerSocket;
  }

  lemma PinnedIff(img: string)
    ensures Pinned(img) <==> DigestPinned(img)
  {
    if Pinned(img) {
      PinnedReads(img);
    }
    if name, hex: string :| PinnedAs(img, name, hex) {
      CutAt(name, '@', "sha256:" + hex);
      ReadsPinned(img, name, hex);
    }
  }

  lemma PinnedReads(img: string)
    requires Pinned(img)
    ensures DigestPinned(img)
  {
    PinnedAt(img, IndexOf(img, '@'));
  }

  lemma PinnedAt(img: string, at: nat)
    requires at < |img| && img[at] == '@' && '@' !in img[..at] && TrimSpace(img[..at]) != ""
    requires "sha256:" <= img[at + 1..] && |img[at + 8..]| == 64
    requires forall i :: at + 8 <= i < |img| ==> HexDigit(img[i])
    ensures DigestPinned(img)
  {
    PinParts(img, at);
    HexTail(img, at + 8);
    assert PinnedAs(img, img[..at], img[at + 8..]);
  }

  lemma HexTail(img: string, from: nat)
    requires from <= |img| && forall i :: from <= i < |img| ==> HexDigit(img[i])
    ensures forall i :: 0 <= i < |img| - from ==> HexDigit(img[from..][i])
  {
  }

  lemma PinParts(img: string, at: nat)
    requires at < |img| && img[at] == '@' && "sha256:" <= img[at + 1..]
    ensures img == img[..at] + ['@'] + ("sha256:" + img[at + 8..])
  {
    var digest := img[at + 1..];
    assert digest == digest[..7] + digest[7..] && digest[7..] == img[at + 8..];
    assert img == img[..at] + ['@'] + digest;
  }

  lemma ReadsPinned(img: string, name: string, hex: string)
    requires PinnedAs(img, name, hex) && IndexOf(img, '@') == |name| && img[..|name|] == name
    requires img[|name| + 1..] == "sha256:" + hex
    ensures Pinned(img)
  {
    SolidSurvives(img, |name|);
    HexAfter(img, |name|, hex);
  }

  lemma HexAfter(img: string, at: nat, hex: string)
    requires at < |img| && img[at + 1..] == "sha256:" + hex && forall i :: 0 <= i < |hex| ==> HexDigit(hex[i])
    ensures |img| == at + 8 + |hex| && img[at + 8..] == hex && forall i :: at + 8 <= i < |img| ==> HexDigit(img[i])
  {
    var digest := img[at + 1..];
    assert digest[7..] == hex && img[at + 8..] == digest[7..];
    assert forall i :: at + 8 <= i < |img| ==> img[i] == hex[i - (at + 8)];
  }

  method CheckFacts(f: SafetyFacts) returns (ok: bool)
    ensures ok <==> FactsAllowed(f)
  {
    if |f.images| == 0 {
      return false;
    }
    forall img ensures Pinned(img) <==> DigestPinned(img) {
      PinnedIff(img);
    }
    ok := All(f.images, Pinned);
    if ok {
      ok := All(f.bindMounts, MountAllowed);
    }
    if ok {
      ok := All(f.devices, DeviceAllowed);
    }
  }

  method CheckDeclaration(t: Tile, hasDevices: bool, derived: Declaration, ghost taken: Reach) returns (ok: bool)
    requires Describes(derived, taken)
    ensures ok <==> DeclarationAllowed(t, hasDevices, taken)
  {
    ok := DeclarationCovers(Declared(t), derived, taken);
    if ok && Rank(derived.tier) > 0 && CAPABILITY !in t.required {
      ok := false;
    }
    if ok && hasDevices && TrimSpace(t.needsHardware) == "" {
      ok := false;
    }
  }

  method ValidateTileSafety(t: Tile, f: SafetyFacts, k: Casing) returns (ok: bool)
    ensures ok <==> Accepts(t, f, k)
  {
    ok := CheckFacts(f);
    if ok {
      var derived := DerivePrivilege(f, k);
      ok := CheckDeclaration(t, |f.devices| > 0, derived, Taken(f, k));
    }
  }

  // ---------- monotonicity ----------

  ghost predicate Sub(a: seq<string>, b: seq<string>) {
    forall s :: s in a ==> s in b
  }

  /** `f` has no fact that `g` lacks, and still names an image. */
  ghost predicate Fewer(f: SafetyFacts, g: SafetyFacts) {
    && f.images != [] && Sub(f.images, g.images)
    && (f.privileged ==> g.privileged) && (f.hostNetwork ==> g.hostNetwork) && (f.hostPidOrIpc ==> g.hostPidOrIpc)
    && forall d :: Sub(Listed(f, d), Listed(g, d))
  }

  /** `u` declares at least what `t` does. */
  ghost predicate Declares(u: Tile, t: Tile) {
    && Rank(Declared(t).tier) <= Rank(Declared(u).tier)
    && (forall g :: DeclaresGrant(Declared(t), g) ==> DeclaresGrant(Declared(u), g))
    && (Declared(t).dockerSocket ==> Declared(u).dockerSocket)
    && Sub(t.required, u.required)
    && (TrimSpace(t.needsHardware) != "" ==> TrimSpace(u.needsHardware) != "")
  }

  ghost predicate HasFact(f: SafetyFacts, fact: Fact) {
    match fact
    case Privileged => f.privileged
    case HostNetwork => f.hostNetwork
    case HostPidOrIpc => f.hostPidOrIpc
    case Item(CapAdd, s) => s in f.capAdd
    case Item(BindMount, s) => s in f.bindMounts
    case Item(Device, s) => s in f.devices
    case Item(SecurityOpt, s) => s in f.securityOpt
    case Item(Userns, s) => s in f.usernsMode
    case Item(GroupAdd, s) => s in f.groupAdd
    case Item(VolumesFrom, s) => s in f.volumesFrom
    case Item(ReservedDevice, s) => s in f.reservedDevices
    case Item(CgroupParent, s) => s in f.cgroupParent
    case Item(NamespaceJoin, s) => s in f.namespaceJoins
  }

  lemma EachHas(f: SafetyFacts, d: Dimension, fact: Fact)
    ensures fact in Each(f, d) <==> fact.Item? && fact.dimension == d && fact.text in Listed(f, d)
  {
    if fact.Item? && fact.dimension == d && fact.text in Listed(f, d) {
      var i :| 0 <= i < |Listed(f, d)| && Listed(f, d)[i] == fact.text;
      assert Each(f, d)[i] == fact;
    }
  }

  lemma FactsHave(f: SafetyFacts, fact: Fact)
    ensures fact in FactsOf(f) <==> HasFact(f, fact)
  {
    EachHas(f, CapAdd, fact);
    EachHas(f, BindMount, fact);
    EachHas(f, Device, fact);
    EachHas(f, SecurityOpt, fact);
    EachHas(f, Userns, fact);
    EachHas(f, GroupAdd, fact);
    EachHas(f, VolumesFrom, fact);
    EachHas(f, ReservedDevice, fact);
    EachHas(f, CgroupParent, fact);
    EachHas(f, NamespaceJoin, fact);
  }

  lemma FewerFacts(f: SafetyFacts, g: SafetyFacts, fact: Fact)
    requires Fewer(f, g) && fact in FactsOf(f)
    ensures fact in FactsOf(g)
  {
    FactsHave(f, fact);
    FewerHave(f, g, fact);
    FactsHave(g, fact);
  }

  lemma FewerHave(f: SafetyFacts, g: SafetyFacts, fact: Fact)
    requires Fewer(f, g) && HasFact(f, fact)
    ensures HasFact(g, fact)
  {
    if fact.Item? {
      assert Sub(Listed(f, fact.dimension), Listed(g, fact.dimension));
    }
  }

  lemma FewerTaken(f: SafetyFacts, g: SafetyFacts, k: Casing)
    requires Fewer(f, g)
    ensures Below(Taken(f, k), Taken(g, k))
  {
    forall fact | fact in FactsOf(f) ensures fact in FactsOf(g) {
      FewerFacts(f, g, fact);
    }
    TotalMonotone(FactsOf(f), FactsOf(g), Yields(k));
  }

  lemma CoversLess(d: Declaration, e: Declaration, less: Reach, taken: Reach)
    requires Below(less, taken) && Covers(d, taken)
    requires Rank(d.tier) <= Rank(e.tier) && (d.dockerSocket ==> e.dockerSocket)
    requires forall g :: DeclaresGrant(d, g) ==> DeclaresGrant(e, g)
    ensures Covers(e, less)
    ensures AboveRoutine(less) ==> AboveRoutine(taken)
  {
  }

  /** Dropping facts, or declaring more, never turns an accepted tile into a
      refused one. */
  lemma AcceptanceMonotone(t: Tile, f: SafetyFacts, u: Tile, g: SafetyFacts, k: Casing)
    requires Accepts(t, f, k) && Fewer(g, f) && Declares(u, t)
    ensures Accepts(u, g, k)
  {
    FewerTaken(g, f, k);
    FewerAllowed(g, f);
    DeclarationMonotone(t, u, f.devices != [], g.devices != [], Taken(f, k), Taken(g, k));
  }

  lemma FewerAllowed(g: SafetyFacts, f: SafetyFacts)
    requires Fewer(g, f) && FactsAllowed(f)
    ensures FactsAllowed(g) && (g.devices != [] ==> f.devices != [])
  {
    assert Sub(Listed(g, BindMount), Listed(f, BindMount)) && Sub(Listed(g, Device), Listed(f, Device));
    if g.devices != [] {
      assert g.devices[0] in f.devices;
    }
  }

  lemma DeclarationMonotone(t: Tile, u: Tile, has: bool, still: bool, taken: Reach, less: Reach)
    requires DeclarationAllowed(t, has, taken) && Declares(u, t) && Below(less, taken) && (still ==> has)
    ensures DeclarationAllowed(u, still, less)
  {
    CoversLess(Declared(t), Declared(u), less, taken);
  }

  /** The order and repetition of facts change nothing. */
  lemma AcceptanceByFacts(t: Tile, f: SafetyFacts, g: SafetyFacts, k: Casing)
    requires Fewer(f, g) && Fewer(g, f)
    ensures Taken(f, k) == Taken(g, k) && (Accepts(t, f, k) <==> Accepts(t, g, k))
  {
    FewerTaken(f, g, k);
    FewerTaken(g, f, k);
    BelowAntisymmetric(Taken(f, k), Taken(g, k));
    if Accepts(t, f, k) {
      AcceptanceMonotone(t, f, t, g, k);
    }
    if Accepts(t, g, k) {
      AcceptanceMonotone(t, g, t, f, k);
    }
  }

  /** A stack that takes nothing needs no declaration. */
  lemma RoutineAccepted(t: Tile, f: SafetyFacts, k: Casing)
    requires f.images != [] && (forall img :: img in f.images ==> DigestPinned(img)) && FactsOf(f) == []
    ensures Accepts(t, f, k)
  {
  }

  /** A tile that declares nothing is accepted only if it takes nothing but routine. */
  lemma UndeclaredTakesNothing(t: Tile, f: SafetyFacts, k: Casing)
    requires t.privilege.None? && Accepts(t, f, k)
    ensures Taken(f, k) == NONE
  {
    assert Taken(f, k).grants == map[];
  }

  /** Every grant of every fact of an accepted tile is declared, within the
      declared tier. */
  lemma AcceptedDeclares(t: Tile, f: SafetyFacts, k: Casing, fact: Fact, g: string)
    requires Accepts(t, f, k) && HasFact(f, fact) && g in Yield(fact, k).grants
    ensures DeclaresGrant(Declared(t), g) && Yield(fact, k).grants[g] <= Rank(Declared(t).tier)
  {
    FactsHave(f, fact);
    TotalAbove(FactsOf(f), Yields(k), fact);
    assert Below(Yield(fact, k), Taken(f, k));
  }

  /** And no tree it mounts holds anything of the trust chain. */
  lemma AcceptedSparesTrustChain(t: Tile, f: SafetyFacts, k: Casing, p: string, q: Path)
    requires Accepts(t, f, k) && (p in f.bindMounts || p in f.devices) && Components(p) <= q
    ensures Absolute(p) && !Protected(q)
  {
    assert TrustChainViolation(p) == "";
    ViolationIff(p);
  }
}
