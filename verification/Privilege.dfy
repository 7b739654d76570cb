/** The privilege a stack takes, derived from its facts (tileschema/privilege.go). */
module Privilege {
  import opened Text
  import opened Paths
  import opened Trust

  // ---------- tiers and grants ----------

  const ROUTINE := "routine"
  const ELEVATED := "elevated"
  const HOST_TRUSTING := "host-trusting"

  /** TierRank; an unknown name reads as zero. */
  function Rank(tier: string): nat {
    if tier == HOST_TRUSTING then 2 else if tier == ELEVATED then 1 else 0
  }

  function TierByRank(r: nat): (t: string)
    requires r <= 2
    ensures Rank(t) == r
  {
    if r == 2 then HOST_TRUSTING else if r == 1 then ELEVATED else ROUTINE
  }

  /** The ladder, and that an unknown tier is its lowest rung. */
  lemma TierRanks(tier: string)
    ensures Rank("routine") == 0 && Rank("elevated") == 1 && Rank("host-trusting") == 2
    ensures tier != "elevated" && tier != "host-trusting" ==> Rank(tier) == 0
    ensures TierByRank(0) == "routine" && TierByRank(1) == "elevated" && TierByRank(2) == "host-trusting"
  {
  }

  type Grants = map<string, nat>

  /** Grants with their ranks, and whether the runtime socket is reached. */
  datatype Reach = Reach(grants: Grants, socket: bool)

  const NONE := Reach(map[], false)

  function One(grant: string, rank: nat): Reach {
    Reach(map[grant := rank], false)
  }

  /** The union of the grants, each at the higher of its ranks. */
  function Merge(a: Grants, b: Grants): Grants {
    map g | g in a.Keys + b.Keys ::
      if g in a && g in b then (if a[g] < b[g] then b[g] else a[g]) else if g in a then a[g] else b[g]
  }

  function Both(a: Reach, b: Reach): Reach {
    Reach(Merge(a.grants, b.grants), a.socket || b.socket)
  }

  // ---------- host paths, by component ----------

  const SOCKETS: seq<Path> := [
    ["var", "run", "docker.sock"], ["run", "docker.sock"],
    ["var", "run", "containerd", "containerd.sock"], ["run", "containerd", "containerd.sock"]]

  const LOCALTIME: Path := ["etc", "localtime"]
  const DEV: Path := ["dev"]

  /** The host-trusting trees, in the order they are tried. */
  const SYSTEM: seq<Path> := [
    ["boot"], ["etc"], ["usr"], ["bin"], ["sbin"], ["lib"], ["lib64"], ["root"], ["proc"], ["sys"],
    ["run"], ["var", "run"]]
  const DATA_ROOTS: seq<Path> := [["var", "lib", "docker"], ["var", "lib", "containerd"], DOCKER, CONTAINERD]
  const STATE: seq<Path> := [VAR_RASPUTIN, ETC_RASPUTIN]

  const DOCKER_SOCKET := "docker-socket"
  const DOCKER_DATA_ROOT := "docker-data-root"

  /** Some root is an ancestor of `c`, or `c` itself. */
  ghost predicate Holds(roots: seq<Path>, c: Path) {
    exists i :: 0 <= i < |roots| && roots[i] <= c
  }

  /** Some root is inside `c`, or `c` itself. */
  ghost predicate Contains(c: Path, roots: seq<Path>) {
    exists i :: 0 <= i < |roots| && c <= roots[i]
  }

  /** What mounting the tree at `c` amounts to. */
  ghost function Rated(c: Path, prefix: string): Reach {
    var bind := prefix + Render(c);
    if c in SOCKETS then Reach(map[DOCKER_SOCKET := 2], true)
    else if Contains(c, SOCKETS) then Reach(Merge(map[DOCKER_SOCKET := 2], map[bind := 2]), true)
    else if APPS <= c || c == LOCALTIME then NONE
    else if c == [] || c == DEV || Holds(SYSTEM, c) then One(bind, 2)
    else if Holds(DATA_ROOTS, c) then One(DOCKER_DATA_ROOT, 2)
    else if Holds(STATE, c) then One(bind, 2)
    else One(bind, 1)
  }

  ghost function HostPath(p: string, prefix: string): Reach {
    var raw := TrimSpace(p);
    if raw == "" then NONE
    else if !Absolute(raw) then One(prefix + raw, 2)
    else Rated(Components(raw), prefix)
  }

  lemma SocketsProper()
    ensures forall i :: 0 <= i < |SOCKETS| ==> Proper(SOCKETS[i])
  {
  }

  /** A socket is nothing's ancestor. */
  lemma SocketsApart(i: nat, j: nat)
    requires i < |SOCKETS| && j < |SOCKETS| && SOCKETS[i] <= SOCKETS[j]
    ensures SOCKETS[i] == SOCKETS[j]
  {
    var a, b := SOCKETS[i], SOCKETS[j];
    assert a[0] == b[0] && a[1] == b[1];
    assert "var"[0] != "run"[0] && "docker.sock"[0] != "containerd"[0] && "run"[0] != "docker.sock"[0];
    if |a| > 2 {
      assert a[2] == b[2];
    }
  }

  lemma TreesProper()
    ensures Proper(LOCALTIME) && Proper(DEV)
    ensures forall i :: 0 <= i < |SYSTEM| ==> Proper(SYSTEM[i])
    ensures forall i :: 0 <= i < |DATA_ROOTS| ==> Proper(DATA_ROOTS[i])
    ensures forall i :: 0 <= i < |STATE| ==> Proper(STATE[i])
  {
    RootsProper();
  }

  // ---------- the builder ----------

  /** Some of the roots, tried in turn, is `clean` or an ancestor of it. */
  method AnyWithin(clean: string, roots: seq<Path>, ghost c: Path) returns (hit: bool)
    requires clean == Render(c) && Proper(c) && forall i :: 0 <= i < |roots| ==> Proper(roots[i])
    ensures hit <==> Holds(roots, c)
  {
    for i := 0 to |roots|
      invariant forall j :: 0 <= j < i ==> !(roots[j] <= c)
    {
      WithinIff(c, roots[i]);
      if Within(clean, Render(roots[i])) {
        return true;
      }
    }
    return false;
  }

  lemma MergeOne(a: Grants, g: string, rank: nat)
    ensures Merge(a, map[g := rank]) == if g in a && rank <= a[g] then a else a[g := rank]
  {
  }

  lemma MergeAssociative(a: Grants, b: Grants, c: Grants)
    ensures Merge(Merge(a, b), c) == Merge(a, Merge(b, c))
  {
  }

  class Builder {
    var grants: Grants
    var socket: bool

    constructor ()
      ensures Value() == NONE
    {
      grants, socket := map[], false;
    }

    function Value(): Reach
      reads this
    {
      Reach(grants, socket)
    }

    method Add(rank: nat, grant: string)
      modifies this
      ensures Value() == Both(old(Value()), One(grant, rank))
    {
      MergeOne(grants, grant, rank);
      if grant !in grants || rank > grants[grant] {
        grants := grants[grant := rank];
      }
    }

    /** classifyHostPath, which compares cleaned text. */
    method ClassifyHostPath(p: string, prefix: string)
      modifies this
      ensures Value() == Both(old(Value()), HostPath(p, prefix))
    {
      var raw := TrimSpace(p);
      if raw == "" {
        BothNone(Value());
        return;
      }
      if !Absolute(raw) {
        Add(2, prefix + raw);
        return;
      }
      ComponentsProper(raw);
      ClassifyClean(Clean(raw), prefix, Components(raw));
    }

    method ClassifyClean(clean: string, prefix: string, ghost c: Path)
      requires clean == Render(c) && Proper(c)
      modifies this
      ensures Value() == Both(old(Value()), Rated(c, prefix))
    {
      var found := ClassifySocket(clean, prefix, c);
      if !found {
        ClassifyTree(clean, prefix, c);
      }
    }

    /** The loop over the container-runtime sockets. */
    method ClassifySocket(clean: string, prefix: string, ghost c: Path) returns (found: bool)
      requires clean == Render(c) && Proper(c)
      modifies this
      ensures found <==> Contains(c, SOCKETS)
      ensures Value() == if found then Both(old(Value()), Rated(c, prefix)) else old(Value())
    {
      SocketsProper();
      for i := 0 to |SOCKETS|
        invariant Value() == old(Value())
        invariant forall j :: 0 <= j < i ==> !(c <= SOCKETS[j])
      {
        RenderInjective(c, SOCKETS[i]);
        UnderIff(SOCKETS[i], c);
        if clean == Render(SOCKETS[i]) {
          socket := true;
          Add(2, DOCKER_SOCKET);
          return true;
        }
        if Under(Render(SOCKETS[i]), clean) {
          ghost var was := grants;
          socket := true;
          Add(2, DOCKER_SOCKET);
          Add(2, prefix + clean);
          MergeAssociative(was, map[DOCKER_SOCKET := 2], map[prefix + clean := 2]);
          NotASocket(c, i);
          return true;
        }
      }
      return false;
    }

    /** The rest of the loops, for a path with no socket in it. */
    method ClassifyTree(clean: string, prefix: string, ghost c: Path)
      requires clean == Render(c) && Proper(c) && !Contains(c, SOCKETS)
      modifies this
      ensures Value() == Both(old(Value()), Rated(c, prefix))
    {
      NoSocket(c);
      TreesProper();
      RootsProper();
      WithinIff(c, APPS);
      RenderInjective(c, LOCALTIME);
      RenderInjective(c, DEV);
      RenderInjective(c, []);
      if Within(clean, Render(APPS)) || clean == Render(LOCALTIME) {
        BothNone(Value());
        return;
      }
      if clean == Render([]) || clean == Render(DEV) {
        Add(2, prefix + clean);
        return;
      }
      var system := AnyWithin(clean, SYSTEM, c);
      if system {
        Add(2, prefix + clean);
        return;
      }
      var data := AnyWithin(clean, DATA_ROOTS, c);
      if data {
        Add(2, DOCKER_DATA_ROOT);
        return;
      }
      var state := AnyWithin(clean, STATE, c);
      Add(if state then 2 else 1, prefix + clean);
    }
  }

  lemma BothNone(a: Reach)
    ensures Both(a, NONE) == a
  {
  }

  lemma NotASocket(c: Path, i: nat)
    requires i < |SOCKETS| && c <= SOCKETS[i] && c != SOCKETS[i]
    ensures c !in SOCKETS && Contains(c, SOCKETS)
  {
    if c in SOCKETS {
      var j :| 0 <= j < |SOCKETS| && SOCKETS[j] == c;
      SocketsApart(j, i);
    }
  }

  lemma NoSocket(c: Path)
    requires !Contains(c, SOCKETS)
    ensures c !in SOCKETS
  {
  }
}
