/** secret.Contains (secret/secret.go): the type search with its shared seen set
    and memo tables, and the walk over a possibly cyclic heap, against plain
    reachability. */
module SecretWalk {
  import opened Text

  // ---------- types ----------

  type TypeId = nat

  /** What reflect says of a type. Kinds the search does not look into, such as
      numbers, strings, channels and functions, are Plain. */
  datatype Kind =
    | Plain
    | Interface
    | Pointer(elem: TypeId)
    | Slice(elem: TypeId)
    | Array(elem: TypeId)
    | Map(key: TypeId, elem: TypeId)
    | Struct(fields: seq<TypeId>)

  /** The finitely many types of a program, of which `value` is secret.Value. */
  datatype Universe = Universe(types: map<TypeId, Kind>, value: TypeId)

  function Below(k: Kind): seq<TypeId> {
    match k
    case Plain => []
    case Interface => []
    case Pointer(e) => [e]
    case Slice(e) => [e]
    case Array(e) => [e]
    case Map(k, e) => [k, e]
    case Struct(fs) => fs
  }

  ghost predicate Closed(u: Universe) {
    forall t, c :: t in u.types && c in Below(u.types[t]) ==> c in u.types
  }

  /** The two questions asked of a type: isValue and isInterface. */
  datatype Query = IsValue | IsInterface

  predicate Accepts(u: Universe, q: Query, t: TypeId) {
    match q
    case IsValue => t == u.value
    case IsInterface => t in u.types && u.types[t].Interface?
  }

  ghost predicate TypePath(u: Universe, p: seq<TypeId>) {
    && p != [] && (forall i :: 0 <= i < |p| ==> p[i] in u.types)
    && forall i :: 0 <= i < |p| - 1 ==> p[i + 1] in Below(u.types[p[i]])
  }

  /** A type the question accepts can be reached without passing an interface. */
  ghost predicate Reaches(u: Universe, q: Query, t: TypeId) {
    exists p :: TypePath(u, p) && p[0] == t && Accepts(u, q, p[|p| - 1])
  }

  lemma ReachesSelf(u: Universe, q: Query, t: TypeId)
    requires t in u.types && Accepts(u, q, t)
    ensures Reaches(u, q, t)
  {
    assert TypePath(u, [t]);
  }

  lemma ReachesBelow(u: Universe, q: Query, t: TypeId, c: TypeId)
    requires t in u.types && c in Below(u.types[t]) && Reaches(u, q, c)
    ensures Reaches(u, q, t)
  {
    var p :| TypePath(u, p) && p[0] == c && Accepts(u, q, p[|p| - 1]);
    assert TypePath(u, [t] + p);
  }

  /** What a type reaches through: its element, its key, each of its fields. */
  lemma ReachesThrough(u: Universe, q: Query, t: TypeId, c: TypeId)
    requires t in u.types && Reaches(u, q, c)
    requires match u.types[t]
             case Pointer(e) => c == e
             case Slice(e) => c == e
             case Array(e) => c == e
             case Map(k, e) => c == k || c == e
             case Struct(fs) => c in fs
             case _ => false
    ensures Reaches(u, q, t)
  {
    ReachesBelow(u, q, t, c);
  }

  /** And nothing else: an interface or a plain type reaches only itself. */
  lemma ReachesOnlySelf(u: Universe, q: Query, t: TypeId)
    requires t in u.types && (u.types[t].Plain? || u.types[t].Interface?)
    ensures Reaches(u, q, t) <==> Accepts(u, q, t)
  {
    if Accepts(u, q, t) {
      ReachesSelf(u, q, t);
    }
    if Reaches(u, q, t) {
      var p :| TypePath(u, p) && p[0] == t && Accepts(u, q, p[|p| - 1]);
      assert |p| > 1 ==> p[1] in Below(u.types[p[0]]);
    }
  }

  /** A set closed under Below in which nothing is accepted holds no start of an
      accepting path. */
  lemma {:induction false} ClosedSetExcludes(u: Universe, q: Query, s: set<TypeId>, p: seq<TypeId>)
    requires TypePath(u, p) && p[0] in s
    requires forall t :: t in s && t in u.types ==>
               !Accepts(u, q, t) && forall c :: c in Below(u.types[t]) ==> c in s
    ensures !Accepts(u, q, p[|p| - 1])
  {
    if |p| > 1 {
      assert TypePath(u, p[1..]) by {
        assert forall i :: 0 <= i < |p| - 1 ==> p[1..][i] == p[i + 1];
      }
      ClosedSetExcludes(u, q, s, p[1..]);
    }
  }

  /** What a search that found nothing has added to the seen set: types that are
      not accepted and whose components have all been seen. */
  ghost predicate Explored(u: Universe, q: Query, before: set<TypeId>, after: set<TypeId>) {
    && before <= after <= u.types.Keys
    && forall t :: t in after && t !in before ==>
         !Accepts(u, q, t) && forall c :: c in Below(u.types[t]) ==> c in after
  }

  lemma ExploredTrans(u: Universe, q: Query, a: set<TypeId>, b: set<TypeId>, c: set<TypeId>)
    requires Explored(u, q, a, b) && Explored(u, q, b, c)
    ensures Explored(u, q, a, c)
  {
  }

  /** `reach`: depth-first with one seen set shared by the whole search. */
  method Reach(u: Universe, q: Query, t: TypeId, seen: set<TypeId>) returns (found: bool, seen': set<TypeId>)
    requires Closed(u) && t in u.types && seen <= u.types.Keys
    ensures seen <= seen' <= u.types.Keys
    ensures found ==> Reaches(u, q, t)
    ensures !found ==> t in seen' && Explored(u, q, seen, seen')
    decreases u.types.Keys - seen, 1
  {
    if Accepts(u, q, t) {
      ReachesSelf(u, q, t);
      return true, seen;
    }
    if t in seen {
      return false, seen;
    }
    found, seen' := ReachAny(u, q, t, Below(u.types[t]), seen + {t});
  }

  /** The components of `t` in order, stopping at the first hit. */
  method ReachAny(u: Universe, q: Query, t: TypeId, cs: seq<TypeId>, seen: set<TypeId>)
    returns (found: bool, seen': set<TypeId>)
    requires Closed(u) && t in u.types && cs == Below(u.types[t]) && t in seen && seen <= u.types.Keys
    ensures seen <= seen' <= u.types.Keys
    ensures found ==> Reaches(u, q, t)
    ensures !found ==> Explored(u, q, seen, seen') && forall c :: c in cs ==> c in seen'
    decreases u.types.Keys - seen, 2
  {
    found, seen' := false, seen;
    for i := 0 to |cs|
      invariant seen <= seen' <= u.types.Keys && Explored(u, q, seen, seen')
      invariant forall j :: 0 <= j < i ==> cs[j] in seen'
    {
      ghost var before := seen';
      found, seen' := Reach(u, q, cs[i], seen');
      if found {
        ReachesBelow(u, q, t, cs[i]);
        return;
      }
      ExploredTrans(u, q, seen, before, seen');
    }
  }

  /** The search from an empty seen set decides reachability. */
  method SearchType(u: Universe, q: Query, t: TypeId) returns (found: bool)
    requires Closed(u) && t in u.types
    ensures found <==> Reaches(u, q, t)
  {
    var seen;
    found, seen := Reach(u, q, t, {});
    if !found {
      forall p | TypePath(u, p) && p[0] == t
        ensures !Accepts(u, q, p[|p| - 1])
      {
        ClosedSetExcludes(u, q, seen, p);
      }
    }
  }

  // ---------- values ----------

  /** A followed reference: address, length (of a slice) and type. */
  datatype Key = Key(ptr: nat, n: nat, typ: TypeId)

  /** A reflected value. Structs, arrays and interface contents are inline;
      pointers, slices and maps refer to the heap, or are nil. */
  datatype Val =
    | Leaf(t: TypeId)
    | Boxed(t: TypeId, held: Option<Val>)
    | Fields(t: TypeId, parts: seq<Val>)
    | Elems(t: TypeId, parts: seq<Val>)
    | Ref(t: TypeId, target: Option<Key>)

  /** What each reference leads to: the pointee, the elements, or the keys and
      values in iteration order. References may form cycles. */
  type Heap = map<Key, seq<Val>>

  predicate Typed(u: Universe, h: Heap, v: Val) {
    && v.t in u.types
    && match v
       case Leaf(t) => u.types[t].Plain?
       case Boxed(t, held) => u.types[t].Interface? && (held.Some? ==> Typed(u, h, held.value))
       case Fields(t, parts) =>
         && u.types[t].Struct? && |parts| == |u.types[t].fields|
         && forall i :: 0 <= i < |parts| ==> parts[i].t == u.types[t].fields[i] && Typed(u, h, parts[i])
       case Elems(t, parts) =>
         u.types[t].Array? && forall i :: 0 <= i < |parts| ==> parts[i].t == u.types[t].elem && Typed(u, h, parts[i])
       case Ref(t, target) =>
         && (u.types[t].Pointer? || u.types[t].Slice? || u.types[t].Map?)
         && (target.Some? ==> target.value in h && target.value.typ == t)
  }

  /** Every reference leads to well-typed contents of the component types. */
  ghost predicate TypedHeap(u: Universe, h: Heap) {
    forall k :: k in h ==> TypedContents(u, h, k.typ, h[k])
  }

  ghost predicate TypedContents(u: Universe, h: Heap, t: TypeId, vs: seq<Val>) {
    t in u.types && forall i :: 0 <= i < |vs| ==> Typed(u, h, vs[i]) && vs[i].t in Below(u.types[t])
  }

  function Children(h: Heap, v: Val): seq<Val> {
    match v
    case Leaf(_) => []
    case Boxed(_, held) => if held.Some? then [held.value] else []
    case Fields(_, parts) => parts
    case Elems(_, parts) => parts
    case Ref(_, target) => if target.Some? && target.value in h then h[target.value] else []
  }

  ghost predicate Path(h: Heap, p: seq<Val>) {
    p != [] && forall i :: 0 <= i < |p| - 1 ==> p[i + 1] in Children(h, p[i])
  }

  /** Some position reachable from `v` has a type that reaches secret.Value. */
  ghost predicate Carries(u: Universe, h: Heap, v: Val) {
    exists p: seq<Val> :: Path(h, p) && p[0] == v && Reaches(u, IsValue, p[|p| - 1].t)
  }

  lemma CarriesSelf(u: Universe, h: Heap, v: Val)
    requires Reaches(u, IsValue, v.t)
    ensures Carries(u, h, v)
  {
    assert Path(h, [v]);
  }

  lemma CarriesChild(u: Universe, h: Heap, v: Val, c: Val)
    requires c in Children(h, v) && Carries(u, h, c)
    ensures Carries(u, h, v)
  {
    var p: seq<Val> :| Path(h, p) && p[0] == c && Reaches(u, IsValue, p[|p| - 1].t);
    PathCons(h, v, p);
    CarriesBy(u, h, [v] + p);
  }

  /** What stands directly in `v`: what an interface holds, the parts of a struct or an
      array, or what a reference leads to. */
  ghost predicate Inside(h: Heap, v: Val, c: Val) {
    match v
    case Leaf(_) => false
    case Boxed(_, held) => held == Some(c)
    case Fields(_, parts) => c in parts
    case Elems(_, parts) => c in parts
    case Ref(_, target) => target.Some? && target.value in h && c in h[target.value]
  }

  lemma CarriesLater(u: Universe, h: Heap, p: seq<Val>)
    requires |p| > 1 && Path(h, p) && Reaches(u, IsValue, p[|p| - 1].t)
    ensures Inside(h, p[0], p[1]) && Carries(u, h, p[1])
  {
    var q := p[1..];
    assert forall i :: 0 <= i < |q| ==> q[i] == p[i + 1];
    assert Path(h, q);
    CarriesBy(u, h, q);
    assert p[1] in Children(h, p[0]);
  }

  /** A value carries a secret exactly when its type reaches one or something that
      stands in it carries one. */
  lemma CarriesIff(u: Universe, h: Heap, v: Val)
    ensures Carries(u, h, v) <==> Reaches(u, IsValue, v.t) || exists c :: Inside(h, v, c) && Carries(u, h, c)
  {
    if Carries(u, h, v) {
      var p: seq<Val> :| Path(h, p) && p[0] == v && Reaches(u, IsValue, p[|p| - 1].t);
      if |p| > 1 {
        CarriesLater(u, h, p);
      }
    }
    if Reaches(u, IsValue, v.t) {
      CarriesSelf(u, h, v);
    }
    if c :| Inside(h, v, c) && Carries(u, h, c) {
      CarriesChild(u, h, v, c);
    }
  }

  lemma CarriesBy(u: Universe, h: Heap, p: seq<Val>)
    requires Path(h, p) && Reaches(u, IsValue, p[|p| - 1].t)
    ensures Carries(u, h, p[0])
  {
  }

  lemma PathCons(h: Heap, v: Val, p: seq<Val>)
    requires Path(h, p) && p[0] in Children(h, v)
    ensures Path(h, [v] + p)
  {
  }

  /** The walk has settled `v`, relying on the references it has followed: its
      type carries no secret, and unless it can reach no interface either,
      everything inline below it is settled and its reference followed. */
  ghost predicate Settled(u: Universe, visited: set<Key>, v: Val) {
    && !Reaches(u, IsValue, v.t)
    && (Reaches(u, IsInterface, v.t) ==>
          match v
          case Leaf(_) => true
          case Boxed(_, held) => held.Some? ==> Settled(u, visited, held.value)
          case Fields(_, parts) => forall i :: 0 <= i < |parts| ==> Settled(u, visited, parts[i])
          case Elems(_, parts) => forall i :: 0 <= i < |parts| ==> Settled(u, visited, parts[i])
          case Ref(_, target) => target.Some? ==> target.value in visited)
  }

  lemma {:induction false} SettledMore(u: Universe, a: set<Key>, b: set<Key>, v: Val)
    requires a <= b && Settled(u, a, v)
    ensures Settled(u, b, v)
  {
    match v
    case Leaf(_) =>
    case Boxed(_, held) =>
      if held.Some? && Reaches(u, IsInterface, v.t) {
        SettledMore(u, a, b, held.value);
      }
    case Fields(_, parts) =>
      if Reaches(u, IsInterface, v.t) {
        forall i | 0 <= i < |parts| ensures Settled(u, b, parts[i]) {
          SettledMore(u, a, b, parts[i]);
        }
      }
    case Elems(_, parts) =>
      if Reaches(u, IsInterface, v.t) {
        forall i | 0 <= i < |parts| ensures Settled(u, b, parts[i]) {
          SettledMore(u, a, b, parts[i]);
        }
      }
    case Ref(_, target) =>
  }

  ghost predicate AllSettled(u: Universe, visited: set<Key>, vs: seq<Val>) {
    forall i :: 0 <= i < |vs| ==> Settled(u, visited, vs[i])
  }

  lemma AllSettledMore(u: Universe, a: set<Key>, b: set<Key>, vs: seq<Val>)
    requires a <= b && AllSettled(u, a, vs)
    ensures AllSettled(u, b, vs)
  {
    forall i | 0 <= i < |vs| ensures Settled(u, b, vs[i]) {
      SettledMore(u, a, b, vs[i]);
    }
  }

  /** The references followed between two moments all lead to settled contents. */
  ghost predicate Followed(u: Universe, h: Heap, before: set<Key>, after: set<Key>) {
    before <= after <= h.Keys && forall k :: k in after && k !in before ==> AllSettled(u, after, h[k])
  }

  lemma FollowedTrans(u: Universe, h: Heap, a: set<Key>, b: set<Key>, c: set<Key>)
    requires Followed(u, h, a, b) && Followed(u, h, b, c)
    ensures Followed(u, h, a, c)
  {
    forall k | k in c && k !in a ensures AllSettled(u, c, h[k]) {
      if k in b {
        AllSettledMore(u, b, c, h[k]);
      }
    }
  }

  // ---------- the walk ----------

  class Walker {
    const u: Universe
    const h: Heap
    var holds: map<TypeId, bool>
    var ifaces: map<TypeId, bool>
    var visited: set<Key>

    /** The memo tables agree with reachability. */
    ghost predicate Valid()
      reads this
    {
      && Closed(u) && TypedHeap(u, h) && visited <= h.Keys
      && (forall t :: t in holds ==> t in u.types && (holds[t] <==> Reaches(u, IsValue, t)))
      && (forall t :: t in ifaces ==> t in u.types && (ifaces[t] <==> Reaches(u, IsInterface, t)))
    }

    constructor (u: Universe, h: Heap)
      requires Closed(u) && TypedHeap(u, h)
      ensures this.u == u && this.h == h && Valid() && visited == {}
    {
      this.u, this.h := u, h;
      holds, ifaces, visited := map[], map[], {};
    }

    method TypeReaches(q: Query, t: TypeId) returns (r: bool)
      requires Valid() && t in u.types
      modifies this`holds, this`ifaces
      ensures Valid() && (r <==> Reaches(u, q, t))
    {
      var memo := if q.IsValue? then holds else ifaces;
      if t in memo {
        return memo[t];
      }
      r := SearchType(u, q, t);
      if q.IsValue? {
        holds := holds[t := r];
      } else {
        ifaces := ifaces[t := r];
      }
    }

    /** `walker.seen`: records a followed reference. */
    method Seen(k: Key) returns (again: bool)
      requires Valid() && k in h
      modifies this`visited
      ensures Valid() && again == (k in old(visited)) && visited == old(visited) + {k}
    {
      again := k in visited;
      visited := visited + {k};
    }

    /** `walker.value`. */
    method Value(v: Val) returns (r: bool)
      requires Valid() && Typed(u, h, v)
      modifies this
      ensures Valid() && old(visited) <= visited
      ensures r ==> Carries(u, h, v)
      ensures !r ==> Settled(u, visited, v) && Followed(u, h, old(visited), visited)
      decreases h.Keys - visited, v, 1
    {
      r := TypeReaches(IsValue, v.t);
      if r {
        CarriesSelf(u, h, v);
        return;
      }
      var i := TypeReaches(IsInterface, v.t);
      if !i {
        return false;
      }
      match v
      case Leaf(_) =>
      case Boxed(_, held) =>
        if held.Some? {
          r := Value(held.value);
          if r {
            CarriesChild(u, h, v, held.value);
          }
        }
      case Fields(_, parts) => r := Each(v, parts);
      case Elems(_, parts) => r := Each(v, parts);
      case Ref(_, target) =>
        if target.Some? {
          ghost var before := visited;
          var again := Seen(target.value);
          if again {
            assert visited == before;
            return false;
          }
          ghost var mid := visited;
          r := Each(v, h[target.value]);
          if !r {
            assert AllSettled(u, visited, h[target.value]);
            assert Followed(u, h, before, visited);
          }
        }
    }

    /** The positions below `v` in order, stopping at the first hit. */
    method Each(ghost v: Val, vs: seq<Val>) returns (r: bool)
      requires Valid() && vs == Children(h, v) && forall i :: 0 <= i < |vs| ==> Typed(u, h, vs[i])
      modifies this
      ensures Valid() && old(visited) <= visited
      ensures r ==> Carries(u, h, v)
      ensures !r ==> AllSettled(u, visited, vs) && Followed(u, h, old(visited), visited)
      decreases h.Keys - visited, vs, 0
    {
      r := false;
      ghost var start := visited;
      for i := 0 to |vs|
        invariant Valid() && Followed(u, h, start, visited)
        invariant AllSettled(u, visited, vs[..i])
      {
        ghost var before := visited;
        r := Value(vs[i]);
        if r {
          CarriesChild(u, h, v, vs[i]);
          return;
        }
        SettledStep(u, h, start, before, visited, vs, i);
      }
      assert vs[..|vs|] == vs;
    }
  }

  lemma SettledStep(u: Universe, h: Heap, start: set<Key>, before: set<Key>, after: set<Key>, vs: seq<Val>, i: nat)
    requires i < |vs| && AllSettled(u, before, vs[..i]) && Settled(u, after, vs[i])
    requires Followed(u, h, start, before) && Followed(u, h, before, after)
    ensures AllSettled(u, after, vs[..i + 1]) && Followed(u, h, start, after)
  {
    AllSettledMore(u, before, after, vs[..i]);
    FollowedTrans(u, h, start, before, after);
    assert vs[..i + 1] == vs[..i] + [vs[i]];
  }

  // ---------- the walk against reachability ----------

  /** A type that reaches neither: the walk does not look below it. */
  ghost predicate Inert(u: Universe, v: Val) {
    !Reaches(u, IsValue, v.t) && !Reaches(u, IsInterface, v.t)
  }

  /** Below an inert position every position is inert: the cut-off loses nothing. */
  lemma InertChild(u: Universe, h: Heap, v: Val, c: Val)
    requires Closed(u) && TypedHeap(u, h) && Typed(u, h, v) && Inert(u, v) && c in Children(h, v)
    ensures Typed(u, h, c) && Inert(u, c)
  {
    if v.Boxed? {
      ReachesSelf(u, IsInterface, v.t);
    } else {
      assert TypedContents(u, h, v.t, Children(h, v));
      forall q | Reaches(u, q, c.t) ensures Reaches(u, q, v.t) {
        ReachesBelow(u, q, v.t, c.t);
      }
    }
  }

  lemma SettledChild(u: Universe, h: Heap, visited: set<Key>, v: Val, c: Val)
    requires Closed(u) && TypedHeap(u, h) && Typed(u, h, v) && Followed(u, h, {}, visited)
    requires Settled(u, visited, v) && Reaches(u, IsInterface, v.t) && c in Children(h, v)
    ensures Typed(u, h, c) && Settled(u, visited, c)
  {
    if v.Ref? {
      assert AllSettled(u, visited, h[v.target.value]);
      assert TypedContents(u, h, v.t, h[v.target.value]);
    }
  }

  /** Nothing on any path from a settled position carries a secret. */
  lemma {:induction false} PathSafe(u: Universe, h: Heap, visited: set<Key>, p: seq<Val>)
    requires Closed(u) && TypedHeap(u, h) && Followed(u, h, {}, visited) && Path(h, p) && Typed(u, h, p[0])
    requires Settled(u, visited, p[0]) || Inert(u, p[0])
    ensures !Reaches(u, IsValue, p[|p| - 1].t)
  {
    if |p| > 1 {
      assert p[1] in Children(h, p[0]);
      if Reaches(u, IsInterface, p[0].t) {
        SettledChild(u, h, visited, p[0], p[1]);
      } else {
        InertChild(u, h, p[0], p[1]);
      }
      assert Path(h, p[1..]) by {
        assert forall i :: 0 <= i < |p| - 1 ==> p[1..][i] == p[i + 1];
      }
      PathSafe(u, h, visited, p[1..]);
    }
  }

  /** secret.Contains: on every well-typed heap, cyclic or not, it terminates and
      answers whether some reachable position can carry a Value. `None` is nil. */
  method Contains(u: Universe, h: Heap, x: Option<Val>) returns (r: bool)
    requires Closed(u) && TypedHeap(u, h) && (x.Some? ==> Typed(u, h, x.value))
    ensures r <==> x.Some? && Carries(u, h, x.value)
  {
    if x.None? {
      return false;
    }
    var w := new Walker(u, h);
    r := w.Value(x.value);
    if !r {
      forall p: seq<Val> | Path(h, p) && p[0] == x.value
        ensures !Reaches(u, IsValue, p[|p| - 1].t)
      {
        PathSafe(u, h, w.visited, p);
      }
    }
  }
}
