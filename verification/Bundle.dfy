/** The catalog bundle (tileschema/bundle.go): one per-tile judgement, a strict
    reader and a tolerant one. What a tile is, beyond its id, and the judgement
    on it are parameters. */
module Bundle {
  import opened Text

  const CONTRACT_MAJOR := 1

  datatype BundleTile<T> = BundleTile(id: string, body: T)

  datatype Bundle<T> = Bundle(schemaVersion: int, version: int, tiles: seq<BundleTile<T>>)

  /** Why a tile is refused. */
  datatype Reason = Duplicate | Invalid(error: string)

  datatype Rejection = Rejection(id: string, reason: Reason)

  /** ValidateTile and, for an installable tile, ValidateTileSafety. */
  type Judge<!T> = BundleTile<T> -> Option<string>

  function CheckTile<T>(bt: BundleTile<T>, seen: set<string>, judge: Judge<T>): Option<Reason> {
    if bt.id in seen then Some(Duplicate)
    else
      match judge(bt)
      case Some(e) => Some(Invalid(e))
      case None => None
  }

  /** validateEnvelope. */
  predicate EnvelopeOk<T>(b: Bundle<T>) {
    0 < b.schemaVersion <= CONTRACT_MAJOR && b.version > 0 && |b.tiles| > 0
  }

  /** A bundle of the one contract this build knows, with a version and some tile. */
  ghost predicate Envelope<T>(b: Bundle<T>) {
    b.schemaVersion == 1 && b.version >= 1 && b.tiles != []
  }

  // ---------- which tiles are kept ----------

  /** A tile is kept when it is the first acceptable one with its id. */
  ghost predicate KeptAt<T>(tiles: seq<BundleTile<T>>, judge: Judge<T>, i: nat)
    requires i < |tiles|
  {
    && judge(tiles[i]).None?
    && forall j :: 0 <= j < i && tiles[j].id == tiles[i].id ==> judge(tiles[j]).Some?
  }

  ghost function ReasonAt<T>(tiles: seq<BundleTile<T>>, judge: Judge<T>, i: nat): Reason
    requires i < |tiles| && !KeptAt(tiles, judge, i)
  {
    if exists j :: 0 <= j < i && tiles[j].id == tiles[i].id && judge(tiles[j]).None? then Duplicate
    else Invalid(judge(tiles[i]).value)
  }

  /** The positions of the kept tiles, and of the others, in order. */
  ghost function KeptIndices<T>(tiles: seq<BundleTile<T>>, judge: Judge<T>, n: nat): seq<nat>
    requires n <= |tiles|
  {
    if n == 0 then []
    else KeptIndices(tiles, judge, n - 1) + if KeptAt(tiles, judge, n - 1) then [n - 1] else []
  }

  ghost function RejectedIndices<T>(tiles: seq<BundleTile<T>>, judge: Judge<T>, n: nat): seq<nat>
    requires n <= |tiles|
  {
    if n == 0 then []
    else RejectedIndices(tiles, judge, n - 1) + if KeptAt(tiles, judge, n - 1) then [] else [n - 1]
  }

  ghost predicate Increasing(ks: seq<nat>) {
    forall i, j :: 0 <= i < j < |ks| ==> ks[i] < ks[j]
  }

  lemma {:induction false} KeptIncreasing<T>(tiles: seq<BundleTile<T>>, judge: Judge<T>, n: nat)
    requires n <= |tiles|
    ensures Increasing(KeptIndices(tiles, judge, n))
    ensures forall i :: i in KeptIndices(tiles, judge, n) <==> 0 <= i < n && KeptAt(tiles, judge, i)
  {
    if n > 0 {
      KeptIncreasing(tiles, judge, n - 1);
      IncreasingMore(KeptIndices(tiles, judge, n - 1), n - 1);
    }
  }

  lemma {:induction false} RejectedIncreasing<T>(tiles: seq<BundleTile<T>>, judge: Judge<T>, n: nat)
    requires n <= |tiles|
    ensures Increasing(RejectedIndices(tiles, judge, n))
    ensures forall i :: i in RejectedIndices(tiles, judge, n) <==> 0 <= i < n && !KeptAt(tiles, judge, i)
  {
    if n > 0 {
      RejectedIncreasing(tiles, judge, n - 1);
      IncreasingMore(RejectedIndices(tiles, judge, n - 1), n - 1);
    }
  }

  lemma {:induction false} IndicesCount<T>(tiles: seq<BundleTile<T>>, judge: Judge<T>, n: nat)
    requires n <= |tiles|
    ensures |KeptIndices(tiles, judge, n)| + |RejectedIndices(tiles, judge, n)| == n
  {
    if n > 0 {
      IndicesCount(tiles, judge, n - 1);
    }
  }

  /** The two are an order-preserving split of all positions. */
  lemma IndicesSplit<T>(tiles: seq<BundleTile<T>>, judge: Judge<T>, n: nat)
    requires n <= |tiles|
    ensures Increasing(KeptIndices(tiles, judge, n)) && Increasing(RejectedIndices(tiles, judge, n))
    ensures forall i :: i in KeptIndices(tiles, judge, n) <==> 0 <= i < n && KeptAt(tiles, judge, i)
    ensures forall i :: i in RejectedIndices(tiles, judge, n) <==> 0 <= i < n && !KeptAt(tiles, judge, i)
    ensures |KeptIndices(tiles, judge, n)| + |RejectedIndices(tiles, judge, n)| == n
  {
    KeptIncreasing(tiles, judge, n);
    RejectedIncreasing(tiles, judge, n);
    IndicesCount(tiles, judge, n);
  }

  lemma IncreasingMore(ks: seq<nat>, k: nat)
    requires Increasing(ks) && forall i :: i in ks ==> i < k
    ensures Increasing(ks + [k]) && forall i :: i in ks + [k] <==> i in ks || i == k
    ensures ks + [] == ks
  {
    assert forall i :: 0 <= i < |ks| ==> ks[i] in ks;
  }

  ghost predicate KeepsAt<T>(kept: seq<BundleTile<T>>, tiles: seq<BundleTile<T>>, ks: seq<nat>) {
    |kept| == |ks| && forall j :: 0 <= j < |ks| ==> ks[j] < |tiles| && kept[j] == tiles[ks[j]]
  }

  ghost predicate RejectsAt<T>(rejected: seq<Rejection>, tiles: seq<BundleTile<T>>, judge: Judge<T>, rs: seq<nat>) {
    |rejected| == |rs| && forall j :: 0 <= j < |rs| ==>
      rs[j] < |tiles| && !KeptAt(tiles, judge, rs[j])
      && rejected[j] == Rejection(tiles[rs[j]].id, ReasonAt(tiles, judge, rs[j]))
  }

  /** What the tolerant reader makes of a corpus. */
  ghost predicate Partitions<T>(
    tiles: seq<BundleTile<T>>, judge: Judge<T>, kept: seq<BundleTile<T>>, rejected: seq<Rejection>)
  {
    && KeepsAt(kept, tiles, KeptIndices(tiles, judge, |tiles|))
    && RejectsAt(rejected, tiles, judge, RejectedIndices(tiles, judge, |tiles|))
  }

  /** The ids of the acceptable tiles so far. */
  ghost predicate SeenUpTo<T>(tiles: seq<BundleTile<T>>, judge: Judge<T>, n: nat, seen: set<string>)
    requires n <= |tiles|
  {
    forall id :: id in seen <==> exists j :: 0 <= j < n && tiles[j].id == id && judge(tiles[j]).None?
  }

  /** With that set, the per-tile check is the closed form. */
  lemma CheckIsKeptAt<T>(tiles: seq<BundleTile<T>>, judge: Judge<T>, i: nat, seen: set<string>)
    requires i < |tiles| && SeenUpTo(tiles, judge, i, seen)
    ensures CheckTile(tiles[i], seen, judge).None? <==> KeptAt(tiles, judge, i)
    ensures !KeptAt(tiles, judge, i) ==> CheckTile(tiles[i], seen, judge) == Some(ReasonAt(tiles, judge, i))
    ensures SeenUpTo(tiles, judge, i + 1, if KeptAt(tiles, judge, i) then seen + {tiles[i].id} else seen)
  {
  }

  // ---------- the readers ----------

  method PartitionTiles<T>(tiles: seq<BundleTile<T>>, judge: Judge<T>)
    returns (kept: seq<BundleTile<T>>, rejected: seq<Rejection>)
    ensures Partitions(tiles, judge, kept, rejected)
  {
    kept, rejected := [], [];
    var seen: set<string> := {};
    for i := 0 to |tiles|
      invariant SeenUpTo(tiles, judge, i, seen)
      invariant KeepsAt(kept, tiles, KeptIndices(tiles, judge, i))
      invariant RejectsAt(rejected, tiles, judge, RejectedIndices(tiles, judge, i))
    {
      CheckIsKeptAt(tiles, judge, i, seen);
      var check := CheckTile(tiles[i], seen, judge);
      if check.Some? {
        rejected := rejected + [Rejection(tiles[i].id, check.value)];
        continue;
      }
      seen := seen + {tiles[i].id};
      kept := kept + [tiles[i]];
    }
  }

  ghost predicate AllKept<T>(tiles: seq<BundleTile<T>>, judge: Judge<T>) {
    forall i :: 0 <= i < |tiles| ==> KeptAt(tiles, judge, i)
  }

  method Validate<T>(b: Bundle<T>, judge: Judge<T>) returns (ok: bool)
    ensures ok <==> Envelope(b) && AllKept(b.tiles, judge)
  {
    if !EnvelopeOk(b) {
      return false;
    }
    var seen: set<string> := {};
    for i := 0 to |b.tiles|
      invariant SeenUpTo(b.tiles, judge, i, seen)
      invariant forall j :: 0 <= j < i ==> KeptAt(b.tiles, judge, j)
    {
      CheckIsKeptAt(b.tiles, judge, i, seen);
      if CheckTile(b.tiles[i], seen, judge).Some? {
        return false;
      }
      seen := seen + {b.tiles[i].id};
    }
    return true;
  }

  /** ParseFetchedBundle, from what the decoder gave. */
  method ParseFetchedBundle<T>(decoded: Option<Bundle<T>>, judge: Judge<T>)
    returns (r: Option<Bundle<T>>, rejected: seq<Rejection>)
    ensures r.Some? ==> decoded.Some? && Envelope(decoded.value)
                        && r.value == decoded.value.(tiles := r.value.tiles)
                        && Partitions(decoded.value.tiles, judge, r.value.tiles, rejected)
    ensures r.Some? <==> decoded.Some? && Envelope(decoded.value)
                         && exists i :: 0 <= i < |decoded.value.tiles| && KeptAt(decoded.value.tiles, judge, i)
    ensures r.Some? ==> Envelope(r.value) && AllKept(r.value.tiles, judge)
  {
    if decoded.None? || !EnvelopeOk(decoded.value) {
      return None, [];
    }
    var b := decoded.value;
    var kept;
    kept, rejected := PartitionTiles(b.tiles, judge);
    IndicesSplit(b.tiles, judge, |b.tiles|);
    if |kept| == 0 {
      return None, rejected;
    }
    assert KeptIndices(b.tiles, judge, |b.tiles|)[0] in KeptIndices(b.tiles, judge, |b.tiles|);
    KeptAgain(b.tiles, judge, kept, rejected);
    r := Some(b.(tiles := kept));
  }

  /** ParseBundle, the strict reader. */
  method ParseBundle<T>(decoded: Option<Bundle<T>>, judge: Judge<T>) returns (r: Option<Bundle<T>>)
    ensures r == if decoded.Some? && Envelope(decoded.value) && AllKept(decoded.value.tiles, judge)
                 then decoded else None
  {
    if decoded.None? {
      return None;
    }
    var ok := Validate(decoded.value, judge);
    return if ok then decoded else None;
  }

  // ---------- the two agree ----------

  /** Nothing is rejected exactly when the strict reader accepts every tile, and
      then everything is kept. */
  lemma RejectsNothingIff<T>(
    tiles: seq<BundleTile<T>>, judge: Judge<T>, kept: seq<BundleTile<T>>, rejected: seq<Rejection>)
    requires Partitions(tiles, judge, kept, rejected)
    ensures rejected == [] <==> AllKept(tiles, judge)
    ensures rejected == [] ==> kept == tiles
  {
    var n := |tiles|;
    IndicesSplit(tiles, judge, n);
    var ks, rs := KeptIndices(tiles, judge, n), RejectedIndices(tiles, judge, n);
    if rejected == [] {
      assert rs == [];
      AllIndices(ks, n);
    } else {
      assert rs[0] in rs;
    }
  }

  lemma {:induction false} AllIndices(ks: seq<nat>, n: nat)
    requires Increasing(ks) && |ks| == n && forall k :: k in ks ==> k < n
    ensures forall j :: 0 <= j < n ==> ks[j] == j
    decreases n
  {
    if n > 0 {
      var init := ks[..n - 1];
      assert ks[n - 1] in ks;
      forall k | k in init ensures k < n - 1 {
        var j :| 0 <= j < n - 1 && init[j] == k;
        assert ks[j] < ks[n - 1];
      }
      AllIndices(init, n - 1);
      if n > 1 {
        assert ks[n - 2] < ks[n - 1];
      }
    }
  }

  /** What was kept is kept again, all of it. */
  lemma KeptAgain<T>(tiles: seq<BundleTile<T>>, judge: Judge<T>, kept: seq<BundleTile<T>>, rejected: seq<Rejection>)
    requires Partitions(tiles, judge, kept, rejected)
    ensures AllKept(kept, judge)
  {
    var ks := KeptIndices(tiles, judge, |tiles|);
    IndicesSplit(tiles, judge, |tiles|);
    forall i | 0 <= i < |kept| ensures KeptAt(kept, judge, i) {
      assert ks[i] in ks;
      forall j | 0 <= j < i && kept[j].id == kept[i].id ensures judge(kept[j]).Some? {
        assert ks[j] in ks && ks[j] < ks[i];
      }
    }
  }

  /** Partitioning again is the identity. */
  lemma PartitionTwice<T>(
    tiles: seq<BundleTile<T>>, judge: Judge<T>, kept: seq<BundleTile<T>>, rejected: seq<Rejection>,
    again: seq<BundleTile<T>>, more: seq<Rejection>)
    requires Partitions(tiles, judge, kept, rejected) && Partitions(kept, judge, again, more)
    ensures again == kept && more == []
  {
    KeptAgain(tiles, judge, kept, rejected);
    RejectsNothingIff(kept, judge, again, more);
  }
}
