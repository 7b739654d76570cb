/** The independent reader of the sealed format (backupxfer/sealtest/open.go),
    and why it accepts exactly what the writer emitted. */
module Unseal {
  import opened Text
  import opened Credential
  import opened Intake
  import opened Seal

  datatype Opening = Opened(plain: Bytes) | Refused | Crashed

  function Prepend(p: Bytes, o: Opening): Opening {
    if o.Opened? then Opened(p + o.plain) else o
  }

  /** The reader's 64-bit `ChunkSize + Overhead`. */
  function ChunkLength(size: int): int {
    if size + TAG >= U63 then size + TAG - U64 else size + TAG
  }

  /** The decryption loop from chunk `counter` on: a chunk that does not open as
      an inner one is tried as the last one. */
  function OpenFrom(sc: Scheme, key: string, aad: Bytes, chunk: int, body: Bytes, counter: nat, sawLast: bool): Opening
    decreases |body|
  {
    if body == "" then (if sawLast then Opened("") else Refused)
    else if chunk < 0 then Crashed
    else if chunk == 0 then Refused
    else
      var n, short := Min(chunk, |body|), |body| < chunk;
      var inner := if short then None else sc.open(key, Nonce(counter, false), body[..n], aad);
      if inner.Some? then Prepend(inner.value, OpenFrom(sc, key, aad, chunk, body[n..], counter + 1, false))
      else
        var final := sc.open(key, Nonce(counter, true), body[..n], aad);
        if final.Some? then Prepend(final.value, OpenFrom(sc, key, aad, chunk, body[n..], counter + 1, true))
        else Refused
  }

  function OpenArchive(sc: Scheme, sealed: Bytes): Opening {
    if !(SEAL_MAGIC <= sealed) then Refused
    else
      var rest := sealed[MAGIC_BYTES..];
      var nl := IndexOf(rest, '\n');
      if nl == |rest| then Refused else OpenBody(sc, rest[..nl], rest[nl + 1..])
  }

  function OpenBody(sc: Scheme, header: Bytes, body: Bytes): Opening {
    var h := sc.parse(header);
    if h.None? then Refused
    else
      var key := sc.keyOf(h.value.epk);
      if key.None? then Refused
      else OpenFrom(sc, key.value, header, ChunkLength(h.value.chunkSize), body, 0, false)
  }

  /** The loop as written. */
  method Open(sc: Scheme, sealed: Bytes) returns (o: Opening)
    ensures o == OpenArchive(sc, sealed)
  {
    if !(SEAL_MAGIC <= sealed) {
      return Refused;
    }
    var rest := sealed[MAGIC_BYTES..];
    var nl := IndexOf(rest, '\n');
    if nl == |rest| {
      return Refused;
    }
    o := OpenLoop(sc, rest[..nl], rest[nl + 1..]);
  }

  method OpenLoop(sc: Scheme, header: Bytes, sealedBody: Bytes) returns (o: Opening)
    ensures o == OpenBody(sc, header, sealedBody)
  {
    var h := sc.parse(header);
    if h.None? {
      return Refused;
    }
    var key := sc.keyOf(h.value.epk);
    if key.None? {
      return Refused;
    }
    var chunk := ChunkLength(h.value.chunkSize);
    var body, plain, counter, sawLast := sealedBody, "", 0, false;
    while |body| > 0
      invariant OpenBody(sc, header, sealedBody)
             == Prepend(plain, OpenFrom(sc, key.value, header, chunk, body, counter, sawLast))
      decreases |body|
    {
      ghost var later := OpenFrom(sc, key.value, header, chunk, body, counter, sawLast);
      if chunk < 0 {
        return Crashed;
      }
      if chunk == 0 {
        return Refused;
      }
      var n, last := chunk, false;
      if |body| < chunk {
        n, last := |body|, true;
      }
      var out := sc.open(key.value, Nonce(counter, last), body[..n], header);
      if out.None? && !last {
        last := true;
        out := sc.open(key.value, Nonce(counter, last), body[..n], header);
      }
      if out.None? {
        return Refused;
      }
      ghost var before := plain;
      plain := plain + out.value;
      sawLast := last;
      body := body[n..];
      counter := counter + 1;
      PrependTwice(before, out.value, OpenFrom(sc, key.value, header, chunk, body, counter, sawLast));
    }
    o := if sawLast then Opened(plain) else Refused;
  }

  lemma {:induction false} NeverCrashes(
    sc: Scheme, key: string, aad: Bytes, chunk: int, body: Bytes, counter: nat, sawLast: bool)
    requires chunk >= 0
    ensures OpenFrom(sc, key, aad, chunk, body, counter, sawLast) != Crashed
    decreases |body|
  {
    if body != "" && chunk > 0 {
      var n := Min(chunk, |body|);
      NeverCrashes(sc, key, aad, chunk, body[n..], counter + 1, false);
      NeverCrashes(sc, key, aad, chunk, body[n..], counter + 1, true);
    }
  }

  /** The reader slices out of range exactly when the header names a key it has and
      a chunk size, a 64-bit integer, that sixteen more bytes leave or make negative,
      and there is a body. */
  lemma CrashesIff(sc: Scheme, header: Bytes, body: Bytes)
    requires var h := sc.parse(header);
             h.Some? ==> -0x8000_0000_0000_0000 <= h.value.chunkSize < 0x8000_0000_0000_0000
    ensures OpenBody(sc, header, body) == Crashed <==>
            && sc.parse(header).Some? && sc.keyOf(sc.parse(header).value.epk).Some? && body != ""
            && (sc.parse(header).value.chunkSize < -16 || sc.parse(header).value.chunkSize >= 0x7fff_ffff_ffff_fff0)
  {
    var h := sc.parse(header);
    if h.Some? && sc.keyOf(h.value.epk).Some? && ChunkLength(h.value.chunkSize) >= 0 {
      NeverCrashes(sc, sc.keyOf(h.value.epk).value, header, ChunkLength(h.value.chunkSize), body, 0, false);
    }
  }

  lemma PrependTwice(p: Bytes, q: Bytes, o: Opening)
    ensures Prepend(p, Prepend(q, o)) == Prepend(p + q, o)
  {
    if o.Opened? {
      assert p + (q + o.plain) == p + q + o.plain;
    }
  }

  // ---------- what was emitted ----------

  /** A seal of `rest` from `counter` on emits plaintext `p` under `nonce`. */
  ghost predicate Emits(rest: Bytes, counter: nat, nonce: string, p: Bytes)
    decreases |rest|
  {
    if |rest| < CHUNK then nonce == Nonce(counter, true) && p == rest
    else (nonce == Nonce(counter, false) && p == rest[..CHUNK]) || Emits(rest[CHUNK..], counter + 1, nonce, p)
  }

  ghost predicate EmittedBy(runs: set<Run>, key: string, nonce: string, aad: Bytes, p: Bytes) {
    exists r :: r in runs && r.key == key && r.header == aad && Emits(r.plain, 0, nonce, p)
  }

  /** Correct on what was emitted, and closed to everything else. */
  ghost predicate Ideal(sc: Scheme, runs: set<Run>) {
    forall key, nonce, c, aad, p ::
      sc.open(key, nonce, c, aad) == Some(p)
      <==> c == sc.seal(key, nonce, p, aad) && EmittedBy(runs, key, nonce, aad, p)
  }

  /** Each run's header says how to open it, and each run has its own key. */
  ghost predicate WellFormed(sc: Scheme, runs: set<Run>) {
    && (forall r, q :: r in runs && q in runs && r.key == q.key ==> r == q)
    && (forall r :: r in runs ==>
          && '\n' !in r.header && |r.plain| < U63
          && sc.parse(r.header).Some? && sc.parse(r.header).value.chunkSize == CHUNK
          && sc.keyOf(sc.parse(r.header).value.epk) == Some(r.key))
  }

  /** What a seal of `plain` still has to write at chunk `k`, if it gets there. */
  ghost function RestAt(plain: Bytes, k: nat): Option<Bytes> {
    if k == 0 then Some(plain) else if |plain| < CHUNK then None else RestAt(plain[CHUNK..], k - 1)
  }

  lemma {:induction false} RestAtNext(plain: Bytes, k: nat)
    ensures match RestAt(plain, k)
            case None => RestAt(plain, k + 1) == None
            case Some(rest) =>
              && |rest| <= |plain| && k * CHUNK <= |plain|
              && RestAt(plain, k + 1) == if |rest| < CHUNK then None else Some(rest[CHUNK..])
  {
    if k > 0 && |plain| >= CHUNK {
      RestAtNext(plain[CHUNK..], k - 1);
    }
  }

  /** The counter names the chunk: under chunk `k`'s nonce a seal emits chunk `k`
      and nothing else. */
  lemma {:induction false} EmitsAt(plain: Bytes, start: nat, k: nat, last: bool, p: Bytes)
    requires start + |plain| / CHUNK < U64 && start <= k < U64
    ensures Emits(plain, start, Nonce(k, last), p)
       <==> match RestAt(plain, k - start)
            case None => false
            case Some(rest) => last == (|rest| < CHUNK) && p == if last then rest else rest[..CHUNK]
    decreases |plain|
  {
    NonceInjective(k, last, start, |plain| < CHUNK);
    if |plain| >= CHUNK {
      if k == start {
        EmitsNotBefore(plain[CHUNK..], start + 1, k, last, p);
      } else {
        EmitsAt(plain[CHUNK..], start + 1, k, last, p);
      }
    }
  }

  lemma NonceLater(k: nat, last: bool, d: nat, flag: bool)
    requires k < d < U64
    ensures Nonce(k, last) != Nonce(d, flag)
  {
    NonceInjective(k, last, d, flag);
    SmallMod(k);
    SmallMod(d);
  }

  lemma SmallMod(n: nat)
    requires n < U64
    ensures n % U64 == n
  {
  }

  lemma {:induction false} EmitsNotBefore(plain: Bytes, start: nat, k: nat, last: bool, p: Bytes)
    requires start + |plain| / CHUNK < U64 && k < start
    ensures !Emits(plain, start, Nonce(k, last), p)
    decreases |plain|
  {
    NonceLater(k, last, start, |plain| < CHUNK);
    if |plain| >= CHUNK {
      OneChunkLess(|plain|);
      EmitsNotBefore(plain[CHUNK..], start + 1, k, last, p);
    }
  }

  /** What the reader can open under a run's key and header at chunk `k`. */
  lemma OpensAt(sc: Scheme, runs: set<Run>, r: Run, k: nat, last: bool, c: Bytes, p: Bytes)
    requires Ideal(sc, runs) && WellFormed(sc, runs) && r in runs && k <= |r.plain| / CHUNK + 1
    ensures sc.open(r.key, Nonce(k, last), c, r.header) == Some(p)
       <==> && c == sc.seal(r.key, Nonce(k, last), p, r.header)
            && match RestAt(r.plain, k)
               case None => false
               case Some(rest) => last == (|rest| < CHUNK) && p == if last then rest else rest[..CHUNK]
  {
    EmitsAt(r.plain, 0, k, last, p);
    assert EmittedBy(runs, r.key, Nonce(k, last), r.header, p) <==> Emits(r.plain, 0, Nonce(k, last), p);
  }

  // ---------- the reader accepts exactly the writer's output ----------

  ghost predicate Setting(sc: Scheme, runs: set<Run>, r: Run) {
    Ideal(sc, runs) && WellFormed(sc, runs) && Tagged(sc) && r in runs
  }

  ghost function OpenRun(sc: Scheme, r: Run, body: Bytes, k: nat, sawLast: bool): Opening {
    OpenFrom(sc, r.key, r.header, CHUNK + TAG, body, k, sawLast)
  }

  /** The chunks that are left open to the plaintext that is left. */
  lemma {:induction false} OpenComplete(sc: Scheme, runs: set<Run>, r: Run, k: nat, rest: Bytes, sawLast: bool)
    requires Setting(sc, runs, r) && RestAt(r.plain, k) == Some(rest)
    ensures OpenRun(sc, r, Body(sc, r.key, r.header, rest, k), k, sawLast) == Opened(rest)
    decreases |rest|
  {
    RestAtNext(r.plain, k);
    var body := Body(sc, r.key, r.header, rest, k);
    if |rest| < CHUNK {
      OpensAt(sc, runs, r, k, true, body, rest);
      assert body[..|body|] == body && body[|body|..] == "";
      assert OpenRun(sc, r, "", k + 1, true) == Opened("");
      assert OpenRun(sc, r, body, k, sawLast) == Prepend(rest, Opened(""));
      assert rest + "" == rest;
    } else {
      var c := sc.seal(r.key, Nonce(k, false), rest[..CHUNK], r.header);
      var tail := Body(sc, r.key, r.header, rest[CHUNK..], k + 1);
      assert body[..CHUNK + TAG] == c && body[CHUNK + TAG..] == tail;
      OpensAt(sc, runs, r, k, false, c, rest[..CHUNK]);
      OpenComplete(sc, runs, r, k + 1, rest[CHUNK..], false);
      assert rest[..CHUNK] + rest[CHUNK..] == rest;
    }
  }

  /** Past the last chunk nothing opens. */
  lemma NothingAfterLast(sc: Scheme, runs: set<Run>, r: Run, k: nat, body: Bytes, sawLast: bool)
    requires Setting(sc, runs, r) && RestAt(r.plain, k) == None && k <= |r.plain| / CHUNK + 1
    ensures body != "" ==> OpenRun(sc, r, body, k, sawLast) == Refused
  {
    var c := body[..Min(CHUNK + TAG, |body|)];
    forall last, p ensures sc.open(r.key, Nonce(k, last), c, r.header) != Some(p) {
      OpensAt(sc, runs, r, k, last, c, p);
    }
    assert forall last :: sc.open(r.key, Nonce(k, last), c, r.header) == None;
  }

  /** Only the chunks that are left, all of them, in order, open. */
  lemma {:induction false} OpenSound(sc: Scheme, runs: set<Run>, r: Run, k: nat, rest: Bytes, body: Bytes)
    requires Setting(sc, runs, r) && RestAt(r.plain, k) == Some(rest)
    requires OpenRun(sc, r, body, k, false).Opened?
    ensures body == Body(sc, r.key, r.header, rest, k)
    decreases |body|
  {
    RestAtNext(r.plain, k);
    var n := Min(CHUNK + TAG, |body|);
    var c, tail := body[..n], body[n..];
    assert body == c + tail;
    var inner := if |body| < CHUNK + TAG then None else sc.open(r.key, Nonce(k, false), c, r.header);
    if inner.Some? {
      OpensAt(sc, runs, r, k, false, c, inner.value);
      OpenSound(sc, runs, r, k + 1, rest[CHUNK..], tail);
    } else {
      var final := sc.open(r.key, Nonce(k, true), c, r.header);
      OpensAt(sc, runs, r, k, true, c, final.value);
      NothingAfterLast(sc, runs, r, k + 1, tail, true);
    }
  }

  lemma FirstChunk(sc: Scheme, runs: set<Run>, header: Bytes, body: Bytes) returns (r: Run)
    requires Ideal(sc, runs) && OpenBody(sc, header, body).Opened?
    ensures r in runs && r.header == header && Some(r.key) == sc.keyOf(sc.parse(header).value.epk)
  {
    var h := sc.parse(header).value;
    var key, chunk := sc.keyOf(h.epk).value, ChunkLength(h.chunkSize);
    var c := body[..Min(chunk, |body|)];
    var last := |body| < chunk || sc.open(key, Nonce(0, false), c, header).None?;
    var p := sc.open(key, Nonce(0, last), c, header).value;
    assert EmittedBy(runs, key, Nonce(0, last), header, p);
    r :| r in runs && r.key == key && r.header == header && Emits(r.plain, 0, Nonce(0, last), p);
  }

  lemma OpenBodyOf(sc: Scheme, runs: set<Run>, r: Run, body: Bytes)
    requires Setting(sc, runs, r)
    ensures OpenBody(sc, r.header, body) == OpenRun(sc, r, body, 0, false)
  {
  }

  /** Splitting off a prefix and the line after it. */
  lemma LineParts(top: Bytes, header: Bytes, body: Bytes, sealed: Bytes)
    requires '\n' !in header
    ensures sealed == top + header + "\n" + body <==>
              && top <= sealed
              && var rest := sealed[|top|..]; var nl := IndexOf(rest, '\n');
              && nl < |rest| && rest[..nl] == header && rest[nl + 1..] == body
  {
    if sealed == top + header + "\n" + body {
      var rest := sealed[|top|..];
      assert rest == header + "\n" + body;
      assert rest[..|header|] == header;
      IndexOfUnique(rest, '\n', |header|);
      assert rest[|header| + 1..] == body;
    } else if top <= sealed {
      var rest := sealed[|top|..];
      var nl := IndexOf(rest, '\n');
      assert sealed == top + rest;
      if nl < |rest| {
        assert rest == rest[..nl] + "\n" + rest[nl + 1..];
      }
    }
  }

  lemma LayoutParts(sc: Scheme, r: Run, sealed: Bytes)
    requires '\n' !in r.header
    ensures sealed == Layout(sc, r) <==>
              && SEAL_MAGIC <= sealed
              && var rest := sealed[MAGIC_BYTES..]; var nl := IndexOf(rest, '\n');
              && nl < |rest| && rest[..nl] == r.header && rest[nl + 1..] == Body(sc, r.key, r.header, r.plain, 0)
  {
    LineParts(SEAL_MAGIC, r.header, Body(sc, r.key, r.header, r.plain, 0), sealed);
  }

  /** Under an ideal AEAD the reader accepts a file exactly when it is, byte for
      byte, the archive of one of the seals that were made, and then returns
      exactly that seal's plaintext. So every truncation, extension, drop, swap,
      repeat, splice or header edit is refused, for every plaintext length. */
  lemma OpensExactlyWhatWasSealed(sc: Scheme, runs: set<Run>, sealed: Bytes, x: Bytes)
    requires Ideal(sc, runs) && WellFormed(sc, runs) && Tagged(sc)
    ensures OpenArchive(sc, sealed) == Opened(x) <==> exists r :: r in runs && sealed == Layout(sc, r) && x == r.plain
  {
    forall r | r in runs && sealed == Layout(sc, r)
      ensures OpenArchive(sc, sealed) == Opened(r.plain)
    {
      LayoutParts(sc, r, sealed);
      OpenBodyOf(sc, runs, r, Body(sc, r.key, r.header, r.plain, 0));
      OpenComplete(sc, runs, r, 0, r.plain, false);
    }
    if OpenArchive(sc, sealed).Opened? {
      var rest := sealed[MAGIC_BYTES..];
      var nl := IndexOf(rest, '\n');
      var header, body := rest[..nl], rest[nl + 1..];
      var r := FirstChunk(sc, runs, header, body);
      OpenBodyOf(sc, runs, r, body);
      OpenSound(sc, runs, r, 0, r.plain, body);
      LayoutParts(sc, r, sealed);
      assert r in runs && sealed == Layout(sc, r);
    }
  }

  // ---------- the hypotheses can be met ----------

  type Memory = (string, string, Bytes, Bytes) -> bool

  function OpenTagged(z: Bytes, emitted: Memory, key: string, nonce: string, c: Bytes, aad: Bytes): Option<Bytes> {
    if z <= c && emitted(key, nonce, aad, c[|z|..]) then Some(c[|z|..]) else None
  }

  /** The key of the seal with this header. */
  ghost function KeyFor(runs: set<Run>, header: Bytes): Option<string> {
    if exists r :: r in runs && r.header == header then
      var r :| r in runs && r.header == header;
      Some(r.key)
    else None
  }

  /** The functionality itself: a fixed tag, and a memory of what was emitted. The
      header stands for its own ephemeral key. */
  ghost function Remembering(z: Bytes, runs: set<Run>): Scheme {
    Scheme(
      (key: string, nonce: string, p: Bytes, aad: Bytes) => z + p,
      (key: string, nonce: string, c: Bytes, aad: Bytes) => OpenTagged(z, MemoryOf(runs), key, nonce, c, aad),
      (h: Bytes) => Some(Header(h, CHUNK)),
      (epk: string) => KeyFor(runs, epk))
  }

  lemma OpensTagged(z: Bytes, emitted: Memory, key: string, nonce: string, c: Bytes, aad: Bytes, p: Bytes)
    ensures OpenTagged(z, emitted, key, nonce, c, aad) == Some(p) <==> c == z + p && emitted(key, nonce, aad, p)
  {
    if z <= c {
      assert c == z + c[|z|..];
    }
    if c == z + p {
      assert c[|z|..] == p;
    }
  }

  ghost function MemoryOf(runs: set<Run>): Memory {
    (key: string, nonce: string, aad: Bytes, p: Bytes) => EmittedBy(runs, key, nonce, aad, p)
  }

  lemma RememberingIdeal(z: Bytes, runs: set<Run>)
    ensures Ideal(Remembering(z, runs), runs)
  {
    forall key, nonce, c, aad, p
      ensures OpenTagged(z, MemoryOf(runs), key, nonce, c, aad) == Some(p) <==>
              c == z + p && EmittedBy(runs, key, nonce, aad, p)
    {
      OpensTagged(z, MemoryOf(runs), key, nonce, c, aad, p);
    }
  }

  /** No two seals share a key or a header; each is of a file, under one line. */
  ghost predicate Separate(runs: set<Run>) {
    && (forall r, q :: r in runs && q in runs && (r.key == q.key || r.header == q.header) ==> r == q)
    && (forall r :: r in runs ==> '\n' !in r.header && |r.plain| < U63)
  }

  lemma RememberingWellFormed(z: Bytes, runs: set<Run>)
    requires Separate(runs)
    ensures WellFormed(Remembering(z, runs), runs)
  {
    forall r | r in runs ensures KeyFor(runs, r.header) == Some(r.key) {
      var q :| q in runs && q.header == r.header && KeyFor(runs, r.header) == Some(q.key);
    }
  }

  /** An ideal scheme exists for a set of seals, if and only if no two of them share
      a key or a header. */
  lemma IdealExistsIff(runs: set<Run>, z: Bytes)
    requires |z| == TAG
    ensures (exists sc :: Ideal(sc, runs) && WellFormed(sc, runs) && Tagged(sc)) <==> Separate(runs)
  {
    if sc :| Ideal(sc, runs) && WellFormed(sc, runs) && Tagged(sc) {
      forall r, q | r in runs && q in runs && r.header == q.header ensures r == q {
        assert Some(r.key) == sc.keyOf(sc.parse(r.header).value.epk) == Some(q.key);
      }
    }
    if Separate(runs) {
      RememberingIdeal(z, runs);
      RememberingWellFormed(z, runs);
      assert Tagged(Remembering(z, runs));
    }
  }
}
