/** The sealed archive format and its chunked STREAM writer (backupxfer/seal.go),
    over an AEAD (ChaCha20-Poly1305, section 2.8 of RFC 8439). */
module Seal {
  import opened Text
  import opened Credential
  import opened Intake

  const U63 := 0x8000_0000_0000_0000

  datatype Header = Header(epk: string, chunkSize: int)

  /** The primitives: an AEAD, the header's JSON codec, and the key a reader
      derives from the header's ephemeral key. */
  datatype Scheme = Scheme(
    seal: (string, string, Bytes, Bytes) -> Bytes,          // key, nonce, plaintext, additional data
    open: (string, string, Bytes, Bytes) -> Option<Bytes>,  // key, nonce, ciphertext, additional data
    parse: Bytes -> Option<Header>,
    keyOf: string -> Option<string>)

  /** One call of Seal: its content key, its header line and what was read. */
  datatype Run = Run(key: string, header: Bytes, plain: Bytes)

  // ---------- nonces ----------

  function BigEndian(n: nat, k: nat): (s: string)
    ensures |s| == k
  {
    if k == 0 then "" else BigEndian(n / 256, k - 1) + [(n % 256) as char]
  }

  /** The counter in eight bytes, the last-chunk flag, three zero bytes. The
      counter is a uint64. */
  function Nonce(counter: nat, last: bool): (s: string)
    ensures |s| == 12
  {
    BigEndian(counter % U64, 8) + [if last then '\U{01}' else '\0', '\0', '\0', '\0']
  }

  function Pow256(k: nat): nat {
    if k == 0 then 1 else 256 * Pow256(k - 1)
  }

  lemma {:induction false} BigEndianInjective(a: nat, b: nat, k: nat)
    requires a < Pow256(k) && b < Pow256(k) && BigEndian(a, k) == BigEndian(b, k)
    ensures a == b
  {
    if k > 0 {
      var x, y := BigEndian(a / 256, k - 1), BigEndian(b / 256, k - 1);
      assert BigEndian(a, k)[..k - 1] == x && BigEndian(b, k)[..k - 1] == y;
      assert BigEndian(a, k)[k - 1] == (a % 256) as char;
      assert BigEndian(b, k)[k - 1] == (b % 256) as char;
      BigEndianInjective(a / 256, b / 256, k - 1);
    }
  }

  /** binary.BigEndian.Uint64: the number eight bytes stand for. */
  function FromBigEndian(s: string): nat {
    if s == "" then 0 else FromBigEndian(s[..|s| - 1]) * 256 + s[|s| - 1] as int
  }

  lemma FromBigEndianSnoc(t: string, x: char)
    ensures FromBigEndian(t + [x]) == FromBigEndian(t) * 256 + x as int
  {
    var s := t + [x];
    assert s[..|s| - 1] == t;
  }

  lemma {:induction false} BigEndianReads(n: nat, k: nat)
    requires n < Pow256(k)
    ensures FromBigEndian(BigEndian(n, k)) == n
  {
    if k > 0 {
      FromBigEndianSnoc(BigEndian(n / 256, k - 1), (n % 256) as char);
      BigEndianReads(n / 256, k - 1);
    }
  }

  lemma Pow256Of8()
    ensures Pow256(8) == U64
  {
    assert Pow256(4) == 0x1_0000_0000;
  }

  /** What a nonce says: the counter in eight bytes, the flag in the ninth, and three
      zero bytes. */
  lemma NonceReads(c: nat, last: bool)
    ensures FromBigEndian(Nonce(c, last)[..8]) == c % U64
    ensures Nonce(c, last)[8] as int == (if last then 1 else 0)
    ensures forall i :: 9 <= i < 12 ==> Nonce(c, last)[i] as int == 0
  {
    Pow256Of8();
    BigEndianReads(c % U64, 8);
    assert Nonce(c, last)[..8] == BigEndian(c % U64, 8);
  }

  lemma NonceInjective(c: nat, last: bool, d: nat, last': bool)
    ensures Nonce(c, last) == Nonce(d, last') <==> c % U64 == d % U64 && last == last'
  {
    if Nonce(c, last) == Nonce(d, last') {
      assert Nonce(c, last)[..8] == BigEndian(c % U64, 8);
      assert Nonce(d, last')[..8] == BigEndian(d % U64, 8);
      assert Nonce(c, last)[8] == if last then '\U{01}' else '\0';
      assert Nonce(d, last')[8] == if last' then '\U{01}' else '\0';
      Pow256Of8();
      BigEndianInjective(c % U64, d % U64, 8);
    }
  }

  /** The nonce of chunk `i` of a seal of `n` chunks: the last one is flagged. */
  function ChunkNonce(i: nat, n: nat): string {
    Nonce(i, i + 1 == n)
  }

  /** The nonces of one seal never repeat as long as the counter has not gone
      round and met an unflagged chunk again. */
  lemma NoncesDistinctIff(n: nat)
    ensures (forall i: nat, j: nat :: i < j < n ==> ChunkNonce(i, n) != ChunkNonce(j, n)) <==> n <= U64 + 1
  {
    if n > U64 + 1 {
      ChunkNoncesMeet(0, U64, n);
    } else {
      forall i: nat, j: nat | i < j < n ensures ChunkNonce(i, n) != ChunkNonce(j, n) {
        ChunkNoncesMeet(i, j, n);
      }
    }
  }

  lemma ChunkNoncesMeet(i: nat, j: nat, n: nat)
    requires i < j < n
    ensures ChunkNonce(i, n) == ChunkNonce(j, n) <==> i % U64 == j % U64 && j + 1 != n
  {
    NonceInjective(i, i + 1 == n, j, j + 1 == n);
  }

  // ---------- the layout ----------

  /** The sealed chunks of `rest`, counting from `counter`: full chunks, then
      one flagged chunk of what is left, which may be empty. */
  function Body(sc: Scheme, key: string, aad: Bytes, rest: Bytes, counter: nat): Bytes
    decreases |rest|
  {
    if |rest| < CHUNK then sc.seal(key, Nonce(counter, true), rest, aad)
    else sc.seal(key, Nonce(counter, false), rest[..CHUNK], aad) + Body(sc, key, aad, rest[CHUNK..], counter + 1)
  }

  function Layout(sc: Scheme, r: Run): Bytes {
    SEAL_MAGIC + r.header + "\n" + Body(sc, r.key, r.header, r.plain, 0)
  }

  /** An AEAD adds a 16-byte tag. */
  ghost predicate Tagged(sc: Scheme) {
    forall k, n, p, a :: |sc.seal(k, n, p, a)| == |p| + TAG
  }

  /** floor(P / 64 Ki) + 1 chunks, each with its tag. */
  lemma {:induction false} BodyLength(sc: Scheme, key: string, aad: Bytes, rest: Bytes, counter: nat)
    requires Tagged(sc)
    ensures |Body(sc, key, aad, rest, counter)| == |rest| + (|rest| / CHUNK + 1) * TAG
    decreases |rest|
  {
    if |rest| >= CHUNK {
      BodyLength(sc, key, aad, rest[CHUNK..], counter + 1);
      OneChunkLess(|rest|);
    }
  }

  lemma OneChunkLess(n: nat)
    requires n >= CHUNK
    ensures (n - CHUNK) / CHUNK + 1 == n / CHUNK
    ensures n - CHUNK + (n / CHUNK) * TAG + CHUNK + TAG == n + (n / CHUNK + 1) * TAG
  {
  }

  // ---------- the writer ----------

  datatype Filled = Full | Short | Failed

  /** io.ReadFull into a chunk: a full chunk, or all that is left before the end. */
  method ReadFull(src: Source) returns (buf: Bytes, got: Filled)
    modifies src
    ensures |old(src.rest)| >= CHUNK ==>
              buf == old(src.rest)[..CHUNK] && got == Full && src.rest == old(src.rest)[CHUNK..]
    ensures |old(src.rest)| < CHUNK ==>
              buf == old(src.rest) && got == (if src.fails then Failed else Short) && src.rest == ""
  {
    ghost var content := src.rest;
    buf := "";
    var err := Nil;
    while |buf| < CHUNK && err == Nil
      invariant buf + src.rest == content && |buf| <= CHUNK
      invariant err != Nil ==> src.rest == "" && err == End(src.fails)
      decreases err == Nil, |src.rest|
    {
      var more;
      more, err := src.Read(CHUNK - |buf|);
      buf := buf + more;
    }
    assert buf == content[..|buf|];
    got := if |buf| >= CHUNK then Full else if err == Eof then Short else Failed;
  }

  /** Where the archive goes. A write may stop short; a reliable one never does. */
  class Sink {
    var bytes: Bytes
    var failed: bool
    const reliable: bool

    constructor (reliable: bool)
      ensures bytes == "" && !failed && this.reliable == reliable
    {
      bytes, failed, this.reliable := "", false, reliable;
    }

    method Put(b: Bytes) returns (ok: bool)
      modifies this
      ensures old(bytes) <= bytes <= old(bytes) + b
      ensures ok ==> bytes == old(bytes) + b && failed == old(failed)
      ensures !ok ==> failed && !reliable
    {
      var wish: bool := *;
      ok := wish || reliable;
      if ok {
        bytes := bytes + b;
      } else {
        var k: nat :| k <= |b|;
        bytes, failed := bytes + b[..k], true;
      }
    }
  }

  datatype Sealed = Sealed(digest: string, size: nat, plainBytes: nat)

  /** Seal, from the point where the content key and the header line exist. For
      every way the source is cut into reads the archive is the same, and the
      digest and size reported are those of the bytes written. It fails exactly
      when the source or the destination does. */
  method Write(sc: Scheme, hash: Bytes -> string, key: string, header: Bytes, src: Source, dst: Sink)
    returns (r: Option<Sealed>)
    requires !dst.failed
    modifies src, dst
    ensures r.None? <==> src.fails || dst.failed
    ensures dst.reliable ==> !dst.failed
    ensures r.Some? ==>
              var archive := Layout(sc, Run(key, header, old(src.rest)));
              && dst.bytes == old(dst.bytes) + archive
              && r.value == Sealed(hash(archive), |archive| % U64, |old(src.rest)| % U64)
  {
    ghost var content, base := src.rest, dst.bytes;
    var top := SEAL_MAGIC + header + "\n";
    var ok := dst.Put(SEAL_MAGIC);
    if ok {
      ok := dst.Put(header + "\n");
    }
    if !ok {
      return None;
    }
    assert dst.bytes == base + top;
    var body, plainBytes;
    ok, body, plainBytes := WriteBody(sc, key, header, src, dst);
    if !ok {
      return None;
    }
    var out := top + body;
    assert base + top + body == base + out;
    r := Some(Sealed(hash(out), |out| % U64, plainBytes));
  }

  /** The loop: what is emitted, and how many plaintext bytes went in. */
  method WriteBody(sc: Scheme, key: string, header: Bytes, src: Source, dst: Sink)
    returns (ok: bool, out: Bytes, plainBytes: nat)
    requires !dst.failed
    modifies src, dst
    ensures ok <==> !src.fails && !dst.failed
    ensures dst.reliable ==> !dst.failed
    ensures ok ==> out == Body(sc, key, header, old(src.rest), 0) && dst.bytes == old(dst.bytes) + out
    ensures ok ==> plainBytes == |old(src.rest)| % U64
  {
    ghost var content := src.rest;
    var counter, done := 0, false;
    ok, out, plainBytes := true, "", 0;
    while !done
      invariant dst.bytes == old(dst.bytes) + out && !dst.failed
      invariant Progress(sc, key, header, content, src.rest, counter, out, done) && (done ==> !src.fails)
      invariant |src.rest| <= |content| && plainBytes == (|content| - |src.rest|) % U64
      decreases !done, |src.rest|
    {
      ghost var rest, before := src.rest, out;
      var plain, got := ReadFull(src);
      if got == Failed {
        ok := false;
        return;
      }
      var last := got == Short;
      var chunk := sc.seal(key, Nonce(counter, last), plain, header);
      ok := dst.Put(chunk);
      if !ok {
        return;
      }
      ProgressStep(sc, key, header, content, rest, counter, before);
      Regroup(old(dst.bytes), before, chunk);
      out := out + chunk;
      if |plain| == 0 && counter > 0 && last {
        // the stream ended on a chunk boundary: that was an empty flagged chunk
        return;
      }
      CountStep(|content|, |rest|, |plain|);
      plainBytes := (plainBytes + |plain|) % U64;
      counter := counter + 1;
      done := last;
    }
  }

  /** What is written and what is still to be sealed make up the whole. */
  ghost predicate Progress(
    sc: Scheme, key: string, aad: Bytes, content: Bytes, rest: Bytes, counter: nat, out: Bytes, done: bool)
  {
    if done then out == Body(sc, key, aad, content, 0) && rest == ""
    else out + Body(sc, key, aad, rest, counter) == Body(sc, key, aad, content, 0)
  }

  lemma ProgressStep(
    sc: Scheme, key: string, aad: Bytes, content: Bytes, rest: Bytes, counter: nat, before: Bytes)
    requires Progress(sc, key, aad, content, rest, counter, before, false)
    ensures var last := |rest| < CHUNK;
            var plain, left := if last then rest else rest[..CHUNK], if last then "" else rest[CHUNK..];
            Progress(sc, key, aad, content, left, counter + 1,
                     before + sc.seal(key, Nonce(counter, last), plain, aad), last)
  {
    EmitStep(sc, key, aad, rest, counter, before);
  }

  lemma Regroup(a: Bytes, b: Bytes, c: Bytes)
    ensures a + b + c == a + (b + c)
  {
  }

  lemma CountStep(all: nat, rest: nat, n: nat)
    requires n <= rest <= all
    ensures ((all - rest) % U64 + n) % U64 == (all - (rest - n)) % U64
  {
  }

  /** Emitting the next chunk moves it from what is left to what is written. */
  lemma EmitStep(sc: Scheme, key: string, aad: Bytes, rest: Bytes, counter: nat, before: Bytes)
    ensures var chunk := if |rest| < CHUNK then rest else rest[..CHUNK];
            var out := before + sc.seal(key, Nonce(counter, |rest| < CHUNK), chunk, aad);
            before + Body(sc, key, aad, rest, counter)
            == if |rest| < CHUNK then out else out + Body(sc, key, aad, rest[CHUNK..], counter + 1)
  {
    if |rest| >= CHUNK {
      var c := sc.seal(key, Nonce(counter, false), rest[..CHUNK], aad);
      var tail := Body(sc, key, aad, rest[CHUNK..], counter + 1);
      assert before + (c + tail) == before + c + tail;
    }
  }
}
