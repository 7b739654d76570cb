/** How the endpoint takes a body in (backupxfer/server.go, backupxfer/seal.go):
    the byte-bounding reader, the header scanner and the trailer check, over a
    reader that may fragment its content in any way. */
module Intake {
  import opened Text
  import opened Credential

  const SEAL_MAGIC := "RASPUTIN-ARCHIVE-1\n"

  const COPY_BUFFER := 262144

  datatype ReadErr = Nil | Eof | Broken | OverBound

  function End(fails: bool): ReadErr {
    if fails then Broken else Eof
  }

  /** One Read of a well-behaved io.Reader: a prefix of what is left, never
      empty without an error, and its final error only once nothing is left. */
  ghost predicate Delivers(before: Bytes, n: nat, fails: bool, out: Bytes, err: ReadErr, after: Bytes) {
    && |out| <= n && out <= before && after == before[|out|..]
    && (err == Nil || err == End(fails))
    && (err != Nil ==> after == "")
    && (out == "" ==> err != Nil)
  }

  /** A byte stream that ends in EOF or, when `fails`, in an error. How it is cut
      into reads is left open. */
  class Source {
    var rest: Bytes
    const fails: bool

    constructor (content: Bytes, fails: bool)
      ensures rest == content && this.fails == fails
    {
      rest, this.fails := content, fails;
    }

    method Read(n: nat) returns (out: Bytes, err: ReadErr)
      requires n > 0
      modifies this
      ensures Delivers(old(rest), n, fails, out, err, rest)
    {
      if rest == "" {
        return "", End(fails);
      }
      assert 1 <= n && 1 <= |rest|;
      var k: nat :| 1 <= k <= n && k <= |rest|;
      out := rest[..k];
      rest := rest[k..];
      var early: bool := *;
      err := if rest == "" && early then End(fails) else Nil;
    }
  }

  // ---------- the byte bound ----------

  /** One Read with `room` bytes left to the bound, of which `before` is unread. */
  ghost predicate Bounded(before: Bytes, room: nat, fails: bool, out: Bytes, err: ReadErr) {
    && out <= before && |out| <= room
    && match err
       case Nil => out != "" && |out| < room
       case OverBound => |out| == room && (room == 0 || room < |before|)
       case _ => room > 0 && out == before && err == End(fails)
  }

  class BoundedBody {
    const r: Source
    const max: nat
    var seen: nat

    ghost predicate Valid()
      reads this
    {
      seen <= max
    }

    constructor (r: Source, max: nat)
      ensures this.r == r && this.max == max && seen == 0 && Valid()
    {
      this.r, this.max, this.seen := r, max, 0;
    }

    method Read(n: nat) returns (out: Bytes, err: ReadErr)
      requires Valid() && n > 0
      modifies this, r
      ensures Valid() && |out| <= n && seen == old(seen) + |out|
      ensures Bounded(old(r.rest), max - old(seen), r.fails, out, err)
      ensures seen < max ==> r.rest == old(r.rest)[|out|..]
    {
      if seen >= max {
        return "", OverBound;
      }
      var want := Min(n, max - seen);
      out, err := r.Read(want);
      seen := seen + |out|;
      if err == Nil && seen >= max {
        var probe, perr := r.Read(1);
        if |probe| > 0 {
          err := OverBound;
        } else {
          err := perr;
        }
      }
    }
  }

  /** What reading a bounded body to its first error delivers: everything and
      then the reader's own end if it fits, else exactly the bound and then
      OverBound. At the bound itself even an empty rest is refused. */
  function Taken(content: Bytes, room: nat, fails: bool): (Bytes, ReadErr) {
    if room == 0 || |content| > room then (content[..Min(room, |content|)], OverBound)
    else (content, End(fails))
  }

  /** io.CopyBuffer from a bounded body. */
  method CopyAll(b: BoundedBody) returns (out: Bytes, err: ReadErr)
    requires b.Valid()
    modifies b, b.r
    ensures (out, err) == Taken(old(b.r.rest), b.max - old(b.seen), b.r.fails)
  {
    ghost var content, room := b.r.rest, b.max - b.seen;
    out, err := "", Nil;
    while err == Nil
      invariant b.Valid() && b.seen == old(b.seen) + |out|
      invariant err == Nil ==> out + b.r.rest == content && (out == "" || |out| < room)
      invariant err != Nil ==> (out, err) == Taken(content, room, b.r.fails)
      decreases err == Nil, |b.r.rest|
    {
      ghost var before := b.r.rest;
      var more;
      more, err := b.Read(COPY_BUFFER);
      out := out + more;
      assert out <= content;
      if err == OverBound {
        assert out == content[..room];
      } else if err != Nil {
        assert out == content;
      }
    }
  }

  // ---------- the header line ----------

  /** Where the header line ends in what can be read, if an acceptable one is
      there: the magic, then at most 4096 bytes up to and including a newline,
      holding a header this build can name. */
  function HeaderEnd(a: Bytes, readable: Bytes -> bool): (e: Option<nat>)
    ensures e.Some? ==> MAGIC_BYTES < e.value <= |a|
  {
    if !(SEAL_MAGIC <= a) then None
    else
      var line := a[MAGIC_BYTES..];
      var i := IndexOf(line, '\n');
      if i == |line| || i + 1 > MAX_HEADER || !readable(line[..i]) then None
      else Some(MAGIC_BYTES + i + 1)
  }

  function Readable(content: Bytes, room: nat): Bytes {
    content[..Min(room, |content|)]
  }

  /** The first `k` bytes match the magic and hold no later newline. */
  ghost predicate Scanned(magic: Bytes, a: Bytes, k: nat)
    requires |magic| == MAGIC_BYTES
  {
    && k <= |a| && k <= MAGIC_BYTES + MAX_HEADER
    && (forall i :: 0 <= i < k && i < MAGIC_BYTES ==> a[i] == magic[i])
    && (forall i :: MAGIC_BYTES <= i < k ==> a[i] != '\n')
  }

  lemma ScannedMore(magic: Bytes, a: Bytes, k: nat)
    requires |magic| == MAGIC_BYTES && Scanned(magic, a, k) && k < |a| && k < MAGIC_BYTES + MAX_HEADER
    requires if k < MAGIC_BYTES then a[k] == magic[k] else a[k] != '\n'
    ensures Scanned(magic, a, k + 1)
  {
  }

  lemma HeaderWrong(a: Bytes, k: nat, readable: Bytes -> bool)
    requires k < |a| && k < MAGIC_BYTES && a[k] != SEAL_MAGIC[k]
    ensures HeaderEnd(a, readable) == None
  {
  }

  lemma HeaderFound(a: Bytes, k: nat, readable: Bytes -> bool)
    requires Scanned(SEAL_MAGIC, a, k) && MAGIC_BYTES <= k < |a| && a[k] == '\n' && k < MAGIC_BYTES + MAX_HEADER
    ensures HeaderEnd(a, readable) == if readable(a[MAGIC_BYTES..k]) then Some(k + 1) else None
  {
    assert forall j :: 0 <= j < MAGIC_BYTES ==> a[j] == SEAL_MAGIC[j];
    assert SEAL_MAGIC <= a;
    var line := a[MAGIC_BYTES..];
    var i := k - MAGIC_BYTES;
    assert line[..i] == a[MAGIC_BYTES..k];
    IndexOfUnique(line, '\n', i);
  }

  lemma HeaderMissing(a: Bytes, k: nat, readable: Bytes -> bool)
    requires Scanned(SEAL_MAGIC, a, k) && (k == |a| || k == MAGIC_BYTES + MAX_HEADER)
    ensures HeaderEnd(a, readable) == None
  {
    if SEAL_MAGIC <= a {
      var line := a[MAGIC_BYTES..];
      var i := IndexOf(line, '\n');
      assert i < |line| ==> a[MAGIC_BYTES + i] == '\n';
    }
  }

  /** A bounded body of which `k` bytes of `content` have been read since it had
      `room` left. */
  ghost predicate ReadSoFar(b: BoundedBody, content: Bytes, room: nat, k: nat)
    reads b, b.r
  {
    && b.Valid() && k <= room && k <= |content| && b.seen == b.max - room + k
    && (k < room ==> b.r.rest == content[k..])
  }

  /** The next byte, or the reason there is none. */
  method ReadByte(b: BoundedBody, ghost content: Bytes, ghost room: nat, ghost k: nat)
    returns (one: Bytes, err: ReadErr)
    requires room <= b.max && ReadSoFar(b, content, room, k)
    modifies b, b.r
    ensures |one| <= 1 && ReadSoFar(b, content, room, k + |one|)
    ensures |one| == 1 ==> one[0] == content[k]
    ensures err != Nil ==> k + |one| == |Readable(content, room)|
    ensures one == "" ==> err != Nil
  {
    one, err := b.Read(1);
  }

  datatype Stop = Wrong | Line | Nothing

  /** Why the scan stopped after `k` bytes. */
  ghost predicate Stopped(magic: Bytes, a: Bytes, stop: Stop, k: nat)
    requires |magic| == MAGIC_BYTES
  {
    k <= |a| && match stop
      case Wrong => 0 < k <= MAGIC_BYTES && a[k - 1] != magic[k - 1]
      case Line => MAGIC_BYTES < k <= MAGIC_BYTES + MAX_HEADER && Scanned(magic, a, k - 1) && a[k - 1] == '\n'
      case Nothing => Scanned(magic, a, k) && (k == |a| || k == MAGIC_BYTES + MAX_HEADER)
  }

  lemma PrefixMore(content: Bytes, a: Bytes, k: nat, one: Bytes)
    requires a <= content && k < |a| && |one| == 1 && one[0] == content[k]
    ensures content[..k] + one == content[..k + 1] && a[k] == one[0]
  {
  }

  /** The loop of ReadHeader, one byte at a time. */
  method ScanHeader(b: BoundedBody, magic: Bytes) returns (stop: Stop, consumed: Bytes)
    requires b.Valid() && |magic| == MAGIC_BYTES
    modifies b, b.r
    ensures ReadSoFar(b, old(b.r.rest), b.max - old(b.seen), |consumed|)
    ensures consumed == old(b.r.rest)[..|consumed|]
    ensures Stopped(magic, Readable(old(b.r.rest), b.max - old(b.seen)), stop, |consumed|)
  {
    ghost var content, room := b.r.rest, b.max - b.seen;
    ghost var a := Readable(content, room);
    consumed := "";
    while |consumed| < MAGIC_BYTES + MAX_HEADER
      invariant ReadSoFar(b, content, room, |consumed|)
      invariant Scanned(magic, a, |consumed|) && consumed == content[..|consumed|]
      decreases MAGIC_BYTES + MAX_HEADER - |consumed|
    {
      var k := |consumed|;
      var one, err := ReadByte(b, content, room, k);
      if |one| == 1 {
        PrefixMore(content, a, k, one);
        consumed := consumed + one;
        if |consumed| <= MAGIC_BYTES {
          if one[0] != magic[k] {
            return Wrong, consumed;
          }
          ScannedMore(magic, a, k);
          continue;
        }
        if one[0] == '\n' {
          return Line, consumed;
        }
        ScannedMore(magic, a, k);
      }
      if err != Nil {
        break;
      }
    }
    stop := Nothing;
  }

  lemma SameSlice(x: Bytes, y: Bytes, content: Bytes, i: nat, j: nat)
    requires x <= content && y <= content && i <= j <= |x| && j <= |y|
    ensures x[i..j] == y[i..j]
  {
    assert x[i..j] == content[i..j];
    assert y[i..j] == content[i..j];
  }

  /** ReadHeader on a bounded body. */
  method ReadHeader(b: BoundedBody, readable: Bytes -> bool) returns (ok: bool, consumed: Bytes)
    requires b.Valid()
    modifies b, b.r
    ensures ReadSoFar(b, old(b.r.rest), b.max - old(b.seen), |consumed|)
    ensures consumed == old(b.r.rest)[..|consumed|]
    ensures HeaderEnd(Readable(old(b.r.rest), b.max - old(b.seen)), readable)
            == if ok then Some(|consumed|) else None
  {
    ghost var a := Readable(b.r.rest, b.max - b.seen);
    var stop;
    stop, consumed := ScanHeader(b, SEAL_MAGIC);
    ok := stop == Line && readable(consumed[MAGIC_BYTES..|consumed| - 1]);
    match stop
    case Wrong => HeaderWrong(a, |consumed| - 1, readable);
    case Line =>
      SameSlice(consumed, a, old(b.r.rest), MAGIC_BYTES, |consumed| - 1);
      HeaderFound(a, |consumed| - 1, readable);
    case Nothing => HeaderMissing(a, |consumed|, readable);
  }

  // ---------- the whole body ----------

  datatype Outcome = Landed(bytes: Bytes) | NotAnArchive | TooLarge | Incomplete | DigestMismatch

  /** The trailer as parsed: the declared digest, and the length if readable. */
  datatype Trailer = Trailer(digest: string, size: Option<nat>)

  /** The verdict on a body, whatever way it was fragmented. */
  function Verdict(
    content: Bytes, fails: bool, max: nat, readable: Bytes -> bool, hash: Bytes -> string, t: Trailer): Outcome
  {
    var e := HeaderEnd(Readable(content, max), readable);
    if e.None? then NotAnArchive
    else if e.value == max || |content| > max then TooLarge
    else if fails then Incomplete
    else if t.digest == "" || t.size == None then DigestMismatch
    else if hash(content) != t.digest || Some(|content|) != t.size then DigestMismatch
    else Landed(content)
  }

  /** The body half of `land`. */
  method Receive(r: Source, max: nat, readable: Bytes -> bool, hash: Bytes -> string, t: Trailer) returns (v: Outcome)
    modifies r
    ensures v == Verdict(old(r.rest), r.fails, max, readable, hash, t)
  {
    ghost var content := r.rest;
    var body := new BoundedBody(r, max);
    var ok, prefix := ReadHeader(body, readable);
    if !ok {
      return NotAnArchive;
    }
    var copied, err := CopyAll(body);
    if err == OverBound {
      return TooLarge;
    }
    if err != Eof {
      return Incomplete;
    }
    var written := prefix + copied;
    assert written == content;
    if t.digest == "" || t.size == None {
      return DigestMismatch;
    }
    if hash(written) != t.digest || Some(|written|) != t.size {
      return DigestMismatch;
    }
    v := Landed(written);
  }

  /** Nothing but the exact content of a body within its bound, complete and as
      declared, is ever committed. */
  lemma LandedIff(
    content: Bytes, fails: bool, max: nat, readable: Bytes -> bool, hash: Bytes -> string, t: Trailer, b: Bytes)
    ensures Verdict(content, fails, max, readable, hash, t) == Landed(b)
       <==> && b == content && |content| <= max && !fails
            && HeaderEnd(content, readable).Some? && HeaderEnd(content, readable).value < max
            && t.digest != "" && hash(content) == t.digest && t.size == Some(|content|)
  {
    if |content| <= max {
      assert Readable(content, max) == content;
    }
  }
}
