/** A sealed upload from end to end (backupxfer/seal.go, client.go, server.go):
    what the writer produces passes every check the endpoint makes of a body. */
module Upload {
  import opened Text
  import opened Credential
  import opened Intake
  import opened Seal

  // ---------- the client's body and trailer ----------

  /** The sealed stream as net/http reads it: the trailer is filled in exactly
      once, when the stream ends and before the end is reported. */
  class TrailingBody {
    const r: Source
    const facts: Trailer
    var done: bool
    var trailer: Option<Trailer>
    ghost var fillings: nat

    ghost predicate Valid()
      reads this
    {
      && trailer == (if done then Some(facts) else None)
      && fillings == (if done then 1 else 0)
    }

    constructor (r: Source, facts: Trailer)
      ensures this.r == r && this.facts == facts && Valid() && !done
    {
      this.r, this.facts, done, trailer, fillings := r, facts, false, None, 0;
    }

    method Read(n: nat) returns (out: Bytes, err: ReadErr)
      requires Valid() && n > 0
      modifies this, r
      ensures Valid() && Delivers(old(r.rest), n, r.fails, out, err, r.rest)
      ensures done <==> old(done) || err == Eof
    {
      out, err := r.Read(n);
      if err == Eof && !done {
        done := true;
        trailer := Some(facts);
        fillings := fillings + 1;
      }
    }
  }

  /** The transport: everything up to EOF, then the trailer. */
  method Transmit(b: TrailingBody) returns (sent: Bytes, t: Option<Trailer>)
    requires b.Valid() && !b.done
    modifies b, b.r
    ensures sent == old(b.r.rest)
    ensures t == if b.r.fails then None else Some(b.facts)
  {
    ghost var content := b.r.rest;
    var err := Nil;
    sent := "";
    while err == Nil
      invariant b.Valid() && sent + b.r.rest == content
      invariant err != Nil ==> b.r.rest == "" && err == End(b.r.fails)
      invariant b.done <==> err == Eof
      decreases err == Nil, |b.r.rest|
    {
      var more;
      more, err := b.Read(COPY_BUFFER);
      sent := sent + more;
    }
    t := b.trailer;
  }

  // ---------- why it is accepted ----------

  lemma LayoutLength(sc: Scheme, r: Run)
    requires Tagged(sc)
    ensures |Layout(sc, r)| == MAGIC_BYTES + |r.header| + 1 + |r.plain| + (|r.plain| / CHUNK + 1) * TAG
  {
    BodyLength(sc, r.key, r.header, r.plain, 0);
  }

  /** With a header line that fits, an archive stays below its bound by a tag and by
      what the header line could still have grown. */
  lemma LayoutWithinBound(sc: Scheme, r: Run)
    requires Tagged(sc) && |r.header| + 1 <= MAX_HEADER
    ensures |Layout(sc, r)| + 16 + (4096 - (|r.header| + 1)) == SealedSize(|r.plain|)
  {
    LayoutLength(sc, r);
  }

  lemma LineEnd(top: Bytes, header: Bytes, body: Bytes)
    requires '\n' !in header
    ensures var a := top + header + "\n" + body;
            top <= a && IndexOf(a[|top|..], '\n') == |header| && a[|top|..][..|header|] == header
  {
    var line := (top + header + "\n" + body)[|top|..];
    assert line == header + "\n" + body;
    assert line[..|header|] == header;
    IndexOfUnique(line, '\n', |header|);
  }

  lemma LayoutHeader(sc: Scheme, r: Run, readable: Bytes -> bool)
    requires '\n' !in r.header
    ensures HeaderEnd(Layout(sc, r), readable)
            == if |r.header| + 1 <= MAX_HEADER && readable(r.header) then Some(MAGIC_BYTES + |r.header| + 1) else None
  {
    LineEnd(SEAL_MAGIC, r.header, Body(sc, r.key, r.header, r.plain, 0));
  }

  /** The facts Seal reports, as the client puts them in the trailer. */
  function TrailerOf(hash: Bytes -> string, b: Bytes): Trailer {
    Trailer(hash(b), Some(|b| % U64))
  }

  lemma SizesFit(sc: Scheme, r: Run)
    requires Tagged(sc) && |r.header| + 1 <= MAX_HEADER && |r.plain| < U63
    ensures MAGIC_BYTES + |r.header| + 1 < |Layout(sc, r)| < SealedSizeBound(|r.plain|) < U64
  {
    LayoutLength(sc, r);
    LayoutWithinBound(sc, r);
    assert SealedSize(|r.plain|) < U64;
  }

  lemma AcceptedIff(b: Bytes, max: nat, e: nat, readable: Bytes -> bool, hash: Bytes -> string)
    requires hash(b) != ""
    requires HeaderEnd(b, readable) == None || (HeaderEnd(b, readable) == Some(e) && e < |b| < max < U64)
    ensures Verdict(b, false, max, readable, hash, TrailerOf(hash, b)) == Landed(b) <==> HeaderEnd(b, readable).Some?
  {
    LandedIff(b, false, max, readable, hash, TrailerOf(hash, b), b);
  }

  /** With the credential's bound computed from the plaintext's own length, every
      archive passes the gate before the body, and the body is accepted byte for
      byte exactly when its header line is within 4096 bytes. */
  lemma SealedUploadAcceptedIff(sc: Scheme, r: Run, readable: Bytes -> bool, hash: Bytes -> string)
    requires Tagged(sc) && '\n' !in r.header && readable(r.header) && |r.plain| < U63
    requires hash(Layout(sc, r)) != ""
    ensures var b, max := Layout(sc, r), SealedSizeBound(|r.plain|);
            && GatePasses(Some(|r.plain|), max)
            && (Verdict(b, false, max, readable, hash, TrailerOf(hash, b)) == Landed(b)
                <==> |r.header| + 1 <= MAX_HEADER)
  {
    GateExactForFiles(|r.plain|);
    LayoutHeader(sc, r, readable);
    if |r.header| + 1 <= MAX_HEADER {
      SizesFit(sc, r);
    }
    AcceptedIff(Layout(sc, r), SealedSizeBound(|r.plain|), MAGIC_BYTES + |r.header| + 1, readable, hash);
  }

  /** Sealing a volume and uploading it, whatever way the source, the pipe and
      the connection cut the bytes: the endpoint lands exactly the archive. */
  method SealAndUpload(
    sc: Scheme, hash: Bytes -> string, key: string, header: Bytes, src: Source, readable: Bytes -> bool)
    returns (v: Option<Outcome>)
    requires Tagged(sc) && '\n' !in header && readable(header) && |header| + 1 <= MAX_HEADER && |src.rest| < U63
    requires forall b :: hash(b) != ""
    modifies src
    ensures v == if src.fails then None else Some(Landed(Layout(sc, Run(key, header, old(src.rest)))))
  {
    ghost var r := Run(key, header, src.rest);
    var max := SealedSizeBound(|src.rest|);
    var sink := new Sink(true);
    var sealed := Write(sc, hash, key, header, src, sink);
    if sealed.None? {
      return None;
    }
    assert sink.bytes == Layout(sc, r);
    var pipe := new Source(sink.bytes, false);
    var body := new TrailingBody(pipe, Trailer(sealed.value.digest, Some(sealed.value.size)));
    var sent, t := Transmit(body);
    var wire := new Source(sent, false);
    var verdict := Receive(wire, max, readable, hash, t.value);
    SealedUploadAcceptedIff(sc, r, readable, hash);
    v := Some(verdict);
  }
}
