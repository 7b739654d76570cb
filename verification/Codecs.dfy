/** Codecs that meet the laws the credential asks of base64url and JSON, so that
    what is proved from those laws is about something. */
module Codecs {
  import opened Text
  import opened Credential

  function Letters(n: nat): (s: string)
    ensures |s| == n && forall i :: 0 <= i < n ==> s[i] == 'a'
  {
    seq(n, _ => 'a')
  }

  /** Each character as a run of letters and an end mark. */
  function Encode(x: string): string {
    if x == "" then "" else Letters(x[0] as int) + ['b'] + Encode(x[1..])
  }

  lemma {:induction false} EncodeText(x: string)
    ensures forall i :: 0 <= i < |Encode(x)| ==> Encode(x)[i] == 'a' || Encode(x)[i] == 'b'
  {
    if x != "" {
      EncodeText(x[1..]);
    }
  }

  lemma RunThenMark(n: nat, s: string, m: nat, t: string)
    requires Letters(n) + ['b'] + s == Letters(m) + ['b'] + t
    ensures n == m && s == t
  {
    var u, v := Letters(n) + ['b'] + s, Letters(m) + ['b'] + t;
    assert u[n] == 'b' && v[m] == 'b';
    assert u[n + 1..] == s && v[m + 1..] == t;
  }

  lemma {:induction false} EncodeInjective(x: string, y: string)
    requires Encode(x) == Encode(y)
    ensures x == y
  {
    if x != "" && y != "" {
      RunThenMark(x[0] as int, Encode(x[1..]), y[0] as int, Encode(y[1..]));
      EncodeInjective(x[1..], y[1..]);
      assert x == [x[0]] + x[1..] && y == [y[0]] + y[1..];
    }
  }

  ghost function Decode(t: string): Option<string> {
    if exists x :: Encode(x) == t then
      var x :| Encode(x) == t;
      Some(x)
    else None
  }

  lemma DecodeOfEncode(x: string)
    ensures Decode(Encode(x)) == Some(x)
  {
    EncodeInjective(x, Decode(Encode(x)).value);
  }

  function IntText(n: int): string {
    if n >= 0 then ['p'] + Letters(n) else ['m'] + Letters(-n)
  }

  lemma IntTextInjective(m: int, n: int)
    requires IntText(m) == IntText(n)
    ensures m == n
  {
    assert IntText(m)[0] == if m >= 0 then 'p' else 'm';
    assert IntText(n)[0] == if n >= 0 then 'p' else 'm';
  }

  function Parts(g: Grant): seq<string> {
    [g.generation, g.member, g.nodeID, g.jobID, IntText(g.maxBytes), IntText(g.issuedAt), IntText(g.expiresAt),
     g.nonce, g.use]
  }

  function EncodeAll(parts: seq<string>): (r: seq<string>)
    ensures |r| == |parts| && forall i :: 0 <= i < |parts| ==> r[i] == Encode(parts[i])
  {
    seq(|parts|, i requires 0 <= i < |parts| => Encode(parts[i]))
  }

  function Json(g: Grant): string {
    Join(EncodeAll(Parts(g)), '/')
  }

  lemma SplitEncoded(parts: seq<string>)
    requires parts != []
    ensures Split(Join(EncodeAll(parts), '/'), '/') == EncodeAll(parts)
  {
    forall i | 0 <= i < |parts| ensures '/' !in EncodeAll(parts)[i] {
      EncodeText(parts[i]);
    }
    SplitJoin(EncodeAll(parts), '/');
  }

  lemma PartsEncoded(a: seq<string>, b: seq<string>)
    requires |a| == |b| != 0 && Join(EncodeAll(a), '/') == Join(EncodeAll(b), '/')
    ensures a == b
  {
    SplitEncoded(a);
    SplitEncoded(b);
    forall i | 0 <= i < |a| ensures a[i] == b[i] {
      assert EncodeAll(a)[i] == EncodeAll(b)[i];
      EncodeInjective(a[i], b[i]);
    }
  }

  lemma PartsInjective(g: Grant, k: Grant)
    requires Parts(g) == Parts(k)
    ensures g == k
  {
    var a, b := Parts(g), Parts(k);
    assert a[0] == b[0] && a[1] == b[1] && a[2] == b[2] && a[3] == b[3] && a[7] == b[7] && a[8] == b[8];
    assert a[4] == b[4] && a[5] == b[5] && a[6] == b[6];
    IntTextInjective(g.maxBytes, k.maxBytes);
    IntTextInjective(g.issuedAt, k.issuedAt);
    IntTextInjective(g.expiresAt, k.expiresAt);
  }

  ghost function Unjson(t: string): Option<Grant> {
    if exists g :: Json(g) == t then
      var g :| Json(g) == t;
      Some(g)
    else None
  }

  lemma UnjsonOfJson(g: Grant)
    ensures Unjson(Json(g)) == Some(g)
  {
    var k := Unjson(Json(g)).value;
    PartsEncoded(Parts(g), Parts(k));
    PartsInjective(g, k);
  }

  ghost function PlainWire(mac: string -> string): Wire {
    Wire((x: string) => Encode(x), (t: string) => Decode(t), (g: Grant) => Json(g), (t: string) => Unjson(t), mac)
  }

  /** Lossless codecs exist, with any MAC. */
  lemma LawfulExists(mac: string -> string)
    ensures Lawful(PlainWire(mac))
  {
    var w := PlainWire(mac);
    forall x ensures w.unb64(w.b64(x)) == Some(x) && Base64Text(w.b64(x)) {
      DecodeOfEncode(x);
      EncodeText(x);
    }
    forall g ensures w.unjson(w.json(g)) == Some(g) {
      UnjsonOfJson(g);
    }
  }
}
