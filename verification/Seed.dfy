/** The node enrollment seed (proto/seed.go): rendering one and reading it back. */
module Seed {
  import opened Text
  import opened Quoting
  import opened Sorting

  datatype Seed = Seed(
    role: string, nodeID: string, clusterID: string, natsURL: string, joinToken: string,
    busPin: string, sshKey: string, busAuth: string, busKey: string,
    extra: map<string, string>, origin: string)

  const ROLE := "RASPUTIN_NODE_ROLE"
  const NODE_ID := "RASPUTIN_NODE_ID"
  const CLUSTER_ID := "RASPUTIN_CLUSTER_ID"
  const NATS_URL := "RASPUTIN_NATS_URL"
  const JOIN_TOKEN := "RASPUTIN_CP_JOIN_TOKEN"
  const BUS_PIN := "RASPUTIN_BUS_PIN"
  const SSH_KEY := "RASPUTIN_SSH_AUTHORIZED_KEY"
  const BUS_AUTH := "RASPUTIN_BUS_AUTH"
  const BUS_KEY := "RASPUTIN_BUS_KEY"

  const DEFAULT_CLUSTER := "rasputin"

  /** bufio.Scanner gives up on a line longer than this, its newline not counted. */
  const LINE_LIMIT := 65535

  predicate KnownKey(k: string) {
    || k == ROLE || k == NODE_ID || k == CLUSTER_ID || k == NATS_URL || k == JOIN_TOKEN
    || k == BUS_PIN || k == SSH_KEY || k == BUS_AUTH || k == BUS_KEY
  }

  predicate NameByte(c: char) {
    'A' <= c <= 'Z' || 'a' <= c <= 'z' || c == '_' || '0' <= c <= '9'
  }

  predicate ValidEnvName(k: string) {
    && k != "" && !('0' <= k[0] <= '9')
    && forall i :: 0 <= i < |k| ==> NameByte(k[i])
  }

  predicate ValidRole(r: string) {
    r == "controlplane" || r == "firewall" || r == "compute" || r == "storage"
  }

  predicate ValidNodeID(id: string) {
    && 0 < |id| <= 63
    && forall i :: 0 <= i < |id| ==>
         'a' <= id[i] <= 'z' || '0' <= id[i] <= '9' || (id[i] == '-' && 0 < i < |id| - 1)
  }

  // ---------- rendering ----------

  datatype Field = Field(key: string, value: string, required: bool)

  function Cluster(s: Seed): string {
    if TrimSpace(s.clusterID) == "" then DEFAULT_CLUSTER else s.clusterID
  }

  /** The named fields in their fixed order: keys, values, and which of them are
      written even when empty. */
  function KeyAt(i: nat): string
    requires i < 9
  {
    match i
    case 0 => ROLE
    case 1 => NODE_ID
    case 2 => CLUSTER_ID
    case 3 => NATS_URL
    case 4 => JOIN_TOKEN
    case 5 => BUS_PIN
    case 6 => SSH_KEY
    case 7 => BUS_AUTH
    case 8 => BUS_KEY
  }

  function ValueAt(s: Seed, i: nat): string
    requires i < 9
  {
    match i
    case 0 => s.role
    case 1 => s.nodeID
    case 2 => Cluster(s)
    case 3 => s.natsURL
    case 4 => s.joinToken
    case 5 => s.busPin
    case 6 => s.sshKey
    case 7 => s.busAuth
    case 8 => s.busKey
  }

  function Named(s: Seed): (fs: seq<Field>)
    ensures |fs| == 9 && forall i :: 0 <= i < 9 ==> fs[i] == Field(KeyAt(i), ValueAt(s, i), i < 3)
  {
    seq(9, i requires 0 <= i < 9 => Field(KeyAt(i), ValueAt(s, i), i < 3))
  }

  function FileName(role: string): string {
    if role == "firewall" then "seed.env" else "rasputin-seed.env"
  }

  /** The em dash is three bytes. */
  const TITLE := " \U{e2}\U{80}\U{94} Rasputin node enrollment file"

  const GENERATED := ", generated by "

  function HeaderFor(role: string, origin: string): string {
    var start := "# " + FileName(role) + TITLE;
    if origin == "" then start else start + GENERATED + origin
  }

  function Header(s: Seed): string {
    HeaderFor(s.role, TrimSpace(s.origin))
  }

  predicate Omitted(f: Field) {
    f.value == "" && !f.required
  }

  function Line(f: Field): string {
    f.key + "=" + Quoted(f.value)
  }

  /** The lines of the fields that are written. */
  function Lines(fs: seq<Field>): seq<string> {
    if fs == [] then []
    else
      var f := fs[|fs| - 1];
      Lines(fs[..|fs| - 1]) + if Omitted(f) then [] else [Line(f)]
  }

  /** Every line terminated. */
  function Unlines(ls: seq<string>): string {
    if ls == [] then "" else Unlines(ls[..|ls| - 1]) + (ls[|ls| - 1] + "\n")
  }

  function Extras(extra: map<string, string>, keys: seq<string>): (fs: seq<Field>)
    requires forall k :: k in keys ==> k in extra
    ensures |fs| == |keys|
    ensures forall i :: 0 <= i < |keys| ==> fs[i] == Field(keys[i], extra[keys[i]], true)
  {
    seq(|keys|, i requires 0 <= i < |keys| => Field(keys[i], extra[keys[i]], true))
  }

  // ---------- the renderer ----------

  predicate ExtraKey(k: string) {
    ValidEnvName(k) && !KnownKey(k)
  }

  ghost predicate AllWritable(fs: seq<Field>) {
    forall f :: f in fs ==> Writable(f.value)
  }

  ghost predicate Renderable(named: seq<Field>, extra: map<string, string>) {
    AllWritable(named) && forall k :: k in extra ==> ExtraKey(k) && Writable(extra[k])
  }

  /** The seeds that render. */
  ghost predicate Renders(s: Seed) {
    && ValidRole(s.role) && ValidNodeID(s.nodeID)
    && Renderable(Named(s), s.extra)
  }

  function FileText(header: string, named: seq<Field>, extra: map<string, string>, keys: seq<string>): string
    requires forall k :: k in keys ==> k in extra
  {
    TextOf(header, named + Extras(extra, keys))
  }

  ghost predicate IsText(header: string, named: seq<Field>, extra: map<string, string>, text: string) {
    exists keys :: SortedKeysOf(keys, extra) && text == FileText(header, named, extra, keys)
  }

  /** `text` is the seed file of `s`: the header, the named fields in their fixed
      order, the extra ones in key order. */
  ghost predicate Rendering(s: Seed, text: string) {
    IsText(Header(s), Named(s), s.extra, text)
  }

  lemma RenderingUnique(s: Seed, a: string, b: string)
    requires Rendering(s, a) && Rendering(s, b)
    ensures a == b
  {
    TextUnique(Header(s), Named(s), s.extra, a, b);
  }

  lemma TextUnique(header: string, named: seq<Field>, extra: map<string, string>, a: string, b: string)
    requires IsText(header, named, extra, a) && IsText(header, named, extra, b)
    ensures a == b
  {
    var j :| SortedKeysOf(j, extra) && a == FileText(header, named, extra, j);
    var k :| SortedKeysOf(k, extra) && b == FileText(header, named, extra, k);
    SortedKeysUnique(j, k);
  }

  lemma ValidRoleNotBlank(r: string)
    requires ValidRole(r)
    ensures TrimSpace(r) != ""
  {
    TrimSolid(r);
  }

  method RenderSeed(s: Seed) returns (r: Option<string>)
    ensures match r
            case None => !Renders(s)
            case Some(text) => Renders(s) && Rendering(s, text)
  {
    var identified := HasIdentity(s);
    if !identified {
      return None;
    }
    r := RenderChecked(Header(s), Named(s), s.extra);
  }

  method RenderChecked(header: string, named: seq<Field>, extra: map<string, string>) returns (r: Option<string>)
    ensures r.Some? <==> Renderable(named, extra)
    ensures r.Some? ==> IsText(header, named, extra, r.value)
  {
    var keys := SortedKeys(extra);
    var usable := AllUsable(keys);
    if !usable {
      return None;
    }
    FieldsWritable(named, extra, keys);
    r := RenderFields(header, named + Extras(extra, keys));
  }

  method HasIdentity(s: Seed) returns (ok: bool)
    ensures ok <==> ValidRole(s.role) && ValidNodeID(s.nodeID)
  {
    if ValidRole(s.role) {
      ValidRoleNotBlank(s.role);
    }
    ok := TrimSpace(s.role) != "" && ValidRole(s.role) && ValidNodeID(s.nodeID);
  }

  method AllUsable(keys: seq<string>) returns (ok: bool)
    ensures ok <==> forall k :: k in keys ==> ExtraKey(k)
  {
    for i := 0 to |keys|
      invariant forall j :: 0 <= j < i ==> ExtraKey(keys[j])
    {
      if !ExtraKey(keys[i]) {
        return false;
      }
    }
    return true;
  }

  lemma FieldsWritable(named: seq<Field>, extra: map<string, string>, keys: seq<string>)
    requires forall k :: k in keys <==> k in extra
    ensures AllWritable(named + Extras(extra, keys)) <==>
            AllWritable(named) && forall k :: k in extra ==> Writable(extra[k])
  {
    var xs := Extras(extra, keys);
    var fs := named + xs;
    if AllWritable(fs) {
      forall f | f in named ensures Writable(f.value) {
        assert f in fs;
      }
      forall k | k in extra ensures Writable(extra[k]) {
        assert k in keys;
        var i :| 0 <= i < |keys| && keys[i] == k;
        assert xs[i] in fs;
      }
    }
  }

  method RenderFields(header: string, fs: seq<Field>) returns (r: Option<string>)
    ensures r.Some? <==> AllWritable(fs)
    ensures r.Some? ==> r.value == TextOf(header, fs)
  {
    var b := header + "\n";
    assert fs[..0] == [];
    TextStart(header);
    for i := 0 to |fs|
      invariant b == TextOf(header, fs[..i]) && AllWritable(fs[..i])
    {
      var f := fs[i];
      TextMore(header, fs, i);
      if Omitted(f) {
        continue;
      }
      var q := ShellQuote(f.value);
      if q.None? {
        return None;
      }
      b := b + (f.key + "=" + q.value + "\n");
    }
    assert fs[..|fs|] == fs;
    r := Some(b);
  }

  function TextOf(header: string, fs: seq<Field>): string {
    Unlines([header] + Lines(fs))
  }

  lemma TextStart(header: string)
    ensures TextOf(header, []) == header + "\n"
  {
    LinesMore([], header);
    assert [header] + [] == [] + [header];
  }

  lemma TextMore(header: string, fs: seq<Field>, i: nat)
    requires i < |fs|
    ensures TextOf(header, fs[..i + 1]) ==
            TextOf(header, fs[..i]) + if Omitted(fs[i]) then "" else Line(fs[i]) + "\n"
    ensures AllWritable(fs[..i + 1]) <==> AllWritable(fs[..i]) && Writable(fs[i].value)
    ensures AllWritable(fs) ==> Writable(fs[i].value)
  {
    assert fs[..i + 1] == fs[..i] + [fs[i]];
    FieldMore(fs[..i], fs[i]);
    var ls := [header] + Lines(fs[..i]);
    if Omitted(fs[i]) {
      assert Lines(fs[..i]) + [] == Lines(fs[..i]);
      assert Unlines(ls) + "" == Unlines(ls);
    } else {
      LinesMore(ls, Line(fs[i]));
      assert ls + [Line(fs[i])] == [header] + (Lines(fs[..i]) + [Line(fs[i])]);
    }
  }

  lemma LinesMore(ls: seq<string>, l: string)
    ensures Unlines(ls + [l]) == Unlines(ls) + (l + "\n")
  {
    assert (ls + [l])[..|ls|] == ls;
  }

  lemma FieldMore(fs: seq<Field>, f: Field)
    ensures Lines(fs + [f]) == Lines(fs) + if Omitted(f) then [] else [Line(f)]
    ensures AllWritable(fs + [f]) <==> AllWritable(fs) && Writable(f.value)
  {
    assert (fs + [f])[..|fs|] == fs;
    assert f in fs + [f];
    forall g | g in fs ensures g in fs + [f] {
    }
  }

  // ---------- the parser ----------

  /** bufio.ScanLines: what follows the last newline is a line unless empty. */
  function Scan(text: string): seq<string> {
    var parts := Split(text, '\n');
    if parts[|parts| - 1] == "" then parts[..|parts| - 1] else parts
  }

  function StripCR(l: string): string {
    if l != "" && l[|l| - 1] == '\r' then StripCR(l[..|l| - 1]) else l
  }

  datatype Reading = Blank | Bad | Sets(key: string, value: string)

  function ReadTrimmed(t: string): Reading {
    CutWith(t, ReadPair)
  }

  /** A comment, or what `pair` makes of the two sides of the first "=". */
  function CutWith(t: string, pair: (string, string) -> Reading): Reading {
    if t == "" || t[0] == '#' then Blank
    else
      var i := IndexOf(t, '=');
      if i == |t| then Bad else pair(t[..i], t[i + 1..])
  }

  function ReadPair(name: string, text: string): Reading {
    Made(TrimSpace(name), Unquoting(text))
  }

  function Made(key: string, value: Option<string>): Reading {
    if ValidEnvName(key) && value.Some? then Sets(key, value.value) else Bad
  }

  function ReadLine(l: string): Reading {
    if |l| > LINE_LIMIT then Bad else ReadTrimmed(TrimSpace(StripCR(l)))
  }

  const EMPTY := Seed("", "", "", "", "", "", "", "", "", map[], "")

  function Assign(s: Seed, k: string, v: string): Seed {
    if k == ROLE then s.(role := v)
    else if k == NODE_ID then s.(nodeID := v)
    else if k == CLUSTER_ID then s.(clusterID := v)
    else if k == NATS_URL then s.(natsURL := v)
    else if k == JOIN_TOKEN then s.(joinToken := v)
    else if k == BUS_PIN then s.(busPin := v)
    else if k == SSH_KEY then s.(sshKey := v)
    else if k == BUS_AUTH then s.(busAuth := v)
    else if k == BUS_KEY then s.(busKey := v)
    else s.(extra := s.extra[k := v])
  }

  function After(s: Seed, r: Reading): Option<Seed> {
    match r
    case Blank => Some(s)
    case Bad => None
    case Sets(k, v) => Some(Assign(s, k, v))
  }

  function Fold(ls: seq<string>, read: string -> Reading): Option<Seed> {
    if ls == [] then Some(EMPTY)
    else
      match Fold(ls[..|ls| - 1], read)
      case None => None
      case Some(s) => After(s, read(ls[|ls| - 1]))
  }

  function Parsed(text: string): Option<Seed> {
    Fold(Scan(text), ReadLine)
  }

  lemma {:induction false} FoldPrefixFails(ls: seq<string>, k: nat, read: string -> Reading)
    requires k <= |ls| && Fold(ls[..k], read).None?
    ensures Fold(ls, read).None?
    decreases |ls|
  {
    if k < |ls| {
      assert ls[..|ls| - 1][..k] == ls[..k];
      FoldPrefixFails(ls[..|ls| - 1], k, read);
    } else {
      assert ls[..k] == ls;
    }
  }

  lemma FoldSnoc(ls: seq<string>, l: string, read: string -> Reading)
    ensures Fold(ls + [l], read) == match Fold(ls, read) case None => None case Some(s) => After(s, read(l))
  {
    assert (ls + [l])[..|ls|] == ls;
  }

  lemma FoldMore(ls: seq<string>, i: nat, s: Seed, read: string -> Reading)
    requires i < |ls| && Fold(ls[..i], read) == Some(s)
    ensures Fold(ls[..i + 1], read) == After(s, read(ls[i]))
  {
    FoldSnoc(ls[..i], ls[i], read);
    assert ls[..i + 1] == ls[..i] + [ls[i]];
  }

  lemma FoldBad(ls: seq<string>, i: nat, s: Seed, read: string -> Reading)
    requires i < |ls| && Fold(ls[..i], read) == Some(s) && read(ls[i]) == Bad
    ensures Fold(ls, read).None?
  {
    FoldMore(ls, i, s, read);
    FoldPrefixFails(ls, i + 1, read);
  }

  method ParseSeed(text: string) returns (r: Option<Seed>)
    ensures r == Parsed(text)
  {
    r := ParseScanned(Scan(text));
  }

  method ParseScanned(lines: seq<string>) returns (r: Option<Seed>)
    ensures r == Fold(lines, ReadLine)
  {
    var s := EMPTY;
    for i := 0 to |lines|
      invariant Fold(lines[..i], ReadLine) == Some(s)
    {
      var reading := ParseLine(lines[i]);
      FoldMore(lines, i, s, ReadLine);
      match reading
      case Blank =>
      case Bad =>
        FoldBad(lines, i, s, ReadLine);
        return None;
      case Sets(key, value) =>
        s := Assign(s, key, value);
    }
    assert lines[..|lines|] == lines;
    r := Some(s);
  }

  method ParseLine(l: string) returns (r: Reading)
    ensures r == ReadLine(l)
  {
    if |l| > LINE_LIMIT {
      return Bad;
    }
    r := ParseTrimmed(TrimSpace(StripCR(l)));
  }

  method ParseTrimmed(t: string) returns (r: Reading)
    ensures r == ReadTrimmed(t)
  {
    if t == "" || t[0] == '#' {
      return Blank;
    }
    var cut := IndexOf(t, '=');
    if cut == |t| {
      return Bad;
    }
    var key := TrimSpace(t[..cut]);
    if !ValidEnvName(key) {
      return Bad;
    }
    var value := Unquote(t[cut + 1..]);
    if value.None? {
      return Bad;
    }
    r := Sets(key, value.value);
  }
}
