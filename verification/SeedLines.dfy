/** A seed file line by line (proto/seed.go): what one is read as, blanks and all, and
    what a seed is written as. */
module SeedLines {
  import opened Text
  import opened Quoting
  import opened Runes
  import opened Sorting
  import opened Seed
  import opened SeedRoundTrip

  /** Only blanks at the end can go with the carriage returns. */
  lemma {:induction false} StripCRPadded(x: string, d: string) returns (k: nat)
    requires Blanks(d) && x != "" && x[|x| - 1] != '\r'
    ensures k <= |d| && StripCR(x + d) == x + d[..k]
    decreases |d|
  {
    var l := x + d;
    if d == "" {
      k := 0;
      assert l == x && x + d[..0] == x;
    } else if d[|d| - 1] == '\r' {
      var e := d[..|d| - 1];
      assert l[|l| - 1] == d[|d| - 1] && l[..|l| - 1] == x + e;
      k := StripCRPadded(x, e);
      assert d[..k] == e[..k];
    } else {
      k := |d|;
      assert l[|l| - 1] == d[|d| - 1] && d[..k] == d;
    }
  }

  predicate SolidEnds(s: string) {
    s != "" && Solid(s[0]) && Solid(s[|s| - 1])
  }

  lemma TrimmedLine(a: string, body: string, d: string)
    requires Blanks(a) && Blanks(d) && SolidEnds(body)
    ensures TrimSpace(StripCR(a + body + d)) == body
  {
    var e := StripCRLine(a, body, d);
    TrimBlanks(a, body, e);
  }

  lemma StripCRLine(a: string, body: string, d: string) returns (e: string)
    requires Blanks(d) && SolidEnds(body)
    ensures Blanks(e) && StripCR(a + body + d) == a + body + e
  {
    var x := a + body;
    assert x[|x| - 1] == body[|body| - 1];
    var k := StripCRPadded(x, d);
    e := d[..k];
  }

  lemma CutLine(k: string, b: string, c: string, text: string, pair: (string, string) -> Reading)
    requires ValidEnvName(k) && Blanks(b)
    ensures CutWith(k + b + "=" + (c + text), pair) == pair(k + b, c + text)
  {
    EnvNameSolid(k);
    assert (k + b)[0] == k[0];
    assert '=' !in b by {
      assert !Space1('=');
    }
    CutAtEquals(k + b, c + text, pair);
  }

  lemma SpacedName(k: string, b: string)
    requires ValidEnvName(k) && Blanks(b)
    ensures TrimSpace(k + b) == k
  {
    EnvNameSolid(k);
    TrimAfter(k, b);
  }

  lemma SpacedText(c: string, text: string)
    requires Blanks(c) && SolidEnds(text)
    ensures TrimSpace(c + text) == text
  {
    TrimBlanks(c, text, "");
    assert c + text + "" == c + text;
  }

  lemma PairReads(k: string, b: string, c: string, text: string)
    requires ValidEnvName(k) && Blanks(b) && Blanks(c) && SolidEnds(text)
    ensures ReadPair(k + b, c + text) == Made(k, UnquoteTrimmed(text))
  {
    SpacedName(k, b);
    SpacedText(c, text);
  }

  /** A line is a name, an equals sign and a value, with blanks around each that do
      not count; it sets the name to what the value's text means, or is bad. */
  lemma LineReads(a: string, k: string, b: string, c: string, text: string, d: string)
    requires Blanks(a) && Blanks(b) && Blanks(c) && Blanks(d) && ValidEnvName(k) && SolidEnds(text)
    requires |a + (k + b + "=" + (c + text)) + d| <= 65535
    ensures ReadLine(a + (k + b + "=" + (c + text)) + d) ==
            match UnquoteTrimmed(text) case Some(v) => Sets(k, v) case None => Bad
  {
    var body := k + b + "=" + (c + text);
    EnvNameSolid(k);
    assert body[0] == k[0] && body[|body| - 1] == text[|text| - 1];
    TrimmedLine(a, body, d);
    CutLine(k, b, c, text, ReadPair);
    PairReads(k, b, c, text);
  }

  /** A line with no equals sign that is no comment is bad. */
  lemma LineRefused(a: string, body: string, d: string)
    requires Blanks(a) && Blanks(d) && SolidEnds(body) && body[0] != '#' && '=' !in body
    ensures ReadLine(a + body + d) == Bad
  {
    TrimmedLine(a, body, d);
  }

  /** A comment may be indented. */
  lemma CommentReads(a: string, body: string, d: string)
    requires Blanks(a) && Blanks(d) && SolidEnds(body) && body[0] == '#' && |a + body + d| <= 65535
    ensures ReadLine(a + body + d) == Blank
  {
    TrimmedLine(a, body, d);
  }

  predicate Letter(c: char) {
    'A' <= c <= 'Z' || 'a' <= c <= 'z' || c == '_'
  }

  /** A variable name: a letter or underscore, then letters, digits or underscores. */
  lemma EnvNameIff(k: string)
    ensures ValidEnvName(k) <==>
            k != "" && Letter(k[0]) && forall c :: c in k ==> Letter(c) || '0' <= c <= '9'
  {
    if ValidEnvName(k) {
      assert NameByte(k[0]);
    } else if k != "" && Letter(k[0]) {
      var i :| 0 <= i < |k| && !NameByte(k[i]);
      assert k[i] in k;
    }
  }

  /** The roles a seed may name, and the file each is to be written to. */
  lemma RolesAndFiles(role: string)
    ensures ValidRole(role) <==> role in {"controlplane", "firewall", "compute", "storage"}
    ensures FileName("firewall") == "seed.env" && (role != "firewall" ==> FileName(role) == "rasputin-seed.env")
    ensures HeaderFor(role, "")
         == "# " + FileName(role) + " \U{e2}\U{80}\U{94} Rasputin node enrollment file"
  {
  }

  // ---------- the whole text ----------

  /** A line as written, and one that is left out when its value is empty. */
  function Full(key: string, value: string): string {
    key + "=" + Quoted(value) + "\n"
  }

  function Row(key: string, value: string): string {
    if value == "" then "" else Full(key, value)
  }

  const NAMES := [
    "RASPUTIN_NODE_ROLE", "RASPUTIN_NODE_ID", "RASPUTIN_CLUSTER_ID", "RASPUTIN_NATS_URL", "RASPUTIN_CP_JOIN_TOKEN",
    "RASPUTIN_BUS_PIN", "RASPUTIN_SSH_AUTHORIZED_KEY", "RASPUTIN_BUS_AUTH", "RASPUTIN_BUS_KEY"]

  /** The lines of the named fields: the first three always, the others unless empty. */
  function Rows(s: Seed): (rows: seq<string>)
    ensures |rows| == 9
  {
    seq(9, i requires 0 <= i < 9 =>
      if i < 3 then Full(NAMES[i], ValueAt(s, i)) else Row(NAMES[i], ValueAt(s, i)))
  }

  function Concat(rows: seq<string>): string {
    if rows == [] then "" else Concat(rows[..|rows| - 1]) + rows[|rows| - 1]
  }

  lemma RowAt(s: Seed, i: nat)
    requires i < 9
    ensures Rows(s)[i] == if i < 3 then Full(KeyAt(i), ValueAt(s, i)) else Row(KeyAt(i), ValueAt(s, i))
  {
    NameAt(i);
  }

  lemma NameAt(i: nat)
    requires i < 9
    ensures NAMES[i] == KeyAt(i)
  {
  }

  lemma TextRow(header: string, s: Seed, i: nat)
    requires i < 9
    ensures TextOf(header, Named(s)[..i + 1]) == TextOf(header, Named(s)[..i]) + Rows(s)[i]
  {
    RowAt(s, i);
    TextMore(header, Named(s), i);
  }

  lemma {:induction false} TextRows(header: string, s: Seed, i: nat)
    requires i <= 9
    ensures TextOf(header, Named(s)[..i]) == header + "\n" + Concat(Rows(s)[..i])
  {
    if i == 0 {
      TextStart(header);
      assert Named(s)[..0] == [];
    } else {
      TextRows(header, s, i - 1);
      TextRow(header, s, i - 1);
      ConcatMore(header + "\n", Rows(s), i - 1);
    }
  }

  lemma ConcatMore(t: string, rows: seq<string>, i: nat)
    requires i < |rows|
    ensures t + Concat(rows[..i + 1]) == t + Concat(rows[..i]) + rows[i]
  {
    assert rows[..i + 1][..i] == rows[..i];
  }

  lemma {:induction false} TextGrows(header: string, fs: seq<Field>, i: nat)
    requires i <= |fs|
    ensures TextOf(header, fs[..i]) <= TextOf(header, fs)
    decreases |fs| - i
  {
    if i == |fs| {
      assert fs[..i] == fs;
    } else {
      TextMore(header, fs, i);
      TextGrows(header, fs, i + 1);
    }
  }

  lemma NoKeys(keys: seq<string>, extra: map<string, string>)
    requires SortedKeysOf(keys, extra) && extra == map[]
    ensures keys == []
  {
    SortedKeysUnique(keys, []);
  }

  /** Every seed file begins with its header and these lines, and without extra fields
      they are all of it. */
  lemma RenderedText(s: Seed, text: string)
    requires Rendering(s, text)
    ensures var top := Header(s) + "\n" + Concat(Rows(s)); top <= text && (s.extra == map[] ==> text == top)
  {
    var keys :| SortedKeysOf(keys, s.extra) && text == FileText(Header(s), Named(s), s.extra, keys);
    TopOfText(Header(s), s, Extras(s.extra, keys));
    if s.extra == map[] {
      NoKeys(keys, s.extra);
    }
  }

  lemma TopOfText(header: string, s: Seed, extras: seq<Field>)
    ensures var top, text := header + "\n" + Concat(Rows(s)), TextOf(header, Named(s) + extras);
            top <= text && (extras == [] ==> text == top)
  {
    var fs := Named(s) + extras;
    assert fs[..9] == Named(s) && Named(s)[..9] == Named(s) && Rows(s)[..9] == Rows(s);
    TextGrows(header, fs, 9);
    TextRows(header, s, 9);
    assert extras == [] ==> fs == Named(s);
  }
}
