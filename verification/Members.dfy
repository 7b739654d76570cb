/** Member paths: reducing app and volume names, validating by shape, building
    the ingest path and splitting it back, and the single components the ingest
    endpoint hands to the file system (proto/backup.go, backupxfer/wire.go). */
module Members {
  import opened Text

  const VOLUMES_DIR := "volumes"
  const MEMBER_SUFFIX := ".rasputin-archive"
  const PARTIAL_PREFIX := ".partial-"
  const UPLOAD_PREFIX := ".upload-"
  const INGEST_PREFIX := "/api/backup/ingest/"
  const MAX_NAME := 128

  predicate NameChar(c: char) {
    'a' <= c <= 'z' || 'A' <= c <= 'Z' || '0' <= c <= '9' || c == '-' || c == '_' || c == '.'
  }

  /** BackupValidStagingName, which is also BackupValidGenerationID. */
  predicate ValidName(s: string) {
    && s != "" && |s| <= MAX_NAME
    && s[0] != '.'
    && forall i :: 0 <= i < |s| ==> NameChar(s[i])
  }

  predicate HasSuffix(s: string, suffix: string) {
    |suffix| <= |s| && s[|s| - |suffix|..] == suffix
  }

  /** BackupValidMemberPath. */
  predicate ValidMember(p: string) {
    var parts := Split(p, '/');
    && |parts| == 3 && parts[0] == VOLUMES_DIR
    && ValidName(parts[1]) && ValidName(parts[2])
    && HasSuffix(parts[2], MEMBER_SUFFIX)
    && |parts[2]| > |MEMBER_SUFFIX|
    && parts[2][0] != '.'
  }

  // ---------- reducing a name to one segment ----------

  // The reduction works on runes, so here one `char` is one code point.

  /** unicode.IsSpace. */
  predicate IsSpace(r: char) {
    || '\t' <= r <= '\r' || r == ' ' || r == '\U{85}' || r == '\U{a0}' || r == '\U{1680}'
    || r == '\U{2028}' || r == '\U{2029}' || r == '\U{202f}' || r == '\U{205f}' || r == '\U{3000}'
    || '\U{2000}' <= r <= '\U{200a}'
  }

  function TrimRunes(s: string): string {
    if s != "" && IsSpace(s[0]) then TrimRunes(s[1..])
    else if s != "" && IsSpace(s[|s| - 1]) then TrimRunes(s[..|s| - 1])
    else s
  }

  function SafeRune(r: char): (c: char)
    ensures NameChar(c)
  {
    if NameChar(r) then r else '_'
  }

  function TrimDots(s: string): (t: string)
    ensures t == "" || t[0] != '.'
    ensures forall c :: c in t ==> c in s
  {
    if s != "" && s[0] == '.' then TrimDots(s[1..]) else s
  }

  predicate HasDots(s: string) {
    exists i :: 0 <= i < |s| - 1 && s[i] == '.' && s[i + 1] == '.'
  }

  /** strings.ReplaceAll(s, "..", "_"): leftmost pairs, never overlapping. */
  function ReplaceDots(s: string): (t: string)
    ensures |t| <= |s|
    ensures HasDots(s) ==> |t| < |s|
    ensures !HasDots(s) ==> t == s
    ensures t == "" <==> s == ""
    ensures s != "" && s[0] != '.' ==> t[0] == s[0]
  {
    if |s| >= 2 && s[0] == '.' && s[1] == '.' then
      ['_'] + ReplaceDots(s[2..])
    else if s == "" then
      ""
    else
      var t := ReplaceDots(s[1..]);
      assert !HasDots(s) ==> !HasDots(s[1..]) by {
        if HasDots(s[1..]) {
          var i :| 0 <= i < |s[1..]| - 1 && s[1..][i] == '.' && s[1..][i + 1] == '.';
          assert s[i + 1] == '.' && s[i + 2] == '.';
        }
      }
      assert HasDots(s) ==> HasDots(s[1..]) by {
        if HasDots(s) {
          var i :| 0 <= i < |s| - 1 && s[i] == '.' && s[i + 1] == '.';
          assert s[1..][i - 1] == '.' && s[1..][i] == '.';
        }
      }
      [s[0]] + t
  }

  lemma {:induction false} ReplaceDotsClean(s: string)
    ensures forall c :: c in ReplaceDots(s) ==> c in s || c == '_'
    ensures !HasDots(ReplaceDots(s))
    ensures ReplaceDots(s) != "" && ReplaceDots(s)[0] == '.' ==> s[0] == '.' && (|s| < 2 || s[1] != '.')
  {
    if |s| >= 2 && s[0] == '.' && s[1] == '.' {
      ReplaceDotsClean(s[2..]);
    } else if s != "" {
      ReplaceDotsClean(s[1..]);
      var t := ReplaceDots(s[1..]);
      if s[0] == '.' && t != "" {
        assert s[1] != '.';
        assert t[0] == s[1..][0];
      }
      var u := [s[0]] + t;
      assert forall i :: 0 < i < |u| ==> u[i] == t[i - 1];
    }
  }

  function Segment(s: string): string {
    var t := TrimRunes(s);
    var res := ReplaceDots(TrimDots(seq(|t|, i requires 0 <= i < |t| => SafeRune(t[i]))));
    if res == "" then "unnamed" else res
  }

  /** backupMemberSegment, with its two loops. The collapsing loop ends because
      each pass shortens the name. */
  method MemberSegment(s: string) returns (res: string)
    ensures res == Segment(s)
  {
    var t := TrimRunes(s);
    var out: string := [];
    for i := 0 to |t|
      invariant out == seq(i, j requires 0 <= j < i => SafeRune(t[j]))
    {
      out := out + [SafeRune(t[i])];
    }
    res := TrimDots(out);
    ghost var start := res;
    ReplaceDotsClean(start);
    while HasDots(res)
      invariant res == start || res == ReplaceDots(start)
      decreases |res|
    {
      res := ReplaceDots(res);
    }
    if res == "" {
      res := "unnamed";
    }
  }

  /** A segment is never empty, never hidden, holds only file-name characters
      and no "..". */
  lemma SegmentShape(s: string)
    ensures Segment(s) != "" && Segment(s)[0] != '.'
    ensures forall i :: 0 <= i < |Segment(s)| ==> NameChar(Segment(s)[i])
    ensures !HasDots(Segment(s))
  {
    var t := TrimRunes(s);
    var safe := seq(|t|, i requires 0 <= i < |t| => SafeRune(t[i]));
    assert forall c :: c in safe ==> NameChar(c);
    ReplaceDotsClean(TrimDots(safe));
  }

  /** BackupMemberPath. */
  function MemberPath(app: string, volume: string): string {
    VOLUMES_DIR + "/" + Segment(app) + "/" + Segment(volume) + MEMBER_SUFFIX
  }

  lemma SplitThree(a: string, b: string, c: string)
    requires '/' !in a && '/' !in b && '/' !in c
    ensures Split(a + "/" + b + "/" + c, '/') == [a, b, c]
  {
    assert a + "/" + b + "/" + c == a + ['/'] + (b + ['/'] + c);
    SplitHead(a, b + ['/'] + c, '/');
    SplitHead(b, c, '/');
    SplitWhole(c, '/');
  }

  lemma NoSlash(s: string)
    requires forall i :: 0 <= i < |s| ==> NameChar(s[i])
    ensures '/' !in s
  {
  }

  /** What makes a three-part path a member path. */
  lemma ValidMemberOf(app: string, file: string)
    requires '/' !in app && '/' !in file
    ensures ValidMember(VOLUMES_DIR + "/" + app + "/" + file)
       <==> ValidName(app) && ValidName(file) && HasSuffix(file, MEMBER_SUFFIX) && |file| > |MEMBER_SUFFIX|
  {
    SplitThree(VOLUMES_DIR, app, file);
  }

  lemma SuffixedShape(s: string)
    requires s != "" && s[0] != '.' && forall i :: 0 <= i < |s| ==> NameChar(s[i])
    ensures var f := s + MEMBER_SUFFIX;
            && '/' !in f && HasSuffix(f, MEMBER_SUFFIX) && |f| > |MEMBER_SUFFIX|
            && (ValidName(f) <==> |f| <= MAX_NAME)
  {
    var f := s + MEMBER_SUFFIX;
    assert f[|s|..] == MEMBER_SUFFIX;
    assert forall i :: 0 <= i < |f| ==> NameChar(f[i]);
  }

  /** The path built from any two names is a member path exactly when the
      reduced segments fit the name limit. */
  lemma MemberPathValidIff(app: string, volume: string)
    ensures ValidMember(MemberPath(app, volume))
       <==> |Segment(app)| <= MAX_NAME && |Segment(volume)| + |MEMBER_SUFFIX| <= MAX_NAME
  {
    SegmentShape(app);
    SegmentShape(volume);
    SuffixedShape(Segment(volume));
    NoSlash(Segment(app));
    var file := Segment(volume) + MEMBER_SUFFIX;
    assert MemberPath(app, volume) == VOLUMES_DIR + "/" + Segment(app) + "/" + file;
    ValidMemberOf(Segment(app), file);
  }

  // ---------- the ingest path ----------

  function TrimSlashes(s: string): string {
    if s != "" && s[|s| - 1] == '/' then TrimSlashes(s[..|s| - 1]) else s
  }

  /** The URL path MemberURL builds under a destination's path. */
  function UrlPath(destination: string, generation: string, member: string): Option<string> {
    if !ValidName(generation) || !ValidMember(member) then None
    else Some(TrimSlashes(destination) + "/" + generation + "/" + member)
  }

  function SplitIngestPath(p: string): Option<(string, string)> {
    if !(INGEST_PREFIX <= p) then None
    else
      var rest := p[|INGEST_PREFIX|..];
      var i := IndexOf(rest, '/');
      if i == |rest| then None
      else
        var generation, member := rest[..i], rest[i + 1..];
        if !ValidName(generation) || !ValidMember(member) then None else Some((generation, member))
  }

  /** What the client's URL names is what the endpoint reads back, for every
      generation and member the client will build a URL for. */
  lemma IngestPathRoundTrip(generation: string, member: string)
    ensures match UrlPath(INGEST_PREFIX, generation, member)
            case Some(p) => SplitIngestPath(p) == Some((generation, member))
            case None => !ValidName(generation) || !ValidMember(member)
  {
    if ValidName(generation) && ValidMember(member) {
      var bare := INGEST_PREFIX[..|INGEST_PREFIX| - 1];
      assert TrimSlashes(INGEST_PREFIX) == bare;
      var p := bare + "/" + generation + "/" + member;
      assert p == INGEST_PREFIX + (generation + ['/'] + member);
      var rest := p[|INGEST_PREFIX|..];
      assert rest == generation + ['/'] + member;
      NoSlash(generation);
      assert rest[..|generation|] == generation;
      IndexOfUnique(rest, '/', |generation|);
      assert rest[|generation| + 1..] == member;
    }
  }

  /** The other direction: whatever path the endpoint accepts is the prefix,
      a valid generation, a slash and a valid member, and nothing else. */
  lemma SplitIngestPathSound(p: string)
    ensures match SplitIngestPath(p)
            case Some((g, m)) => ValidName(g) && ValidMember(m) && p == INGEST_PREFIX + g + "/" + m
            case None => forall g, m :: ValidName(g) && ValidMember(m) ==> p != INGEST_PREFIX + g + "/" + m
  {
    match SplitIngestPath(p)
    case Some((g, m)) =>
      var rest := p[|INGEST_PREFIX|..];
      assert p == INGEST_PREFIX + rest;
      assert rest == g + ['/'] + m;
    case None =>
      forall g, m | ValidName(g) && ValidMember(m)
        ensures p != INGEST_PREFIX + g + "/" + m
      {
        IngestPathRoundTrip(g, m);
        var bare := INGEST_PREFIX[..|INGEST_PREFIX| - 1];
        assert TrimSlashes(INGEST_PREFIX) == bare;
        assert bare + "/" == INGEST_PREFIX;
      }
  }

  // ---------- the components handed to the file system ----------

  /** One plain path component: what every fsat primitive demands. */
  predicate Component(s: string) {
    s != "" && '/' !in s && s != "." && s != ".."
  }

  function MemberParts(m: string): (parts: seq<string>)
    requires ValidMember(m)
    ensures |parts| == 3
  {
    Split(m, '/')
  }

  function TempName(m: string): string
    requires ValidMember(m)
  {
    UPLOAD_PREFIX + MemberParts(m)[2]
  }

  /** The path of the temporary file beside member `m`. */
  function TempPath(m: string): string
    requires ValidMember(m)
  {
    Join([MemberParts(m)[0], MemberParts(m)[1], TempName(m)], '/')
  }

  lemma MemberShape(m: string)
    requires ValidMember(m)
    ensures Join(MemberParts(m), '/') == m
    ensures '/' !in MemberParts(m)[0] && '/' !in MemberParts(m)[1] && '/' !in TempName(m)
    ensures Split(TempPath(m), '/') == [MemberParts(m)[0], MemberParts(m)[1], TempName(m)]
  {
    SplitParts(m, '/');
    var parts := MemberParts(m);
    NoSlash(parts[1]);
    NoSlash(parts[2]);
    SplitJoin([parts[0], parts[1], TempName(m)], '/');
  }

  /** Every name the endpoint derives from a valid generation and member is one
      plain component. */
  lemma DerivedNamesAreComponents(g: string, m: string)
    requires ValidName(g) && ValidMember(m)
    ensures Component(PARTIAL_PREFIX + g)
    ensures forall i :: 0 <= i < 3 ==> Component(MemberParts(m)[i])
    ensures Component(TempName(m))
  {
    MemberShape(m);
    NoSlash(g);
    NoSlash(MemberParts(m)[1]);
    NoSlash(MemberParts(m)[2]);
    assert PARTIAL_PREFIX[1] == 'p';
    assert UPLOAD_PREFIX[1] == 'u';
  }

  /** Temporary names are injective and never a member's name. */
  lemma TempPathsApart(m: string, m': string)
    requires ValidMember(m) && ValidMember(m')
    ensures TempPath(m) == TempPath(m') ==> m == m'
    ensures TempPath(m) != m'
  {
    MemberShape(m);
    MemberShape(m');
    assert TempName(m)[0] == '.';
    if TempPath(m) == TempPath(m') {
      var p, p' := MemberParts(m), MemberParts(m');
      assert [p[0], p[1], TempName(m)] == [p'[0], p'[1], TempName(m')];
      assert p[0] == [p[0], p[1], TempName(m)][0] == p'[0];
      assert p[1] == [p[0], p[1], TempName(m)][1] == p'[1];
      assert TempName(m) == [p[0], p[1], TempName(m)][2] == TempName(m');
      assert p[2] == TempName(m)[|UPLOAD_PREFIX|..] == p'[2];
      assert p == p';
    }
  }
}
