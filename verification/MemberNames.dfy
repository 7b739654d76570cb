/** What the reduction of app and volume names keeps (proto/backup.go): which
    characters stay, which become underscores, and that names that need no
    reduction keep their members apart. */
module MemberNames {
  import opened Text
  import opened Members

  predicate AllSpace(s: string) {
    forall i :: 0 <= i < |s| ==> IsSpace(s[i])
  }

  /** No white space at either end. */
  predicate Tight(s: string) {
    s != "" && !IsSpace(s[0]) && !IsSpace(s[|s| - 1])
  }

  // ---------- white space and dots around a name ----------

  lemma TrimRunesTight(s: string)
    requires s == "" || Tight(s)
    ensures TrimRunes(s) == s
  {
  }

  lemma {:induction false} TrimRunesAround(a: string, s: string, b: string)
    requires AllSpace(a) && AllSpace(b) && (s == "" || Tight(s))
    ensures TrimRunes(a + s + b) == s
    decreases |a| + |b|
  {
    var t := a + s + b;
    if a != "" {
      assert t[0] == a[0] && t[1..] == a[1..] + s + b;
      TrimRunesAround(a[1..], s, b);
    } else if b != "" {
      var c := b[..|b| - 1];
      assert t[|t| - 1] == b[|b| - 1] && t[..|t| - 1] == a + s + c;
      if s == "" {
        assert t[0] == b[0] && t[1..] == a + s + b[1..];
        TrimRunesAround(a, s, b[1..]);
      } else {
        assert t[0] == s[0];
        TrimRunesAround(a, s, c);
      }
    } else {
      assert t == s;
      TrimRunesTight(s);
    }
  }

  /** White space around a name does not count. */
  lemma SegmentTrims(a: string, s: string, b: string)
    requires AllSpace(a) && AllSpace(b) && (s == "" || Tight(s))
    ensures Segment(a + s + b) == Segment(s)
  {
    TrimRunesAround(a, s, b);
    TrimRunesTight(s);
  }

  /** Every character, safe ones as they are. */
  function Safe(t: string): (r: string)
    ensures |r| == |t| && forall i :: 0 <= i < |t| ==> r[i] == SafeRune(t[i])
  {
    seq(|t|, i requires 0 <= i < |t| => SafeRune(t[i]))
  }

  lemma SegmentOfTight(s: string)
    requires s == "" || Tight(s)
    ensures var r := ReplaceDots(TrimDots(Safe(s))); Segment(s) == if r == "" then "unnamed" else r
  {
    TrimRunesTight(s);
    assert Safe(s) == seq(|s|, i requires 0 <= i < |s| => SafeRune(s[i]));
  }

  /** Leading dots do not count. */
  lemma SegmentSkipsDots(s: string)
    requires s == "" || Tight(s)
    ensures Segment("." + s) == Segment(s)
  {
    var t := "." + s;
    assert Tight(t) by {
      assert t[|t| - 1] == if s == "" then '.' else s[|s| - 1];
    }
    SegmentOfTight(t);
    SegmentOfTight(s);
    assert Safe(t) == "." + Safe(s);
    TrimDotsStep(Safe(s));
  }

  lemma TrimDotsStep(u: string)
    ensures TrimDots("." + u) == TrimDots(u)
  {
    assert ("." + u)[1..] == u;
  }

  /** Nothing but white space and dots leaves no name. */
  lemma SegmentOfNothing()
    ensures Segment("") == "unnamed"
  {
    SegmentOfTight("");
  }

  // ---------- what stays ----------

  lemma SafeDots(s: string)
    ensures HasDots(Safe(s)) <==> HasDots(s)
  {
    var r := Safe(s);
    forall i | 0 <= i < |s| ensures r[i] == '.' <==> s[i] == '.' {
    }
    if HasDots(s) {
      var i :| 0 <= i < |s| - 1 && s[i] == '.' && s[i + 1] == '.';
      assert r[i] == '.' && r[i + 1] == '.';
    }
    if HasDots(r) {
      var i :| 0 <= i < |r| - 1 && r[i] == '.' && r[i + 1] == '.';
      assert s[i] == '.' && s[i + 1] == '.';
    }
  }

  /** Without dots to remove, a name keeps its length and every letter, digit, dot,
      underscore and hyphen in its place; anything else becomes an underscore. */
  lemma SegmentKeeps(s: string)
    requires Tight(s) && s[0] != '.' && !HasDots(s)
    ensures |Segment(s)| == |s|
    ensures forall i :: 0 <= i < |s| ==>
              var c := s[i];
              Segment(s)[i] ==
              if 'a' <= c <= 'z' || 'A' <= c <= 'Z' || '0' <= c <= '9' || c == '.' || c == '_' || c == '-'
              then c else '_'
  {
    SegmentOfTight(s);
    SafeDots(s);
    assert Safe(s)[0] != '.';
  }

  lemma NoDotsBehind(a: string)
    requires a != "" && !HasDots(a)
    ensures !HasDots(a[1..]) && !(|a| > 1 && a[0] == '.' && a[1] == '.')
  {
  }

  lemma ReplaceDotsStep(x: char, t: string)
    requires !(x == '.' && t != "" && t[0] == '.')
    ensures ReplaceDots([x] + t) == [x] + ReplaceDots(t)
  {
    assert ([x] + t)[1..] == t;
  }

  /** Text without a pair of dots stays, and what follows is reduced by itself. */
  lemma {:induction false} ReplaceDotsAfter(a: string, x: string)
    requires !HasDots(a) && (a == "" || a[|a| - 1] != '.')
    ensures ReplaceDots(a + x) == a + ReplaceDots(x)
  {
    if a == "" {
      assert a + x == x;
    } else {
      NoDotsBehind(a);
      ReplaceDotsAfter(a[1..], x);
      Regroup(a, x);
      Regroup(a, ReplaceDots(x));
      ReplaceDotsStep(a[0], a[1..] + x);
    }
  }

  /** A pair of dots becomes one underscore. */
  lemma ReplaceDotsPair(b: string)
    ensures ReplaceDots(".." + b) == "_" + ReplaceDots(b)
  {
    assert (".." + b)[2..] == b;
  }

  lemma Regroup(a: string, rest: string)
    requires a != ""
    ensures a + rest == [a[0]] + (a[1..] + rest)
  {
  }

  // ---------- members apart ----------

  /** A name that needs no reduction. */
  predicate Reduced(s: string) {
    s != "" && s[0] != '.' && !HasDots(s) && forall i :: 0 <= i < |s| ==> NameChar(s[i])
  }

  lemma ReducedStays(s: string)
    requires Reduced(s)
    ensures Segment(s) == s
  {
    assert NameChar(s[0]) && NameChar(s[|s| - 1]);
    SegmentKeeps(s);
  }

  /** Different reduced names have different member paths. */
  lemma MemberPathInjective(app: string, volume: string, app': string, volume': string)
    requires Reduced(app) && Reduced(volume) && Reduced(app') && Reduced(volume')
    requires MemberPath(app, volume) == MemberPath(app', volume')
    ensures app == app' && volume == volume'
  {
    ReducedStays(app);
    ReducedStays(volume);
    ReducedStays(app');
    ReducedStays(volume');
    PathParts(app, volume);
    PathParts(app', volume');
    assert volume == (volume + MEMBER_SUFFIX)[..|volume|];
    assert volume' == (volume' + MEMBER_SUFFIX)[..|volume'|];
  }

  lemma PathParts(app: string, volume: string)
    requires Reduced(app) && Reduced(volume) && Segment(app) == app && Segment(volume) == volume
    ensures Split(MemberPath(app, volume), '/') == [VOLUMES_DIR, app, volume + MEMBER_SUFFIX]
  {
    NoSlash(app);
    SuffixedShape(volume);
    assert MemberPath(app, volume) == VOLUMES_DIR + "/" + app + "/" + (volume + MEMBER_SUFFIX);
    SplitThree(VOLUMES_DIR, app, volume + MEMBER_SUFFIX);
  }

  /** Short names without a pair of dots are valid exactly when they need no
      reduction. */
  lemma ValidIffReduced(s: string)
    ensures ValidName(s) && !HasDots(s) <==> Segment(s) == s && |s| <= 128
  {
    SegmentShape(s);
    if ValidName(s) && !HasDots(s) {
      ReducedStays(s);
    }
  }

  /** `p` is the member path of `app` and `volume`. */
  ghost predicate MemberOf(p: string, app: string, volume: string) {
    && p == "volumes/" + app + "/" + volume + ".rasputin-archive" && ValidName(app)
    && 0 < |volume| <= 111 && volume[0] != '.' && forall i :: 0 <= i < |volume| ==> NameChar(volume[i])
  }

  /** The member paths are exactly these. */
  lemma MemberIff(p: string)
    ensures ValidMember(p) <==> exists app, volume :: MemberOf(p, app, volume)
  {
    if ValidMember(p) {
      var app, volume := MemberNamed(p);
    }
    if app, volume :| MemberOf(p, app, volume) {
      SuffixedShape(volume);
      NoSlash(app);
      ValidMemberOf(app, volume + MEMBER_SUFFIX);
      MemberText(app, volume);
    }
  }

  /** A member path is one that BackupMemberPath produces, for some two names, exactly
      when neither of its own has a pair of dots. */
  lemma ProducedIff(p: string, app: string, volume: string)
    requires MemberOf(p, app, volume)
    ensures (exists a, v :: MemberPath(a, v) == p) <==> !HasDots(app) && !HasDots(volume)
  {
    MemberText(app, volume);
    if a, v :| MemberPath(a, v) == p {
      SegmentsOf(a, v, app, volume);
    }
    if !HasDots(app) && !HasDots(volume) {
      ReducedStays(app);
      ReducedStays(volume);
      assert MemberPath(app, volume) == p;
    }
  }

  lemma SegmentsOf(a: string, v: string, app: string, volume: string)
    requires MemberPath(a, v) == VOLUMES_DIR + "/" + app + "/" + (volume + MEMBER_SUFFIX)
    requires '/' !in app && '/' !in volume
    ensures Segment(a) == app && Segment(v) == volume && !HasDots(app) && !HasDots(volume)
  {
    SegmentShape(a);
    SegmentShape(v);
    NoSlash(Segment(a));
    NoSlash(Segment(v));
    PathTells(Segment(a), Segment(v), app, volume);
  }

  lemma PathTells(a: string, v: string, b: string, w: string)
    requires '/' !in a && '/' !in v && '/' !in b && '/' !in w
    requires VOLUMES_DIR + "/" + a + "/" + v + MEMBER_SUFFIX == VOLUMES_DIR + "/" + b + "/" + (w + MEMBER_SUFFIX)
    ensures a == b && v == w
  {
    Grouped(VOLUMES_DIR + "/" + a + "/", v, MEMBER_SUFFIX);
    SplitThree(VOLUMES_DIR, a, v + MEMBER_SUFFIX);
    SplitThree(VOLUMES_DIR, b, w + MEMBER_SUFFIX);
    SuffixTells(v, w);
  }

  lemma Grouped(a: string, b: string, c: string)
    ensures a + b + c == a + (b + c)
  {
  }

  lemma SuffixTells(v: string, w: string)
    ensures v + MEMBER_SUFFIX == w + MEMBER_SUFFIX ==> v == w
  {
    assert v == (v + MEMBER_SUFFIX)[..|v|] && w == (w + MEMBER_SUFFIX)[..|w|];
  }

  /** A valid member path that is not. */
  lemma NotProduced(p: string, app: string, volume: string)
    requires app == "a..b" && volume == "c" && p == "volumes/" + app + "/" + volume + ".rasputin-archive"
    ensures ValidMember(p) && !exists a, v :: MemberPath(a, v) == p
  {
    assert app[1] == '.' && app[2] == '.';
    MemberIff(p);
    ProducedIff(p, app, volume);
  }

  lemma MemberText(app: string, volume: string)
    ensures "volumes/" + app + "/" + volume + ".rasputin-archive"
         == VOLUMES_DIR + "/" + app + "/" + (volume + MEMBER_SUFFIX)
  {
    assert "volumes/" == VOLUMES_DIR + "/";
  }

  lemma MemberNamed(p: string) returns (app: string, volume: string)
    requires ValidMember(p)
    ensures MemberOf(p, app, volume)
  {
    var parts := Split(p, '/');
    var file := parts[2];
    app, volume := parts[1], file[..|file| - |MEMBER_SUFFIX|];
    assert file == volume + MEMBER_SUFFIX;
    SplitParts(p, '/');
    JoinThree(parts[0], app, file);
    assert parts == [parts[0], app, file];
    MemberText(app, volume);
    assert forall i :: 0 <= i < |volume| ==> volume[i] == file[i];
  }

  lemma JoinThree(a: string, b: string, c: string)
    ensures Join([a, b, c], '/') == a + "/" + b + "/" + c
  {
    assert [a, b, c] == [a] + [b, c] && [b, c] == [b] + [c];
    JoinCons(a, [b, c], '/');
    JoinCons(b, [c], '/');
  }

  lemma TrimSlashesStep(d: string)
    ensures TrimSlashes(d + "/") == TrimSlashes(d)
  {
    var t := d + "/";
    assert t[..|t| - 1] == d;
  }

  /** However many slashes a destination ends with, one stands before the generation. */
  lemma UrlPathOf(destination: string, generation: string, member: string)
    requires ValidName(generation) && ValidMember(member)
    ensures UrlPath(destination + "/", generation, member) == UrlPath(destination, generation, member)
    ensures destination == "" || destination[|destination| - 1] != '/' ==>
              UrlPath(destination, generation, member) == Some(destination + "/" + generation + "/" + member)
  {
    TrimSlashesStep(destination);
  }

  /** And reduction happens once: reducing a segment changes nothing. */
  lemma SegmentOfSegment(s: string)
    ensures Segment(Segment(s)) == Segment(s)
  {
    SegmentShape(s);
    ReducedStays(Segment(s));
  }
}
