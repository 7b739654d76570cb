/** Reading back a rendered seed gives the seed (proto/seed.go). */
module SeedRoundTrip {
  import opened Text
  import opened Quoting
  import opened Sorting
  import opened Seed

  // ---------- lines ----------

  /** The lines of a file are those of its header, however many it has, and the
      ones written after it. */
  lemma {:induction false} ScanAfter(header: string, ls: seq<string>)
    requires Without(ls, '\n')
    ensures Split(Unlines([header] + ls), '\n') == Split(header, '\n') + ls + [""]
    ensures Scan(Unlines([header] + ls)) == Split(header, '\n') + ls
  {
    var top := Split(header, '\n');
    if ls == [] {
      UnlinesOne(header);
      SplitTerminated(header, '\n');
      assert [header] + ls == [header] && top + ls == top;
    } else {
      var init, l := ls[..|ls| - 1], ls[|ls| - 1];
      ScanAfter(header, init);
      assert [header] + ls == [header] + init + [l] && top + ls == top + init + [l];
      LinesMore([header] + init, l);
      SplitLine(Unlines([header] + init), top + init, l);
    }
    var all := top + ls;
    assert (all + [""])[..|all|] == all;
  }

  lemma UnlinesOne(l: string)
    ensures Unlines([l]) == l + ['\n']
  {
    LinesMore([], l);
    assert [] + [l] == [l] && "" + (l + "\n") == l + ['\n'];
  }

  /** One more terminated line. */
  lemma SplitLine(t: string, ls: seq<string>, l: string)
    requires Split(t, '\n') == ls + [""] && '\n' !in l
    ensures Split(t + (l + "\n"), '\n') == ls + [l] + [""]
  {
    SplitAppend(t, l, '\n');
    assert "" + l == l && (ls + [""])[..|ls|] == ls;
    SplitTerminated(t + l, '\n');
    assert t + (l + "\n") == t + l + ['\n'];
  }

  /** Every line ends before the scanner's limit. */
  ghost predicate Short(ls: seq<string>) {
    forall l :: l in ls ==> |l| <= LINE_LIMIT
  }

  lemma EnvNameSolid(k: string)
    requires ValidEnvName(k)
    ensures Solid(k[0]) && Solid(k[|k| - 1]) && k[0] != '#' && '=' !in k && '\n' !in k
  {
    assert NameByte(k[0]) && NameByte(k[|k| - 1]);
  }

  lemma CutAtEquals(k: string, q: string, pair: (string, string) -> Reading)
    requires k != "" && k[0] != '#' && '=' !in k
    ensures CutWith(k + "=" + q, pair) == pair(k, q)
  {
    CutAt(k, '=', q);
  }

  lemma ReadTrimmedLine(k: string, v: string)
    requires ValidEnvName(k)
    ensures ReadTrimmed(k + "=" + Quoted(v)) == Sets(k, v)
  {
    EnvNameSolid(k);
    CutAtEquals(k, Quoted(v), ReadPair);
    TrimSolid(k);
    UnquoteOfQuoted(v);
  }

  lemma TrimLine(k: string, v: string)
    requires ValidEnvName(k)
    ensures var l := k + "=" + Quoted(v); TrimSpace(StripCR(l)) == l
  {
    var l := k + "=" + Quoted(v);
    EnvNameSolid(k);
    assert l[0] == k[0] && l[|l| - 1] == '\'';
    TrimSolid(l);
  }

  lemma ReadsField(f: Field)
    requires ValidEnvName(f.key)
    ensures ReadLine(Line(f)) == if |Line(f)| <= LINE_LIMIT then Sets(f.key, f.value) else Bad
  {
    TrimLine(f.key, f.value);
    ReadTrimmedLine(f.key, f.value);
  }

  lemma {:induction false} StripCRKeeps(l: string)
    requires l != "" && l[0] == '#'
    ensures StripCR(l) != "" && StripCR(l)[0] == '#'
  {
    if |l| > 1 && l[|l| - 1] == '\r' {
      StripCRKeeps(l[..|l| - 1]);
    }
  }

  lemma ReadsComment(l: string)
    requires l != "" && l[0] == '#'
    ensures ReadLine(l) == if |l| <= LINE_LIMIT then Blank else Bad
  {
    StripCRKeeps(l);
    TrimSolid(StripCR(l));
  }

  // ---------- folding the fields ----------

  ghost function AssignAll(fs: seq<Field>): Seed {
    if fs == [] then EMPTY
    else
      var s, f := AssignAll(fs[..|fs| - 1]), fs[|fs| - 1];
      if Omitted(f) then s else Assign(s, f.key, f.value)
  }

  /** The fields assigned in turn to what a seed holds already. */
  ghost function AssignOnto(p: Seed, fs: seq<Field>): Seed {
    if fs == [] then p
    else
      var s, f := AssignOnto(p, fs[..|fs| - 1]), fs[|fs| - 1];
      if Omitted(f) then s else Assign(s, f.key, f.value)
  }

  lemma {:induction false} AssignOntoEmpty(fs: seq<Field>)
    ensures AssignOnto(EMPTY, fs) == AssignAll(fs)
  {
    if fs != [] {
      AssignOntoEmpty(fs[..|fs| - 1]);
    }
  }

  ghost predicate ReadsAs(read: string -> Reading, f: Field) {
    read(Line(f)) == if |Line(f)| <= LINE_LIMIT then Sets(f.key, f.value) else Bad
  }

  /** Written fields after any lines. */
  lemma {:induction false} FoldOnto(read: string -> Reading, top: seq<string>, fs: seq<Field>)
    requires forall i :: 0 <= i < |fs| ==> ReadsAs(read, fs[i])
    ensures Fold(top + Lines(fs), read) ==
            match Fold(top, read)
            case None => None
            case Some(p) => if Short(Lines(fs)) then Some(AssignOnto(p, fs)) else None
  {
    if fs == [] {
      assert top + Lines(fs) == top;
    } else {
      var init, f := fs[..|fs| - 1], fs[|fs| - 1];
      FoldOnto(read, top, init);
      assert ReadsAs(read, f);
      if Omitted(f) {
        assert Lines(fs) == Lines(init);
      } else {
        FoldSnoc(top + Lines(init), Line(f), read);
        assert top + Lines(fs) == top + Lines(init) + [Line(f)];
        ShortMore(Lines(init), Line(f));
      }
    }
  }

  /** A comment before any lines. */
  lemma {:induction false} FoldHead(read: string -> Reading, first: string, later: seq<string>)
    ensures read(first) == Blank ==> Fold([first] + later, read) == Fold(later, read)
    ensures read(first) == Bad ==> Fold([first] + later, read).None?
  {
    if later == [] {
      FoldSnoc([], first, read);
      assert [first] + later == [] + [first];
    } else {
      var init, l := later[..|later| - 1], later[|later| - 1];
      FoldHead(read, first, init);
      FoldSnoc([first] + init, l, read);
      FoldSnoc(init, l, read);
      assert [first] + later == [first] + init + [l] && later == init + [l];
    }
  }

  lemma ShortMore(ls: seq<string>, l: string)
    ensures Short(ls + [l]) <==> Short(ls) && |l| <= LINE_LIMIT
  {
    var all := ls + [l];
    assert l in all;
    assert forall x :: x in ls ==> x in all;
  }

  lemma ShortConcat(a: seq<string>, b: seq<string>)
    ensures Short(a + b) <==> Short(a) && Short(b)
  {
    assert forall l :: l in a + b <==> l in a || l in b;
  }

  // ---------- what the fields assign ----------

  function Read(s: Seed, k: string): string {
    if k == ROLE then s.role
    else if k == NODE_ID then s.nodeID
    else if k == CLUSTER_ID then s.clusterID
    else if k == NATS_URL then s.natsURL
    else if k == JOIN_TOKEN then s.joinToken
    else if k == BUS_PIN then s.busPin
    else if k == SSH_KEY then s.sshKey
    else if k == BUS_AUTH then s.busAuth
    else if k == BUS_KEY then s.busKey
    else if k in s.extra then s.extra[k]
    else ""
  }

  lemma AssignReads(s: Seed, k: string, v: string, o: string)
    ensures Read(Assign(s, k, v), o) == if o == k then v else Read(s, o)
    ensures o in Assign(s, k, v).extra <==> o in s.extra || (o == k && !KnownKey(k))
    ensures Assign(s, k, v).origin == s.origin
  {
    if KnownKey(k) {
      AssignKnownReads(s, k, v, o);
    } else {
      AssignUnknownReads(s, k, v, o);
    }
  }

  lemma AssignKnownReads(s: Seed, k: string, v: string, o: string)
    requires KnownKey(k)
    ensures Read(Assign(s, k, v), o) == if o == k then v else Read(s, o)
    ensures Assign(s, k, v).extra == s.extra && Assign(s, k, v).origin == s.origin
  {
  }

  lemma AssignUnknownReads(s: Seed, k: string, v: string, o: string)
    requires !KnownKey(k)
    ensures Read(Assign(s, k, v), o) == if o == k then v else Read(s, o)
    ensures Assign(s, k, v).extra == s.extra[k := v] && Assign(s, k, v).origin == s.origin
  {
  }

  ghost predicate DistinctKeys(fs: seq<Field>) {
    forall i, j :: 0 <= i < j < |fs| ==> fs[i].key != fs[j].key
  }

  ghost predicate HasKey(fs: seq<Field>, k: string) {
    exists i :: 0 <= i < |fs| && fs[i].key == k
  }

  lemma {:induction false} AssignedRead(fs: seq<Field>, i: nat)
    requires DistinctKeys(fs) && i < |fs|
    ensures Read(AssignAll(fs), fs[i].key) == fs[i].value
  {
    var n := |fs| - 1;
    var s, f := AssignAll(fs[..n]), fs[n];
    if i < n {
      AssignedRead(fs[..n], i);
    } else if Omitted(f) {
      UnassignedRead(fs[..n], f.key);
    }
    AssignReads(s, f.key, f.value, fs[i].key);
  }

  lemma {:induction false} UnassignedRead(fs: seq<Field>, k: string)
    requires !HasKey(fs, k)
    ensures Read(AssignAll(fs), k) == ""
  {
    if fs != [] {
      var n := |fs| - 1;
      var s, f := AssignAll(fs[..n]), fs[n];
      UnassignedRead(fs[..n], k);
      AssignReads(s, f.key, f.value, k);
    }
  }

  lemma {:induction false} AssignedKeys(fs: seq<Field>, k: string)
    requires forall i :: 0 <= i < |fs| && !fs[i].required ==> KnownKey(fs[i].key)
    ensures k in AssignAll(fs).extra <==> !KnownKey(k) && HasKey(fs, k)
    ensures AssignAll(fs).origin == ""
  {
    if fs != [] {
      var n := |fs| - 1;
      var s, f := AssignAll(fs[..n]), fs[n];
      AssignedKeys(fs[..n], k);
      AssignReads(s, f.key, f.value, k);
      HasKeyMore(fs, k);
    }
  }

  lemma HasKeyMore(fs: seq<Field>, k: string)
    requires fs != []
    ensures HasKey(fs, k) <==> HasKey(fs[..|fs| - 1], k) || fs[|fs| - 1].key == k
  {
    if HasKey(fs, k) {
      var i :| 0 <= i < |fs| && fs[i].key == k;
      assert i < |fs| - 1 ==> fs[..|fs| - 1][i].key == k;
    }
    if HasKey(fs[..|fs| - 1], k) {
      var i :| 0 <= i < |fs| - 1 && fs[..|fs| - 1][i].key == k;
      assert fs[i].key == k;
    }
  }

  // ---------- the round trip ----------

  lemma KeyLengths()
    ensures |ROLE| == 18 && |NODE_ID| == 16 && |CLUSTER_ID| == 19 && |NATS_URL| == 17 && |JOIN_TOKEN| == 22
    ensures |BUS_PIN| == 16 && |SSH_KEY| == 27 && |BUS_AUTH| == 17 && |BUS_KEY| == 16
  {
  }

  lemma KeysDiffer()
    ensures NODE_ID != BUS_PIN && NODE_ID != BUS_KEY && BUS_PIN != BUS_KEY && NATS_URL != BUS_AUTH
  {
    KeyLengths();
    assert NODE_ID[15] == 'D' && BUS_PIN[15] == 'N' && BUS_KEY[15] == 'Y';
    assert NATS_URL[16] == 'L' && BUS_AUTH[16] == 'H';
  }

  function Rank(k: string): nat {
    if k == ROLE then 0
    else if k == NODE_ID then 1
    else if k == CLUSTER_ID then 2
    else if k == NATS_URL then 3
    else if k == JOIN_TOKEN then 4
    else if k == BUS_PIN then 5
    else if k == SSH_KEY then 6
    else if k == BUS_AUTH then 7
    else if k == BUS_KEY then 8
    else 9
  }

  lemma Ranks()
    ensures Rank(ROLE) == 0 && Rank(NODE_ID) == 1 && Rank(CLUSTER_ID) == 2 && Rank(NATS_URL) == 3
    ensures Rank(JOIN_TOKEN) == 4 && Rank(BUS_PIN) == 5 && Rank(SSH_KEY) == 6
    ensures Rank(BUS_AUTH) == 7 && Rank(BUS_KEY) == 8
  {
    KeyLengths();
    KeysDiffer();
  }

  lemma NamedRanks(s: Seed, i: nat)
    requires i < 9
    ensures |Named(s)| == 9 && Rank(Named(s)[i].key) == i
  {
    RankKeyAt(i);
  }

  lemma RankKeyAt(i: nat)
    requires i < 9
    ensures Rank(KeyAt(i)) == i
  {
    Ranks();
  }

  lemma RankKnown(k: string)
    ensures KnownKey(k) <==> Rank(k) < 9
  {
  }

  lemma FieldsDistinct(s: Seed, keys: seq<string>)
    requires Renders(s) && SortedKeysOf(keys, s.extra)
    ensures DistinctKeys(Named(s) + Extras(s.extra, keys))
  {
    var named, extras := Named(s), Extras(s.extra, keys);
    forall i | 0 <= i < 9 ensures |named| == 9 && Rank(named[i].key) == i {
      NamedRanks(s, i);
    }
    forall i | 0 <= i < |extras| ensures Rank(extras[i].key) >= 9 {
      assert keys[i] in s.extra;
      RankKnown(keys[i]);
    }
    DistinctByRank(named, extras, keys);
  }

  lemma DistinctByRank(named: seq<Field>, extras: seq<Field>, keys: seq<string>)
    requires forall i :: 0 <= i < |named| ==> Rank(named[i].key) == i
    requires forall i :: 0 <= i < |extras| ==> Rank(extras[i].key) >= |named|
    requires Ascending(keys) && |keys| == |extras| && forall i :: 0 <= i < |keys| ==> extras[i].key == keys[i]
    ensures DistinctKeys(named + extras)
  {
    var fs := named + extras;
    forall i, j | 0 <= i < j < |fs| ensures fs[i].key != fs[j].key {
      if i >= |named| {
        BeforeIrreflexive(keys[i - |named|]);
      }
    }
  }

  /** The named field a rank stands for. */
  function AtRank(s: Seed, i: nat): string
    requires i < 9
  {
    match i
    case 0 => s.role
    case 1 => s.nodeID
    case 2 => s.clusterID
    case 3 => s.natsURL
    case 4 => s.joinToken
    case 5 => s.busPin
    case 6 => s.sshKey
    case 7 => s.busAuth
    case 8 => s.busKey
  }

  lemma ReadAtRank(t: Seed, k: string)
    requires Rank(k) < 9
    ensures Read(t, k) == AtRank(t, Rank(k))
  {
  }

  lemma NamedValue(s: Seed, i: nat)
    requires i < 9
    ensures |Named(s)| == 9 && Named(s)[i].value == AtRank(Stored(s), i)
  {
  }

  lemma SameAtRanks(t: Seed, u: Seed)
    requires forall i: nat :: i < 9 ==> AtRank(t, i) == AtRank(u, i)
    requires t.extra == u.extra && t.origin == u.origin
    ensures t == u
  {
    assert AtRank(t, 0) == AtRank(u, 0) && AtRank(t, 1) == AtRank(u, 1) && AtRank(t, 2) == AtRank(u, 2);
    assert AtRank(t, 3) == AtRank(u, 3) && AtRank(t, 4) == AtRank(u, 4) && AtRank(t, 5) == AtRank(u, 5);
    assert AtRank(t, 6) == AtRank(u, 6) && AtRank(t, 7) == AtRank(u, 7) && AtRank(t, 8) == AtRank(u, 8);
  }

  lemma NamedRead(s: Seed, t: Seed, named: seq<Field>)
    requires named == Named(s) && ReadsBack(t, named) && t.extra == s.extra && t.origin == ""
    ensures t == Stored(s)
  {
    forall i: nat | i < 9 ensures AtRank(t, i) == AtRank(Stored(s), i) {
      NamedRanks(s, i);
      NamedValue(s, i);
      ReadAtRank(t, named[i].key);
    }
    SameAtRanks(t, Stored(s));
  }

  ghost predicate ReadsBack(t: Seed, fs: seq<Field>) {
    forall i :: 0 <= i < |fs| ==> Read(t, fs[i].key) == fs[i].value
  }

  lemma NamedAssigned(named: seq<Field>, extras: seq<Field>)
    requires DistinctKeys(named + extras)
    ensures ReadsBack(AssignAll(named + extras), named)
  {
    var fs := named + extras;
    forall i | 0 <= i < |named| ensures Read(AssignAll(fs), named[i].key) == named[i].value {
      assert fs[i] == named[i];
      AssignedRead(fs, i);
    }
  }

  lemma ExtraKeys(named: seq<Field>, extra: map<string, string>, keys: seq<string>, k: string)
    requires forall k :: k in keys <==> k in extra
    requires forall i :: 0 <= i < |named| ==> named[i].key != k
    ensures HasKey(named + Extras(extra, keys), k) <==> k in extra
  {
    var extras := Extras(extra, keys);
    var fs := named + extras;
    if k in extra {
      assert k in keys;
      var i :| 0 <= i < |keys| && keys[i] == k;
      assert fs[|named| + i] == extras[i];
    }
    if HasKey(fs, k) {
      var i :| 0 <= i < |fs| && fs[i].key == k;
      assert extras[i - |named|].key == k;
      assert keys[i - |named|] in keys;
    }
  }

  /** The keys a field list and an extra map keep apart. */
  ghost predicate Apart(named: seq<Field>, extra: map<string, string>) {
    && (forall i :: 0 <= i < |named| ==> KnownKey(named[i].key))
    && (forall k :: k in extra ==> !KnownKey(k))
  }

  lemma ExtraAssignedAt(named: seq<Field>, extra: map<string, string>, keys: seq<string>, k: string)
    requires forall k :: k in keys <==> k in extra
    requires DistinctKeys(named + Extras(extra, keys)) && Apart(named, extra)
    ensures var t := AssignAll(named + Extras(extra, keys));
            && t.origin == "" && (k in t.extra <==> k in extra)
            && (k in extra ==> t.extra[k] == extra[k])
  {
    var fs := named + Extras(extra, keys);
    var t := AssignAll(fs);
    AssignedKeys(fs, k);
    if !KnownKey(k) {
      ExtraKeys(named, extra, keys, k);
      if k in extra {
        ExtraValue(named, extra, keys, k);
        UnknownRead(t, k);
      }
    }
  }

  lemma ExtraAssigned(named: seq<Field>, extra: map<string, string>, keys: seq<string>, t: Seed)
    requires forall k :: k in keys <==> k in extra
    requires DistinctKeys(named + Extras(extra, keys)) && Apart(named, extra)
    requires t == AssignAll(named + Extras(extra, keys))
    ensures t.extra == extra && t.origin == ""
  {
    ExtraAssignedAt(named, extra, keys, "");
    forall k ensures (k in t.extra <==> k in extra) && (k in extra ==> t.extra[k] == extra[k]) {
      ExtraAssignedAt(named, extra, keys, k);
    }
  }

  lemma ExtraValue(named: seq<Field>, extra: map<string, string>, keys: seq<string>, k: string)
    requires (forall k :: k in keys <==> k in extra) && k in extra
    requires DistinctKeys(named + Extras(extra, keys))
    ensures Read(AssignAll(named + Extras(extra, keys)), k) == extra[k]
  {
    var extras := Extras(extra, keys);
    assert k in keys;
    var i :| 0 <= i < |keys| && keys[i] == k;
    assert (named + extras)[|named| + i] == extras[i];
    AssignedRead(named + extras, |named| + i);
  }

  lemma UnknownRead(t: Seed, k: string)
    requires !KnownKey(k) && k in t.extra
    ensures Read(t, k) == t.extra[k]
  {
  }

  lemma NamedKnown(s: Seed, i: nat)
    requires i < 9
    ensures |Named(s)| == 9 && KnownKey(Named(s)[i].key)
  {
    NamedRanks(s, i);
    RankKnown(Named(s)[i].key);
  }

  lemma KnownValid(k: string)
    requires KnownKey(k)
    ensures ValidEnvName(k)
  {
    if k == ROLE || k == NODE_ID || k == CLUSTER_ID {
      KeysValid();
    } else if k == NATS_URL || k == JOIN_TOKEN || k == BUS_PIN {
      BusKeysValid();
    } else {
      LastKeysValid();
    }
  }

  lemma KeysValid()
    ensures ValidEnvName(ROLE) && ValidEnvName(NODE_ID) && ValidEnvName(CLUSTER_ID)
  {
  }

  lemma BusKeysValid()
    ensures ValidEnvName(NATS_URL) && ValidEnvName(JOIN_TOKEN) && ValidEnvName(BUS_PIN)
  {
  }

  lemma LastKeysValid()
    ensures ValidEnvName(SSH_KEY) && ValidEnvName(BUS_AUTH) && ValidEnvName(BUS_KEY)
  {
  }

  /** What comes back: the origin is a comment, and a blank cluster defaults. */
  function Stored(s: Seed): Seed {
    s.(clusterID := if TrimSpace(s.clusterID) == "" then "rasputin" else s.clusterID, origin := "")
  }

  lemma AssignedSeed(s: Seed, named: seq<Field>, keys: seq<string>)
    requires Renders(s) && SortedKeysOf(keys, s.extra) && named == Named(s)
    ensures AssignAll(named + Extras(s.extra, keys)) == Stored(s)
  {
    var t := AssignAll(named + Extras(s.extra, keys));
    FieldsDistinct(s, keys);
    forall i | 0 <= i < |named| ensures KnownKey(named[i].key) {
      NamedKnown(s, i);
    }
    NamedAssigned(named, Extras(s.extra, keys));
    ExtraAssigned(named, s.extra, keys, t);
    NamedRead(s, t, named);
  }

  ghost predicate NamesValid(fs: seq<Field>) {
    forall i :: 0 <= i < |fs| ==> ValidEnvName(fs[i].key)
  }

  lemma ConcatNamesValid(named: seq<Field>, extra: map<string, string>, keys: seq<string>)
    requires forall k :: k in keys <==> k in extra
    requires NamesValid(named) && Renderable(named, extra)
    ensures NamesValid(named + Extras(extra, keys))
  {
    var extras := Extras(extra, keys);
    forall i | 0 <= i < |extras| ensures ValidEnvName(extras[i].key) {
      assert keys[i] in extra;
    }
  }

  lemma NamedValid(s: Seed, named: seq<Field>)
    requires named == Named(s)
    ensures NamesValid(named)
  {
    forall i | 0 <= i < |named| ensures ValidEnvName(named[i].key) {
      NamedKnown(s, i);
      KnownValid(named[i].key);
    }
  }

  lemma LineWithoutNewline(f: Field)
    requires ValidEnvName(f.key) && Writable(f.value)
    ensures '\n' !in Line(f)
  {
    EnvNameSolid(f.key);
    EscapeWritable(f.value);
  }

  lemma {:induction false} LinesWithoutNewline(fs: seq<Field>)
    requires NamesValid(fs) && AllWritable(fs)
    ensures Without(Lines(fs), '\n')
  {
    if fs != [] {
      var init, f := fs[..|fs| - 1], fs[|fs| - 1];
      LinesWithoutNewline(init);
      LineWithoutNewline(f);
    }
  }

  lemma TitleOneLine(role: string)
    ensures '\n' !in FileName(role) && '\n' !in TITLE && '\n' !in GENERATED
  {
  }

  /** The lines of the origin after its first, which the header's comment sign
      does not cover. */
  function OriginLines(origin: string): seq<string> {
    Split(TrimSpace(origin), '\n')[1..]
  }

  lemma SplitPrependAt(a: string, x: string, rest: string, c: char)
    requires c !in a && c !in x
    ensures var p := [x] + Split(rest, c); Split(a + (x + [c] + rest), c) == [a + p[0]] + p[1..]
  {
    RegroupedFront(a, x, c, rest);
    SplitHead(a + x, rest, c);
    ConsParts(x, Split(rest, c));
  }

  lemma SplitPrependWhole(a: string, o: string, c: char)
    requires c !in a && c !in o
    ensures Split(a + o, c) == [a + o] && Split(o, c) == [o]
  {
    SplitWhole(o, c);
    SplitWhole(a + o, c);
  }

  lemma SplitPrepend(a: string, o: string, c: char, parts: seq<string>)
    requires c !in a && parts == Split(o, c)
    ensures Split(a + o, c) == [a + parts[0]] + parts[1..]
  {
    if c in o {
      var x, rest := CutIn(o, c);
      SplitHead(x, rest, c);
      SplitPrependAt(a, x, rest, c);
    } else {
      SplitPrependWhole(a, o, c);
      assert [a + o] + [o][1..] == [a + o];
    }
  }

  lemma CutIn(o: string, c: char) returns (x: string, rest: string)
    requires c in o
    ensures o == x + [c] + rest && c !in x
  {
    var i := IndexOf(o, c);
    assert o[..|o|] == o;
    x, rest := o[..i], o[i + 1..];
  }

  function HeaderStart(role: string, origin: string): string {
    if origin == "" then "# " + FileName(role) + TITLE else "# " + FileName(role) + TITLE + GENERATED
  }

  lemma StartIsComment(role: string, origin: string)
    ensures HeaderStart(role, origin) != "" && HeaderStart(role, origin)[0] == '#'
    ensures '\n' !in HeaderStart(role, origin) && HeaderFor(role, origin) == HeaderStart(role, origin) + origin
  {
    TitleOneLine(role);
  }

  lemma HeaderLines(role: string, origin: string) returns (first: string)
    ensures first != "" && first[0] == '#'
    ensures Split(HeaderFor(role, origin), '\n') == [first] + Split(origin, '\n')[1..]
  {
    StartIsComment(role, origin);
    SplitPrepend(HeaderStart(role, origin), origin, '\n', Split(origin, '\n'));
    first := HeaderStart(role, origin) + Split(origin, '\n')[0];
  }

  /** What is read back: the origin's later lines first, then the fields. */
  ghost function ReadBack(later: seq<string>, fs: seq<Field>): Option<Seed> {
    match Fold(later, ReadLine)
    case None => None
    case Some(p) => Some(AssignOnto(p, fs))
  }

  lemma {:induction false} FoldShort(ls: seq<string>, read: string -> Reading)
    requires Fold(ls, read).Some? && forall l :: |l| > LINE_LIMIT ==> read(l) == Bad
    ensures Short(ls)
  {
    if ls != [] {
      var init, l := ls[..|ls| - 1], ls[|ls| - 1];
      assert ls == init + [l];
      FoldSnoc(init, l, read);
      FoldShort(init, read);
      ShortMore(init, l);
    }
  }

  lemma LinesRead(first: string, later: seq<string>, fs: seq<Field>)
    requires NamesValid(fs) && first != "" && first[0] == '#'
    ensures Fold([first] + later + Lines(fs), ReadLine) ==
            if Short([first] + later + Lines(fs)) then ReadBack(later, fs) else None
  {
    forall i | 0 <= i < |fs| ensures ReadsAs(ReadLine, fs[i]) {
      ReadsField(fs[i]);
    }
    FoldOnto(ReadLine, [first] + later, fs);
    ReadsComment(first);
    FoldHead(ReadLine, first, later);
    ShortConcat([first] + later, Lines(fs));
    ShortConcat([first], later);
    if Fold(later, ReadLine).Some? {
      FoldShort(later, ReadLine);
    }
  }

  lemma TextReads(header: string, first: string, later: seq<string>, fs: seq<Field>)
    requires NamesValid(fs) && AllWritable(fs) && first != "" && first[0] == '#'
    requires Split(header, '\n') == [first] + later
    ensures Parsed(TextOf(header, fs)) ==
            if Short(Scan(TextOf(header, fs))) then ReadBack(later, fs) else None
  {
    LinesWithoutNewline(fs);
    ScanAfter(header, Lines(fs));
    LinesRead(first, later, fs);
  }

  /** The fields of a rendering. */
  ghost predicate FieldsOf(s: Seed, fs: seq<Field>) {
    exists keys :: SortedKeysOf(keys, s.extra) && fs == Named(s) + Extras(s.extra, keys)
  }

  /** Parsing a rendering reads the origin's later lines, then the fields; and the
      fields alone give the seed. */
  lemma RenderingReads(s: Seed, text: string) returns (fs: seq<Field>)
    requires Renders(s) && Rendering(s, text)
    ensures FieldsOf(s, fs) && AssignAll(fs) == Stored(s)
    ensures Parsed(text) == if Short(Scan(text)) then ReadBack(OriginLines(s.origin), fs) else None
  {
    var named := Named(s);
    var keys :| SortedKeysOf(keys, s.extra) && text == FileText(Header(s), named, s.extra, keys);
    fs := named + Extras(s.extra, keys);
    NamedValid(s, named);
    ConcatNamesValid(named, s.extra, keys);
    FieldsWritable(named, s.extra, keys);
    AssignedSeed(s, named, keys);
    var first := HeaderLines(s.role, TrimSpace(s.origin));
    TextReads(Header(s), first, OriginLines(s.origin), fs);
  }

  /** Parsing a rendered seed gives the seed back, for every seed that renders,
      whenever its origin spans no lines: the scanner's line limit decides
      whether it parses, and nothing else is lost. */
  lemma RoundTrip(s: Seed, text: string)
    requires Renders(s) && Rendering(s, text) && '\n' !in TrimSpace(s.origin)
    ensures Parsed(text) == if Short(Scan(text)) then Some(Stored(s)) else None
  {
    var fs := RenderingReads(s, text);
    SplitWhole(TrimSpace(s.origin), '\n');
    assert OriginLines(s.origin) == [];
    AssignOntoEmpty(fs);
  }

  /** Rendering what was read back gives the same fields once more. */
  lemma StoredAgain(s: Seed)
    ensures Stored(Stored(s)) == Stored(s) && Named(Stored(s)) == Named(s)
  {
    ClusterAgain(s);
    ValuesAgain(s, Stored(s));
  }

  lemma ClusterAgain(s: Seed)
    ensures Cluster(Stored(s)) == Cluster(s)
  {
    assert Solid(DEFAULT_CLUSTER[0]);
    TrimSolid(DEFAULT_CLUSTER);
  }

  lemma ValuesAgain(s: Seed, t: Seed)
    requires Stored(t) == Stored(s)
    ensures Named(t) == Named(s)
  {
    forall i | 0 <= i < 9 ensures Named(t)[i] == Named(s)[i] {
      NamedValue(s, i);
      NamedValue(t, i);
    }
    SameFields(Named(s), Named(t));
  }

  lemma SameFields(a: seq<Field>, b: seq<Field>)
    requires |a| == |b| && forall i :: 0 <= i < |a| ==> b[i] == a[i]
    ensures a == b
  {
  }

  lemma NamedWritable(s: Seed, named: seq<Field>)
    requires named == Named(s) && forall i: nat :: i < 9 ==> Writable(AtRank(Stored(s), i))
    ensures AllWritable(named)
  {
    forall f | f in named ensures Writable(f.value) {
      var i :| 0 <= i < |named| && named[i] == f;
      NamedValue(s, i);
    }
  }

  /** A seed without extra fields renders once it is identified and its values are
      writable, the cluster's default included. */
  lemma PlainRenders(s: Seed)
    requires ValidRole(s.role) && ValidNodeID(s.nodeID) && s.extra == map[]
    requires forall i: nat :: i < 9 ==> Writable(AtRank(Stored(s), i))
    ensures Renders(s)
  {
    NamedWritable(s, Named(s));
  }
}
