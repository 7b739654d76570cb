/** An origin that spans lines (proto/seed.go): its later lines are not covered by
    the header's comment sign and are read like any others. Exactly when that
    does no harm. */
module SeedOrigin {
  import opened Text
  import opened Quoting
  import opened Sorting
  import opened Seed
  import opened SeedRoundTrip

  // ---------- what lines say of a key ----------

  ghost predicate SetsKey(r: Reading, k: string) {
    r.Sets? && r.key == k
  }

  /** Some line sets `k`. */
  ghost predicate IsSet(ls: seq<string>, read: string -> Reading, k: string) {
    exists i :: 0 <= i < |ls| && SetsKey(read(ls[i]), k)
  }

  /** The last value the lines set for `k`, or the empty one. */
  function LastSet(ls: seq<string>, read: string -> Reading, k: string): string {
    if ls == [] then ""
    else
      match read(ls[|ls| - 1])
      case Sets(key, v) => if key == k then v else LastSet(ls[..|ls| - 1], read, k)
      case _ => LastSet(ls[..|ls| - 1], read, k)
  }

  lemma IsSetMore(ls: seq<string>, l: string, read: string -> Reading, k: string)
    ensures IsSet(ls + [l], read, k) <==> IsSet(ls, read, k) || SetsKey(read(l), k)
  {
    var all := ls + [l];
    if IsSet(ls, read, k) {
      var i :| 0 <= i < |ls| && SetsKey(read(ls[i]), k);
      assert all[i] == ls[i];
    }
    if SetsKey(read(l), k) {
      assert all[|ls|] == l;
    }
  }

  /** The seed read from lines holds, of each key, the last value set. */
  lemma {:induction false} FoldSays(ls: seq<string>, read: string -> Reading, k: string)
    requires Fold(ls, read).Some?
    ensures var p := Fold(ls, read).value;
            && Read(p, k) == LastSet(ls, read, k) && p.origin == ""
            && (k in p.extra <==> !KnownKey(k) && IsSet(ls, read, k))
  {
    if ls == [] {
      EmptySays(k);
    } else {
      var init, l := ls[..|ls| - 1], ls[|ls| - 1];
      assert ls == init + [l];
      FoldSnoc(init, l, read);
      FoldSays(init, read, k);
      IsSetMore(init, l, read, k);
      if read(l).Sets? {
        AssignReads(Fold(init, read).value, read(l).key, read(l).value, k);
      }
    }
  }

  lemma EmptySays(k: string)
    ensures Read(EMPTY, k) == "" && k !in EMPTY.extra && EMPTY.origin == ""
  {
  }

  ghost predicate NoneBad(ls: seq<string>, read: string -> Reading) {
    forall i :: 0 <= i < |ls| ==> read(ls[i]) != Bad
  }

  lemma {:induction false} FoldsIff(ls: seq<string>, read: string -> Reading)
    ensures Fold(ls, read).Some? <==> NoneBad(ls, read)
  {
    if ls != [] {
      var init, l := ls[..|ls| - 1], ls[|ls| - 1];
      assert ls == init + [l];
      FoldSnoc(init, l, read);
      FoldsIff(init, read);
      assert NoneBad(ls, read) <==> NoneBad(init, read) && read(l) != Bad by {
        assert forall i :: 0 <= i < |init| ==> ls[i] == init[i];
      }
    }
  }

  // ---------- what fields leave of a seed ----------

  ghost predicate WritesAt(fs: seq<Field>, i: int, k: string) {
    0 <= i < |fs| && fs[i].key == k && !Omitted(fs[i])
  }

  /** Some field of key `k` is written. */
  ghost predicate Writes(fs: seq<Field>, k: string) {
    exists i :: WritesAt(fs, i, k)
  }

  lemma WritesMore(fs: seq<Field>, k: string)
    requires fs != []
    ensures Writes(fs, k) <==> Writes(fs[..|fs| - 1], k) || WritesAt(fs, |fs| - 1, k)
  {
    var init := fs[..|fs| - 1];
    if Writes(fs, k) {
      var i :| WritesAt(fs, i, k);
      assert i < |init| ==> WritesAt(init, i, k);
    }
    if Writes(init, k) {
      var i :| WritesAt(init, i, k);
      assert WritesAt(fs, i, k);
    }
  }

  /** Written keys end up as if nothing had been there, the others as they were. */
  lemma {:induction false} OntoSays(p: Seed, q: Seed, fs: seq<Field>, k: string)
    ensures Writes(fs, k) ==> Read(AssignOnto(p, fs), k) == Read(AssignOnto(q, fs), k)
    ensures !Writes(fs, k) ==> Read(AssignOnto(p, fs), k) == Read(p, k)
    ensures k in AssignOnto(p, fs).extra <==> k in p.extra || (!KnownKey(k) && Writes(fs, k))
    ensures AssignOnto(p, fs).origin == p.origin
  {
    if fs != [] {
      var init, f := fs[..|fs| - 1], fs[|fs| - 1];
      OntoSays(p, q, init, k);
      WritesMore(fs, k);
      AssignReads(AssignOnto(p, init), f.key, f.value, k);
      AssignReads(AssignOnto(q, init), f.key, f.value, k);
    }
  }

  /** Nothing is said of `k`. */
  ghost predicate Silent(p: Seed, k: string) {
    Read(p, k) == "" && k !in p.extra
  }

  ghost predicate Agree(t: Seed, u: Seed, k: string) {
    Read(t, k) == Read(u, k) && (k in t.extra <==> k in u.extra)
  }

  ghost predicate OnlyUnknown(t: Seed) {
    forall k :: k in t.extra ==> !KnownKey(k)
  }

  lemma AgreeAtRank(t: Seed, u: Seed, i: nat)
    requires i < 9 && Agree(t, u, KeyAt(i))
    ensures AtRank(t, i) == AtRank(u, i)
  {
    RankKeyAt(i);
    ReadAtRank(t, KeyAt(i));
    ReadAtRank(u, KeyAt(i));
  }

  lemma AgreeExtra(t: Seed, u: Seed, k: string)
    requires Agree(t, u, k) && k in t.extra && !KnownKey(k)
    ensures k in u.extra && t.extra[k] == u.extra[k]
  {
    UnknownRead(t, k);
    UnknownRead(u, k);
  }

  /** Seeds that agree on every key are the same. */
  lemma SameByKeys(t: Seed, u: Seed)
    requires t.origin == u.origin && OnlyUnknown(t) && forall k :: Agree(t, u, k)
    ensures t == u
  {
    forall i: nat | i < 9 ensures AtRank(t, i) == AtRank(u, i) {
      AgreeAtRank(t, u, i);
    }
    forall k | k in t.extra ensures k in u.extra && t.extra[k] == u.extra[k] {
      AgreeExtra(t, u, k);
    }
    assert forall k :: k in u.extra ==> Agree(t, u, k);
    assert t.extra == u.extra;
    SameAtRanks(t, u);
  }

  lemma OntoAgree(p: Seed, fs: seq<Field>, k: string)
    ensures Agree(AssignOnto(p, fs), AssignOnto(EMPTY, fs), k) <==>
            (!Writes(fs, k) ==> Silent(p, k)) && (k in p.extra && Writes(fs, k) ==> !KnownKey(k))
  {
    OntoSays(p, EMPTY, fs, k);
    OntoSays(EMPTY, p, fs, k);
    EmptySays(k);
  }

  /** The fields cover what was there exactly when it says nothing of the keys
      they do not write. */
  lemma CoveredIff(p: Seed, fs: seq<Field>)
    requires p.origin == "" && OnlyUnknown(p)
    ensures AssignOnto(p, fs) == AssignOnto(EMPTY, fs) <==> forall k :: !Writes(fs, k) ==> Silent(p, k)
  {
    var t, u := AssignOnto(p, fs), AssignOnto(EMPTY, fs);
    forall k ensures Agree(t, u, k) <==> (!Writes(fs, k) ==> Silent(p, k)) {
      OntoAgree(p, fs, k);
    }
    if forall k :: !Writes(fs, k) ==> Silent(p, k) {
      OntoUnknown(p, fs);
      SameByKeys(t, u);
    }
    if t == u {
      forall k | !Writes(fs, k) ensures Silent(p, k) {
        assert Agree(t, u, k);
      }
    }
  }

  lemma OntoUnknown(p: Seed, fs: seq<Field>)
    requires p.origin == "" && OnlyUnknown(p)
    ensures OnlyUnknown(AssignOnto(p, fs))
    ensures AssignOnto(p, fs).origin == AssignOnto(EMPTY, fs).origin
  {
    OntoSays(p, EMPTY, fs, "");
    OntoSays(EMPTY, p, fs, "");
    EmptySays("");
    forall k | k in AssignOnto(p, fs).extra ensures !KnownKey(k) {
      OntoSays(p, EMPTY, fs, k);
    }
  }

  // ---------- the exact condition ----------

  /** The seed itself writes `k`. */
  ghost predicate Written(s: Seed, k: string) {
    k in s.extra || exists i: nat :: i < 9 && KeyAt(i) == k && (i < 3 || ValueAt(s, i) != "")
  }

  lemma WritesConcat(named: seq<Field>, extra: map<string, string>, keys: seq<string>, k: string)
    requires forall k :: k in keys <==> k in extra
    ensures Writes(named + Extras(extra, keys), k) <==> Writes(named, k) || k in extra
  {
    var n, extras := |named|, Extras(extra, keys);
    var fs := named + extras;
    if Writes(fs, k) {
      var i :| WritesAt(fs, i, k);
      if i < n {
        assert WritesAt(named, i, k);
      } else {
        assert fs[i] == extras[i - n] && keys[i - n] in keys;
      }
    }
    if Writes(named, k) {
      var i :| WritesAt(named, i, k);
      assert WritesAt(fs, i, k);
    }
    if k in extra {
      assert k in keys;
      var j :| 0 <= j < |keys| && keys[j] == k;
      assert fs[n + j] == extras[j];
      assert WritesAt(fs, n + j, k);
    }
  }

  lemma WritesNamed(s: Seed, named: seq<Field>, k: string)
    requires named == Named(s)
    ensures Writes(named, k) <==> exists i: nat :: i < 9 && KeyAt(i) == k && (i < 3 || ValueAt(s, i) != "")
  {
    forall i: nat | i < 9 ensures WritesAt(named, i, k) <==> KeyAt(i) == k && (i < 3 || ValueAt(s, i) != "") {
    }
  }

  lemma WrittenIff(s: Seed, fs: seq<Field>, k: string)
    requires FieldsOf(s, fs)
    ensures Writes(fs, k) <==> Written(s, k)
  {
    var named := Named(s);
    var keys :| SortedKeysOf(keys, s.extra) && fs == named + Extras(s.extra, keys);
    WritesConcat(named, s.extra, keys, k);
    WritesNamed(s, named, k);
  }

  /** No later line of the origin is malformed or too long, and every key they set
      is one the seed writes after them, or a named field it leaves out whose
      last value there is empty. */
  ghost predicate Harmless(s: Seed, ls: seq<string>) {
    && NoneBad(ls, ReadLine)
    && forall i :: 0 <= i < |ls| && ReadLine(ls[i]).Sets? ==> Overwritten(s, ls, ReadLine, ReadLine(ls[i]).key)
  }

  ghost predicate Overwritten(s: Seed, ls: seq<string>, read: string -> Reading, k: string) {
    Written(s, k) || (KnownKey(k) && LastSet(ls, read, k) == "")
  }

  lemma {:induction false} UnsetEmpty(ls: seq<string>, read: string -> Reading, k: string)
    requires !IsSet(ls, read, k)
    ensures LastSet(ls, read, k) == ""
  {
    if ls != [] {
      var init, l := ls[..|ls| - 1], ls[|ls| - 1];
      assert ls == init + [l];
      IsSetMore(init, l, read, k);
      UnsetEmpty(init, read, k);
    }
  }

  lemma SilentIff(s: Seed, ls: seq<string>, read: string -> Reading, k: string)
    requires Fold(ls, read).Some?
    ensures (!Written(s, k) ==> Silent(Fold(ls, read).value, k)) <==>
            (IsSet(ls, read, k) ==> Overwritten(s, ls, read, k))
  {
    FoldSays(ls, read, k);
    if !IsSet(ls, read, k) {
      UnsetEmpty(ls, read, k);
    }
  }

  lemma AllSetIff(s: Seed, ls: seq<string>, read: string -> Reading)
    ensures (forall k :: IsSet(ls, read, k) ==> Overwritten(s, ls, read, k)) <==>
            (forall i :: 0 <= i < |ls| && read(ls[i]).Sets? ==> Overwritten(s, ls, read, read(ls[i]).key))
  {
    if forall k :: IsSet(ls, read, k) ==> Overwritten(s, ls, read, k) {
      forall i | 0 <= i < |ls| && read(ls[i]).Sets? ensures Overwritten(s, ls, read, read(ls[i]).key) {
        assert SetsKey(read(ls[i]), read(ls[i]).key);
        assert IsSet(ls, read, read(ls[i]).key);
      }
    }
  }

  lemma ReadBackIff(s: Seed, ls: seq<string>, read: string -> Reading, fs: seq<Field>)
    requires FieldsOf(s, fs) && Fold(ls, read).Some?
    ensures AssignOnto(Fold(ls, read).value, fs) == AssignOnto(EMPTY, fs) <==>
            forall i :: 0 <= i < |ls| && read(ls[i]).Sets? ==> Overwritten(s, ls, read, read(ls[i]).key)
  {
    var p := Fold(ls, read).value;
    FoldSays(ls, read, "");
    forall k ensures k in p.extra ==> !KnownKey(k) {
      FoldSays(ls, read, k);
    }
    CoveredIff(p, fs);
    forall k ensures (!Writes(fs, k) ==> Silent(p, k)) <==> (IsSet(ls, read, k) ==> Overwritten(s, ls, read, k)) {
      WrittenIff(s, fs, k);
      SilentIff(s, ls, read, k);
    }
    AllSetIff(s, ls, read);
  }

  /** The round trip, for every seed that renders and every origin: it gives the
      seed back if and only if no line passes the scanner's limit and the
      origin's later lines are harmless. */
  lemma RoundTripIff(s: Seed, text: string)
    requires Renders(s) && Rendering(s, text)
    ensures Parsed(text) == Some(Stored(s)) <==> Short(Scan(text)) && Harmless(s, OriginLines(s.origin))
  {
    var ls := OriginLines(s.origin);
    var fs := RenderingReads(s, text);
    AssignOntoEmpty(fs);
    FoldsIff(ls, ReadLine);
    if Fold(ls, ReadLine).Some? {
      ReadBackIff(s, ls, ReadLine, fs);
    }
  }

  /** An origin that fails it: the second line is an assignment of a key the seed
      does not write. */
  lemma OriginLineIsRead(s: Seed, text: string, first: string, k: string, v: string)
    requires Renders(s) && Rendering(s, text) && ExtraKey(k) && Writable(v) && k !in s.extra && '\n' !in first
    requires TrimSpace(s.origin) == first + ['\n'] + Line(Field(k, v, true))
    ensures Parsed(text) != Some(Stored(s))
  {
    var f := Field(k, v, true);
    var ls := OriginLines(s.origin);
    LineWithoutNewline(f);
    SplitHead(first, Line(f), '\n');
    SplitWhole(Line(f), '\n');
    assert ls == [Line(f)];
    ReadsField(f);
    UnknownUnwritten(s, k);
    RoundTripIff(s, text);
    assert ls[0] == Line(f);
  }

  lemma UnknownUnwritten(s: Seed, k: string)
    requires !KnownKey(k) && k !in s.extra
    ensures !Written(s, k)
  {
    forall i: nat | i < 9 ensures KeyAt(i) != k {
      RankKeyAt(i);
      RankKnown(KeyAt(i));
    }
  }

  /** And one that meets it although it spans lines: the second is a comment. */
  lemma OriginCommentIsHarmless(s: Seed, first: string, note: string)
    requires '\n' !in first && '\n' !in note && |note| < LINE_LIMIT
    requires TrimSpace(s.origin) == first + ['\n'] + ("#" + note)
    ensures Harmless(s, OriginLines(s.origin))
  {
    SplitHead(first, "#" + note, '\n');
    SplitWhole("#" + note, '\n');
    assert OriginLines(s.origin) == ["#" + note];
    BlankHarmless(s, "#" + note);
  }

  lemma BlankHarmless(s: Seed, l: string)
    requires l != "" && l[0] == '#' && |l| <= LINE_LIMIT
    ensures Harmless(s, [l])
  {
    ReadsComment(l);
  }
}
