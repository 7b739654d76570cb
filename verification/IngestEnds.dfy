/** How generations and uploads end (backupxfer/server.go): what Close and Abandon
    find, what stays closed, that a removal can finish and leaves nothing, and
    that every upload can leave. */
module IngestEnds {
  import opened Text
  import opened Credential
  import opened Traces
  import opened Ingest
  import opened IngestReach

  // ---------- what Abandon finds ----------

  /** The endpoint still knows `g`: it is open, or was the last one closed. */
  ghost predicate Knows(s: State, g: OpenGen) {
    s.ctl.gen == Some(g) || (s.ctl.gen.None? && s.ctl.last == Some(g))
  }

  lemma StepKnows(c: Config, s: State, l: Label, g: OpenGen)
    requires Enabled(c, s, l) && Knows(s, g) && !l.Open? && l != Abandon(g.id)
    ensures Knows(Next(c, s, l), g)
  {
  }

  /** From every state with a generation open, whatever happens in between that is
      neither an Open nor its Abandon — its Close among others — Abandon finds it,
      its directory is then being removed, and the endpoint has forgotten it. */
  lemma AbandonFindsIt(c: Config, ss: seq<State>, ls: seq<Label>, i: nat, k: nat, g: OpenGen)
    requires Chain(StepOf(c), ss, ls) && i <= k < |ls| && ss[i].ctl.gen == Some(g) && ls[k] == Abandon(g.id)
    requires forall j :: i <= j < k ==> !ls[j].Open? && ls[j] != Abandon(g.id)
    ensures AbandonTarget(ss[k].ctl, g.id) == Some(g) && g.Place() in ss[k + 1].removing
    ensures ss[k + 1].ctl.gen.None? && ss[k + 1].ctl.last != Some(g)
  {
    forall s: State, l: Label, s': State | Knows(s, g) && !l.Open? && l != Abandon(g.id) && StepOf(c)(s, l, s')
      ensures Knows(s', g)
    {
      StepKnows(c, s, l, g);
    }
    ChainKeeps(StepOf(c), ss, ls, i, k, (s: State) => Knows(s, g), (l: Label) => !l.Open? && l != Abandon(g.id));
    assert StepOf(c)(ss[k], ls[k], ss[k + 1]);
  }

  /** In particular after its Close, when nothing but the endpoint's memory of the
      last generation leads to it. */
  lemma CloseThenAbandon(c: Config, ss: seq<State>, ls: seq<Label>, i: nat, k: nat, g: OpenGen)
    requires Chain(StepOf(c), ss, ls) && i < k < |ls| && ss[i].ctl.gen == Some(g)
    requires ls[i] == Close(g.id) && ls[k] == Abandon(g.id)
    requires forall j :: i < j < k ==> !ls[j].Open? && ls[j] != Abandon(g.id)
    ensures ss[i + 1].ctl.gen.None? && AbandonTarget(ss[k].ctl, g.id) == Some(g) && g.Place() in ss[k + 1].removing
  {
    assert StepOf(c)(ss[i], ls[i], ss[i + 1]);
    AbandonFindsIt(c, ss, ls, i, k, g);
  }

  /** Closing or abandoning what is not there changes nothing. */
  lemma OthersUntouched(c: Config, s: State, id: string)
    ensures !(s.ctl.gen.Some? && s.ctl.gen.value.id == id) ==> Next(c, s, Close(id)) == s
    ensures !(s.ctl.gen.Some? && s.ctl.gen.value.id == id) && !(s.ctl.last.Some? && s.ctl.last.value.id == id) ==>
              Next(c, s, Abandon(id)) == s
  {
  }

  // ---------- what stays closed ----------

  lemma StepStaysClosed(c: Config, s: State, l: Label, id: string)
    requires Enabled(c, s, l) && !Names(s.ctl.gen, id) && !(l.Open? && l.id == id)
    ensures !Names(Next(c, s, l).ctl.gen, id)
  {
  }

  /** After Close or Abandon, until it is opened again, a generation has no receipts,
      takes no upload and gets no credential. */
  lemma StaysClosed(c: Config, ss: seq<State>, ls: seq<Label>, i: nat, k: nat, id: string, g: Grant)
    requires Chain(StepOf(c), ss, ls) && i < k < |ss| && (ls[i] == Close(id) || ls[i] == Abandon(id))
    requires (forall j :: i < j < k ==> !(ls[j].Open? && ls[j].id == id)) && g.generation == id
    ensures Admissible(ss[k].ctl, g) == NoGeneration && forall m :: LandedOf(ss[k].ctl, id, m) == None
  {
    assert StepOf(c)(ss[i], ls[i], ss[i + 1]);
    forall s: State, l: Label, s': State | !Names(s.ctl.gen, id) && !(l.Open? && l.id == id) && StepOf(c)(s, l, s')
      ensures !Names(s'.ctl.gen, id)
    {
      StepStaysClosed(c, s, l, id);
    }
    ChainKeeps(StepOf(c), ss, ls, i + 1, k,
               (s: State) => !Names(s.ctl.gen, id), (l: Label) => !(l.Open? && l.id == id));
  }

  // ---------- removals ----------

  /** Every name stands in a directory that is there. */
  ghost predicate Housed(fs: Fs) {
    forall n :: n in fs.names ==> Alive(fs, n.ino)
  }

  lemma SameDirsHoused(fs: Fs, fs': Fs)
    requires Housed(fs) && fs'.dirs == fs.dirs
    requires forall n :: n in fs'.names ==> Alive(fs, n.ino)
    ensures Housed(fs')
  {
    forall n | n in fs'.names ensures Alive(fs', n.ino) {
      var d :| d in fs.dirs && fs.dirs[d] == n.ino;
      assert d in fs'.dirs && fs'.dirs[d] == n.ino;
    }
  }

  lemma ActionHoused(c: Config, x: Handler, fs: Fs, slots: nat, a: Action)
    requires x.Admitted? && Able(c, x, fs, slots, a) && Housed(fs)
    ensures Housed(FsAfter(c, x, fs, slots, a))
  {
    var fs' := FsAfter(c, x, fs, slots, a);
    assert fs'.dirs == fs.dirs;
    forall n | n in fs'.names ensures Alive(fs, n.ino) {
      if a.Rename? && n == MemberName(x) {
        assert UploadName(x) in fs.names;
      }
    }
    SameDirsHoused(fs, fs');
  }

  lemma MadeDirHoused(fs: Fs, d: Dir)
    requires Housed(fs)
    ensures Housed(MakeDir(fs, d))
  {
    var fs' := MakeDir(fs, d);
    forall n | n in fs'.names ensures Alive(fs', n.ino) {
      var e :| e in fs.dirs && fs.dirs[e] == n.ino;
      assert e in fs'.dirs && fs'.dirs[e] == n.ino;
    }
  }

  lemma RemovedDirHoused(s: State, d: Dir)
    requires Housed(s.fs)
    ensures Housed(AfterRemoveEnd(s, d).fs)
  {
    var fs' := AfterRemoveEnd(s, d).fs;
    forall n | n in fs'.names ensures Alive(fs', n.ino) {
      var e :| e in s.fs.dirs && s.fs.dirs[e] == n.ino;
      assert e in fs'.dirs && fs'.dirs[e] == n.ino;
    }
  }

  lemma StepHoused(c: Config, s: State, l: Label)
    requires Enabled(c, s, l) && Housed(s.fs)
    ensures Housed(Next(c, s, l).fs)
  {
    if l.Do? {
      ActionHoused(c, s.handlers[l.h], s.fs, s.ctl.slots, l.a);
    } else if l.Open? {
      MadeDirHoused(s.fs, Dir(l.root, l.id));
    } else if l.RemoveEnd? {
      RemovedDirHoused(s, l.dir);
    } else if l.RemoveFile? {
      SameDirsHoused(s.fs, Next(c, s, l).fs);
    }
  }

  /** In every run, no file ever stands in a directory that is gone: a removal takes
      the directory only once it is empty, and no upload goes on into one it has
      lost. */
  lemma NoOrphans(c: Config, ss: seq<State>, ls: seq<Label>, i: nat)
    requires IsRun(c, ss, ls) && Housed(ss[0].fs) && i < |ss|
    ensures Housed(ss[i].fs)
  {
    forall s: State, l: Label, s': State | Housed(s.fs) && StepOf(c)(s, l, s') ensures Housed(s'.fs) {
      StepHoused(c, s, l);
    }
    ChainKeeps(StepOf(c), ss, ls, 0, i, (s: State) => Housed(s.fs), (_: Label) => true);
  }

  /** `fs'` is `fs` without what stands in directory `ino`. */
  ghost predicate Emptied(fs: Fs, ino: nat, fs': Fs) {
    && fs' == fs.(names := fs'.names)
    && (forall n :: n in fs'.names <==> n in fs.names && n.ino != ino)
    && (forall n :: n in fs'.names ==> fs'.names[n] == fs.names[n])
  }

  lemma {:induction false} ReachEmptied(c: Config, o: State, s: State, d: Dir) returns (t: State)
    requires Reaches(c, o, s) && d in s.removing && d in s.fs.dirs
    ensures Reaches(c, o, t) && t == s.(fs := t.fs) && Emptied(s.fs, s.fs.dirs[d], t.fs)
    decreases |s.fs.names|
  {
    if n :| n in s.fs.names && n.ino == s.fs.dirs[d] {
      var s1 := s.(fs := Unlink(s.fs, n));
      ReachStep(c, o, s, RemoveFile(d, n));
      assert |s1.fs.names| < |s.fs.names| by {
        assert s1.fs.names.Keys == s.fs.names.Keys - {n};
        assert |s1.fs.names| == |s1.fs.names.Keys| && |s.fs.names| == |s.fs.names.Keys|;
      }
      t := ReachEmptied(c, o, s1, d);
    } else {
      t := s;
    }
  }

  /** A removal can always go on until the directory and everything in it is gone,
      and nothing else has changed. */
  lemma RemovalCanFinish(c: Config, o: State, s: State, d: Dir) returns (t: State)
    requires Reaches(c, o, s) && d in s.removing && d in s.fs.dirs
    ensures Reaches(c, o, t) && t == s.(fs := t.fs, removing := s.removing - {d})
    ensures t.fs.dirs == s.fs.dirs - {d} && Emptied(s.fs, s.fs.dirs[d], t.fs.(dirs := s.fs.dirs))
  {
    var s1 := ReachEmptied(c, o, s, d);
    ReachStep(c, o, s1, RemoveEnd(d));
    t := AfterRemoveEnd(s1, d);
  }

  // ---------- uploads ----------

  ghost predicate OnlyStage(s: State, t: State, h: nat) {
    && AtStage(s, h) && AtStage(t, h) && t.handlers[h].grant == s.handlers[h].grant
    && t.handlers - {h} == s.handlers - {h} && t.ctl.inflight == s.ctl.inflight && t.ctl.gen == s.ctl.gen
  }

  lemma ReachFinished(c: Config, o: State, s: State, h: nat) returns (t: State)
    requires Reaches(c, o, s) && AtStage(s, h) && s.handlers[h].HoldsSlot()
    ensures Reaches(c, o, t) && OnlyStage(s, t, h) && t.handlers[h].stage.Finished?
  {
    var x := s.handlers[h];
    if x.stage.Finished? {
      t := s;
    } else if x.stage.Renamed? {
      t := ReachDo(c, o, s, h, Record);
    } else if x.stage.Failing? {
      t := ReachDo(c, o, s, h, Cleanup);
    } else {
      t := ReachDo(c, o, s, h, Fail);
      if x.Writes() {
        t := ReachDo(c, o, t, h, Cleanup);
      }
    }
  }

  lemma ReachReleased(c: Config, o: State, s: State, h: nat) returns (t: State)
    requires Reaches(c, o, s) && AtStage(s, h)
    ensures Reaches(c, o, t) && OnlyStage(s, t, h) && t.handlers[h].stage.Released?
  {
    if s.handlers[h].stage.Released? {
      t := s;
    } else if s.handlers[h].stage.Waiting? {
      t := ReachDo(c, o, s, h, Leave);
    } else {
      t := ReachFinished(c, o, s, h);
      t := ReachDo(c, o, t, h, Release);
    }
  }

  /** Wherever an upload stands, whatever the others do, it can leave by its own
      steps, and its registration goes with it. */
  lemma HandlerCanLeave(c: Config, o: State, s: State, h: nat) returns (t: State)
    requires Reaches(c, o, s) && AtStage(s, h)
    ensures Reaches(c, o, t) && t.handlers == s.handlers - {h} && t.ctl.gen == s.ctl.gen
    ensures t.ctl.inflight == s.ctl.inflight - {s.handlers[h].grant.member}
  {
    var s1 := ReachReleased(c, o, s, h);
    ReachStep(c, o, s1, Do(h, Unregister));
    t := AfterDo(c, s1, h, Unregister);
  }
}
