/** What every step of the ingest endpoint keeps: landed members are immutable
    and truthfully receipted, and slots, registrations and temporary files are
    conserved. */
module IngestSafety {
  import opened Credential
  import opened Ingest

  // ---------- the invariant ----------

  ghost function Slotted(hs: map<nat, Handler>): set<nat> {
    set h | h in hs && hs[h].HoldsSlot()
  }

  ghost function Registered(hs: map<nat, Handler>): set<string> {
    set h | h in hs && hs[h].Admitted? :: hs[h].grant.member
  }

  ghost predicate SameMember(x: Handler, y: Handler) {
    x.Admitted? && y.Admitted? && x.grant.member == y.grant.member
  }

  /** Slots and registrations are exactly those of the live handlers. */
  ghost predicate Accounted(c: Config, ctl: Control, hs: map<nat, Handler>) {
    && ctl.slots == |Slotted(hs)| <= c.slots
    && ctl.inflight == Registered(hs)
    && (forall h, k :: h in hs && k in hs && SameMember(hs[h], hs[k]) ==> h == k)
  }

  /** One generation at a time: open, or closed last, and every live handler's. */
  ghost predicate OneGeneration(s: State) {
    && !(s.ctl.gen.Some? && s.ctl.last.Some?)
    && (forall h, k :: AtStage(s, h) && AtStage(s, k) ==> s.handlers[h].gen == s.handlers[k].gen)
    && (s.ctl.gen.Some? ==>
          && s.ctl.gen.value.Place() in s.fs.dirs && s.ctl.gen.value.Place() !in s.removing
          && (forall h :: AtStage(s, h) ==> s.handlers[h].gen == s.ctl.gen.value))
  }

  ghost predicate FsShape(fs: Fs) {
    && (forall d, e :: d in fs.dirs && e in fs.dirs && fs.dirs[d] == fs.dirs[e] ==> d == e)
    && (forall d :: d in fs.dirs ==> fs.dirs[d] < fs.nextIno)
    && (forall n :: n in fs.names ==> n.ino < fs.nextIno && fs.names[n] < fs.nextFile && fs.names[n] in fs.data)
  }

  ghost predicate Matches(c: Config, fs: Fs, n: Name, rc: Receipt) {
    && n in fs.names && fs.names[n] in fs.data
    && c.hash(fs.data[fs.names[n]]) == rc.digest && |fs.data[fs.names[n]]| == rc.bytes
  }

  /** A writer's file holds what it sent and is linked under its own temporary
      name or, once that was removed, nowhere. */
  ghost predicate WriterSound(fs: Fs, x: Handler)
    requires x.Writes()
  {
    && x.stage.file < fs.nextFile && x.stage.file in fs.data
    && fs.data[x.stage.file] == x.stage.sent && |x.stage.sent| <= x.grant.maxBytes
    && (UploadName(x) in fs.names ==> fs.names[UploadName(x)] == x.stage.file)
    && (forall n :: n in fs.names && fs.names[n] == x.stage.file ==> n == UploadName(x))
  }

  /** What a handler knows of the directory it has open. */
  ghost predicate HandlerSound(c: Config, fs: Fs, open: bool, x: Handler) {
    x.InDirectory() ==>
      && x.stage.ino < fs.nextIno
      && (x.gen.Place() in fs.dirs ==> fs.dirs[x.gen.Place()] == x.stage.ino)
      && (x.Claims() ==> MemberName(x) !in fs.names)
      && (x.Writes() ==> WriterSound(fs, x))
      && (x.stage.Renamed? && open ==>
            && x.stage.rc.generation == x.gen.id && x.stage.rc.member == x.grant.member
            && Matches(c, fs, MemberName(x), x.stage.rc))
  }

  ghost predicate SameFile(x: Handler, y: Handler) {
    x.Writes() && y.Writes() && x.stage.file == y.stage.file
  }

  ghost predicate HandlersSound(c: Config, fs: Fs, open: bool, hs: map<nat, Handler>) {
    && (forall h :: h in hs ==> HandlerSound(c, fs, open, hs[h]))
    && (forall h, k :: h in hs && k in hs && SameFile(hs[h], hs[k]) ==> h == k)
  }

  /** Every receipt of the open generation names a file with that length and hash. */
  ghost predicate Truthful(c: Config, ctl: Control, fs: Fs) {
    ctl.gen.Some? && ctl.gen.value.Place() in fs.dirs ==>
      forall m :: m in ctl.landed ==>
        && ctl.landed[m].generation == ctl.gen.value.id && ctl.landed[m].member == m
        && Matches(c, fs, Name(fs.dirs[ctl.gen.value.Place()], Member(m)), ctl.landed[m])
  }

  ghost predicate Inv(c: Config, s: State) {
    && Accounted(c, s.ctl, s.handlers) && OneGeneration(s) && FsShape(s.fs)
    && HandlersSound(c, s.fs, s.ctl.gen.Some?, s.handlers) && Truthful(c, s.ctl, s.fs)
  }

  // ---------- accounting ----------

  lemma StageChange(hs: map<nat, Handler>, h: nat, x: Handler)
    requires h in hs && hs[h].Admitted? && x.Admitted? && x.grant == hs[h].grant
    ensures Registered(hs[h := x]) == Registered(hs)
    ensures Slotted(hs[h := x]) == if x.HoldsSlot() then Slotted(hs) + {h} else Slotted(hs) - {h}
  {
    var hs' := hs[h := x];
    assert forall k :: k in hs' <==> k in hs;
    assert forall k :: k in hs ==> hs'[k].Admitted? == hs[k].Admitted? && hs'[k].grant == hs[k].grant;
  }

  function Unit(b: bool): int {
    if b then 1 else 0
  }

  lemma StageAccounted(c: Config, ctl: Control, hs: map<nat, Handler>, h: nat, x: Handler, ctl': Control)
    requires Accounted(c, ctl, hs) && h in hs && hs[h].Admitted? && x.Admitted? && x.grant == hs[h].grant
    requires ctl'.inflight == ctl.inflight && ctl'.slots <= c.slots
    requires ctl'.slots == ctl.slots + Unit(x.HoldsSlot()) - Unit(hs[h].HoldsSlot())
    ensures Accounted(c, ctl', hs[h := x])
  {
    StageChange(hs, h, x);
    assert h in Slotted(hs) <==> hs[h].HoldsSlot();
  }

  lemma LeaveAccounted(c: Config, ctl: Control, hs: map<nat, Handler>, h: nat)
    requires Accounted(c, ctl, hs) && h in hs && hs[h].Admitted? && !hs[h].HoldsSlot()
    ensures Accounted(c, ctl.(inflight := ctl.inflight - {hs[h].grant.member}), hs - {h})
  {
    var hs', left := hs - {h}, hs[h].grant.member;
    assert Slotted(hs') == Slotted(hs);
    forall m ensures m in Registered(hs') <==> m in Registered(hs) && m != left {
      if m in Registered(hs') {
        var k :| k in hs' && hs'[k].Admitted? && hs'[k].grant.member == m;
        assert k in hs && hs[k] == hs'[k] && !SameMember(hs[h], hs[k]);
      }
      if m in Registered(hs) && m != left {
        var k :| k in hs && hs[k].Admitted? && hs[k].grant.member == m;
        assert k in hs' && hs'[k] == hs[k];
      }
    }
    assert Registered(hs') == Registered(hs) - {left};
  }

  /** A holder exists, so the slot count cannot underflow. */
  lemma HolderCounted(c: Config, ctl: Control, hs: map<nat, Handler>, h: nat)
    requires Accounted(c, ctl, hs) && h in hs && hs[h].HoldsSlot()
    ensures ctl.slots > 0
  {
    assert h in Slotted(hs);
  }

  lemma ActionAccounted(c: Config, s: State, h: nat, a: Action)
    requires Accounted(c, s.ctl, s.handlers) && AtStage(s, h) && Able(c, s.handlers[h], s.fs, s.ctl.slots, a)
    ensures Accounted(c, AfterDo(c, s, h, a).ctl, AfterDo(c, s, h, a).handlers)
  {
    var x := s.handlers[h];
    if a.Unregister? {
      LeaveAccounted(c, s.ctl, s.handlers, h);
    } else {
      if a.Release? {
        HolderCounted(c, s.ctl, s.handlers, h);
      }
      var x' := x.(stage := StageAfter(c, x, s.fs, s.ctl.slots, a));
      StageAccounted(c, s.ctl, s.handlers, h, x', ControlAfter(c, x, s.ctl, s.fs, a));
    }
  }

  // ---------- the file system under one action ----------

  lemma ActionFsShape(c: Config, x: Handler, fs: Fs, slots: nat, open: bool, a: Action)
    requires FsShape(fs) && x.Admitted? && Able(c, x, fs, slots, a) && HandlerSound(c, fs, open, x)
    ensures FsShape(FsAfter(c, x, fs, slots, a))
    ensures FsAfter(c, x, fs, slots, a).dirs == fs.dirs
  {
  }

  /** An action leaves every member entry that is not the acting handler's own
      claim as it was. */
  lemma ActionKeepsMembers(c: Config, x: Handler, fs: Fs, slots: nat, open: bool, a: Action, n: Name)
    requires FsShape(fs) && x.Admitted? && Able(c, x, fs, slots, a) && HandlerSound(c, fs, open, x)
    requires n.file.Member? && n in fs.names
    ensures var fs' := FsAfter(c, x, fs, slots, a);
            n in fs'.names && fs'.names[n] == fs.names[n]
            && fs'.names[n] in fs'.data && fs'.data[fs'.names[n]] == fs.data[fs.names[n]]
  {
  }

  /** An action leaves every other handler's knowledge valid. */
  lemma ActionOthers(c: Config, x: Handler, fs: Fs, slots: nat, open: bool, a: Action, y: Handler)
    requires FsShape(fs) && x.Admitted? && Able(c, x, fs, slots, a)
    requires HandlerSound(c, fs, open, x) && HandlerSound(c, fs, open, y)
    requires !SameMember(x, y) && !SameFile(x, y)
    ensures HandlerSound(c, FsAfter(c, x, fs, slots, a), open, y)
  {
    if y.InDirectory() && y.stage.Renamed? && open {
      ActionKeepsMembers(c, x, fs, slots, open, a, MemberName(y));
    }
  }

  lemma ActionSelf(c: Config, x: Handler, fs: Fs, slots: nat, open: bool, a: Action)
    requires FsShape(fs) && x.Admitted? && Able(c, x, fs, slots, a) && HandlerSound(c, fs, open, x)
    ensures HandlerSound(c, FsAfter(c, x, fs, slots, a), open, x.(stage := StageAfter(c, x, fs, slots, a)))
  {
    if a.Create? || a.Write? || a.Rename? || a.UnlinkStale? || a.Cleanup? {
      ActionSelfOnFiles(c, x, fs, slots, open, a);
    } else {
      ActionSelfElsewhere(c, x, fs, slots, open, a);
    }
  }

  lemma ActionSelfOnFiles(c: Config, x: Handler, fs: Fs, slots: nat, open: bool, a: Action)
    requires FsShape(fs) && x.Admitted? && Able(c, x, fs, slots, a) && HandlerSound(c, fs, open, x)
    requires a.Create? || a.Write? || a.Rename? || a.UnlinkStale? || a.Cleanup?
    ensures HandlerSound(c, FsAfter(c, x, fs, slots, a), open, x.(stage := StageAfter(c, x, fs, slots, a)))
  {
  }

  lemma ActionSelfElsewhere(c: Config, x: Handler, fs: Fs, slots: nat, open: bool, a: Action)
    requires FsShape(fs) && x.Admitted? && Able(c, x, fs, slots, a) && HandlerSound(c, fs, open, x)
    requires !(a.Create? || a.Write? || a.Rename? || a.UnlinkStale? || a.Cleanup?)
    ensures HandlerSound(c, FsAfter(c, x, fs, slots, a), open, x.(stage := StageAfter(c, x, fs, slots, a)))
  {
  }

  lemma ActionHandler(c: Config, s: State, h: nat, a: Action, k: nat)
    requires Inv(c, s) && AtStage(s, h) && Able(c, s.handlers[h], s.fs, s.ctl.slots, a)
    requires k in AfterDo(c, s, h, a).handlers
    ensures var s' := AfterDo(c, s, h, a);
            && HandlerSound(c, s'.fs, s.ctl.gen.Some?, s'.handlers[k])
            && (h in s'.handlers && k != h ==> !SameFile(s'.handlers[h], s'.handlers[k]))
  {
    var x, open := s.handlers[h], s.ctl.gen.Some?;
    if k == h {
      ActionSelf(c, x, s.fs, s.ctl.slots, open, a);
    } else {
      assert !SameMember(x, s.handlers[k]) && !SameFile(x, s.handlers[k]);
      ActionOthers(c, x, s.fs, s.ctl.slots, open, a, s.handlers[k]);
      assert HandlerSound(c, s.fs, open, s.handlers[k]);
    }
  }

  lemma ActionHandlers(c: Config, s: State, h: nat, a: Action)
    requires Inv(c, s) && AtStage(s, h) && Able(c, s.handlers[h], s.fs, s.ctl.slots, a)
    ensures var s' := AfterDo(c, s, h, a); HandlersSound(c, s'.fs, s.ctl.gen.Some?, s'.handlers)
  {
    var s' := AfterDo(c, s, h, a);
    forall k | k in s'.handlers
      ensures HandlerSound(c, s'.fs, s.ctl.gen.Some?, s'.handlers[k])
      ensures h in s'.handlers && k != h ==> !SameFile(s'.handlers[h], s'.handlers[k])
    {
      ActionHandler(c, s, h, a, k);
    }
  }

  lemma ActionTruthful(c: Config, s: State, h: nat, a: Action)
    requires Inv(c, s) && AtStage(s, h) && Able(c, s.handlers[h], s.fs, s.ctl.slots, a)
    ensures var s' := AfterDo(c, s, h, a); Truthful(c, s'.ctl, s'.fs)
  {
    var x, s' := s.handlers[h], AfterDo(c, s, h, a);
    assert HandlerSound(c, s.fs, s.ctl.gen.Some?, x);
    if s.ctl.gen.Some? {
      var ino := s.fs.dirs[s.ctl.gen.value.Place()];
      forall m | m in s.ctl.landed
        ensures Matches(c, s'.fs, Name(ino, Member(m)), s.ctl.landed[m])
      {
        assert Matches(c, s.fs, Name(ino, Member(m)), s.ctl.landed[m]);
        ActionKeepsMembers(c, x, s.fs, s.ctl.slots, true, a, Name(ino, Member(m)));
      }
    }
  }

  lemma ActionStep(c: Config, s: State, h: nat, a: Action)
    requires Inv(c, s) && AtStage(s, h) && Able(c, s.handlers[h], s.fs, s.ctl.slots, a)
    ensures Inv(c, AfterDo(c, s, h, a))
  {
    ActionAccounted(c, s, h, a);
    ActionFsShape(c, s.handlers[h], s.fs, s.ctl.slots, s.ctl.gen.Some?, a);
    ActionHandlers(c, s, h, a);
    ActionTruthful(c, s, h, a);
    var s' := AfterDo(c, s, h, a);
    assert forall k :: AtStage(s', k) ==> AtStage(s, k) && s'.handlers[k].gen == s.handlers[k].gen;
  }

  // ---------- the run's own steps ----------

  /** Open must find no registered handler, and no Abandon still removing the
      directory it opens. */
  ghost predicate Quiet(s: State, l: Label) {
    l.Open? ==> (forall h :: h in s.handlers ==> s.handlers[h].Verified?) && Dir(l.root, l.id) !in s.removing
  }

  lemma OpenStep(c: Config, s: State, root: string, id: string, jobID: string)
    requires Inv(c, s) && s.ctl.gen.None? && Quiet(s, Open(root, id, jobID))
    ensures Inv(c, s.(ctl := Opened(s.ctl, root, id, jobID), fs := MakeDir(s.fs, Dir(root, id))))
  {
    assert Registered(s.handlers) == {};
    assert Slotted(s.handlers) == {};
  }

  /** Closing or abandoning only forgets which generation is open. */
  lemma ForgetStep(c: Config, s: State, s': State)
    requires Inv(c, s)
    requires s'.handlers == s.handlers && s'.fs == s.fs && s.removing <= s'.removing
    requires s'.ctl.inflight == s.ctl.inflight && s'.ctl.slots == s.ctl.slots && s'.ctl.landed == s.ctl.landed
    requires s'.ctl.gen.None? || (s'.ctl.gen == s.ctl.gen && s'.ctl.last.None? && s'.removing == s.removing)
    ensures Inv(c, s')
  {
    assert HandlersSound(c, s'.fs, s'.ctl.gen.Some?, s'.handlers) by {
      forall h | h in s.handlers
        ensures HandlerSound(c, s.fs, s'.ctl.gen.Some?, s.handlers[h])
      {
        assert HandlerSound(c, s.fs, s.ctl.gen.Some?, s.handlers[h]);
      }
    }
  }

  /** A removal never touches the open generation's directory, so it can only
      unlink or forget what no receipt speaks of. */
  lemma RemoveFileStep(c: Config, s: State, d: Dir, n: Name)
    requires Inv(c, s) && d in s.removing && d in s.fs.dirs && n in s.fs.names && n.ino == s.fs.dirs[d]
    ensures Inv(c, s.(fs := Unlink(s.fs, n)))
  {
    var fs' := Unlink(s.fs, n);
    forall h | h in s.handlers
      ensures HandlerSound(c, fs', s.ctl.gen.Some?, s.handlers[h])
    {
      assert HandlerSound(c, s.fs, s.ctl.gen.Some?, s.handlers[h]);
    }
  }

  lemma RemoveEndStep(c: Config, s: State, d: Dir)
    requires Inv(c, s) && d in s.removing
    ensures Inv(c, AfterRemoveEnd(s, d))
  {
    var s' := AfterRemoveEnd(s, d);
    forall h | h in s.handlers
      ensures HandlerSound(c, s'.fs, s.ctl.gen.Some?, s.handlers[h])
    {
      assert HandlerSound(c, s.fs, s.ctl.gen.Some?, s.handlers[h]);
    }
  }

  /** A handler that is verified but not yet registered owns nothing. */
  lemma VisitorStep(c: Config, s: State, hs': map<nat, Handler>)
    requires Inv(c, s)
    requires forall h :: h in s.handlers && s.handlers[h].Admitted? ==> h in hs' && hs'[h] == s.handlers[h]
    requires forall h :: h in hs' && hs'[h].Admitted? ==> h in s.handlers && hs'[h] == s.handlers[h]
    ensures Inv(c, s.(handlers := hs'))
  {
    assert Slotted(hs') == Slotted(s.handlers);
    assert Registered(hs') == Registered(s.handlers);
  }

  lemma RegisterAccounted(c: Config, ctl: Control, hs: map<nat, Handler>, h: nat, x: Handler)
    requires Accounted(c, ctl, hs) && h in hs && hs[h].Verified?
    requires x.Admitted? && !x.HoldsSlot() && x.grant.member !in ctl.inflight
    ensures Accounted(c, ctl.(inflight := ctl.inflight + {x.grant.member}), hs[h := x])
  {
    var hs' := hs[h := x];
    assert Slotted(hs') == Slotted(hs);
    assert forall k :: k in hs && hs[k].Admitted? ==> hs'[k] == hs[k] && hs[k].grant.member in Registered(hs);
    assert hs'[h].grant.member in Registered(hs');
    assert Registered(hs') == Registered(hs) + {x.grant.member};
  }

  lemma RegisterStep(c: Config, s: State, h: nat)
    requires Inv(c, s) && h in s.handlers && s.handlers[h].Verified?
    requires s.ctl.gen.Some? && s.handlers[h].grant.member !in s.ctl.inflight
    ensures Inv(c, AfterRegister(s, h))
  {
    var x := Admitted(s.handlers[h].grant, s.ctl.gen.value, Waiting);
    RegisterAccounted(c, s.ctl, s.handlers, h, x);
    assert HandlerSound(c, s.fs, true, x);
  }

  lemma RunStep(c: Config, s: State, l: Label)
    requires Inv(c, s) && Enabled(c, s, l) && Quiet(s, l)
    requires !l.Do? && !l.Authorize?
    ensures Inv(c, Next(c, s, l))
  {
    match l
    case Mint(_, _, _, _) =>
    case Open(root, id, jobID) => OpenStep(c, s, root, id, jobID);
    case Close(id) => ForgetStep(c, s, Next(c, s, l));
    case Abandon(id) => ForgetStep(c, s, Next(c, s, l));
    case RemoveFile(d, n) => RemoveFileStep(c, s, d, n);
    case RemoveEnd(d) => RemoveEndStep(c, s, d);
    case TurnAway(h) => VisitorStep(c, s, s.handlers - {h});
    case Register(h) => RegisterStep(c, s, h);
  }

  lemma AuthorizeStep(c: Config, s: State, h: nat, g: Grant)
    requires Inv(c, s) && h !in s.handlers
    ensures Inv(c, s.(handlers := s.handlers[h := Verified(g)]))
  {
    VisitorStep(c, s, s.handlers[h := Verified(g)]);
  }

  ghost function QuietStepOf(c: Config): (State, Label, State) -> bool {
    (s: State, l: Label, s': State) => Steps(c, s, l, s') && Quiet(s, l)
  }

  /** Every step keeps the invariant, provided Open finds the endpoint quiet. */
  lemma StepKeepsInv(c: Config, s: State, l: Label)
    requires Inv(c, s) && Enabled(c, s, l) && Quiet(s, l)
    ensures Inv(c, Next(c, s, l))
  {
    if l.Do? {
      ActionStep(c, s, l.h, l.a);
    } else if l.Authorize? {
      AuthorizeStep(c, s, l.h, GrantOf(c, l).value);
    } else {
      RunStep(c, s, l);
    }
  }
}
