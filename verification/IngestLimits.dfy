/** Where the endpoint's guarantees stop: what goes wrong, from a fresh endpoint,
    when a generation is opened over a leftover handler or a removal still under
    way, and that nothing goes wrong otherwise. */
module IngestLimits {
  import opened Text
  import opened Credential
  import opened Traces
  import opened Ingest
  import opened IngestSafety
  import opened IngestRuns
  import opened IngestReach

  // ---------- what a caller relies on ----------

  /** What Landed answers about `m` is true of the target. */
  ghost predicate Vouched(c: Config, s: State, id: string, m: string) {
    LandedOf(s.ctl, id, m).Some? ==>
      && LandedOf(s.ctl, id, m).value.generation == id && LandedOf(s.ctl, id, m).value.member == m
      && s.ctl.gen.value.Place() in s.fs.dirs
      && Matches(c, s.fs, Name(s.fs.dirs[s.ctl.gen.value.Place()], Member(m)), LandedOf(s.ctl, id, m).value)
  }

  /** Every answer of Landed is true, and the registrations are the live handlers'. */
  ghost predicate Honest(c: Config, s: State) {
    (forall id, m :: Vouched(c, s, id, m)) && s.ctl.inflight == Registered(s.handlers)
  }

  lemma InvHonest(c: Config, s: State)
    requires Inv(c, s)
    ensures Honest(c, s)
  {
  }

  lemma ReachesHonest(c: Config, s: State, t: State)
    requires Inv(c, s) && Reaches(c, s, t)
    ensures Inv(c, t) && Honest(c, t)
  {
    var ss: seq<State>, ls: seq<Label> :| Chain(QuietStepOf(c), ss, ls) && ss[0] == s && ss[|ls|] == t;
    ContinuationInv(c, ss, ls, |ls|);
    InvHonest(c, t);
  }

  // ---------- a removal still under way ----------

  lemma ReachRemoved(c: Config, o: State, s: State, d: Dir, n: Name) returns (s': State)
    requires Reaches(c, o, s) && d in s.removing && d in s.fs.dirs && n.ino == s.fs.dirs[d]
    ensures Reaches(c, o, s') && s' == s.(fs := Unlink(s.fs, n))
  {
    s' := s.(fs := Unlink(s.fs, n));
    if n in s.fs.names {
      ReachStep(c, o, s, RemoveFile(d, n));
    } else {
      assert s' == s;
    }
  }

  /** The generation `gen` is open, while an Abandon is removing its directory. */
  ghost predicate Reopened(c: Config, s: State, gen: OpenGen) {
    && s.ctl.gen == Some(gen) && s.ctl.slots < c.slots
    && gen.Place() in s.removing && gen.Place() in s.fs.dirs
  }

  /** From there an upload lands and the removal takes it away: Landed vouches for
      a member that is gone. */
  lemma RemovalLoses(c: Config, o: State, s: State, gen: OpenGen, q: Request, h: nat, body: Bytes)
    returns (t: State)
    requires Reaches(c, o, s) && Reopened(c, s, gen) && h !in s.handlers
    requires Lawful(c.wire) && Presentable(c, q) && Admissible(s.ctl, q.grant) == Admit
    requires Acceptable(c, q.grant, body)
    ensures Reaches(c, o, t) && !Vouched(c, t, gen.id, q.grant.member)
    ensures LandedOf(t.ctl, gen.id, q.grant.member).Some? && gen.Place() in t.fs.dirs
    ensures Name(t.fs.dirs[gen.Place()], Member(q.grant.member)) !in t.fs.names
  {
    var n := Name(s.fs.dirs[gen.Place()], Member(q.grant.member));
    var s1 := ReachRemoved(c, o, s, gen.Place(), n);
    var s2 := LandsOnceOpen(c, o, s1, q, h, body);
    t := ReachRemoved(c, o, s2, gen.Place(), n);
  }

  lemma AbandonedAgain(c: Config, o: State, s: State, root: string, id: string, jobID: string) returns (s': State)
    requires Runs(c, o, s) && OpenShape(root, id, jobID) && s.ctl == Opened(INITIAL, root, id, jobID)
    requires Dir(root, id) in s.fs.dirs
    ensures Runs(c, o, s') && s'.ctl == s.ctl && s'.fs == s.fs && s'.handlers == s.handlers
    ensures s'.removing == s.removing + {Dir(root, id)}
  {
    RunStepOn(c, o, s, Abandon(id));
    RunOpen(c, o, AfterAbandon(s, id), root, id, jobID);
    s' := AfterOpen(AfterAbandon(s, id), root, id, jobID);
  }

  /** Every fresh endpoint has a run that loses a landed member: a generation is
      opened, abandoned, and opened again before the removal ends; an upload
      lands, and the removal goes on. */
  lemma ReopenDuringRemovalLoses(c: Config, s: State, root: string, q: Request, h: nat, body: Bytes)
    returns (t: State)
    requires Start(s) && Lawful(c.wire) && Presentable(c, q) && c.slots > 0
    requires OpenShape(root, q.grant.generation, q.grant.jobID) && Acceptable(c, q.grant, body)
    ensures Runs(c, s, t) && LandedOf(t.ctl, q.grant.generation, q.grant.member).Some?
    ensures Dir(root, q.grant.generation) in t.fs.dirs
    ensures Name(t.fs.dirs[Dir(root, q.grant.generation)], Member(q.grant.member)) !in t.fs.names
  {
    LeadsSelf(StepOf(c), s);
    var s1 := ReachOpened(c, s, root, q.grant);
    RunsThen(c, s, s, s1);
    var s2 := AbandonedAgain(c, s, s1, root, q.grant.generation, q.grant.jobID);
    LeadsSelf(QuietStepOf(c), s2);
    t := RemovalLoses(c, s2, s2, OpenGen(q.grant.generation, q.grant.jobID, root), q, h, body);
    RunsThen(c, s, s2, t);
  }

  // ---------- a leftover handler ----------

  lemma RunDo(c: Config, o: State, s: State, h: nat, a: Action)
    requires Runs(c, o, s) && AtStage(s, h) && Able(c, s.handlers[h], s.fs, s.ctl.slots, a)
    ensures Runs(c, o, AfterDo(c, s, h, a))
  {
    RunStepOn(c, o, s, Do(h, a));
  }

  /** Over a leftover handler, the endpoint vouches for a member of the new
      generation that is not there: it hands out the old generation's receipt. */
  lemma LeftoverHandlerPollutes(c: Config, o: State, s: State, h: nat, root: string, id: string, jobID: string)
    returns (t: State)
    requires Runs(c, o, s) && AtStage(s, h) && s.handlers[h].stage.Renamed?
    requires CanOpen(s.ctl, root, id, jobID)
    ensures Runs(c, o, t) && t.ctl.gen == Some(OpenGen(id, jobID, root)) && Dir(root, id) in t.fs.dirs
    ensures LandedOf(t.ctl, id, s.handlers[h].grant.member) == Some(s.handlers[h].stage.rc)
    ensures FsShape(s.fs) && Dir(root, id) !in s.fs.dirs ==>
              Name(t.fs.dirs[Dir(root, id)], Member(s.handlers[h].grant.member)) !in t.fs.names
  {
    var s1 := AfterOpen(s, root, id, jobID);
    RunOpen(c, o, s, root, id, jobID);
    RunDo(c, o, s1, h, Record);
    t := AfterDo(c, s1, h, Record);
  }

  lemma RunClose(c: Config, o: State, s: State) returns (s': State)
    requires Runs(c, o, s) && s.ctl.gen.Some?
    ensures Runs(c, o, s') && s' == s.(ctl := Closed(s.ctl, s.ctl.gen.value.id)) && s'.ctl.gen.None?
  {
    RunStepOn(c, o, s, Close(s.ctl.gen.value.id));
    s' := s.(ctl := Closed(s.ctl, s.ctl.gen.value.id));
  }

  lemma LeftoverLeft(c: Config, o: State, s: State, q: Request, h: nat, body: Bytes) returns (s': State)
    requires Runs(c, o, s) && Lawful(c.wire) && Presentable(c, q) && h !in s.handlers
    requires Admissible(s.ctl, q.grant) == Admit && s.ctl.slots < c.slots
    requires Free(s.fs, s.ctl.gen.value, q.grant.member) && Acceptable(c, q.grant, body)
    ensures Runs(c, o, s') && s'.ctl.gen.None? && AtStage(s', h) && s'.handlers[h].stage.Renamed?
    ensures s'.handlers[h].grant.member == q.grant.member
    ensures s'.handlers[h].stage.rc == ReceiptFor(c, s.ctl.gen.value, SignedGrant(c, q), body)
  {
    LeadsSelf(QuietStepOf(c), s);
    var s1 := RequestCanLand(c, s, s, q, h, body);
    RunsThen(c, o, s, s1);
    s' := RunClose(c, o, s1);
  }

  /** Wherever a run has got to, if a request is presentable and admissible there,
      the run can go on to land it, close the generation, and open any other one
      over the handler that has not recorded yet: Landed then vouches, for the new
      generation, for a member only the old one holds. */
  lemma OpenOverLeftoverHandler(
    c: Config, o: State, s: State, q: Request, h: nat, body: Bytes, root: string, id: string, jobID: string)
    returns (t: State)
    requires Runs(c, o, s) && Lawful(c.wire) && Presentable(c, q) && h !in s.handlers
    requires Admissible(s.ctl, q.grant) == Admit && s.ctl.slots < c.slots
    requires Free(s.fs, s.ctl.gen.value, q.grant.member) && Acceptable(c, q.grant, body)
    requires OpenShape(root, id, jobID) && id != q.grant.generation
    ensures Runs(c, o, t) && !Vouched(c, t, id, q.grant.member)
    ensures LandedOf(t.ctl, id, q.grant.member)
            == Some(ReceiptFor(c, s.ctl.gen.value, SignedGrant(c, q), body))
  {
    var s1 := LeftoverLeft(c, o, s, q, h, body);
    t := LeftoverHandlerPollutes(c, o, s1, h, root, id, jobID);
  }

  /** From every fresh endpoint, with every presentable request and every other
      generation, some run gets there. */
  lemma PollutesFromStart(
    c: Config, s: State, place: string, q: Request, h: nat, body: Bytes, root: string, id: string, jobID: string)
    returns (t: State)
    requires Start(s) && Lawful(c.wire) && Presentable(c, q) && c.slots > 0
    requires OpenShape(place, q.grant.generation, q.grant.jobID) && Acceptable(c, q.grant, body)
    requires NotThere(s.fs, Dir(place, q.grant.generation), q.grant.member)
    requires OpenShape(root, id, jobID) && id != q.grant.generation
    ensures Runs(c, s, t) && !Vouched(c, t, id, q.grant.member)
    ensures LandedOf(t.ctl, id, q.grant.member).Some?
    ensures LandedOf(t.ctl, id, q.grant.member).value.generation == q.grant.generation != id
  {
    LeadsSelf(StepOf(c), s);
    var s1 := ReachOpened(c, s, place, q.grant);
    RunsThen(c, s, s, s1);
    FreeAfterMaking(s.fs, OpenGen(q.grant.generation, q.grant.jobID, place), q.grant.member);
    t := OpenOverLeftoverHandler(c, s, s1, q, h, body, root, id, jobID);
  }

  // ---------- exactly when ----------

  lemma {:induction false} Above(s: set<nat>) returns (b: nat)
    ensures forall x :: x in s ==> x < b
    decreases |s|
  {
    if s == {} {
      b := 0;
    } else {
      var x :| x in s;
      var a := Above(s - {x});
      b := if x < a then a else x + 1;
      assert forall y :: y in s ==> y == x || y in s - {x};
    }
  }

  /** Without registered handlers no slot is taken. */
  lemma NoneRegistered(c: Config, s: State)
    requires Inv(c, s) && forall h :: h in s.handlers ==> s.handlers[h].Verified?
    ensures s.ctl.slots == 0
  {
    assert Slotted(s.handlers) == {};
  }

  lemma LeftoverDishonest(c: Config, s: State, root: string, id: string, jobID: string, h: nat)
    requires AtStage(s, h)
    ensures !Honest(c, AfterOpen(s, root, id, jobID))
  {
    assert s.handlers[h].grant.member in Registered(s.handlers);
  }

  lemma RemovalDishonest(c: Config, s: State, root: string, q: Request, body: Bytes) returns (t: State)
    requires Inv(c, s) && Lawful(c.wire) && Presentable(c, q) && c.slots > 0 && Acceptable(c, q.grant, body)
    requires forall h :: h in s.handlers ==> s.handlers[h].Verified?
    requires Dir(root, q.grant.generation) in s.removing
    ensures Reaches(c, AfterOpen(s, root, q.grant.generation, q.grant.jobID), t) && !Honest(c, t)
  {
    var s1 := AfterOpen(s, root, q.grant.generation, q.grant.jobID);
    NoneRegistered(c, s);
    var h := Above(s.handlers.Keys);
    AdmissibleWhenOpened(s.ctl, root, q.grant);
    LeadsSelf(QuietStepOf(c), s1);
    t := RemovalLoses(c, s1, s1, OpenGen(q.grant.generation, q.grant.jobID, root), q, h, body);
  }

  /** Everything that can follow an Open stays honest, exactly when the Open found
      no registered handler and no removal of its directory: both are there for
      the caller to see before the call. One presentable request with one
      acceptable body for the generation is enough to tell. */
  lemma OpenSafeIff(c: Config, s: State, root: string, q: Request, body: Bytes)
    requires Inv(c, s) && CanOpen(s.ctl, root, q.grant.generation, q.grant.jobID)
    requires Lawful(c.wire) && Presentable(c, q) && c.slots > 0 && Acceptable(c, q.grant, body)
    ensures (forall t :: Reaches(c, AfterOpen(s, root, q.grant.generation, q.grant.jobID), t) ==> Honest(c, t))
       <==> Quiet(s, Open(root, q.grant.generation, q.grant.jobID))
  {
    var s1 := AfterOpen(s, root, q.grant.generation, q.grant.jobID);
    if Quiet(s, Open(root, q.grant.generation, q.grant.jobID)) {
      OpenStep(c, s, root, q.grant.generation, q.grant.jobID);
      forall t | Reaches(c, s1, t) ensures Honest(c, t) {
        ReachesHonest(c, s1, t);
      }
    } else if h :| h in s.handlers && s.handlers[h].Admitted? {
      LeadsSelf(QuietStepOf(c), s1);
      LeftoverDishonest(c, s, root, q.grant.generation, q.grant.jobID, h);
    } else {
      var t := RemovalDishonest(c, s, root, q, body);
    }
  }
}
