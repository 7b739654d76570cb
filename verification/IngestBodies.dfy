/** The machine's view of a body joined to the code that takes one in: a handler
    settles on exactly the bodies that `land` would commit (backupxfer/server.go). */
module IngestBodies {
  import opened Text
  import opened Credential
  import opened Traces
  import opened Ingest
  import opened IngestRuns
  import Intake

  /** The configuration's archive check is the header scan's answer. */
  ghost predicate Scans(c: Config, readable: Bytes -> bool) {
    forall b, max :: c.archive(b, max) <==> HeaderBefore(b, max, readable)
  }

  predicate HeaderBefore(b: Bytes, max: nat, readable: Bytes -> bool) {
    Intake.HeaderEnd(b, readable).Some? && Intake.HeaderEnd(b, readable).value < max
  }

  /** The body and its trailer are committed under a bound. */
  predicate Commits(c: Config, readable: Bytes -> bool, t: Intake.Trailer, max: nat, b: Bytes) {
    Intake.Verdict(b, false, max, readable, c.hash, t) == Intake.Landed(b)
  }

  lemma CommitsIff(c: Config, readable: Bytes -> bool, t: Intake.Trailer, max: nat, b: Bytes)
    requires Scans(c, readable)
    ensures Commits(c, readable, t, max, b) <==>
            |b| <= max && c.archive(b, max) && t.digest != "" && c.hash(b) == t.digest && t.size == Some(|b|)
  {
    Intake.LandedIff(b, false, max, readable, c.hash, t, b);
  }

  /** Any steps, in which handler `h` is given the trailer `t`. */
  ghost function FedStepOf(c: Config, h: nat, t: Intake.Trailer): (State, Label, State) -> bool {
    (s: State, l: Label, s': State) => Steps(c, s, l, s') && Feeds(l, h, t)
  }

  predicate Feeds(l: Label, h: nat, t: Intake.Trailer) {
    l.Do? && l.h == h && l.a.Settle? ==> t == Intake.Trailer(l.a.digest, Some(l.a.size))
  }

  /** A writer under grant `g` is within its bound, and past Settle has a body
      that is committed. */
  ghost predicate Within(c: Config, readable: Bytes -> bool, t: Intake.Trailer, g: Grant, x: Handler) {
    x.Writes() && x.grant == g ==>
      && |x.stage.sent| <= g.maxBytes
      && (!x.stage.Writing? ==> Commits(c, readable, t, g.maxBytes, x.stage.sent))
  }

  lemma ActionWithin(
    c: Config, readable: Bytes -> bool, t: Intake.Trailer, g: Grant, x: Handler, fs: Fs, slots: nat, h: nat, a: Action)
    requires Scans(c, readable) && x.Admitted? && Able(c, x, fs, slots, a) && Feeds(Do(h, a), h, t)
    requires Within(c, readable, t, g, x)
    ensures Within(c, readable, t, g, x.(stage := StageAfter(c, x, fs, slots, a)))
  {
    if a.Settle? {
      CommitsIff(c, readable, t, x.grant.maxBytes, x.stage.sent);
    }
  }

  lemma OtherStepKeeps(c: Config, s: State, l: Label, h: nat)
    requires Enabled(c, s, l) && !(l.Do? && l.h == h)
    requires h in Next(c, s, l).handlers && Next(c, s, l).handlers[h].Writes()
    ensures h in s.handlers && s.handlers[h] == Next(c, s, l).handlers[h]
  {
    if l == Register(h) {
      AdmittedFor(s, h);
    } else if !l.Do? {
      NoneAdmitted(c, s, l, h);
    }
  }

  lemma StepWithin(c: Config, readable: Bytes -> bool, t: Intake.Trailer, g: Grant, s: State, l: Label, h: nat)
    requires Scans(c, readable) && Enabled(c, s, l) && Feeds(l, h, t)
    requires h in s.handlers ==> Within(c, readable, t, g, s.handlers[h])
    requires h in Next(c, s, l).handlers
    ensures Within(c, readable, t, g, Next(c, s, l).handlers[h])
  {
    if l.Do? && l.h == h {
      ActionWithin(c, readable, t, g, s.handlers[h], s.fs, s.ctl.slots, h, l.a);
    } else if Next(c, s, l).handlers[h].Writes() {
      OtherStepKeeps(c, s, l, h);
    }
  }

  /** Handler `h` has settled on `b` under `g`. */
  ghost predicate SettledOn(s: State, h: nat, g: Grant, b: Bytes) {
    AtStage(s, h) && s.handlers[h].grant == g && s.handlers[h].stage.Settled? && s.handlers[h].stage.sent == b
  }

  lemma SettledCommits(
    c: Config, readable: Bytes -> bool, t: Intake.Trailer, s: State, h: nat, g: Grant, b: Bytes, s': State)
    requires Scans(c, readable) && AtStage(s, h) && s.handlers[h].stage.Writing? && s.handlers[h].stage.sent == ""
    requires Leads(FedStepOf(c, h, t), s, s') && SettledOn(s', h, g, b)
    ensures Commits(c, readable, t, g.maxBytes, b)
  {
    var ss: seq<State>, ls: seq<Label> :| Chain(FedStepOf(c, h, t), ss, ls) && ss[0] == s && ss[|ls|] == s';
    var inv := (u: State) => h in u.handlers ==> Within(c, readable, t, g, u.handlers[h]);
    forall u, l, u' | inv(u) && FedStepOf(c, h, t)(u, l, u') ensures inv(u') {
      if h in u'.handlers {
        StepWithin(c, readable, t, g, u, l, h);
      }
    }
    ChainKeeps(FedStepOf(c, h, t), ss, ls, 0, |ls|, inv, (_: Label) => true);
  }

  lemma FedStep(c: Config, t: Intake.Trailer, o: State, s: State, h: nat, a: Action) returns (s': State)
    requires Leads(FedStepOf(c, h, t), o, s) && AtStage(s, h) && Able(c, s.handlers[h], s.fs, s.ctl.slots, a)
    requires Feeds(Do(h, a), h, t) && !a.Unregister?
    ensures Leads(FedStepOf(c, h, t), o, s') && AtStage(s', h)
    ensures s'.handlers[h] == s.handlers[h].(stage := StageAfter(c, s.handlers[h], s.fs, s.ctl.slots, a))
  {
    s' := AfterDo(c, s, h, a);
    assert FedStepOf(c, h, t)(s, Do(h, a), s');
    LeadsStep(FedStepOf(c, h, t), o, s, Do(h, a), s');
  }

  lemma CommittedSettles(c: Config, readable: Bytes -> bool, t: Intake.Trailer, s: State, h: nat, b: Bytes)
    returns (s': State)
    requires Scans(c, readable) && AtStage(s, h) && s.handlers[h].stage.Writing? && s.handlers[h].stage.sent == ""
    requires Commits(c, readable, t, s.handlers[h].grant.maxBytes, b)
    ensures Leads(FedStepOf(c, h, t), s, s') && SettledOn(s', h, s.handlers[h].grant, b)
  {
    CommitsIff(c, readable, t, s.handlers[h].grant.maxBytes, b);
    LeadsSelf(FedStepOf(c, h, t), s);
    var s1 := FedStep(c, t, s, s, h, Write(b));
    assert "" + b == b;
    s' := FedStep(c, t, s, s1, h, Settle(t.digest, t.size.value));
  }

  /** In the machine, whatever else goes on, a handler that starts on a body can
      settle on `b` with trailer `t` exactly when the code that takes the body in
      would commit it: header line, byte bound, digest and length. */
  lemma SettlesIff(c: Config, readable: Bytes -> bool, t: Intake.Trailer, s: State, h: nat, b: Bytes)
    requires Scans(c, readable) && AtStage(s, h) && s.handlers[h].stage.Writing? && s.handlers[h].stage.sent == ""
    ensures (exists s' :: Leads(FedStepOf(c, h, t), s, s') && SettledOn(s', h, s.handlers[h].grant, b))
       <==> Commits(c, readable, t, s.handlers[h].grant.maxBytes, b)
  {
    var g := s.handlers[h].grant;
    if s' :| Leads(FedStepOf(c, h, t), s, s') && SettledOn(s', h, g, b) {
      SettledCommits(c, readable, t, s, h, g, b, s');
    }
    if Commits(c, readable, t, g.maxBytes, b) {
      var s' := CommittedSettles(c, readable, t, s, h, b);
    }
  }
}
