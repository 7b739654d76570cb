/** What runs of the ingest endpoint can do: from a fresh endpoint to a landed
    upload, step by step. */
module IngestReach {
  import opened Text
  import opened Members
  import opened Credential
  import opened Traces
  import opened Ingest
  import opened IngestSafety

  /** A quiet run leads from `o` to `s`. */
  ghost predicate Reaches(c: Config, o: State, s: State) {
    Leads(QuietStepOf(c), o, s)
  }

  /** Any run does. */
  ghost predicate Runs(c: Config, o: State, s: State) {
    Leads(StepOf(c), o, s)
  }

  lemma ReachStep(c: Config, o: State, s: State, l: Label)
    requires Reaches(c, o, s) && Enabled(c, s, l) && Quiet(s, l)
    ensures Reaches(c, o, Next(c, s, l))
  {
    assert QuietStepOf(c)(s, l, Next(c, s, l));
    LeadsStep(QuietStepOf(c), o, s, l, Next(c, s, l));
  }

  lemma RunStepOn(c: Config, o: State, s: State, l: Label)
    requires Runs(c, o, s) && Enabled(c, s, l)
    ensures Runs(c, o, Next(c, s, l))
  {
    assert StepOf(c)(s, l, Next(c, s, l));
    LeadsStep(StepOf(c), o, s, l, Next(c, s, l));
  }

  lemma RunsThen(c: Config, o: State, s: State, t: State)
    requires Runs(c, o, s) && Reaches(c, s, t)
    ensures Runs(c, o, t)
  {
    LeadsThen(QuietStepOf(c), StepOf(c), o, s, t);
  }

  // ---------- one upload request ----------

  /** What the run mints, and when and with which declaration the node presents it. */
  datatype Request = Request(
    grant: Grant, ttl: int, mintedAt: int, nonce: string, now: int, declared: Option<nat>)

  function SignedGrant(c: Config, q: Request): Grant {
    Filled(c.wire, q.grant, q.ttl, q.mintedAt, q.nonce)
  }

  function Minted(c: Config, q: Request): Result<string> {
    Credential.Mint(c.wire, q.grant, q.ttl, q.mintedAt, q.nonce)
  }

  /** A mintable upload grant, presented in time, in a token that is not too long. */
  predicate Presentable(c: Config, q: Request) {
    && Minted(c, q).Ok? && |Minted(c, q).value| <= MAX_TOKEN && q.grant.use == ""
    && q.now / SECOND < (q.mintedAt + q.ttl) / SECOND && q.mintedAt / SECOND <= q.now / SECOND + CLOCK_SKEW
    && GatePasses(q.declared, q.grant.maxBytes)
  }

  lemma MintableShape(c: Config, q: Request)
    requires Minted(c, q).Ok?
    ensures ValidName(q.grant.generation) && ValidMember(q.grant.member)
    ensures TrimSpace(q.grant.nodeID) != "" && TrimSpace(q.grant.jobID) != ""
  {
  }

  lemma TokenText(c: Config, q: Request)
    requires Minted(c, q).Ok?
    ensures var payload := Payload(c.wire, SignedGrant(c, q));
            Minted(c, q).value == payload + "." + c.wire.b64(c.wire.mac(payload))
  {
  }

  function Presents(c: Config, q: Request, h: nat): Label
    requires Minted(c, q).Ok?
  {
    Authorize(h, INGEST_PREFIX + q.grant.generation + "/" + q.grant.member, Minted(c, q).value,
              q.grant.nodeID, q.declared, q.now)
  }

  lemma PresentsGrant(c: Config, q: Request, h: nat)
    requires Lawful(c.wire) && Presentable(c, q)
    ensures GrantOf(c, Presents(c, q, h)) == Some(SignedGrant(c, q))
  {
    VerifyOfFilled(c.wire, q.grant, q.ttl, q.mintedAt, q.nonce, q.now);
  }

  lemma PresentsPath(g: string, m: string)
    requires ValidName(g) && ValidMember(m)
    ensures SplitIngestPath(INGEST_PREFIX + g + "/" + m) == Some((g, m))
  {
    SplitIngestPathSound(INGEST_PREFIX + g + "/" + m);
    match SplitIngestPath(INGEST_PREFIX + g + "/" + m)
    case Some((a, b)) => PathParts(g, m, a, b);
    case None =>
  }

  lemma PathParts(g: string, m: string, a: string, b: string)
    requires ValidName(g) && ValidName(a) && INGEST_PREFIX + g + "/" + m == INGEST_PREFIX + a + "/" + b
    ensures g == a && m == b
  {
    NoSlash(g);
    NoSlash(a);
    SlashParts(INGEST_PREFIX, g, m, a, b);
  }

  lemma SlashParts(p: string, g: string, m: string, a: string, b: string)
    requires '/' !in g && '/' !in a && p + g + "/" + m == p + a + "/" + b
    ensures g == a && m == b
  {
    var s, t := g + ['/'] + m, a + ['/'] + b;
    assert (p + g + "/" + m)[|p|..] == s && (p + a + "/" + b)[|p|..] == t;
    assert s[..|g|] == g && t[..|a|] == a;
    IndexOfUnique(s, '/', |g|);
    IndexOfUnique(t, '/', |a|);
    assert s[|g| + 1..] == m && t[|a| + 1..] == b;
  }

  lemma PresentsAuthorized(c: Config, q: Request, h: nat)
    requires Presentable(c, q)
    ensures Authorized(Presents(c, q, h), SignedGrant(c, q))
  {
    MintableShape(c, q);
    PresentsPath(q.grant.generation, q.grant.member);
    TokenNotBlank(c, q);
  }

  lemma TokenNotBlank(c: Config, q: Request)
    requires Minted(c, q).Ok?
    ensures TrimSpace(Minted(c, q).value) != ""
  {
    TokenText(c, q);
    var t := Minted(c, q).value;
    assert t[0] == TOKEN_PREFIX[0];
    TrimSolid(t);
  }

  lemma PresentsUnforged(c: Config, q: Request, minted: set<Grant>)
    requires Lawful(c.wire) && Minted(c, q).Ok? && SignedGrant(c, q) in minted
    ensures Unforged(c.wire, minted, Minted(c, q).value)
  {
    TokenText(c, q);
    MintedIsUnforged(c.wire, minted, SignedGrant(c, q));
  }

  // ---------- up to a registered handler ----------

  lemma ReachMinted(c: Config, o: State, s: State, q: Request) returns (s': State)
    requires Reaches(c, o, s) && Minted(c, q).Ok?
    ensures Reaches(c, o, s') && s' == s.(minted := s.minted + {SignedGrant(c, q)})
  {
    s' := s.(minted := s.minted + {SignedGrant(c, q)});
    ReachStep(c, o, s, Label.Mint(q.grant, q.ttl, q.mintedAt, q.nonce));
  }

  lemma AuthorizeEnabled(c: Config, s: State, q: Request, h: nat)
    requires Lawful(c.wire) && Presentable(c, q) && SignedGrant(c, q) in s.minted && h !in s.handlers
    ensures Enabled(c, s, Presents(c, q, h))
  {
    PresentsGrant(c, q, h);
    PresentsAuthorized(c, q, h);
    PresentsUnforged(c, q, s.minted);
  }

  lemma ReachPresented(c: Config, o: State, s: State, q: Request, h: nat) returns (s': State)
    requires Reaches(c, o, s) && Lawful(c.wire) && Presentable(c, q)
    requires SignedGrant(c, q) in s.minted && h !in s.handlers
    ensures Reaches(c, o, s') && s' == s.(handlers := s.handlers[h := Verified(SignedGrant(c, q))])
  {
    AuthorizeEnabled(c, s, q, h);
    PresentsGrant(c, q, h);
    ReachStep(c, o, s, Presents(c, q, h));
    s' := AfterAuthorize(s, h, Some(SignedGrant(c, q)));
  }

  lemma ReachRegistered(c: Config, o: State, s: State, h: nat) returns (s': State)
    requires Reaches(c, o, s) && h in s.handlers && s.handlers[h].Verified?
    requires Admissible(s.ctl, s.handlers[h].grant) == Admit
    ensures Reaches(c, o, s') && s' == AfterRegister(s, h)
  {
    ReachStep(c, o, s, Register(h));
    s' := AfterRegister(s, h);
  }

  /** While its generation is open and its member neither landed nor in flight, a
      presentable request gets its handler registered. */
  lemma ReachWaiting(c: Config, o: State, s: State, q: Request, h: nat) returns (s': State)
    requires Reaches(c, o, s) && Lawful(c.wire) && Presentable(c, q) && h !in s.handlers
    requires Admissible(s.ctl, q.grant) == Admit
    ensures Reaches(c, o, s') && s'.fs == s.fs && s'.removing == s.removing
    ensures s'.ctl == s.ctl.(inflight := s.ctl.inflight + {q.grant.member})
    ensures s'.handlers == s.handlers[h := Admitted(SignedGrant(c, q), s.ctl.gen.value, Waiting)]
  {
    var s1 := ReachMinted(c, o, s, q);
    var s2 := ReachPresented(c, o, s1, q, h);
    s' := ReachRegistered(c, o, s2, h);
  }

  // ---------- up to a landed member ----------

  /** One action of handler `h`, which must stay registered. */
  lemma ReachDo(c: Config, o: State, s: State, h: nat, a: Action) returns (s': State)
    requires Reaches(c, o, s) && AtStage(s, h) && Able(c, s.handlers[h], s.fs, s.ctl.slots, a) && !a.Unregister?
    ensures Reaches(c, o, s') && s' == AfterDo(c, s, h, a)
    ensures var x := s.handlers[h];
            && AtStage(s', h) && s'.handlers[h] == x.(stage := StageAfter(c, x, s.fs, s.ctl.slots, a))
            && s'.ctl == ControlAfter(c, x, s.ctl, s.fs, a)
            && s'.fs == FsAfter(c, x, s.fs, s.ctl.slots, a) && s'.removing == s.removing
  {
    ReachStep(c, o, s, Do(h, a));
    s' := AfterDo(c, s, h, a);
  }

  /** The handler's member is not in its generation's directory. */
  ghost predicate Free(fs: Fs, gen: OpenGen, m: string) {
    gen.Place() in fs.dirs && Name(fs.dirs[gen.Place()], Member(m)) !in fs.names
  }

  ghost predicate SameUpload(s: State, s': State, h: nat) {
    && AtStage(s, h) && AtStage(s', h)
    && s'.handlers[h].grant == s.handlers[h].grant && s'.handlers[h].gen == s.handlers[h].gen
    && s'.fs.dirs == s.fs.dirs && s'.removing == s.removing
    && s'.ctl.gen == s.ctl.gen && s'.ctl.landed == s.ctl.landed
  }

  /** The temporary file is there and empty. */
  ghost predicate Begun(s: State, h: nat, ino: nat) {
    && AtStage(s, h)
    && var x := s.handlers[h];
       && x.stage.Writing? && x.stage.ino == ino && x.stage.sent == "" && MemberName(x) !in s.fs.names
       && UploadName(x) in s.fs.names && s.fs.names[UploadName(x)] == x.stage.file
       && x.stage.file in s.fs.data && s.fs.data[x.stage.file] == ""
  }

  lemma ReachCleared(c: Config, o: State, s: State, h: nat) returns (s': State)
    requires Reaches(c, o, s) && AtStage(s, h) && s.handlers[h].stage.Waiting? && s.ctl.slots < c.slots
    requires Free(s.fs, s.handlers[h].gen, s.handlers[h].grant.member)
    ensures Reaches(c, o, s') && SameUpload(s, s', h)
    ensures s'.handlers[h].stage == Cleared(s.fs.dirs[s.handlers[h].gen.Place()])
    ensures MemberName(s'.handlers[h]) !in s'.fs.names && UploadName(s'.handlers[h]) !in s'.fs.names
  {
    var s1 := ReachDo(c, o, s, h, Acquire);
    var s2 := ReachDo(c, o, s1, h, OpenDirs);
    var s3 := ReachDo(c, o, s2, h, CheckAbsent);
    s' := ReachDo(c, o, s3, h, UnlinkStale);
  }

  lemma ReachWriting(c: Config, o: State, s: State, h: nat) returns (s': State)
    requires Reaches(c, o, s) && AtStage(s, h) && s.handlers[h].stage.Waiting? && s.ctl.slots < c.slots
    requires Free(s.fs, s.handlers[h].gen, s.handlers[h].grant.member)
    ensures Reaches(c, o, s') && SameUpload(s, s', h) && Begun(s', h, s.fs.dirs[s.handlers[h].gen.Place()])
  {
    var ino := s.fs.dirs[s.handlers[h].gen.Place()];
    var s1 := ReachCleared(c, o, s, h);
    assert Alive(s1.fs, ino) by {
      assert s1.fs.dirs[s.handlers[h].gen.Place()] == ino;
    }
    s' := ReachDo(c, o, s1, h, Create);
  }

  /** A body the handler will take. */
  predicate Acceptable(c: Config, g: Grant, body: Bytes) {
    c.archive(body, g.maxBytes) && |body| <= g.maxBytes && c.hash(body) != ""
  }

  ghost function ReceiptFor(c: Config, gen: OpenGen, g: Grant, body: Bytes): Receipt {
    Receipt(gen.id, g.member, g.nodeID, c.hash(body), |body|, g.nonce)
  }

  /** The member stands in the directory, holding `body`. */
  ghost predicate Stands(fs: Fs, ino: nat, m: string, body: Bytes) {
    && Name(ino, Member(m)) in fs.names && fs.names[Name(ino, Member(m))] in fs.data
    && fs.data[fs.names[Name(ino, Member(m))]] == body
  }

  lemma ReachRenamed(c: Config, o: State, s: State, h: nat, ino: nat, body: Bytes) returns (s': State)
    requires Reaches(c, o, s) && Begun(s, h, ino) && Acceptable(c, s.handlers[h].grant, body)
    ensures Reaches(c, o, s') && SameUpload(s, s', h) && s'.handlers[h].stage.Renamed?
    ensures s'.handlers[h].stage.rc == ReceiptFor(c, s.handlers[h].gen, s.handlers[h].grant, body)
    ensures Stands(s'.fs, ino, s.handlers[h].grant.member, body)
  {
    var s1 := ReachDo(c, o, s, h, Write(body));
    assert "" + body == body;
    var s2 := ReachDo(c, o, s1, h, Settle(c.hash(body), |body|));
    var s3 := ReachDo(c, o, s2, h, Recheck);
    s' := ReachDo(c, o, s3, h, Rename);
  }

  /** A registered upload of an acceptable body, for a member not yet on the
      target, can always go on to become visible. */
  lemma UploadCanLand(c: Config, o: State, s: State, h: nat, body: Bytes) returns (s': State)
    requires Reaches(c, o, s) && AtStage(s, h) && s.handlers[h].stage.Waiting? && s.ctl.slots < c.slots
    requires Free(s.fs, s.handlers[h].gen, s.handlers[h].grant.member) && Acceptable(c, s.handlers[h].grant, body)
    ensures Reaches(c, o, s') && SameUpload(s, s', h) && s'.handlers[h].stage.Renamed?
    ensures s'.handlers[h].stage.rc == ReceiptFor(c, s.handlers[h].gen, s.handlers[h].grant, body)
    ensures Stands(s'.fs, s.fs.dirs[s.handlers[h].gen.Place()], s.handlers[h].grant.member, body)
  {
    var ino := s.fs.dirs[s.handlers[h].gen.Place()];
    var s1 := ReachWriting(c, o, s, h);
    s' := ReachRenamed(c, o, s1, h, ino, body);
  }

  /** An upload, from its request to its visible member. */
  lemma RequestCanLand(c: Config, o: State, s: State, q: Request, h: nat, body: Bytes) returns (s': State)
    requires Reaches(c, o, s) && Lawful(c.wire) && Presentable(c, q) && h !in s.handlers
    requires Admissible(s.ctl, q.grant) == Admit && s.ctl.slots < c.slots
    requires Free(s.fs, s.ctl.gen.value, q.grant.member) && Acceptable(c, q.grant, body)
    ensures Reaches(c, o, s') && AtStage(s', h) && s'.handlers[h].stage.Renamed?
    ensures s'.handlers[h].grant == SignedGrant(c, q) && s'.handlers[h].gen == s.ctl.gen.value
    ensures s'.handlers[h].stage.rc == ReceiptFor(c, s.ctl.gen.value, SignedGrant(c, q), body)
    ensures s'.ctl.gen == s.ctl.gen && s'.ctl.landed == s.ctl.landed
    ensures s'.fs.dirs == s.fs.dirs && s'.removing == s.removing
    ensures Stands(s'.fs, s.fs.dirs[s.ctl.gen.value.Place()], q.grant.member, body)
  {
    var s1 := ReachWaiting(c, o, s, q, h);
    s' := UploadCanLand(c, o, s1, h, body);
  }

  // ---------- from a fresh endpoint ----------

  ghost function AfterOpen(s: State, root: string, id: string, jobID: string): State {
    s.(ctl := Opened(s.ctl, root, id, jobID), fs := MakeDir(s.fs, Dir(root, id)))
  }

  lemma ReachOpen(c: Config, o: State, s: State, root: string, id: string, jobID: string)
    requires Reaches(c, o, s) && CanOpen(s.ctl, root, id, jobID) && Quiet(s, Open(root, id, jobID))
    ensures Reaches(c, o, AfterOpen(s, root, id, jobID))
  {
    ReachStep(c, o, s, Open(root, id, jobID));
  }

  lemma RunOpen(c: Config, o: State, s: State, root: string, id: string, jobID: string)
    requires Runs(c, o, s) && CanOpen(s.ctl, root, id, jobID)
    ensures Runs(c, o, AfterOpen(s, root, id, jobID))
  {
    RunStepOn(c, o, s, Open(root, id, jobID));
  }

  lemma AdmissibleWhenOpened(ctl: Control, root: string, g: Grant)
    ensures Admissible(Opened(ctl, root, g.generation, g.jobID), g) == Admit
  {
  }

  /** A fresh endpoint opens the generation a grant is for. */
  lemma ReachOpened(c: Config, s: State, root: string, g: Grant) returns (s': State)
    requires Start(s) && OpenShape(root, g.generation, g.jobID)
    ensures Reaches(c, s, s') && s' == AfterOpen(s, root, g.generation, g.jobID)
    ensures Admissible(s'.ctl, g) == Admit
  {
    LeadsSelf(QuietStepOf(c), s);
    ReachOpen(c, s, s, root, g.generation, g.jobID);
    s' := AfterOpen(s, root, g.generation, g.jobID);
    AdmissibleWhenOpened(s.ctl, root, g);
  }

  /** The member is not on the target yet. */
  ghost predicate NotThere(fs: Fs, d: Dir, m: string) {
    FsShape(fs) && (d in fs.dirs ==> Name(fs.dirs[d], Member(m)) !in fs.names)
  }

  lemma FreeAfterMaking(fs: Fs, gen: OpenGen, m: string)
    requires NotThere(fs, gen.Place(), m)
    ensures Free(MakeDir(fs, gen.Place()), gen, m)
  {
  }

  /** Landed has the receipt, and the body is there under the member's name. */
  ghost predicate Landed(c: Config, s: State, q: Request, gen: OpenGen, body: Bytes) {
    && LandedOf(s.ctl, gen.id, q.grant.member) == Some(ReceiptFor(c, gen, SignedGrant(c, q), body))
    && gen.Place() in s.fs.dirs && Stands(s.fs, s.fs.dirs[gen.Place()], q.grant.member, body)
  }

  lemma LandsOnceOpen(c: Config, o: State, s: State, q: Request, h: nat, body: Bytes) returns (s': State)
    requires Reaches(c, o, s) && Lawful(c.wire) && Presentable(c, q) && h !in s.handlers
    requires Admissible(s.ctl, q.grant) == Admit && s.ctl.slots < c.slots
    requires Free(s.fs, s.ctl.gen.value, q.grant.member) && Acceptable(c, q.grant, body)
    ensures Reaches(c, o, s') && Landed(c, s', q, s.ctl.gen.value, body)
    ensures s'.ctl.gen == s.ctl.gen && s'.fs.dirs == s.fs.dirs && s'.removing == s.removing
  {
    var s1 := RequestCanLand(c, o, s, q, h, body);
    s' := ReachDo(c, o, s1, h, Record);
  }

  /** From every fresh endpoint, every presentable request for a member that is
      not on the target, with every acceptable body, can land: some quiet run
      ends with the receipt in Landed and the body under the member's name. */
  lemma LandsFromStart(c: Config, s: State, root: string, q: Request, h: nat, body: Bytes) returns (s': State)
    requires Start(s) && Lawful(c.wire) && Presentable(c, q) && c.slots > 0
    requires OpenShape(root, q.grant.generation, q.grant.jobID) && Acceptable(c, q.grant, body)
    requires NotThere(s.fs, Dir(root, q.grant.generation), q.grant.member)
    ensures Reaches(c, s, s') && Landed(c, s', q, OpenGen(q.grant.generation, q.grant.jobID, root), body)
  {
    var s1 := ReachOpened(c, s, root, q.grant);
    FreeAfterMaking(s.fs, OpenGen(q.grant.generation, q.grant.jobID, root), q.grant.member);
    s' := LandsOnceOpen(c, s, s1, q, h, body);
  }
}
