/** Theorems over whole runs of the ingest endpoint. */
module IngestRuns {
  import opened Text
  import opened Members
  import opened Credential
  import opened Traces
  import opened Ingest
  import opened IngestSafety

  /** A run over any well-shaped target in which every Open finds the endpoint
      quiet. */
  ghost predicate QuietRun(c: Config, ss: seq<State>, ls: seq<Label>) {
    Chain(QuietStepOf(c), ss, ls) && Start(ss[0]) && FsShape(ss[0].fs)
  }

  lemma StartInv(c: Config, s: State)
    requires Start(s) && FsShape(s.fs)
    ensures Inv(c, s)
  {
    assert Slotted(s.handlers) == {};
    assert Registered(s.handlers) == {};
  }

  /** The invariant holds in every state of every quiet run. */
  lemma RunInv(c: Config, ss: seq<State>, ls: seq<Label>, i: nat)
    requires QuietRun(c, ss, ls) && i < |ss|
    ensures Inv(c, ss[i])
  {
    StartInv(c, ss[0]);
    ContinuationInv(c, ss, ls, i);
  }

  /** And in every quiet continuation of a state where it holds. */
  lemma ContinuationInv(c: Config, ss: seq<State>, ls: seq<Label>, i: nat)
    requires Chain(QuietStepOf(c), ss, ls) && Inv(c, ss[0]) && i < |ss|
    ensures Inv(c, ss[i])
  {
    forall s, l, s' | Inv(c, s) && QuietStepOf(c)(s, l, s') ensures Inv(c, s') {
      StepKeepsInv(c, s, l);
    }
    ChainKeeps(QuietStepOf(c), ss, ls, 0, i, (s: State) => Inv(c, s), (_: Label) => true);
  }

  // ---------- receipts and immutability ----------

  /** Whatever Landed returns, in any state of any quiet run, names a file on the
      target with exactly that length and hash. */
  lemma LandedIsTruthful(c: Config, ss: seq<State>, ls: seq<Label>, i: nat, id: string, m: string)
    requires QuietRun(c, ss, ls) && i < |ss| && LandedOf(ss[i].ctl, id, m).Some?
    ensures var rc, gen := LandedOf(ss[i].ctl, id, m).value, ss[i].ctl.gen.value;
            && rc.generation == id && rc.member == m
            && gen.Place() in ss[i].fs.dirs
            && Matches(c, ss[i].fs, Name(ss[i].fs.dirs[gen.Place()], Member(m)), rc)
  {
    RunInv(c, ss, ls, i);
  }

  /** The member `m` of directory `d` is linked to `file`, holding `b`. */
  ghost predicate Visible(fs: Fs, d: Dir, m: string, file: nat, b: Bytes) {
    && d in fs.dirs && Name(fs.dirs[d], Member(m)) in fs.names
    && fs.names[Name(fs.dirs[d], Member(m))] == file
    && file in fs.data && fs.data[file] == b
  }

  lemma StepKeepsVisible(c: Config, s: State, l: Label, d: Dir, m: string, file: nat, b: Bytes)
    requires Inv(c, s) && Enabled(c, s, l)
    requires Visible(s.fs, d, m, file, b) && d !in s.removing && l != Abandon(d.id)
    ensures Visible(Next(c, s, l).fs, d, m, file, b) && d !in Next(c, s, l).removing
  {
    if l.Do? {
      ActionKeepsVisible(c, s, l.h, l.a, d, m, file, b);
    } else {
      OtherKeepsVisible(c, s, l, d, m, file, b);
    }
  }

  lemma ActionKeepsVisible(
    c: Config, s: State, h: nat, a: Action, d: Dir, m: string, file: nat, b: Bytes)
    requires Inv(c, s) && AtStage(s, h) && Able(c, s.handlers[h], s.fs, s.ctl.slots, a)
    requires Visible(s.fs, d, m, file, b)
    ensures Visible(AfterDo(c, s, h, a).fs, d, m, file, b) && AfterDo(c, s, h, a).removing == s.removing
  {
    var x := s.handlers[h];
    assert HandlerSound(c, s.fs, s.ctl.gen.Some?, x);
    ActionKeepsMembers(c, x, s.fs, s.ctl.slots, s.ctl.gen.Some?, a, Name(s.fs.dirs[d], Member(m)));
    ActionFsShape(c, x, s.fs, s.ctl.slots, s.ctl.gen.Some?, a);
  }

  lemma OtherKeepsVisible(c: Config, s: State, l: Label, d: Dir, m: string, file: nat, b: Bytes)
    requires FsShape(s.fs) && Enabled(c, s, l) && !l.Do?
    requires Visible(s.fs, d, m, file, b) && d !in s.removing && l != Abandon(d.id)
    ensures Visible(Next(c, s, l).fs, d, m, file, b) && d !in Next(c, s, l).removing
  {
  }

  /** A member file, once visible, never changes until its generation is
      abandoned: not its name, not the file behind it, not a byte. */
  lemma MembersImmutable(
    c: Config, ss: seq<State>, ls: seq<Label>, i: nat, j: nat, d: Dir, m: string, file: nat, b: Bytes)
    requires QuietRun(c, ss, ls) && i <= j < |ss|
    requires Visible(ss[i].fs, d, m, file, b) && d !in ss[i].removing
    requires forall k :: i <= k < j ==> ls[k] != Abandon(d.id)
    ensures Visible(ss[j].fs, d, m, file, b)
  {
    RunInv(c, ss, ls, i);
    var inv := (s: State) => Inv(c, s) && Visible(s.fs, d, m, file, b) && d !in s.removing;
    forall s, l, s' | inv(s) && l != Abandon(d.id) && QuietStepOf(c)(s, l, s') ensures inv(s') {
      StepKeepsInv(c, s, l);
      StepKeepsVisible(c, s, l, d, m, file, b);
    }
    ChainKeeps(QuietStepOf(c), ss, ls, i, j, inv, (l: Label) => l != Abandon(d.id));
  }

  // ---------- conservation ----------

  /** In every state of every quiet run the slots taken are those of the handlers
      between acquire and release, within the semaphore's size, and the
      registrations are those of the live handlers, one per member. */
  lemma SlotsAndRegistrationsConserved(c: Config, ss: seq<State>, ls: seq<Label>, i: nat)
    requires QuietRun(c, ss, ls) && i < |ss|
    ensures ss[i].ctl.slots == |Slotted(ss[i].handlers)| <= c.slots
    ensures ss[i].ctl.inflight == Registered(ss[i].handlers)
    ensures forall h, k :: AtStage(ss[i], h) && AtStage(ss[i], k) && h != k ==>
              ss[i].handlers[h].grant.member != ss[i].handlers[k].grant.member
    ensures !(ss[i].ctl.gen.Some? && ss[i].ctl.last.Some?)
  {
    RunInv(c, ss, ls, i);
  }

  ghost predicate Owns(x: Handler, n: Name) {
    x.InDirectory() && (x.Writes() || x.stage.Failing?) && UploadName(x) == n
  }

  ghost predicate Owned(hs: map<nat, Handler>, n: Name) {
    exists h :: h in hs && Owns(hs[h], n)
  }

  /** The very file that was there under that name before. */
  ghost predicate Stale(stale: map<Name, nat>, n: Name, file: nat) {
    n in stale && stale[n] == file
  }

  ghost predicate TempsOwned(s: State, stale: map<Name, nat>) {
    && (forall n :: n in stale ==> stale[n] < s.fs.nextFile)
    && (forall n :: n in s.fs.names && n.file.Upload? ==> Stale(stale, n, s.fs.names[n]) || Owned(s.handlers, n))
  }

  lemma ActionOwnTemp(c: Config, x: Handler, fs: Fs, slots: nat, a: Action, n: Name)
    requires x.Admitted? && Able(c, x, fs, slots, a)
    requires n in FsAfter(c, x, fs, slots, a).names && n.file.Upload?
    ensures n !in fs.names || Owns(x, n) ==>
              Owns(x.(stage := StageAfter(c, x, fs, slots, a)), n) && !a.Unregister?
    ensures n in fs.names ==> FsAfter(c, x, fs, slots, a).names[n] == fs.names[n]
    ensures fs.nextFile <= FsAfter(c, x, fs, slots, a).nextFile
  {
  }

  lemma ActionTemps(c: Config, s: State, h: nat, a: Action, n: Name)
    requires AtStage(s, h) && Able(c, s.handlers[h], s.fs, s.ctl.slots, a)
    requires n in AfterDo(c, s, h, a).fs.names && n.file.Upload?
    requires n in s.fs.names ==> Owned(s.handlers, n)
    ensures Owned(AfterDo(c, s, h, a).handlers, n)
  {
    var x, hs' := s.handlers[h], AfterDo(c, s, h, a).handlers;
    ActionOwnTemp(c, x, s.fs, s.ctl.slots, a, n);
    if n in s.fs.names && !Owns(x, n) {
      var k :| k in s.handlers && Owns(s.handlers[k], n);
      assert k in hs' && Owns(hs'[k], n);
    } else {
      assert h in hs' && Owns(hs'[h], n);
    }
  }

  lemma ActionTempsOwned(c: Config, s: State, h: nat, a: Action, stale: map<Name, nat>)
    requires AtStage(s, h) && Able(c, s.handlers[h], s.fs, s.ctl.slots, a) && TempsOwned(s, stale)
    ensures TempsOwned(AfterDo(c, s, h, a), stale)
  {
    var x, s' := s.handlers[h], AfterDo(c, s, h, a);
    assert s.fs.nextFile <= s'.fs.nextFile;
    forall n | n in s'.fs.names && n.file.Upload? && !Stale(stale, n, s'.fs.names[n])
      ensures Owned(s'.handlers, n)
    {
      ActionOwnTemp(c, x, s.fs, s.ctl.slots, a, n);
      ActionTemps(c, s, h, a, n);
    }
  }

  /** Steps that are not a handler's own link nothing and leave admitted handlers
      alone. */
  lemma OtherStepFrame(c: Config, s: State, l: Label)
    requires Enabled(c, s, l) && !l.Do?
    ensures forall n :: n in Next(c, s, l).fs.names ==> n in s.fs.names && Next(c, s, l).fs.names[n] == s.fs.names[n]
    ensures Next(c, s, l).fs.nextFile == s.fs.nextFile
    ensures forall h :: AtStage(s, h) ==> h in Next(c, s, l).handlers && Next(c, s, l).handlers[h] == s.handlers[h]
  {
  }

  lemma StepTemps(c: Config, s: State, l: Label, stale: map<Name, nat>)
    requires Enabled(c, s, l) && TempsOwned(s, stale)
    ensures TempsOwned(Next(c, s, l), stale)
  {
    if l.Do? {
      ActionTempsOwned(c, s, l.h, l.a, stale);
    } else {
      var s' := Next(c, s, l);
      OtherStepFrame(c, s, l);
      forall n | n in s'.fs.names && n.file.Upload? && !Stale(stale, n, s'.fs.names[n])
        ensures Owned(s'.handlers, n)
      {
        var k :| k in s.handlers && Owns(s.handlers[k], n);
        assert AtStage(s, k);
        assert k in s'.handlers && Owns(s'.handlers[k], n);
      }
    }
  }

  /** Every temporary file is a live upload's, or the very file that was on the
      target under that name before the endpoint started: an upload that ends
      leaves none behind, even under a name where it found a stale one. */
  lemma NoTempLeftBehind(c: Config, ss: seq<State>, ls: seq<Label>, i: nat)
    requires IsRun(c, ss, ls) && FsShape(ss[0].fs) && i < |ss|
    ensures TempsOwned(ss[i], ss[0].fs.names)
  {
    var stale := ss[0].fs.names;
    forall s, l, s' | TempsOwned(s, stale) && StepOf(c)(s, l, s') ensures TempsOwned(s', stale) {
      StepTemps(c, s, l, stale);
    }
    ChainKeeps(StepOf(c), ss, ls, 0, i, (s: State) => TempsOwned(s, stale), (_: Label) => true);
  }

  // ---------- provenance ----------

  /** The step links `n` to `file`: a rename by a handler writing that member. */
  ghost predicate Commits(s: State, l: Label, n: Name, file: nat) {
    && l.Do? && l.a.Rename? && AtStage(s, l.h) && s.handlers[l.h].Writes() && MemberName(s.handlers[l.h]) == n
    && UploadName(s.handlers[l.h]) in s.fs.names && s.fs.names[UploadName(s.handlers[l.h])] == file
  }

  ghost predicate Linked(fs: Fs, n: Name, file: nat) {
    n in fs.names && fs.names[n] == file
  }

  lemma StepMember(c: Config, s: State, l: Label, n: Name, file: nat)
    requires Enabled(c, s, l) && n.file.Member? && Linked(Next(c, s, l).fs, n, file) && !Linked(s.fs, n, file)
    ensures Commits(s, l, n, file)
  {
    if !l.Do? {
      OtherStepFrame(c, s, l);
    }
  }

  /** A member entry comes to name a file only by a handler's rename. */
  lemma VisibleByRename(c: Config, ss: seq<State>, ls: seq<Label>, j: nat, n: Name, file: nat) returns (k: nat)
    requires IsRun(c, ss, ls) && j < |ss|
    requires n.file.Member? && Linked(ss[j].fs, n, file) && !Linked(ss[0].fs, n, file)
    ensures k < j && Commits(ss[k], ls[k], n, file)
  {
    k := ChainEntry(StepOf(c), ss, ls, j, (s: State) => Linked(s.fs, n, file));
    StepMember(c, ss[k], ls[k], n, file);
  }

  ghost predicate InDirectoryOf(s: State, h: nat, g: Grant, gen: OpenGen, ino: nat) {
    && AtStage(s, h) && s.handlers[h].grant == g && s.handlers[h].gen == gen
    && s.handlers[h].InDirectory() && s.handlers[h].stage.ino == ino
  }

  lemma DirectoryOrigin(c: Config, s: State, l: Label, h: nat, g: Grant, gen: OpenGen, ino: nat)
    requires Enabled(c, s, l) && InDirectoryOf(Next(c, s, l), h, g, gen, ino) && !InDirectoryOf(s, h, g, gen, ino)
    ensures l == Do(h, OpenDirs) && AtStage(s, h) && s.handlers[h].grant == g && s.handlers[h].gen == gen
    ensures gen.Place() in s.fs.dirs && s.fs.dirs[gen.Place()] == ino
  {
    if l.Do? {
      ActionOrigin(c, s, l.h, l.a, h);
    } else if l == Register(h) {
      AdmittedFor(s, h);
    } else {
      NoneAdmitted(c, s, l, h);
    }
  }

  /** The directory a handler works in is its generation's, as it found it. */
  lemma DirectoryOpenedEarlier(
    c: Config, ss: seq<State>, ls: seq<Label>, k: nat, h: nat, g: Grant, gen: OpenGen, ino: nat) returns (o: nat)
    requires IsRun(c, ss, ls) && k < |ss| && InDirectoryOf(ss[k], h, g, gen, ino)
    ensures o < k && ls[o] == Do(h, OpenDirs)
    ensures AtStage(ss[o], h) && ss[o].handlers[h].grant == g && ss[o].handlers[h].gen == gen
    ensures gen.Place() in ss[o].fs.dirs && ss[o].fs.dirs[gen.Place()] == ino
  {
    o := ChainEntry(StepOf(c), ss, ls, k, (s: State) => InDirectoryOf(s, h, g, gen, ino));
    DirectoryOrigin(c, ss[o], ls[o], h, g, gen, ino);
  }

  lemma HandlerOrigin(c: Config, s: State, l: Label, h: nat)
    requires Enabled(c, s, l) && h in Next(c, s, l).handlers
    ensures var x := Next(c, s, l).handlers[h];
            || (h in s.handlers && s.handlers[h].grant == x.grant)
            || (l.Authorize? && l.h == h && GrantOf(c, l) == Some(x.grant))
  {
  }

  lemma AuthorizedEarlier(c: Config, ss: seq<State>, ls: seq<Label>, k: nat, h: nat, g: Grant) returns (j: nat)
    requires IsRun(c, ss, ls) && k < |ss| && h in ss[k].handlers && ss[k].handlers[h].grant == g
    ensures j < k && ls[j].Authorize? && ls[j].h == h && GrantOf(c, ls[j]) == Some(g) && Enabled(c, ss[j], ls[j])
  {
    j := ChainEntry(StepOf(c), ss, ls, k, (s: State) => h in s.handlers && s.handlers[h].grant == g);
    HandlerOrigin(c, ss[j], ls[j], h);
  }

  lemma RegistrationOrigin(c: Config, s: State, l: Label, h: nat)
    requires Enabled(c, s, l) && AtStage(Next(c, s, l), h)
    ensures var x := Next(c, s, l).handlers[h];
            || (AtStage(s, h) && s.handlers[h].grant == x.grant && s.handlers[h].gen == x.gen)
            || (l == Register(h) && h in s.handlers && s.handlers[h].grant == x.grant && s.ctl.gen == Some(x.gen)
                && x.gen.id == x.grant.generation && x.gen.jobID == x.grant.jobID)
  {
    if l.Do? {
      ActionOrigin(c, s, l.h, l.a, h);
    } else if l == Register(h) {
      AdmittedFor(s, h);
    } else {
      NoneAdmitted(c, s, l, h);
    }
  }

  lemma NoneAdmitted(c: Config, s: State, l: Label, h: nat)
    requires Enabled(c, s, l) && !l.Do? && l != Register(h) && AtStage(Next(c, s, l), h)
    ensures AtStage(s, h) && s.handlers[h] == Next(c, s, l).handlers[h]
  {
  }

  lemma ActionOrigin(c: Config, s: State, k: nat, a: Action, h: nat)
    requires AtStage(s, k) && Able(c, s.handlers[k], s.fs, s.ctl.slots, a) && AtStage(AfterDo(c, s, k, a), h)
    ensures AtStage(s, h) && s.handlers[h].grant == AfterDo(c, s, k, a).handlers[h].grant
    ensures s.handlers[h].gen == AfterDo(c, s, k, a).handlers[h].gen
  {
  }

  lemma AdmittedFor(s: State, h: nat)
    requires h in s.handlers && s.handlers[h].Verified? && Admissible(s.ctl, s.handlers[h].grant) == Admit
    ensures s.ctl.gen.Some? && AtStage(AfterRegister(s, h), h)
    ensures var x := AfterRegister(s, h).handlers[h];
            && x.grant == s.handlers[h].grant && s.ctl.gen == Some(x.gen) && x.stage == Waiting
            && x.gen.id == x.grant.generation && x.gen.jobID == x.grant.jobID
  {
  }

  lemma RegisteredEarlier(c: Config, ss: seq<State>, ls: seq<Label>, k: nat, h: nat, g: Grant, gen: OpenGen)
    returns (a: nat)
    requires IsRun(c, ss, ls) && k < |ss| && AtStage(ss[k], h)
    requires ss[k].handlers[h].grant == g && ss[k].handlers[h].gen == gen
    ensures a < k && ls[a] == Register(h) && h in ss[a].handlers && ss[a].handlers[h].grant == g
    ensures ss[a].ctl.gen == Some(gen) && gen.id == g.generation && gen.jobID == g.jobID
  {
    a := ChainEntry(StepOf(c), ss, ls, k,
                    (s: State) => AtStage(s, h) && s.handlers[h].grant == g && s.handlers[h].gen == gen);
    RegistrationOrigin(c, ss[a], ls[a], h);
  }

  lemma MintOrigin(c: Config, s: State, l: Label, g: Grant)
    requires Enabled(c, s, l) && g in Next(c, s, l).minted && g !in s.minted
    ensures l.Mint? && g == Filled(c.wire, l.grant, l.ttl, l.now, l.nonce)
  {
  }

  lemma MintedEarlier(c: Config, ss: seq<State>, ls: seq<Label>, k: nat, g: Grant) returns (i: nat)
    requires IsRun(c, ss, ls) && k < |ss| && g in ss[k].minted
    ensures i < k && ls[i].Mint? && g == Filled(c.wire, ls[i].grant, ls[i].ttl, ls[i].now, ls[i].nonce)
  {
    i := ChainEntry(StepOf(c), ss, ls, k, (s: State) => g in s.minted);
    MintOrigin(c, ss[i], ls[i], g);
  }

  /** The three earlier steps a rename rests on: a mint of this very grant, its
      presentation by its own node before it expired, and a registration while
      its generation and run were open. */
  ghost predicate Provenance(c: Config, ss: seq<State>, ls: seq<Label>, g: Grant, h: nat, i: nat, j: nat, a: nat)
    requires |ss| == |ls| + 1
  {
    && i < j < a < |ls|
    && ls[i].Mint? && Asks(ls[i].grant, g) && ls[i].grant.use == ""
    && g.expiresAt == (ls[i].now + ls[i].ttl) / SECOND && g.nonce == c.wire.b64(ls[i].nonce)
    && ls[j].Authorize? && ls[j].h == h && ls[j].owner == g.nodeID && ls[j].now / SECOND < g.expiresAt
    && SplitIngestPath(ls[j].path) == Some((g.generation, g.member)) && GatePasses(ls[j].declared, g.maxBytes)
    && ls[a] == Register(h) && Names(ss[a].ctl.gen, g.generation) && ss[a].ctl.gen.value.jobID == g.jobID
  }

  lemma AuthorizeMeans(c: Config, s: State, l: Label, g: Grant)
    requires Lawful(c.wire) && l.Authorize? && Enabled(c, s, l) && GrantOf(c, l) == Some(g)
    ensures g in s.minted && l.owner == g.nodeID && l.now / SECOND < g.expiresAt && g.use == ""
    ensures SplitIngestPath(l.path) == Some((g.generation, g.member)) && GatePasses(l.declared, g.maxBytes)
  {
    assert Verify(c.wire, l.token, l.now) == Ok(g);
    VerifyInTime(c.wire, l.token, l.now);
    VerifiedWasMinted(c.wire, s.minted, l.token, l.now);
  }

  /** Every registered handler traces back to a mint for exactly its
      generation, member, node and run. */
  lemma HandlerTracesToMint(c: Config, ss: seq<State>, ls: seq<Label>, k: nat, h: nat) returns (i: nat, j: nat, a: nat)
    requires IsRun(c, ss, ls) && Lawful(c.wire) && k < |ss| && AtStage(ss[k], h)
    ensures a < k && Provenance(c, ss, ls, ss[k].handlers[h].grant, h, i, j, a)
    ensures ss[k].handlers[h].gen.id == ss[k].handlers[h].grant.generation
  {
    var g := ss[k].handlers[h].grant;
    a := RegisteredEarlier(c, ss, ls, k, h, g, ss[k].handlers[h].gen);
    j := AuthorizedEarlier(c, ss, ls, a, h, g);
    AuthorizeMeans(c, ss[j], ls[j], g);
    i := MintedEarlier(c, ss, ls, j, g);
    FilledIs(c.wire, ls[i].grant, ls[i].ttl, ls[i].now, ls[i].nonce);
  }

  /** No request is authorised by a restore credential, whatever it says of itself:
      the token of a grant minted for restoring never passes. */
  lemma RestoreRefused(c: Config, s: State, l: Label, g: Grant, ttl: int, mintedAt: int, nonce: string)
    requires Lawful(c.wire) && l.Authorize? && Credential.Mint(c.wire, g, ttl, mintedAt, nonce) == Ok(l.token)
    requires g.use != ""
    ensures !Enabled(c, s, l)
  {
    if Enabled(c, s, l) {
      var v := PresentedForUpload(c, s, l);
      VerifiedAsAsked(c.wire, g, ttl, mintedAt, nonce, l.now);
    }
  }

  lemma PresentedForUpload(c: Config, s: State, l: Label) returns (v: Grant)
    requires l.Authorize? && Enabled(c, s, l)
    ensures Verify(c.wire, l.token, l.now) == Ok(v) && v.ForUpload()
  {
    v := GrantOf(c, l).value;
  }

  /** In every run, every authorised request goes back to a mint for uploading, of
      the generation and member its path names and the node that presents it. */
  lemma AuthorizeTracesToMint(c: Config, ss: seq<State>, ls: seq<Label>, j: nat) returns (i: nat)
    requires IsRun(c, ss, ls) && Lawful(c.wire) && j < |ls| && ls[j].Authorize?
    ensures i < j && ls[i].Mint? && ls[i].grant.use == "" && ls[i].grant.nodeID == ls[j].owner
    ensures SplitIngestPath(ls[j].path) == Some((ls[i].grant.generation, ls[i].grant.member))
  {
    assert StepOf(c)(ss[j], ls[j], ss[j + 1]);
    var g := MintedFor(c, ss[j], ls[j]);
    i := MintedEarlier(c, ss, ls, j, g);
    FilledIs(c.wire, ls[i].grant, ls[i].ttl, ls[i].now, ls[i].nonce);
  }

  lemma MintedFor(c: Config, s: State, l: Label) returns (g: Grant)
    requires Lawful(c.wire) && l.Authorize? && Enabled(c, s, l)
    ensures g in s.minted && l.owner == g.nodeID && g.use == ""
    ensures SplitIngestPath(l.path) == Some((g.generation, g.member))
  {
    g := GrantOf(c, l).value;
    AuthorizeMeans(c, s, l, g);
  }

  /** Every member file that was not there under its name at the start was put
      there by the rename of a handler whose grant was minted for exactly that
      member, presented by its own node in time, and registered while its
      generation and run were open; and the directory it stands in is that
      generation's, as the handler found it. */
  lemma LandedTracesToMint(c: Config, ss: seq<State>, ls: seq<Label>, n: Name, last: nat)
    returns (h: nat, i: nat, j: nat, a: nat, o: nat, k: nat)
    requires IsRun(c, ss, ls) && Lawful(c.wire) && last < |ss|
    requires n.file.Member? && n in ss[last].fs.names && !Linked(ss[0].fs, n, ss[last].fs.names[n])
    ensures a < o < k < last && ls[o] == Do(h, OpenDirs) && ls[k] == Do(h, Rename) && AtStage(ss[k], h)
    ensures Commits(ss[k], ls[k], n, ss[last].fs.names[n]) && ss[k].handlers[h].grant.member == n.file.m
    ensures Provenance(c, ss, ls, ss[k].handlers[h].grant, h, i, j, a)
    ensures var gen := ss[k].handlers[h].gen;
            && gen.id == ss[k].handlers[h].grant.generation
            && gen.Place() in ss[o].fs.dirs && ss[o].fs.dirs[gen.Place()] == n.ino
  {
    k := VisibleByRename(c, ss, ls, last, n, ss[last].fs.names[n]);
    h := ls[k].h;
    var x := ss[k].handlers[h];
    o := DirectoryOpenedEarlier(c, ss, ls, k, h, x.grant, x.gen, n.ino);
    i, j, a := HandlerTracesToMint(c, ss, ls, o, h);
  }
}
