/** The ingest endpoint as a machine over its atomic steps
    (backupxfer/server.go): the mutex-guarded fields, the upload slots, the
    target's file system, and any number of upload handlers interleaving with
    Open, Close and Abandon. */
module Ingest {
  import opened Text
  import opened Members
  import opened Credential
  import opened Traces
  import Paths

  // ---------- the fields behind the mutex ----------

  /** The partial directory of one generation under one generations directory. */
  datatype Dir = Dir(root: string, id: string)

  datatype OpenGen = OpenGen(id: string, jobID: string, root: string) {
    function Place(): Dir {
      Dir(root, id)
    }
  }

  datatype Receipt = Receipt(
    generation: string, member: string, nodeID: string, digest: string, bytes: nat, grantID: string)

  datatype Control = Control(
    gen: Option<OpenGen>, last: Option<OpenGen>,
    landed: map<string, Receipt>, inflight: set<string>, slots: nat)

  datatype Admission = Admit | NoGeneration | MemberExists

  const INITIAL := Control(None, None, map[], {}, 0)

  /** What Open asks of its arguments. */
  predicate OpenShape(root: string, id: string, jobID: string) {
    && Paths.Absolute(root) && Paths.Clean(root) == root
    && ValidName(id) && TrimSpace(jobID) != ""
  }

  predicate CanOpen(c: Control, root: string, id: string, jobID: string) {
    OpenShape(root, id, jobID) && c.gen.None?
  }

  function Opened(c: Control, root: string, id: string, jobID: string): Control {
    c.(gen := Some(OpenGen(id, jobID, root)), last := None, landed := map[], inflight := {})
  }

  predicate Names(g: Option<OpenGen>, id: string) {
    g.Some? && g.value.id == id
  }

  function Closed(c: Control, id: string): Control {
    if Names(c.gen, id) then c.(last := c.gen, gen := None) else c
  }

  function Abandoned(c: Control, id: string): Control {
    c.(gen := if Names(c.gen, id) then None else c.gen,
       last := if Names(c.last, id) then None else c.last)
  }

  /** The generation whose directory Abandon goes on to remove. */
  function AbandonTarget(c: Control, id: string): Option<OpenGen> {
    if Names(c.gen, id) then c.gen else if Names(c.last, id) then c.last else None
  }

  function LandedOf(c: Control, id: string, member: string): Option<Receipt> {
    if Names(c.gen, id) && member in c.landed then Some(c.landed[member]) else None
  }

  function Admissible(c: Control, g: Grant): Admission {
    if !Names(c.gen, g.generation) || c.gen.value.jobID != g.jobID then NoGeneration
    else if g.member in c.landed || g.member in c.inflight then MemberExists
    else Admit
  }

  function Recorded(c: Control, member: string, rc: Receipt): Control {
    c.(landed := c.landed[member := rc])
  }

  // ---------- the target's file system ----------

  /** The files `land` names below a partial directory: a member, and the
      temporary file it is written to. */
  datatype File = Member(m: string) | Upload(m: string)

  function PathOf(f: File): string
    requires ValidMember(f.m)
  {
    if f.Member? then f.m else TempPath(f.m)
  }

  /** Different files have different paths, so they can be told apart by what
      they are for. */
  lemma PathOfInjective(f: File, g: File)
    requires ValidMember(f.m) && ValidMember(g.m) && PathOf(f) == PathOf(g)
    ensures f == g
  {
    TempPathsApart(f.m, g.m);
    TempPathsApart(g.m, f.m);
  }

  /** A directory entry below the partial directory with inode `ino`. */
  datatype Name = Name(ino: nat, file: File)

  /** `names` links names to files, `data` holds each file's bytes; an unlinked
      file stays writable through an open handle. */
  datatype Fs = Fs(dirs: map<Dir, nat>, names: map<Name, nat>, data: map<nat, Bytes>, nextIno: nat, nextFile: nat)

  ghost function MakeDir(fs: Fs, d: Dir): Fs {
    if d in fs.dirs then fs else fs.(dirs := fs.dirs[d := fs.nextIno], nextIno := fs.nextIno + 1)
  }

  ghost function Unlink(fs: Fs, n: Name): Fs {
    fs.(names := fs.names - {n})
  }

  ghost function CreateFile(fs: Fs, n: Name): Fs {
    fs.(names := fs.names[n := fs.nextFile], data := fs.data[fs.nextFile := ""], nextFile := fs.nextFile + 1)
  }

  ghost function Append(fs: Fs, file: nat, b: Bytes): Fs {
    if file in fs.data then fs.(data := fs.data[file := fs.data[file] + b]) else fs
  }

  ghost function MoveName(fs: Fs, from: Name, to: Name): Fs {
    if from in fs.names then fs.(names := (fs.names - {from})[to := fs.names[from]]) else fs
  }

  // ---------- upload handlers ----------

  /** Where an admitted handler stands in `serve` and `land`. */
  datatype Stage =
    | Waiting                                      // registered, queued for a slot
    | Holding                                      // slot taken
    | InDir(ino: nat)                              // directories opened
    | Absent(ino: nat)                             // no member of that name there
    | Cleared(ino: nat)                            // stale temporary file unlinked
    | Writing(ino: nat, file: nat, sent: Bytes)    // temporary file created, body arriving
    | Settled(ino: nat, file: nat, sent: Bytes)    // body ended and the trailer agreed
    | Rechecked(ino: nat, file: nat, sent: Bytes)  // still no member of that name
    | Renamed(ino: nat, file: nat, rc: Receipt)    // member visible
    | Failing(ino: nat)                            // refused, temporary file to unlink
    | Finished                                     // slot to release
    | Released                                     // registration to delete

  datatype Handler =
    | Verified(grant: Grant)
    | Admitted(grant: Grant, gen: OpenGen, stage: Stage)
  {
    predicate HoldsSlot() {
      Admitted? && !stage.Waiting? && !stage.Released?
    }

    predicate Writes() {
      Admitted? && (stage.Writing? || stage.Settled? || stage.Rechecked?)
    }

    /** The member was checked absent and this handler has not committed it. */
    predicate Claims() {
      Writes() || (Admitted? && (stage.Absent? || stage.Cleared?))
    }

    predicate InDirectory() {
      Admitted? && (Claims() || stage.InDir? || stage.Renamed? || stage.Failing?)
    }
  }

  /** `archive` says that a body opens with a sealed archive's header line, ending
      before the byte bound. */
  datatype Config = Config(wire: Wire, hash: Bytes -> string, archive: (Bytes, nat) -> bool, slots: nat)

  datatype State = State(ctl: Control, handlers: map<nat, Handler>, fs: Fs, removing: set<Dir>, minted: set<Grant>)

  /** One atomic step of an admitted handler. */
  datatype Action =
    | Acquire | Leave
    | OpenDirs | CheckAbsent | UnlinkStale | Create
    | Write(b: Bytes) | Settle(digest: string, size: nat) | Recheck | Rename
    | Record | Fail | Cleanup | Release | Unregister

  datatype Label =
    | Mint(grant: Grant, ttl: int, now: int, nonce: string)
    | Open(root: string, id: string, jobID: string)
    | Close(id: string)
    | Abandon(id: string)
    | RemoveFile(dir: Dir, name: Name)
    | RemoveEnd(dir: Dir)
    | Authorize(h: nat, path: string, token: string, owner: string, declared: Option<nat>, now: int)
    | TurnAway(h: nat)
    | Register(h: nat)
    | Do(h: nat, a: Action)

  ghost predicate AtStage(s: State, h: nat) {
    h in s.handlers && s.handlers[h].Admitted?
  }

  // ---------- what one action does ----------

  ghost function MemberName(x: Handler): Name
    requires x.InDirectory()
  {
    Name(x.stage.ino, Member(x.grant.member))
  }

  ghost function UploadName(x: Handler): Name
    requires x.InDirectory()
  {
    Name(x.stage.ino, Upload(x.grant.member))
  }

  ghost predicate Alive(fs: Fs, ino: nat) {
    exists d :: d in fs.dirs && fs.dirs[d] == ino
  }

  /** The file-system and slot conditions under which the action succeeds; any
      other outcome of the call it stands for is `Fail`. */
  ghost predicate Able(c: Config, x: Handler, fs: Fs, slots: nat, a: Action)
    requires x.Admitted?
  {
    match a
    case Acquire => x.stage.Waiting? && slots < c.slots
    case Leave => x.stage.Waiting?
    case OpenDirs => x.stage.Holding? && x.gen.Place() in fs.dirs
    case CheckAbsent => x.stage.InDir? && MemberName(x) !in fs.names
    case UnlinkStale => x.stage.Absent?
    case Create => x.stage.Cleared? && Alive(fs, x.stage.ino) && UploadName(x) !in fs.names
    case Write(b) => x.stage.Writing? && |x.stage.sent| + |b| <= x.grant.maxBytes
    case Settle(digest, size) =>
      && x.stage.Writing? && c.archive(x.stage.sent, x.grant.maxBytes)
      && digest != "" && c.hash(x.stage.sent) == digest && |x.stage.sent| == size
    case Recheck => x.stage.Settled? && MemberName(x) !in fs.names
    case Rename => x.stage.Rechecked? && UploadName(x) in fs.names
    case Record => x.stage.Renamed?
    case Fail => x.Claims() || x.stage.InDir? || x.stage.Holding?
    case Cleanup => x.stage.Failing?
    case Release => x.stage.Finished?
    case Unregister => x.stage.Released?
  }

  ghost function ReceiptOf(c: Config, x: Handler): Receipt
    requires x.Writes()
  {
    Receipt(x.gen.id, x.grant.member, x.grant.nodeID, c.hash(x.stage.sent), |x.stage.sent|, x.grant.nonce)
  }

  ghost function StageAfter(c: Config, x: Handler, fs: Fs, slots: nat, a: Action): Stage
    requires x.Admitted? && Able(c, x, fs, slots, a)
  {
    match a
    case Acquire => Holding
    case Leave => Released
    case OpenDirs => InDir(fs.dirs[x.gen.Place()])
    case CheckAbsent => Absent(x.stage.ino)
    case UnlinkStale => Cleared(x.stage.ino)
    case Create => Writing(x.stage.ino, fs.nextFile, "")
    case Write(b) => Writing(x.stage.ino, x.stage.file, x.stage.sent + b)
    case Settle(_, _) => Settled(x.stage.ino, x.stage.file, x.stage.sent)
    case Recheck => Rechecked(x.stage.ino, x.stage.file, x.stage.sent)
    case Rename => Renamed(x.stage.ino, x.stage.file, ReceiptOf(c, x))
    case Record => Finished
    case Fail => if x.Writes() then Failing(x.stage.ino) else Finished
    case Cleanup => Finished
    case Release => Released
    case Unregister => x.stage
  }

  ghost function FsAfter(c: Config, x: Handler, fs: Fs, slots: nat, a: Action): Fs
    requires x.Admitted? && Able(c, x, fs, slots, a)
  {
    match a
    case UnlinkStale => Unlink(fs, UploadName(x))
    case Create => CreateFile(fs, UploadName(x))
    case Write(b) => Append(fs, x.stage.file, b)
    case Rename => MoveName(fs, UploadName(x), MemberName(x))
    case Cleanup => Unlink(fs, UploadName(x))
    case _ => fs
  }

  ghost function ControlAfter(c: Config, x: Handler, ctl: Control, fs: Fs, a: Action): Control
    requires x.Admitted? && Able(c, x, fs, ctl.slots, a)
  {
    match a
    case Acquire => ctl.(slots := ctl.slots + 1)
    case Record => Recorded(ctl, x.grant.member, x.stage.rc)
    case Release => ctl.(slots := if ctl.slots > 0 then ctl.slots - 1 else 0)
    case Unregister => ctl.(inflight := ctl.inflight - {x.grant.member})
    case _ => ctl
  }

  // ---------- the machine ----------

  function GrantOf(c: Config, l: Label): Option<Grant>
    requires l.Authorize?
  {
    match Verify(c.wire, l.token, l.now)
    case Ok(g) => Some(g)
    case Err(_) => None
  }

  /** The checks of `serve` before any shared state is read. */
  predicate Authorized(l: Label, g: Grant)
    requires l.Authorize?
  {
    && SplitIngestPath(l.path) == Some((g.generation, g.member))
    && TrimSpace(l.owner) != "" && TrimSpace(l.token) != ""
    && g.ForUpload() && MayPresent(g, l.owner)
    && GatePasses(l.declared, g.maxBytes)
  }

  ghost predicate Enabled(c: Config, s: State, l: Label) {
    match l
    case Mint(g, ttl, now, nonce) => Credential.Mint(c.wire, g, ttl, now, nonce).Ok?
    case Open(root, id, jobID) => CanOpen(s.ctl, root, id, jobID)
    case Close(_) => true
    case Abandon(_) => true
    case RemoveFile(d, n) => d in s.removing && d in s.fs.dirs && n in s.fs.names && n.ino == s.fs.dirs[d]
    case RemoveEnd(d) => d in s.removing
    case Authorize(h, _, token, _, _, _) =>
      && h !in s.handlers && Unforged(c.wire, s.minted, token)
      && GrantOf(c, l).Some? && Authorized(l, GrantOf(c, l).value)
    case TurnAway(h) => h in s.handlers && s.handlers[h].Verified?
    case Register(h) => h in s.handlers && s.handlers[h].Verified? && Admissible(s.ctl, s.handlers[h].grant) == Admit
    case Do(h, a) => AtStage(s, h) && Able(c, s.handlers[h], s.fs, s.ctl.slots, a)
  }

  ghost function AfterDo(c: Config, s: State, h: nat, a: Action): State
    requires AtStage(s, h) && Able(c, s.handlers[h], s.fs, s.ctl.slots, a)
  {
    var x := s.handlers[h];
    s.(ctl := ControlAfter(c, x, s.ctl, s.fs, a),
       fs := FsAfter(c, x, s.fs, s.ctl.slots, a),
       handlers := if a.Unregister? then s.handlers - {h}
                   else s.handlers[h := x.(stage := StageAfter(c, x, s.fs, s.ctl.slots, a))])
  }

  ghost function AfterAbandon(s: State, id: string): State {
    var t := AbandonTarget(s.ctl, id);
    s.(ctl := Abandoned(s.ctl, id), removing := if t.Some? then s.removing + {t.value.Place()} else s.removing)
  }

  /** The last act of Abandon: the directory goes only when it is empty;
      otherwise the removal reports and stops. */
  ghost function AfterRemoveEnd(s: State, d: Dir): State {
    var gone := d in s.fs.dirs && (forall n :: n in s.fs.names ==> n.ino != s.fs.dirs[d]);
    s.(removing := s.removing - {d}, fs := if gone then s.fs.(dirs := s.fs.dirs - {d}) else s.fs)
  }

  ghost function AfterAuthorize(s: State, h: nat, g: Option<Grant>): State {
    match g
    case None => s
    case Some(g) => s.(handlers := s.handlers[h := Verified(g)])
  }

  ghost function AfterRegister(s: State, h: nat): State
    requires h in s.handlers && s.handlers[h].Verified?
  {
    var g := s.handlers[h].grant;
    match s.ctl.gen
    case None => s
    case Some(gen) =>
      s.(ctl := s.ctl.(inflight := s.ctl.inflight + {g.member}),
         handlers := s.handlers[h := Admitted(g, gen, Waiting)])
  }

  ghost function Next(c: Config, s: State, l: Label): State
    requires Enabled(c, s, l)
  {
    match l
    case Mint(g, ttl, now, nonce) => s.(minted := s.minted + {Filled(c.wire, g, ttl, now, nonce)})
    case Open(root, id, jobID) => s.(ctl := Opened(s.ctl, root, id, jobID), fs := MakeDir(s.fs, Dir(root, id)))
    case Close(id) => s.(ctl := Closed(s.ctl, id))
    case Abandon(id) => AfterAbandon(s, id)
    case RemoveFile(d, n) => s.(fs := Unlink(s.fs, n))
    case RemoveEnd(d) => AfterRemoveEnd(s, d)
    case Authorize(h, _, _, _, _, _) => AfterAuthorize(s, h, GrantOf(c, l))
    case TurnAway(h) => s.(handlers := s.handlers - {h})
    case Register(h) => AfterRegister(s, h)
    case Do(h, a) => AfterDo(c, s, h, a)
  }

  ghost predicate Steps(c: Config, s: State, l: Label, s': State) {
    Enabled(c, s, l) && s' == Next(c, s, l)
  }

  /** A freshly built endpoint over any target. */
  ghost predicate Start(s: State) {
    s.ctl == INITIAL && s.handlers == map[] && s.removing == {} && s.minted == {}
  }

  ghost function StepOf(c: Config): (State, Label, State) -> bool {
    (s: State, l: Label, s': State) => Steps(c, s, l, s')
  }

  /** A run: any sequence of enabled steps from a fresh endpoint. */
  ghost predicate IsRun(c: Config, ss: seq<State>, ls: seq<Label>) {
    Chain(StepOf(c), ss, ls) && Start(ss[0])
  }
}
