/** The mutex regions of the ingest endpoint as code (backupxfer/server.go). The
    ghost field is the state of the machine in module Ingest; every method is
    proved to take exactly the machine's step, and so to keep its invariant. */
module Endpoint {
  import opened Text
  import opened Members
  import opened Credential
  import opened Traces
  import opened Ingest
  import opened IngestSafety
  import opened IngestReach
  import opened IngestLimits

  const DEFAULT_CONCURRENCY := 1

  function Concurrency(wanted: int): nat {
    if wanted <= 0 then DEFAULT_CONCURRENCY else wanted
  }

  lemma GivenBack(c: Config, o: State, s: State, h: nat, t: State, u: State)
    requires Reaches(c, o, s) && AtStage(s, h)
    requires Steps(c, s, Do(h, Action.Release), t) && Steps(c, t, Do(h, Action.Unregister), u)
    ensures Reaches(c, o, u) && u.handlers == s.handlers - {h} && u.fs == s.fs
  {
    ReachStep(c, o, s, Do(h, Action.Release));
    ReachStep(c, o, t, Do(h, Action.Unregister));
  }

  lemma RecordedOnly(c: Config, s: State, h: nat, t: State)
    requires AtStage(s, h) && Steps(c, s, Do(h, Action.Record), t)
    ensures Reaches(c, s, t) && t.handlers - {h} == s.handlers - {h} && t.fs == s.fs
    ensures AtStage(t, h) && t.handlers[h].grant == s.handlers[h].grant && t.handlers[h].stage.Finished?
  {
    LeadsSelf(QuietStepOf(c), s);
    ReachStep(c, s, s, Do(h, Action.Record));
  }

  class Endpoint {
    const size: nat
    var gen: Option<OpenGen>
    var last: Option<OpenGen>
    var landed: map<string, Receipt>
    var inflight: set<string>
    var slots: nat

    ghost const c: Config
    ghost var state: State

    ghost function View(): Control
      reads this
    {
      Control(gen, last, landed, inflight, slots)
    }

    /** The fields are the machine's control part. */
    ghost predicate Valid()
      reads this
    {
      state.ctl == View() && c.slots == size
    }

    constructor (concurrency: int, ghost c: Config, ghost fs: Fs)
      requires c.slots == Concurrency(concurrency)
      ensures Valid() && this.c == c && size == if concurrency <= 0 then 1 else concurrency
      ensures Start(state) && state.fs == fs && (FsShape(fs) ==> Inv(c, state))
    {
      this.c, size := c, Concurrency(concurrency);
      gen, last, landed, inflight, slots := None, None, map[], {}, 0;
      state := State(INITIAL, map[], fs, {}, {});
      assert Slotted(map[]) == {} && Registered(map[]) == {};
    }

    /** The step `l` was taken, and kept the invariant. */
    ghost predicate Took(before: State, l: Label)
      reads this
    {
      Steps(c, before, l, state) && (Inv(c, before) && Quiet(before, l) ==> Inv(c, state))
    }

    /** Takes a step that the fields do not show, or, in the methods below, do. */
    ghost method Take(l: Label)
      requires Enabled(c, state, l)
      modifies this`state
      ensures Took(old(state), l)
    {
      if Inv(c, state) && Quiet(state, l) {
        StepKeepsInv(c, state, l);
      }
      state := Next(c, state, l);
    }

    /** `made` is whether the partial directory could be created and opened. */
    method Open(root: string, id: string, jobID: string, made: bool) returns (ok: bool)
      requires Valid()
      modifies this
      ensures Valid()
      ensures ok <==> && old(gen).None? && made && ValidName(id) && TrimSpace(jobID) != ""
                      && Paths.Absolute(root) && Paths.Clean(root) == root
      ensures if ok then Took(old(state), Label.Open(root, id, jobID)) else state == old(state)
    {
      ok := OpenShape(root, id, jobID);
      if ok {
        ok := OpenChecked(root, id, jobID, made);
      }
      if ok {
        Take(Label.Open(root, id, jobID));
      }
    }

    /** The locked half. */
    method OpenChecked(root: string, id: string, jobID: string, made: bool) returns (ok: bool)
      modifies this`gen, this`last, this`landed, this`inflight
      ensures ok <==> old(gen).None? && made
      ensures View() == if ok then Opened(old(View()), root, id, jobID) else old(View())
    {
      ok := gen.None? && made;
      if ok {
        gen := Some(OpenGen(id, jobID, root));
        last := None;
        landed := map[];
        inflight := {};
      }
    }

    method Close(id: string)
      requires Valid()
      modifies this
      ensures Valid() && Took(old(state), Label.Close(id))
    {
      Take(Label.Close(id));
      if gen.Some? && gen.value.id == id {
        last := gen;
        gen := None;
      }
    }

    /** The locked half of Abandon; `target` is the generation whose partial
        directory is then removed. */
    method Abandon(id: string) returns (target: Option<OpenGen>)
      requires Valid()
      modifies this
      ensures Valid() && Took(old(state), Label.Abandon(id)) && target == AbandonTarget(old(View()), id)
      ensures target.Some? ==> target.value.Place() in state.removing
    {
      Take(Label.Abandon(id));
      target := gen;
      if target.None? || target.value.id != id {
        target := last;
      }
      if gen.Some? && gen.value.id == id {
        gen := None;
      }
      if last.Some? && last.value.id == id {
        last := None;
      }
      if target.None? || target.value.id != id {
        target := None;
      }
    }

    /** What it answers is true of the target. */
    method Landed(id: string, member: string) returns (r: Option<Receipt>)
      requires Valid()
      ensures r == LandedOf(View(), id, member)
      ensures Inv(c, state) ==> Vouched(c, state, id, member)
    {
      if Inv(c, state) {
        InvHonest(c, state);
      }
      if gen.None? || gen.value.id != id {
        return None;
      }
      r := if member in landed then Some(landed[member]) else None;
    }

    /** Ingest.Mint: no credential for a generation that is not open. */
    method Mint(w: Wire, g: Grant, ttl: int, now: int, nonce: string) returns (r: Option<string>)
      requires Valid() && w == c.wire
      modifies this`state
      ensures Valid()
      ensures r.Some? <==> Names(gen, g.generation) && gen.value.jobID == g.jobID
                           && Credential.Mint(w, g, ttl, now, nonce).Ok?
      ensures r.Some? ==> Credential.Mint(w, g, ttl, now, nonce) == Ok(r.value)
      ensures if r.Some? then Took(old(state), Label.Mint(g, ttl, now, nonce)) else state == old(state)
    {
      if gen.None? || gen.value.id != g.generation || gen.value.jobID != g.jobID {
        return None;
      }
      var minted := Credential.Mint(w, g, ttl, now, nonce);
      if minted.Ok? {
        Take(Label.Mint(g, ttl, now, nonce));
      }
      r := if minted.Ok? then Some(minted.value) else None;
    }

    /** The first locked region of an upload: look, and register. */
    method Register(g: Grant, ghost h: nat) returns (a: Admission, captured: Option<OpenGen>)
      requires Valid() && h in state.handlers && state.handlers[h] == Verified(g)
      modifies this`inflight, this`state
      ensures Valid() && a == Admissible(old(View()), g)
      ensures captured == if a.Admit? then old(gen) else None
      ensures Took(old(state), if a.Admit? then Label.Register(h) else TurnAway(h))
    {
      captured := None;
      if gen.None? || gen.value.id != g.generation || gen.value.jobID != g.jobID {
        a := NoGeneration;
      } else if g.member in landed || g.member in inflight {
        a := MemberExists;
      } else {
        a := Admit;
        captured := gen;
      }
      Take(if a.Admit? then Label.Register(h) else TurnAway(h));
      if a.Admit? {
        inflight := inflight + {g.member};
      }
    }

    /** The semaphore send, when it does not block. */
    method TryAcquire(ghost h: nat) returns (ok: bool)
      requires Valid() && AtStage(state, h) && state.handlers[h].stage.Waiting?
      modifies this`slots, this`state
      ensures Valid() && (ok <==> Able(c, old(state).handlers[h], old(state).fs, old(slots), Acquire))
      ensures if ok then Took(old(state), Do(h, Acquire)) else state == old(state)
    {
      ok := slots < size;
      if ok {
        Take(Do(h, Acquire));
        slots := slots + 1;
      }
    }

    /** The receipt goes into whichever map is there now. */
    method Record(member: string, rc: Receipt, ghost h: nat)
      requires Valid() && AtStage(state, h) && state.handlers[h].grant.member == member
      requires state.handlers[h].stage.Renamed? && state.handlers[h].stage.rc == rc
      modifies this`landed, this`state
      ensures Valid() && Took(old(state), Do(h, Action.Record))
    {
      Take(Do(h, Action.Record));
      landed := landed[member := rc];
    }

    method Release(ghost h: nat)
      requires Valid() && AtStage(state, h) && state.handlers[h].stage.Finished?
      modifies this`slots, this`state
      ensures Valid() && Took(old(state), Do(h, Action.Release))
    {
      Take(Do(h, Action.Release));
      if slots > 0 {
        slots := slots - 1;
      }
    }

    method Unregister(member: string, ghost h: nat)
      requires Valid() && AtStage(state, h) && state.handlers[h].grant.member == member
      requires state.handlers[h].stage.Released?
      modifies this`inflight, this`state
      ensures Valid() && Took(old(state), Do(h, Action.Unregister))
    {
      Take(Do(h, Action.Unregister));
      inflight := inflight - {member};
    }

    /** How `serve` ends once `land` has returned: with a receipt, or without one
        and with nothing of the upload left on the target. Either way the slot and
        the registration are given back, and nothing else of the endpoint changes
        but the receipt. */
    method Finish(member: string, rc: Option<Receipt>, ghost h: nat)
      requires Valid() && Inv(c, state) && AtStage(state, h) && state.handlers[h].grant.member == member
      requires match rc
               case Some(r) => state.handlers[h].stage.Renamed? && state.handlers[h].stage.rc == r
               case None => state.handlers[h].stage.Finished?
      modifies this
      ensures Valid() && Inv(c, state) && Reaches(c, old(state), state)
      ensures h !in state.handlers && state.handlers == old(state).handlers - {h} && state.fs == old(state).fs
      ensures slots == old(slots) - 1 && inflight == old(inflight) - {member}
      ensures gen == old(gen) && last == old(last)
      ensures landed == if rc.Some? then old(landed)[member := rc.value] else old(landed)
    {
      ghost var start := state;
      LeadsSelf(QuietStepOf(c), state);
      if rc.Some? {
        Record(member, rc.value, h);
        RecordedOnly(c, start, h, state);
      }
      GiveBack(member, h, start);
    }

    /** The deferred calls, in the order they run. */
    method GiveBack(member: string, ghost h: nat, ghost o: State)
      requires Valid() && Inv(c, state) && AtStage(state, h) && state.handlers[h].grant.member == member
      requires state.handlers[h].stage.Finished? && Reaches(c, o, state)
      modifies this`slots, this`inflight, this`state
      ensures Valid() && Inv(c, state) && Reaches(c, o, state)
      ensures state.handlers == old(state).handlers - {h} && state.fs == old(state).fs
      ensures slots == old(slots) - 1 && inflight == old(inflight) - {member}
    {
      ghost var finished := state;
      HolderCounted(c, state.ctl, state.handlers, h);
      Release(h);
      ghost var released := state;
      Unregister(member, h);
      GivenBack(c, o, finished, h, released, state);
    }
  }
}
