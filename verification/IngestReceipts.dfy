/** Where receipts come from (backupxfer/server.go): the rename, the two looks before
    it, and the mint behind it; and that a member is taken once. */
module IngestReceipts {
  import opened Credential
  import opened Traces
  import opened Ingest
  import opened IngestRuns

  // ---------- the receipt and its rename ----------

  ghost predicate Has(s: State, m: string, rc: Receipt) {
    m in s.ctl.landed && s.ctl.landed[m] == rc
  }

  lemma RecordOrigin(c: Config, s: State, l: Label, m: string, rc: Receipt)
    requires Enabled(c, s, l) && Has(Next(c, s, l), m, rc) && !Has(s, m, rc)
    ensures l.Do? && l.a.Record? && AtStage(s, l.h) && s.handlers[l.h].grant.member == m
    ensures s.handlers[l.h].stage.Renamed? && s.handlers[l.h].stage.rc == rc
  {
  }

  ghost predicate Committed(s: State, h: nat, g: Grant, gen: OpenGen, rc: Receipt) {
    && AtStage(s, h) && s.handlers[h].grant == g && s.handlers[h].gen == gen
    && s.handlers[h].stage.Renamed? && s.handlers[h].stage.rc == rc
  }

  lemma RenameOrigin(c: Config, s: State, l: Label, h: nat, g: Grant, gen: OpenGen, rc: Receipt)
    requires Enabled(c, s, l) && Committed(Next(c, s, l), h, g, gen, rc) && !Committed(s, h, g, gen, rc)
    ensures l == Do(h, Rename) && AtStage(s, h) && s.handlers[h].grant == g && s.handlers[h].gen == gen
    ensures s.handlers[h].stage.Rechecked?
    ensures var sent := s.handlers[h].stage.sent;
            rc == Receipt(gen.id, g.member, g.nodeID, c.hash(sent), |sent|, g.nonce)
  {
    if l.Do? {
      ActionOrigin(c, s, l.h, l.a, h);
    } else if l == Register(h) {
      AdmittedFor(s, h);
    } else {
      NoneAdmitted(c, s, l, h);
    }
  }

  /** In every run, whatever receipt the endpoint holds for a member was made by the
      rename of a handler, for what it had written, and names the node and the
      credential of a mint for that member. */
  lemma ReceiptTracesToMint(c: Config, ss: seq<State>, ls: seq<Label>, last: nat, m: string)
    returns (h: nat, k: nat, i: nat)
    requires IsRun(c, ss, ls) && Lawful(c.wire) && last < |ss| && m in ss[last].ctl.landed
    ensures i < k < last && ls[k] == Do(h, Rename) && AtStage(ss[k], h) && ss[k].handlers[h].Writes()
    ensures ls[i].Mint? && ls[i].grant.member == m && ls[i].grant.use == ""
    ensures var sent := ss[k].handlers[h].stage.sent;
            ss[last].ctl.landed[m] ==
            Receipt(ls[i].grant.generation, m, ls[i].grant.nodeID, c.hash(sent), |sent|, c.wire.b64(ls[i].nonce))
  {
    var rc := ss[last].ctl.landed[m];
    var r := ChainEntry(StepOf(c), ss, ls, last, (s: State) => Has(s, m, rc));
    RecordOrigin(c, ss[r], ls[r], m, rc);
    h := ls[r].h;
    k := RenamedEarlier(c, ss, ls, r, h, rc);
    var j, a;
    i, j, a := HandlerTracesToMint(c, ss, ls, k, h);
  }

  lemma RenamedEarlier(c: Config, ss: seq<State>, ls: seq<Label>, r: nat, h: nat, rc: Receipt) returns (k: nat)
    requires IsRun(c, ss, ls) && r < |ss| && AtStage(ss[r], h)
    requires ss[r].handlers[h].stage.Renamed? && ss[r].handlers[h].stage.rc == rc
    ensures k < r && ls[k] == Do(h, Rename) && AtStage(ss[k], h) && ss[k].handlers[h].stage.Rechecked?
    ensures var x := ss[k].handlers[h];
            && x.grant == ss[r].handlers[h].grant && x.gen == ss[r].handlers[h].gen
            && rc == Receipt(x.gen.id, x.grant.member, x.grant.nodeID,
                             c.hash(x.stage.sent), |x.stage.sent|, x.grant.nonce)
  {
    var g, gen := ss[r].handlers[h].grant, ss[r].handlers[h].gen;
    k := ChainEntry(StepOf(c), ss, ls, r, (s: State) => Committed(s, h, g, gen, rc));
    RenameOrigin(c, ss[k], ls[k], h, g, gen, rc);
  }

  // ---------- the look before the rename ----------

  lemma RecheckOrigin(c: Config, s: State, l: Label, h: nat, x: Handler)
    requires x.Admitted? && x.stage.Rechecked? && Enabled(c, s, l)
    requires h in Next(c, s, l).handlers && Next(c, s, l).handlers[h] == x && !(h in s.handlers && s.handlers[h] == x)
    ensures l == Do(h, Recheck) && MemberName(x) !in s.fs.names
  {
    if l.Do? {
      ActionOrigin(c, s, l.h, l.a, h);
    } else if l == Register(h) {
      AdmittedFor(s, h);
    } else {
      NoneAdmitted(c, s, l, h);
    }
  }

  /** In every run, however generations are opened, a rename follows a second look
      that found no member of that name there. */
  lemma RenameAfterRecheck(c: Config, ss: seq<State>, ls: seq<Label>, k: nat, h: nat) returns (j: nat)
    requires IsRun(c, ss, ls) && k < |ls| && ls[k] == Do(h, Rename)
    ensures AtStage(ss[k], h) && ss[k].handlers[h].Writes()
    ensures j < k && ls[j] == Do(h, Recheck) && MemberName(ss[k].handlers[h]) !in ss[j].fs.names
  {
    assert StepOf(c)(ss[k], ls[k], ss[k + 1]);
    RenameEnabled(c, ss[k], h);
    var x := ss[k].handlers[h];
    j := RecheckedEarlier(c, ss, ls, k, h, x);
  }

  lemma RenameEnabled(c: Config, s: State, h: nat)
    requires Enabled(c, s, Do(h, Rename))
    ensures AtStage(s, h) && s.handlers[h].stage.Rechecked?
  {
  }

  lemma RecheckedEarlier(c: Config, ss: seq<State>, ls: seq<Label>, k: nat, h: nat, x: Handler) returns (j: nat)
    requires IsRun(c, ss, ls) && k < |ss| && h in ss[k].handlers && ss[k].handlers[h] == x
    requires x.Admitted? && x.stage.Rechecked?
    ensures j < k && ls[j] == Do(h, Recheck) && MemberName(x) !in ss[j].fs.names
  {
    j := ChainEntry(StepOf(c), ss, ls, k, (s: State) => h in s.handlers && s.handlers[h] == x);
    RecheckOrigin(c, ss[j], ls[j], h, x);
  }

  // ---------- once ----------

  lemma StepKeepsReceipts(c: Config, s: State, l: Label, m: string)
    requires Enabled(c, s, l) && m in s.ctl.landed && !l.Open?
    ensures m in Next(c, s, l).ctl.landed
  {
  }

  /** A member with a receipt is not taken again until another Open: no upload of it
      is registered. */
  lemma TakenOnce(c: Config, ss: seq<State>, ls: seq<Label>, i: nat, k: nat, m: string, h: nat)
    requires Chain(StepOf(c), ss, ls) && i <= k < |ls| && m in ss[i].ctl.landed
    requires (forall j :: i <= j < k ==> !ls[j].Open?) && ls[k] == Register(h)
    ensures h in ss[k].handlers && ss[k].handlers[h].grant.member != m
  {
    forall s: State, l: Label, s': State | m in s.ctl.landed && !l.Open? && StepOf(c)(s, l, s')
      ensures m in s'.ctl.landed
    {
      StepKeepsReceipts(c, s, l, m);
    }
    ChainKeeps(StepOf(c), ss, ls, i, k, (s: State) => m in s.ctl.landed, (l: Label) => !l.Open?);
    assert StepOf(c)(ss[k], ls[k], ss[k + 1]);
  }
}
