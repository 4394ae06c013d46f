/**
 Who signed whom: starting from an empty Secret, every generated authority hangs on a
 finite chain of signers that ends in a self-signed root, and every signer was the newest
 authority of the attempt that used it.
 */
module CaAncestry {
  import opened SecretLayout
  import opened Rotation
  import opened CaProtocol

  /** `c` was generated here and is the one recorded under its key number. */
  predicate Known(ledger: seq<Entry>, c: Cert) {
    c.key.Local? && c.key.number < |ledger| && ledger[c.key.number].cert == c
  }

  /** The parent of a renewed authority: newest of the list its attempt had after filter and creation. */
  ghost predicate SignedByNewest(e: Entry) {
    && Valid(e.attempt)
    && e.cert.signer == Newest(e.attempt).key
    && Newest(e.attempt) in Seeded(e.attempt)
    && forall c :: c in Seeded(e.attempt) ==> c.notAfter <= Newest(e.attempt).notAfter
  }

  /** Entry `id` is a self-signed root, or was signed by an earlier entry that was the newest of its attempt. */
  ghost predicate EntryOk(ledger: seq<Entry>, id: nat)
    requires id < |ledger|
  {
    var e := ledger[id];
    && e.cert.key == Local(id)
    && e.cert.isCA
    && (e.cert.signer == Local(id) ||
        (&& SignedByNewest(e)
         && Known(ledger, Newest(e.attempt))
         && Newest(e.attempt).key.number < id))
  }

  ghost predicate DataKnown(ledger: seq<Entry>, data: Data) {
    forall c :: Holds(data, c) ==> Known(ledger, c)
  }

  ghost predicate AllKnown(ledger: seq<Entry>, cas: seq<Cert>) {
    forall c :: c in cas ==> Known(ledger, c)
  }

  ghost predicate ProcKnown(ledger: seq<Entry>, proc: Proc) {
    match proc
    case Ready(_, data, _, _) => DataKnown(ledger, data)
    case Proposed(_, _, data, _) => DataKnown(ledger, data)
    case _ => true
  }

  ghost predicate LedgerOk(ledger: seq<Entry>) {
    forall id :: 0 <= id < |ledger| ==> EntryOk(ledger, id)
  }

  ghost predicate LedgerInv(s: State) {
    && LedgerOk(s.ledger)
    && (forall k :: 0 <= k < |s.history| ==> DataKnown(s.ledger, s.history[k].data))
    && (forall p :: p in s.procs ==> ProcKnown(s.ledger, s.procs[p]))
  }

  lemma LayoutKnown(ledger: seq<Entry>, cas: seq<Cert>)
    requires AllKnown(ledger, cas) && AllCA(cas)
    ensures DataKnown(ledger, Layout(cas))
  {
    forall c | Holds(Layout(cas), c) ensures Known(ledger, c) { LayoutHolds(cas, c); }
  }

  lemma EntryOkMonotone(ledger: seq<Entry>, more: seq<Entry>, id: nat)
    requires id < |ledger| && EntryOk(ledger, id)
    ensures EntryOk(ledger + more, id)
  {
  }

  lemma NewestIsMaximal(a: Attempt)
    requires Valid(a)
    ensures Newest(a) in Seeded(a) && forall c :: c in Seeded(a) ==> c.notAfter <= Newest(a).notAfter
  {
    SameMembers(Seeded(a), a.sorted, Newest(a));
    forall c | c in Seeded(a) ensures c.notAfter <= Newest(a).notAfter {
      SameMembers(Seeded(a), a.sorted, c);
      LastIsNewest(a.sorted, c);
    }
  }

  lemma SeededKnown(ledger: seq<Entry>, a: Attempt, c: Cert)
    requires Valid(a) && a.id == |ledger| && AllKnown(ledger, a.loaded)
    requires c in Seeded(a)
    ensures Known(ledger + Entries(a), c) && c.key.number < |ledger| + |Seeded(a)|
    ensures Alive(a) != [] ==> c.key.number < |ledger|
    ensures Alive(a) == [] ==> c.key.number == |ledger|
  {
    if Alive(a) != [] {
      assert Known(ledger, c);
    } else {
      assert (ledger + Entries(a))[|ledger|] == Entries(a)[0];
    }
  }

  lemma NewEntryOk(ledger: seq<Entry>, a: Attempt, i: nat)
    requires Valid(a) && a.id == |ledger| && AllKnown(ledger, a.loaded)
    requires i < |Generated(a)|
    ensures EntryOk(ledger + Entries(a), |ledger| + i)
  {
    hide SortOf, Survivors;
    NewestIsMaximal(a);
    SeededKnown(ledger, a, Newest(a));
    assert (ledger + Entries(a))[|ledger| + i] == Entry(Generated(a)[i], a);
  }

  lemma OutKnown(ledger: seq<Entry>, a: Attempt, c: Cert)
    requires Valid(a) && a.id == |ledger| && AllKnown(ledger, a.loaded)
    requires c in a.out
    ensures Known(ledger + Entries(a), c)
  {
    hide SortOf, Survivors;
    OutMembers(a, c);
    if c in Alive(a) {
      SeededKnown(ledger, a, c);
    } else {
      var i :| 0 <= i < |Generated(a)| && Generated(a)[i] == c;
      assert (ledger + Entries(a))[|ledger| + i] == Entry(c, a);
    }
  }

  /** Recording what an attempt generated keeps the ledger in order. */
  lemma EntriesKeepLedger(ledger: seq<Entry>, a: Attempt)
    requires LedgerOk(ledger)
    requires Valid(a) && a.id == |ledger| && AllKnown(ledger, a.loaded)
    ensures LedgerOk(ledger + Entries(a)) && AllKnown(ledger + Entries(a), a.out)
  {
    hide EntryOk, Known, SortOf, Seeded, Renewal, Generated, Survivors, Ordered;
    forall id | 0 <= id < |ledger| + |Entries(a)| ensures EntryOk(ledger + Entries(a), id) {
      if id < |ledger| {
        EntryOkMonotone(ledger, Entries(a), id);
      } else {
        NewEntryOk(ledger, a, id - |ledger|);
      }
    }
    forall c | c in a.out ensures Known(ledger + Entries(a), c) { OutKnown(ledger, a, c); }
  }

  lemma DataKnownMonotone(ledger: seq<Entry>, more: seq<Entry>, data: Data)
    requires DataKnown(ledger, data)
    ensures DataKnown(ledger + more, data)
  {
    forall c | Holds(data, c) ensures Known(ledger + more, c) { assert Known(ledger, c); }
  }

  lemma ProcKnownMonotone(ledger: seq<Entry>, more: seq<Entry>, proc: Proc)
    requires ProcKnown(ledger, proc)
    ensures ProcKnown(ledger + more, proc)
  {
    if proc.Ready? || proc.Proposed? {
      DataKnownMonotone(ledger, more, proc.data);
    }
  }

  lemma ProposalKnown(ledger: seq<Entry>, a: Attempt)
    requires Valid(a) && AllKnown(ledger, a.out)
    ensures DataKnown(ledger, Layout(a.out))
  {
    OutAllCA(a);
    LayoutKnown(ledger, a.out);
  }

  lemma ComputeKeepsLedger(s: State, p: nat, stems: seq<string>, a: Attempt, s': State)
    requires LedgerInv(s) && Next(s, Compute(p, stems, a), s')
    ensures LedgerInv(s')
  {
    assert ProcKnown(s.ledger, s.procs[p]);
    forall c | c in a.loaded ensures Known(s.ledger, c) {
      LoadedExactlyHeld(s.procs[p].data, stems, a.loaded, c);
    }
    EntriesKeepLedger(s.ledger, a);
    ProposalKnown(s'.ledger, a);
    forall k | 0 <= k < |s'.history| ensures DataKnown(s'.ledger, s'.history[k].data) {
      DataKnownMonotone(s.ledger, Entries(a), s.history[k].data);
    }
    forall q | q in s'.procs ensures ProcKnown(s'.ledger, s'.procs[q]) {
      if q != p {
        ProcKnownMonotone(s.ledger, Entries(a), s.procs[q]);
      }
    }
  }

  lemma UpdateKeepsLedger(s: State, p: nat, acknowledged: bool, s': State)
    requires LedgerInv(s) && Next(s, Update(p, acknowledged), s')
    ensures LedgerInv(s')
  {
    assert ProcKnown(s.ledger, s.procs[p]);
    assert ProcKnown(s'.ledger, s'.procs[p]);
  }

  lemma StepKeepsLedger(s: State, step: Step, s': State)
    requires LedgerInv(s) && Next(s, step, s')
    ensures LedgerInv(s')
  {
    match step
    case Compute(p, stems, a) => ComputeKeepsLedger(s, p, stems, a, s');
    case Update(p, acknowledged) => UpdateKeepsLedger(s, p, acknowledged, s');
    case Create(p) =>
      assert ProcKnown(s.ledger, s.procs[p]);
    case Read(p, ver) =>
      assert ProcKnown(s'.ledger, s'.procs[p]);
    case _ =>
  }

  lemma {:induction false} RunKeepsLedger(states: seq<State>, steps: seq<Step>, n: nat)
    requires Run(states, steps) && n < |states| && StartsEmpty(states[0])
    ensures LedgerInv(states[n])
  {
    if n == 0 {
    } else {
      RunKeepsLedger(states, steps, n - 1);
      StepKeepsLedger(states[n - 1], steps[n - 1], states[n]);
    }
  }

  /** In every run from an empty Secret or none, key numbers are fresh, as a chain of retries needs. */
  lemma ComputedKeysBelow(states: seq<State>, steps: seq<Step>, n: nat)
    requires Run(states, steps) && n < |steps| && steps[n].Compute? && StartsEmpty(states[0])
    ensures KeysBelow(steps[n].attempt.loaded, steps[n].attempt.id)
  {
    hide Valid, Holds, LedgerOk;
    var s, a := states[n], steps[n].attempt;
    RunKeepsLedger(states, steps, n);
    assert Next(s, steps[n], states[n + 1]);
    var data := s.procs[steps[n].p].data;
    assert ProcKnown(s.ledger, s.procs[steps[n].p]);
    forall i | 0 <= i < |a.loaded| ensures Known(s.ledger, a.loaded[i]) {
      LoadedExactlyHeld(data, steps[n].stems, a.loaded, a.loaded[i]);
    }
  }

  /** `chain` climbs from the authority `id` to a self-signed root, signer by signer. */
  ghost predicate ClimbsToRoot(ledger: seq<Entry>, chain: seq<nat>, id: nat) {
    && chain != [] && chain[0] == id
    && (forall i :: 0 <= i < |chain| ==> chain[i] < |ledger|)
    && (forall i :: 0 <= i < |chain| - 1 ==>
          && ledger[chain[i]].cert.signer == Local(chain[i + 1])
          && SignedByNewest(ledger[chain[i]])
          && ledger[chain[i + 1]].cert == Newest(ledger[chain[i]].attempt))
    && ledger[chain[|chain| - 1]].cert.signer == Local(chain[|chain| - 1])
  }

  lemma {:induction false} ClimbLedger(ledger: seq<Entry>, id: nat) returns (chain: seq<nat>)
    requires LedgerOk(ledger) && id < |ledger|
    ensures ClimbsToRoot(ledger, chain, id)
    decreases id
  {
    hide SortOf, Seeded, Renewal;
    assert EntryOk(ledger, id);
    var e := ledger[id];
    if e.cert.signer == Local(id) {
      chain := [id];
    } else {
      var rest := ClimbLedger(ledger, Newest(e.attempt).key.number);
      chain := [id] + rest;
    }
  }

  /**
   Signing ancestry: in every run from an empty Secret or none, each authority in each committed
   version was generated here and climbs to a self-signed root in finitely many steps.
   */
  lemma SigningAncestry(states: seq<State>, steps: seq<Step>, n: nat, k: nat, ca: Cert) returns (chain: seq<nat>)
    requires Run(states, steps) && n < |states| && StartsEmpty(states[0])
    requires k < |states[n].history| && Holds(states[n].history[k].data, ca)
    ensures Known(states[n].ledger, ca)
    ensures ClimbsToRoot(states[n].ledger, chain, ca.key.number)
  {
    RunKeepsLedger(states, steps, n);
    assert DataKnown(states[n].ledger, states[n].history[k].data);
    chain := ClimbLedger(states[n].ledger, ca.key.number);
  }

  /** Each recorded authority was made by its attempt, which is over. */
  ghost predicate MadeInTime(s: State) {
    forall i :: 0 <= i < |s.ledger| ==>
                  var e := s.ledger[i];
                  WellTimed(e.attempt) && e.attempt.sorted != [] && MadeBy(e.attempt, e.cert) && e.attempt.r.renew <= s.clock
  }

  lemma GeneratedIsMade(a: Attempt, i: nat)
    requires Valid(a) && i < |Generated(a)|
    ensures MadeBy(a, Generated(a)[i])
  {
    hide SortOf, Survivors, CutFrom, Trunc, Ordered;
    TruncCuts(a.r.create + a.cfg.lifetime, a.cfg.grain);
    TruncCuts(a.r.renew + a.cfg.lifetime, a.cfg.grain);
  }

  lemma StepKeepsTimes(s: State, step: Step, s': State)
    requires MadeInTime(s) && Next(s, step, s')
    ensures MadeInTime(s')
  {
    hide SortOf, Seeded, Renewal, Survivors, Ordered, Generated, MadeBy, Loads, Layout;
    if step.Compute? {
      var a := step.attempt;
      forall i | 0 <= i < |Generated(a)| ensures MadeBy(a, Generated(a)[i]) {
        GeneratedIsMade(a, i);
      }
      assert forall i :: |s.ledger| <= i < |s'.ledger| ==> s'.ledger[i] == Entry(Generated(a)[i - |s.ledger|], a);
    }
  }

  lemma {:induction false} RunKeepsTimes(states: seq<State>, steps: seq<Step>, n: nat)
    requires Run(states, steps) && n < |states|
    ensures MadeInTime(states[n])
  {
    hide MadeInTime, Next;
    if n == 0 {
      NothingMade(states[0]);
    } else {
      RunKeepsTimes(states, steps, n - 1);
      StepKeepsTimes(states[n - 1], steps[n - 1], states[n]);
    }
  }

  lemma NothingMade(s: State)
    requires s.ledger == []
    ensures MadeInTime(s)
  {
  }

  /**
   From an empty Secret or none, every authority held at any time ends on a whole grain, at
   most one lifetime from now, if no manager is configured for more than `lifetime`.
   */
  lemma HeldEnds(states: seq<State>, steps: seq<Step>, n: nat, k: nat, ca: Cert, lifetime: int)
    requires Run(states, steps) && n < |states| && StartsEmpty(states[0])
    requires k < |states[n].history| && Holds(states[n].history[k].data, ca)
    requires forall i :: 0 <= i < |states[n].ledger| ==> states[n].ledger[i].attempt.cfg.lifetime <= lifetime
    ensures ca.notAfter <= states[n].clock + lifetime
    ensures Known(states[n].ledger, ca)
    ensures var a := states[n].ledger[ca.key.number].attempt;
            && a.cfg.grain > 0 && ca.notAfter % a.cfg.grain == 0
            && a.r.create + a.cfg.lifetime - a.cfg.grain < ca.notAfter <= a.r.renew + a.cfg.lifetime
  {
    hide Valid, Holds, LedgerOk, Ordered;
    RunKeepsLedger(states, steps, n);
    RunKeepsTimes(states, steps, n);
    assert DataKnown(states[n].ledger, states[n].history[k].data);
    CutBounds(states[n].ledger[ca.key.number].attempt, ca);
  }
}
