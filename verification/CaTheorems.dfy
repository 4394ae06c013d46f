/**
 What holds of whole runs of the certificate managers: live authorities stay trusted,
 no update is lost, and a store that started empty stays small.
 */
module CaTheorems {
  import opened Sequences
  import opened SecretLayout
  import opened Rotation
  import opened Selection
  import opened CaProtocol

  // ----- Trust continuity

  /** The step from one version to the next keeps what is live. */
  lemma LinkKeepsLive(u: Version, v: Version, ca: Cert)
    requires Linked(u, v) && Holds(u.data, ca)
    requires FilterEnd(v.origin.value.r) <= ca.notAfter
    ensures Holds(v.data, ca)
  {
    var a := v.origin.value;
    var stems :| Loads(u.data, stems, a.loaded);
    LoadedExactlyHeld(u.data, stems, a.loaded, ca);
    LiveIsKept(a, ca);
    OutAllCA(a);
    LayoutHolds(a.out, ca);
  }

  /** The expiry filter behind version `k` ran no later than `t`. */
  ghost predicate FilteredBy(history: seq<Version>, k: nat, t: int)
    requires k < |history|
  {
    history[k].origin.Some? && FilterEnd(history[k].origin.value.r) <= t
  }

  lemma FilterEndsIncrease(s: State, k: nat, t: int)
    requires HistoryOk(s) && 2 <= k < |s.history| && FilteredBy(s.history, k, t)
    ensures FilteredBy(s.history, k - 1, t)
  {
    assert LinkedAt(s.history, k - 1) && LinkedAt(s.history, k);
    FirstBeforeRenew(s.history[k - 1].origin.value);
    FirstBeforeRenew(s.history[k].origin.value);
  }

  lemma {:induction false} ContinuityInHistory(s: State, i: nat, j: nat, ca: Cert)
    requires HistoryOk(s) && i < j < |s.history|
    requires Holds(s.history[i].data, ca) && FilteredBy(s.history, j, ca.notAfter)
    ensures Holds(s.history[j].data, ca)
    decreases j
  {
    hide Valid, Layout, LoadsSomehow, Holds;
    if i < j - 1 {
      FilterEndsIncrease(s, j, ca.notAfter);
      ContinuityInHistory(s, i, j - 1, ca);
    }
    assert LinkedAt(s.history, j);
    LinkKeepsLive(s.history[j - 1], s.history[j], ca);
  }

  /**
   Trust continuity: in every run, whatever the interleaving, staleness, conflicts and
   retries, an authority in one committed version is in every later one whose expiry filter
   ran no later than the authority's end.
   */
  lemma TrustContinuity(states: seq<State>, steps: seq<Step>, n: nat, i: nat, j: nat, ca: Cert)
    requires Run(states, steps) && n < |states|
    requires i < j < |states[n].history|
    requires Holds(states[n].history[i].data, ca)
    ensures states[n].history[j].origin.Some?
    ensures FilterEnd(states[n].history[j].origin.value.r) <= ca.notAfter ==> Holds(states[n].history[j].data, ca)
  {
    RunKeepsInv(states, steps, n);
    var s := states[n];
    assert LinkedAt(s.history, j);
    if FilterEnd(s.history[j].origin.value.r) <= ca.notAfter {
      ContinuityInHistory(s, i, j, ca);
    }
  }

  lemma SuccessIsCommitted(states: seq<State>, steps: seq<Step>, x: nat, n: nat, p: nat)
    requires Run(states, steps) && x <= n < |states|
    requires p in states[x].procs && states[x].procs[p].Succeeded?
    ensures var Succeeded(ver, a) := states[x].procs[p];
            && 1 <= ver < |states[n].history| && Valid(a)
            && states[n].history[ver] == Version(Layout(a.out), Some(a))
  {
    RunKeepsInv(states, steps, x);
    HistoryGrows(states, steps, x, n);
    assert ProcOk(states[x], states[x].procs[p]);
    var ver := states[x].procs[p].ver;
    assert LinkedAt(states[x].history, ver);
  }

  /**
   The authority a successful manager selected is among the trust anchors of every manager
   that commits a later version while that authority is live.
   */
  lemma SelectedStaysTrusted(states: seq<State>, steps: seq<Step>,
                             x: nat, p: nat, at: int, y: nat, q: nat, start: int)
    requires Run(states, steps) && x < |states| && y < |states|
    requires p in states[x].procs && states[x].procs[p].Succeeded?
    requires q in states[y].procs && states[y].procs[q].Succeeded?
    requires states[x].procs[p].ver < states[y].procs[q].ver
    requires Kept(states[x].procs[p].attempt.out, at) != []
    requires start <= First(states[y].procs[q].attempt.r)
    requires FilterEnd(states[y].procs[q].attempt.r) <= Kept(states[x].procs[p].attempt.out, at)[0].notAfter
    ensures Kept(states[x].procs[p].attempt.out, at)[0] in Kept(states[y].procs[q].attempt.out, start)
    ensures var b := states[y].procs[q].attempt;
            b.cfg.lifetime >= b.cfg.grain - 1 ==> Kept(b.out, start) == b.out
  {
    var n := if x < y then y else x;
    var Succeeded(i, a) := states[x].procs[p];
    var Succeeded(j, b) := states[y].procs[q];
    var ca := Kept(a.out, at)[0];
    SuccessIsCommitted(states, steps, x, n, p);
    SuccessIsCommitted(states, steps, y, n, q);
    KeptMembers(a.out, at, ca);
    OutAllCA(a);
    LayoutHolds(a.out, ca);
    TrustContinuity(states, steps, n, i, j, ca);
    OutAllCA(b);
    LayoutHolds(b.out, ca);
    FirstBeforeRenew(b);
    KeptMembers(b.out, start, ca);
    if b.cfg.lifetime >= b.cfg.grain - 1 {
      NothingDeleted(b, start);
    }
  }

  /**
   A renewed authority is published before it signs: as long as some authority survived the
   filter, the one selected was already in the version the attempt started from.
   */
  lemma SelectedWasPublishedBefore(a: Attempt, start: int)
    requires Valid(a) && start <= First(a.r)
    requires a.cfg.lifetime >= a.cfg.grain - 1 && Gap(a.cfg) >= 1
    requires Alive(a) != []
    ensures Kept(a.out, start) != [] && Kept(a.out, start)[0] in a.loaded
  {
    NothingDeleted(a, start);
    OutLength(a);
    OutMembers(a, a.out[0]);
    if a.out[0] in Generated(a) {
      SameMembers(Renewal(a), a.out, Newest(a));
    }
  }

  // ----- No lost update

  /** `step` applied a write. */
  predicate Commits(s: State, step: Step) {
    step.Update? && step.p in s.procs && s.procs[step.p].Proposed? && 0 <= s.procs[step.p].ver == |s.history| - 1
  }

  /**
   No lost update: a write that applies is the first attempt of its construction, carries the
   current version, and was computed from exactly the data it replaces; and the only other
   way the history changes is the creation of the empty Secret.
   */
  lemma NoLostUpdate(states: seq<State>, steps: seq<Step>, n: nat)
    requires Run(states, steps) && n < |steps|
    ensures states[n + 1].history != states[n].history ==>
              Commits(states[n], steps[n]) || (steps[n].Create? && states[n].history == [])
    ensures Commits(states[n], steps[n]) ==>
              var s, a := states[n], states[n].procs[steps[n].p].attempt;
              && s.procs[steps[n].p].tries == MAX_TRIES
              && LoadsSomehow(s.history[|s.history| - 1].data, a.loaded)
              && states[n + 1].history == s.history + [Version(Layout(a.out), Some(a))]
  {
    hide Valid, Layout, Loads;
    RunKeepsInv(states, steps, n);
    assert Next(states[n], steps[n], states[n + 1]);
    if Commits(states[n], steps[n]) {
      WriteIsLinked(states[n], steps[n].p);
    }
  }

  /** Every version is replaced by at most one write, the empty one included. */
  lemma OneWriterPerVersion(states: seq<State>, steps: seq<Step>, i: nat, j: nat)
    requires Run(states, steps) && i < j < |steps|
    requires Commits(states[i], steps[i]) && Commits(states[j], steps[j])
    ensures states[i].procs[steps[i].p].ver < states[j].procs[steps[j].p].ver
  {
    NoLostUpdate(states, steps, i);
    HistoryGrows(states, steps, i + 1, j);
  }

  /** The manager has met a conflict in its current construction, or is done with it. */
  predicate Behind(s: State, p: nat) {
    p in s.procs ==>
      match s.procs[p]
      case Ready(_, _, _, tries) => tries < MAX_TRIES
      case Proposed(_, _, _, tries) => tries < MAX_TRIES
      case Succeeded(_, _) => false
      case Failed => true
  }

  lemma BehindStaysBehind(s: State, step: Step, s': State, p: nat)
    requires Inv(s) && Next(s, step, s') && Behind(s, p)
    requires !(step.Read? && step.p == p)
    ensures Behind(s', p)
    ensures !(Commits(s, step) && step.p == p)
  {
    hide Valid, Layout, LoadsSomehow, Loads;
    if p in s.procs {
      assert ProcOk(s, s.procs[p]);
    }
  }

  lemma {:induction false} BehindUntilRead(states: seq<State>, steps: seq<Step>, i: nat, j: nat, p: nat)
    requires Run(states, steps) && i <= j < |states|
    requires Behind(states[i], p)
    requires forall k :: i <= k < j ==> !(steps[k].Read? && steps[k].p == p)
    ensures Behind(states[j], p)
    decreases j
  {
    if i < j {
      BehindUntilRead(states, steps, i, j - 1, p);
      RunKeepsInv(states, steps, j - 1);
      BehindStaysBehind(states[j - 1], steps[j - 1], states[j], p);
    }
  }

  /** After one conflict, every later write of the same construction conflicts as well. */
  lemma ConflictIsFinal(states: seq<State>, steps: seq<Step>, i: nat, j: nat, p: nat)
    requires Run(states, steps) && i < j < |steps|
    requires steps[i].Update? && steps[i].p == p && !Commits(states[i], steps[i])
    requires forall k :: i < k <= j ==> !(steps[k].Read? && steps[k].p == p)
    ensures !(Commits(states[j], steps[j]) && steps[j].p == p)
  {
    RunKeepsInv(states, steps, i);
    assert Next(states[i], steps[i], states[i + 1]);
    assert ProcOk(states[i], states[i].procs[p]);
    BehindUntilRead(states, steps, i + 1, j, p);
    RunKeepsInv(states, steps, j);
    BehindStaysBehind(states[j], steps[j], states[j + 1], p);
  }

  /** How many writes `p` tries in the steps from `i` up to `j`. */
  function WritesBy(steps: seq<Step>, i: nat, j: nat, p: nat): (n: nat)
    requires i <= j <= |steps|
  {
    if i == j then 0
    else WritesBy(steps, i, j - 1, p) + if steps[j - 1].Update? && steps[j - 1].p == p then 1 else 0
  }

  function TriesLeft(s: State, p: nat): (n: nat) {
    if p in s.procs && (s.procs[p].Ready? || s.procs[p].Proposed?) then s.procs[p].tries else 0
  }

  /** A manager that is not done has a try left. */
  predicate HasTry(s: State, p: nat) {
    p in s.procs && (s.procs[p].Ready? || s.procs[p].Proposed?) ==> s.procs[p].tries >= 1
  }

  lemma WriteUsesTry(s: State, step: Step, s': State, p: nat)
    requires HasTry(s, p) && Next(s, step, s') && !(step.Read? && step.p == p)
    ensures HasTry(s', p)
    ensures TriesLeft(s', p) + (if step.Update? && step.p == p then 1 else 0) <= TriesLeft(s, p)
  {
    hide Valid, Loads, Layout, Entries;
  }

  /** After reading the Secret a manager tries at most five writes, conflicts and all. */
  lemma {:induction false} AtMostFiveWrites(states: seq<State>, steps: seq<Step>, i: nat, j: nat, p: nat)
    requires Run(states, steps) && i < j <= |steps| && steps[i].Read? && steps[i].p == p
    requires forall k :: i < k < j ==> !(steps[k].Read? && steps[k].p == p)
    ensures WritesBy(steps, i + 1, j, p) + TriesLeft(states[j], p) <= 5
    ensures HasTry(states[j], p)
  {
    hide TriesLeft, HasTry, Next, Init;
    assert Next(states[j - 1], steps[j - 1], states[j]);
    if j == i + 1 {
      ReadGivesFive(states[i], steps[i], states[j]);
    } else {
      AtMostFiveWrites(states, steps, i, j - 1, p);
      WriteUsesTry(states[j - 1], steps[j - 1], states[j], p);
    }
  }

  lemma ReadGivesFive(s: State, step: Step, s': State)
    requires step.Read? && Next(s, step, s')
    ensures TriesLeft(s', step.p) == 5 && HasTry(s', step.p)
  {
  }

  /** A self-signed authority made at time zero, and the attempts that make it and keep it. */
  function FirstAttempt(cfg: Config, id: nat): (a: Attempt)
    requires cfg.grain > 0
  {
    var root := SelfSigned(cfg, 0, id);
    Attempt(cfg, [], Readings([], 0, 0, 0), id, [root], [root])
  }

  function SecondAttempt(cfg: Config, made: nat, id: nat): (a: Attempt)
    requires cfg.grain > 0
  {
    var root := SelfSigned(cfg, 0, made);
    Attempt(cfg, [root], Readings([0], 0, 0, 0), id, [root], [root])
  }

  lemma FirstAttemptValid(cfg: Config, id: nat)
    requires cfg.grain > 0 && UpperHalf(cfg.lifetime) >= cfg.grain
    ensures Valid(FirstAttempt(cfg, id)) && Generated(FirstAttempt(cfg, id)) == [SelfSigned(cfg, 0, id)]
  {
  }

  lemma SecondAttemptValid(cfg: Config, made: nat, id: nat)
    requires cfg.grain > 0 && cfg.lifetime >= 0 && UpperHalf(cfg.lifetime) >= cfg.grain
    ensures Valid(SecondAttempt(cfg, made, id)) && Generated(SecondAttempt(cfg, made, id)) == []
  {
    RootLasts(cfg, made);
    hide Valid, Generated, SelfSigned;
    var a := SingleQuiet(cfg, SelfSigned(cfg, 0, made), 0, id);
  }

  lemma RootLasts(cfg: Config, made: nat)
    requires cfg.grain > 0 && UpperHalf(cfg.lifetime) >= cfg.grain
    ensures Half(cfg.lifetime) <= SelfSigned(cfg, 0, made).notAfter && SelfSigned(cfg, 0, made).isCA
  {
  }

  lemma EmptyLoads()
    ensures Loads(map[], [], [])
  {
  }

  /** Two managers read version zero, both compute, and the second to write is refused twice. */
  lemma ConflictRun(a: Attempt, b: Attempt, c: Attempt, stems: seq<string>)
    returns (states: seq<State>, steps: seq<Step>)
    requires Valid(a) && Valid(b) && Valid(c)
    requires a.id == 0 && b.id == |Generated(a)| && c.id == |Generated(a)| + |Generated(b)|
    requires forall x <- [a, b, c] :: First(x.r) == x.r.renew == 0
    requires Loads(map[], [], a.loaded) && Loads(map[], [], b.loaded) && Loads(Layout(b.out), stems, c.loaded)
    ensures Run(states, steps) && |steps| == 8
    ensures steps[5] == steps[7] == Update(1, true) && steps[6].Compute?
    ensures !Commits(states[5], steps[5]) && !Commits(states[7], steps[7])
  {
    hide SortOf, Seeded, Renewal, Survivors, Ordered, AllCA, Loads, Layout, Generated, Entries, First;
    assert a in [a, b, c] && b in [a, b, c] && c in [a, b, c];
    var s0 := State([Version(map[], None)], 0, [], map[]);
    var s1 := s0.(procs := s0.procs[0 := Ready(0, map[], 0, MAX_TRIES)]);
    var s2 := s1.(procs := s1.procs[1 := Ready(0, map[], 0, MAX_TRIES)]);
    var s3 := s2.(ledger := s2.ledger + Entries(a), procs := s2.procs[0 := Proposed(0, a, Layout(a.out), MAX_TRIES)]);
    var s4 := s3.(ledger := s3.ledger + Entries(b), procs := s3.procs[1 := Proposed(0, b, Layout(b.out), MAX_TRIES)]);
    var s5 := AfterUpdate(s4, 0, true);
    var s6 := AfterUpdate(s5, 1, true);
    var s7 := s6.(ledger := s6.ledger + Entries(c),
                  procs := s6.procs[1 := Proposed(0, c, Layout(c.out), MAX_TRIES - 1)]);
    var s8 := AfterUpdate(s7, 1, true);
    states := [s0, s1, s2, s3, s4, s5, s6, s7, s8];
    steps := [Read(0, 0), Read(1, 0), Compute(0, [], a), Compute(1, [], b), Update(0, true), Update(1, true),
              Compute(1, stems, c), Update(1, true)];
    assert Next(s0, steps[0], s1) && Next(s1, steps[1], s2) && Next(s2, steps[2], s3) && Next(s3, steps[3], s4);
    assert Next(s4, steps[4], s5) && Next(s5, steps[5], s6) && Next(s6, steps[6], s7) && Next(s7, steps[7], s8);
  }

  /**
   Conflicts do happen, for every lifetime: two managers read the same empty Secret, the
   second to write is refused, and so is its retry.
   */
  lemma ConflictHappens(cfg: Config) returns (states: seq<State>, steps: seq<Step>)
    requires cfg.grain > 0 && cfg.lifetime >= 0 && UpperHalf(cfg.lifetime) >= cfg.grain
    ensures Run(states, steps) && |steps| == 8
    ensures steps[5] == steps[7] == Update(1, true) && steps[6].Compute?
    ensures !Commits(states[5], steps[5]) && !Commits(states[7], steps[7])
  {
    hide Valid, Loads, Layout, SelfSigned, Generated, Run, Commits;
    var a, b, c := FirstAttempt(cfg, 0), FirstAttempt(cfg, 1), SecondAttempt(cfg, 1, 2);
    FirstAttemptValid(cfg, 0);
    FirstAttemptValid(cfg, 1);
    SecondAttemptValid(cfg, 1, 2);
    EmptyLoads();
    OutAllCA(b);
    LayoutIsLoad(b.out);
    states, steps := ConflictRun(a, b, c, StemsUpTo(1));
  }

  // ----- Bounded store

  /** Every attempt behind the history ran under `cfg` and took at most `span` up to its check. */
  ghost predicate Uniform(s: State, cfg: Config, span: int) {
    forall k :: 0 <= k < |s.history| && s.history[k].origin.Some? ==>
                  var a := s.history[k].origin.value;
                  a.cfg == cfg && a.r.check - First(a.r) <= span
  }

  /** The authorities a version was written with; none for the created Secret. */
  function Written(v: Version): (cas: seq<Cert>) {
    if v.origin.Some? then v.origin.value.out else []
  }

  ghost predicate Small(v: Version, cfg: Config, bound: nat) {
    v.data == Layout(Written(v)) && |Written(v)| <= bound && Spaced(Written(v), Gap(cfg))
  }

  /** Enough renewal gaps to outlast an attempt and half a lifetime. */
  predicate Suffices(cfg: Config, span: int, bound: nat) {
    2 <= bound && Gap(cfg) >= 1 && (bound - 1) * Gap(cfg) > span + Half(cfg.lifetime) - 1
  }

  lemma LinkKeepsSmall(u: Version, v: Version, cfg: Config, span: int, bound: nat)
    requires Linked(u, v) && Small(u, cfg, bound) && Suffices(cfg, span, bound)
    requires v.origin.value.cfg == cfg && v.origin.value.r.check - First(v.origin.value.r) <= span
    ensures Small(v, cfg, bound)
  {
    var a := v.origin.value;
    var stems :| Loads(Layout(Written(u)), stems, a.loaded);
    LayoutReloads(Written(u), stems, a.loaded);
    SameLength(a.loaded, Written(u));
    SpacedSub(Written(u), a.loaded, Gap(cfg));
    AttemptKeepsSpacing(a);
    AttemptKeepsBound(a, bound);
  }

  lemma EmptyIsSmall(v: Version, cfg: Config, bound: nat)
    requires v.origin.None? && v.data == map[]
    ensures Small(v, cfg, bound)
  {
  }

  lemma {:induction false} BoundedHistory(s: State, cfg: Config, span: int, bound: nat, k: nat)
    requires HistoryOk(s) && Uniform(s, cfg, span) && k < |s.history|
    requires s.history[0].data == map[] && Suffices(cfg, span, bound)
    ensures Small(s.history[k], cfg, bound)
  {
    hide Valid, Layout, Spaced, LoadsSomehow;
    if k == 0 {
      EmptyIsSmall(s.history[0], cfg, bound);
    } else {
      BoundedHistory(s, cfg, span, bound, k - 1);
      assert LinkedAt(s.history, k);
      LinkKeepsSmall(s.history[k - 1], s.history[k], cfg, span, bound);
    }
  }

  /**
   Bounded store: starting from an empty Secret or none, if `bound` - 1 renewal gaps exceed the longest
   attempt plus half a lifetime, no committed version ever holds more than `bound` authorities.
   */
  lemma BoundedStore(states: seq<State>, steps: seq<Step>, n: nat, cfg: Config, span: int, bound: nat, k: nat)
    requires Run(states, steps) && n < |states| && StartsEmpty(states[0])
    requires Uniform(states[n], cfg, span) && Suffices(cfg, span, bound)
    requires k < |states[n].history|
    ensures var v := states[n].history[k]; v.data == Layout(Written(v)) && |Written(v)| <= bound
  {
    RunKeepsInv(states, steps, n);
    FirstVersionEmpty(states, steps, n);
    BoundedHistory(states[n], cfg, span, bound, k);
  }

  lemma {:induction false} FirstVersionEmpty(states: seq<State>, steps: seq<Step>, n: nat)
    requires Run(states, steps) && n < |states| && StartsEmpty(states[0])
    ensures states[n].history != [] ==> states[n].history[0].data == map[]
  {
    if n == 0 {
    } else {
      FirstVersionEmpty(states, steps, n - 1);
      assert Next(states[n - 1], steps[n - 1], states[n]);
    }
  }

  /** With exact times and one clock reading per attempt, two authorities are the most. */
  lemma TwoWhenExact(states: seq<State>, steps: seq<Step>, n: nat, lifetime: int, k: nat)
    requires Run(states, steps) && n < |states| && StartsEmpty(states[0])
    requires lifetime > 0 && Uniform(states[n], Config(lifetime, 1), 0)
    requires k < |states[n].history|
    ensures |Written(states[n].history[k])| <= 2
  {
    BoundedStore(states, steps, n, Config(lifetime, 1), 0, 2, k);
  }

  /** With certificate times in seconds and attempts no longer than half a lifetime less two seconds, three. */
  lemma ThreeWithSeconds(states: seq<State>, steps: seq<Step>, n: nat, lifetime: int, k: nat)
    requires Run(states, steps) && n < |states| && StartsEmpty(states[0])
    requires UpperHalf(lifetime) >= 2 * SECOND && lifetime > 0
    requires Uniform(states[n], Config(lifetime, SECOND), UpperHalf(lifetime) - 2 * SECOND)
    requires k < |states[n].history|
    ensures |Written(states[n].history[k])| <= 3
  {
    BoundedStore(states, steps, n, Config(lifetime, SECOND), UpperHalf(lifetime) - 2 * SECOND, 3, k);
  }
}
