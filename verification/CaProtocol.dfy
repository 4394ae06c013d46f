/**
 Any number of certificate managers share one Secret. Each reads it (perhaps a stale
 copy), computes an attempt from what it holds, and writes the result under optimistic
 concurrency; after a conflict it starts over from its own unsaved data with the old
 version. The steps of different managers interleave freely, and the clock never goes back.
 */
module CaProtocol {
  import opened Sequences
  import opened SecretLayout
  import opened Rotation

  /** retry.DefaultRetry makes five attempts. */
  const MAX_TRIES: nat := 5

  /** A committed version of the Secret and the attempt that produced it, if one did. */
  datatype Version = Version(data: Data, origin: Option<Attempt>)

  /**
   A manager under construction. `ver` is the version its copy carries, -1 when the Secret
   was not found; `since` is when its current attempt began; `data` is what it holds or is
   about to write; `tries` counts the attempts left.
   */
  datatype Proc =
    | Ready(ver: int, data: Data, since: int, tries: nat)
    | Proposed(ver: int, attempt: Attempt, data: Data, tries: nat)
    | Succeeded(ver: int, attempt: Attempt)
    | Failed

  /** One generated authority and the attempt that generated it. */
  datatype Entry = Entry(cert: Cert, attempt: Attempt)

  /** The server's versions, the clock, every key generated so far, and the managers. */
  datatype State = State(history: seq<Version>, clock: int, ledger: seq<Entry>, procs: map<nat, Proc>)

  datatype Step =
    | Tick(to: int)
    | Read(p: nat, ver: int)
    | Compute(p: nat, stems: seq<string>, attempt: Attempt)
    | Create(p: nat)
    | Update(p: nat, acknowledged: bool)
    | Fail(p: nat)

  function Content(s: State, ver: int): (data: Data)
    requires ver < |s.history|
  {
    if ver < 0 then map[] else s.history[ver].data
  }

  ghost predicate Init(s: State) {
    && |s.history| <= 1
    && (s.history != [] ==> s.history[0].origin.None?)
    && s.ledger == []
    && s.procs == map[]
  }

  /** There is no Secret yet, or one without entries. */
  predicate StartsEmpty(s: State) {
    s.history != [] ==> s.history[0].data == map[]
  }

  function Entries(a: Attempt): (entries: seq<Entry>)
    requires WellTimed(a) && a.sorted != []
    ensures |entries| == |Generated(a)|
    ensures forall i :: 0 <= i < |entries| ==> entries[i] == Entry(Generated(a)[i], a)
  {
    seq(|Generated(a)|, i requires 0 <= i < |Generated(a)| => Entry(Generated(a)[i], a))
  }

  ghost predicate CanCompute(s: State, p: nat, stems: seq<string>, a: Attempt) {
    && p in s.procs && s.procs[p].Ready?
    && Loads(s.procs[p].data, stems, a.loaded)
    && Valid(a)
    && a.id == |s.ledger|
    && s.procs[p].since <= First(a.r)
    && a.r.renew <= s.clock
  }

  /** Create is refused when the Secret is already there; that error is not retried. */
  function AfterCreate(s: State, p: nat): (s': State)
    requires p in s.procs && s.procs[p].Proposed?
  {
    if s.history == [] then
      s.(history := [Version(map[], None)], procs := s.procs[p := Proposed(0, s.procs[p].attempt, s.procs[p].data, s.procs[p].tries)])
    else
      s.(procs := s.procs[p := Failed])
  }

  /**
   Update applies when the copy's version is the current one, and conflicts otherwise. An
   applied write may still be reported to its writer as an error.
   */
  function AfterUpdate(s: State, p: nat, acknowledged: bool): (s': State)
    requires p in s.procs && s.procs[p].Proposed?
  {
    var Proposed(ver, a, data, tries) := s.procs[p];
    if ver == |s.history| - 1 then
      s.(history := s.history + [Version(data, Some(a))],
         procs := s.procs[p := if acknowledged then Succeeded(ver + 1, a) else Failed])
    else if tries > 1 then
      s.(procs := s.procs[p := Ready(ver, data, s.clock, tries - 1)])
    else
      s.(procs := s.procs[p := Failed])
  }

  ghost predicate Next(s: State, step: Step, s': State) {
    match step
    case Tick(to) =>
      s.clock <= to && s' == s.(clock := to)
    case Read(p, ver) =>
      -1 <= ver < |s.history| && s' == s.(procs := s.procs[p := Ready(ver, Content(s, ver), s.clock, MAX_TRIES)])
    case Compute(p, stems, a) =>
      && CanCompute(s, p, stems, a)
      && s' == s.(ledger := s.ledger + Entries(a),
                  procs := s.procs[p := Proposed(s.procs[p].ver, a, Layout(a.out), s.procs[p].tries)])
    case Create(p) =>
      p in s.procs && s.procs[p].Proposed? && s.procs[p].ver == -1 && s' == AfterCreate(s, p)
    case Update(p, acknowledged) =>
      p in s.procs && s.procs[p].Proposed? && s.procs[p].ver >= 0 && s' == AfterUpdate(s, p, acknowledged)
    case Fail(p) =>
      s' == s.(procs := s.procs[p := Failed])
  }

  ghost predicate Run(states: seq<State>, steps: seq<Step>) {
    && |states| == |steps| + 1
    && Init(states[0])
    && forall i :: 0 <= i < |steps| ==> Next(states[i], steps[i], states[i + 1])
  }

  // ----- The invariant

  /** All the clock readings behind `v` were taken by `t`. */
  predicate TakenBy(v: Version, t: int) {
    v.origin.Some? ==> v.origin.value.r.renew <= t
  }

  /** `v` was computed from exactly `u`, and its clock was read after that of `u`. */
  ghost predicate Linked(u: Version, v: Version) {
    && v.origin.Some?
    && Valid(v.origin.value)
    && LoadsSomehow(u.data, v.origin.value.loaded)
    && v.data == Layout(v.origin.value.out)
    && TakenBy(u, First(v.origin.value.r))
  }

  ghost predicate LinkedAt(history: seq<Version>, k: nat)
    requires 1 <= k < |history|
  {
    Linked(history[k - 1], history[k])
  }

  ghost predicate LinksOk(history: seq<Version>) {
    forall k :: 1 <= k < |history| ==> LinkedAt(history, k)
  }

  ghost predicate HistoryOk(s: State) {
    && (s.history != [] ==> s.history[0].origin.None?)
    && LinksOk(s.history)
    && (forall k :: 0 <= k < |s.history| ==> TakenBy(s.history[k], s.clock))
  }

  /** After a conflict the copy's version is behind for good; before, the copy is what the server had. */
  ghost predicate ProcOk(s: State, proc: Proc) {
    match proc
    case Ready(ver, data, since, tries) =>
      && -1 <= ver < |s.history| && since <= s.clock && tries <= MAX_TRIES
      && (tries < MAX_TRIES ==> 0 <= ver < |s.history| - 1)
      && (tries == MAX_TRIES ==> data == Content(s, ver) && (ver >= 0 ==> TakenBy(s.history[ver], since)))
    case Proposed(ver, a, data, tries) =>
      && -1 <= ver < |s.history| && tries <= MAX_TRIES
      && data == Layout(a.out) && Valid(a) && a.r.renew <= s.clock
      && (tries < MAX_TRIES ==> 0 <= ver < |s.history| - 1)
      && (tries == MAX_TRIES ==>
            LoadsSomehow(Content(s, ver), a.loaded) && (ver >= 0 ==> TakenBy(s.history[ver], First(a.r))))
    case Succeeded(ver, a) =>
      1 <= ver < |s.history| && s.history[ver].origin == Some(a)
    case Failed => true
  }

  ghost predicate ProcsOk(s: State) {
    forall p :: p in s.procs ==> ProcOk(s, s.procs[p])
  }

  ghost predicate Inv(s: State) { HistoryOk(s) && ProcsOk(s) }

  /** A manager that did not move keeps its part of the invariant. */
  lemma ProcOkMonotone(s: State, s': State, proc: Proc)
    requires ProcOk(s, proc) && s.history <= s'.history && s.clock <= s'.clock
    ensures ProcOk(s', proc)
  {
  }

  lemma ComputeKeepsInv(s: State, p: nat, stems: seq<string>, a: Attempt, s': State)
    requires Inv(s) && Next(s, Compute(p, stems, a), s')
    ensures Inv(s')
  {
    hide Valid, Loads, Layout;
    var proc := s.procs[p];
    assert ProcOk(s, proc);
    assert Loads(proc.data, stems, a.loaded);
    assert ProcOk(s', s'.procs[p]);
    forall q | q in s'.procs && q != p ensures ProcOk(s', s'.procs[q]) {
      ProcOkMonotone(s, s', s.procs[q]);
    }
  }

  lemma CreateKeepsInv(s: State, p: nat, s': State)
    requires Inv(s) && Next(s, Create(p), s')
    ensures Inv(s')
  {
    hide Valid, LoadsSomehow, Layout;
    assert ProcOk(s, s.procs[p]);
    assert ProcOk(s', s'.procs[p]);
    forall q | q in s'.procs && q != p ensures ProcOk(s', s'.procs[q]) {
      ProcOkMonotone(s, s', s.procs[q]);
    }
  }

  /** A write that applies was computed from exactly the version it replaces. */
  lemma WriteIsLinked(s: State, p: nat)
    requires Inv(s) && p in s.procs && s.procs[p].Proposed?
    requires 0 <= s.procs[p].ver == |s.history| - 1
    ensures s.procs[p].tries == MAX_TRIES
    ensures var a := s.procs[p].attempt;
            Linked(s.history[|s.history| - 1], Version(s.procs[p].data, Some(a))) && a.r.renew <= s.clock
  {
    assert ProcOk(s, s.procs[p]);
  }

  lemma AppendKeepsLinks(history: seq<Version>, v: Version)
    requires history != [] && LinksOk(history) && Linked(history[|history| - 1], v)
    ensures LinksOk(history + [v])
  {
    hide Linked;
    forall k | 1 <= k < |history| + 1 ensures LinkedAt(history + [v], k) {
      if k < |history| {
        assert LinkedAt(history, k);
      }
    }
  }

  lemma UpdateKeepsHistory(s: State, p: nat, acknowledged: bool, s': State)
    requires Inv(s) && Next(s, Update(p, acknowledged), s')
    ensures HistoryOk(s') && s.history <= s'.history
  {
    hide Valid, Layout, LoadsSomehow;
    if s.procs[p].ver == |s.history| - 1 {
      WriteIsLinked(s, p);
      AppendKeepsLinks(s.history, s'.history[|s.history|]);
    }
  }

  lemma UpdateKeepsInv(s: State, p: nat, acknowledged: bool, s': State)
    requires Inv(s) && Next(s, Update(p, acknowledged), s')
    ensures Inv(s')
  {
    hide Valid, LoadsSomehow, Layout;
    UpdateKeepsHistory(s, p, acknowledged, s');
    assert ProcOk(s, s.procs[p]);
    assert ProcOk(s', s'.procs[p]);
    forall q | q in s'.procs && q != p ensures ProcOk(s', s'.procs[q]) {
      ProcOkMonotone(s, s', s.procs[q]);
    }
  }

  lemma StepKeepsInv(s: State, step: Step, s': State)
    requires Inv(s) && Next(s, step, s')
    ensures Inv(s')
  {
    match step
    case Compute(p, stems, a) => ComputeKeepsInv(s, p, stems, a, s');
    case Create(p) => CreateKeepsInv(s, p, s');
    case Update(p, acknowledged) => UpdateKeepsInv(s, p, acknowledged, s');
    case Tick(_) =>
      forall q | q in s'.procs ensures ProcOk(s', s'.procs[q]) { ProcOkMonotone(s, s', s.procs[q]); }
    case Read(p, _) =>
      assert ProcOk(s', s'.procs[p]);
      forall q | q in s'.procs && q != p ensures ProcOk(s', s'.procs[q]) { ProcOkMonotone(s, s', s.procs[q]); }
    case Fail(p) =>
      forall q | q in s'.procs && q != p ensures ProcOk(s', s'.procs[q]) { ProcOkMonotone(s, s', s.procs[q]); }
  }

  lemma {:induction false} RunKeepsInv(states: seq<State>, steps: seq<Step>, n: nat)
    requires Run(states, steps) && n < |states|
    ensures Inv(states[n])
  {
    if n == 0 {
    } else {
      RunKeepsInv(states, steps, n - 1);
      StepKeepsInv(states[n - 1], steps[n - 1], states[n]);
    }
  }

  /** Committed versions are never changed or removed. */
  lemma {:induction false} HistoryGrows(states: seq<State>, steps: seq<Step>, i: nat, j: nat)
    requires Run(states, steps) && i <= j < |states|
    ensures states[i].history <= states[j].history
    decreases j
  {
    if i < j {
      HistoryGrows(states, steps, i, j - 1);
      assert Next(states[j - 1], steps[j - 1], states[j]);
    }
  }
}
