/**
 The mapping from a pod's listener volumes to listener names: how it is computed from the
 pod and its PVCs, and the double-checked cache that shares it between threads.
 */
module ListenerCache {
  import opened Sequences

  datatype Source = EphemeralSource | ClaimSource(claimName: string) | OtherSource

  datatype Volume = Volume(name: string, source: Source)

  /** The pod and the listener volumes in the secret's scope; neither changes. */
  datatype PodInfo = PodInfo(name: string, volumes: seq<Volume>, listenerVolumes: seq<string>)

  /**
   What the PVC reads of one fetch found, by volume name: the listener annotation, if it has
   one, and no entry when the read failed. Each volume has a read of its own, so two volumes
   on one PVC may see different annotations.
   */
  type Reads = map<string, Option<string>>

  type Listing = map<string, string>

  // ----- Computing the mapping

  /** The PVC behind a volume: named after pod and volume when ephemeral. */
  function ClaimOf(podName: string, v: Volume): (claim: Option<string>) {
    match v.source
    case EphemeralSource => Some(podName + "-" + v.name)
    case ClaimSource(claimName) => Some(claimName)
    case OtherSource => None
  }

  /** The volume stands for a PVC. */
  predicate Claims(v: Volume) { v.source.EphemeralSource? || v.source.ClaimSource? }

  /** Volume `i` is the last one called `name` that stands for a PVC. */
  predicate LastAt(volumes: seq<Volume>, name: string, i: nat) {
    && i < |volumes| && volumes[i].name == name && (volumes[i].source.EphemeralSource? || volumes[i].source.ClaimSource?)
    && forall k :: i < k < |volumes| && volumes[k].name == name ==> volumes[k].source.OtherSource?
  }

  /** `claim` is the PVC of the last volume called `name`: pod and volume name if ephemeral, else the one it names. */
  ghost predicate LastClaim(podName: string, volumes: seq<Volume>, name: string, claim: string) {
    exists i: nat :: && LastAt(volumes, name, i)
                     && claim == if volumes[i].source.EphemeralSource? then podName + "-" + name else volumes[i].source.claimName
  }

  ghost predicate HasClaim(volumes: seq<Volume>, name: string) {
    exists i :: 0 <= i < |volumes| && volumes[i].name == name
                && (volumes[i].source.EphemeralSource? || volumes[i].source.ClaimSource?)
  }

  /** The claims of all volumes; a later volume of the same name wins. */
  function VolumeClaims(podName: string, volumes: seq<Volume>): (m: Listing) {
    if volumes == [] then map[]
    else
      var last := volumes[|volumes| - 1];
      var m := VolumeClaims(podName, volumes[..|volumes| - 1]);
      var claim := ClaimOf(podName, last);
      if claim.Some? then m[last.name := claim.value] else m
  }

  lemma ClaimsIff(podName: string, v: Volume)
    ensures ClaimOf(podName, v).Some? <==> Claims(v)
    ensures Claims(v) ==>
              ClaimOf(podName, v).value == if v.source.EphemeralSource? then podName + "-" + v.name else v.source.claimName
  {
  }

  /** A volume name is mapped exactly when some ephemeral or PVC volume has it. */
  lemma {:induction false} ClaimedVolumes(podName: string, volumes: seq<Volume>, name: string)
    ensures name in VolumeClaims(podName, volumes) <==>
            exists i :: 0 <= i < |volumes| && volumes[i].name == name
                        && (volumes[i].source.EphemeralSource? || volumes[i].source.ClaimSource?)
  {
    hide ClaimOf;
    if volumes == [] {
    } else {
      var n := |volumes| - 1;
      ClaimedVolumes(podName, volumes[..n], name);
      ClaimsIff(podName, volumes[n]);
      HasClaimLast(volumes, name);
    }
  }

  lemma HasClaimLast(volumes: seq<Volume>, name: string)
    requires volumes != []
    ensures var n := |volumes| - 1;
            HasClaim(volumes, name) <==> HasClaim(volumes[..n], name) || (volumes[n].name == name && Claims(volumes[n]))
  {
    var n := |volumes| - 1;
    var front := volumes[..n];
    if HasClaim(front, name) {
      var i :| 0 <= i < |front| && front[i].name == name && Claims(front[i]);
      assert volumes[i].name == name && Claims(volumes[i]);
    }
    if HasClaim(volumes, name) {
      var i :| 0 <= i < |volumes| && volumes[i].name == name && Claims(volumes[i]);
      assert i < n ==> front[i].name == name && Claims(front[i]);
    }
  }

  lemma LastAtExtends(volumes: seq<Volume>, name: string, i: nat)
    requires volumes != [] && LastAt(volumes[..|volumes| - 1], name, i)
    requires volumes[|volumes| - 1].name == name ==> volumes[|volumes| - 1].source.OtherSource?
    ensures LastAt(volumes, name, i)
  {
    var front := volumes[..|volumes| - 1];
    assert forall k :: 0 <= k < |front| ==> volumes[k] == front[k];
  }

  /** It is mapped to the PVC of the last such volume. */
  lemma {:induction false} ClaimIsLast(podName: string, volumes: seq<Volume>, name: string)
    requires name in VolumeClaims(podName, volumes)
    ensures LastClaim(podName, volumes, name, VolumeClaims(podName, volumes)[name])
  {
    hide ClaimOf;
    var n := |volumes| - 1;
    var front, claim := volumes[..n], VolumeClaims(podName, volumes)[name];
    ClaimsIff(podName, volumes[n]);
    if volumes[n].name == name && Claims(volumes[n]) {
      assert LastAt(volumes, name, n);
    } else {
      ClaimIsLast(podName, front, name);
      var i: nat :| && LastAt(front, name, i)
                    && claim == if front[i].source.EphemeralSource? then podName + "-" + name else front[i].source.claimName;
      LastAtExtends(volumes, name, i);
      assert volumes[i] == front[i];
    }
  }

  method GetPodVolumeNamesToPVCNameMapping(p: PodInfo) returns (m: Listing)
    ensures m == VolumeClaims(p.name, p.volumes)
    ensures forall name :: name in m <==> HasClaim(p.volumes, name)
    ensures forall name :: name in m ==> LastClaim(p.name, p.volumes, name, m[name])
  {
    m := map[];
    for i := 0 to |p.volumes|
      invariant m == VolumeClaims(p.name, p.volumes[..i])
    {
      var volume := p.volumes[i];
      assert p.volumes[..i + 1][..i] == p.volumes[..i];
      if volume.source.EphemeralSource? {
        m := m[volume.name := p.name + "-" + volume.name];
      } else if volume.source.ClaimSource? {
        m := m[volume.name := volume.source.claimName];
      }
    }
    assert p.volumes[..|p.volumes|] == p.volumes;
    hide VolumeClaims, LastClaim;
    forall name ensures name in m <==> HasClaim(p.volumes, name) { ClaimedVolumes(p.name, p.volumes, name); }
    forall name | name in m ensures LastClaim(p.name, p.volumes, name, m[name]) { ClaimIsLast(p.name, p.volumes, name); }
  }

  /** The scoped volumes that have a claim. */
  function Scoped(p: PodInfo): (m: Listing)
    ensures forall name :: name in m <==> name in p.listenerVolumes && name in VolumeClaims(p.name, p.volumes)
    ensures forall name :: name in m ==> m[name] == VolumeClaims(p.name, p.volumes)[name]
  {
    map name | name in p.listenerVolumes && name in VolumeClaims(p.name, p.volumes) ::
      VolumeClaims(p.name, p.volumes)[name]
  }

  method GetScopedListenerVolumeNamesToPVCNameMapping(p: PodInfo) returns (m: Listing)
    ensures m == Scoped(p)
  {
    hide VolumeClaims, HasClaim, LastClaim;
    var claims := GetPodVolumeNamesToPVCNameMapping(p);
    m := map[];
    if |claims| == 0 {
      assert m == Scoped(p);
      return;
    }
    for i := 0 to |p.listenerVolumes|
      invariant forall name :: name in m <==> name in p.listenerVolumes[..i] && name in claims
      invariant forall name :: name in m ==> m[name] == claims[name]
    {
      var listenerVolume := p.listenerVolumes[i];
      if listenerVolume in claims {
        m := m[listenerVolume := claims[listenerVolume]];
      }
    }
    assert p.listenerVolumes[..|p.listenerVolumes|] == p.listenerVolumes;
    assert m == Scoped(p);
  }

  /** A fetch: an error, no mapping at all, or the mapping. */
  datatype Fetched = FetchError | Nothing | Found(listing: Listing)

  predicate AllPresent(p: PodInfo, seen: Reads) {
    forall name :: name in Scoped(p) ==> name in seen
  }

  function ListenerName(annotation: Option<string>, claim: string): (name: string) {
    if annotation.Some? then annotation.value else claim
  }

  /** Each scoped volume to the annotation its own read found, or else to the PVC's name. */
  function ListenerNames(p: PodInfo, seen: Reads): (m: Listing)
    requires AllPresent(p, seen)
    ensures m.Keys == Scoped(p).Keys
    ensures forall name :: name in m ==>
                             m[name] == ListenerName(seen[name], Scoped(p)[name])
  {
    map name | name in Scoped(p) :: ListenerName(seen[name], Scoped(p)[name])
  }

  function FetchResult(p: PodInfo, seen: Reads): (r: Fetched) {
    if Scoped(p) == map[] then Nothing
    else if !AllPresent(p, seen) then FetchError
    else Found(ListenerNames(p, seen))
  }

  /** The scoped volumes are walked in an arbitrary order; the result does not depend on it. */
  method Fetch(p: PodInfo, seen: Reads) returns (r: Fetched)
    ensures r == FetchResult(p, seen)
  {
    hide Scoped, ListenerNames, ListenerName;
    var scoped := GetScopedListenerVolumeNamesToPVCNameMapping(p);
    if |scoped| == 0 {
      return Nothing;
    }
    var m: Listing := map[];
    var remaining := scoped.Keys;
    while remaining != {}
      invariant remaining <= scoped.Keys && m.Keys == scoped.Keys - remaining
      invariant forall name :: name in m ==> name in seen
      invariant forall name :: name in m ==>
                                 m[name] == ListenerName(seen[name], scoped[name])
      decreases remaining
    {
      var name :| name in remaining;
      if name !in seen {
        return FetchError;
      }
      m := m[name := ListenerName(seen[name], scoped[name])];
      remaining := remaining - {name};
    }
    assert m == ListenerNames(p, seen);
    r := Found(m);
  }

  /** The listener volume is in the secret's scope and stands for a PVC of the pod. */
  ghost predicate Wanted(p: PodInfo, name: string) {
    name in p.listenerVolumes && HasClaim(p.volumes, name)
  }

  /** A fetch finds nothing when no volume is wanted, and fails exactly when the read of a wanted one does. */
  lemma FetchOutcome(p: PodInfo, seen: Reads)
    ensures FetchResult(p, seen).Nothing? <==> forall name :: !Wanted(p, name)
    ensures FetchResult(p, seen).FetchError? <==> exists name :: Wanted(p, name) && name !in seen
  {
    hide VolumeClaims, ListenerNames;
    forall name ensures name in Scoped(p) <==> Wanted(p, name) {
      ClaimedVolumes(p.name, p.volumes, name);
    }
    hide HasClaim, Scoped;
    if Scoped(p) != map[] {
      assert Scoped(p).Keys != {};
      var name :| name in Scoped(p).Keys;
      assert Wanted(p, name);
    }
  }

  // ----- The cache as interleaved steps

  /** Where a thread is in GetScopedListenerVolumeNamesToListenerName. */
  datatype Thread =
    | Start
    | Reading   // holds the read lock
    | Missed    // saw no cache, holds nothing
    | Writing   // holds the write lock, cache not yet looked at again
    | Fetching  // holds the write lock, cache was empty
    | Done(result: Fetched)

  datatype State = State(cache: Option<Listing>, readers: set<nat>, writer: Option<nat>, threads: map<nat, Thread>)

  datatype Step =
    | Spawn(t: nat)
    | RLock(t: nat)
    | ReadCache(t: nat)
    | Lock(t: nat)
    | Recheck(t: nat)
    | Store(t: nat, seen: Reads)

  predicate Init(s: State) { s == State(None, {}, None, map[]) }

  function At(s: State, t: nat): (pc: Option<Thread>) {
    if t in s.threads then Some(s.threads[t]) else None
  }

  ghost predicate Next(p: PodInfo, s: State, step: Step, s': State) {
    match step
    case Spawn(t) =>
      t !in s.threads && s' == s.(threads := s.threads[t := Start])
    case RLock(t) =>
      At(s, t) == Some(Start) && s.writer.None?
      && s' == s.(readers := s.readers + {t}, threads := s.threads[t := Reading])
    case ReadCache(t) =>
      At(s, t) == Some(Reading)
      && s' == s.(readers := s.readers - {t},
                  threads := s.threads[t := if s.cache.Some? then Done(Found(s.cache.value)) else Missed])
    case Lock(t) =>
      At(s, t) == Some(Missed) && s.writer.None? && s.readers == {}
      && s' == s.(writer := Some(t), threads := s.threads[t := Writing])
    case Recheck(t) =>
      At(s, t) == Some(Writing)
      && s' == if s.cache.Some?
               then s.(writer := None, threads := s.threads[t := Done(Found(s.cache.value))])
               else s.(threads := s.threads[t := Fetching])
    case Store(t, seen) =>
      At(s, t) == Some(Fetching)
      && var r := FetchResult(p, seen);
         s' == s.(cache := match r case Found(m) => Some(m) case Nothing => None case FetchError => s.cache,
                  writer := None, threads := s.threads[t := Done(r)])
  }

  ghost predicate Run(p: PodInfo, states: seq<State>, steps: seq<Step>) {
    && |states| == |steps| + 1
    && Init(states[0])
    && forall i :: 0 <= i < |steps| ==> Next(p, states[i], steps[i], states[i + 1])
  }

  /** Where a cached mapping comes from: one fetch whose every read found its PVC. */
  ghost predicate FromFetch(p: PodInfo, m: Listing) {
    exists seen :: FetchResult(p, seen) == Found(m)
  }

  /** What a thread's place says about the locks and the cache. */
  ghost predicate ThreadOk(p: PodInfo, s: State, t: nat, pc: Thread) {
    match pc
    case Start => true
    case Reading => t in s.readers
    case Missed => true
    case Writing => s.writer == Some(t)
    case Fetching => s.writer == Some(t) && s.cache.None?
    case Done(FetchError) => true
    case Done(Nothing) => Scoped(p) == map[]
    case Done(Found(m)) => s.cache == Some(m)
  }

  ghost predicate Inv(p: PodInfo, s: State) {
    && (forall t :: t in s.threads ==> ThreadOk(p, s, t, s.threads[t]))
    && (s.cache.Some? ==> FromFetch(p, s.cache.value))
    && (s.writer.Some? ==> s.readers == {})
  }

  lemma FetchOrigin(p: PodInfo, seen: Reads)
    ensures FetchResult(p, seen).Nothing? ==> Scoped(p) == map[]
    ensures FetchResult(p, seen).Found? ==> FromFetch(p, FetchResult(p, seen).listing)
  {
    hide Scoped, AllPresent, ListenerNames;
  }

  lemma StoreKeepsInv(p: PodInfo, s: State, t: nat, seen: Reads, s': State)
    requires Inv(p, s) && Next(p, s, Store(t, seen), s')
    ensures Inv(p, s') && s.cache.None?
  {
    hide Scoped, FetchResult, FromFetch;
    assert ThreadOk(p, s, t, s.threads[t]);
    FetchOrigin(p, seen);
    forall u | u in s'.threads ensures ThreadOk(p, s', u, s'.threads[u]) {
      if u != t {
        assert ThreadOk(p, s, u, s.threads[u]);
      }
    }
  }

  lemma StepKeepsInv(p: PodInfo, s: State, step: Step, s': State)
    requires Inv(p, s) && Next(p, s, step, s')
    ensures Inv(p, s')
    ensures s.cache.Some? ==> s'.cache == s.cache
  {
    hide Scoped, FetchResult;
    if step.Store? {
      StoreKeepsInv(p, s, step.t, step.seen, s');
    } else {
      forall u | u in s'.threads ensures ThreadOk(p, s', u, s'.threads[u]) {
        if u in s.threads {
          assert ThreadOk(p, s, u, s.threads[u]);
        }
        if step.t in s.threads {
          assert ThreadOk(p, s, step.t, s.threads[step.t]);
        }
      }
    }
  }

  lemma {:induction false} RunKeepsInv(p: PodInfo, states: seq<State>, steps: seq<Step>, n: nat)
    requires Run(p, states, steps) && n < |states|
    ensures Inv(p, states[n])
  {
    hide ThreadOk, FromFetch;
    if n == 0 {
    } else {
      RunKeepsInv(p, states, steps, n - 1);
      StepKeepsInv(p, states[n - 1], steps[n - 1], states[n]);
    }
  }

  /** Once set, the cache never changes. */
  lemma {:induction false} CacheSetOnce(p: PodInfo, states: seq<State>, steps: seq<Step>, i: nat, j: nat)
    requires Run(p, states, steps) && i <= j < |states| && states[i].cache.Some?
    ensures states[j].cache == states[i].cache
    decreases j
  {
    hide Inv, FromFetch;
    if i < j {
      CacheSetOnce(p, states, steps, i, j - 1);
      RunKeepsInv(p, states, steps, j - 1);
      StepKeepsInv(p, states[j - 1], steps[j - 1], states[j]);
    }
  }

  /**
   All calls agree: whatever the interleaving and however the PVCs change meanwhile, any two
   calls that succeed return the same thing, the mapping of one complete fetch or nothing.
   */
  lemma CallsAgree(p: PodInfo, states: seq<State>, steps: seq<Step>, x: nat, t: nat, y: nat, u: nat)
    requires Run(p, states, steps) && x <= y < |states|
    requires t in states[x].threads && states[x].threads[t].Done? && !states[x].threads[t].result.FetchError?
    requires u in states[y].threads && states[y].threads[u].Done? && !states[y].threads[u].result.FetchError?
    ensures states[x].threads[t].result == states[y].threads[u].result
    ensures states[x].threads[t].result.Nothing? <==> Scoped(p) == map[]
    ensures states[x].threads[t].result.Found? ==> FromFetch(p, states[x].threads[t].result.listing)
  {
    hide Scoped, AllPresent, ListenerNames;
    RunKeepsInv(p, states, steps, x);
    RunKeepsInv(p, states, steps, y);
    assert ThreadOk(p, states[x], t, states[x].threads[t]);
    assert ThreadOk(p, states[y], u, states[y].threads[u]);
    if states[x].cache.Some? {
      CacheSetOnce(p, states, steps, x, y);
    }
  }

  /** The mapping of a fetch: exactly the scoped volumes with a claim, each to annotation or claim name. */
  lemma FetchedMapping(p: PodInfo, seen: Reads, m: Listing, name: string)
    requires FetchResult(p, seen) == Found(m)
    ensures name in m <==> name in p.listenerVolumes && HasClaim(p.volumes, name)
    ensures name in m ==>
              exists claim :: && LastClaim(p.name, p.volumes, name, claim) && name in seen
                              && m[name] == if seen[name].Some? then seen[name].value else claim
  {
    hide LastClaim, VolumeClaims;
    ClaimedVolumes(p.name, p.volumes, name);
    if name in m {
      ClaimIsLast(p.name, p.volumes, name);
      assert LastClaim(p.name, p.volumes, name, Scoped(p)[name]);
    }
  }

  /** At most one thread is past the write lock, and none reads meanwhile. */
  lemma WriterExclusive(p: PodInfo, states: seq<State>, steps: seq<Step>, n: nat, t: nat, u: nat)
    requires Run(p, states, steps) && n < |states|
    requires t in states[n].threads && (states[n].threads[t].Writing? || states[n].threads[t].Fetching?)
    requires u in states[n].threads && (states[n].threads[u].Writing? || states[n].threads[u].Fetching?)
    ensures t == u && states[n].readers == {}
  {
    RunKeepsInv(p, states, steps, n);
    assert ThreadOk(p, states[n], t, states[n].threads[t]);
    assert ThreadOk(p, states[n], u, states[n].threads[u]);
  }
}
