/**
 The certificate manager as the code runs it: fields updated in place, the slice of
 authorities sorted and compacted where it lies, and the write repeated on conflict.
 Every method is proved against the attempts and selections of the value model.
 */
module CaManager {
  import opened Sequences
  import opened SecretLayout
  import opened Rotation
  import opened Selection

  /** The wall clock: each reading is no earlier than the one before. */
  class Clock {
    var now: int

    constructor (t: int)
      ensures now == t
    {
      now := t;
    }

    method Now() returns (t: int)
      modifies this
      ensures t == now && old(now) <= now
    {
      t :| now <= t;
      now := t;
    }
  }

  /**
   The API server's copy of one Secret: its successive versions, none while it does not exist,
   and how many of them other managers committed.
   */
  class ApiServer {
    var history: seq<Data>
    var others: nat

    constructor ()
      ensures history == [] && others == 0
    {
      history, others := [], 0;
    }

    /** Other managers may commit any number of versions at any time. */
    method OthersWrite()
      modifies this
      ensures old(history) <= history
      ensures others == old(others) + |history| - |old(history)|
    {
      var written: seq<Data> := *;
      history, others := history + written, others + |written|;
    }

    method Create() returns (created: bool)
      modifies this`history
      ensures created <==> old(history) == []
      ensures history == if created then [map[]] else old(history)
    {
      created := history == [];
      if created {
        history := [map[]];
      }
    }

    /** Applies only to the version the writer holds. */
    method Update(version: nat, data: Data) returns (applied: bool)
      modifies this`history
      ensures applied <==> version == |old(history)| - 1
      ensures history == if applied then old(history) + [data] else old(history)
    {
      applied := version == |history| - 1;
      if applied {
        history := history + [data];
      }
    }
  }

  // ----- Slices of authorities

  /** A slice with no nil entry. */
  function Wrap(cas: seq<Cert>): (slice: seq<Option<Cert>>)
    ensures |slice| == |cas|
    ensures forall i :: 0 <= i < |cas| ==> slice[i] == Some(cas[i])
  {
    seq(|cas|, i requires 0 <= i < |cas| => Some(cas[i]))
  }

  function Nils(n: nat): (slice: seq<Option<Cert>>)
    ensures |slice| == n
    ensures forall i :: 0 <= i < n ==> slice[i] == None
  {
    seq(n, i requires 0 <= i < n => None)
  }

  /** The list with entries `j` - 1 and `j` exchanged. */
  function Swapped(s: seq<Cert>, j: nat): (t: seq<Cert>)
    requires 1 <= j < |s|
    ensures |t| == |s|
  {
    s[j := s[j - 1]][j - 1 := s[j]]
  }

  lemma SwapKeepsMultiset(s: seq<Cert>, j: nat)
    requires 1 <= j < |s|
    ensures multiset(Swapped(s, j)) == multiset(s)
  {
    assert s == s[..j - 1] + [s[j - 1], s[j]] + s[j + 1..];
    assert Swapped(s, j) == s[..j - 1] + [s[j], s[j - 1]] + s[j + 1..];
  }

  /** Sorted up to `i`, except that the entry at `j` is still on its way down. */
  predicate SortedBut(s: seq<Cert>, i: nat, j: nat) {
    j <= i < |s| && forall p, q :: 0 <= p < q <= i && q != j ==> s[p].notAfter <= s[q].notAfter
  }

  lemma SwapKeepsSortedBut(s: seq<Cert>, i: nat, j: nat)
    requires 1 <= j && SortedBut(s, i, j) && s[j].notAfter < s[j - 1].notAfter
    ensures SortedBut(Swapped(s, j), i, j - 1)
  {
  }

  lemma SortedButSettles(s: seq<Cert>, i: nat, j: nat)
    requires SortedBut(s, i, j) && (j > 0 ==> s[j - 1].notAfter <= s[j].notAfter)
    ensures Sorted(s[..i + 1])
  {
    forall p | 0 <= p < j ensures s[p].notAfter <= s[j].notAfter {
      assert p < j - 1 ==> s[p].notAfter <= s[j - 1].notAfter;
    }
  }

  /** One exchange of neighbours in the array. */
  method SwapEntries(a: array<Option<Cert>>, j: nat, ghost s: seq<Cert>)
    requires a[..] == Wrap(s) && 1 <= j < |s|
    modifies a
    ensures a[..] == Wrap(Swapped(s, j))
  {
    assert forall k :: 0 <= k < |s| ==> a[..][k] == a[k];
    a[j], a[j - 1] := a[j - 1], a[j];
    assert forall k :: 0 <= k < |s| ==> a[..][k] == a[k];
  }

  /** Moves entry `i` down to its place among the sorted entries before it. */
  method Insert(a: array<Option<Cert>>, i: nat, ghost s: seq<Cert>) returns (ghost t: seq<Cert>)
    requires a[..] == Wrap(s) && i < |s| && Sorted(s[..i])
    modifies a
    ensures a[..] == Wrap(t) && multiset(t) == multiset(s) && i < |t| && Sorted(t[..i + 1])
  {
    hide Swapped, Wrap;
    t := s;
    var j := i;
    assert SortedBut(t, i, j) by {
      assert forall k :: 0 <= k < i ==> s[..i][k] == s[k];
    }
    while 0 < j && a[..][j].value.notAfter < a[..][j - 1].value.notAfter
      invariant 0 <= j <= i && a[..] == Wrap(t) && |t| == |s| && multiset(t) == multiset(s)
      invariant SortedBut(t, i, j)
    {
      SwapKeepsMultiset(t, j);
      SwapKeepsSortedBut(t, i, j);
      SwapEntries(a, j, t);
      t := Swapped(t, j);
      j := j - 1;
    }
    SortedButSettles(t, i, j);
  }

  /** slices.SortFunc by end of validity, in place; insertion sort, as the library does on short slices. */
  method SortInPlace(a: array<Option<Cert>>, ghost s: seq<Cert>) returns (ghost t: seq<Cert>)
    requires a[..] == Wrap(s)
    modifies a
    ensures a[..] == Wrap(t) && SortOf(s, t)
  {
    t := s;
    for i := 0 to a.Length
      invariant a[..] == Wrap(t) && |t| == a.Length && multiset(t) == multiset(s)
      invariant Sorted(t[..i])
    {
      t := Insert(a, i, t);
    }
    assert t[..a.Length] == t;
  }

  lemma WrapAppend(cas: seq<Cert>, c: Cert)
    ensures Wrap(cas + [c]) == Wrap(cas) + [Some(c)]
  {
  }

  /** The survivors move to the front of the array, in order. */
  method MoveSurvivors(a: array<Option<Cert>>, at: int, ghost s: seq<Cert>) returns (kept: nat)
    requires a[..] == Wrap(s)
    modifies a
    ensures kept == |Kept(s, at)| <= a.Length
    ensures a[..kept] == Wrap(Kept(s, at))
  {
    hide Kept, Wrap;
    NothingKept([], at);
    kept := 0;
    assert s[..0] == [];
    for j := 0 to a.Length
      invariant kept == |Kept(s[..j], at)| <= j
      invariant a[..kept] == Wrap(Kept(s[..j], at))
      invariant forall i :: j <= i < a.Length ==> a[i] == Some(s[i])
    {
      assert s[..j + 1] == s[..j] + [s[j]];
      KeptAppend(s[..j], s[j], at);
      WrapAppend(Kept(s[..j], at), s[j]);
      if !(a[j].value.notAfter < at) {
        ghost var front := a[..kept];
        a[kept] := a[j];
        assert a[..kept + 1] == front + [Some(s[j])];
        kept := kept + 1;
      }
    }
    assert s[..a.Length] == s;
  }

  /** slices.DeleteFunc: survivors move to the front of the same array, and the rest is cleared. */
  method DeleteExpired(a: array<Option<Cert>>, at: int, ghost s: seq<Cert>) returns (kept: nat)
    requires a[..] == Wrap(s)
    modifies a
    ensures kept == |Kept(s, at)| <= |s|
    ensures a[..] == Wrap(Kept(s, at)) + Nils(|s| - kept)
  {
    kept := MoveSurvivors(a, at, s);
    for j := kept to a.Length
      invariant a[..kept] == Wrap(Kept(s, at))
      invariant forall i :: kept <= i < j ==> a[i] == None
    {
      a[j] := None;
    }
    assert a[..] == a[..kept] + a[kept..];
    assert a[kept..] == Nils(|s| - kept);
  }

  /** slices.MinFunc on the first `n` entries: the first one with the smallest end of validity. */
  method FirstMinimum(a: array<Option<Cert>>, n: nat, ghost s: seq<Cert>) returns (ca: Cert)
    requires 0 < n <= a.Length && |s| == n && a[..n] == Wrap(s)
    ensures exists i :: 0 <= i < n && s[i] == ca && (forall k :: 0 <= k < i ==> ca.notAfter < s[k].notAfter)
                        && (forall k :: 0 <= k < n ==> ca.notAfter <= s[k].notAfter)
  {
    assert forall k :: 0 <= k < n ==> a[k] == a[..n][k];
    ca := a[0].value;
    ghost var at := 0;
    for j := 1 to n
      invariant 0 <= at < j && s[at] == ca
      invariant forall k :: 0 <= k < at ==> ca.notAfter < s[k].notAfter
      invariant forall k :: 0 <= k < j ==> ca.notAfter <= s[k].notAfter
    {
      if a[j].value.notAfter < ca.notAfter {
        ca := a[j].value;
        at := j;
      }
    }
  }

  /** The entries the manager writes, put into the map one by one. */
  method BuildData(a: array<Option<Cert>>, ghost s: seq<Cert>) returns (data: Data)
    requires a[..] == Wrap(s)
    ensures data == Layout(s)
  {
    data := map[];
    for i := 0 to a.Length
      invariant data == Layout(s[..i])
    {
      var ca := a[..][i].value;
      data := data[CrtName(StemOf(i)) := CertPEM(ca)];
      data := data[KeyName(StemOf(i)) := KeyPEM(ca.key)];
      assert s[..i + 1][..i] == s[..i];
    }
    assert s[..a.Length] == s;
  }

  // ----- The manager

  datatype Outcome<+T> = Ok(value: T) | Error | Panic

  datatype WriteOutcome = Written | Conflict | Refused

  /** Clock readings taken one after another between `from` and `to`. */
  predicate Rising(times: seq<int>, from: int, to: int) {
    && (forall i, j :: 0 <= i < j < |times| ==> times[i] <= times[j])
    && (forall i :: 0 <= i < |times| ==> from <= times[i] <= to)
  }

  /** The copy of the Secret a manager starts from: a version the server had, or nothing. */
  predicate IsCopy(history: seq<Data>, version: int, data: Data) {
    -1 <= version < |history| && data == if version == -1 then map[] else history[version]
  }

  /** The copy was the current version, and nobody else has written since. */
  predicate Undisturbed(version: int, history: seq<Data>, othersBefore: nat, othersAfter: nat) {
    version == |history| - 1 && othersAfter == othersBefore
  }

  /** How many versions a save commits itself: the created Secret and the written one. */
  function Own(w: WriteOutcome, version: int): (n: nat) {
    if w.Refused? then 0 else (if version == -1 then 1 else 0) + (if w.Written? then 1 else 0)
  }

  lemma SortedLength(s: seq<Cert>, t: seq<Cert>)
    requires SortOf(s, t)
    ensures |s| == |t|
  {
    SameLength(s, t);
  }

  lemma PreparedFrom(a: Attempt, from: int, alive: seq<Cert>)
    requires a.cfg.grain > 0 && AllCA(a.loaded) && |a.r.filter| == |a.loaded|
    requires Rising(a.r.filter, from, a.r.create) && from <= a.r.create <= a.r.check <= a.r.renew
    requires alive == if Survivors(a.loaded, a.r.filter) == []
                      then [SelfSigned(a.cfg, a.r.create, a.id)] else Survivors(a.loaded, a.r.filter)
    requires SortOf(alive, a.sorted) && a.sorted != []
    ensures Prepared(a) && from <= First(a.r)
  {
  }

  /** A CA certificate that lasts one lifetime, cut to the grain, from the creation or from the renewal. */
  predicate LastsOneLifetime(c: Cert, cfg: Config, r: Readings)
    requires cfg.grain > 0
  {
    && c.isCA && c.notAfter % cfg.grain == 0
    && (|| r.create + cfg.lifetime - cfg.grain < c.notAfter <= r.create + cfg.lifetime
        || r.renew + cfg.lifetime - cfg.grain < c.notAfter <= r.renew + cfg.lifetime)
  }

  lemma NewOnesLast(a: Attempt)
    requires Prepared(a)
    ensures forall c :: c in Renewal(a) && c !in a.loaded ==> LastsOneLifetime(c, a.cfg, a.r)
  {
    hide Renewal, Seeded, SortOf, Ordered;
    forall c | c in Renewal(a) && c !in a.loaded ensures LastsOneLifetime(c, a.cfg, a.r) {
      NewIsMade(a, c);
      CutBounds(a, c);
    }
  }

  lemma Completed(a: Attempt, out: seq<Cert>)
    requires Prepared(a)
    ensures var b := a.(out := out);
            Prepared(b) && Generated(b) == Generated(a) && (SortOf(Renewal(a), out) ==> Valid(b))
  {
    hide Survivors, SortOf, SelfSigned, Renewed;
    var b := a.(out := out);
    assert Seeded(b) == Seeded(a) && Renewal(b) == Renewal(a);
  }

  /** After a conflict: the manager holds the unsaved result of the last attempt of `trace`. */
  ghost predicate Pending(trace: seq<Attempt>, start: int, cfg: Config, data: Data, nextKey: nat, now: int)
    requires trace != []
  {
    var last := trace[|trace| - 1];
    && RetryChain(trace) && start <= First(trace[0].r) && trace[0].cfg == cfg
    && Valid(last) && last.cfg == cfg && last.r.renew <= now
    && data == Layout(last.out) && nextKey == last.id + |Generated(last)|
  }

  /** One more attempt on what is held extends the chain. */
  lemma ExtendChain(trace: seq<Attempt>, start: int, cfg: Config, data: Data, nextKey: nat, now: int,
                    a: Attempt, stems: seq<string>)
    requires trace != [] && Pending(trace, start, cfg, data, nextKey, now)
    requires Valid(a) && a.cfg == cfg && a.id == nextKey && now <= First(a.r) && Loads(data, stems, a.loaded)
    ensures RetryChain(trace + [a]) && GeneratedBy(trace + [a]) == GeneratedBy(trace) + Generated(a)
  {
    hide Valid, Loads, Layout, Generated;
    var last := trace[|trace| - 1];
    LayoutReloads(last.out, stems, a.loaded);
    assert (trace + [a])[..|trace|] == trace;
  }

  lemma StartChain(a: Attempt)
    requires Valid(a)
    ensures RetryChain([a]) && GeneratedBy([a]) == Generated(a)
  {
    hide Valid, Generated;
    assert [a][..0] == [];
    assert GeneratedBy([]) == [];
  }

  lemma ExtendTrace(trace: seq<Attempt>, start: int, cfg: Config, data: Data, nextKey: nat, now: int,
                    a: Attempt, stems: seq<string>, later: int)
    requires RetryChain(trace) && start <= now && (trace != [] ==> Pending(trace, start, cfg, data, nextKey, now))
    requires Valid(a) && a.cfg == cfg && a.id == nextKey && now <= First(a.r) && a.r.renew <= later
    requires Loads(data, stems, a.loaded)
    ensures RetryChain(trace + [a]) && GeneratedBy(trace + [a]) == GeneratedBy(trace) + Generated(a)
    ensures Pending(trace + [a], start, cfg, Layout(a.out), nextKey + |Generated(a)|, later)
  {
    hide Valid, Loads, Generated, Layout, GeneratedBy, RetryChain, First;
    if trace == [] {
      StartChain(a);
      EmptyChain();
      assert trace + [a] == [a];
    } else {
      ExtendChain(trace, start, cfg, data, nextKey, now, a, stems);
      assert (trace + [a])[0] == trace[0];
    }
  }

  lemma EmptyChain()
    ensures RetryChain([]) && GeneratedBy([]) == []
  {
  }

  /** What a manager holds after a conflict loads again, so a retry is not refused. */
  lemma PendingLoads(trace: seq<Attempt>, start: int, cfg: Config, data: Data, nextKey: nat, now: int)
    requires trace != [] && Pending(trace, start, cfg, data, nextKey, now)
    ensures Loadable(data)
  {
    hide Valid, Layout, Loadable, RetryChain, Generated;
    OutAllCA(trace[|trace| - 1]);
    LayoutLoadable(trace[|trace| - 1].out);
  }

  predicate FitsHalfLife(cfg: Config, start: int, now: int) {
    cfg.lifetime >= 0 && now <= start + UpperHalf(cfg.lifetime) - cfg.grain
  }

  lemma ChainKeys(trace: seq<Attempt>, start: int, cfg: Config, data: Data, nextKey: nat, now: int, later: int)
    requires trace != [] && Pending(trace, start, cfg, data, nextKey, now) && now <= later
    ensures FitsHalfLife(cfg, start, later) ==> |GeneratedBy(trace)| <= 1
  {
    hide Valid, Generated, Layout, GeneratedBy, First;
    if FitsHalfLife(cfg, start, later) {
      AtMostOneKey(trace);
    }
  }

  lemma PreparedKeys(a: Attempt, start: int, now: int)
    requires Prepared(a) && start <= First(a.r) && a.r.renew <= now
    ensures FitsHalfLife(a.cfg, start, now) ==> |Generated(a)| <= 1
  {
    if FitsHalfLife(a.cfg, start, now) {
      OneAttemptOneKey(a, start);
    }
  }

  /** No window deletes nothing; a window within the reserve leaves something. */
  lemma WindowEffects(a: Attempt, start: int, window: int)
    requires Valid(a) && start <= First(a.r)
    ensures var kept := Kept(a.out, start + window);
            && (window <= 0 && a.cfg.lifetime >= a.cfg.grain - 1 ==>
                  Wrap(kept) + Nils(|a.out| - |kept|) == Wrap(a.out))
            && (window <= Reserve(a.cfg) ==> kept != [])
  {
    hide Kept, Prepared;
    if window <= 0 && a.cfg.lifetime >= a.cfg.grain - 1 {
      NothingDeleted(a, start + window);
    }
    if window <= Reserve(a.cfg) {
      WindowLeavesNewest(a, start, window);
    }
  }

  class CertificateManager {
    const cfg: Config
    const auto: bool
    const window: int
    const server: ApiServer
    const clock: Clock

    /** Position of the copy in the server's history, -1 while the Secret is not known to exist. */
    var version: int
    var data: Data
    var cas: array<Option<Cert>>
    /** The number the next generated key will get. */
    var nextKey: nat

    /**
     The manager as it is built: the maximum certificate lifetime is passed in but not kept,
     so the selection window is zero.
     */
    constructor (server: ApiServer, clock: Clock, maxCertificateLifeTime: int, cfg: Config, auto: bool,
                 found: int, nextKey: nat)
      requires -1 <= found < |server.history|
      ensures this.server == server && this.clock == clock && this.cfg == cfg && this.auto == auto
      ensures this.nextKey == nextKey && version == found && IsCopy(server.history, version, data)
      ensures window == 0
      ensures fresh(cas) && cas.Length == 0
    {
      this.server, this.clock := server, clock;
      this.cfg, this.auto, this.window := cfg, auto, 0;
      this.version, this.nextKey := found, nextKey;
      this.data := if found == -1 then map[] else server.history[found];
      this.cas := new Option<Cert>[0];
    }

    /** Parses the pairs and drops what has expired, reading the clock once per pair. */
    method FilterExpired(pairs: seq<KeyPair>)
      returns (r: Outcome<seq<Cert>>, ghost loaded: seq<Cert>, ghost times: seq<int>)
      modifies clock
      ensures old(clock.now) <= clock.now && !r.Panic?
      ensures r.Error? <==> exists i :: 0 <= i < |pairs| && LoadPair(pairs[i]).None?
      ensures r.Ok? ==>
                && AllCA(loaded) && pairs == PairsOf(loaded)
                && |times| == |loaded| && Rising(times, old(clock.now), clock.now)
                && r.value == Survivors(loaded, times)
    {
      hide PairsOf;
      var alive: seq<Cert> := [];
      loaded, times := [], [];
      for k := 0 to |pairs|
        invariant old(clock.now) <= clock.now
        invariant |loaded| == |times| == k
        invariant AllCA(loaded) && forall i :: 0 <= i < k ==> pairs[i] == PairOf(loaded[i])
        invariant Rising(times, old(clock.now), clock.now)
        invariant alive == Survivors(loaded, times)
      {
        var ca := LoadPair(pairs[k]);
        if ca.None? {
          return Error, loaded, times;
        }
        var now := clock.Now();
        ghost var before, timesBefore := loaded, times;
        loaded, times := loaded + [ca.value], times + [now];
        assert loaded[..k] == before && times[..k] == timesBefore;
        if !(ca.value.notAfter < now) {
          alive := alive + [ca.value];
        }
      }
      r := Ok(alive);
    }

    /** Sorts the list and renews the newest authority when less than half a lifetime remains. */
    method RotateCertificateAuthority(alive: seq<Cert>)
      returns (slice: array<Option<Cert>>, ghost sorted: seq<Cert>, ghost check: int)
      requires alive != [] && cfg.grain > 0
      modifies clock, this`nextKey
      ensures fresh(slice) && SortOf(alive, sorted) && sorted != []
      ensures old(clock.now) <= check <= clock.now
      ensures var newest := sorted[|sorted| - 1];
              var renews := auto && check + Half(cfg.lifetime) > newest.notAfter;
              && nextKey == old(nextKey) + (if renews then 1 else 0)
              && slice[..] == Wrap(if renews then sorted + [Renewed(cfg, clock.now, old(nextKey), newest)] else sorted)
    {
      hide SortOf, Renewed;
      slice := new Option<Cert>[|alive|](i requires 0 <= i < |alive| => Some(alive[i]));
      assert slice[..] == Wrap(alive);
      sorted := SortInPlace(slice, alive);
      SortedLength(alive, sorted);
      var newest := slice[..][slice.Length - 1].value;
      var now := clock.Now();
      check := now;
      if now + Half(cfg.lifetime) > newest.notAfter && auto {
        var at := clock.Now();
        var newCA := Renewed(cfg, at, nextKey, newest);
        nextKey := nextKey + 1;
        var entries := slice[..] + [Some(newCA)];
        WrapAppend(sorted, newCA);
        slice := new Option<Cert>[|entries|](i requires 0 <= i < |entries| => entries[i]);
        assert slice[..] == entries;
      }
    }

    /** One attempt up to the list that will be written: filter, create if none is left, rotate. */
    method GetCertificateAuthorities(pairs: seq<KeyPair>)
      returns (r: Outcome<array<Option<Cert>>>, ghost a: Attempt, ghost listed: seq<Cert>)
      requires cfg.grain > 0
      modifies clock, this`nextKey
      ensures old(clock.now) <= clock.now && !r.Panic?
      ensures r.Ok? ==> fresh(r.value) && r.value[..] == Wrap(listed)
      ensures !auto || r.Error? ==> nextKey == old(nextKey)
      ensures auto ==> (r.Error? <==> exists i :: 0 <= i < |pairs| && LoadPair(pairs[i]).None?)
      ensures auto && r.Ok? ==>
                && Prepared(a) && a.cfg == cfg && a.id == old(nextKey) && pairs == PairsOf(a.loaded)
                && old(clock.now) <= First(a.r) && a.r.renew <= clock.now
                && nextKey == old(nextKey) + |Generated(a)|
                && listed == Renewal(a)
      ensures auto && r.Ok? ==>
                forall c :: c in listed && c !in a.loaded ==> LastsOneLifetime(c, cfg, a.r)
    {
      hide Survivors, SortOf, PairsOf, LoadPair, LastsOneLifetime;
      a := Attempt(cfg, [], Readings([], 0, 0, 0), 0, [], []);
      var filtered, loaded, times := FilterExpired(pairs);
      if filtered.Error? {
        return Error, a, [];
      }
      var alive := filtered.value;
      ghost var create := clock.now;
      if alive == [] {
        if !auto {
          return Error, a, [];
        }
        var now := clock.Now();
        create := now;
        alive := [SelfSigned(cfg, now, nextKey)];
        nextKey := nextKey + 1;
      }
      var slice, sorted, check := RotateCertificateAuthority(alive);
      a := Attempt(cfg, loaded, Readings(times, create, check, clock.now), old(nextKey), sorted, []);
      r := Ok(slice);
      if auto {
        PreparedFrom(a, old(clock.now), alive);
      }
      var newest := sorted[|sorted| - 1];
      listed := if auto && check + Half(cfg.lifetime) > newest.notAfter
                then sorted + [Renewed(cfg, clock.now, if filtered.value == [] then old(nextKey) + 1 else old(nextKey), newest)]
                else sorted;
      if auto {
        NewOnesLast(a);
      }
    }

    /** Creates the Secret if it was missing, then writes the list under the version held. */
    method UpdateCertificateAuthoritiesToSecret(ghost s: seq<Cert>) returns (w: WriteOutcome, ghost out: seq<Cert>)
      requires -1 <= version < |server.history| && cas[..] == Wrap(s)
      modifies this`version, this`data, cas, server
      ensures old(server.history) <= server.history && -1 <= version < |server.history|
      ensures !auto ==> w.Refused? && server.history == old(server.history)
      ensures w.Refused? ==> version == old(version) && (auto ==> version == -1 && server.history != [])
      ensures auto ==> (w.Written? <==> Undisturbed(old(version), old(server.history), old(server.others), server.others))
      ensures old(server.others) <= server.others
      ensures |server.history| == |old(server.history)| + (server.others - old(server.others)) + Own(w, old(version))
      ensures !w.Refused? ==> SortOf(s, out) && cas[..] == Wrap(out) && data == Layout(out)
      ensures !w.Refused? && old(version) == -1 ==> old(server.history) == [] && [map[]] <= server.history
      ensures var held := if old(version) == -1 then 0 else old(version);
              && (w.Written? ==> |old(server.history)| <= version == held + 1 == |server.history| - 1)
              && (w.Written? ==> server.history[version] == Layout(out))
              && (w.Conflict? ==> version == held < |server.history| - 1)
    {
      if !auto {
        return Refused, s;
      }
      var held := version;
      if held == -1 {
        server.OthersWrite();
        var created := server.Create();
        if !created {
          return Refused, s;
        }
        held := 0;
      }
      out := SortInPlace(cas, s);
      data := BuildData(cas, out);
      server.OthersWrite();
      var applied := server.Update(held, data);
      if applied {
        version := held + 1;
        w := Written;
      } else {
        version := held;
        w := Conflict;
      }
    }

    /** The body that is retried: read the pairs held, compute, write. */
    method TryOnce() returns (w: WriteOutcome, ghost a: Attempt, ghost stems: seq<string>)
      requires cfg.grain > 0 && -1 <= version < |server.history|
      modifies this`version, this`data, this`cas, this`nextKey, server, clock
      ensures old(server.history) <= server.history && -1 <= version < |server.history|
      ensures old(clock.now) <= clock.now
      ensures !auto ==> w.Refused? && server.history == old(server.history)
      ensures auto ==> (w.Refused? <==> !Loadable(old(data)) || (old(version) == -1 && version == -1))
      ensures auto && w.Refused? && Loadable(old(data)) ==> server.history != []
      ensures auto && Loadable(old(data)) ==>
                (w.Written? <==> Undisturbed(old(version), old(server.history), old(server.others), server.others))
      ensures old(server.others) <= server.others
      ensures |server.history| == |old(server.history)| + (server.others - old(server.others)) + Own(w, old(version))
      ensures w.Refused? ==>
                || nextKey == old(nextKey)
                || (&& Prepared(a) && a.cfg == cfg && nextKey == old(nextKey) + |Generated(a)|
                    && old(clock.now) <= First(a.r) && a.r.renew <= clock.now)
      ensures w.Refused? && old(version) >= 0 && auto ==> nextKey == old(nextKey)
      ensures !w.Refused? ==>
                && Valid(a) && Sorted(a.out) && a.cfg == cfg && a.id == old(nextKey) && nextKey == a.id + |Generated(a)|
                && Loads(old(data), stems, a.loaded)
                && old(clock.now) <= First(a.r) && a.r.renew <= clock.now
                && fresh(cas) && cas[..] == Wrap(a.out) && data == Layout(a.out)
      ensures !w.Refused? && old(version) == -1 ==> old(server.history) == [] && [map[]] <= server.history
      ensures var held := if old(version) == -1 then 0 else old(version);
              && (w.Written? ==> |old(server.history)| <= version == held + 1 == |server.history| - 1)
              && (w.Written? ==> server.history[version] == Layout(a.out))
              && (w.Conflict? ==> version == held < |server.history| - 1)
    {
      hide Prepared, Sorted, Enumerates, PairsAt, PairsOf, Generated, Renewal, Wrap, Layout, Loadable, LoadPair,
           Undisturbed;
      var pairs;
      pairs, stems := GetPEMKeyPairs(data);
      LoadsIff(data, stems);
      var got, a', listed := GetCertificateAuthorities(pairs);
      a := a';
      if got.Error? {
        return Refused, a, stems;
      }
      cas := got.value;
      ghost var out;
      w, out := UpdateCertificateAuthoritiesToSecret(listed);
      if auto {
        Completed(a, out);
        a := a.(out := out);
      }
    }

    /**
     Selection: the slice is compacted where it lies, and the lowest entry still valid at
     `atAfter` is chosen; with none left the minimum of an empty slice panics.
     */
    method GetAliveCertificateAuthority(atAfter: int, ghost s: seq<Cert>) returns (r: Outcome<Cert>)
      requires cas[..] == Wrap(s) && Sorted(s)
      modifies cas
      ensures cas[..] == Wrap(Kept(s, atAfter)) + Nils(|s| - |Kept(s, atAfter)|)
      ensures r == if Kept(s, atAfter) == [] then Panic else Ok(Kept(s, atAfter)[0])
      ensures r.Ok? ==> exists i :: 0 <= i < |s| && s[i] == r.value && atAfter <= s[i].notAfter
                                    && forall k :: 0 <= k < i ==> s[k].notAfter < atAfter
    {
      hide Kept, Wrap, Nils;
      var kept := DeleteExpired(cas, atAfter, s);
      ghost var cut := SortedKeptIsSuffix(s, atAfter);
      if kept == 0 {
        return Panic;
      }
      assert cas[..kept] == Wrap(Kept(s, atAfter));
      var oldestCA := FirstMinimum(cas, kept, Kept(s, atAfter));
      assert s[cut] == Kept(s, atAfter)[0] == oldestCA;
      r := Ok(oldestCA);
    }

    /**
     The retry loop. A construction that gets through did so on its first attempt, with a
     version computed from exactly the data it replaced; after a conflict it never gets through.
     */
    method SaveWithRetries() returns (saved: bool, ghost trace: seq<Attempt>)
      requires cfg.grain > 0 && IsCopy(server.history, version, data)
      modifies this`version, this`data, this`cas, this`nextKey, server, clock
      ensures old(server.history) <= server.history && old(clock.now) <= clock.now
      ensures !auto ==> !saved && server.history == old(server.history)
      ensures |trace| <= 5 && RetryChain(trace)
      ensures saved ==>
                && |trace| == 1 && Valid(trace[0]) && old(clock.now) <= First(trace[0].r) && trace[0].cfg == cfg
                && LoadsSomehow(old(data), trace[0].loaded)
                && 1 <= version == |server.history| - 1
                && server.history[version - 1] == old(data) && server.history[version] == Layout(trace[0].out)
                && fresh(cas) && cas[..] == Wrap(trace[0].out) && Sorted(trace[0].out)
      ensures saved <==> auto && Loadable(old(data))
                         && Undisturbed(old(version), old(server.history), old(server.others), server.others)
      ensures auto && Loadable(old(data)) && !saved ==>
                |trace| == 5 || (trace == [] && old(version) == -1 && server.history != [])
      ensures FitsHalfLife(cfg, old(clock.now), clock.now) ==> nextKey <= old(nextKey) + 1
    {
      hide Valid, Loads, Loadable, Layout, Generated, GeneratedBy, RetryChain, Pending, Wrap, First, Own;
      trace := [];
      EmptyChain();
      var tries: nat := 5;
      saved := false;
      while !saved
        invariant 0 < tries && |trace| == 5 - tries && RetryChain(trace) && !saved
        invariant old(server.history) <= server.history && old(server.others) <= server.others
        invariant -1 <= version < |server.history| && old(clock.now) <= clock.now
        invariant trace == [] ==> version == old(version) && data == old(data) && nextKey == old(nextKey)
        invariant trace == [] ==> server.history == old(server.history) && server.others == old(server.others)
        invariant trace != [] ==> auto && Loadable(old(data)) && 0 <= version < |server.history| - 1
        invariant trace != [] ==> !Undisturbed(old(version), old(server.history), old(server.others), server.others)
        invariant trace != [] ==> Pending(trace, old(clock.now), cfg, data, nextKey, clock.now)
        invariant nextKey == old(nextKey) + |GeneratedBy(trace)|
        decreases tries
      {
        ghost var keysBefore, dataBefore, nowBefore := nextKey, data, clock.now;
        if trace != [] {
          PendingLoads(trace, old(clock.now), cfg, data, nextKey, clock.now);
        }
        var w, a, stems := TryOnce();
        if w.Refused? {
          if nextKey != keysBefore {
            PreparedKeys(a, old(clock.now), clock.now);
          }
          return false, trace;
        }
        ExtendTrace(trace, old(clock.now), cfg, dataBefore, keysBefore, nowBefore, a, stems, clock.now);
        trace := trace + [a];
        ChainKeys(trace, old(clock.now), cfg, data, nextKey, clock.now, clock.now);
        if w.Written? {
          return true, trace;
        }
        tries := tries - 1;
        if tries == 0 {
          return false, trace;
        }
      }
    }

    /**
     A whole construction. Success means the first attempt was written over exactly the data
     that was read; the signing authority is the earliest-ending one still valid `window` after
     the start; and no more than one key is generated if everything fits in half a lifetime
     less one grain. As built, with no window, the slice keeps all its entries, and a window
     within the reserve never panics.
     */
    method GetCertificateAuthority() returns (r: Outcome<Cert>, ghost trace: seq<Attempt>, ghost start: int)
      requires cfg.grain > 0 && IsCopy(server.history, version, data)
      modifies this`version, this`data, this`cas, this`nextKey, server, clock
      ensures old(server.history) <= server.history && old(clock.now) <= start <= clock.now
      ensures !auto ==> r.Error? && server.history == old(server.history)
      ensures |trace| <= 5 && RetryChain(trace)
      ensures !r.Error? ==>
                && |trace| == 1 && start <= First(trace[0].r) && LoadsSomehow(old(data), trace[0].loaded)
                && 1 <= version == |server.history| - 1
                && server.history[version - 1] == old(data) && server.history[version] == Layout(trace[0].out)
      ensures !r.Error? ==>
                var kept := Kept(trace[0].out, start + window);
                && r == (if kept == [] then Panic else Ok(kept[0]))
                && cas[..] == Wrap(kept) + Nils(|trace[0].out| - |kept|)
      ensures !r.Error? && window <= 0 && cfg.lifetime >= cfg.grain - 1 ==> cas[..] == Wrap(trace[0].out)
      ensures window <= Reserve(cfg) ==> !r.Panic?
      ensures r.Error? <==> !(auto && Loadable(old(data))
                              && Undisturbed(old(version), old(server.history), old(server.others), server.others))
      ensures FitsHalfLife(cfg, start, clock.now) ==> nextKey <= old(nextKey) + 1
    {
      hide Valid, Sorted, Loadable, Undisturbed, LoadsSomehow, Layout, RetryChain, Kept, Wrap, Nils;
      var now := clock.Now();
      start := now;
      var atAfter := now + window;
      var saved;
      saved, trace := SaveWithRetries();
      if !saved {
        return Error, trace, start;
      }
      ghost var a := trace[0];
      r := GetAliveCertificateAuthority(atAfter, a.out);
      WindowEffects(a, start, window);
    }

    /** The trust anchors: every entry of the slice is dereferenced, so a cleared entry panics. */
    method GetTrustAnchors() returns (r: Outcome<seq<Cert>>)
      ensures r.Panic? <==> None in cas[..]
      ensures !r.Error? && (r.Ok? ==> cas[..] == Wrap(r.value))
    {
      var anchors: seq<Cert> := [];
      for i := 0 to cas.Length
        invariant cas[..i] == Wrap(anchors)
      {
        assert cas[i] == cas[..][i];
        if cas[i].None? {
          return Panic;
        }
        anchors := anchors + [cas[i].value];
        WrapAppend(anchors[..i], cas[i].value);
        assert cas[..i + 1] == cas[..i] + [cas[i]];
        assert anchors[..i] + [cas[i].value] == anchors;
      }
      assert cas[..cas.Length] == cas[..];
      r := Ok(anchors);
    }
  }
}
