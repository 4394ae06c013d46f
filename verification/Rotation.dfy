/**
 One attempt to bring the certificate authorities of a Secret up to date: drop the
 expired ones, create one if none is left, and renew when less than half a lifetime
 remains. Times are nanoseconds. The clock is read several times during an attempt,
 and a certificate's end of validity is cut to a multiple of `grain` when it is signed.
 */
module Rotation {
  import opened Sequences
  import opened SecretLayout

  /** DER writes certificate times in whole seconds (section 4.1.2.5 of RFC 5280). */
  const SECOND: nat := 1_000_000_000

  /** `grain` is SECOND for real certificates and 1 for exact times. */
  datatype Config = Config(lifetime: int, grain: nat)

  function Trunc(t: int, grain: nat): (r: int)
    requires grain > 0
    ensures t - grain < r <= t
  {
    t - t % grain
  }

  /** Go's `lifetime / 2`, which rounds toward zero. */
  function Half(lifetime: int): (h: int)
    ensures lifetime >= 0 ==> 0 <= h && 2 * h <= lifetime <= 2 * h + 1
    ensures lifetime < 0 ==> h <= 0 && 2 * h - 1 <= lifetime <= 2 * h
  {
    if lifetime >= 0 then lifetime / 2 else -(-lifetime / 2)
  }

  function UpperHalf(lifetime: int): (h: int) { lifetime - Half(lifetime) }

  /** The clock values read by one attempt, in the order they are read. */
  datatype Readings = Readings(filter: seq<int>, create: int, check: int, renew: int)

  predicate Ordered(r: Readings) {
    && (forall i, j :: 0 <= i < j < |r.filter| ==> r.filter[i] <= r.filter[j])
    && (forall i :: 0 <= i < |r.filter| ==> r.filter[i] <= r.create)
    && r.create <= r.check <= r.renew
  }

  function First(r: Readings): (t: int) { if r.filter == [] then r.create else r.filter[0] }

  /** The time by which the expiry filter had run. */
  function FilterEnd(r: Readings): (t: int) {
    if r.filter == [] then r.create else r.filter[|r.filter| - 1]
  }

  /** The authorities that had not expired when the filter looked at them. */
  function Survivors(cas: seq<Cert>, times: seq<int>): (alive: seq<Cert>)
    requires |cas| == |times|
    ensures |alive| <= |cas|
    ensures forall c :: c in alive ==> c in cas
  {
    if cas == [] then []
    else
      var last := |cas| - 1;
      var front := Survivors(cas[..last], times[..last]);
      if cas[last].notAfter < times[last] then front else front + [cas[last]]
  }

  predicate Sorted(cas: seq<Cert>) {
    forall i, j :: 0 <= i < j < |cas| ==> cas[i].notAfter <= cas[j].notAfter
  }

  /** `t` is a result of sorting `s`; ties may end up in any order. */
  ghost predicate SortOf(s: seq<Cert>, t: seq<Cert>) {
    Sorted(t) && multiset(s) == multiset(t)
  }

  function SelfSigned(cfg: Config, at: int, id: nat): (ca: Cert)
    requires cfg.grain > 0
  {
    Cert(Local(id), Trunc(at + cfg.lifetime, cfg.grain), Local(id), true)
  }

  function Renewed(cfg: Config, at: int, id: nat, parent: Cert): (ca: Cert)
    requires cfg.grain > 0
  {
    Cert(Local(id), Trunc(at + cfg.lifetime, cfg.grain), parent.key, true)
  }

  /**
   An attempt: what was loaded, the clock readings, the number of the next fresh key,
   the list as sorted before renewal, and the list that is proposed for writing.
   */
  datatype Attempt = Attempt(cfg: Config, loaded: seq<Cert>, r: Readings, id: nat,
                             sorted: seq<Cert>, out: seq<Cert>)

  predicate WellTimed(a: Attempt) {
    a.cfg.grain > 0 && |a.r.filter| == |a.loaded| && Ordered(a.r)
  }

  function Alive(a: Attempt): (alive: seq<Cert>)
    requires WellTimed(a)
  {
    Survivors(a.loaded, a.r.filter)
  }

  function Seeded(a: Attempt): (cas: seq<Cert>)
    requires WellTimed(a)
    ensures cas != []
  {
    if Alive(a) == [] then [SelfSigned(a.cfg, a.r.create, a.id)] else Alive(a)
  }

  function NextId(a: Attempt): (id: nat)
    requires WellTimed(a)
  {
    if Alive(a) == [] then a.id + 1 else a.id
  }

  function Newest(a: Attempt): (ca: Cert)
    requires a.sorted != []
  {
    a.sorted[|a.sorted| - 1]
  }

  predicate NeedsRenewal(a: Attempt)
    requires a.sorted != []
  {
    a.r.check + Half(a.cfg.lifetime) > Newest(a).notAfter
  }

  function Renewal(a: Attempt): (cas: seq<Cert>)
    requires WellTimed(a) && a.sorted != []
  {
    if NeedsRenewal(a) then a.sorted + [Renewed(a.cfg, a.r.renew, NextId(a), Newest(a))] else a.sorted
  }

  /** Everything up to the renewal is as the code does it. */
  ghost predicate Prepared(a: Attempt) {
    && WellTimed(a)
    && AllCA(a.loaded)
    && a.sorted != []
    && SortOf(Seeded(a), a.sorted)
  }

  ghost predicate Valid(a: Attempt) {
    Prepared(a) && SortOf(Renewal(a), a.out)
  }

  /** The authorities this attempt created, oldest first. */
  function Generated(a: Attempt): (cas: seq<Cert>)
    requires WellTimed(a) && a.sorted != []
  {
    (if Alive(a) == [] then [SelfSigned(a.cfg, a.r.create, a.id)] else []) +
    (if NeedsRenewal(a) then [Renewed(a.cfg, a.r.renew, NextId(a), Newest(a))] else [])
  }

  // ----- What one attempt keeps, drops and adds

  lemma SameMembers(s: seq<Cert>, t: seq<Cert>, c: Cert)
    requires multiset(s) == multiset(t)
    ensures c in s <==> c in t
  {
    assert c in s <==> c in multiset(s);
    assert c in t <==> c in multiset(t);
  }

  lemma SameLength(s: seq<Cert>, t: seq<Cert>)
    requires multiset(s) == multiset(t)
    ensures |s| == |t|
  {
    assert |multiset(s)| == |s|;
    assert |multiset(t)| == |t|;
  }

  lemma {:induction false} SurvivorsAlive(cas: seq<Cert>, times: seq<int>, c: Cert, from: int)
    requires |cas| == |times|
    requires forall i :: 0 <= i < |times| ==> from <= times[i]
    requires c in Survivors(cas, times)
    ensures c.notAfter >= from
  {
    var last := |cas| - 1;
    if c in Survivors(cas[..last], times[..last]) {
      SurvivorsAlive(cas[..last], times[..last], c, from);
    }
  }

  lemma {:induction false} LiveSurvives(cas: seq<Cert>, times: seq<int>, c: Cert)
    requires |cas| == |times| && c in cas
    requires forall i :: 0 <= i < |times| ==> times[i] <= c.notAfter
    ensures c in Survivors(cas, times)
  {
    var last := |cas| - 1;
    if c != cas[last] {
      assert c in cas[..last];
      LiveSurvives(cas[..last], times[..last], c);
    }
  }

  lemma {:induction false} SurvivorsMultiset(cas: seq<Cert>, times: seq<int>)
    requires |cas| == |times|
    ensures multiset(Survivors(cas, times)) <= multiset(cas)
  {
    if cas == [] {
    } else {
      var last := |cas| - 1;
      SurvivorsMultiset(cas[..last], times[..last]);
      assert cas == cas[..last] + [cas[last]];
    }
  }

  lemma {:induction false} AllSurviveIff(cas: seq<Cert>, times: seq<int>)
    requires |cas| == |times|
    ensures |Survivors(cas, times)| == |cas| <==> forall i :: 0 <= i < |cas| ==> times[i] <= cas[i].notAfter
    ensures |Survivors(cas, times)| == |cas| ==> Survivors(cas, times) == cas
  {
    if cas == [] {
    } else {
      var last := |cas| - 1;
      AllSurviveIff(cas[..last], times[..last]);
      assert cas == cas[..last] + [cas[last]];
    }
  }

  /** What is proposed is exactly what survived the filter plus what was generated. */
  lemma OutMembers(a: Attempt, c: Cert)
    requires Valid(a)
    ensures c in a.out <==> c in Alive(a) || c in Generated(a)
  {
    SameMembers(Renewal(a), a.out, c);
    SameMembers(Seeded(a), a.sorted, c);
  }

  lemma OutAllCA(a: Attempt)
    requires Valid(a)
    ensures AllCA(a.out)
  {
    forall i | 0 <= i < |a.out| ensures a.out[i].isCA {
      OutMembers(a, a.out[i]);
    }
  }

  lemma OutLength(a: Attempt)
    requires Valid(a)
    ensures |a.out| == |Alive(a)| + |Generated(a)|
  {
    SameLength(Renewal(a), a.out);
    SameLength(Seeded(a), a.sorted);
  }

  /** An authority still live when the filter has run stays in the proposal. */
  lemma LiveIsKept(a: Attempt, c: Cert)
    requires Valid(a) && c in a.loaded && FilterEnd(a.r) <= c.notAfter
    ensures c in a.out
  {
    LiveSurvives(a.loaded, a.r.filter, c);
    OutMembers(a, c);
  }

  /** Nothing that had expired before the attempt began is proposed, generated authorities aside. */
  lemma AliveFromFirst(a: Attempt, c: Cert)
    requires WellTimed(a) && c in Alive(a)
    ensures c.notAfter >= First(a.r)
  {
    SurvivorsAlive(a.loaded, a.r.filter, c, First(a.r));
  }

  lemma FirstBeforeRenew(a: Attempt)
    requires WellTimed(a)
    ensures First(a.r) <= FilterEnd(a.r) <= a.r.renew
  {
  }

  lemma LastIsNewest(cas: seq<Cert>, c: Cert)
    requires Sorted(cas) && c in cas
    ensures c.notAfter <= cas[|cas| - 1].notAfter
  {
  }

  lemma NewestIsLast(a: Attempt, c: Cert)
    requires Prepared(a) && c in Seeded(a)
    ensures c.notAfter <= Newest(a).notAfter
  {
    hide Seeded;
    SameMembers(Seeded(a), a.sorted, c);
    LastIsNewest(a.sorted, c);
  }

  /**
   The renewal promise: after an attempt the newest authority is good for at least half
   a lifetime from the moment of the check, cutting of times included.
   */
  lemma NewestHasHalfLife(a: Attempt)
    requires Valid(a) && UpperHalf(a.cfg.lifetime) >= a.cfg.grain - 1
    ensures a.out != [] && a.out[|a.out| - 1].notAfter >= a.r.check + Half(a.cfg.lifetime)
  {
    hide Survivors, Seeded;
    var top := Renewal(a)[|Renewal(a)| - 1];
    assert top.notAfter >= a.r.check + Half(a.cfg.lifetime);
    SameMembers(Renewal(a), a.out, top);
    LastIsNewest(a.out, top);
  }

  /** `t` is `from` cut down to a whole number of grains. */
  predicate CutFrom(t: int, from: int, grain: nat)
    requires grain > 0
  {
    t % grain == 0 && from - grain < t <= from
  }

  lemma SmallMultiple(d: int, grain: int)
    requires 0 <= grain * d < grain
    ensures grain * d == 0
  {
    if d >= 1 {
      assert grain * d == grain * (d - 1) + grain;
    }
  }

  /** A division leaves the quotient and remainder that it is undone with. */
  lemma DivMod(t: int, grain: int)
    requires grain > 0
    ensures t == grain * (t / grain) + t % grain && 0 <= t % grain < grain
  {
  }

  lemma MultipleOf(k: int, grain: int)
    requires grain > 0
    ensures (grain * k) % grain == 0
  {
    var t := grain * k;
    DivMod(t, grain);
    assert t % grain == grain * (k - t / grain);
    SmallMultiple(k - t / grain, grain);
  }

  lemma TruncCuts(t: int, grain: nat)
    requires grain > 0
    ensures CutFrom(Trunc(t, grain), t, grain)
  {
    DivMod(t, grain);
    MultipleOf(t / grain, grain);
  }

  /**
   What an attempt adds to what it loaded: certificates of CAs whose lifetime runs from the
   moment they were made, cut to the grain. The first, if nothing was alive, is its own signer
   and was made at the creation; the other was made at the renewal and signed by the newest.
   */
  ghost predicate MadeBy(a: Attempt, c: Cert)
    requires a.cfg.grain > 0 && a.sorted != []
  {
    c.isCA &&
    (|| (c.key == Local(a.id) == c.signer && CutFrom(c.notAfter, a.r.create + a.cfg.lifetime, a.cfg.grain))
     || (&& (c.key == Local(a.id) || c.key == Local(a.id + 1)) && c.signer == a.sorted[|a.sorted| - 1].key
         && CutFrom(c.notAfter, a.r.renew + a.cfg.lifetime, a.cfg.grain)))
  }

  lemma NewIsMade(a: Attempt, c: Cert)
    requires Prepared(a) && c in Renewal(a) && c !in a.loaded
    ensures MadeBy(a, c)
  {
    hide SortOf, Survivors, CutFrom, Trunc, Ordered;
    TruncCuts(a.r.create + a.cfg.lifetime, a.cfg.grain);
    TruncCuts(a.r.renew + a.cfg.lifetime, a.cfg.grain);
    if c in a.sorted {
      assert c in Seeded(a) by { SortKeepsMembers(a, c); }
    }
  }

  lemma SortKeepsMembers(a: Attempt, c: Cert)
    requires Prepared(a)
    ensures c in a.sorted <==> c in Seeded(a)
  {
    hide Seeded;
    SameMembers(Seeded(a), a.sorted, c);
  }

  /** Every authority proposed but not loaded was made by the attempt, with exactly one lifetime. */
  lemma GeneratedEnds(a: Attempt, c: Cert)
    requires Valid(a) && c in a.out && c !in a.loaded
    ensures MadeBy(a, c) && c.notAfter % a.cfg.grain == 0
    ensures || a.r.create + a.cfg.lifetime - a.cfg.grain < c.notAfter <= a.r.create + a.cfg.lifetime
            || a.r.renew + a.cfg.lifetime - a.cfg.grain < c.notAfter <= a.r.renew + a.cfg.lifetime
  {
    hide Seeded, Survivors, Renewal, CutFrom;
    SameMembers(Renewal(a), a.out, c);
    NewIsMade(a, c);
    CutBounds(a, c);
  }

  lemma CutBounds(a: Attempt, c: Cert)
    requires WellTimed(a) && a.sorted != [] && MadeBy(a, c)
    ensures c.notAfter % a.cfg.grain == 0
    ensures || a.r.create + a.cfg.lifetime - a.cfg.grain < c.notAfter <= a.r.create + a.cfg.lifetime
            || a.r.renew + a.cfg.lifetime - a.cfg.grain < c.notAfter <= a.r.renew + a.cfg.lifetime
    ensures a.r.create + a.cfg.lifetime - a.cfg.grain < c.notAfter <= a.r.renew + a.cfg.lifetime
  {
  }

  // ----- Retries: what one construction can generate in total

  /** Consecutive attempts of one construction: each retry starts from the list it failed to write. */
  ghost predicate RetryChain(attempts: seq<Attempt>) {
    attempts == [] ||
    (var last := |attempts| - 1;
     && RetryChain(attempts[..last])
     && Valid(attempts[last])
     && (last > 0 ==> Valid(attempts[last - 1]) && Follows(attempts[last - 1], attempts[last])))
  }

  ghost predicate Follows(a: Attempt, b: Attempt)
    requires Valid(a) && Valid(b)
  {
    && b.cfg == a.cfg
    && multiset(b.loaded) == multiset(a.out)
    && a.r.renew <= First(b.r)
    && b.id == a.id + |Generated(a)|
  }

  lemma ChainStep(attempts: seq<Attempt>)
    requires RetryChain(attempts) && attempts != []
    ensures var last := |attempts| - 1;
            && RetryChain(attempts[..last]) && Valid(attempts[last])
            && (last > 0 ==> Valid(attempts[last - 1]) && Follows(attempts[last - 1], attempts[last]))
  {
    hide Valid, Follows;
  }

  ghost function GeneratedBy(attempts: seq<Attempt>): (cas: seq<Cert>)
    requires RetryChain(attempts)
  {
    if attempts == [] then []
    else
      var a := attempts[|attempts| - 1];
      GeneratedBy(attempts[..|attempts| - 1]) + Generated(a)
  }

  /** `c` is good for almost a whole lifetime counted from `start`. */
  predicate FreshSince(cfg: Config, start: int, c: Cert) {
    c.notAfter > start + cfg.lifetime - cfg.grain
  }

  lemma GeneratedFresh(a: Attempt, start: int)
    requires Valid(a) && start <= First(a.r)
    ensures forall c :: c in Generated(a) ==> FreshSince(a.cfg, start, c) && c in a.out
  {
    forall c | c in Generated(a) ensures c in a.out { OutMembers(a, c); }
  }

  /** With a fresh authority loaded and the deadline not passed, an attempt generates nothing. */
  lemma FreshMeansNoGeneration(a: Attempt, start: int, c: Cert)
    requires Valid(a) && a.cfg.lifetime >= 0
    requires a.r.renew <= start + UpperHalf(a.cfg.lifetime) - a.cfg.grain
    requires c in a.loaded && FreshSince(a.cfg, start, c)
    ensures Generated(a) == [] && c in a.out
  {
    hide Survivors, SortOf, Half, SelfSigned, Renewed;
    FirstBeforeRenew(a);
    LiveIsKept(a, c);
    LiveSurvives(a.loaded, a.r.filter, c);
    NewestIsLast(a, c);
  }

  lemma OneAttemptOneKey(a: Attempt, start: int)
    requires Prepared(a) && a.cfg.lifetime >= 0 && start <= First(a.r)
    requires a.r.renew <= start + UpperHalf(a.cfg.lifetime) - a.cfg.grain
    ensures |Generated(a)| <= 1
  {
    hide Survivors, SortOf, Half;
    if Alive(a) == [] {
      NewestIsLast(a, SelfSigned(a.cfg, a.r.create, a.id));
    }
  }

  /** One more attempt: at most one key so far, present and fresh, stays at most one key. */
  lemma OneMoreAttempt(keys: seq<Cert>, a: Attempt, start: int)
    requires Valid(a) && a.cfg.lifetime >= 0 && start <= First(a.r)
    requires a.r.renew <= start + UpperHalf(a.cfg.lifetime) - a.cfg.grain
    requires |keys| <= 1 && forall c :: c in keys ==> c in a.loaded && FreshSince(a.cfg, start, c)
    ensures var all := keys + Generated(a);
            |all| <= 1 && forall c :: c in all ==> c in a.out && FreshSince(a.cfg, start, c)
  {
    GeneratedFresh(a, start);
    OneAttemptOneKey(a, start);
    if keys != [] {
      assert keys[0] in keys;
      FreshMeansNoGeneration(a, start, keys[0]);
    }
  }

  lemma {:induction false} ChainStart(attempts: seq<Attempt>)
    requires RetryChain(attempts) && attempts != []
    ensures First(attempts[0].r) <= First(attempts[|attempts| - 1].r)
    ensures attempts[|attempts| - 1].cfg == attempts[0].cfg
  {
    var last := |attempts| - 1;
    if last > 0 {
      ChainStart(attempts[..last]);
      FirstBeforeRenew(attempts[last - 1]);
    }
  }

  /**
   At most one new key per construction: if all its attempts fit in half a lifetime less
   one grain, together they generate at most one authority, and that one is in the last proposal.
   */
  lemma {:induction false} AtMostOneKey(attempts: seq<Attempt>)
    requires RetryChain(attempts) && attempts != []
    requires attempts[0].cfg.lifetime >= 0
    requires attempts[|attempts| - 1].r.renew <=
             First(attempts[0].r) + UpperHalf(attempts[0].cfg.lifetime) - attempts[0].cfg.grain
    ensures |GeneratedBy(attempts)| <= 1
    ensures forall c :: c in GeneratedBy(attempts) ==>
                          c in attempts[|attempts| - 1].out && FreshSince(attempts[0].cfg, First(attempts[0].r), c)
  {
    hide SortOf, Seeded, Renewal, Generated;
    var last, start := |attempts| - 1, First(attempts[0].r);
    var a, before := attempts[last], attempts[..last];
    ChainStart(attempts);
    if last > 0 {
      FirstBeforeRenew(a);
      AtMostOneKey(before);
      forall c | c in GeneratedBy(before) ensures c in a.loaded {
        SameMembers(attempts[last - 1].out, a.loaded, c);
      }
    }
    OneMoreAttempt(GeneratedBy(before), a, start);
  }

  /** No loaded authority carries a key number that is still to be generated. */
  ghost predicate KeysBelow(cas: seq<Cert>, id: nat) {
    forall i :: 0 <= i < |cas| && cas[i].key.Local? ==> cas[i].key.number < id
  }

  lemma GenerationChangesProposal(a: Attempt)
    requires Valid(a) && KeysBelow(a.loaded, a.id) && Generated(a) != []
    ensures multiset(a.out) != multiset(a.loaded)
  {
    hide SortOf, Survivors;
    var c := Generated(a)[0];
    OutMembers(a, c);
    assert c !in a.loaded;
    assert c in multiset(a.out) && c !in multiset(a.loaded);
  }

  lemma NewestIsLoaded(a: Attempt)
    requires Prepared(a) && Alive(a) != []
    ensures Newest(a) in a.loaded
  {
    SameMembers(Seeded(a), a.sorted, Newest(a));
  }

  lemma QuietIff(a: Attempt)
    requires Valid(a) && |Alive(a)| == |a.loaded|
    ensures Generated(a) == [] <==> exists c :: c in a.loaded && c.notAfter >= a.r.check + Half(a.cfg.lifetime)
  {
    hide Survivors, SortOf, Half, SelfSigned, Renewed;
    AllSurviveIff(a.loaded, a.r.filter);
    if Generated(a) == [] {
      NewestIsLoaded(a);
    }
    forall c | c in a.loaded && c.notAfter >= a.r.check + Half(a.cfg.lifetime) ensures Generated(a) == [] {
      NewestIsLast(a, c);
    }
  }

  /** Nothing had expired at the filter, and some authority still had half a lifetime at the check. */
  ghost predicate Quiet(a: Attempt) {
    && |a.r.filter| == |a.loaded|
    && (forall i :: 0 <= i < |a.loaded| ==> a.r.filter[i] <= a.loaded[i].notAfter)
    && (exists c :: c in a.loaded && c.notAfter >= a.r.check + Half(a.cfg.lifetime))
  }

  /** An attempt proposes exactly what it loaded if and only if it is quiet. */
  lemma SameProposalIff(a: Attempt)
    requires Valid(a) && KeysBelow(a.loaded, a.id)
    ensures multiset(a.out) == multiset(a.loaded) <==> Quiet(a)
  {
    hide SortOf, Seeded, Renewal, Generated, Survivors, KeysBelow, Half;
    AllSurviveIff(a.loaded, a.r.filter);
    OutLength(a);
    if multiset(a.out) == multiset(a.loaded) {
      SameLength(a.out, a.loaded);
    }
    if Generated(a) != [] {
      GenerationChangesProposal(a);
    }
    if |Alive(a)| == |a.loaded| {
      QuietIff(a);
      if Generated(a) == [] {
        SameWhenQuiet(a);
      }
    }
  }

  lemma SameWhenQuiet(a: Attempt)
    requires Valid(a) && |Alive(a)| == |a.loaded| && Generated(a) == []
    ensures multiset(a.out) == multiset(a.loaded)
  {
    AllSurviveIff(a.loaded, a.r.filter);
  }

  lemma OutKeysBelow(a: Attempt)
    requires Valid(a) && KeysBelow(a.loaded, a.id)
    ensures KeysBelow(a.out, a.id + |Generated(a)|)
  {
    hide SortOf, Survivors;
    forall i | 0 <= i < |a.out| && a.out[i].key.Local? ensures a.out[i].key.number < a.id + |Generated(a)| {
      OutMembers(a, a.out[i]);
    }
  }

  lemma SameKeysBelow(s: seq<Cert>, t: seq<Cert>, id: nat)
    requires multiset(s) == multiset(t) && KeysBelow(s, id)
    ensures KeysBelow(t, id)
  {
    forall i | 0 <= i < |t| && t[i].key.Local? ensures t[i].key.number < id {
      SameMembers(s, t, t[i]);
    }
  }

  /** Along a chain of retries no loaded authority carries a key number still to be generated. */
  lemma {:induction false} ChainKeysBelow(attempts: seq<Attempt>)
    requires RetryChain(attempts) && attempts != []
    requires KeysBelow(attempts[0].loaded, attempts[0].id)
    ensures var a := attempts[|attempts| - 1]; KeysBelow(a.loaded, a.id)
  {
    hide Valid, Generated, KeysBelow, RetryChain;
    var last := |attempts| - 1;
    ChainStep(attempts);
    if last > 0 {
      ChainKeysBelow(attempts[..last]);
      OutKeysBelow(attempts[last - 1]);
      SameKeysBelow(attempts[last - 1].out, attempts[last].loaded, attempts[last].id);
    }
  }

  ghost predicate AllPropose(attempts: seq<Attempt>, out: multiset<Cert>) {
    forall k :: 0 <= k < |attempts| ==> multiset(attempts[k].out) == out
  }

  ghost predicate AllRetriesQuiet(attempts: seq<Attempt>) {
    forall k :: 1 <= k < |attempts| ==> Quiet(attempts[k])
  }

  /** Every retry proposes the set of the first attempt again if and only if every retry is quiet. */
  lemma {:induction false} SameProposalsIff(attempts: seq<Attempt>)
    requires RetryChain(attempts) && attempts != []
    requires KeysBelow(attempts[0].loaded, attempts[0].id)
    ensures AllPropose(attempts, multiset(attempts[0].out)) <==> AllRetriesQuiet(attempts)
  {
    hide Valid, Quiet, KeysBelow, RetryChain, Generated;
    var last := |attempts| - 1;
    ChainStep(attempts);
    if last > 0 {
      var before, a := attempts[..last], attempts[last];
      SameProposalsIff(before);
      ChainKeysBelow(attempts);
      SameProposalIff(a);
      assert AllRetriesQuiet(attempts) <==> AllRetriesQuiet(before) && Quiet(a);
      assert AllPropose(attempts, multiset(attempts[0].out)) <==>
             AllPropose(before, multiset(attempts[0].out)) && multiset(a.out) == multiset(attempts[0].out);
      assert before[last - 1] == attempts[last - 1];
    }
  }

  /**
   The case that fails: under every lifetime whose deadline leaves room for two attempts, the
   half-life threshold can be passed between them with nothing expired, and the retry then
   proposes a renewal the first attempt did not.
   */
  lemma RetryMayDiffer(cfg: Config) returns (a: Attempt, b: Attempt)
    requires cfg.grain > 0 && cfg.lifetime >= 0 && UpperHalf(cfg.lifetime) > cfg.grain
    ensures RetryChain([a, b]) && a.cfg == b.cfg == cfg && KeysBelow(a.loaded, a.id)
    ensures b.r.renew <= First(a.r) + UpperHalf(cfg.lifetime) - cfg.grain
    ensures forall i :: 0 <= i < |b.loaded| ==> b.r.renew <= b.loaded[i].notAfter
    ensures multiset(a.out) != multiset(b.out)
  {
    hide Valid, RetryChain, Follows, Renewed, Generated;
    var ca := Cert(Foreign(0), Half(cfg.lifetime), Foreign(0), true);
    a := SingleQuiet(cfg, ca, 0, 0);
    b := SingleRenews(cfg, ca, 1);
    SingleFollows(a, b);
    PairIsChain(a, b);
    SameLengthIfSame(a.out, b.out);
  }

  lemma SingleFollows(a: Attempt, b: Attempt)
    requires Valid(a) && Valid(b) && Generated(a) == []
    requires b.cfg == a.cfg && b.id == a.id && b.loaded == a.out && a.r.renew <= First(b.r)
    ensures Follows(a, b)
  {
    hide Valid, Generated;
  }

  lemma SingleAlive(ca: Cert, now: int)
    requires now <= ca.notAfter
    ensures Survivors([ca], [now]) == [ca]
  {
  }

  /** One authority with half a lifetime left is proposed again as it is. */
  lemma SingleQuiet(cfg: Config, ca: Cert, now: int, id: nat) returns (a: Attempt)
    requires cfg.grain > 0 && ca.isCA && cfg.lifetime >= 0 && now + Half(cfg.lifetime) <= ca.notAfter
    ensures a == Attempt(cfg, [ca], Readings([now], now, now, now), id, [ca], [ca])
    ensures Valid(a) && Generated(a) == []
  {
    hide Survivors;
    SingleAlive(ca, now);
    a := Attempt(cfg, [ca], Readings([now], now, now, now), id, [ca], [ca]);
  }

  /** One live authority with less than that gets a renewal beside it. */
  lemma SingleRenews(cfg: Config, ca: Cert, now: int) returns (a: Attempt)
    requires cfg.grain > 0 && ca.isCA && now <= ca.notAfter < now + Half(cfg.lifetime)
    requires ca.notAfter <= now + cfg.lifetime - cfg.grain
    ensures a == Attempt(cfg, [ca], Readings([now], now, now, now), 0, [ca], [ca, Renewed(cfg, now, 0, ca)])
    ensures Valid(a)
  {
    hide Survivors;
    SingleAlive(ca, now);
    a := Attempt(cfg, [ca], Readings([now], now, now, now), 0, [ca], [ca, Renewed(cfg, now, 0, ca)]);
    assert Renewal(a) == a.out;
  }

  lemma SameLengthIfSame(s: seq<Cert>, t: seq<Cert>)
    ensures multiset(s) == multiset(t) ==> |s| == |t|
  {
    if multiset(s) == multiset(t) {
      SameLength(s, t);
    }
  }

  lemma PairIsChain(a: Attempt, b: Attempt)
    requires Valid(a) && Valid(b) && Follows(a, b)
    ensures RetryChain([a, b])
  {
    hide Valid, Follows;
    assert [a, b][..1] == [a] && [a][..0] == [];
    assert RetryChain([]);
    assert RetryChain([a]);
  }

  // ----- How many authorities a store can hold

  /** Pairwise distinct, with ends of validity at least `gap` apart. */
  ghost predicate Spaced(cas: seq<Cert>, gap: int) {
    && (forall c :: multiset(cas)[c] <= 1)
    && (forall c, d :: c in cas && d in cas && c != d && c.notAfter <= d.notAfter ==> d.notAfter - c.notAfter >= gap)
  }

  /** The least distance between an authority and the one that renews it. */
  function Gap(cfg: Config): (gap: int) { UpperHalf(cfg.lifetime) - cfg.grain + 2 }

  lemma SpacedSub(cas: seq<Cert>, sub: seq<Cert>, gap: int)
    requires Spaced(cas, gap) && multiset(sub) <= multiset(cas)
    ensures Spaced(sub, gap)
  {
    forall c | c in sub ensures c in cas {
      assert c in multiset(sub);
    }
  }

  lemma SpacedNeighbours(cas: seq<Cert>, gap: int, i: nat)
    requires Spaced(cas, gap) && Sorted(cas) && i + 1 < |cas|
    ensures cas[i + 1].notAfter - cas[i].notAfter >= gap
  {
    if cas[i] == cas[i + 1] {
      RepeatedElementCounts(cas, i, i + 1);
    }
  }

  lemma {:induction false} SpacedSpan(cas: seq<Cert>, gap: int, k: nat)
    requires Spaced(cas, gap) && Sorted(cas) && k < |cas|
    ensures cas[k].notAfter - cas[0].notAfter >= k * gap
  {
    if k == 0 {
    } else {
      SpacedSpan(cas, gap, k - 1);
      SpacedNeighbours(cas, gap, k - 1);
      assert (k - 1) * gap + gap == k * gap;
    }
  }

  lemma SpacedAppend(cas: seq<Cert>, ca: Cert, gap: int)
    requires Spaced(cas, gap) && Sorted(cas) && gap >= 1
    requires cas != [] ==> ca.notAfter >= cas[|cas| - 1].notAfter + gap
    ensures Spaced(cas + [ca], gap)
  {
    forall c | c in cas ensures c.notAfter + gap <= ca.notAfter {
      LastIsNewest(cas, c);
    }
    assert ca !in cas;
    assert multiset(cas + [ca]) == multiset(cas) + multiset{ca};
  }

  lemma RenewedIsLater(a: Attempt)
    requires Valid(a) && NeedsRenewal(a)
    ensures Renewed(a.cfg, a.r.renew, NextId(a), Newest(a)).notAfter >= Newest(a).notAfter + Gap(a.cfg)
  {
  }

  lemma SortedIsSpaced(a: Attempt)
    requires Prepared(a) && Spaced(a.loaded, Gap(a.cfg))
    ensures Spaced(a.sorted, Gap(a.cfg))
  {
    hide Survivors, Gap;
    SurvivorsMultiset(a.loaded, a.r.filter);
    if Alive(a) != [] {
      SpacedSub(a.loaded, Alive(a), Gap(a.cfg));
    }
    SpacedSub(Seeded(a), a.sorted, Gap(a.cfg));
  }

  /** Renewal keeps authorities apart. */
  lemma AttemptKeepsSpacing(a: Attempt)
    requires Valid(a) && Spaced(a.loaded, Gap(a.cfg)) && Gap(a.cfg) >= 1
    ensures Spaced(a.sorted, Gap(a.cfg)) && Spaced(a.out, Gap(a.cfg))
  {
    SortedIsSpaced(a);
    hide Spaced, Gap, Seeded, Renewed;
    if NeedsRenewal(a) {
      RenewedIsLater(a);
      SpacedAppend(a.sorted, Renewed(a.cfg, a.r.renew, NextId(a), Newest(a)), Gap(a.cfg));
    }
    SpacedSub(Renewal(a), a.out, Gap(a.cfg));
  }

  lemma FullSpan(a: Attempt)
    requires Prepared(a) && Spaced(a.loaded, Gap(a.cfg)) && Alive(a) != []
    ensures Newest(a).notAfter - First(a.r) >= (|Alive(a)| - 1) * Gap(a.cfg)
  {
    hide Spaced, Survivors, Gap;
    SortedIsSpaced(a);
    SameLength(Seeded(a), a.sorted);
    SpacedSpan(a.sorted, Gap(a.cfg), |Alive(a)| - 1);
    SameMembers(Seeded(a), a.sorted, a.sorted[0]);
    AliveFromFirst(a, a.sorted[0]);
  }

  /**
   The counting step: if `bound` - 1 gaps do not fit between the first reading and half a
   lifetime after the check, an attempt on at most `bound` spaced authorities proposes at most `bound`.
   */
  lemma AttemptKeepsBound(a: Attempt, bound: nat)
    requires Valid(a) && Spaced(a.loaded, Gap(a.cfg)) && Gap(a.cfg) >= 1
    requires 2 <= bound && |a.loaded| <= bound
    requires (bound - 1) * Gap(a.cfg) > a.r.check - First(a.r) + Half(a.cfg.lifetime) - 1
    ensures |a.out| <= bound
  {
    hide SortOf, Seeded, Renewal, Spaced, Survivors, Gap, Half;
    OutLength(a);
    if Alive(a) != [] && NeedsRenewal(a) && |Alive(a)| == bound {
      FullSpan(a);
      assert false;
    }
  }
}
