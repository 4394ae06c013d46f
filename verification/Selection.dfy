/**
 Choosing the signing authority from the proposed list: entries that expire before a
 given time are deleted in place, and the one that expires first among the rest is taken.
 */
module Selection {
  import opened Sequences
  import opened SecretLayout
  import opened Rotation

  /** The entries that are still valid at `at`, in order. */
  function Kept(cas: seq<Cert>, at: int): (kept: seq<Cert>)
    ensures |kept| <= |cas|
  {
    if cas == [] then []
    else
      var last := |cas| - 1;
      var front := Kept(cas[..last], at);
      if cas[last].notAfter < at then front else front + [cas[last]]
  }

  lemma {:induction false} KeptMembers(cas: seq<Cert>, at: int, c: Cert)
    ensures c in Kept(cas, at) <==> c in cas && at <= c.notAfter
  {
    if cas == [] {
    } else {
      var last := |cas| - 1;
      KeptMembers(cas[..last], at, c);
      assert cas == cas[..last] + [cas[last]];
    }
  }

  lemma KeptAppend(cas: seq<Cert>, c: Cert, at: int)
    ensures Kept(cas + [c], at) == if c.notAfter < at then Kept(cas, at) else Kept(cas, at) + [c]
  {
    assert (cas + [c])[..|cas|] == cas;
  }

  lemma {:induction false} KeptAllIff(cas: seq<Cert>, at: int)
    ensures Kept(cas, at) == cas <==> forall i :: 0 <= i < |cas| ==> at <= cas[i].notAfter
    ensures |Kept(cas, at)| == |cas| ==> Kept(cas, at) == cas
  {
    if cas == [] {
    } else {
      var last := |cas| - 1;
      KeptAllIff(cas[..last], at);
      assert cas == cas[..last] + [cas[last]];
    }
  }

  lemma NothingKept(cas: seq<Cert>, at: int)
    requires forall i :: 0 <= i < |cas| ==> cas[i].notAfter < at
    ensures Kept(cas, at) == []
  {
    if Kept(cas, at) != [] {
      KeptMembers(cas, at, Kept(cas, at)[0]);
    }
  }

  /** On a sorted list exactly a prefix is deleted, and the survivors keep their order. */
  lemma {:induction false} SortedKeptIsSuffix(cas: seq<Cert>, at: int) returns (cut: nat)
    requires Sorted(cas)
    ensures cut <= |cas| && Kept(cas, at) == cas[cut..]
    ensures forall i :: 0 <= i < |cas| ==> (i < cut <==> cas[i].notAfter < at)
  {
    var last := |cas| - 1;
    if cas == [] {
      cut := 0;
    } else if cas[last].notAfter < at {
      cut := |cas|;
      NothingKept(cas, at);
    } else {
      cut := SortedKeptIsSuffix(cas[..last], at);
      DropLast(cas, cut);
    }
  }

  /** An attempt under `cfg` whose clock readings all come after `start`. */
  ghost predicate RunsAfter(cfg: Config, start: int, a: Attempt) {
    Valid(a) && a.cfg == cfg && start <= First(a.r)
  }

  /** How long the newest authority is sure to last after the check: half a lifetime, or a new one's cut life. */
  function Reserve(cfg: Config): (d: int) {
    var cut := cfg.lifetime - cfg.grain + 1;
    if cut < Half(cfg.lifetime) then cut else Half(cfg.lifetime)
  }

  lemma NewestHasReserve(a: Attempt)
    requires Valid(a)
    ensures a.out != [] && a.out[|a.out| - 1].notAfter >= a.r.check + Reserve(a.cfg)
  {
    hide Survivors, Seeded;
    var top := Renewal(a)[|Renewal(a)| - 1];
    SameMembers(Renewal(a), a.out, top);
    LastIsNewest(a.out, top);
  }

  lemma WindowLeavesNewest(a: Attempt, start: int, window: int)
    requires Valid(a) && start <= First(a.r) && window <= Reserve(a.cfg)
    ensures Kept(a.out, start + window) != []
  {
    NewestHasReserve(a);
    FirstBeforeRenew(a);
    KeptMembers(a.out, start + window, a.out[|a.out| - 1]);
  }

  /** The attempt whose newest authority lasts no longer than the reserve. */
  lemma TightAttempt(cfg: Config) returns (a: Attempt, now: int)
    requires cfg.grain > 0
    ensures RunsAfter(cfg, now, a) && forall c :: c in a.out ==> c.notAfter == now + Reserve(cfg)
  {
    if Reserve(cfg) == Half(cfg.lifetime) && cfg.lifetime >= 0 {
      now := -Half(cfg.lifetime);
      var ca := Cert(Foreign(0), 0, Foreign(0), true);
      a := Attempt(cfg, [ca], Readings([now], now, now, now), 0, [ca], [ca]);
      assert Survivors([ca], [now]) == [ca];
    } else {
      now, a := CutAttempt(cfg);
    }
  }

  /** Two authorities generated at once, both ending a whole grain less one early. */
  lemma CutAttempt(cfg: Config) returns (now: int, a: Attempt)
    requires cfg.grain > 0 && cfg.lifetime - cfg.grain + 1 < Half(cfg.lifetime)
    ensures RunsAfter(cfg, now, a) && a.out != []
    ensures forall c :: c in a.out ==> c.notAfter == now + cfg.lifetime - cfg.grain + 1
  {
    now := cfg.grain - 1 - cfg.lifetime;
    CutToZero(cfg.grain);
    var root := SelfSigned(cfg, now, 0);
    var next := Renewed(cfg, now, 1, root);
    hide Trunc, Half;
    a := Attempt(cfg, [], Readings([], now, now, now), 0, [root], [root, next]);
    assert Renewal(a) == [root, next];
  }

  lemma CutToZero(grain: nat)
    requires grain > 0
    ensures Trunc(grain - 1, grain) == 0
  {
  }

  /**
   The selection never runs on an empty list, whatever was loaded and whenever the clock was
   read, if and only if the window is at most half a lifetime and at most a new authority's life
   once its end is cut to the grain.
   */
  lemma SelectionNonEmptyIff(cfg: Config, window: int)
    requires cfg.grain > 0
    ensures window <= Half(cfg.lifetime) && window <= cfg.lifetime - cfg.grain + 1 <==>
            forall a: Attempt, start: int :: RunsAfter(cfg, start, a) ==>
                                               Kept(a.out, start + window) != []
  {
    if window <= Reserve(cfg) {
      forall a: Attempt, start: int | RunsAfter(cfg, start, a)
        ensures Kept(a.out, start + window) != []
      {
        WindowLeavesNewest(a, start, window);
      }
    } else {
      var a, now := TightAttempt(cfg);
      NothingKept(a.out, now + window);
    }
  }

  /**
   With no window, as the manager is built, nothing is ever deleted if and only if an
   authority outlives its own creation once its end is cut to the grain.
   */
  lemma NothingDeletedIff(cfg: Config)
    requires cfg.grain > 0
    ensures cfg.lifetime >= cfg.grain - 1 <==>
            forall a: Attempt, start: int :: RunsAfter(cfg, start, a) ==>
                                               Kept(a.out, start) == a.out
  {
    if cfg.lifetime >= cfg.grain - 1 {
      forall a: Attempt, start: int | RunsAfter(cfg, start, a)
        ensures Kept(a.out, start) == a.out
      {
        NothingDeleted(a, start);
      }
    } else {
      DeletesFreshAuthority(cfg);
    }
  }

  lemma NothingDeleted(a: Attempt, start: int)
    requires Valid(a) && start <= First(a.r) && a.cfg.lifetime >= a.cfg.grain - 1
    ensures Kept(a.out, start) == a.out
  {
    forall i | 0 <= i < |a.out| ensures start <= a.out[i].notAfter {
      OutMembers(a, a.out[i]);
      if a.out[i] in Alive(a) {
        AliveFromFirst(a, a.out[i]);
      }
    }
    KeptAllIff(a.out, start);
  }

  lemma DeletesFreshAuthority(cfg: Config)
    requires cfg.grain > 0 && cfg.lifetime < cfg.grain - 1
    ensures exists a: Attempt, start: int :: RunsAfter(cfg, start, a) && Kept(a.out, start) != a.out
  {
    var now, a := CutAttempt(cfg);
    KeptMembers(a.out, now, a.out[0]);
  }
}
