/**
 How long an issued certificate lives and when its pod is restarted: clamping to the
 class maximum, random jitter, the restart buffer, and the tie to the signing authority.
 Durations and times are nanoseconds; the factor and the random draw are exact reals.
 */
module CertLifetime {
  import opened Sequences
  import opened SecretLayout
  import opened Rotation
  import opened Selection

  const HOUR: int := 3600 * SECOND
  const DEFAULT_LIFETIME: int := 24 * 7 * HOUR
  const DEFAULT_JITTER: real := 0.2
  const DEFAULT_BUFFER: int := 8 * HOUR

  /** What the volume asks for; zero means not set. */
  datatype Request = Request(lifetime: int, buffer: int, jitterFactor: real)

  function Buffer(q: Request): (b: int) { if q.buffer == 0 then DEFAULT_BUFFER else q.buffer }

  function Jitter(q: Request): (j: real)
    ensures 0.0 < j < 1.0
  {
    if 0.0 < q.jitterFactor < 1.0 then q.jitterFactor else DEFAULT_JITTER
  }

  /** The lifetime before jitter. */
  function Clamped(q: Request, max: int): (c: int)
    ensures c <= max
  {
    var life := if q.lifetime == 0 then DEFAULT_LIFETIME else q.lifetime;
    if life > max then max else life
  }

  /** Conversion of a float to a duration: toward zero. */
  function Truncate(x: real): (n: int)
    ensures x >= 0.0 ==> 0 <= n && n as real <= x < n as real + 1.0
    ensures x <= 0.0 ==> n <= 0 && n as real - 1.0 < x <= n as real
  {
    if x >= 0.0 then x.Floor else -((-x).Floor)
  }

  /** The share of the jitter that a draw takes off. */
  function Share(life: int, draw: real, jitter: real): (n: int) {
    Truncate(life as real * (draw * jitter))
  }

  /** The lifetime after taking off a random share of the jitter. */
  function Jittered(q: Request, max: int, draw: real): (life: int) {
    Clamped(q, max) - Share(Clamped(q, max), draw, Jitter(q))
  }

  /** getCertLife: refused when the pod would have to restart before it starts. */
  method GetCertLife(q: Request, max: int, draw: real, now: int) returns (r: Option<int>)
    ensures r == if Jittered(q, max, draw) < Buffer(q) then None else Some(Jittered(q, max, draw))
    ensures r.Some? ==> r.value >= if q.buffer == 0 then 28_800_000_000_000 else q.buffer
    ensures r.Some? && 0.0 <= draw < 1.0 ==>
              && (0 < q.lifetime <= max ==> r.value <= q.lifetime && (draw == 0.0 ==> r.value == q.lifetime))
              && (q.lifetime > max > 0 ==> r.value <= max && (draw == 0.0 ==> r.value == max))
              && (q.lifetime == 0 && 0 < max ==>
                    var c := if max < 604_800_000_000_000 then max else 604_800_000_000_000;
                    r.value <= c && (draw == 0.0 ==> r.value == c))
    ensures r.None? && draw == 0.0 ==>
              var asked := if q.lifetime == 0 then 604_800_000_000_000 else q.lifetime;
              (if asked <= max then asked else max) < (if q.buffer == 0 then 28_800_000_000_000 else q.buffer)
  {
    ghost var asked := if q.lifetime == 0 then 604_800_000_000_000 else q.lifetime;
    LifeInWords(q, max, draw, if asked <= max then asked else max, if 0.0 < q.jitterFactor < 1.0 then q.jitterFactor else 0.2);
    hide Jittered, Rounds;
    var certLife := q.lifetime;
    if certLife == 0 {
      certLife := DEFAULT_LIFETIME;
    }
    var restarterBuffer := q.buffer;
    if restarterBuffer == 0 {
      restarterBuffer := DEFAULT_BUFFER;
    }
    if certLife > max {
      certLife := max;
    }
    var jitterFactor := q.jitterFactor;
    if !(0.0 < jitterFactor && jitterFactor < 1.0) {
      jitterFactor := DEFAULT_JITTER;
    }
    assert certLife == Clamped(q, max) && jitterFactor == Jitter(q) && restarterBuffer == Buffer(q);
    hide Clamped, Jitter, Buffer, Share;
    var jitteredCertLife := certLife - Share(certLife, draw, jitterFactor);
    var notAfter := now + jitteredCertLife;
    var podExpires := notAfter - restarterBuffer;
    if podExpires < now {
      return None;
    }
    r := Some(jitteredCertLife);
  }

  lemma BoundedOff(c: real, draw: real, j: real)
    ensures draw == 0.0 ==> c * (draw * j) == 0.0
    ensures c >= 0.0 && draw >= 0.0 && j > 0.0 ==> c * (draw * j) >= 0.0
  {
  }

  lemma OffRange(x: real)
    ensures x >= 0.0 ==> 0 <= Truncate(x)
    ensures x == 0.0 ==> Truncate(x) == 0
    ensures Rounds(Truncate(x), x)
  {
  }

  /** `n` is `x` with its fraction dropped, toward zero. */
  predicate Rounds(n: int, x: real) {
    && (x >= 0.0 ==> n as real <= x < n as real + 1.0)
    && (x <= 0.0 ==> n as real - 1.0 < x <= n as real)
  }

  lemma ShareRounds(c: int, draw: real, j: real)
    ensures Rounds(Share(c, draw, j), c as real * (draw * j))
  {
    hide Truncate, Rounds;
    OffRange(c as real * (draw * j));
  }

  lemma NoDraw(c: int, j: real)
    ensures Share(c, 0.0, j) == 0
  {
    hide Truncate;
    BoundedOff(c as real, 0.0, j);
    OffRange(0.0);
  }

  lemma SomeDraw(c: int, draw: real, j: real)
    requires c >= 0 && draw >= 0.0 && j > 0.0
    ensures Share(c, draw, j) >= 0
  {
    hide Truncate;
    BoundedOff(c as real, draw, j);
    OffRange(c as real * (draw * j));
  }

  /** The settings that take effect: a week, a fifth and eight hours where the volume sets none. */
  lemma Settings(q: Request, max: int)
    ensures Clamped(q, max) == var asked := if q.lifetime == 0 then 604_800_000_000_000 else q.lifetime;
                               if asked <= max then asked else max
    ensures Jitter(q) == if 0.0 < q.jitterFactor < 1.0 then q.jitterFactor else 0.2
    ensures Buffer(q) == if q.buffer == 0 then 28_800_000_000_000 else q.buffer
  {
  }

  /**
   The life in plain terms: the one asked for, or a week when none is, but at most `max`, less
   the drawn share of the factor asked for, or of a fifth when that is not between zero and one.
   */
  lemma LifeInWords(q: Request, max: int, draw: real, c: int, j: real)
    requires c == var asked := if q.lifetime == 0 then 604_800_000_000_000 else q.lifetime;
                  if asked <= max then asked else max
    requires j == if 0.0 < q.jitterFactor < 1.0 then q.jitterFactor else 0.2
    ensures Rounds(c - Jittered(q, max, draw), c as real * (draw * j))
    ensures draw == 0.0 ==> Jittered(q, max, draw) == c
    ensures c >= 0 && draw >= 0.0 ==> Jittered(q, max, draw) <= c
  {
    Settings(q, max);
    hide Clamped, Jitter, Share, Rounds;
    ShareRounds(c, draw, j);
    assert c - Jittered(q, max, draw) == Share(c, draw, j);
    NoDraw(c, j);
    if c >= 0 && draw >= 0.0 {
      SomeDraw(c, draw, j);
    }
  }

  lemma MulStrict(c: real, a: real, b: real)
    requires c > 0.0 && a < b
    ensures c * a < c * b
  {
  }

  lemma MulSwap(a: real, b: real, c: real)
    ensures a * (b * c) == b * (a * c)
  {
  }

  /** The share taken off is part of the whole jitter. */
  lemma ShareOfJitter(c: real, draw: real, j: real)
    requires c > 0.0 && 0.0 <= draw < 1.0 && j > 0.0
    ensures 0.0 <= c * (draw * j) < c * j
  {
    MulStrict(j, draw, 1.0);
    MulStrict(c, draw * j, j);
    if draw > 0.0 {
      MulStrict(j, 0.0, draw);
      MulStrict(c, 0.0, draw * j);
    } else {
      assert draw * j == 0.0;
    }
  }

  lemma TruncateRange(x: real, bound: real)
    requires 0.0 <= x < bound
    ensures 0 <= Truncate(x) && Truncate(x) as real < bound
  {
  }

  lemma ShareRange(c: int, draw: real, j: real)
    requires c > 0 && 0.0 <= draw < 1.0 && j > 0.0
    ensures 0 <= Share(c, draw, j) && Share(c, draw, j) as real < c as real * j
  {
    hide Truncate;
    ShareOfJitter(c as real, draw, j);
    TruncateRange(c as real * (draw * j), c as real * j);
  }

  /** Any amount below the whole jitter is the share of some draw. */
  lemma DrawFor(c: real, j: real, amount: real) returns (draw: real)
    requires c > 0.0 && j > 0.0 && 0.0 <= amount < c * j
    ensures 0.0 <= draw < 1.0 && c * (draw * j) == amount
  {
    draw := amount / (c * j);
    MulSwap(c, draw, j);
  }

  lemma WholeJitter(c: real, j: real)
    ensures c * (1.0 - j) == c - c * j
  {
  }

  /** With a positive lifetime c, jitter leaves more than c(1 - j) and at most c. */
  lemma JitterRange(q: Request, max: int, draw: real)
    requires 0.0 <= draw < 1.0 && Clamped(q, max) > 0
    ensures var c := Clamped(q, max);
            c as real * (1.0 - Jitter(q)) < Jittered(q, max, draw) as real && Jittered(q, max, draw) <= c <= max
  {
    hide Share;
    var c, j := Clamped(q, max), Jitter(q);
    ShareRange(c, draw, j);
    WholeJitter(c as real, j);
    assert Jittered(q, max, draw) as real == c as real - Share(c, draw, j) as real;
  }

  /**
   No draw is ever refused if and only if the lifetime less the whole jitter is not short of
   the buffer by more than one nanosecond.
   */
  lemma NeverRefusedIff(q: Request, max: int)
    requires Clamped(q, max) > 0
    ensures (forall draw :: 0.0 <= draw < 1.0 ==> Jittered(q, max, draw) >= Buffer(q)) <==>
            Clamped(q, max) as real * (1.0 - Jitter(q)) >= Buffer(q) as real - 1.0
  {
    hide Clamped, Jitter, Buffer, Jittered;
    if Clamped(q, max) as real * (1.0 - Jitter(q)) >= Buffer(q) as real - 1.0 {
      forall draw | 0.0 <= draw < 1.0 ensures Jittered(q, max, draw) >= Buffer(q) {
        JitterRange(q, max, draw);
      }
    } else {
      var draw := RefusedDraw(q, max);
    }
  }

  lemma RefusedDraw(q: Request, max: int) returns (draw: real)
    requires Clamped(q, max) > 0
    requires Clamped(q, max) as real * (1.0 - Jitter(q)) < Buffer(q) as real - 1.0
    ensures 0.0 <= draw < 1.0 && Jittered(q, max, draw) < Buffer(q)
  {
    hide Clamped, Jitter, Buffer;
    var c, b, j := Clamped(q, max), Buffer(q), Jitter(q);
    WholeJitter(c as real, j);
    if c < b {
      draw := 0.0;
      ShareOfJitter(c as real, draw, j);
    } else {
      draw := DrawFor(c as real, j, (c - b + 1) as real);
    }
  }

  // ----- Issuing

  /** An issued certificate: the end asked for, the end in the certificate, and the restart time. */
  datatype Issued = Issued(notAfter: int, certNotAfter: int, restartAt: int)

  /** GetSecretData: the life is computed, then the clock is read again for the end of validity. */
  method Issue(q: Request, max: int, draw: real, lifeAt: int, issueAt: int) returns (r: Option<Issued>)
    requires lifeAt <= issueAt
    ensures r.Some? <==> Jittered(q, max, draw) >= Buffer(q)
    ensures r.Some? ==>
              && r.value.notAfter == issueAt + Jittered(q, max, draw)
              && r.value.certNotAfter == Trunc(r.value.notAfter, SECOND)
              && r.value.restartAt == r.value.notAfter - Buffer(q)
              && issueAt <= r.value.restartAt
              && r.value.notAfter - r.value.restartAt == (if q.buffer == 0 then 28_800_000_000_000 else q.buffer)
              && r.value.certNotAfter % 1_000_000_000 == 0
              && r.value.notAfter - 1_000_000_000 < r.value.certNotAfter <= r.value.notAfter
              && (Buffer(q) >= SECOND ==> r.value.restartAt < r.value.certNotAfter)
  {
    var life := GetCertLife(q, max, draw, lifeAt);
    if life.None? {
      return None;
    }
    var notAfter := issueAt + life.value;
    var restarterBuffer := q.buffer;
    if restarterBuffer == 0 {
      restarterBuffer := DEFAULT_BUFFER;
    }
    r := Some(Issued(notAfter, Trunc(notAfter, SECOND), notAfter - restarterBuffer));
  }

  /**
   The pod restarts strictly before its certificate, cut to seconds, runs out, whatever the
   clock says, if and only if the buffer is at least a second.
   */
  lemma RestartBeforeExpiryIff(buffer: int)
    ensures (forall notAfter: int :: notAfter - buffer < Trunc(notAfter, SECOND)) <==> buffer >= SECOND
  {
    if buffer < SECOND {
      var notAfter := SECOND - 1;
      assert Trunc(notAfter, SECOND) == 0;
    }
  }

  // ----- The certificate and its signer

  /** An issued leaf outlives its authority by at most the delay since selection plus what the window lacks. */
  lemma LeafWithinAuthority(cas: seq<Cert>, selectedAt: int, window: int,
                            q: Request, max: int, draw: real, issueAt: int)
    requires Kept(cas, selectedAt + window) != [] && 0.0 <= draw < 1.0 && Clamped(q, max) > 0
    ensures Trunc(issueAt + Jittered(q, max, draw), SECOND) <=
            Kept(cas, selectedAt + window)[0].notAfter + (issueAt - selectedAt) + (max - window)
  {
    hide Share, Clamped;
    JitterRange(q, max, draw);
    KeptMembers(cas, selectedAt + window, Kept(cas, selectedAt + window)[0]);
  }

  /** The ends of validity are whole seconds, as they are in real certificates. */
  predicate WholeSeconds(cas: seq<Cert>) {
    forall i :: 0 <= i < |cas| ==> cas[i].notAfter % SECOND == 0
  }

  /** A life that is handed out: the draw is a random number, and the life covers the buffer. */
  predicate HandedOut(q: Request, max: int, draw: real) {
    0.0 <= draw < 1.0 && Jittered(q, max, draw) >= Buffer(q)
  }

  /** If a signer is selected from `cas` and a leaf is issued, the leaf ends no later than the signer. */
  predicate Covered(cas: seq<Cert>, selectedAt: int, window: int, q: Request, max: int, draw: real, issueAt: int) {
    var kept := Kept(cas, selectedAt + window);
    kept != [] && HandedOut(q, max, draw) ==> Trunc(issueAt + Jittered(q, max, draw), SECOND) <= kept[0].notAfter
  }

  /** Every leaf issued within `delay` of the selection ends no later than its signer. */
  ghost predicate AlwaysCovered(window: int, max: int, delay: nat) {
    forall cas: seq<Cert>, selectedAt: int, q: Request, draw: real, issueAt: int ::
      WholeSeconds(cas) && selectedAt <= issueAt <= selectedAt + delay ==>
        Covered(cas, selectedAt, window, q, max, draw, issueAt)
  }

  /** The longest life any volume can be handed: the maximum, and just under zero for a negative one. */
  function Longest(max: int): (life: int) { if max >= 0 then max else -1 }

  lemma NegativeProduct(c: real, f: real)
    requires c < 0.0 && 0.0 <= f < 1.0
    ensures c < c * f <= 0.0
  {
  }

  lemma DrawnFactor(draw: real, j: real)
    requires 0.0 <= draw < 1.0 && 0.0 < j < 1.0
    ensures 0.0 <= draw * j < 1.0
  {
  }

  lemma TruncateAbove(x: real, c: int)
    requires c as real < x <= 0.0
    ensures c < Truncate(x)
  {
  }

  lemma TruncatedProduct(c: int, f: real)
    requires c < 0 && 0.0 <= f < 1.0
    ensures c < Truncate(c as real * f)
  {
    hide Truncate;
    NegativeProduct(c as real, f);
    TruncateAbove(c as real * f, c);
  }

  lemma NegativeShare(c: int, draw: real, j: real)
    requires c < 0 && 0.0 <= draw < 1.0 && 0.0 < j < 1.0
    ensures c < Share(c, draw, j)
  {
    hide Truncate;
    DrawnFactor(draw, j);
    TruncatedProduct(c, draw * j);
  }

  lemma NoShare(draw: real, j: real)
    ensures Share(0, draw, j) == 0
  {
    assert 0.0 * (draw * j) == 0.0;
  }

  lemma LifeAtMostLongest(q: Request, max: int, draw: real)
    requires 0.0 <= draw < 1.0
    ensures Jittered(q, max, draw) <= Longest(max)
  {
    hide Clamped, Jitter, Share;
    var c, j := Clamped(q, max), Jitter(q);
    if c > 0 {
      JitterRange(q, max, draw);
    } else if c == 0 {
      NoShare(draw, j);
    } else {
      NegativeShare(c, draw, j);
    }
  }

  lemma CoveredWhenWide(cas: seq<Cert>, selectedAt: int, window: int, q: Request, max: int, draw: real,
                        issueAt: int, delay: nat)
    requires WholeSeconds(cas) && selectedAt <= issueAt <= selectedAt + delay
    requires Longest(max) + delay < window + SECOND
    ensures Covered(cas, selectedAt, window, q, max, draw, issueAt)
  {
    hide Jittered, Kept, Longest;
    var kept := Kept(cas, selectedAt + window);
    if kept != [] && HandedOut(q, max, draw) {
      LifeAtMostLongest(q, max, draw);
      KeptMembers(cas, selectedAt + window, kept[0]);
      WholeBelow(Trunc(issueAt + Jittered(q, max, draw), SECOND), kept[0].notAfter);
    }
  }

  lemma WholeBelow(a: int, b: int)
    requires a % SECOND == 0 && b % SECOND == 0 && a < b + SECOND
    ensures a <= b
  {
  }

  lemma Scaled(j: real, a: real, b: real)
    requires j > 0.0 && a <= b
    ensures a * j <= b * j
  {
  }

  lemma Fraction(f: real, j: real)
    requires 0.0 <= f < j
    ensures 0.0 <= f / j < 1.0 && (f / j) * j == f
  {
    var q := f / j;
    assert q * j == f;
    if q >= 1.0 {
      Scaled(j, 1.0, q);
    }
  }

  lemma SplitFactor(f: real) returns (draw: real, j: real)
    requires 0.0 <= f < 1.0
    ensures 0.0 <= draw < 1.0 && 0.0 < j < 1.0 && draw * j == f
  {
    j := (1.0 + f) / 2.0;
    draw := f / j;
    Fraction(f, j);
  }

  lemma WholeShare(c: int, draw: real, j: real, n: int)
    requires c as real * (draw * j) == n as real
    ensures Share(c, draw, j) == n
  {
  }

  lemma OneShort(c: real, f: real)
    requires c < 0.0 && f == (c + 1.0) / c
    ensures c * f == c + 1.0
  {
  }

  lemma OneShortFactor(c: real)
    requires c <= -1.0
    ensures 0.0 <= (c + 1.0) / c < 1.0
  {
  }

  /** Some volume and draw get the longest life: the maximum with no jitter, or a negative one almost undone. */
  lemma LongestIsHandedOut(max: int) returns (q: Request, draw: real)
    ensures HandedOut(q, max, draw) && Jittered(q, max, draw) == Longest(max)
  {
    hide Share;
    if max >= 0 {
      q, draw := Request(max, if max == 0 then -1 else 1, 0.5), 0.0;
      assert max as real * (0.0 * 0.5) == 0.0;
      WholeShare(max, 0.0, 0.5, 0);
    } else {
      var c, j := max as real, 0.5;
      OneShortFactor(c);
      draw, j := SplitFactor((c + 1.0) / c);
      OneShort(c, draw * j);
      WholeShare(max, draw, j, max + 1);
      q := Request(max, -1, j);
    }
  }

  lemma NotCoveredWhenNarrow(window: int, max: int, delay: nat)
    requires Longest(max) + delay >= window + SECOND
    ensures !AlwaysCovered(window, max, delay)
  {
    hide Jittered, HandedOut, Longest;
    var ca := Cert(Foreign(0), 0, Foreign(0), true);
    var q, draw := LongestIsHandedOut(max);
    var issueAt := delay - window;
    KeptMembers([ca], 0, ca);
    assert Kept([ca], 0) == [ca];
    LastsASecond(issueAt + Longest(max));
    assert WholeSeconds([ca]) && !Covered([ca], -window, window, q, max, draw, issueAt);
  }

  /**
   Leaves always end no later than the authority selected to sign them if and only if the
   longest life plus the delay stays below the window plus one second.
   */
  lemma AlwaysCoveredIff(window: int, max: int, delay: nat)
    ensures AlwaysCovered(window, max, delay) <==> Longest(max) + delay < window + SECOND
  {
    hide Covered, Longest;
    if Longest(max) + delay < window + SECOND {
      forall cas: seq<Cert>, selectedAt: int, q: Request, draw: real, issueAt: int
        | WholeSeconds(cas) && selectedAt <= issueAt <= selectedAt + delay
        ensures Covered(cas, selectedAt, window, q, max, draw, issueAt)
      {
        CoveredWhenWide(cas, selectedAt, window, q, max, draw, issueAt, delay);
      }
    } else {
      NotCoveredWhenNarrow(window, max, delay);
    }
  }

  /**
   The case that fails, as the manager is built: for every maximum of a second or more, some
   attempt selects an authority at the end of its validity, and a leaf it signs outlives it.
   */
  lemma LeafOutlivesSigner(lifetime: int, max: int) returns (a: Attempt, q: Request, draw: real)
    requires lifetime >= SECOND && max >= SECOND
    ensures RunsAfter(Config(lifetime, SECOND), 0, a) && WholeSeconds(a.out)
    ensures !Covered(a.out, 0, 0, q, max, draw, 0)
  {
    hide Jittered, HandedOut, Valid, Kept;
    var cfg, ca := Config(lifetime, SECOND), Cert(Foreign(0), 0, Foreign(0), true);
    a := SingleRenews(cfg, ca, 0);
    q, draw := LongestIsHandedOut(max);
    RenewedWhole(cfg, 0, 0, ca);
    hide Renewed;
    KeptAllIff(a.out, 0);
    LastsASecond(max);
  }

  lemma RenewedWhole(cfg: Config, at: int, id: nat, parent: Cert)
    requires cfg.grain == SECOND && at + cfg.lifetime >= 0
    ensures Renewed(cfg, at, id, parent).notAfter % SECOND == 0 && Renewed(cfg, at, id, parent).notAfter >= 0
  {
  }

  lemma LastsASecond(t: int)
    requires t >= SECOND
    ensures Trunc(t, SECOND) > 0
  {
  }
}
