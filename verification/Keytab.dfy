/**
 Provisioning a Kerberos keytab: the admin keytab is put in a file for each kadmin query and
 removed after it, every principal is added, and then all of them are exported at once.
 */
module Keytab {
  import opened Sequences

  type Bytes = seq<int>

  datatype Command = AddPrinc(principal: string) | KtAdd(keytab: string, principals: seq<string>)

  /** One run of the kadmin program: the keytab file it was given, what was in it, and whether it succeeded. */
  datatype Execution = Execution(path: string, keytab: Bytes, command: Command, ok: bool)

  /**
   What a `Kadmin` and the machine hold between queries: the path, empty before the first file,
   the files, the runs so far, and how often the machine failed before kadmin could be run.
   */
  datatype State = State(path: string, files: map<string, Bytes>, log: seq<Execution>, faults: nat)

  /**
   How a query ends: before the keytab file is touched, with the file only partly written, or
   after kadmin ran, which may have written an export file.
   */
  datatype Outcome = NotStarted | WriteFailed(partial: Bytes) | Ran(ok: bool, exported: Option<Bytes>)

  datatype Request = Request(command: Command, temporary: string, outcome: Outcome)

  function Target(s: State, temporary: string): (path: string) {
    if s.path == "" then temporary else s.path
  }

  /** The keytab kadmin reads: a file already at the target is used as it is. */
  function Presented(s: State, keytab: Bytes, temporary: string): (content: Bytes) {
    var p := Target(s, temporary);
    if p in s.files then s.files[p] else keytab
  }

  /** A temporary name is new when it is taken; a file is written only when none is there. */
  predicate Possible(s: State, keytab: Bytes, q: Request) {
    && q.temporary != ""
    && (s.path == "" ==> q.temporary !in s.files)
    && (q.outcome.WriteFailed? ==> Target(s, q.temporary) !in s.files && q.outcome.partial < keytab)
    && (q.outcome.Ran? && q.outcome.exported.Some? ==> q.command.KtAdd?)
  }

  function Exported(files: map<string, Bytes>, command: Command, keys: Option<Bytes>): (after: map<string, Bytes>) {
    if command.KtAdd? && keys.Some? then files[command.keytab := keys.value] else files
  }

  function After(s: State, keytab: Bytes, q: Request): (t: State) {
    var p := Target(s, q.temporary);
    match q.outcome
    case NotStarted => State(s.path, s.files, s.log, s.faults + 1)
    case WriteFailed(partial) => State(s.path, s.files[p := partial], s.log, s.faults + 1)
    case Ran(ok, keys) =>
      var ran := Execution(p, Presented(s, keytab, q.temporary), q.command, ok);
      State(p, Exported(s.files, q.command, keys) - {p}, s.log + [ran], s.faults)
  }

  /** `s` is what a fresh `Kadmin` reaches on `files` by the queries `qs`. */
  ghost predicate Reached(keytab: Bytes, files: map<string, Bytes>, qs: seq<Request>, s: State)
    decreases |qs|, 1
  {
    if qs == [] then s == State("", files, [], 0)
    else exists before :: Follows(keytab, files, qs, before, s)
  }

  ghost predicate Follows(keytab: Bytes, files: map<string, Bytes>, qs: seq<Request>, before: State, s: State)
    requires qs != []
    decreases |qs|, 0
  {
    && Reached(keytab, files, qs[..|qs| - 1], before)
    && Possible(before, keytab, qs[|qs| - 1])
    && s == After(before, keytab, qs[|qs| - 1])
  }

  predicate RanAt(qs: seq<Request>, i: nat) {
    i < |qs| && qs[i].outcome.Ran?
  }

  predicate WriteFailedAt(qs: seq<Request>, i: nat) {
    i < |qs| && qs[i].outcome.WriteFailed?
  }

  ghost predicate Named(qs: seq<Request>) {
    exists i :: RanAt(qs, i)
  }

  ghost predicate FailedSince(qs: seq<Request>, j: nat) {
    WriteFailedAt(qs, j) && forall k :: j < k ==> !RanAt(qs, k)
  }

  /** The file at the remembered path was written only in part, and kadmin has not run since. */
  ghost predicate Torn(qs: seq<Request>) {
    exists i, j :: i < j && RanAt(qs, i) && FailedSince(qs, j)
  }

  ghost predicate RanTornAt(qs: seq<Request>, i: nat, j: nat, k: nat) {
    i < j < k && RanAt(qs, i) && WriteFailedAt(qs, j) && RanAt(qs, k)
  }

  /** kadmin ran, a later write failed, and kadmin ran again. */
  ghost predicate RanTorn(qs: seq<Request>) {
    exists i, j, k :: RanTornAt(qs, i, j, k)
  }

  lemma NamedLast(qs: seq<Request>)
    requires qs != []
    ensures Named(qs) <==> Named(qs[..|qs| - 1]) || qs[|qs| - 1].outcome.Ran?
  {
    var n: nat, front := |qs| - 1, qs[..|qs| - 1];
    if i :| RanAt(front, i) {
      assert RanAt(qs, i);
    }
    if qs[n].outcome.Ran? {
      assert RanAt(qs, n);
    }
    if i :| RanAt(qs, i) {
      assert i == n || RanAt(front, i);
    }
  }

  lemma TornLast(qs: seq<Request>)
    requires qs != []
    ensures Torn(qs) <==>
              || (Torn(qs[..|qs| - 1]) && !qs[|qs| - 1].outcome.Ran?)
              || (Named(qs[..|qs| - 1]) && qs[|qs| - 1].outcome.WriteFailed?)
  {
    var n: nat, front := |qs| - 1, qs[..|qs| - 1];
    if Torn(front) && !qs[n].outcome.Ran? {
      var i: nat, j: nat :| i < j && RanAt(front, i) && FailedSince(front, j);
      forall k: nat | j < k ensures !RanAt(qs, k) {
        assert k < n ==> !RanAt(front, k);
      }
      assert RanAt(qs, i) && FailedSince(qs, j);
    }
    if Named(front) && qs[n].outcome.WriteFailed? {
      var i :| RanAt(front, i);
      assert RanAt(qs, i) && FailedSince(qs, n);
    }
    if Torn(qs) {
      var i: nat, j: nat :| i < j && RanAt(qs, i) && FailedSince(qs, j);
      assert RanAt(front, i);
      if j < n {
        assert !RanAt(qs, n);
        forall k: nat | j < k ensures !RanAt(front, k) {
          assert !RanAt(qs, k);
        }
        assert FailedSince(front, j);
      }
    }
  }

  lemma RanTornLast(qs: seq<Request>)
    requires qs != []
    ensures RanTorn(qs) <==> RanTorn(qs[..|qs| - 1]) || (Torn(qs[..|qs| - 1]) && qs[|qs| - 1].outcome.Ran?)
  {
    var n: nat, front := |qs| - 1, qs[..|qs| - 1];
    if i: nat, j: nat, k: nat :| RanTornAt(front, i, j, k) {
      assert RanTornAt(qs, i, j, k);
    }
    if Torn(front) && qs[n].outcome.Ran? {
      var i: nat, j: nat :| i < j && RanAt(front, i) && FailedSince(front, j);
      assert RanTornAt(qs, i, j, n);
    }
    if i: nat, j: nat, k: nat :| RanTornAt(qs, i, j, k) {
      if k < n {
        assert RanTornAt(front, i, j, k);
      } else if m: nat :| j < m && RanAt(front, m) {
        assert RanTornAt(front, i, j, m);
      } else {
        assert RanAt(front, i) && FailedSince(front, j);
      }
    }
  }

  ghost predicate AllExact(log: seq<Execution>, keytab: Bytes) {
    forall e <- log :: e.keytab == keytab
  }

  ghost predicate OnePath(log: seq<Execution>, path: string) {
    forall e <- log :: e.path == path
  }

  /** What every sequence of queries keeps, in terms of the outcomes alone. */
  ghost predicate Kept(keytab: Bytes, qs: seq<Request>, s: State) {
    && (s.path != "" <==> Named(qs))
    && OnePath(s.log, s.path)
    && (s.path == "" ==> s.log == [])
    && (s.path != "" ==> (s.path in s.files <==> Torn(qs)))
    && (s.path != "" && s.path in s.files ==> s.files[s.path] < keytab)
    && (AllExact(s.log, keytab) <==> !RanTorn(qs))
  }

  lemma StepKept(keytab: Bytes, qs: seq<Request>, before: State, s: State)
    requires qs != []
    requires Kept(keytab, qs[..|qs| - 1], before)
    requires Possible(before, keytab, qs[|qs| - 1]) && s == After(before, keytab, qs[|qs| - 1])
    ensures Kept(keytab, qs, s)
  {
    hide Named, Torn, RanTorn;
    NamedLast(qs);
    TornLast(qs);
    RanTornLast(qs);
    TornIsNamed(qs[..|qs| - 1]);
    var q := qs[|qs| - 1];
    if q.outcome.Ran? {
      var e := Execution(s.path, Presented(before, keytab, q.temporary), q.command, q.outcome.ok);
      assert s.log == before.log + [e];
      assert e in s.log;
      assert e.keytab == keytab <==> !Torn(qs[..|qs| - 1]) || before.path == "";
      assert AllExact(s.log, keytab) <==> AllExact(before.log, keytab) && e.keytab == keytab;
    }
  }

  lemma TornIsNamed(qs: seq<Request>)
    ensures Torn(qs) ==> Named(qs)
  {
  }

  lemma NothingYet()
    ensures !Named([]) && !Torn([]) && !RanTorn([])
  {
  }

  lemma {:induction false} ReachedKept(keytab: Bytes, files: map<string, Bytes>, qs: seq<Request>, s: State)
    requires Reached(keytab, files, qs, s)
    ensures Kept(keytab, qs, s)
  {
    if qs == [] {
      NothingYet();
    } else {
      var before :| Follows(keytab, files, qs, before, s);
      ReachedKept(keytab, files, qs[..|qs| - 1], before);
      StepKept(keytab, qs, before, s);
    }
  }

  /**
   Over any sequence of queries all kadmin runs use one file path. All of them read exactly the
   admin keytab if and only if no run, later failed write and still later run occur in that order.
   */
  lemma ExactUnlessTorn(keytab: Bytes, files: map<string, Bytes>, qs: seq<Request>, s: State)
    requires Reached(keytab, files, qs, s)
    ensures OnePath(s.log, s.path)
    ensures AllExact(s.log, keytab) <==> !RanTorn(qs)
  {
    hide Torn, RanTorn, Named;
    ReachedKept(keytab, files, qs, s);
  }

  /** A query touches the keytab file and its export, and no other file. */
  lemma OtherFilesKept(s: State, keytab: Bytes, q: Request, f: string)
    requires f != Target(s, q.temporary) && (q.command.KtAdd? ==> f != q.command.keytab)
    ensures f in After(s, keytab, q).files <==> f in s.files
    ensures f in s.files ==> After(s, keytab, q).files[f] == s.files[f]
  {
  }

  /** The case that fails: a second write stops halfway, and the next query runs on what it left. */
  lemma TornKeytabIsUsed()
    ensures exists qs, s :: Reached([1, 2], map[], qs, s) && s.log != [] && s.log[|s.log| - 1].keytab == [1]
  {
    var keytab, add := [1, 2], AddPrinc("a/b@C");
    var ran, failed := Request(add, "t", Ran(true, None)), Request(add, "t", WriteFailed([1]));
    var s0 := State("", map[], [], 0);
    var s1 := After(s0, keytab, ran);
    var s2 := After(s1, keytab, failed);
    var s3 := After(s2, keytab, ran);
    assert [ran][..0] == [] && [ran, failed][..1] == [ran] && [ran, failed, ran][..2] == [ran, failed];
    assert Reached(keytab, map[], [], s0);
    assert Follows(keytab, map[], [ran], s0, s1);
    assert Follows(keytab, map[], [ran, failed], s1, s2);
    assert Follows(keytab, map[], [ran, failed, ran], s2, s3);
    assert Reached(keytab, map[], [ran, failed, ran], s3);
  }

  /** With no failed write the keytab file is absent between queries. */
  lemma AbsentBetweenQueries(keytab: Bytes, files: map<string, Bytes>, qs: seq<Request>, s: State)
    requires Reached(keytab, files, qs, s)
    requires forall i :: !WriteFailedAt(qs, i)
    ensures s.path == "" || s.path !in s.files
    ensures AllExact(s.log, keytab)
  {
    ReachedKept(keytab, files, qs, s);
  }

  function Principal(service: string, hostname: string, realm: string): (principal: string) {
    service + "/" + hostname + "@" + realm
  }

  /** The hostnames in order, without the addresses that have none. */
  function Fqdns(hostnames: seq<string>): (hosts: seq<string>) {
    if hostnames == [] then []
    else
      var n := |hostnames| - 1;
      Fqdns(hostnames[..n]) + if hostnames[n] == "" then [] else [hostnames[n]]
  }

  /** How many of the addresses have a hostname. */
  function NamedCount(hostnames: seq<string>): (n: nat) {
    if hostnames == [] then 0
    else NamedCount(hostnames[..|hostnames| - 1]) + if hostnames[|hostnames| - 1] != "" then 1 else 0
  }

  /** The k-th hostname that is not empty is the k-th one kept. */
  lemma {:induction false} FqdnAt(hostnames: seq<string>, k: nat)
    requires k <= |hostnames|
    ensures |Fqdns(hostnames)| == NamedCount(hostnames)
    ensures k < |hostnames| && hostnames[k] != "" ==>
              NamedCount(hostnames[..k]) < |Fqdns(hostnames)| && Fqdns(hostnames)[NamedCount(hostnames[..k])] == hostnames[k]
  {
    if hostnames == [] {
    } else {
      var last := |hostnames| - 1;
      FqdnAt(hostnames[..last], if k < last then k else last);
      if k < last {
        assert hostnames[..last][..k] == hostnames[..k];
      }
    }
  }

  /** A hostname that occurs several times is kept that many times. */
  lemma {:induction false} FqdnsCount(hostnames: seq<string>, h: string)
    ensures multiset(Fqdns(hostnames))[h] == if h == "" then 0 else multiset(hostnames)[h]
  {
    if hostnames == [] {
    } else {
      var n := |hostnames| - 1;
      FqdnsCount(hostnames[..n], h);
      assert hostnames == hostnames[..n] + [hostnames[n]];
    }
  }

  lemma {:induction false} NoHosts(hostnames: seq<string>)
    ensures Fqdns(hostnames) == [] <==> forall h <- hostnames :: h == ""
  {
    if hostnames == [] {
    } else {
      var n := |hostnames| - 1;
      NoHosts(hostnames[..n]);
      assert hostnames[n] in hostnames;
      assert forall h <- hostnames :: h in hostnames[..n] || h == hostnames[n];
      assert forall h <- hostnames[..n] :: h in hostnames;
      assert |Fqdns(hostnames)| == |Fqdns(hostnames[..n])| + if hostnames[n] == "" then 0 else 1;
    }
  }

  function ForService(service: string, hosts: seq<string>, realm: string): (principals: seq<string>) {
    seq(|hosts|, k requires 0 <= k < |hosts| => Principal(service, hosts[k], realm))
  }

  function Principals(services: seq<string>, hosts: seq<string>, realm: string): (principals: seq<string>) {
    if services == [] then []
    else
      var n := |services| - 1;
      Principals(services[..n], hosts, realm) + ForService(services[n], hosts, realm)
  }

  lemma {:induction false} PrincipalCount(services: seq<string>, hosts: seq<string>, realm: string)
    ensures |Principals(services, hosts, realm)| == |services| * |hosts|
  {
    if services == [] {
    } else {
      var n := |services| - 1;
      PrincipalCount(services[..n], hosts, realm);
      assert (n + 1) * |hosts| == n * |hosts| + |hosts|;
    }
  }

  /** Each service and host position has one principal, at a position of its own. */
  lemma {:induction false} PrincipalAt(services: seq<string>, hosts: seq<string>, realm: string, i: nat, k: nat)
    requires i < |services| && k < |hosts|
    ensures i * |hosts| + k < |Principals(services, hosts, realm)| == |services| * |hosts|
    ensures Principals(services, hosts, realm)[i * |hosts| + k] == services[i] + "/" + hosts[k] + "@" + realm
  {
    var n := |services| - 1;
    PrincipalCount(services, hosts, realm);
    PrincipalCount(services[..n], hosts, realm);
    if i < n {
      PrincipalAt(services[..n], hosts, realm, i, k);
    }
  }

  lemma SlashAfter(a: string, b: string, p: string)
    requires '/' !in b && |a| <= |b| <= |p| && p[..|b|] == b
    requires |a| < |p| && p[|a|] == '/'
    ensures |a| == |b|
  {
    forall i | 0 <= i < |b| ensures p[i] != '/' {
      assert p[i] == b[i] && b[i] in b;
    }
  }

  /** Distinct service and host names give distinct principals when no service name holds a slash. */
  lemma PrincipalInjective(a: string, h: string, b: string, g: string, realm: string)
    requires '/' !in a && '/' !in b
    requires Principal(a, h, realm) == Principal(b, g, realm)
    ensures a == b && h == g
  {
    var p, q := Principal(a, h, realm), Principal(b, g, realm);
    if |a| <= |b| {
      SlashAfter(a, b, p);
    } else {
      SlashAfter(b, a, p);
    }
    assert a == p[..|a|] && b == q[..|b|];
    assert h == p[|a| + 1..][..|h|] && g == q[|b| + 1..][..|g|];
  }

  lemma NoPrincipals(hosts: seq<string>, realm: string)
    ensures Principals([], hosts, realm) == []
  {
  }

  lemma OneMoreService(services: seq<string>, hosts: seq<string>, realm: string, i: nat)
    requires i < |services|
    ensures Principals(services[..i + 1], hosts, realm)
         == Principals(services[..i], hosts, realm) + ForService(services[i], hosts, realm)
  {
    assert services[..i + 1][..i] == services[..i];
  }

  lemma OneMoreHost(service: string, hostnames: seq<string>, realm: string, k: nat)
    requires k < |hostnames|
    ensures ForService(service, Fqdns(hostnames[..k + 1]), realm)
         == ForService(service, Fqdns(hostnames[..k]), realm)
            + if hostnames[k] == "" then [] else [Principal(service, hostnames[k], realm)]
  {
    hide Principal;
    assert hostnames[..k + 1][..k] == hostnames[..k];
  }

  method AddService(before: seq<string>, service: string, hostnames: seq<string>, realm: string)
    returns (all: seq<string>)
    ensures all == before + ForService(service, Fqdns(hostnames), realm)
  {
    all := before;
    assert hostnames[..0] == [];
    for k := 0 to |hostnames|
      invariant all == before + ForService(service, Fqdns(hostnames[..k]), realm)
    {
      OneMoreHost(service, hostnames, realm, k);
      if hostnames[k] != "" {
        all := all + [Principal(service, hostnames[k], realm)];
      }
    }
    assert hostnames[..|hostnames|] == hostnames;
  }

  /** One principal for each service and each hostname; having none is an error. */
  method GetPrincipals(services: seq<string>, hostnames: seq<string>, realm: string)
    returns (principals: Option<seq<string>>)
    ensures principals.None? <==> services == [] || forall h <- hostnames :: h == ""
    ensures principals.Some? ==> principals.value == Principals(services, Fqdns(hostnames), realm) != []
  {
    hide Fqdns, Principals, ForService, Principal;
    ghost var hosts := Fqdns(hostnames);
    var all: seq<string> := [];
    NoPrincipals(hosts, realm);
    for i := 0 to |services|
      invariant all == Principals(services[..i], hosts, realm)
    {
      all := AddService(all, services[i], hostnames, realm);
      OneMoreService(services, hosts, realm, i);
    }
    assert services[..|services|] == services;
    PrincipalCount(services, hosts, realm);
    NoHosts(hostnames);
    assert |all| == 0 <==> services == [] || hosts == [];
    principals := if all == [] then None else Some(all);
  }

  /** The temporary directory, the kadmin runs so far, and the failures of the machine itself. */
  class Host {
    var files: map<string, Bytes>
    var log: seq<Execution>
    var faults: nat

    constructor ()
      ensures files == map[] && log == [] && faults == 0
    {
      files, log, faults := map[], [], 0;
    }

    /** Writes the krb5.conf that kadmin is pointed to, which may fail. */
    method Configure() returns (ok: bool)
      modifies this`faults
      ensures faults == if ok then old(faults) else old(faults) + 1
    {
      ok := *;
      if !ok {
        faults := faults + 1;
      }
    }

    /** Creating a file may fail, and so may writing it; a failed write leaves some of the bytes. */
    method CreateAndWrite(path: string, content: Bytes) returns (created: bool, partial: Option<Bytes>)
      modifies this`files, this`faults
      ensures !created ==> partial.None? && files == old(files)
      ensures created && partial.None? ==> files == old(files)[path := content]
      ensures created && partial.Some? ==> partial.value < content && files == old(files)[path := partial.value]
      ensures faults == if created && partial.None? then old(faults) else old(faults) + 1
    {
      created, partial := *, None;
      if created {
        var n :| 0 <= n <= |content|;
        files := files[path := content[..n]];
        assert content[..|content|] == content;
        partial := if n == |content| then None else Some(content[..n]);
      }
      if !created || partial.Some? {
        faults := faults + 1;
      }
    }

    method Remove(path: string)
      modifies this`files
      ensures files == old(files) - {path}
    {
      files := files - {path};
    }

    /** Runs kadmin on the file at `path`; an export may write its keytab, and the program may fail. */
    method Execute(path: string, command: Command) returns (ok: bool, exported: Option<Bytes>)
      requires path in files
      modifies this`files, this`log
      ensures log == old(log) + [Execution(path, old(files[path]), command, ok)]
      ensures exported.Some? ==> command.KtAdd?
      ensures files == Exported(old(files), command, exported)
    {
      ok, exported := *, None;
      log := log + [Execution(path, files[path], command, ok)];
      if command.KtAdd? {
        var writes: bool, keys: Bytes := *, *;
        if writes {
          files, exported := files[command.keytab := keys], Some(keys);
        }
      }
    }
  }

  class Kadmin {
    const host: Host
    const adminKeytab: Bytes
    /** Empty until the first call has made a temporary file. */
    var adminKeytabPath: string

    constructor (host: Host, adminKeytab: Bytes)
      ensures this.host == host && this.adminKeytab == adminKeytab && adminKeytabPath == ""
    {
      this.host, this.adminKeytab, this.adminKeytabPath := host, adminKeytab, "";
    }

    function Current(): (s: State)
      reads this, host
    {
      State(adminKeytabPath, host.files, host.log, host.faults)
    }

    predicate Takes(temporary: string)
      reads this, host
    {
      temporary != "" && (adminKeytabPath == "" ==> temporary !in host.files)
    }

    /** The path of a file holding the admin keytab, which is written if no file is there. */
    method GetAdminKeytabPath(temporary: string) returns (path: Option<string>, partial: Option<Bytes>)
      requires Takes(temporary)
      modifies this`adminKeytabPath, host`files, host`faults
      ensures var before, p := old(Current()), Target(old(Current()), temporary);
              && (path.Some? ==>
                    && path.value == p && partial.None?
                    && host.files == before.files[p := Presented(before, adminKeytab, temporary)]
                    && adminKeytabPath == p && host.faults == before.faults)
              && (path.None? && partial.None? ==> Current() == before.(faults := before.faults + 1))
              && (partial.Some? ==>
                    && path.None? && p !in before.files && partial.value < adminKeytab
                    && Current() == State(before.path, before.files[p := partial.value], before.log, before.faults + 1))
    {
      path, partial := None, None;
      var created: bool;
      if adminKeytabPath == "" {
        created, partial := host.CreateAndWrite(temporary, adminKeytab);
        if !created || partial.Some? {
          return;
        }
        adminKeytabPath := temporary;
      } else if adminKeytabPath !in host.files {
        created, partial := host.CreateAndWrite(adminKeytabPath, adminKeytab);
        if !created || partial.Some? {
          return;
        }
      }
      path := Some(adminKeytabPath);
    }

    /** One query, with the keytab file removed whenever its path was obtained. */
    method Query(command: Command, temporary: string) returns (outcome: Outcome)
      requires Takes(temporary)
      modifies this`adminKeytabPath, host
      ensures Possible(old(Current()), adminKeytab, Request(command, temporary, outcome))
      ensures Current() == After(old(Current()), adminKeytab, Request(command, temporary, outcome))
    {
      var configured := host.Configure();
      if !configured {
        return NotStarted;
      }
      var path, partial := GetAdminKeytabPath(temporary);
      if path.None? {
        return if partial.Some? then WriteFailed(partial.value) else NotStarted;
      }
      var ok, exported := host.Execute(path.value, command);
      host.Remove(path.value);
      outcome := Ran(ok, exported);
      ghost var files, p := old(host.files), path.value;
      RemoveAgain(files, p, Presented(old(Current()), adminKeytab, temporary), command, exported);
    }

    /** Exports the keys of all principals; the export file is gone afterwards in every case. */
    method Ktadd(principals: seq<string>, keytab: string, temporary: string) returns (keys: Option<Bytes>, outcome: Outcome)
      requires Takes(temporary)
      requires keytab !in host.files && keytab != Target(Current(), temporary)
      modifies this`adminKeytabPath, host
      ensures Possible(old(Current()), adminKeytab, Request(KtAdd(keytab, principals), temporary, outcome))
      ensures var after := After(old(Current()), adminKeytab, Request(KtAdd(keytab, principals), temporary, outcome));
              Current() == after.(files := after.files - {keytab})
      ensures keys == if outcome.Ran? && outcome.ok then outcome.exported else None
    {
      outcome := Query(KtAdd(keytab, principals), temporary);
      keys := None;
      if outcome.Ran? && outcome.ok && keytab in host.files {
        keys := Some(host.files[keytab]);
      }
      host.Remove(keytab);
    }

    method AddPrincipal(principal: string, temporary: string) returns (outcome: Outcome)
      requires Takes(temporary)
      modifies this`adminKeytabPath, host
      ensures Possible(old(Current()), adminKeytab, Request(AddPrinc(principal), temporary, outcome))
      ensures Current() == After(old(Current()), adminKeytab, Request(AddPrinc(principal), temporary, outcome))
    {
      outcome := Query(AddPrinc(principal), temporary);
    }
  }

  lemma RemoveAgain(files: map<string, Bytes>, p: string, content: Bytes, command: Command, keys: Option<Bytes>)
    ensures Exported(files[p := content], command, keys) - {p} == Exported(files, command, keys) - {p}
  {
  }

  /** The runs that add the first `n` principals, each successful and with the whole admin keytab. */
  function Adds(path: string, keytab: Bytes, principals: seq<string>, n: nat): (runs: seq<Execution>)
    requires n <= |principals|
    ensures |runs| == n
    ensures forall e <- runs :: e.path == path && e.keytab == keytab && e.command.AddPrinc? && e.ok
    ensures forall i :: 0 <= i < n ==> runs[i] == Execution(path, keytab, AddPrinc(principals[i]), true)
  {
    seq(n, i requires 0 <= i < n => Execution(path, keytab, AddPrinc(principals[i]), true))
  }

  lemma NoAdds(path: string, keytab: Bytes, principals: seq<string>)
    ensures Adds(path, keytab, principals, 0) == []
  {
  }

  lemma OneMoreAdd(path: string, keytab: Bytes, principals: seq<string>, n: nat)
    requires n < |principals|
    ensures Adds(path, keytab, principals, n + 1)
         == Adds(path, keytab, principals, n) + [Execution(path, keytab, AddPrinc(principals[n]), true)]
  {
  }

  /** The run of the query that ended last, if kadmin was run for it at all. */
  function LastRun(path: string, keytab: Bytes, command: Command, last: Outcome): (runs: seq<Execution>) {
    if last.Ran? then [Execution(path, keytab, command, last.ok)] else []
  }

  predicate Succeeded(outcome: Outcome) { outcome.Ran? && outcome.ok }

  /** The files left behind by a query that found no keytab file: none, unless writing it failed. */
  function Left(files: map<string, Bytes>, path: string, outcome: Outcome): (after: map<string, Bytes>) {
    if outcome.WriteFailed? then files[path := outcome.partial] else files
  }

  /** A query from a state without a keytab file, in terms of what it adds to the log and the files. */
  lemma CleanQuery(s: State, keytab: Bytes, q: Request)
    requires Possible(s, keytab, q) && Target(s, q.temporary) !in s.files
    requires q.command.KtAdd? ==> q.command.keytab !in s.files && q.command.keytab != Target(s, q.temporary)
    ensures var t, p := After(s, keytab, q), Target(s, q.temporary);
            && (t.path == s.path || t.path == p)
            && t.log == s.log + LastRun(p, keytab, q.command, q.outcome)
            && t.faults == (if q.outcome.Ran? then s.faults else s.faults + 1)
            && (q.command.AddPrinc? ==> t.files == Left(s.files, p, q.outcome))
            && (q.command.KtAdd? ==> t.files - {q.command.keytab} == Left(s.files, p, q.outcome))
  {
  }

  /**
   Adds the principals in order and stops at the first query that does not succeed. `n` of them
   were added; if that is not all, `last` is how the next one failed.
   */
  method AddPrincipals(kadmin: Kadmin, principals: seq<string>, temporary: string)
    returns (n: nat, last: Outcome)
    requires temporary != "" && temporary !in kadmin.host.files
    requires kadmin.adminKeytabPath == "" || kadmin.adminKeytabPath == temporary
    modifies kadmin`adminKeytabPath, kadmin.host
    ensures kadmin.adminKeytabPath == "" || kadmin.adminKeytabPath == temporary
    ensures n <= |principals| && (n < |principals| ==> !Succeeded(last))
    ensures n == |principals| ==>
              && kadmin.host.log == old(kadmin.host.log) + Adds(temporary, kadmin.adminKeytab, principals, n)
              && kadmin.host.files == old(kadmin.host.files) && kadmin.host.faults == old(kadmin.host.faults)
    ensures n < |principals| ==>
              && kadmin.host.log == old(kadmin.host.log) + Adds(temporary, kadmin.adminKeytab, principals, n)
                                    + LastRun(temporary, kadmin.adminKeytab, AddPrinc(principals[n]), last)
              && kadmin.host.files == Left(old(kadmin.host.files), temporary, last)
              && kadmin.host.faults == old(kadmin.host.faults) + (if last.Ran? then 0 else 1)
              && (last.WriteFailed? ==> last.partial < kadmin.adminKeytab)
  {
    hide Adds, After;
    NoAdds(temporary, kadmin.adminKeytab, principals);
    last, n := NotStarted, 0;
    while n < |principals|
      invariant n <= |principals|
      invariant kadmin.host.files == old(kadmin.host.files) && kadmin.host.faults == old(kadmin.host.faults)
      invariant kadmin.adminKeytabPath == "" || kadmin.adminKeytabPath == temporary
      invariant kadmin.host.log == old(kadmin.host.log) + Adds(temporary, kadmin.adminKeytab, principals, n)
    {
      ghost var before := kadmin.Current();
      last := kadmin.AddPrincipal(principals[n], temporary);
      CleanQuery(before, kadmin.adminKeytab, Request(AddPrinc(principals[n]), temporary, last));
      if !(last.Ran? && last.ok) {
        return n, last;
      }
      OneMoreAdd(temporary, kadmin.adminKeytab, principals, n);
      n := n + 1;
    }
  }

  /** The query that ended a provisioning: the failed add, or the export once all were added. */
  function LastCommand(principals: seq<string>, n: nat, target: string): (command: Command) {
    if n < |principals| then AddPrinc(principals[n]) else KtAdd(target, principals)
  }

  /**
   Adds every principal in order and then exports them together. The export is run only when
   all were added successfully, a keytab is returned exactly when it then succeeds and wrote
   one, and no run sees anything but the whole admin keytab.
   */
  method ProvisionKeytab(host: Host, adminKeytab: Option<Bytes>, hostnames: Option<seq<string>>,
                         services: seq<string>, realm: string, temporary: string, target: string)
    returns (keytab: Option<Bytes>, n: nat, last: Outcome)
    requires temporary != "" && temporary !in host.files
    requires target !in host.files && target != temporary
    modifies host
    ensures host.files == Left(old(host.files), temporary, last)
    ensures last.WriteFailed? ==> adminKeytab.Some? && last.partial < adminKeytab.value
    ensures adminKeytab.None? || hostnames.None? || Principals(services, Fqdns(hostnames.value), realm) == [] ==>
              keytab.None? && host.log == old(host.log)
    ensures adminKeytab.Some? && hostnames.Some? && Principals(services, Fqdns(hostnames.value), realm) != [] ==>
              var ps := Principals(services, Fqdns(hostnames.value), realm);
              && n <= |ps| && (n < |ps| ==> !Succeeded(last))
              && host.log == old(host.log) + Adds(temporary, adminKeytab.value, ps, n)
                             + LastRun(temporary, adminKeytab.value, LastCommand(ps, n, target), last)
              && (last.Ran? <==> host.faults == old(host.faults))
              && keytab == if n == |ps| && Succeeded(last) then last.exported else None
  {
    hide Adds, After, Principals, Fqdns;
    keytab, n, last := None, 0, NotStarted;
    if adminKeytab.None? {
      return;
    }
    var kadmin := new Kadmin(host, adminKeytab.value);
    if hostnames.None? {
      return;
    }
    var principals := GetPrincipals(services, hostnames.value, realm);
    if principals.None? {
      PrincipalCount(services, Fqdns(hostnames.value), realm);
      NoHosts(hostnames.value);
      return;
    }
    n, last := AddPrincipals(kadmin, principals.value, temporary);
    if n < |principals.value| {
      return;
    }
    ghost var before := kadmin.Current();
    keytab, last := kadmin.Ktadd(principals.value, target, temporary);
    CleanQuery(before, adminKeytab.value, Request(KtAdd(target, principals.value), temporary, last));
  }
}
