/**
 The volume context that carries a PVC's annotations from the controller to the node:
 a struct filled from an unordered map, and printed back into a map.
 */
module VolumeContext {
  import opened Sequences
  import opened Text
  import opened Scope

  /** The keys the code knows, and any other. */
  datatype Key =
    | PodName | PodNamespace | PodUid | ServiceAccountName | Ephemeral
    | ProvisionerIdentity | StorageProvisioner | DeprecatedStorageProvisioner
    | SecretsClass | SecretsScope | SecretsFormat | KerberosServiceNames | Pkcs12Password
    | CertLifetime | CertJitterFactor | CertRestartBuffer
    | OtherKey(name: string)

  datatype Context = Context(
    pod: string, podNamespace: string, podUid: string, serviceAccountName: string, ephemeral: string,
    provisionerIdentity: string, provisioner: string,
    secretClass: string, scope: SecretScope, format: string, kerberosServiceNames: seq<string>,
    password: string, lifetime: int, jitterFactor: real, restartBuffer: int)

  const ZERO := Context("", "", "", "", "", "", "", "", EMPTY, "", [], "", 0, 0.0, 0)

  /** Go's text forms of durations and floats, whose layout is left open. */
  datatype Formats = Formats(
    parseDuration: string -> Option<int>, printDuration: int -> string,
    parseFactor: string -> Option<real>, printFactor: real -> string)

  /** `g` is `f` printed with six decimals and read again; ties may go either way. */
  predicate RoundedTo6(f: real, g: real) {
    -0.0000005 <= g - f <= 0.0000005 && SixDecimals(g)
  }

  predicate SixDecimals(g: real) { (g * 1000000.0).Floor as real == g * 1000000.0 }

  /** Durations print and parse back exactly, factors to six decimals. */
  ghost predicate Lawful(t: Formats) {
    && (forall d :: t.parseDuration(t.printDuration(d)) == Some(d))
    && (forall f :: var g := t.parseFactor(t.printFactor(f)); g.Some? && RoundedTo6(f, g.value))
  }

  // ----- Parsing

  datatype Parsed = Ok(context: Context) | Error | Panic

  /** The assignment one entry makes. */
  function Assign(t: Formats, v: Context, key: Key, value: string): (r: Parsed) {
    match key
    case PodName => Ok(v.(pod := value))
    case PodNamespace => Ok(v.(podNamespace := value))
    case PodUid => Ok(v.(podUid := value))
    case ServiceAccountName => Ok(v.(serviceAccountName := value))
    case Ephemeral => Ok(v.(ephemeral := value))
    case ProvisionerIdentity => Ok(v.(provisionerIdentity := value))
    case StorageProvisioner => Ok(v.(provisioner := value))
    case DeprecatedStorageProvisioner => Ok(v)
    case SecretsClass => Ok(v.(secretClass := value))
    case SecretsScope =>
      var scope := Decode(value);
      if scope.None? then Panic else Ok(v.(scope := scope.value))
    case SecretsFormat => Ok(v.(format := value))
    case KerberosServiceNames => Ok(v.(kerberosServiceNames := Split(value, ',')))
    case Pkcs12Password => Ok(v.(password := value))
    case CertLifetime =>
      var d := t.parseDuration(value);
      if d.None? then Error else Ok(v.(lifetime := d.value))
    case CertJitterFactor =>
      var f := t.parseFactor(value);
      if f.None? then Error else Ok(v.(jitterFactor := f.value))
    case CertRestartBuffer =>
      var d := t.parseDuration(value);
      if d.None? then Error else Ok(v.(restartBuffer := d.value))
    case OtherKey(_) => Ok(v)
  }

  /** What the values of a map say, whatever order they are looked at. */
  function Field(m: map<Key, string>, key: Key): (s: string) {
    if key in m then m[key] else ""
  }

  predicate BadScope(m: map<Key, string>) { SecretsScope in m && Decode(m[SecretsScope]).None? }

  predicate BadNumber(t: Formats, m: map<Key, string>) {
    || (CertLifetime in m && t.parseDuration(m[CertLifetime]).None?)
    || (CertJitterFactor in m && t.parseFactor(m[CertJitterFactor]).None?)
    || (CertRestartBuffer in m && t.parseDuration(m[CertRestartBuffer]).None?)
  }

  function ScopeOf(m: map<Key, string>): (x: SecretScope) {
    if SecretsScope in m && Decode(m[SecretsScope]).Some? then Decode(m[SecretsScope]).value else EMPTY
  }

  function NamesOf(m: map<Key, string>): (names: seq<string>) {
    if KerberosServiceNames in m then Split(m[KerberosServiceNames], ',') else []
  }

  function DurationOf(t: Formats, m: map<Key, string>, key: Key): (d: int) {
    if key in m && t.parseDuration(m[key]).Some? then t.parseDuration(m[key]).value else 0
  }

  function FactorOf(t: Formats, m: map<Key, string>): (f: real) {
    if CertJitterFactor in m && t.parseFactor(m[CertJitterFactor]).Some?
    then t.parseFactor(m[CertJitterFactor]).value else 0.0
  }

  /** The context that the entries of `m` describe, field by field. */
  function Read(t: Formats, m: map<Key, string>): (v: Context) {
    Context(
      Field(m, PodName), Field(m, PodNamespace), Field(m, PodUid), Field(m, ServiceAccountName), Field(m, Ephemeral),
      Field(m, ProvisionerIdentity), Field(m, StorageProvisioner), Field(m, SecretsClass),
      ScopeOf(m), Field(m, SecretsFormat), NamesOf(m), Field(m, Pkcs12Password),
      DurationOf(t, m, CertLifetime), FactorOf(t, m), DurationOf(t, m, CertRestartBuffer))
  }

  /** Which key fills which field. */
  lemma FieldsRead(t: Formats, m: map<Key, string>)
    ensures var v := Read(t, m);
            && (v.pod == if PodName in m then m[PodName] else "")
            && (v.podNamespace == if PodNamespace in m then m[PodNamespace] else "")
            && (v.podUid == if PodUid in m then m[PodUid] else "")
            && (v.serviceAccountName == if ServiceAccountName in m then m[ServiceAccountName] else "")
            && (v.ephemeral == if Ephemeral in m then m[Ephemeral] else "")
            && (v.provisionerIdentity == if ProvisionerIdentity in m then m[ProvisionerIdentity] else "")
            && (v.provisioner == if StorageProvisioner in m then m[StorageProvisioner] else "")
            && (v.secretClass == if SecretsClass in m then m[SecretsClass] else "")
            && (v.format == if SecretsFormat in m then m[SecretsFormat] else "")
            && (v.password == if Pkcs12Password in m then m[Pkcs12Password] else "")
    ensures var v := Read(t, m);
            && (KerberosServiceNames !in m ==> v.kerberosServiceNames == [])
            && (KerberosServiceNames in m ==>
                  Free(',', v.kerberosServiceNames) && Join(v.kerberosServiceNames, ',') == m[KerberosServiceNames])
            && (SecretsScope !in m ==> v.scope == SecretScope("", "", [], []))
            && (SecretsScope in m && Decode(m[SecretsScope]).Some? ==> Some(v.scope) == Decode(m[SecretsScope]))
            && (CertLifetime !in m ==> v.lifetime == 0)
            && (CertLifetime in m && t.parseDuration(m[CertLifetime]).Some? ==>
                  Some(v.lifetime) == t.parseDuration(m[CertLifetime]))
            && (CertRestartBuffer !in m ==> v.restartBuffer == 0)
            && (CertRestartBuffer in m && t.parseDuration(m[CertRestartBuffer]).Some? ==>
                  Some(v.restartBuffer) == t.parseDuration(m[CertRestartBuffer]))
            && (CertJitterFactor !in m ==> v.jitterFactor == 0.0)
            && (CertJitterFactor in m && t.parseFactor(m[CertJitterFactor]).Some? ==>
                  Some(v.jitterFactor) == t.parseFactor(m[CertJitterFactor]))
  {
    hide Split, Decode, Join;
    if KerberosServiceNames in m {
      SplitPiecesFree(m[KerberosServiceNames], ',');
      JoinSplit(m[KerberosServiceNames], ',');
    }
  }

  /** One more entry changes what its own key says and nothing else. */
  lemma EntryFrame(t: Formats, done: map<Key, string>, key: Key, value: string)
    ensures var more := done[key := value];
            && (forall k :: Field(more, k) == if k == key then value else Field(done, k))
            && (key != SecretsScope ==> ScopeOf(more) == ScopeOf(done) && BadScope(more) == BadScope(done))
            && (key != KerberosServiceNames ==> NamesOf(more) == NamesOf(done))
            && (forall k :: k != key ==> DurationOf(t, more, k) == DurationOf(t, done, k))
            && (key != CertJitterFactor ==> FactorOf(t, more) == FactorOf(t, done))
            && (!IsNumber(key) ==> BadNumber(t, more) == BadNumber(t, done))
  {
    hide Decode, Split;
  }

  predicate IsNumber(key: Key) { key.CertLifetime? || key.CertJitterFactor? || key.CertRestartBuffer? }

  lemma NumberStep(t: Formats, done: map<Key, string>, key: Key, value: string)
    requires !BadScope(done) && !BadNumber(t, done) && IsNumber(key)
    ensures var more, r := done[key := value], Assign(t, Read(t, done), key, value);
            if BadNumber(t, more) then r.Error? else r == Ok(Read(t, more))
  {
    hide Decode, Split, Field, ScopeOf, NamesOf;
    EntryFrame(t, done, key, value);
  }

  lemma TextStep(t: Formats, done: map<Key, string>, key: Key, value: string)
    requires !IsNumber(key) && key != SecretsScope
    ensures Assign(t, Read(t, done), key, value) == Ok(Read(t, done[key := value]))
  {
    hide Decode, Split, Field, ScopeOf, FactorOf, DurationOf, BadScope, BadNumber;
    EntryFrame(t, done, key, value);
  }

  lemma ScopeStep(t: Formats, done: map<Key, string>, value: string)
    ensures var more, r := done[SecretsScope := value], Assign(t, Read(t, done), SecretsScope, value);
            if BadScope(more) then r.Panic? else r == Ok(Read(t, more))
  {
    hide Decode, Split, Field, NamesOf, FactorOf, DurationOf, BadNumber;
    EntryFrame(t, done, SecretsScope, value);
  }

  /** The entry `key` on top of those already read. */
  lemma ReadStep(t: Formats, done: map<Key, string>, key: Key, value: string)
    requires !BadScope(done) && !BadNumber(t, done)
    ensures var more := done[key := value];
            match Assign(t, Read(t, done), key, value)
            case Ok(v) => !BadScope(more) && !BadNumber(t, more) && v == Read(t, more)
            case Error => BadNumber(t, more)
            case Panic => BadScope(more)
  {
    hide Assign, Read, BadScope, BadNumber, ScopeOf, Field;
    EntryFrame(t, done, key, value);
    if IsNumber(key) {
      NumberStep(t, done, key, value);
    } else if key == SecretsScope {
      ScopeStep(t, done, value);
    } else {
      TextStep(t, done, key, value);
    }
  }

  /**
   Order independence: the map is walked in an arbitrary order, and every order gives the
   same verdict and, on success, the same context.
   */
  method NewVolumeContextFromMap(t: Formats, parameters: map<Key, string>) returns (r: Parsed)
    ensures r.Ok? <==> !BadScope(parameters) && !BadNumber(t, parameters)
    ensures r.Ok? ==> r.context == Read(t, parameters)
    ensures r.Error? ==> BadNumber(t, parameters)
    ensures r.Panic? ==> BadScope(parameters)
  {
    hide Decode, Assign;
    var v := ZERO;
    var remaining := parameters.Keys;
    ghost var done: map<Key, string> := map[];
    while remaining != {}
      invariant remaining <= parameters.Keys
      invariant done.Keys == parameters.Keys - remaining
      invariant forall k :: k in done ==> done[k] == parameters[k]
      invariant !BadScope(done) && !BadNumber(t, done) && v == Read(t, done)
      decreases remaining
    {
      var key :| key in remaining;
      ReadStep(t, done, key, parameters[key]);
      var next := Assign(t, v, key, parameters[key]);
      done := done[key := parameters[key]];
      if !next.Ok? {
        return next;
      }
      v := next.context;
      remaining := remaining - {key};
    }
    assert done == parameters;
    r := Ok(v);
  }

  // ----- Printing

  function NonEmpty(s: string): (r: Option<string>) { if s == "" then None else Some(s) }

  /** What ToMap writes under each key; the provisioner goes under the identity key. */
  function Written(t: Formats, v: Context, key: Key): (r: Option<string>) {
    match key
    case PodName => NonEmpty(v.pod)
    case PodNamespace => NonEmpty(v.podNamespace)
    case PodUid => NonEmpty(v.podUid)
    case ServiceAccountName => NonEmpty(v.serviceAccountName)
    case Ephemeral => NonEmpty(v.ephemeral)
    case ProvisionerIdentity => NonEmpty(v.provisioner)
    case SecretsClass => NonEmpty(v.secretClass)
    case SecretsScope => NonEmpty(Encode(v.scope))
    case SecretsFormat => NonEmpty(v.format)
    case KerberosServiceNames =>
      if v.kerberosServiceNames == [] then None else Some(Join(v.kerberosServiceNames, ','))
    case Pkcs12Password => NonEmpty(v.password)
    case CertLifetime => if v.lifetime == 0 then None else Some(t.printDuration(v.lifetime))
    case CertJitterFactor => if v.jitterFactor == 0.0 then None else Some(t.printFactor(v.jitterFactor))
    case CertRestartBuffer => if v.restartBuffer == 0 then None else Some(t.printDuration(v.restartBuffer))
    case _ => None
  }

  ghost predicate Prints(t: Formats, v: Context, m: map<Key, string>) {
    forall key :: (key in m <==> Written(t, v, key).Some?) && (key in m ==> m[key] == Written(t, v, key).value)
  }

  /** `m` has `key` exactly when `present`, and then with this value. */
  predicate Entry(m: map<Key, string>, key: Key, present: bool, value: string) {
    (key in m <==> present) && (present ==> m[key] == value)
  }

  lemma PrintedAt(t: Formats, v: Context, m: map<Key, string>, key: Key)
    requires Prints(t, v, m)
    ensures Written(t, v, key).Some? ==> Entry(m, key, true, Written(t, v, key).value)
    ensures Written(t, v, key).None? ==> key !in m
  {
    hide Written;
  }

  /** Which field of the pod is printed under which key, and when. */
  lemma PodFieldsPrinted(t: Formats, v: Context, m: map<Key, string>)
    requires Prints(t, v, m)
    ensures Entry(m, PodName, v.pod != "", v.pod) && Entry(m, PodNamespace, v.podNamespace != "", v.podNamespace)
    ensures Entry(m, PodUid, v.podUid != "", v.podUid)
    ensures Entry(m, ServiceAccountName, v.serviceAccountName != "", v.serviceAccountName)
    ensures Entry(m, Ephemeral, v.ephemeral != "", v.ephemeral)
    ensures Entry(m, ProvisionerIdentity, v.provisioner != "", v.provisioner)
    ensures Entry(m, SecretsClass, v.secretClass != "", v.secretClass)
    ensures StorageProvisioner !in m && DeprecatedStorageProvisioner !in m && forall name :: OtherKey(name) !in m
  {
    hide Encode, Join, Prints;
    PrintedAt(t, v, m, PodName);
    PrintedAt(t, v, m, PodNamespace);
    PrintedAt(t, v, m, PodUid);
    PrintedAt(t, v, m, ServiceAccountName);
    PrintedAt(t, v, m, Ephemeral);
    PrintedAt(t, v, m, ProvisionerIdentity);
    PrintedAt(t, v, m, SecretsClass);
    PrintedAt(t, v, m, StorageProvisioner);
    PrintedAt(t, v, m, DeprecatedStorageProvisioner);
    forall name ensures OtherKey(name) !in m { PrintedAt(t, v, m, OtherKey(name)); }
  }

  /** The same for what the secret is to be. */
  lemma SecretFieldsPrinted(t: Formats, v: Context, m: map<Key, string>)
    requires Prints(t, v, m)
    ensures Entry(m, SecretsScope, Encode(v.scope) != "", Encode(v.scope))
    ensures Entry(m, SecretsFormat, v.format != "", v.format)
    ensures Entry(m, KerberosServiceNames, v.kerberosServiceNames != [], Join(v.kerberosServiceNames, ','))
    ensures Entry(m, Pkcs12Password, v.password != "", v.password)
    ensures Entry(m, CertLifetime, v.lifetime != 0, t.printDuration(v.lifetime))
    ensures Entry(m, CertJitterFactor, v.jitterFactor != 0.0, t.printFactor(v.jitterFactor))
    ensures Entry(m, CertRestartBuffer, v.restartBuffer != 0, t.printDuration(v.restartBuffer))
  {
    hide Encode, Join, Prints;
    PrintedAt(t, v, m, SecretsScope);
    PrintedAt(t, v, m, SecretsFormat);
    PrintedAt(t, v, m, KerberosServiceNames);
    PrintedAt(t, v, m, Pkcs12Password);
    PrintedAt(t, v, m, CertLifetime);
    PrintedAt(t, v, m, CertJitterFactor);
    PrintedAt(t, v, m, CertRestartBuffer);
  }

  /** The place of a key in the order the fields are printed; keys that are never printed come last. */
  function Rank(key: Key): (n: nat) {
    match key
    case PodName => 0 case PodNamespace => 1 case PodUid => 2 case ServiceAccountName => 3 case Ephemeral => 4
    case ProvisionerIdentity => 5 case SecretsClass => 6 case SecretsScope => 7 case SecretsFormat => 8
    case KerberosServiceNames => 9 case Pkcs12Password => 10 case CertLifetime => 11
    case CertJitterFactor => 12 case CertRestartBuffer => 13 case _ => 14
  }

  /** `m` holds what is written under the first `n` keys and nothing else. */
  ghost predicate PrintsBelow(t: Formats, v: Context, m: map<Key, string>, n: nat) {
    forall key :: (key in m <==> Rank(key) < n && Written(t, v, key).Some?)
                  && (key in m ==> m[key] == Written(t, v, key).value)
  }

  lemma RankInjective(a: Key, b: Key)
    requires Rank(a) == Rank(b) < 14
    ensures a == b
  {
  }

  /** One `if field != zero { out[key] = value }` of the code. */
  method Put(t: Formats, v: Context, ghost n: nat, before: map<Key, string>, key: Key, present: bool, value: string)
    returns (out: map<Key, string>)
    requires PrintsBelow(t, v, before, n) && Rank(key) == n < 14
    requires Written(t, v, key) == if present then Some(value) else None
    ensures PrintsBelow(t, v, out, n + 1)
  {
    hide Written, Rank;
    out := before;
    if present {
      out := out[key := value];
    }
    forall k | Rank(k) == n ensures k == key { RankInjective(k, key); }
  }

  method PrintPodFields(t: Formats, v: Context) returns (out: map<Key, string>)
    ensures PrintsBelow(t, v, out, 7)
  {
    hide Encode, Join, PrintsBelow;
    out := map[];
    NothingPrinted(t, v);
    out := Put(t, v, 0, out, PodName, v.pod != "", v.pod);
    out := Put(t, v, 1, out, PodNamespace, v.podNamespace != "", v.podNamespace);
    out := Put(t, v, 2, out, PodUid, v.podUid != "", v.podUid);
    out := Put(t, v, 3, out, ServiceAccountName, v.serviceAccountName != "", v.serviceAccountName);
    out := Put(t, v, 4, out, Ephemeral, v.ephemeral != "", v.ephemeral);
    out := Put(t, v, 5, out, ProvisionerIdentity, v.provisioner != "", v.provisioner);
    out := Put(t, v, 6, out, SecretsClass, v.secretClass != "", v.secretClass);
  }

  lemma SecretRows(t: Formats, v: Context)
    ensures Rank(SecretsScope) == 7 && Written(t, v, SecretsScope) == NonEmpty(Encode(v.scope))
    ensures Rank(SecretsFormat) == 8 && Written(t, v, SecretsFormat) == NonEmpty(v.format)
    ensures Rank(KerberosServiceNames) == 9
    ensures Written(t, v, KerberosServiceNames) ==
            if |v.kerberosServiceNames| > 0 then Some(Join(v.kerberosServiceNames, ',')) else None
    ensures Rank(Pkcs12Password) == 10 && Written(t, v, Pkcs12Password) == NonEmpty(v.password)
    ensures Rank(CertLifetime) == 11 && Rank(CertJitterFactor) == 12 && Rank(CertRestartBuffer) == 13
    ensures Written(t, v, CertLifetime) == if v.lifetime != 0 then Some(t.printDuration(v.lifetime)) else None
    ensures Written(t, v, CertJitterFactor) == if v.jitterFactor != 0.0 then Some(t.printFactor(v.jitterFactor)) else None
    ensures Written(t, v, CertRestartBuffer) == if v.restartBuffer != 0 then Some(t.printDuration(v.restartBuffer)) else None
  {
    hide Encode, Join;
  }

  method ToMap(t: Formats, v: Context) returns (out: map<Key, string>)
    ensures Prints(t, v, out)
  {
    hide Encode, Join, PrintsBelow, Prints, Written, Rank;
    SecretRows(t, v);
    out := PrintPodFields(t, v);
    var scope := EncodeScope(v.scope);
    out := Put(t, v, 7, out, SecretsScope, scope != "", scope);
    out := Put(t, v, 8, out, SecretsFormat, v.format != "", v.format);
    out := Put(t, v, 9, out, KerberosServiceNames, |v.kerberosServiceNames| > 0, Join(v.kerberosServiceNames, ','));
    out := Put(t, v, 10, out, Pkcs12Password, v.password != "", v.password);
    out := Put(t, v, 11, out, CertLifetime, v.lifetime != 0, t.printDuration(v.lifetime));
    out := Put(t, v, 12, out, CertJitterFactor, v.jitterFactor != 0.0, t.printFactor(v.jitterFactor));
    out := Put(t, v, 13, out, CertRestartBuffer, v.restartBuffer != 0, t.printDuration(v.restartBuffer));
    AllPrinted(t, v, out);
  }

  lemma NothingPrinted(t: Formats, v: Context)
    ensures PrintsBelow(t, v, map[], 0)
  {
  }

  lemma AllPrinted(t: Formats, v: Context, m: map<Key, string>)
    requires PrintsBelow(t, v, m, 14)
    ensures Prints(t, v, m)
  {
    hide Encode, Join;
    assert forall key :: Rank(key) >= 14 ==> Written(t, v, key).None?;
  }

  // ----- The trip from controller to node

  /** The shape every parsed context has. */
  predicate Parseable(v: Context) { Canonical(v.scope) && Free(',', v.kerberosServiceNames) }

  lemma ReadIsParseable(t: Formats, m: map<Key, string>)
    ensures Parseable(Read(t, m))
  {
    hide Decode, Split, Canonical;
    if SecretsScope in m && Decode(m[SecretsScope]).Some? {
      DecodedIsCanonical(m[SecretsScope]);
    } else {
      EmptyIsCanonical();
    }
    if KerberosServiceNames in m {
      SplitPiecesFree(m[KerberosServiceNames], ',');
    }
  }

  lemma EmptyIsCanonical()
    ensures Canonical(EMPTY) && Encode(EMPTY) == "" && Decode("") == Some(EMPTY)
  {
    ScopeRoundTripIff(EMPTY);
  }

  lemma ScopeArrives(t: Formats, v: Context, m: map<Key, string>)
    requires Canonical(v.scope) && Prints(t, v, m)
    ensures !BadScope(m)
    ensures ScopeOf(m) == v.scope
  {
    hide Decode, Encode, Canonical;
    ScopeRoundTripIff(v.scope);
    EmptyIsCanonical();
    assert SecretsScope in m <==> Written(t, v, SecretsScope).Some?;
  }

  lemma NamesArrive(t: Formats, v: Context, m: map<Key, string>)
    requires Free(',', v.kerberosServiceNames) && Prints(t, v, m)
    ensures NamesOf(m) == v.kerberosServiceNames
  {
    hide Split, Join;
    assert KerberosServiceNames in m <==> Written(t, v, KerberosServiceNames).Some?;
    if v.kerberosServiceNames != [] {
      SplitJoin(v.kerberosServiceNames, ',');
    }
  }

  lemma NumbersArrive(t: Formats, v: Context, m: map<Key, string>)
    requires Lawful(t) && Prints(t, v, m)
    ensures !BadNumber(t, m)
    ensures DurationOf(t, m, CertLifetime) == v.lifetime && DurationOf(t, m, CertRestartBuffer) == v.restartBuffer
    ensures RoundedTo6(v.jitterFactor, FactorOf(t, m))
  {
    assert CertLifetime in m <==> Written(t, v, CertLifetime).Some?;
    assert CertRestartBuffer in m <==> Written(t, v, CertRestartBuffer).Some?;
    assert CertJitterFactor in m <==> Written(t, v, CertJitterFactor).Some?;
  }

  lemma TextArrives(t: Formats, v: Context, m: map<Key, string>)
    requires Prints(t, v, m)
    ensures Field(m, PodName) == v.pod && Field(m, PodNamespace) == v.podNamespace && Field(m, PodUid) == v.podUid
    ensures Field(m, ServiceAccountName) == v.serviceAccountName && Field(m, Ephemeral) == v.ephemeral
    ensures Field(m, SecretsClass) == v.secretClass && Field(m, SecretsFormat) == v.format
    ensures Field(m, Pkcs12Password) == v.password
    ensures Field(m, ProvisionerIdentity) == v.provisioner && Field(m, StorageProvisioner) == ""
  {
    hide Encode, Join;
    assert forall k :: k in m <==> Written(t, v, k).Some?;
  }

  /**
   The round trip: whatever was parsed, printing it and parsing the print succeeds and gives
   the same context, except that the provisioner has moved to the identity field and the
   jitter factor is rounded to six decimals.
   */
  lemma PrintParse(t: Formats, v: Context, m: map<Key, string>)
    requires Lawful(t) && Parseable(v) && Prints(t, v, m)
    ensures !BadScope(m) && !BadNumber(t, m)
    ensures var w := Read(t, m);
            && RoundedTo6(v.jitterFactor, w.jitterFactor)
            && w == v.(provisionerIdentity := v.provisioner, provisioner := "", jitterFactor := w.jitterFactor)
  {
    hide Prints, ScopeOf, NamesOf, DurationOf, FactorOf, RoundedTo6, Lawful, Field, Canonical, BadScope, BadNumber;
    ScopeArrives(t, v, m);
    NamesArrive(t, v, m);
    NumbersArrive(t, v, m);
    TextArrives(t, v, m);
  }

  /** What CreateVolume makes of a PVC's annotations: the class must be named, though it may be empty. */
  method GetVolumeContext(t: Formats, annotations: map<Key, string>) returns (r: Parsed)
    ensures r.Ok? <==> !BadScope(annotations) && !BadNumber(t, annotations) && SecretsClass in annotations
    ensures r.Ok? ==> r.context == Read(t, annotations)
    ensures r.Panic? ==> BadScope(annotations)
  {
    r := NewVolumeContextFromMap(t, annotations);
    if r.Ok? && SecretsClass !in annotations {
      r := Error;
    }
  }

  /** CreateVolume prints what it parsed; NodePublishVolume parses the print and wants a non-empty class. */
  method ControllerToNode(t: Formats, annotations: map<Key, string>) returns (sent: Parsed, received: Parsed)
    requires Lawful(t)
    ensures sent.Ok? <==> !BadScope(annotations) && !BadNumber(t, annotations) && SecretsClass in annotations
    ensures sent.Ok? ==> sent.context == Read(t, annotations) && !received.Panic?
    ensures received.Ok? <==> sent.Ok? && sent.context.secretClass != ""
    ensures received.Ok? ==>
              && RoundedTo6(sent.context.jitterFactor, received.context.jitterFactor)
              && received.context == sent.context.(provisionerIdentity := sent.context.provisioner, provisioner := "",
                                                   jitterFactor := received.context.jitterFactor)
  {
    sent := GetVolumeContext(t, annotations);
    received := Error;
    if sent.Ok? {
      hide Lawful, Read, Prints, RoundedTo6, BadScope, BadNumber, Parseable;
      ReadIsParseable(t, annotations);
      var printed := ToMap(t, sent.context);
      PrintParse(t, sent.context, printed);
      received := NewVolumeContextFromMap(t, printed);
      if received.Ok? && received.context.secretClass == "" {
        received := Error;
      }
    }
  }

  /** A factor that already has six decimals is not changed by another trip. */
  lemma RoundingSettles(f: real, g: real)
    requires SixDecimals(f) && RoundedTo6(f, g)
    ensures f == g
  {
    var a, b := (f * 1000000.0).Floor, (g * 1000000.0).Floor;
    assert (b - a) as real == (g - f) * 1000000.0;
  }

  // ----- The laws asked of the text forms can be met

  function PrintInt(n: int): (s: string) {
    if n >= 0 then "+" + Itoa(n) else "-" + Itoa(-n)
  }

  function ParseInt(s: string): (n: int) {
    if s == "" then 0 else if s[0] == '-' then 0 - Atoi(s[1..]) else 0 + Atoi(s[1..])
  }

  lemma ParsePrintInt(n: int)
    ensures ParseInt(PrintInt(n)) == n
  {
    hide Atoi, Itoa;
    var digits := if n >= 0 then n else -n;
    AtoiItoa(digits);
    assert PrintInt(n)[1..] == Itoa(digits);
  }

  function Micros(f: real): (n: int) { (f * 1000000.0 + 0.5).Floor }

  function FromMicros(n: int): (f: real) { n as real / 1000000.0 }

  lemma MicrosRound(f: real)
    ensures RoundedTo6(f, FromMicros(Micros(f)))
  {
    var n := Micros(f);
    var g := FromMicros(n);
    assert g * 1000000.0 == n as real;
    assert n as real <= f * 1000000.0 + 0.5 < n as real + 1.0;
  }

  const DECIMAL := Formats(
    (s: string) => Some(ParseInt(s)), (d: int) => PrintInt(d),
    (s: string) => Some(FromMicros(ParseInt(s))), (f: real) => PrintInt(Micros(f)))

  lemma LawfulFormatsExist()
    ensures Lawful(DECIMAL)
  {
    hide ParseInt, PrintInt, Micros, FromMicros, RoundedTo6;
    forall d ensures DECIMAL.parseDuration(DECIMAL.printDuration(d)) == Some(d) {
      ParsePrintInt(d);
    }
    forall f ensures var g := DECIMAL.parseFactor(DECIMAL.printFactor(f)); g.Some? && RoundedTo6(f, g.value) {
      ParsePrintInt(Micros(f));
      MicrosRound(f);
    }
  }
}
