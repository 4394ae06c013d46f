/**
 How certificate authorities are kept in the data of one Kubernetes Secret:
 entries `<index>.ca.crt` and `<index>.ca.key` are written, and any two entries
 `<stem>.crt` and `<stem>.key` are read back as a key pair.
 */
module SecretLayout {
  import opened Sequences
  import opened Text

  /** A key pair's identity: brought in from outside, or the n-th one generated here. */
  datatype KeyId = Foreign(name: nat) | Local(number: nat)

  /** A certificate for the public half of `key`, signed with `signer`. */
  datatype Cert = Cert(key: KeyId, notAfter: int, signer: KeyId, isCA: bool)

  /** The value of one Secret entry. */
  datatype Blob = CertPEM(cert: Cert) | KeyPEM(key: KeyId) | OtherBytes

  type Data = map<string, Blob>

  datatype KeyPair = KeyPair(cert: Blob, key: Blob)

  function CrtName(stem: string): (name: string) { stem + ".crt" }

  function KeyName(stem: string): (name: string) { stem + ".key" }

  predicate IsPaired(data: Data, stem: string) {
    CrtName(stem) in data && KeyName(stem) in data
  }

  function Lookup(data: Data, name: string): (b: Blob) {
    if name in data then data[name] else OtherBytes
  }

  function PairAt(data: Data, stem: string): (p: KeyPair) {
    KeyPair(Lookup(data, CrtName(stem)), Lookup(data, KeyName(stem)))
  }

  function PairsAt(data: Data, stems: seq<string>): (pairs: seq<KeyPair>)
    ensures |pairs| == |stems|
    ensures forall i :: 0 <= i < |stems| ==> pairs[i] == PairAt(data, stems[i])
  {
    Map((stem: string) => PairAt(data, stem), stems)
  }

  /** `stems` lists, in some order and once each, the stems that have both entries. */
  ghost predicate Enumerates(stems: seq<string>, data: Data) {
    && NoDuplicates(stems)
    && (forall i :: 0 <= i < |stems| ==> IsPaired(data, stems[i]))
    && (forall stem :: IsPaired(data, stem) ==> stem in stems)
  }

  /**
   Reads the pairs of a Secret. The entries are visited in whatever order the map
   yields them; the result is one pair per stem that has both entries, no more.
   */
  method GetPEMKeyPairs(data: Data) returns (pairs: seq<KeyPair>, ghost stems: seq<string>)
    ensures Enumerates(stems, data)
    ensures pairs == PairsAt(data, stems)
  {
    pairs, stems := [], [];
    var remaining := data.Keys;
    while remaining != {}
      invariant remaining <= data.Keys
      invariant NoDuplicates(stems)
      invariant forall i :: 0 <= i < |stems| ==> IsPaired(data, stems[i]) && CrtName(stems[i]) !in remaining
      invariant forall stem :: IsPaired(data, stem) && CrtName(stem) !in remaining ==> stem in stems
      invariant pairs == PairsAt(data, stems)
      decreases remaining
    {
      var certName :| certName in remaining;
      if HasSuffix(certName, ".crt") {
        var stem := TrimSuffix(certName, ".crt");
        var privateKeyName := stem + ".key";
        if privateKeyName in data {
          pairs := pairs + [KeyPair(data[certName], data[privateKeyName])];
          stems := stems + [stem];
          assert CrtName(stem) == certName;
          assert pairs == PairsAt(data, stems);
        }
      }
      forall stem | IsPaired(data, stem) && CrtName(stem) == certName ensures stem in stems {
        SuffixOfConcat(stem, ".crt");
      }
      remaining := remaining - {certName};
    }
  }

  /** tls.X509KeyPair followed by the CA check: the key must match a CA certificate. */
  function LoadPair(p: KeyPair): (ca: Option<Cert>) {
    if p.cert.CertPEM? && p.key == KeyPEM(p.cert.cert.key) && p.cert.cert.isCA
    then Some(p.cert.cert) else None
  }

  function PairOf(ca: Cert): (p: KeyPair) { KeyPair(CertPEM(ca), KeyPEM(ca.key)) }

  /** Loading undoes writing, on exactly the pairs that were written for an authority. */
  lemma LoadPairInverts(p: KeyPair, ca: Cert)
    ensures LoadPair(p) == Some(ca) <==> ca.isCA && p == PairOf(ca)
  {
  }

  function PairsOf(cas: seq<Cert>): (pairs: seq<KeyPair>)
    ensures |pairs| == |cas|
    ensures forall i :: 0 <= i < |cas| ==> pairs[i] == PairOf(cas[i])
  {
    Map(PairOf, cas)
  }

  ghost predicate AllCA(cas: seq<Cert>) {
    forall i :: 0 <= i < |cas| ==> cas[i].isCA
  }

  /** `cas` are the authorities that `data` yields when its pairs are visited in the order `stems`. */
  ghost predicate Loads(data: Data, stems: seq<string>, cas: seq<Cert>) {
    && Enumerates(stems, data)
    && AllCA(cas)
    && PairsAt(data, stems) == PairsOf(cas)
  }

  ghost predicate LoadsSomehow(data: Data, cas: seq<Cert>) {
    exists stems :: Loads(data, stems, cas)
  }

  /** `ca` sits in `data` with its own private key beside it. */
  ghost predicate Holds(data: Data, ca: Cert) {
    ca.isCA && exists stem :: IsPaired(data, stem) && PairAt(data, stem) == PairOf(ca)
  }

  /** No pair of `data` stops a load: each has a CA certificate beside its own key. */
  ghost predicate Loadable(data: Data) {
    forall stem :: IsPaired(data, stem) ==> LoadPair(PairAt(data, stem)).Some?
  }

  /** Whether a Secret loads does not depend on the order its pairs are visited in. */
  lemma LoadsIff(data: Data, stems: seq<string>)
    requires Enumerates(stems, data)
    ensures (exists cas :: Loads(data, stems, cas)) <==> Loadable(data)
    ensures Loadable(data) <==> forall i :: 0 <= i < |stems| ==> LoadPair(PairsAt(data, stems)[i]).Some?
  {
    hide IsPaired, PairAt, LoadPair;
    forall cas | Loads(data, stems, cas) ensures Loadable(data) {
      forall stem | IsPaired(data, stem) ensures LoadPair(PairAt(data, stem)).Some? {
        var i :| 0 <= i < |stems| && stems[i] == stem;
        LoadPairInverts(PairsOf(cas)[i], cas[i]);
      }
    }
    if forall i :: 0 <= i < |stems| ==> LoadPair(PairsAt(data, stems)[i]).Some? {
      forall stem | IsPaired(data, stem) ensures LoadPair(PairAt(data, stem)).Some? {
        var i :| 0 <= i < |stems| && stems[i] == stem;
        assert LoadPair(PairsAt(data, stems)[i]).Some?;
      }
    }
    if Loadable(data) {
      var cas := seq(|stems|, i requires 0 <= i < |stems| => LoadPair(PairAt(data, stems[i])).value);
      forall i | 0 <= i < |stems| ensures cas[i].isCA && PairAt(data, stems[i]) == PairOf(cas[i]) {
        LoadPairInverts(PairAt(data, stems[i]), cas[i]);
      }
      assert PairsAt(data, stems) == PairsOf(cas);
      assert Loads(data, stems, cas);
    }
  }

  lemma LoadedExactlyHeld(data: Data, stems: seq<string>, cas: seq<Cert>, ca: Cert)
    requires Loads(data, stems, cas)
    ensures ca in cas <==> Holds(data, ca)
  {
    if ca in cas {
      var i :| 0 <= i < |cas| && cas[i] == ca;
      assert PairAt(data, stems[i]) == PairsOf(cas)[i];
    }
    if Holds(data, ca) {
      var stem :| IsPaired(data, stem) && PairAt(data, stem) == PairOf(ca);
      var i :| 0 <= i < |stems| && stems[i] == stem;
      assert PairsOf(cas)[i] == PairOf(ca);
    }
  }

  function StemOf(i: nat): (stem: string) { Itoa(i) + ".ca" }

  function StemsUpTo(n: nat): (stems: seq<string>)
    ensures |stems| == n
    ensures forall i :: 0 <= i < n ==> stems[i] == StemOf(i)
  {
    seq(n, i requires 0 <= i < n => StemOf(i))
  }

  /** The data written for a list of authorities. */
  function Layout(cas: seq<Cert>): (data: Data) {
    if cas == [] then map[]
    else
      var i := |cas| - 1;
      Layout(cas[..i])[CrtName(StemOf(i)) := CertPEM(cas[i])][KeyName(StemOf(i)) := KeyPEM(cas[i].key)]
  }

  lemma StemsDiffer(i: nat, j: nat)
    requires i != j
    ensures StemOf(i) != StemOf(j)
  {
    if StemOf(i) == StemOf(j) {
      SuffixOfConcat(Itoa(i), ".ca");
      SuffixOfConcat(Itoa(j), ".ca");
      ItoaInjective(i, j);
    }
  }

  lemma NamesDiffer(a: string, b: string)
    ensures CrtName(a) != KeyName(b)
    ensures CrtName(a) == CrtName(b) ==> a == b
    ensures KeyName(a) == KeyName(b) ==> a == b
  {
    SuffixOfConcat(a, ".crt");
    SuffixOfConcat(b, ".crt");
    SuffixOfConcat(a, ".key");
    SuffixOfConcat(b, ".key");
  }

  lemma {:induction false} LayoutNames(cas: seq<Cert>, name: string)
    ensures name in Layout(cas) <==>
            exists i :: 0 <= i < |cas| && (name == CrtName(StemOf(i)) || name == KeyName(StemOf(i)))
  {
    hide StemOf, CrtName, KeyName;
    if cas == [] {
    } else {
      LayoutNames(cas[..|cas| - 1], name);
    }
  }

  lemma {:induction false} LayoutAt(cas: seq<Cert>, i: nat)
    requires i < |cas|
    ensures IsPaired(Layout(cas), StemOf(i))
    ensures PairAt(Layout(cas), StemOf(i)) == PairOf(cas[i])
  {
    var last := |cas| - 1;
    NamesDiffer(StemOf(i), StemOf(last));
    NamesDiffer(StemOf(last), StemOf(i));
    if i < last {
      LayoutAt(cas[..last], i);
      StemsDiffer(i, last);
    }
  }

  lemma LayoutOnlyStems(cas: seq<Cert>, stem: string)
    requires IsPaired(Layout(cas), stem)
    ensures exists i :: 0 <= i < |cas| && stem == StemOf(i)
  {
    hide Layout, StemOf;
    LayoutNames(cas, CrtName(stem));
    var i :| 0 <= i < |cas| && (CrtName(stem) == CrtName(StemOf(i)) || CrtName(stem) == KeyName(StemOf(i)));
    NamesDiffer(stem, StemOf(i));
  }

  lemma LayoutStems(cas: seq<Cert>)
    ensures Enumerates(StemsUpTo(|cas|), Layout(cas))
    ensures PairsAt(Layout(cas), StemsUpTo(|cas|)) == PairsOf(cas)
  {
    hide Layout, StemOf, IsPaired, PairAt;
    var stems := StemsUpTo(|cas|);
    forall i, j | 0 <= i < j < |stems| ensures stems[i] != stems[j] {
      StemsDiffer(i, j);
    }
    forall i | 0 <= i < |stems|
      ensures IsPaired(Layout(cas), stems[i]) && PairAt(Layout(cas), stems[i]) == PairOf(cas[i])
    {
      LayoutAt(cas, i);
    }
    forall stem | IsPaired(Layout(cas), stem) ensures stem in stems {
      LayoutOnlyStems(cas, stem);
      var i :| 0 <= i < |cas| && stem == StemOf(i);
      assert stems[i] == stem;
    }
  }

  /** The entries of a written Secret, by name: the index in decimal, `.ca`, and `.crt` or `.key`. */
  lemma LayoutEntries(cas: seq<Cert>, i: nat)
    requires i < |cas|
    ensures Itoa(i) + ".ca.crt" in Layout(cas) && Layout(cas)[Itoa(i) + ".ca.crt"] == CertPEM(cas[i])
    ensures Itoa(i) + ".ca.key" in Layout(cas) && Layout(cas)[Itoa(i) + ".ca.key"] == KeyPEM(cas[i].key)
  {
    hide Layout;
    LayoutAt(cas, i);
    assert CrtName(StemOf(i)) == Itoa(i) + ".ca.crt";
    assert KeyName(StemOf(i)) == Itoa(i) + ".ca.key";
  }

  /** A stem is paired exactly when both its `.crt` and its `.key` entry are there, and this is the pair. */
  lemma PairedEntries(data: Data, stem: string)
    ensures IsPaired(data, stem) <==> stem + ".crt" in data && stem + ".key" in data
    ensures IsPaired(data, stem) ==> PairAt(data, stem) == KeyPair(data[stem + ".crt"], data[stem + ".key"])
  {
  }

  /** Writing a list of authorities and reading the Secret back gives the same key pairs, reordered. */
  lemma LayoutRoundTrip(cas: seq<Cert>, stems: seq<string>)
    requires Enumerates(stems, Layout(cas))
    ensures multiset(PairsAt(Layout(cas), stems)) == multiset(PairsOf(cas))
  {
    var data := Layout(cas);
    LayoutStems(cas);
    SameElementsSameMultiset(stems, StemsUpTo(|cas|));
    MapPreservesMultiset((stem: string) => PairAt(data, stem), stems, StemsUpTo(|cas|));
  }

  /** Every reading of a written Secret loads. */
  lemma LayoutLoads(cas: seq<Cert>, stems: seq<string>) returns (loaded: seq<Cert>)
    requires AllCA(cas) && Enumerates(stems, Layout(cas))
    ensures Loads(Layout(cas), stems, loaded) && Loadable(Layout(cas))
  {
    hide Layout, Loads, Loadable, Enumerates;
    LayoutStems(cas);
    assert Loads(Layout(cas), StemsUpTo(|cas|), cas) by { LayoutIsLoad(cas); }
    LoadsIff(Layout(cas), StemsUpTo(|cas|));
    LoadsIff(Layout(cas), stems);
    loaded :| Loads(Layout(cas), stems, loaded);
  }

  lemma LayoutIsLoad(cas: seq<Cert>)
    requires AllCA(cas)
    ensures Loads(Layout(cas), StemsUpTo(|cas|), cas)
  {
    hide Layout, Enumerates;
    LayoutStems(cas);
  }

  lemma LayoutLoadable(cas: seq<Cert>)
    requires AllCA(cas)
    ensures Loadable(Layout(cas))
  {
    hide Layout, Enumerates;
    LayoutStems(cas);
    var loaded := LayoutLoads(cas, StemsUpTo(|cas|));
  }

  /** What a written Secret loads as is a permutation of what was written. */
  lemma LayoutReloads(cas: seq<Cert>, stems: seq<string>, loaded: seq<Cert>)
    requires Loads(Layout(cas), stems, loaded)
    ensures multiset(loaded) == multiset(cas)
  {
    LayoutRoundTrip(cas, stems);
    var certOf := (p: KeyPair) => if p.cert.CertPEM? then p.cert.cert else Cert(Foreign(0), 0, Foreign(0), false);
    MapPreservesMultiset(certOf, PairsOf(loaded), PairsOf(cas));
    assert Map(certOf, PairsOf(loaded)) == loaded;
    assert Map(certOf, PairsOf(cas)) == cas;
  }

  lemma LayoutHolds(cas: seq<Cert>, ca: Cert)
    requires AllCA(cas)
    ensures Holds(Layout(cas), ca) <==> ca in cas
  {
    LayoutStems(cas);
    LoadedExactlyHeld(Layout(cas), StemsUpTo(|cas|), cas, ca);
  }
}
