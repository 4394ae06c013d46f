/**
 The subjectAltName extension value: a DER SEQUENCE of context-tagged GeneralNames
 (section 4.2.1.6 of RFC 5280), with definite lengths in the fewest octets
 (sections 8.1.3 and 10.1 of ITU-T X.690), and a strict decoder for it.
 */
module SubjectAltName {
  import opened Sequences

  newtype byte = x: int | 0 <= x < 256

  type Bytes = seq<byte>

  const SEQUENCE: byte := 0x30
  const DNS_NAME: byte := 0x82    // context-specific, primitive, tag 2
  const IP_ADDRESS: byte := 0x87  // context-specific, primitive, tag 7

  /** Slice lengths are Go ints. */
  const MAX_INT: nat := 0x7fff_ffff_ffff_ffff

  // ----- Lengths

  /** Big-endian base 256 without leading zeros; nothing for zero. */
  function Digits(n: nat): (ds: Bytes) {
    if n == 0 then [] else Digits(n / 256) + [(n % 256) as byte]
  }

  function FromDigits(ds: Bytes): (n: nat) {
    if ds == [] then 0 else FromDigits(ds[..|ds| - 1]) * 256 + ds[|ds| - 1] as nat
  }

  lemma {:induction false} FromDigitsDigits(n: nat)
    ensures FromDigits(Digits(n)) == n
    ensures n > 0 ==> Digits(n) != [] && Digits(n)[0] != 0
  {
    if n == 0 {
    } else {
      FromDigitsDigits(n / 256);
      assert Digits(n)[..|Digits(n)| - 1] == Digits(n / 256);
    }
  }

  /** Numbers below 256 to the k take at most k digits. */
  lemma {:induction false} DigitsLength(n: nat, k: nat, power: nat)
    requires power == Power(k) && n < power
    ensures |Digits(n)| <= k
    decreases k
  {
    if n == 0 {
    } else {
      DigitsLength(n / 256, k - 1, Power(k - 1));
    }
  }

  function Power(k: nat): (p: nat)
    ensures p > 0
  {
    if k == 0 then 1 else 256 * Power(k - 1)
  }

  lemma NextDigit(n: nat, d: byte)
    requires n > 0 || d != 0
    ensures Digits(n * 256 + d as nat) == Digits(n) + [d]
  {
    var m := n * 256 + d as nat;
    assert m / 256 == n && m % 256 == d as nat;
  }

  lemma NoDigits()
    ensures FromDigits([]) == 0 && Digits(0) == []
  {
  }

  lemma FromDigitsFront(ds: Bytes)
    requires ds != []
    ensures FromDigits(ds) == FromDigits(ds[..|ds| - 1]) * 256 + ds[|ds| - 1] as nat
  {
  }

  /** A string of digits without a leading zero is a positive number. */
  lemma {:induction false} FromDigitsPositive(ds: Bytes)
    requires ds != [] && ds[0] != 0
    ensures FromDigits(ds) > 0
  {
    hide FromDigits;
    FromDigitsFront(ds);
    if |ds| == 1 {
      assert ds[|ds| - 1] != 0;
    } else {
      FromDigitsPositive(ds[..|ds| - 1]);
    }
  }

  lemma {:induction false} DigitsFromDigits(ds: Bytes)
    requires ds == [] || ds[0] != 0
    ensures Digits(FromDigits(ds)) == ds
  {
    hide Digits, FromDigits;
    if ds == [] {
      NoDigits();
    } else {
      var front, last := ds[..|ds| - 1], ds[|ds| - 1];
      assert front == [] || front[0] != 0;
      DigitsFromDigits(front);
      if front != [] {
        FromDigitsPositive(front);
      } else {
        NoDigits();
      }
      NextDigit(FromDigits(front), last);
      FromDigitsFront(ds);
      assert ds == front + [last];
    }
  }

  /** The length octets: one below 128, otherwise a count and the digits. */
  function EncodeLength(n: nat): (b: Bytes)
    requires n <= MAX_INT
  {
    if n < 128 then [n as byte]
    else
      IntDigits(n);
      [(0x80 + |Digits(n)|) as byte] + Digits(n)
  }

  lemma IntDigits(n: nat)
    requires n <= MAX_INT
    ensures |Digits(n)| <= 8
  {
    assert Power(8) == 0x1_0000_0000_0000_0000 by {
      assert Power(2) == 0x1_0000 && Power(4) == 0x1_0000_0000 && Power(6) == 0x1_0000_0000_0000;
    }
    DigitsLength(n, 8, Power(8));
  }

  /** The first octet of a digit string is the most significant one. */
  lemma {:induction false} BigEndian(d: byte, rest: Bytes)
    ensures FromDigits([d] + rest) == d as nat * Power(|rest|) + FromDigits(rest)
  {
    hide FromDigits, Power;
    FromDigitsFront([d] + rest);
    NoDigits();
    if rest == [] {
      assert ([d] + rest)[..0] == [];
      PowerStep(0);
    } else {
      var n := |rest| - 1;
      assert ([d] + rest)[..n + 1] == [d] + rest[..n];
      BigEndian(d, rest[..n]);
      FromDigitsFront(rest);
      PowerStep(n);
      Shifted(d as nat, Power(n), FromDigits(rest[..n]), rest[n] as nat);
    }
  }

  lemma PowerStep(k: nat)
    ensures Power(0) == 1 && Power(k + 1) == 256 * Power(k)
  {
  }

  lemma Shifted(d: nat, p: nat, f: nat, l: nat)
    ensures (d * p + f) * 256 + l == d * (256 * p) + (f * 256 + l)
  {
  }

  /** The length octets of ITU-T X.690: short form below 128, else a count of big-endian octets without a leading zero. */
  lemma LengthForms(n: nat)
    requires n <= MAX_INT
    ensures n < 128 ==> EncodeLength(n) == [n as byte]
    ensures n >= 128 ==>
              var b := EncodeLength(n);
              |b| >= 2 && b[0] as int == 0x80 + |b| - 1 && b[1] != 0 && FromDigits(b[1..]) == n
    ensures 128 <= n < 256 ==> EncodeLength(n) == [0x81, n as byte]
    ensures 256 <= n < 65536 ==> EncodeLength(n) == [0x82, (n / 256) as byte, (n % 256) as byte]
  {
    hide FromDigits;
    if n >= 128 {
      IntDigits(n);
      FromDigitsDigits(n);
      assert EncodeLength(n)[1..] == Digits(n);
    }
    FewDigits(n);
  }

  lemma FewDigits(n: nat)
    ensures 0 < n < 256 ==> Digits(n) == [n as byte]
    ensures 256 <= n < 65536 ==> Digits(n) == [(n / 256) as byte, (n % 256) as byte]
  {
    if 256 <= n < 65536 {
      FewDigits(n / 256);
    }
  }

  /** Reads a length; None unless it is definite, as short as can be, and a Go int. */
  function DecodeLength(b: Bytes): (r: Option<(nat, Bytes)>) {
    if b == [] then None
    else if b[0] < 0x80 then Some((b[0] as nat, b[1..]))
    else
      var k := b[0] as nat - 0x80;
      if k == 0 || k > 8 || |b| < 1 + k || b[1] == 0 then None
      else
        var n := FromDigits(b[1..1 + k]);
        if n < 128 || n > MAX_INT then None else Some((n, b[1 + k..]))
  }

  lemma DecodeEncodeLength(n: nat, rest: Bytes)
    requires n <= MAX_INT
    ensures DecodeLength(EncodeLength(n) + rest) == Some((n, rest))
  {
    var b := EncodeLength(n) + rest;
    if n < 128 {
      assert b[1..] == rest;
    } else {
      IntDigits(n);
      FromDigitsDigits(n);
      var k := |Digits(n)|;
      assert b[1..1 + k] == Digits(n);
      assert b[1 + k..] == rest;
      assert b[1] == Digits(n)[0];
    }
  }

  lemma EncodeDecodeLength(b: Bytes)
    requires DecodeLength(b).Some?
    ensures var (n, rest) := DecodeLength(b).value; n <= MAX_INT && EncodeLength(n) + rest == b
  {
    hide Digits, FromDigits;
    if b[0] < 0x80 {
      assert b == [b[0]] + b[1..];
    } else {
      var k := b[0] as nat - 0x80;
      DigitsFromDigits(b[1..1 + k]);
      assert b == [b[0]] + b[1..1 + k] + b[1 + k..];
    }
  }

  // ----- Elements

  /** One primitive GeneralName: its tag octet and its contents. */
  datatype Element = Element(tag: byte, content: Bytes)

  predicate Fits(n: nat) { n <= MAX_INT }

  function EncodeElement(tag: byte, content: Bytes): (b: Bytes)
    requires Fits(|content|)
  {
    [tag] + EncodeLength(|content|) + content
  }

  /** Reads one element and returns what follows it. */
  function DecodeElement(b: Bytes): (r: Option<(Element, Bytes)>)
    ensures r.Some? ==> |r.value.1| < |b|
  {
    if b == [] then None
    else
      match DecodeLength(b[1..])
      case None => None
      case Some((n, rest)) =>
        if n > |rest| then None else Some((Element(b[0], rest[..n]), rest[n..]))
  }

  lemma DecodeEncodeElement(e: Element, rest: Bytes)
    requires Fits(|e.content|)
    ensures DecodeElement(EncodeElement(e.tag, e.content) + rest) == Some((e, rest))
  {
    var b := EncodeElement(e.tag, e.content) + rest;
    assert b[1..] == EncodeLength(|e.content|) + (e.content + rest);
    DecodeEncodeLength(|e.content|, e.content + rest);
    assert (e.content + rest)[..|e.content|] == e.content;
    assert (e.content + rest)[|e.content|..] == rest;
  }

  lemma EncodeDecodeElement(b: Bytes)
    requires DecodeElement(b).Some?
    ensures var (e, rest) := DecodeElement(b).value;
            Fits(|e.content|) && EncodeElement(e.tag, e.content) + rest == b
  {
    hide DecodeLength, EncodeLength;
    EncodeDecodeLength(b[1..]);
    var (n, tail) := DecodeLength(b[1..]).value;
    assert tail == tail[..n] + tail[n..];
    assert b == [b[0]] + b[1..];
  }

  predicate AllFit(es: seq<Element>) {
    forall i :: 0 <= i < |es| ==> Fits(|es[i].content|)
  }

  function EncodeElements(es: seq<Element>): (b: Bytes)
    requires AllFit(es)
  {
    if es == [] then [] else EncodeElement(es[0].tag, es[0].content) + EncodeElements(es[1..])
  }

  function DecodeElements(b: Bytes): (r: Option<seq<Element>>)
    decreases |b|
  {
    if b == [] then Some([])
    else
      match DecodeElement(b)
      case None => None
      case Some((e, rest)) =>
        match DecodeElements(rest)
        case None => None
        case Some(es) => Some([e] + es)
  }

  lemma {:induction false} DecodeEncodeElements(es: seq<Element>)
    requires AllFit(es)
    ensures DecodeElements(EncodeElements(es)) == Some(es)
  {
    if es == [] {
    } else {
      DecodeEncodeElement(es[0], EncodeElements(es[1..]));
      DecodeEncodeElements(es[1..]);
      assert [es[0]] + es[1..] == es;
    }
  }

  lemma {:induction false} EncodeDecodeElements(b: Bytes)
    requires DecodeElements(b).Some?
    ensures var es := DecodeElements(b).value; AllFit(es) && EncodeElements(es) == b
    decreases |b|
  {
    if b == [] {
    } else {
      EncodeDecodeElement(b);
      var (e, rest) := DecodeElement(b).value;
      EncodeDecodeElements(rest);
      var es := DecodeElements(rest).value;
      assert ([e] + es)[1..] == es;
    }
  }

  // ----- GeneralNames

  /** asn1.Marshal of the raw values: one SEQUENCE holding the elements. */
  function EncodeGeneralNames(es: seq<Element>): (b: Bytes)
    requires AllFit(es) && Fits(|EncodeElements(es)|)
  {
    EncodeElement(SEQUENCE, EncodeElements(es))
  }

  /** The strict reading: one SEQUENCE, nothing after it, every element well formed. */
  function DecodeGeneralNames(b: Bytes): (r: Option<seq<Element>>) {
    match DecodeElement(b)
    case None => None
    case Some((outer, rest)) => if outer.tag != SEQUENCE || rest != [] then None else DecodeElements(outer.content)
  }

  /** Decoding accepts exactly the encodings, and each encoding in exactly one way. */
  lemma GeneralNamesExact(b: Bytes, es: seq<Element>)
    ensures DecodeGeneralNames(b) == Some(es) <==>
            AllFit(es) && Fits(|EncodeElements(es)|) && b == EncodeGeneralNames(es)
  {
    if AllFit(es) && Fits(|EncodeElements(es)|) && b == EncodeGeneralNames(es) {
      assert b == EncodeElement(SEQUENCE, EncodeElements(es)) + [];
      DecodeEncodeElement(Element(SEQUENCE, EncodeElements(es)), []);
      DecodeEncodeElements(es);
    }
    if DecodeGeneralNames(b) == Some(es) {
      EncodeDecodeElement(b);
      var (outer, rest) := DecodeElement(b).value;
      EncodeDecodeElements(outer.content);
      assert EncodeElement(outer.tag, outer.content) + [] == EncodeElement(outer.tag, outer.content);
    }
  }

  /** The octets of two short names: the sequence, then each name's tag, length and contents in turn. */
  lemma ShortNames(e: Element, f: Element)
    requires |e.content| + |f.content| < 124
    ensures AllFit([e, f]) && Fits(|EncodeElements([e, f])|)
    ensures EncodeGeneralNames([e, f]) ==
            [0x30, (|e.content| + |f.content| + 4) as byte] +
            [e.tag, |e.content| as byte] + e.content + [f.tag, |f.content| as byte] + f.content
  {
    assert [e, f][1..] == [f] && [f][1..] == [];
    assert EncodeElements([f]) == [f.tag, |f.content| as byte] + f.content;
    assert EncodeElements([e, f]) == [e.tag, |e.content| as byte] + e.content + ([f.tag, |f.content| as byte] + f.content);
  }

  // ----- Addresses

  /** An address of the pod: an IP, a host name, or both. */
  datatype Address = Address(ip: Option<Bytes>, hostname: Bytes)

  const V4_IN_V6: Bytes := [0, 0, 0, 0, 0, 0, 0, 0, 0, 0, 0xff, 0xff]

  /** net.IP.To4 with its fallback: IPv4 written in sixteen bytes collapses to four. */
  function Canonical(ip: Bytes): (c: Bytes)
    ensures |c| <= |ip|
  {
    if |ip| == 16 && ip[..12] == V4_IN_V6 then ip[12..] else ip
  }

  function DnsElements(addresses: seq<Address>): (es: seq<Element>) {
    if addresses == [] then []
    else
      var last := |addresses| - 1;
      var front := DnsElements(addresses[..last]);
      if addresses[last].hostname == [] then front else front + [Element(DNS_NAME, addresses[last].hostname)]
  }

  function IpElements(addresses: seq<Address>): (es: seq<Element>) {
    if addresses == [] then []
    else
      var last := |addresses| - 1;
      var front := IpElements(addresses[..last]);
      match addresses[last].ip
      case None => front
      case Some(ip) => front + [Element(IP_ADDRESS, Canonical(ip))]
  }

  /** What a certificate is to say: the host names in order, then the IPs in order. */
  function Names(addresses: seq<Address>): (es: seq<Element>) {
    DnsElements(addresses) + IpElements(addresses)
  }

  /** How many addresses have a host name, and how many an IP. */
  function HostCount(addresses: seq<Address>): (n: nat) {
    if addresses == [] then 0
    else HostCount(addresses[..|addresses| - 1]) + if addresses[|addresses| - 1].hostname != [] then 1 else 0
  }

  function IpCount(addresses: seq<Address>): (n: nat) {
    if addresses == [] then 0
    else IpCount(addresses[..|addresses| - 1]) + if addresses[|addresses| - 1].ip.Some? then 1 else 0
  }

  /** The octets a name carries for `ip`: the last four of an IPv4-mapped address, or all of them. */
  ghost predicate SameAddress(ip: Bytes, content: Bytes) {
    if exists v4: Bytes :: |v4| == 4 && ip == [0, 0, 0, 0, 0, 0, 0, 0, 0, 0, 0xff, 0xff] + v4
    then |content| == 4 && ip == [0, 0, 0, 0, 0, 0, 0, 0, 0, 0, 0xff, 0xff] + content
    else content == ip
  }

  /**
   `es` says of each address what a certificate is to say: the k-th host name that is not empty
   is the k-th name, and after all of these come the IPs in the same way.
   */
  ghost predicate Carries(es: seq<Element>, addresses: seq<Address>) {
    && |es| == HostCount(addresses) + IpCount(addresses)
    && (forall k :: 0 <= k < |addresses| && addresses[k].hostname != [] ==>
          var i := HostCount(addresses[..k]);
          i < HostCount(addresses) && es[i] == Element(0x82, addresses[k].hostname))
    && (forall k :: 0 <= k < |addresses| && addresses[k].ip.Some? ==>
          var i := HostCount(addresses) + IpCount(addresses[..k]);
          i < |es| && es[i].tag == 0x87 && SameAddress(addresses[k].ip.value, es[i].content))
  }

  lemma CanonicalSame(ip: Bytes)
    ensures SameAddress(ip, Canonical(ip))
  {
    if |ip| == 16 && ip[..12] == V4_IN_V6 {
      assert ip == V4_IN_V6 + ip[12..];
    } else {
      forall v4: Bytes | |v4| == 4 ensures ip != V4_IN_V6 + v4 {
        assert (V4_IN_V6 + v4)[..12] == V4_IN_V6;
      }
    }
  }

  lemma {:induction false} DnsCounted(addresses: seq<Address>, k: nat)
    requires k <= |addresses|
    ensures |DnsElements(addresses)| == HostCount(addresses)
    ensures k < |addresses| && addresses[k].hostname != [] ==>
              var i := HostCount(addresses[..k]);
              i < |DnsElements(addresses)| && DnsElements(addresses)[i] == Element(0x82, addresses[k].hostname)
  {
    if addresses == [] {
    } else {
      var last := |addresses| - 1;
      DnsCounted(addresses[..last], if k < last then k else last);
      if k < last {
        assert addresses[..last][..k] == addresses[..k];
      }
    }
  }

  lemma {:induction false} IpCounted(addresses: seq<Address>, k: nat)
    requires k <= |addresses|
    ensures |IpElements(addresses)| == IpCount(addresses)
    ensures k < |addresses| && addresses[k].ip.Some? ==>
              var i := IpCount(addresses[..k]);
              i < |IpElements(addresses)| && IpElements(addresses)[i] == Element(0x87, Canonical(addresses[k].ip.value))
  {
    hide Canonical;
    if addresses == [] {
    } else {
      var last := |addresses| - 1;
      IpCounted(addresses[..last], if k < last then k else last);
      if k < last {
        assert addresses[..last][..k] == addresses[..k];
      }
    }
  }

  /** The names carry exactly the addresses. */
  lemma NamesCarry(addresses: seq<Address>)
    ensures Carries(Names(addresses), addresses)
  {
    hide Canonical, SameAddress, HostCount, IpCount, DnsElements, IpElements;
    DnsCounted(addresses, |addresses|);
    IpCounted(addresses, |addresses|);
    forall k | 0 <= k < |addresses| && addresses[k].hostname != []
      ensures var i := HostCount(addresses[..k]);
              i < HostCount(addresses) && Names(addresses)[i] == Element(0x82, addresses[k].hostname)
    {
      DnsCounted(addresses, k);
    }
    forall k | 0 <= k < |addresses| && addresses[k].ip.Some?
      ensures var i := HostCount(addresses) + IpCount(addresses[..k]);
              i < |Names(addresses)| && Names(addresses)[i] == Element(0x87, Canonical(addresses[k].ip.value))
              && SameAddress(addresses[k].ip.value, Names(addresses)[i].content)
    {
      IpCounted(addresses, k);
      CanonicalSame(addresses[k].ip.value);
    }
  }

  /** getSANExt: splits the addresses into host names and IPs. */
  method CollectNames(addresses: seq<Address>) returns (dnsNames: seq<Bytes>, ips: seq<Bytes>)
    ensures DnsElements(addresses) == seq(|dnsNames|, i requires 0 <= i < |dnsNames| => Element(DNS_NAME, dnsNames[i]))
    ensures IpElements(addresses) == seq(|ips|, i requires 0 <= i < |ips| => Element(IP_ADDRESS, Canonical(ips[i])))
  {
    dnsNames, ips := [], [];
    for k := 0 to |addresses|
      invariant DnsElements(addresses[..k]) ==
                seq(|dnsNames|, i requires 0 <= i < |dnsNames| => Element(DNS_NAME, dnsNames[i]))
      invariant IpElements(addresses[..k]) ==
                seq(|ips|, i requires 0 <= i < |ips| => Element(IP_ADDRESS, Canonical(ips[i])))
    {
      assert addresses[..k + 1][..k] == addresses[..k];
      if addresses[k].ip.Some? {
        ips := ips + [addresses[k].ip.value];
      }
      if addresses[k].hostname != [] {
        dnsNames := dnsNames + [addresses[k].hostname];
      }
    }
    assert addresses[..|addresses|] == addresses;
  }

  /** Marshal: appends one raw value per name, then encodes the sequence. */
  method Marshal(addresses: seq<Address>) returns (value: Bytes)
    requires AllFit(Names(addresses)) && Fits(|EncodeElements(Names(addresses))|)
    ensures value == EncodeGeneralNames(Names(addresses))
    ensures DecodeGeneralNames(value) == Some(Names(addresses))
    ensures Carries(DecodeGeneralNames(value).value, addresses) && value[0] == 0x30
  {
    var dnsNames, ips := CollectNames(addresses);
    var rawValues: seq<Element> := [];
    for i := 0 to |dnsNames|
      invariant rawValues == DnsElements(addresses)[..i]
    {
      rawValues := rawValues + [Element(DNS_NAME, dnsNames[i])];
    }
    assert rawValues == DnsElements(addresses);
    for i := 0 to |ips|
      invariant rawValues == DnsElements(addresses) + IpElements(addresses)[..i]
    {
      rawValues := rawValues + [Element(IP_ADDRESS, Canonical(ips[i]))];
    }
    assert rawValues == Names(addresses);
    value := EncodeGeneralNames(rawValues);
    GeneralNamesExact(value, rawValues);
    NamesCarry(addresses);
  }
}
