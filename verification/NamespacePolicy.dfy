/**
 The cross-namespace policy of a SecretClass: which namespaces its references may name,
 decided before any of them is read on behalf of a pod.
 */
module NamespacePolicy {
  import opened Sequences
  import opened Text

  datatype ObjectRef = ObjectRef(name: string, namespace: string)

  datatype TrustRoot = TrustRoot(configMap: Option<ObjectRef>, secret: Option<ObjectRef>)

  datatype AuthoritySpec = AuthoritySpec(secret: Option<ObjectRef>)

  datatype AutoTls = AutoTls(ca: Option<AuthoritySpec>, additionalTrustRoots: seq<TrustRoot>)

  datatype KerberosKeytab = KerberosKeytab(adminKeytabSecret: Option<ObjectRef>)

  /** An explicit namespace, or the pod's own. */
  datatype SearchNamespace = SearchNamespace(name: Option<string>, pod: bool)

  datatype K8sSearch = K8sSearch(searchNamespace: Option<SearchNamespace>)

  datatype Backend = Backend(autoTls: Option<AutoTls>, k8sSearch: Option<K8sSearch>,
                             kerberosKeytab: Option<KerberosKeytab>)

  /** `whitelist` is the value of the allowed-namespaces annotation, if there is one. */
  datatype SecretClass = SecretClass(name: string, whitelist: Option<string>, backend: Option<Backend>)

  datatype Field =
    | AdminKeytabSecret
    | AuthoritySecret
    | RootConfigMap(index: nat)
    | RootSecret(index: nat)
    | SearchNamespaceName

  datatype Reference = Reference(field: Field, namespace: string)

  datatype Violation = Violation(podNamespace: string, requestedNamespace: string, className: string, field: Field)

  // ----- The policy

  predicate Blocked(ns: string) { ns == "kube-system" || ns == "kube-public" || ns == "kube-node-lease" }

  /** unicode.IsSpace. */
  predicate IsSpace(c: char) {
    || '\t' <= c <= '\r' || c == ' ' || c == '\U{85}' || c == '\U{A0}' || c == '\U{1680}'
    || '\U{2000}' <= c <= '\U{200A}' || c == '\U{2028}' || c == '\U{2029}' || c == '\U{202F}'
    || c == '\U{205F}' || c == '\U{3000}'
  }

  /** strings.TrimSpace: what is left has no space at either end, and only spaces were removed. */
  function TrimSpace(s: string): (r: string)
    ensures |r| <= |s|
    ensures r != "" ==> !IsSpace(r[0]) && !IsSpace(r[|r| - 1])
  {
    if s == "" then ""
    else if IsSpace(s[0]) then TrimSpace(s[1..])
    else if IsSpace(s[|s| - 1]) then TrimSpace(s[..|s| - 1])
    else s
  }

  /** Blanks, tabs and line ends are spaces, and no other visible or control ASCII character is. */
  lemma AsciiSpaces(c: char)
    requires c < '\U{80}'
    ensures IsSpace(c) <==> c in "\t\n\U{0B}\U{0C}\r "
  {
  }

  predicate AllSpace(s: string) { forall i :: 0 <= i < |s| ==> IsSpace(s[i]) }

  /** Only spaces are trimmed, and only at the ends. */
  lemma {:induction false} TrimSpaceSplits(s: string) returns (left: string, right: string)
    ensures s == left + TrimSpace(s) + right && AllSpace(left) && AllSpace(right)
  {
    hide IsSpace;
    left, right := "", "";
    if s == "" {
    } else if IsSpace(s[0]) {
      var l, r := TrimSpaceSplits(s[1..]);
      left, right := [s[0]] + l, r;
      assert s == [s[0]] + s[1..];
    } else if IsSpace(s[|s| - 1]) {
      var l, r := TrimSpaceSplits(s[..|s| - 1]);
      left, right := l, r + [s[|s| - 1]];
      assert s == s[..|s| - 1] + [s[|s| - 1]];
    }
  }

  /** `ns` is one of the comma-separated items, trimmed and not empty. */
  predicate Listed(whitelist: Option<string>, ns: string) {
    && ns != "" && whitelist.Some?
    && exists i :: 0 <= i < |Split(whitelist.value, ',')| && TrimSpace(Split(whitelist.value, ',')[i]) == ns
  }

  predicate Permitted(class_: SecretClass, podNamespace: string, ns: string) {
    !Blocked(ns) && (ns == podNamespace || Listed(class_.whitelist, ns))
  }

  function RootReferences(roots: seq<TrustRoot>): (refs: seq<Reference>) {
    if roots == [] then []
    else
      var last := |roots| - 1;
      RootReferences(roots[..last]) + RootReference(roots[last], last)
  }

  function RootReference(root: TrustRoot, i: nat): (refs: seq<Reference>) {
    (if root.configMap.Some? then [Reference(RootConfigMap(i), root.configMap.value.namespace)] else []) +
    (if root.secret.Some? then [Reference(RootSecret(i), root.secret.value.namespace)] else [])
  }

  function KerberosReferences(b: Backend): (refs: seq<Reference>) {
    if b.kerberosKeytab.Some? && b.kerberosKeytab.value.adminKeytabSecret.Some?
    then [Reference(AdminKeytabSecret, b.kerberosKeytab.value.adminKeytabSecret.value.namespace)] else []
  }

  function AuthorityReferences(b: Backend): (refs: seq<Reference>) {
    if b.autoTls.Some? && b.autoTls.value.ca.Some? && b.autoTls.value.ca.value.secret.Some?
    then [Reference(AuthoritySecret, b.autoTls.value.ca.value.secret.value.namespace)] else []
  }

  function SearchReferences(b: Backend): (refs: seq<Reference>) {
    if b.k8sSearch.Some? && b.k8sSearch.value.searchNamespace.Some? && b.k8sSearch.value.searchNamespace.value.name.Some?
    then [Reference(SearchNamespaceName, b.k8sSearch.value.searchNamespace.value.name.value)] else []
  }

  /** Every explicit namespace of a class, in the order they are checked. */
  function References(class_: SecretClass): (refs: seq<Reference>) {
    if class_.backend.None? then []
    else
      var b := class_.backend.value;
      KerberosReferences(b) + AuthorityReferences(b) +
      (if b.autoTls.Some? then RootReferences(b.autoTls.value.additionalTrustRoots) else []) +
      SearchReferences(b)
  }

  predicate AllPermitted(class_: SecretClass, podNamespace: string, refs: seq<Reference>) {
    forall i :: 0 <= i < |refs| ==> Permitted(class_, podNamespace, refs[i].namespace)
  }

  /** `v` reports the first reference that is not permitted. */
  ghost predicate ReportsFirst(class_: SecretClass, podNamespace: string, refs: seq<Reference>, v: Violation) {
    exists k :: && 0 <= k < |refs|
                && v == Violation(podNamespace, refs[k].namespace, class_.name, refs[k].field)
                && !Permitted(class_, podNamespace, refs[k].namespace)
                && AllPermitted(class_, podNamespace, refs[..k])
  }

  // ----- The code

  method ResolveAllowedNamespaces(class_: SecretClass, podNamespace: string) returns (allowed: set<string>)
    ensures forall ns :: ns in allowed <==> ns == podNamespace || Listed(class_.whitelist, ns)
  {
    allowed := {podNamespace};
    if class_.whitelist.None? || class_.whitelist.value == "" {
      EmptyWhitelist(class_.whitelist);
      return;
    }
    hide TrimSpace, Split;
    var items := Split(class_.whitelist.value, ',');
    for i := 0 to |items|
      invariant forall ns :: ns in allowed <==>
                               ns == podNamespace || (ns != "" && exists k :: 0 <= k < i && TrimSpace(items[k]) == ns)
    {
      var ns := TrimSpace(items[i]);
      if ns != "" {
        allowed := allowed + {ns};
      }
    }
  }

  lemma EmptyWhitelist(whitelist: Option<string>)
    requires whitelist.None? || whitelist.value == ""
    ensures forall ns :: !Listed(whitelist, ns)
  {
  }

  /** isAllowedNamespace on a set from which the blocked ones were deleted. */
  method IsAllowedNamespace(ns: string, allowed: set<string>) returns (ok: bool)
    ensures ok <==> !Blocked(ns) && ns in allowed
  {
    if Blocked(ns) {
      return false;
    }
    ok := ns in allowed;
  }

  lemma {:induction false} RootPrefix(roots: seq<TrustRoot>, i: nat)
    requires i < |roots|
    ensures RootReferences(roots[..i]) + RootReference(roots[i], i) <= RootReferences(roots)
  {
    var last := |roots| - 1;
    if i < last {
      RootPrefix(roots[..last], i);
      assert roots[..last][..i] == roots[..i];
    }
  }

  lemma PermittedAppend(class_: SecretClass, podNamespace: string, done: seq<Reference>, ref: Reference)
    requires AllPermitted(class_, podNamespace, done) && Permitted(class_, podNamespace, ref.namespace)
    ensures AllPermitted(class_, podNamespace, done + [ref])
  {
    hide Permitted;
  }

  /** All references before `ref` are permitted and `ref` is not: it is the one to report. */
  lemma Report(class_: SecretClass, podNamespace: string, refs: seq<Reference>, done: seq<Reference>, ref: Reference)
    requires AllPermitted(class_, podNamespace, done) && !Permitted(class_, podNamespace, ref.namespace)
    requires done + [ref] <= refs
    ensures ReportsFirst(class_, podNamespace, refs, Violation(podNamespace, ref.namespace, class_.name, ref.field))
    ensures !AllPermitted(class_, podNamespace, refs)
  {
    hide Permitted;
    var k := |done|;
    assert refs[k] == (done + [ref])[k] && refs[..k] == done;
  }

  /** `allowed`, less the blocked namespaces, is exactly what the policy permits. */
  ghost predicate Decides(class_: SecretClass, podNamespace: string, allowed: set<string>) {
    forall ns :: !Blocked(ns) && ns in allowed <==> Permitted(class_, podNamespace, ns)
  }

  /** The two references of one additional trust root. */
  method ValidateTrustRoot(class_: SecretClass, podNamespace: string, allowed: set<string>, root: TrustRoot, i: nat,
                           ghost refs: seq<Reference>, ghost before: seq<Reference>) returns (r: Option<Violation>)
    requires Decides(class_, podNamespace, allowed) && AllPermitted(class_, podNamespace, before)
    requires before + RootReference(root, i) <= refs
    ensures r.None? ==> AllPermitted(class_, podNamespace, before + RootReference(root, i))
    ensures r.Some? ==> ReportsFirst(class_, podNamespace, refs, r.value) && !AllPermitted(class_, podNamespace, refs)
  {
    hide Permitted, AllPermitted, ReportsFirst;
    ghost var done := before;
    if root.configMap.Some? {
      var ns := root.configMap.value.namespace;
      var ok := IsAllowedNamespace(ns, allowed);
      if !ok {
        Report(class_, podNamespace, refs, done, Reference(RootConfigMap(i), ns));
        return Some(Violation(podNamespace, ns, class_.name, RootConfigMap(i)));
      }
      PermittedAppend(class_, podNamespace, done, Reference(RootConfigMap(i), ns));
      done := done + [Reference(RootConfigMap(i), ns)];
    }
    if root.secret.Some? {
      var ns := root.secret.value.namespace;
      var ok := IsAllowedNamespace(ns, allowed);
      if !ok {
        Report(class_, podNamespace, refs, done, Reference(RootSecret(i), ns));
        return Some(Violation(podNamespace, ns, class_.name, RootSecret(i)));
      }
      PermittedAppend(class_, podNamespace, done, Reference(RootSecret(i), ns));
      done := done + [Reference(RootSecret(i), ns)];
    }
    assert done == before + RootReference(root, i);
    r := None;
  }

  method ValidateTrustRoots(class_: SecretClass, podNamespace: string, allowed: set<string>, roots: seq<TrustRoot>,
                            ghost refs: seq<Reference>, ghost before: seq<Reference>) returns (r: Option<Violation>)
    requires Decides(class_, podNamespace, allowed) && AllPermitted(class_, podNamespace, before)
    requires before + RootReferences(roots) <= refs
    ensures r.None? ==> AllPermitted(class_, podNamespace, before + RootReferences(roots))
    ensures r.Some? ==> ReportsFirst(class_, podNamespace, refs, r.value) && !AllPermitted(class_, podNamespace, refs)
  {
    hide Permitted, AllPermitted, ReportsFirst, RootReference, Decides;
    assert before + RootReferences(roots[..0]) == before;
    for i := 0 to |roots|
      invariant AllPermitted(class_, podNamespace, before + RootReferences(roots[..i]))
    {
      ghost var done := before + RootReferences(roots[..i]);
      RootPrefix(roots, i);
      assert done + RootReference(roots[i], i) == before + (RootReferences(roots[..i]) + RootReference(roots[i], i));
      r := ValidateTrustRoot(class_, podNamespace, allowed, roots[i], i, refs, done);
      if r.Some? {
        return;
      }
      assert roots[..i + 1][..i] == roots[..i];
      assert before + RootReferences(roots[..i + 1]) == done + RootReference(roots[i], i);
    }
    assert roots[..|roots|] == roots;
    r := None;
  }

  /** The Kerberos and AutoTLS parts of a backend. */
  method ValidateKeytabAndTls(class_: SecretClass, podNamespace: string, allowed: set<string>, b: Backend)
    returns (r: Option<Violation>, ghost done: seq<Reference>)
    requires Decides(class_, podNamespace, allowed) && class_.backend == Some(b)
    ensures r.None? ==> AllPermitted(class_, podNamespace, done) && References(class_) == done + SearchReferences(b)
    ensures r.Some? ==> ReportsFirst(class_, podNamespace, References(class_), r.value)
                        && !AllPermitted(class_, podNamespace, References(class_))
  {
    hide Permitted, ReportsFirst, RootReferences, SearchReferences;
    ghost var refs := References(class_);
    done := [];
    if b.kerberosKeytab.Some? && b.kerberosKeytab.value.adminKeytabSecret.Some? {
      var ns := b.kerberosKeytab.value.adminKeytabSecret.value.namespace;
      var ok := IsAllowedNamespace(ns, allowed);
      if !ok {
        Report(class_, podNamespace, refs, done, Reference(AdminKeytabSecret, ns));
        return Some(Violation(podNamespace, ns, class_.name, AdminKeytabSecret)), done;
      }
      done := [Reference(AdminKeytabSecret, ns)];
    }
    assert done == KerberosReferences(b);
    if b.autoTls.Some? {
      if b.autoTls.value.ca.Some? && b.autoTls.value.ca.value.secret.Some? {
        var ns := b.autoTls.value.ca.value.secret.value.namespace;
        var ok := IsAllowedNamespace(ns, allowed);
        if !ok {
          Report(class_, podNamespace, refs, done, Reference(AuthoritySecret, ns));
          return Some(Violation(podNamespace, ns, class_.name, AuthoritySecret)), done;
        }
        PermittedAppend(class_, podNamespace, done, Reference(AuthoritySecret, ns));
        done := done + [Reference(AuthoritySecret, ns)];
      }
      assert done == KerberosReferences(b) + AuthorityReferences(b);
      r := ValidateTrustRoots(class_, podNamespace, allowed, b.autoTls.value.additionalTrustRoots, refs, done);
      if r.Some? {
        return;
      }
      done := done + RootReferences(b.autoTls.value.additionalTrustRoots);
    }
    r := None;
  }

  lemma AllowedDecides(class_: SecretClass, podNamespace: string, allowed: set<string>)
    requires forall ns :: ns in allowed <==> ns == podNamespace || Listed(class_.whitelist, ns)
    ensures Decides(class_, podNamespace, allowed - {"kube-system", "kube-public", "kube-node-lease"})
  {
    hide Listed;
  }

  lemma RootMember(roots: seq<TrustRoot>, i: nat, r: Reference)
    requires i < |roots| && r in RootReference(roots[i], i)
    ensures r in RootReferences(roots)
  {
    hide RootReferences, RootReference;
    RootPrefix(roots, i);
    var some := RootReferences(roots[..i]) + RootReference(roots[i], i);
    assert r in some;
    assert some == RootReferences(roots)[..|some|];
  }

  /** The policy in plain terms: not a system namespace, and the pod's own or a whitelist item. */
  lemma PermittedIff(class_: SecretClass, podNamespace: string, ns: string)
    ensures Permitted(class_, podNamespace, ns) <==>
            && ns != "kube-system" && ns != "kube-public" && ns != "kube-node-lease"
            && (|| ns == podNamespace
                || (&& ns != "" && class_.whitelist.Some?
                    && exists i :: 0 <= i < |Split(class_.whitelist.value, ',')|
                                   && TrimSpace(Split(class_.whitelist.value, ',')[i]) == ns))
  {
    hide TrimSpace, Split, IsSpace;
    if Listed(class_.whitelist, ns) {
      var i :| 0 <= i < |Split(class_.whitelist.value, ',')| && TrimSpace(Split(class_.whitelist.value, ',')[i]) == ns;
      assert TrimSpace(Split(class_.whitelist.value, ',')[i]) == ns;
    }
  }

  /** The namespace a class names in a field, if it does. */
  function NamespaceAt(class_: SecretClass, f: Field): (ns: Option<string>) {
    if class_.backend.None? then None
    else
      var b := class_.backend.value;
      match f
      case AdminKeytabSecret =>
        if b.kerberosKeytab.Some? && b.kerberosKeytab.value.adminKeytabSecret.Some?
        then Some(b.kerberosKeytab.value.adminKeytabSecret.value.namespace) else None
      case AuthoritySecret =>
        if b.autoTls.Some? && b.autoTls.value.ca.Some? && b.autoTls.value.ca.value.secret.Some?
        then Some(b.autoTls.value.ca.value.secret.value.namespace) else None
      case RootConfigMap(i) =>
        if b.autoTls.Some? && i < |b.autoTls.value.additionalTrustRoots| && b.autoTls.value.additionalTrustRoots[i].configMap.Some?
        then Some(b.autoTls.value.additionalTrustRoots[i].configMap.value.namespace) else None
      case RootSecret(i) =>
        if b.autoTls.Some? && i < |b.autoTls.value.additionalTrustRoots| && b.autoTls.value.additionalTrustRoots[i].secret.Some?
        then Some(b.autoTls.value.additionalTrustRoots[i].secret.value.namespace) else None
      case SearchNamespaceName =>
        if b.k8sSearch.Some? && b.k8sSearch.value.searchNamespace.Some? then b.k8sSearch.value.searchNamespace.value.name else None
  }

  /** The order the fields are examined in: keytab, authority, each root's ConfigMap and Secret, search. */
  predicate Earlier(f: Field, g: Field) {
    match (f, g)
    case (SearchNamespaceName, _) => false
    case (_, SearchNamespaceName) => true
    case (AdminKeytabSecret, _) => g != AdminKeytabSecret
    case (_, AdminKeytabSecret) => false
    case (AuthoritySecret, _) => g != AuthoritySecret
    case (_, AuthoritySecret) => false
    case (RootConfigMap(i), RootConfigMap(j)) => i < j
    case (RootConfigMap(i), RootSecret(j)) => i <= j
    case (RootSecret(i), RootConfigMap(j)) => i < j
    case (RootSecret(i), RootSecret(j)) => i < j
  }

  predicate InOrder(refs: seq<Reference>) {
    forall i, j :: 0 <= i < j < |refs| ==> Earlier(refs[i].field, refs[j].field)
  }

  lemma {:induction false} RootOrigin(roots: seq<TrustRoot>, r: Reference)
    requires r in RootReferences(roots)
    ensures exists i :: 0 <= i < |roots| && r in RootReference(roots[i], i)
  {
    hide RootReference;
    var last := |roots| - 1;
    if r in RootReference(roots[last], last) {
    } else {
      RootOrigin(roots[..last], r);
      var i :| 0 <= i < last && r in RootReference(roots[..last][i], i);
      assert r in RootReference(roots[i], i);
    }
  }

  /** The references of the roots are those of the fields, root by root. */
  lemma RootFields(roots: seq<TrustRoot>, r: Reference)
    ensures r in RootReferences(roots) <==>
            || (r.field.RootConfigMap? && r.field.index < |roots| && roots[r.field.index].configMap.Some?
                && roots[r.field.index].configMap.value.namespace == r.namespace)
            || (r.field.RootSecret? && r.field.index < |roots| && roots[r.field.index].secret.Some?
                && roots[r.field.index].secret.value.namespace == r.namespace)
  {
    hide RootReferences;
    if r in RootReferences(roots) {
      RootOrigin(roots, r);
    } else if (r.field.RootConfigMap? || r.field.RootSecret?) && r.field.index < |roots| {
      if r in RootReference(roots[r.field.index], r.field.index) {
        RootMember(roots, r.field.index, r);
      }
    }
  }

  /** The fields of the roots below `n`. */
  predicate RootFieldsBelow(refs: seq<Reference>, n: nat) {
    forall i :: 0 <= i < |refs| ==> (refs[i].field.RootConfigMap? || refs[i].field.RootSecret?) && refs[i].field.index < n
  }

  lemma OneRootInOrder(root: TrustRoot, n: nat)
    ensures InOrder(RootReference(root, n)) && RootFieldsBelow(RootReference(root, n), n + 1)
    ensures forall r <- RootReference(root, n) :: r.field.index == n
  {
  }

  lemma RootsBefore(a: seq<Reference>, root: TrustRoot, n: nat)
    requires InOrder(a) && RootFieldsBelow(a, n)
    ensures InOrder(a + RootReference(root, n)) && RootFieldsBelow(a + RootReference(root, n), n + 1)
  {
    OneRootInOrder(root, n);
    hide RootReference, InOrder;
    OrderedConcat(a, RootReference(root, n));
  }

  lemma {:induction false} RootsInOrder(roots: seq<TrustRoot>)
    ensures InOrder(RootReferences(roots)) && RootFieldsBelow(RootReferences(roots), |roots|)
  {
    hide RootReference, InOrder, RootFieldsBelow;
    if roots == [] {
      NoRoots();
    } else {
      RootsInOrder(roots[..|roots| - 1]);
      RootsBefore(RootReferences(roots[..|roots| - 1]), roots[|roots| - 1], |roots| - 1);
    }
  }

  lemma NoRoots()
    ensures InOrder([]) && RootFieldsBelow([], 0)
  {
  }

  lemma OrderedConcat(a: seq<Reference>, b: seq<Reference>)
    requires InOrder(a) && InOrder(b)
    requires forall i, j :: 0 <= i < |a| && 0 <= j < |b| ==> Earlier(a[i].field, b[j].field)
    ensures InOrder(a + b)
  {
    hide Earlier;
  }

  /** The references are exactly the fields that name a namespace, in the order they are examined. */
  lemma ReferencesAreFields(class_: SecretClass, r: Reference)
    ensures r in References(class_) <==> NamespaceAt(class_, r.field) == Some(r.namespace)
  {
    if class_.backend.Some? && class_.backend.value.autoTls.Some? {
      RootFields(class_.backend.value.autoTls.value.additionalTrustRoots, r);
    }
    hide RootReferences;
  }

  /** The four groups of references follow one another in the order of their fields. */
  lemma GroupsInOrder(k: seq<Reference>, a: seq<Reference>, roots: seq<Reference>, n: nat, q: seq<Reference>)
    requires |k| <= 1 && (forall r <- k :: r.field == AdminKeytabSecret)
    requires |a| <= 1 && (forall r <- a :: r.field == AuthoritySecret)
    requires InOrder(roots) && RootFieldsBelow(roots, n)
    requires |q| <= 1 && (forall r <- q :: r.field == SearchNamespaceName)
    ensures InOrder(k + a + roots + q)
  {
    OrderedConcat(roots, q);
    assert InOrder(a);
    OrderedConcat(a, roots + q);
    OrderedConcat(k, a + (roots + q));
    assert k + a + roots + q == k + (a + (roots + q));
  }

  lemma ReferencesInOrder(class_: SecretClass)
    ensures InOrder(References(class_))
  {
    hide InOrder, RootFieldsBelow, RootReferences;
    NoRoots();
    if class_.backend.Some? {
      var b := class_.backend.value;
      if b.autoTls.Some? {
        var roots := b.autoTls.value.additionalTrustRoots;
        RootsInOrder(roots);
        GroupsInOrder(KerberosReferences(b), AuthorityReferences(b), RootReferences(roots), |roots|, SearchReferences(b));
      } else {
        GroupsInOrder(KerberosReferences(b), AuthorityReferences(b), [], 0, SearchReferences(b));
      }
    }
  }

  /** Every field that names a namespace names a permitted one. */
  ghost predicate FieldsPermitted(class_: SecretClass, podNamespace: string) {
    forall f :: NamespaceAt(class_, f).Some? ==> Permitted(class_, podNamespace, NamespaceAt(class_, f).value)
  }

  lemma AllPermittedIff(class_: SecretClass, podNamespace: string)
    ensures AllPermitted(class_, podNamespace, References(class_)) <==> FieldsPermitted(class_, podNamespace)
  {
    hide Permitted, References, NamespaceAt;
    var refs := References(class_);
    if AllPermitted(class_, podNamespace, refs) {
      forall f | NamespaceAt(class_, f).Some? ensures Permitted(class_, podNamespace, NamespaceAt(class_, f).value) {
        ReferencesAreFields(class_, Reference(f, NamespaceAt(class_, f).value));
      }
    }
    if FieldsPermitted(class_, podNamespace) {
      forall i | 0 <= i < |refs| ensures Permitted(class_, podNamespace, refs[i].namespace) {
        ReferencesAreFields(class_, refs[i]);
      }
    }
  }

  /** `v` names the earliest field that is not permitted. */
  ghost predicate NamesFirstField(class_: SecretClass, podNamespace: string, v: Violation) {
    && v.podNamespace == podNamespace && v.className == class_.name
    && NamespaceAt(class_, v.field) == Some(v.requestedNamespace)
    && !Permitted(class_, podNamespace, v.requestedNamespace)
    && (forall f :: Earlier(f, v.field) && NamespaceAt(class_, f).Some? ==>
                      Permitted(class_, podNamespace, NamespaceAt(class_, f).value))
  }

  lemma EarlierIsStrict(f: Field, g: Field)
    ensures !(Earlier(f, g) && Earlier(g, f)) && !Earlier(f, f)
  {
  }

  lemma FirstReported(class_: SecretClass, podNamespace: string, v: Violation)
    requires ReportsFirst(class_, podNamespace, References(class_), v)
    ensures NamesFirstField(class_, podNamespace, v)
  {
    hide Permitted, References, NamespaceAt, Earlier;
    var refs := References(class_);
    var k :| && 0 <= k < |refs|
             && v == Violation(podNamespace, refs[k].namespace, class_.name, refs[k].field)
             && !Permitted(class_, podNamespace, refs[k].namespace)
             && AllPermitted(class_, podNamespace, refs[..k]);
    ReferencesAreFields(class_, refs[k]);
    ReferencesInOrder(class_);
    forall f | Earlier(f, v.field) && NamespaceAt(class_, f).Some?
      ensures Permitted(class_, podNamespace, NamespaceAt(class_, f).value)
    {
      var r := Reference(f, NamespaceAt(class_, f).value);
      ReferencesAreFields(class_, r);
      var i :| 0 <= i < |refs| && refs[i] == r;
      EarlierIsStrict(f, v.field);
      assert i < k;
      assert refs[..k][i] == r;
    }
  }

  /** The same on the fields of the class, written out. */
  lemma FieldsPermittedIff(class_: SecretClass, podNamespace: string)
    ensures FieldsPermitted(class_, podNamespace) <==>
            (class_.backend.Some? ==>
               var b := class_.backend.value;
               && (b.kerberosKeytab.Some? && b.kerberosKeytab.value.adminKeytabSecret.Some? ==>
                     Permitted(class_, podNamespace, b.kerberosKeytab.value.adminKeytabSecret.value.namespace))
               && (b.autoTls.Some? && b.autoTls.value.ca.Some? && b.autoTls.value.ca.value.secret.Some? ==>
                     Permitted(class_, podNamespace, b.autoTls.value.ca.value.secret.value.namespace))
               && (b.autoTls.Some? ==>
                     forall i :: 0 <= i < |b.autoTls.value.additionalTrustRoots| ==>
                                   var root := b.autoTls.value.additionalTrustRoots[i];
                                   && (root.configMap.Some? ==> Permitted(class_, podNamespace, root.configMap.value.namespace))
                                   && (root.secret.Some? ==> Permitted(class_, podNamespace, root.secret.value.namespace)))
               && (b.k8sSearch.Some? && b.k8sSearch.value.searchNamespace.Some? && b.k8sSearch.value.searchNamespace.value.name.Some? ==>
                     Permitted(class_, podNamespace, b.k8sSearch.value.searchNamespace.value.name.value)))
  {
    hide Permitted;
    if class_.backend.Some? && FieldsPermitted(class_, podNamespace) {
      var named := [NamespaceAt(class_, AdminKeytabSecret), NamespaceAt(class_, AuthoritySecret),
                    NamespaceAt(class_, SearchNamespaceName)];
      if class_.backend.value.autoTls.Some? {
        forall i: nat | i < |class_.backend.value.autoTls.value.additionalTrustRoots|
          ensures var root := class_.backend.value.autoTls.value.additionalTrustRoots[i];
                  && (root.configMap.Some? ==> Permitted(class_, podNamespace, root.configMap.value.namespace))
                  && (root.secret.Some? ==> Permitted(class_, podNamespace, root.secret.value.namespace))
        {
          var rootNamed := [NamespaceAt(class_, RootConfigMap(i)), NamespaceAt(class_, RootSecret(i))];
        }
      }
    }
  }

  /**
   The policy is exact: validation succeeds if and only if every field that names a namespace
   names a permitted one, and otherwise reports the earliest field that does not.
   */
  method ValidateCrossNamespaceReferences(class_: SecretClass, podNamespace: string) returns (r: Option<Violation>)
    ensures r.None? <==> AllPermitted(class_, podNamespace, References(class_))
    ensures r.Some? ==> ReportsFirst(class_, podNamespace, References(class_), r.value)
    ensures r.None? <==> FieldsPermitted(class_, podNamespace)
    ensures r.Some? ==> NamesFirstField(class_, podNamespace, r.value)
  {
    r := ValidateReferences(class_, podNamespace);
    AllPermittedIff(class_, podNamespace);
    if r.Some? {
      FirstReported(class_, podNamespace, r.value);
    }
  }

  method ValidateReferences(class_: SecretClass, podNamespace: string) returns (r: Option<Violation>)
    ensures r.None? <==> AllPermitted(class_, podNamespace, References(class_))
    ensures r.Some? ==> ReportsFirst(class_, podNamespace, References(class_), r.value)
  {
    hide Permitted, ReportsFirst, Listed, Blocked;
    var allowed := ResolveAllowedNamespaces(class_, podNamespace);
    AllowedDecides(class_, podNamespace, allowed);
    allowed := allowed - {"kube-system", "kube-public", "kube-node-lease"};
    if class_.backend.None? {
      return None;
    }
    var b := class_.backend.value;
    ghost var done;
    r, done := ValidateKeytabAndTls(class_, podNamespace, allowed, b);
    if r.Some? {
      return;
    }
    if b.k8sSearch.Some? && b.k8sSearch.value.searchNamespace.Some? && b.k8sSearch.value.searchNamespace.value.name.Some? {
      var ns := b.k8sSearch.value.searchNamespace.value.name.value;
      var ok := IsAllowedNamespace(ns, allowed);
      if !ok {
        Report(class_, podNamespace, References(class_), done, Reference(SearchNamespaceName, ns));
        return Some(Violation(podNamespace, ns, class_.name, SearchNamespaceName));
      }
      PermittedAppend(class_, podNamespace, done, Reference(SearchNamespaceName, ns));
    }
    r := None;
  }

  // ----- What a node publish then reads

  datatype Kind = SecretClassKind | PodKind | SecretKind | ConfigMapKind | NodeKind | ClaimKind | ListenerKind | ListenerClassKind

  /** One request to the API server; cluster-scoped kinds have no namespace. */
  datatype Access = Access(kind: Kind, namespace: Option<string>)

  /** What the pod's scope makes a backend look up: its node, and the PVCs of its listener volumes. */
  datatype Lookups = Lookups(node: bool, claims: seq<string>)

  class Client {
    var log: seq<Access>

    constructor ()
      ensures log == []
    {
      log := [];
    }

    /** A get, list, create or update, which may fail. */
    method Request(kind: Kind, namespace: Option<string>) returns (found: bool)
      modifies this
      ensures log == old(log) + [Access(kind, namespace)]
    {
      log := log + [Access(kind, namespace)];
      found := *;
    }
  }

  /** Every request is cluster-scoped, in the pod's namespace, or for a Secret in `target`. */
  predicate Within(made: seq<Access>, podNamespace: string, target: Option<string>) {
    forall i :: 0 <= i < |made| ==>
      || made[i].namespace == None
      || made[i].namespace == Some(podNamespace)
      || (target.Some? && made[i] == Access(SecretKind, target))
  }

  /** fetchScopedListenerVolumeNamesToListenerName: one PVC after another, all in the pod's namespace. */
  method FetchListeners(client: Client, podNamespace: string, claims: seq<string>, cached: bool) returns (ok: bool)
    modifies client
    ensures old(client.log) <= client.log
    ensures Within(client.log[|old(client.log)|..], podNamespace, None)
  {
    ok := true;
    var i := if cached then |claims| else 0;
    while ok && i < |claims|
      invariant old(client.log) <= client.log
      invariant Within(client.log[|old(client.log)|..], podNamespace, None)
      decreases |claims| - i
    {
      ok := client.Request(ClaimKind, Some(podNamespace));
      i := i + 1;
    }
  }

  /** GetScopedAddresses: the node, then each listener of the scope. */
  method ScopedAddresses(client: Client, podNamespace: string, lookups: Lookups, cached: bool) returns (ok: bool)
    modifies client
    ensures old(client.log) <= client.log
    ensures Within(client.log[|old(client.log)|..], podNamespace, None)
  {
    if lookups.node {
      // A node that is not found only leaves its addresses out.
      var found := client.Request(NodeKind, None);
    }
    ok := FetchListeners(client, podNamespace, lookups.claims, cached);
    var i := 0;
    while ok && i < |lookups.claims|
      invariant old(client.log) <= client.log
      invariant Within(client.log[|old(client.log)|..], podNamespace, None)
      decreases |lookups.claims| - i
    {
      ok := client.Request(ListenerKind, Some(podNamespace));
      i := i + 1;
    }
  }

  /** HasListenerNodeScope: each listener and its class, until one is of node scope. */
  method HasListenerNodeScope(client: Client, podNamespace: string, lookups: Lookups) returns (ok: bool)
    modifies client
    ensures old(client.log) <= client.log
    ensures Within(client.log[|old(client.log)|..], podNamespace, None)
  {
    ok := FetchListeners(client, podNamespace, lookups.claims, false);
    var i, found := 0, false;
    while ok && !found && i < |lookups.claims|
      invariant old(client.log) <= client.log
      invariant Within(client.log[|old(client.log)|..], podNamespace, None)
      decreases |lookups.claims| - i
    {
      ok := client.Request(ListenerKind, Some(podNamespace));
      if ok {
        ok := client.Request(ListenerClassKind, None);
        found := *;
      }
      i := i + 1;
    }
  }

  /** provisionKeytab: the admin keytab, then the addresses; a missing reference panics before any read. */
  method KerberosData(client: Client, spec: KerberosKeytab, podNamespace: string, lookups: Lookups) returns (ok: bool)
    modifies client
    ensures old(client.log) <= client.log
    ensures Within(client.log[|old(client.log)|..], podNamespace,
                   if spec.adminKeytabSecret.Some? then Some(spec.adminKeytabSecret.value.namespace) else None)
    ensures spec.adminKeytabSecret.None? ==> !ok && client.log == old(client.log)
    ensures spec.adminKeytabSecret.Some? ==>
              old(client.log) + [Access(SecretKind, Some(spec.adminKeytabSecret.value.namespace))] <= client.log
  {
    if spec.adminKeytabSecret.None? {
      return false;
    }
    ok := client.Request(SecretKind, Some(spec.adminKeytabSecret.value.namespace));
    if ok {
      ok := ScopedAddresses(client, podNamespace, lookups, false);
    }
  }

  function AuthorityNamespace(spec: AutoTls): (ns: Option<string>) {
    if spec.ca.Some? && spec.ca.value.secret.Some? then Some(spec.ca.value.secret.value.namespace) else None
  }

  /** Every request is in the namespace of some root. */
  ghost predicate InRoots(made: seq<Access>, roots: seq<TrustRoot>) {
    forall i :: 0 <= i < |made| ==> exists r :: r in RootReferences(roots) && made[i].namespace == Some(r.namespace)
  }

  /** getAdditionalTrustRoots: the ConfigMap and the Secret of each root; a root without one panics. */
  method AdditionalTrustRoots(client: Client, roots: seq<TrustRoot>) returns (ok: bool)
    modifies client
    ensures old(client.log) <= client.log && InRoots(client.log[|old(client.log)|..], roots)
    ensures roots == [] ==> client.log == old(client.log)
  {
    hide RootReferences;
    ok := true;
    var i := 0;
    while ok && i < |roots|
      invariant i <= |roots| && old(client.log) <= client.log
      invariant InRoots(client.log[|old(client.log)|..], roots)
      invariant roots == [] ==> client.log == old(client.log)
      decreases |roots| - i
    {
      if roots[i].configMap.None? {
        return false;
      }
      RootMember(roots, i, Reference(RootConfigMap(i), roots[i].configMap.value.namespace));
      ok := client.Request(ConfigMapKind, Some(roots[i].configMap.value.namespace));
      if !ok || roots[i].secret.None? {
        return false;
      }
      RootMember(roots, i, Reference(RootSecret(i), roots[i].secret.value.namespace));
      ok := client.Request(SecretKind, Some(roots[i].secret.value.namespace));
      i := i + 1;
    }
  }

  /** The certificate manager: reads the authority Secret, and may create it and try five updates. */
  method Authority(client: Client, ns: string, podNamespace: string) returns (ok: bool)
    modifies client
    ensures old(client.log) <= client.log
    ensures Within(client.log[|old(client.log)|..], podNamespace, Some(ns))
    ensures old(client.log) + [Access(SecretKind, Some(ns))] <= client.log
  {
    ok := client.Request(SecretKind, Some(ns));
    var writes :| 0 <= writes <= 6;
    for i := 0 to writes
      invariant old(client.log) + [Access(SecretKind, Some(ns))] <= client.log
      invariant Within(client.log[|old(client.log)|..], podNamespace, Some(ns))
    {
      ok := client.Request(SecretKind, Some(ns));
    }
  }

  /**
   The autoTls backend: the authority Secret, then the addresses, then the additional trust
   roots that the certificate manager kept, and it keeps none. A missing reference panics first.
   */
  method AutoTlsData(client: Client, spec: AutoTls, podNamespace: string, lookups: Lookups) returns (ok: bool)
    modifies client
    ensures old(client.log) <= client.log
    ensures Within(client.log[|old(client.log)|..], podNamespace, AuthorityNamespace(spec))
    ensures AuthorityNamespace(spec).None? ==> !ok && client.log == old(client.log)
    ensures AuthorityNamespace(spec).Some? ==> old(client.log) + [Access(SecretKind, AuthorityNamespace(spec))] <= client.log
  {
    if spec.ca.None? || spec.ca.value.secret.None? {
      return false;
    }
    ok := Authority(client, spec.ca.value.secret.value.namespace, podNamespace);
    if ok {
      ok := ScopedAddresses(client, podNamespace, lookups, false);
    }
    if ok {
      ok := AdditionalTrustRoots(client, []);
    }
  }

  /** The namespace that is searched: the one named, or else the pod's, or else an error. */
  method SearchedNamespace(spec: SearchNamespace, podNamespace: string) returns (ns: Option<string>)
    ensures spec.name.Some? ==> ns == spec.name
    ensures spec.name.None? ==> ns == if spec.pod then Some(podNamespace) else None
  {
    if spec.name.Some? {
      return spec.name;
    }
    if spec.pod {
      return Some(podNamespace);
    }
    ns := None;
  }

  method SearchData(client: Client, spec: K8sSearch, podNamespace: string, lookups: Lookups) returns (ok: bool)
    modifies client
    ensures old(client.log) <= client.log
    ensures Within(client.log[|old(client.log)|..], podNamespace,
                   if spec.searchNamespace.Some? then spec.searchNamespace.value.name else None)
    ensures ok ==>
              && spec.searchNamespace.Some? && client.log != []
              && var k := spec.searchNamespace.value;
                 client.log[|client.log| - 1] == Access(SecretKind, if k.name.Some? then k.name else Some(podNamespace))
    ensures spec.searchNamespace.None? || (spec.searchNamespace.value.name.None? && !spec.searchNamespace.value.pod) ==>
              !ok && client.log == old(client.log)
  {
    if spec.searchNamespace.None? {
      return false;
    }
    var ns := SearchedNamespace(spec.searchNamespace.value, podNamespace);
    if ns.None? {
      return false;
    }
    ok := HasListenerNodeScope(client, podNamespace, lookups);
    if ok {
      ok := client.Request(SecretKind, ns);
    }
  }

  /** The backend that is chosen, and the one namespace besides the pod's that it is aimed at. */
  function AimedAt(b: Backend): (ns: Option<string>) {
    if b.kerberosKeytab.Some? then
      (match b.kerberosKeytab.value.adminKeytabSecret case Some(ref) => Some(ref.namespace) case None => None)
    else if b.autoTls.Some? then AuthorityNamespace(b.autoTls.value)
    else if b.k8sSearch.Some? && b.k8sSearch.value.searchNamespace.Some? then b.k8sSearch.value.searchNamespace.value.name
    else None
  }

  method BackendData(client: Client, b: Backend, podNamespace: string, lookups: Lookups) returns (ok: bool)
    modifies client
    ensures old(client.log) <= client.log
    ensures Within(client.log[|old(client.log)|..], podNamespace, AimedAt(b))
    ensures b.kerberosKeytab.Some? && b.kerberosKeytab.value.adminKeytabSecret.Some? ==>
              old(client.log) + [Access(SecretKind, Some(b.kerberosKeytab.value.adminKeytabSecret.value.namespace))] <= client.log
    ensures b.kerberosKeytab.None? && b.autoTls.Some? && AuthorityNamespace(b.autoTls.value).Some? ==>
              old(client.log) + [Access(SecretKind, AuthorityNamespace(b.autoTls.value))] <= client.log
    ensures b.kerberosKeytab.None? && b.autoTls.None? && ok ==>
              && b.k8sSearch.Some? && b.k8sSearch.value.searchNamespace.Some? && client.log != []
              && var k := b.k8sSearch.value.searchNamespace.value;
                 client.log[|client.log| - 1] == Access(SecretKind, if k.name.Some? then k.name else Some(podNamespace))
  {
    ok := false;
    if b.kerberosKeytab.Some? {
      ok := KerberosData(client, b.kerberosKeytab.value, podNamespace, lookups);
    } else if b.autoTls.Some? {
      ok := AutoTlsData(client, b.autoTls.value, podNamespace, lookups);
    } else if b.k8sSearch.Some? {
      ok := SearchData(client, b.k8sSearch.value, podNamespace, lookups);
    }
  }

  /** What a backend is aimed at is one of the references that were validated. */
  lemma AimIsReferenced(class_: SecretClass)
    requires class_.backend.Some? && AimedAt(class_.backend.value).Some?
    ensures exists r :: r in References(class_) && r.namespace == AimedAt(class_.backend.value).value
  {
    hide RootReferences;
    var b, ns := class_.backend.value, AimedAt(class_.backend.value).value;
    if b.kerberosKeytab.Some? {
      assert Reference(AdminKeytabSecret, ns) in References(class_);
    } else if b.autoTls.Some? {
      assert Reference(AuthoritySecret, ns) in References(class_);
    } else {
      assert Reference(SearchNamespaceName, ns) in References(class_);
    }
  }

  /** A request stays inside what the policy allows the pod. */
  ghost predicate Lawful(class_: SecretClass, podNamespace: string, a: Access) {
    a.namespace.Some? && a.namespace.value != podNamespace ==>
      && Listed(class_.whitelist, a.namespace.value) && !Blocked(a.namespace.value)
      && exists f :: NamespaceAt(class_, f) == a.namespace
  }

  lemma WithinIsLawful(class_: SecretClass, podNamespace: string, made: seq<Access>)
    requires AllPermitted(class_, podNamespace, References(class_)) && class_.backend.Some?
    requires Within(made, podNamespace, AimedAt(class_.backend.value))
    ensures forall a <- made :: Lawful(class_, podNamespace, a)
  {
    hide Listed, Blocked, References, AimedAt, NamespaceAt;
    var aim := AimedAt(class_.backend.value);
    if aim.Some? {
      AimIsReferenced(class_);
      var r :| r in References(class_) && r.namespace == aim.value;
      var i :| 0 <= i < |References(class_)| && References(class_)[i] == r;
      assert Permitted(class_, podNamespace, References(class_)[i].namespace);
      ReferencesAreFields(class_, r);
      assert NamespaceAt(class_, r.field) == aim;
    }
  }

  /**
   NodePublishVolume up to the secret data. A class that breaks the policy is refused after one
   read, of the class itself; otherwise every request is cluster-scoped, in the pod's
   namespace, or in a referenced namespace that is listed and not blocked.
   */
  method NodePublish(client: Client, class_: SecretClass, podNamespace: string, lookups: Lookups)
    returns (r: Option<Violation>, ok: bool)
    modifies client
    ensures old(client.log) < client.log
    ensures forall a <- client.log[|old(client.log)|..] :: Lawful(class_, podNamespace, a)
    ensures r.Some? ==> client.log == old(client.log) + [Access(SecretClassKind, None)]
    ensures r.Some? ==> NamesFirstField(class_, podNamespace, r.value)
    ensures !FieldsPermitted(class_, podNamespace) ==>
              !ok && client.log == old(client.log) + [Access(SecretClassKind, None)]
  {
    hide AllPermitted, References, Listed, Blocked, Within, ReportsFirst, AimedAt, FieldsPermitted, NamesFirstField;
    r := None;
    AllPermittedIff(class_, podNamespace);
    ok := client.Request(SecretClassKind, None);
    if !ok {
      return;
    }
    r := ValidateCrossNamespaceReferences(class_, podNamespace);
    if r.Some? {
      return r, false;
    }
    ok := client.Request(PodKind, Some(podNamespace));
    if ok {
      ok := client.Request(SecretClassKind, None);
    }
    ok := ok && class_.backend.Some?;
    if ok {
      ghost var before := client.log;
      ok := BackendData(client, class_.backend.value, podNamespace, lookups);
      WithinIsLawful(class_, podNamespace, client.log[|before|..]);
      assert client.log == before + client.log[|before|..];
    }
  }
}
