# Secret operator: a verified model

The secret operator is a Kubernetes CSI driver. A pod asks for a volume, and the driver fills it
with a TLS certificate, a Kerberos keytab or the data of an existing Secret. This project models
the parts of the driver that keep state or carry data between processes, and proves what they
keep.

| module | what it models |
|---|---|
| `SecretLayout` | how certificate authorities are stored in one Secret and found again |
| `Rotation` | one attempt to bring the authorities up to date: filter, create, sort, renew; and chains of retries |
| `Selection` | deleting expired entries and choosing the signing authority |
| `CaProtocol`, `CaTheorems`, `CaAncestry` | any number of managers on one Secret as a step system, with stale reads, conflicts, retries, lost acknowledgements and a clock that never goes back |
| `CaManager` | the certificate manager as a class: slices sorted and compacted in place, fields, the retry loop |
| `CertLifetime` | lifetime clamp, jitter, restart buffer, and the tie to the signing authority |
| `SubjectAltName` | the DER value of the subjectAltName extension, with a strict decoder |
| `Scope`, `VolumeContext` | the annotation codec between controller and node |
| `ListenerCache` | the double-checked listener cache as interleaved steps |
| `NamespacePolicy` | the cross-namespace decision procedure, and the requests a node publish then makes |
| `Keytab` | the admin keytab file around kadmin queries, and provisioning |
| `Sequences`, `Text` | helpers: permutations, and Go's Split, Join, suffixes and decimal printing |

Conventions. Times and durations are integer nanoseconds. A certificate's end of validity is cut
to whole seconds when it is signed (section 4.1.2.5 of RFC 5280); `Config.grain` is that unit, and
1 stands for exact times. Keys are identities: `Local(n)` is the n-th key generated here. A version
of the Secret is an index into its history. Go's map iteration, `slices.SortFunc` ties, clock
readings, random draws, file errors and the kadmin program are nondeterministic or parameters.
A Go panic is an outcome of its own, `Panic`, or `None` where decoding a scope panics.

## Where the code and its promises differ

- A retry is said to start from the latest object (`ca_manager.go:97-98`, `316-318`). It starts from
  its own unsaved data with the old version, so after one conflict the call cannot succeed:
  `CaTheorems.ConflictIsFinal`, with a run in `CaTheorems.ConflictHappens`. A save that succeeds does
  so on its first attempt: `CertificateManager.SaveWithRetries`.
- With `auto` disabled, an authority about to expire is said to be only logged
  (`ca_manager.go:179-181`). Saving is always refused then, so construction never succeeds:
  `CertificateManager.GetCertificateAuthority`.
- A retry does not always propose the same authorities unless one expires. It also proposes another
  set when the half-life threshold is passed between attempts. `Rotation.SameProposalsIff` is exact,
  and `Rotation.RetryMayDiffer` gives such a chain.
- The constructor drops the maximum certificate lifetime, so the selection window is zero. A leaf
  can then outlive its signer: `CertLifetime.LeafOutlivesSigner`. `CertLifetime.AlwaysCoveredIff` says
  exactly when that is excluded.
- A failed write leaves the admin keytab file behind in part, and a later query on the same `Kadmin`
  runs with it if a query had run before. `Keytab.ExactUnlessTorn` is exact, and `ProvisionKeytab`
  never reaches that case.
- The volume's provisioner comes back as the provisioner identity, because it is printed under
  that key: `VolumeContext.PrintParse`.

## Model

| member | source | states |
|---|---|---|
| `SecretLayout.GetPEMKeyPairs` | internal/csi/backend/ca/ca_manager.go:121-140 | on any data and for every visiting order, exactly one pair per stem that has both a `.crt` and a `.key` entry |
| `SecretLayout.PairedEntries` | internal/csi/backend/ca/ca_manager.go:129-136 | a stem is paired exactly when its `.crt` and `.key` entries are both there, and the pair is those two values |
| `SecretLayout.LoadPairInverts` | internal/csi/backend/ca/ca.go:77-111 | a pair loads as an authority if and only if it is the pair written for that authority, a CA |
| `SecretLayout.LoadsIff` | internal/csi/backend/ca/ca_manager.go:183-189 | a Secret loads if and only if every one of its pairs does, whatever the visiting order |
| `SecretLayout.LoadedExactlyHeld` | internal/csi/backend/ca/ca_manager.go:121-140 | whatever the order, the loaded authorities are exactly those held with their own key |
| `SecretLayout.LayoutRoundTrip` | internal/csi/backend/ca/ca_manager.go:121-160 | writing any list of authorities and reading it back yields a permutation of the same key pairs |
| `SecretLayout.LayoutLoads` | internal/csi/backend/ca/ca_manager.go:121-160 | every reading of written data loads |
| `SecretLayout.LayoutReloads` | internal/csi/backend/ca/ca_manager.go:121-160 | what written data loads as is a permutation of what was written |
| `SecretLayout.LayoutHolds` | internal/csi/backend/ca/ca_manager.go:153-160 | written data holds exactly the authorities of the list |
| `SecretLayout.StemsDiffer` | internal/csi/backend/ca/ca_manager.go:157-159 | two indices never share an entry name |
| `SecretLayout.LayoutEntries` | internal/csi/backend/ca/ca_manager.go:155-160 | the i-th authority is stored under `<i>.ca.crt` and its key under `<i>.ca.key` |
| `Rotation.OutMembers` | internal/csi/backend/ca/ca_manager.go:182-226 | what is proposed is exactly what survived the filter plus what was generated |
| `Rotation.OutLength` | internal/csi/backend/ca/ca_manager.go:182-226 | survivors and generated authorities are counted once each |
| `Rotation.LiveIsKept` | internal/csi/backend/ca/ca_manager.go:185-195 | an authority still live when the filter has run is proposed again |
| `Rotation.AliveFromFirst` | internal/csi/backend/ca/ca_manager.go:190-194 | nothing that had expired before the attempt survives |
| `Rotation.GeneratedEnds` | internal/csi/backend/ca/ca_manager.go:229-277 | what is proposed and was not loaded ends on a whole grain, one lifetime after the creation or after the renewal, cut to the grain |
| `Rotation.NewestHasHalfLife` | internal/csi/backend/ca/ca_manager.go:257-292 | after an attempt the newest authority has half a lifetime left at the check, cutting to seconds included |
| `Rotation.FreshMeansNoGeneration` | internal/csi/backend/ca/ca_manager.go:197-216 | with a freshly made authority loaded, a retry within half a lifetime generates nothing and keeps it |
| `Rotation.AtMostOneKey` | internal/csi/backend/ca/ca_manager.go:321-336 | all attempts of one construction that fit in half a lifetime less a second generate at most one key together, present in the last proposal |
| `Rotation.SameProposalIff` | internal/csi/backend/ca/ca_manager.go:182-226 | one attempt proposes what it loaded if and only if nothing had expired and some authority had half a lifetime left |
| `Rotation.ChainKeysBelow` | internal/csi/backend/ca/ca_manager.go:321-336 | key numbers stay fresh along every chain of retries |
| `Rotation.SameProposalsIff` | internal/csi/backend/ca/ca_manager.go:321-336 | over a whole chain, every retry proposes the first set again if and only if every retry finds nothing expired and half a lifetime left |
| `Rotation.RetryMayDiffer` | internal/csi/backend/ca/ca_manager.go:257-292 | for every lifetime with room for two attempts, a retry that differs with nothing expired and inside the deadline |
| `Rotation.RenewedIsLater` | internal/csi/backend/ca/ca_manager.go:267-277 | a renewal ends later than its parent by at least the rounded-up half lifetime less a grain |
| `Rotation.AttemptKeepsSpacing` | internal/csi/backend/ca/ca_manager.go:182-292 | an attempt keeps authorities distinct and that far apart |
| `Rotation.AttemptKeepsBound` | internal/csi/backend/ca/ca_manager.go:182-292 | the counting step behind the store bound, for any bound |
| `Selection.KeptMembers` | internal/csi/backend/ca/ca_manager.go:295-297 | exactly the entries valid at the given time are kept |
| `Selection.SortedKeptIsSuffix` | internal/csi/backend/ca/ca_manager.go:294-297 | on a sorted list a prefix is deleted and the rest keeps its order |
| `Selection.NewestHasReserve` | internal/csi/backend/ca/ca_manager.go:257-292 | for every lifetime, the newest authority lasts half a lifetime or a new authority's cut life after the check, whichever is less |
| `Selection.SelectionNonEmptyIff` | internal/csi/backend/ca/ca_manager.go:294-315 | for every lifetime, the minimum is never taken over an empty list if and only if the window is within that reserve |
| `Selection.WindowLeavesNewest` | internal/csi/backend/ca/ca_manager.go:294-315 | with a window within the reserve some authority remains for every attempt |
| `Selection.NothingDeletedIff` | internal/csi/backend/ca/ca_manager.go:75-82 | with the window as built nothing is ever deleted if and only if the lifetime reaches the grain less one |
| `Selection.DeletesFreshAuthority` | internal/csi/backend/ca/ca_manager.go:294-315 | for every shorter lifetime some attempt has an entry deleted |
| `CaProtocol.StepKeepsInv` | internal/csi/backend/ca/ca_manager.go:95-119 | every step of every manager keeps each version linked to the one it replaced |
| `CaProtocol.RunKeepsInv` | internal/csi/backend/ca/ca_manager.go:314-341 | the invariant holds in every reachable state |
| `CaProtocol.HistoryGrows` | internal/csi/backend/ca/ca_manager.go:95-119 | committed versions are never changed |
| `CaProtocol.WriteIsLinked` | internal/csi/backend/ca/ca_manager.go:95-104 | a proposal that would be accepted was computed from the current version, on the first attempt |
| `CaTheorems.TrustContinuity` | internal/csi/backend/ca/ca_manager.go:95-167 | over every run, a paired authority of any version is in every later version whose filter ended while it was live |
| `CaTheorems.SelectedStaysTrusted` | internal/csi/backend/ca/ca_manager.go:294-341 | the authority one manager selected is a trust anchor of every manager that commits later while it is live, and that manager has lost no anchor if lifetimes reach the grain less one |
| `CaTheorems.SelectedWasPublishedBefore` | internal/csi/backend/ca/ca_manager.go:294-311 | unless all had expired, the selected authority was already in the version that was read |
| `CaTheorems.NoLostUpdate` | internal/csi/backend/ca/ca_manager.go:95-119 | the history changes only by the first create or by a write computed from exactly the version it replaces |
| `CaTheorems.OneWriterPerVersion` | internal/csi/backend/ca/ca_manager.go:95-119 | two commits never replace the same version, the empty first one included |
| `CaTheorems.ConflictIsFinal` | internal/csi/backend/ca/ca_manager.go:314-338 | after one conflict no retry of that call commits |
| `CaTheorems.ConflictHappens` | internal/csi/backend/ca/ca_manager.go:314-338 | a run, for every lifetime, in which a manager conflicts and its retry conflicts again |
| `CaTheorems.AtMostFiveWrites` | internal/csi/backend/ca/ca_manager.go:321-336 | over every run, after reading the Secret a manager tries at most five writes |
| `CaTheorems.BehindUntilRead` | internal/csi/backend/ca/ca_manager.go:321-336 | a manager that is behind stays behind until it reads again |
| `CaTheorems.BoundedStore` | internal/csi/backend/ca/ca_manager.go:182-292 | from an empty Secret or none, every version holds at most `bound` authorities when `bound` less one gaps exceed the attempt and half a lifetime |
| `CaTheorems.TwoWhenExact` | internal/csi/backend/ca/ca_manager.go:185-292 | with exact times and one reading per attempt the bound is two |
| `CaTheorems.ThreeWithSeconds` | internal/csi/backend/ca/ca_manager.go:185-292 | with whole seconds and attempts up to half a lifetime less two seconds the bound is three |
| `CaAncestry.RunKeepsLedger` | internal/csi/backend/ca/ca_manager.go:190-219 | from an empty Secret or none, every stored authority was generated here, each renewal signed by an earlier one |
| `CaAncestry.ComputedKeysBelow` | internal/csi/backend/ca/ca_manager.go:190-219 | in every such run, every attempt starts with fresh key numbers |
| `CaAncestry.SigningAncestry` | internal/csi/backend/ca/ca.go:231-301 | following signers from any stored authority reaches a self-signed root, and every parent was the newest of the attempt that used it |
| `CaAncestry.HeldEnds` | internal/csi/backend/ca/ca.go:262-301 | from an empty Secret or none, every authority held ends on a whole grain and at most one lifetime from now |
| `CaManager.ApiServer.Create` | internal/csi/backend/ca/ca_manager.go:106-119 | creating works only while the Secret does not exist |
| `CaManager.ApiServer.Update` | internal/csi/backend/ca/ca_manager.go:95-104 | an update applies only to the current version and replaces nothing else |
| `CaManager.SortInPlace` | internal/csi/backend/ca/ca_manager.go:240-253 | the slice becomes a sorted permutation of itself |
| `CaManager.DeleteExpired` | internal/csi/backend/ca/ca_manager.go:295-297 | survivors move left in order and the freed tail becomes nil, in the array itself |
| `CaManager.FirstMinimum` | internal/csi/backend/ca/ca_manager.go:299-307 | the first entry with the earliest end of validity |
| `CaManager.BuildData` | internal/csi/backend/ca/ca_manager.go:155-160 | the entries written are the layout of the list |
| `CaManager.CertificateManager.constructor` | internal/csi/backend/ca/ca_manager.go:58-93 | the window is zero whatever maximum lifetime is asked for |
| `CaManager.CertificateManager.FilterExpired` | internal/csi/backend/ca/ca_manager.go:183-195 | fails if and only if some pair does not load; otherwise keeps those live when looked at |
| `CaManager.CertificateManager.RotateCertificateAuthority` | internal/csi/backend/ca/ca_manager.go:257-292 | sorts in place and appends one renewal signed by the newest exactly when under half a lifetime remains and auto is on |
| `CaManager.CertificateManager.GetCertificateAuthorities` | internal/csi/backend/ca/ca_manager.go:182-226 | carries out one attempt of the value model, key count included; every listed authority that was not loaded is a CA with exactly one lifetime |
| `CaManager.CertificateManager.UpdateCertificateAuthoritiesToSecret` | internal/csi/backend/ca/ca_manager.go:142-167 | written exactly when the copy was current and nobody else wrote; refused, with auto, exactly when the Secret turned out to exist; every new version is accounted for |
| `CaManager.CertificateManager.TryOnce` | internal/csi/backend/ca/ca_manager.go:321-336 | one pass of the retry body: refused, with auto, exactly when a held pair does not load or the create is refused; written exactly when undisturbed; otherwise one valid attempt on the held data |
| `CaManager.CertificateManager.SaveWithRetries` | internal/csi/backend/ca/ca_manager.go:321-338 | saved if and only if auto is on, the data loads, the copy was current and nobody else wrote; a conflict is followed by all five attempts and none is refused; at most one new key in half a lifetime |
| `CaManager.CertificateManager.GetAliveCertificateAuthority` | internal/csi/backend/ca/ca_manager.go:294-311 | the chosen authority is the lowest index valid at the time, and the array is left compacted with a nil tail |
| `CaManager.CertificateManager.GetCertificateAuthority` | internal/csi/backend/ca/ca_manager.go:314-341 | the whole construction fails exactly when the save does; what is committed, chosen and left in `cas`; as built, no panic and no nil entry for lifetimes of a second or more |
| `CaManager.CertificateManager.GetTrustAnchors` | internal/csi/backend/ca/ca_manager.go:446-451 | the anchors are the authorities in order, and walking them panics if and only if an entry is nil |
| `CertLifetime.GetCertLife` | internal/csi/backend/autotls.go:95-145 | refuses exactly when the jittered life is shorter than the buffer; the life is at most the one asked for, or a week if none is, or the maximum if that is less, and is exactly that when no jitter is drawn; at least the buffer, eight hours if none is set |
| `CertLifetime.Settings` | internal/csi/backend/autotls.go:28-32 | the lifetime, factor and buffer that take effect, in plain numbers |
| `CertLifetime.LifeInWords` | internal/csi/backend/autotls.go:107-125 | what is taken off is the drawn share of the factor, with its fraction dropped |
| `CertLifetime.JitterRange` | internal/csi/backend/autotls.go:107-125 | the life lies in (c(1-j), c] for the clamped life c, and c is at most the maximum |
| `CertLifetime.NeverRefusedIff` | internal/csi/backend/autotls.go:123-142 | no draw is refused if and only if c(1-j) is at least the buffer less one nanosecond |
| `CertLifetime.RefusedDraw` | internal/csi/backend/autotls.go:123-142 | otherwise gives a draw that is refused |
| `CertLifetime.Issue` | internal/csi/backend/autotls.go:204-242 | issued exactly when life covers the buffer; the certificate ends on a whole second less than a second before the end asked for; restart is one buffer before that end, not before issue and, for a buffer of a second, before the stored end |
| `CertLifetime.RestartBeforeExpiryIff` | internal/csi/backend/autotls.go:230-236 | restart precedes every cut end of validity if and only if the buffer is at least a second |
| `CertLifetime.LeafWithinAuthority` | internal/csi/backend/autotls.go:204-217 | how far a leaf can outlast the selected authority: delay plus maximum less window |
| `CertLifetime.LongestIsHandedOut` | internal/csi/backend/autotls.go:95-145 | for every maximum, a volume and a draw that get the longest life |
| `CertLifetime.AlwaysCoveredIff` | internal/csi/backend/autotls.go:204-217 | no issued leaf outlives the authority selected to sign it if and only if the longest life plus the delay is under the window plus a second |
| `CertLifetime.LeafOutlivesSigner` | internal/csi/backend/autotls.go:204-217 | as built, for every maximum of a second or more, an attempt whose selected signer is outlived by a leaf it signs |
| `SubjectAltName.DecodeEncodeLength` | internal/csi/backend/ca/ca.go:387-391 | length octets decode to the length, for every Go int |
| `SubjectAltName.EncodeDecodeLength` | internal/csi/backend/ca/ca.go:387-391 | only the shortest form of a length is accepted |
| `SubjectAltName.LengthForms` | internal/csi/backend/ca/ca.go:387-391 | the length octets of X.690: one below 128, else a count and big-endian octets without a leading zero |
| `SubjectAltName.BigEndian` | internal/csi/backend/ca/ca.go:387-391 | the first octet weighs most |
| `SubjectAltName.ShortNames` | internal/csi/backend/ca/ca.go:347-392 | the octets of two short names, written out |
| `SubjectAltName.GeneralNamesExact` | internal/csi/backend/ca/ca.go:347-392 | a byte string decodes to a list of names if and only if it is that list's encoding |
| `SubjectAltName.CollectNames` | internal/csi/backend/ca/ca.go:202-215 | non-empty host names and present IPs, each in order |
| `SubjectAltName.NamesCarry` | internal/csi/backend/ca/ca.go:202-215 | the k-th non-empty host name is the k-th name, tagged 0x82; after them the k-th IP, tagged 0x87, with the last four octets of an IPv4-mapped address and all octets of any other; nothing else |
| `SubjectAltName.Marshal` | internal/csi/backend/ca/ca.go:347-392 | the value is a SEQUENCE that decodes to names carrying exactly the addresses in that way |
| `Scope.EncodeScope` | pkg/volume/volume.go:132-151 | the loop joins exactly the pieces of the scope |
| `Scope.PiecesInWords` | pkg/volume/volume.go:132-151 | the pieces as text: the flags, then `service=` and `listener-volume=` with each name in order |
| `Scope.DecodeScope` | pkg/volume/volume.go:153-172 | the loop reads the pieces from left to right and stops where the code panics |
| `Scope.PieceInWords` | pkg/volume/volume.go:156-169 | what a piece sets, by the text before its first `=`; the value ends at the next `=`; unknown pieces are skipped |
| `Scope.DecodeFailsIff` | pkg/volume/volume.go:156-167 | decoding panics if and only if a piece is a bare `service` or `listener-volume` |
| `Scope.DecodedIsCanonical` | pkg/volume/volume.go:153-172 | everything decoded is a scope the annotation can carry |
| `Scope.ScopeRoundTripIff` | pkg/volume/volume.go:132-172 | decode after encode is the identity if and only if the names hold no separator and the flags are known |
| `Scope.ScopeNormalises` | pkg/volume/volume.go:132-172 | decode, encode, decode equals decode on every string that decodes |
| `VolumeContext.NewVolumeContextFromMap` | pkg/volume/volume.go:174-233 | for every order of the map, the same success or failure and the same context, a function of the map alone |
| `VolumeContext.FieldsRead` | pkg/volume/volume.go:174-233 | which key fills which field, and the zero value where it is missing |
| `VolumeContext.ToMap` | pkg/volume/volume.go:84-130 | the map holds exactly the non-zero fields under their keys |
| `VolumeContext.PodFieldsPrinted` | pkg/volume/volume.go:86-106 | which pod field is printed under which key, and when; nothing under any other key |
| `VolumeContext.SecretFieldsPrinted` | pkg/volume/volume.go:107-128 | the same for scope, format, names, password, durations and factor |
| `VolumeContext.PrintParse` | pkg/volume/volume.go:84-233 | parsing a printed context gives it back, with the factor rounded and the provisioner moved |
| `VolumeContext.GetVolumeContext` | internal/csi/controllerserver.go:144-156 | the controller accepts exactly the maps that parse and name a class |
| `VolumeContext.ControllerToNode` | internal/csi/controllerserver.go:78-95 | what the node receives is what the controller parsed, up to rounding and the provisioner key |
| `VolumeContext.RoundingSettles` | pkg/volume/volume.go:123-125 | a factor rounded once is not changed again |
| `ListenerCache.GetPodVolumeNamesToPVCNameMapping` | pkg/pod_info/pod_info.go:294-317 | exactly the names of ephemeral and PVC volumes, each with the PVC of the last such volume |
| `ListenerCache.ClaimedVolumes` | pkg/pod_info/pod_info.go:294-317 | a name is mapped if and only if some ephemeral or PVC volume has it |
| `ListenerCache.ClaimIsLast` | pkg/pod_info/pod_info.go:294-317 | the PVC is pod name, hyphen and volume name if that last volume is ephemeral, and the claim it names otherwise |
| `ListenerCache.GetScopedListenerVolumeNamesToPVCNameMapping` | pkg/pod_info/pod_info.go:268-289 | the restriction of that map to the scoped listener volumes |
| `ListenerCache.Fetch` | pkg/pod_info/pod_info.go:222-264 | fails exactly when a read of some scoped volume's PVC fails, is empty when nothing is scoped, for every visiting order; each volume has its own read |
| `ListenerCache.FetchOutcome` | pkg/pod_info/pod_info.go:222-264 | nothing when no scoped volume stands for a PVC, and an error exactly when the read for one that does fails |
| `ListenerCache.FetchedMapping` | pkg/pod_info/pod_info.go:222-264 | the domain of a fetched map, and each value: the annotation or else the claim name |
| `ListenerCache.StepKeepsInv` | pkg/pod_info/pod_info.go:190-217 | every locking step keeps the invariant and never changes a cache that is set |
| `ListenerCache.CacheSetOnce` | pkg/pod_info/pod_info.go:190-217 | over every interleaving the cache is set at most once |
| `ListenerCache.CallsAgree` | pkg/pod_info/pod_info.go:190-217 | all calls without an error return the same result, a map that came from one fetch |
| `ListenerCache.WriterExclusive` | pkg/pod_info/pod_info.go:199-216 | at most one thread fetches, with no reader inside |
| `NamespacePolicy.ResolveAllowedNamespaces` | internal/csi/backend/namespace_validator.go:149-172 | the pod's namespace and the trimmed non-empty items, nothing else |
| `NamespacePolicy.TrimSpaceSplits` | internal/csi/backend/namespace_validator.go:164-168 | trimming removes white space at both ends and nothing else |
| `NamespacePolicy.AsciiSpaces` | internal/csi/backend/namespace_validator.go:164-165 | which ASCII characters are trimmed |
| `NamespacePolicy.IsAllowedNamespace` | internal/csi/backend/namespace_validator.go:176-181 | allowed and not blocked |
| `NamespacePolicy.ValidateTrustRoots` | internal/csi/backend/namespace_validator.go:98-125 | the roots are examined in order, the ConfigMap before the Secret |
| `NamespacePolicy.PermittedIff` | internal/csi/backend/namespace_validator.go:24-28 | permitted means not one of the three system namespaces, and the pod's own or a trimmed non-empty whitelist item |
| `NamespacePolicy.FieldsPermittedIff` | internal/csi/backend/namespace_validator.go:70-142 | the fields that are examined, written out over the class and the index of each additional root |
| `NamespacePolicy.ReferencesAreFields` | internal/csi/backend/namespace_validator.go:70-142 | the references examined are exactly the fields that name a namespace |
| `NamespacePolicy.ReferencesInOrder` | internal/csi/backend/namespace_validator.go:70-142 | they are examined in the order keytab, authority, each root's ConfigMap and Secret, search |
| `NamespacePolicy.ValidateCrossNamespaceReferences` | internal/csi/backend/namespace_validator.go:53-145 | succeeds if and only if every field that names a namespace names a permitted one, and otherwise reports the earliest field that does not, with its namespace |
| `NamespacePolicy.SearchedNamespace` | internal/csi/backend/k8s_search.go:49-60 | the name if there is one, else the pod's namespace, else an error |
| `NamespacePolicy.SearchData` | internal/csi/backend/k8s_search.go:63-74 | the last request of a success is in the named namespace, or else the pod's; all requests stay in that, the pod's namespace and the cluster scope; no request without a namespace to search |
| `NamespacePolicy.KerberosData` | internal/csi/backend/kerberos.go:60-102 | the first request is for the admin keytab in its namespace; the others stay in the pod's namespace and the cluster scope |
| `NamespacePolicy.AdditionalTrustRoots` | internal/csi/backend/ca/ca_manager.go:343-380 | requests go to the namespaces of the roots given, and there are none for no roots |
| `NamespacePolicy.AutoTlsData` | internal/csi/backend/autotls.go:45-91 | the first request is for the authority Secret in its namespace; the others stay there, in the pod's namespace and the cluster scope; no additional root is read as built |
| `NamespacePolicy.AimIsReferenced` | internal/csi/backend/backend.go:61-74 | what the chosen backend is aimed at is one of the validated references |
| `NamespacePolicy.BackendData` | internal/csi/backend/backend.go:53-74 | kerberos before autoTls before search; only the chosen one makes requests |
| `NamespacePolicy.NodePublish` | internal/csi/node.go:88-130 | a class that breaks the policy is refused after reading the class alone; otherwise every request is cluster-scoped, in the pod's namespace, or in a referenced namespace that is listed and not blocked |
| `Keytab.ExactUnlessTorn` | pkg/kerberos/kadmin.go:54-125 | over any queries kadmin uses one path, and it always reads the whole admin keytab if and only if no run, later failed write and still later run occur in that order |
| `Keytab.TornKeytabIsUsed` | pkg/kerberos/kadmin.go:67-78 | queries after which kadmin has run with half a keytab |
| `Keytab.AbsentBetweenQueries` | pkg/kerberos/kadmin.go:93-125 | with no failed write the file is absent between queries and every run is exact |
| `Keytab.StepKept` | pkg/kerberos/kadmin.go:54-125 | every query keeps the path, the file and the runs as the outcomes so far determine them |
| `Keytab.OtherFilesKept` | pkg/kerberos/kadmin.go:54-151 | a query touches the keytab file and its export and no other file |
| `Keytab.Kadmin.GetAdminKeytabPath` | pkg/kerberos/kadmin.go:54-81 | the file at the path afterwards, in each of the four ways the call can end |
| `Keytab.Kadmin.Query` | pkg/kerberos/kadmin.go:93-125 | a query is one step of the state machine, whatever fails |
| `Keytab.Kadmin.Ktadd` | pkg/kerberos/kadmin.go:129-151 | returns what the export wrote, and removes the export file in every case |
| `Keytab.Kadmin.AddPrincipal` | pkg/kerberos/kadmin.go:156-187 | one query that adds the principal |
| `Keytab.PrincipalAt` | internal/csi/backend/kerberos.go:112-124 | each pair of a service position and a host position has its own place, holding `service/host@REALM` |
| `Keytab.PrincipalInjective` | internal/csi/backend/kerberos.go:119 | different pairs give different principals when no service name holds a slash |
| `Keytab.FqdnsCount` | internal/csi/backend/kerberos.go:115-118 | every non-empty hostname is kept as often as it occurs |
| `Keytab.FqdnAt` | internal/csi/backend/kerberos.go:115-118 | the k-th non-empty hostname is the k-th one kept |
| `Keytab.GetPrincipals` | internal/csi/backend/kerberos.go:104-132 | one principal per service and named host, and an error if and only if there is none |
| `Keytab.AddPrincipals` | internal/csi/backend/kerberos.go:72-77 | every principal before the returned position was added successfully, in order; it stops short only at a query that did not succeed |
| `Keytab.ProvisionKeytab` | internal/csi/backend/kerberos.go:60-86 | successful adds of all principals in order and then one export; no export otherwise; a keytab is returned exactly when the export succeeded and wrote one; kadmin is not run only if the machine failed; every run has the whole admin keytab; a file is left only by a failed write |

## Left out

- RSA, X.509, PEM and PKCS#12 bytes, serial numbers, and failures of key generation or signing: keys and certificates are identities with an end of validity, a signer and a CA flag.
- A private key that is not RSA makes the loader panic; keys of other kinds are not modelled.
- Additional trust roots: the constructor never stores the list, so none is loaded as built.
- Deleting the authority Secret, or editing it from outside, while managers run.
- The process-wide lock around construction: the step system allows every interleaving, so it covers the locked ones.
- Managers with `auto` disabled are in the class only; they never write, so the step system has none.
- API errors other than a conflict or a refused create, and lost acknowledgements, are in the step system only; in the class an update either applies or conflicts.
- `slices.SortFunc` is modelled by insertion sort in the class and by a relation that allows any order of ties elsewhere.
- Go's text forms of durations and floats: `Lawful` asks that durations print and parse back and that factors come back rounded to six decimals, and `LawfulFormatsExist` shows this can be met. NaN and infinities are excluded.
- Annotation key strings: keys are the constructors of `Key`, so that they differ is taken for granted.
- Floating point in the jitter: the factor, the draw and the product are exact reals, truncated at the end. Overflow of durations is not modelled.
- Nil and empty slices are not told apart, except where a nil map is the listener cache's empty value.
- The listener cache hands out the map itself; callers that would change it are not modelled.
- VolumeContext.NewVolumeContextFromMap: a map with both a bad scope and a bad number always fails, but whether by panic or by error depends on the order and is left open.
- SubjectAltName.Marshal: lengths beyond a Go int are excluded, and email and URI names are never filled by the caller.
- Removal of the keytab file is taken to succeed; the code only logs when it does not. Text of kadmin queries and krb5.conf is not modelled.
- The chosen SecretClass is taken to be unchanged between validation and the backend's own read.
- Address lookup for pods, nodes and listeners, the label search of the k8sSearch backend, the backend registry.
- gRPC, driver and identity servers, mounting and writing files, pod patching, logging, CRDs and charts: out of scope, as they neither keep the state nor carry the data modelled here.
