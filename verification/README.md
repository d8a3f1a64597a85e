# Verified model of Orka's startup and serving protocols

Orka's controller serves its admission webhook with a certificate that it copies from a Secret into a directory,
claims its namespace and its snapshot key by compare-and-swap on Kubernetes objects, opens an exclusive SQLite
dataset, and shows people wrapped text and link states on the command line. This project models those parts of the
repository in Dafny and proves what they promise. `dafny verify dfyconfig.toml` checks all of it.

How the model is built:

- **Crashes.** `WebhookDirectory` records every state the certificate directory passes through, down to single bytes
  of a file being written and single files of a tree being removed. A crash leaves one of those states, so a property
  of the whole history is a property of every crash. Any system call may be refused; refusals are counted, so that
  contracts can say that nothing fails without one.
- **Interleaving.** `WebhookServing` lets the caches, the clock, the watcher's background reader and TLS handshakes
  act wherever the source can be overtaken. The background reader may have opened the two files at two different
  instants, both long ago. X.509 is a pair of arbitrary functions. A Secret is genuine when its pair parses and its
  leaf verifies, at the time in question, against its own CA.
- **Racing processes.** `ClaimProtocol` is a transition system over any number of processes and Updates that may be
  applied, conflict, get lost, be applied although the sender sees an error, or arrive after the sender died.
  `ClaimClients` holds the two retry loops; each of their actions is a step of the system. `DatasetBootstrap` wraps
  it in the sequence of controller starts on one dataset.
- **Heap.** `CacheOptions` and `EffectCopy` keep Go's maps and pointers as heap objects, because sharing is the point.
- **Stored and decoded objects.** `GoSchema` relates the JSON that CEL rules compare to the Go value it decodes to, for
  any tree of the kinds of types a Task is made of: scalars, parsed scalars, instants, pointers, structs, slices, keyed
  lists and maps. `TaskAdmission` is built on it, with the nested types of a Task's spec left arbitrary.
- **Values.** `TextWrap`, `RuntimeJson`, `SnapshotKeyCodec` and `ConnectionJoin` are specified by functions; where the
  source has a loop or writes in place, a method is proved against the function.

Where the code and its documentation differ, the model follows the code and says exactly when they agree:

- The check for "plain file names" lets the name `/` through; publication then fails when it writes the file
  (`CertDirectory.Publish`).
- The CRD rule and the comparison of `ExecutionInputs` are documented as the same freeze. They are not: swapping two
  resource claims passes the rule and changes the inputs, and writing out a zero value such as an empty prompt changes
  no input and is refused (`SwapSplitsTheChecks`, `ZeroSplitsTheChecks`). `RuleAgreesWithInputs` gives the exact
  condition, and `BothChecksFreezeDocuments` what the two achieve together.
- An execution outcome is documented as immutable once recorded, and the execution binding as write-once. CEL compares
  their timestamps as instants, so another spelling of the same instant is accepted and the stored record changes
  (`RespellingIsAccepted`); the Go value stays (`RecordKeepsValue`).
- `wrapText` does not keep the line of every paragraph: one of white space only, still longer than the width once
  trailing blanks and tabs are gone, is left without a line (`LineIsLostExactly`), such as enough blanks before one
  no-break space.
- The "independent copy" of an ExternalEffect turns an empty, non-nil response into a nil one, and an effect copied into
  itself loses the bytes of its response (`CopyIsEqual`).
- A namespace claim with a blank mode succeeds without claiming anything (`ClaimNamespaceMode`).

## Model

| member | source | states |
|---|---|---|
| WebhookOptions.ValidateOptions | cmd/webhook_cert_rotation.go:51-83 | Accepts exactly the disabled options and those with all fields set, plain and distinct file names and a bare DNS name. |
| WebhookOptions.CollectMissing | cmd/webhook_cert_rotation.go:55-67 | Each flag is reported missing exactly when its value is blank, and none twice. |
| WebhookOptions.BaseFixpoints | cmd/webhook_cert_rotation.go:71-75 | The names that `filepath.Base` leaves alone are those without a slash, and `/` itself. |
| WebhookDirectory.ValidNamesApart | cmd/webhook_cert_rotation.go:71-78 | The validator's name rules keep the certificate, the key, `..data`, `..data-next` and all generation names apart. |
| WebhookDirectory.CertDirectory.WriteFile | cmd/webhook_cert_sync.go:306-309 | Every state of a write, finished or cut short, changes nothing but the one generation. |
| WebhookDirectory.CertDirectory.RemoveAll | cmd/webhook_cert_sync.go:289-295 | Every state of a removal, in any order and with any survivors, changes nothing but the one generation. |
| WebhookDirectory.InactiveWorkIsSafe | cmd/webhook_cert_sync.go:283-318 | Any change to a generation that is not active keeps the directory safe and readers see no difference. |
| WebhookDirectory.SwapIsSafe | cmd/webhook_cert_sync.go:319-329 | The rename makes the new, complete generation active in one step and keeps the directory safe. |
| WebhookDirectory.CertDirectory.Reclaim | cmd/webhook_cert_sync.go:283-295 | Reclamation removes inactive generations only; on success at most the active one is left. |
| WebhookDirectory.CertDirectory.WritePair | cmd/webhook_cert_sync.go:306-318 | Filling the new generation is invisible to readers; on success it holds both files of the Secret and both public names exist. |
| WebhookDirectory.CertDirectory.Install | cmd/webhook_cert_sync.go:319-329 | Only the last state of a successful swap shows the new pair; a failed one shows the old pair throughout. |
| WebhookDirectory.CertDirectory.Retire | cmd/webhook_cert_sync.go:330-335 | Final cleanup never touches the active generation, and both names open into it even when cleanup fails; on success exactly one generation is left. |
| WebhookDirectory.CertDirectory.Publish | cmd/webhook_cert_sync.go:272-336 | Every state on the way is safe; readers see the old pair before one index and the new pair from it on; success leaves one generation with this Secret's pair. From every safe directory, hence after every crash, it succeeds exactly when neither name is `/`, unless a system call is refused. |
| WebhookDirectory.PublicNamesAgree | cmd/webhook_cert_sync.go:272-273 | In a safe directory the two public names resolve into one generation, and the pair read is one Secret's. |
| WebhookDirectory.Lifetime | cmd/webhook_cert_sync.go:272-336 | Over any publications, each cut short by an error or a crash anywhere, every state the directory is ever in is safe. |
| WebhookServing.Syncer.Interfere | cmd/webhook_cert_sync.go:67-86 | No outside event loses a pending wake-up; a watcher whose content changed is marked stale. |
| WebhookServing.Syncer.ReadCertificate | cmd/webhook_cert_sync.go:165-171 | A successful reload leaves the watcher with exactly what is on disk, although others act between the two reads. |
| WebhookServing.Syncer.RefreshWatcher | cmd/webhook_cert_sync.go:159-175 | When it succeeds the watcher holds the Secret's leaf. |
| WebhookServing.Syncer.CheckTrust | cmd/webhook_cert_sync.go:178-194 | The trust error is the one the configuration deserves: missing, empty or deleting, or some bundle unlike the CA. |
| WebhookServing.ParsesExactly | cmd/webhook_cert_sync.go:233-249 | A Secret parses exactly if it is not being deleted, its pair is a key pair, and the leaf verifies at that time against the Secret's own CA; otherwise the first fault is named. |
| WebhookServing.Syncer.Sync | cmd/webhook_cert_sync.go:136-195 | Without error the Secret that was cached is loaded exactly if it is there, not deleting, a key pair, and verified against its own CA, and then it is current, on disk and in the watcher; otherwise nothing is published; nothing but such a Secret is ever offered to readers, and what is current already is not published again; an error leaves the earlier decision and has a refused system call, or the name `/`, as its cause. |
| WebhookServing.Syncer.GetCertificate | cmd/webhook_cert_sync.go:199-219 | A certificate is returned exactly when the gate is open, and then it is the last sync's leaf, verifies now against that Secret's CA, and every listed webhook trusted that CA at that sync. |
| WebhookServing.Syncer.IsReady | cmd/webhook_cert_sync.go:221-231 | Ready exactly when the server has started and, with rotation on, the gate is open, so that a trustworthy certificate would be served. |
| WebhookServing.Syncer.Unlocked | cmd/webhook_cert_sync.go:197-219 | Whatever interleaving of outside events and handshakes, everything served was trustworthy and no wake-up is lost. |
| WebhookServing.Syncer.Start | cmd/webhook_cert_sync.go:95-134 | For every sequence of ready events there is exactly one sync per pass, each begun after the token or tick before it; the loop ends exactly on cancellation, on the result of a running watcher or on a failed sync, and returns what that calls for; each wait finds disk, watcher and current on one leaf and misses no wake-up; the watcher starts at most once and its one result is received; everything published was genuine. |
| WebhookServing.Syncer.constructor | cmd/webhook_cert_sync.go:283-288 | A process can start on any directory whose states have all been safe, whatever publication a crash cut short there. |
| WebhookServing.Lives | cmd/webhook_cert_sync.go:95-134 | Over any number of process lives on one directory, each running Start and ending at any instant of a publication, everything ever served was trustworthy, everything ever published was genuine, and every state of the directory was safe. |
| WebhookServing.StoppingIsNeeded | cmd/webhook_cert_sync.go:111-116 | Start has to stop at the first sync error: for all genuine Secrets with different leaves and every directory a publication of the first leaves, a publication of the second whose last cleanup is refused leaves a safe directory on which a sync of the first again would not publish, while the disk holds the other leaf. |
| SnapshotKeyCodec.DecodeEncode | cmd/agent_execution_snapshot_secret.go:116 | Base64 (section 4 of RFC 4648) decoding undoes encoding for bytes of every length. |
| SnapshotKeyCodec.ValueIsPlace | cmd/agent_execution_snapshot_secret.go:53 | The value of a character is its place in the alphabet of RFC 4648, and no other character has one. |
| SnapshotKeyCodec.DecodesExactly | cmd/agent_execution_snapshot_secret.go:53 | Text without line ends decodes to some bytes exactly if it encodes them in the 24-bit groups of section 4 of RFC 4648, with whatever bits fill up the last group. |
| SnapshotKeyCodec.EncodeIsCanonical | cmd/agent_execution_snapshot_secret.go:116 | Of all encodings of some bytes, the encoder writes exactly the one filled up with zeros. |
| SnapshotKeyCodec.PaddingTrimsOff | cmd/agent_execution_snapshot_secret.go:53 | Trimming removes exactly the white space around a text that has none at its ends. |
| SnapshotKeyCodec.SpaceRunesAreSpaces | cmd/agent_execution_snapshot_secret.go:53 | The byte sequences that count as white space are exactly the UTF-8 forms of Unicode white space. |
| SnapshotKeyCodec.StoredKeyDecodes | cmd/agent_execution_snapshot_secret.go:47-59 | Every 32-byte key's base64 text, with any white space around it, decodes to the key and is never taken for a raw key. |
| SnapshotKeyCodec.DecodeKeyExactly | cmd/agent_execution_snapshot_secret.go:47-59 | 32 bytes are the key itself; anything else is the key `k` exactly if it is white space, then an encoding of the 32-byte `k` with line ends anywhere, then white space. |
| ClaimProtocol.StepInv | cmd/agent_execution_snapshot_secret.go:88-126 | Every step of every process, message and other writer keeps the protocol's invariant. |
| ClaimProtocol.Agreement | cmd/agent_execution_snapshot_secret.go:67-68 | In every run in which no other writer touches the item, all processes that accept an item accept the same one, and it is the stored one. |
| ClaimProtocol.AgreementOverTime | cmd/agent_execution_snapshot_secret.go:67-68 | A process that accepted at one time and one that accepts at any later time have accepted the same item, which is still the stored one. |
| ClaimProtocol.WriteOnce | cmd/agent_execution_snapshot_secret.go:117-124 | In every run in which no other writer touches the item, a stored item is never overwritten, and at most one Update ever takes effect. |
| ClaimProtocol.ExhaustionNeedsThreeWrites | cmd/namespace_mode_claim.go:43-64 | A process out of attempts lost to three writes at three different versions. |
| ClaimProtocol.ClaimersConflictOnce | cmd/namespace_mode_claim.go:25-27 | When claimers are the only writers, nobody meets more than one conflict. |
| ClaimClients.Cluster.Propose | cmd/agent_execution_snapshot_secret.go:117-124 | Success means that the process has accepted its own item; a conflict costs one attempt; every other answer is a fault of the environment. |
| ClaimClients.EnsureKey | cmd/agent_execution_snapshot_secret.go:69-127 | A returned key is the decoded form of the accepted item; without permission to bootstrap nothing is ever sent; every failure has its cause: bad options, an item that does not decode, a missing item that may not be minted, three conflicts, or a fault of the environment. |
| ClaimClients.KeysAgree | cmd/agent_execution_snapshot_secret.go:67-68 | Controllers that return a key, at whatever times of a run, return the same key, while no other writer touches the item. |
| ClaimClients.EnsureKeyTwice | cmd/agent_execution_snapshot_secret.go:69-127 | Two calls, the second at any time after the first and everybody else racing: the two keys they return are equal. |
| ClaimClients.ClaimNamespaceMode | cmd/namespace_mode_claim.go:31-65 | Success for a mode that is not blank means that the accepted label names it; success for a blank mode means that nothing is claimed; without claiming, nothing is ever sent; a label found and refused does not name the mode, and every other failure has its cause too. |
| ClaimClients.SuccessfulClaimersAgree | cmd/namespace_mode_claim.go:22-27 | Claimers of any modes that succeed, at whatever times of a run, name one mode, the label's, and it was written at most once, while no other writer touches the label. |
| ClaimClients.ClaimTwice | cmd/namespace_mode_claim.go:31-65 | Two calls, the second at any time after the first and everybody else racing: if both succeed for modes that are not blank, the modes are the same. |
| DatasetBootstrap.ChosenStays | cmd/agent_execution_snapshot_secret.go:64-67 | Once an item is chosen, no late Update of a dead start and no removal lets another in. |
| DatasetBootstrap.ActionKeeps | cmd/sqlite_bootstrap.go:17-53 | Every action of every start, and of the environment, keeps the bootstrap invariant. |
| DatasetBootstrap.CompletionStays | cmd/sqlite_bootstrap.go:45-47 | Once bootstrap is durably complete, its item never changes. |
| DatasetBootstrap.SuccessReturnsCompletedItem | cmd/sqlite_bootstrap.go:11-16 | Every start that succeeds after one has completed bootstrap returns the completed start's item. |
| DatasetBootstrap.LockHasOneHolder | cmd/sqlite_bootstrap.go:20-29 | At most one start holds the dataset, and a stopped one does not. |
| DatasetBootstrap.AdoptionNeverMints | cmd/agent_execution_snapshot_secret.go:104-108 | Over every history of a dataset that is not pristine, no Update is ever sent, none takes effect, and the only item any start ever holds is the one stored at first. |
| DatasetBootstrap.LoaderMayMintExactly | internal/store/sqlite/dataset.go:87-95 | In every history, a loading start that finds no item can send one exactly if the dataset is pristine and its bootstrap is not complete. |
| DatasetBootstrap.OnlyPristineMints | cmd/main.go:1358-1360 | Whenever an Update is sent, the dataset is pristine and incomplete, has no item, and the start that holds its lock is loading. |
| DatasetBootstrap.Host.constructor | cmd/sqlite_bootstrap.go:17-20 | A history of starts can begin on any dataset and any stored item. |
| DatasetBootstrap.Host.Bootstrap | cmd/sqlite_bootstrap.go:30-51 | Success has passed inspection, key loading, the storage client, activation and durable completion; a failure names the step it happened at and returns with the lock still held. |
| DatasetBootstrap.Host.OpenStore | cmd/sqlite_bootstrap.go:17-53 | Success holds the lock and returns the completed item; every failure leaves the lock released; while another start holds the lock, opening fails; on a dataset that is not pristine nothing is ever minted, and success needs the item that was stored at first. |
| TextWrap.FieldsAroundSpace | cmd/cli/describe.go:161 | White space separates words wherever it stands. |
| TextWrap.BreakParagraph | cmd/cli/describe.go:160-177 | The loop produces the greedy layout of the paragraph's words. |
| TextWrap.GreedyIsLayout | cmd/cli/describe.go:160-177 | The greedy lines hold all words in order, and each fits or is a lone word. |
| TextWrap.FirstLineIsLongest | cmd/cli/describe.go:165-173 | The first greedy line fits and no longer prefix does. |
| TextWrap.FewerWordsFewerLines | cmd/cli/describe.go:160-177 | Dropping words from the front never costs lines. |
| TextWrap.GreedyIsFewest | cmd/cli/describe.go:160-177 | No word-boundary layout whose lines fit or are lone words has fewer lines. |
| TextWrap.WrappedIsFewest | cmd/cli/describe.go:145-183 | A long paragraph is wrapped into the fewest lines possible. |
| TextWrap.ParagraphsAreParagraphs | cmd/cli/describe.go:152-154 | Replacing, trimming and splitting give lines without newlines which, joined by newlines, are the text with CRLF replaced and trailing newlines removed. |
| TextWrap.WrappingIsUnique | cmd/cli/describe.go:155-177 | A paragraph has exactly one block of lines that meets this description, and it is the one computed. |
| TextWrap.WrappingIsFewest | cmd/cli/describe.go:160-177 | A block that meets it has the fewest lines of any layout of the words, or is the paragraph kept as one line. |
| TextWrap.LineIsLostExactly | cmd/cli/describe.go:155-177 | A paragraph is left without a line exactly if it is white space only and longer than the width once trailing blanks and tabs are gone. |
| TextWrap.TrailingNoBreakSpaceIsLost | cmd/cli/describe.go:155-177 | Every paragraph of at least `width` white-space characters before a no-break space is such a paragraph. |
| TextWrap.LineBreaksAreKept | cmd/cli/describe.go:145-147 | For every text and width there are at least as many lines as paragraphs that keep one, and at least as many as paragraphs if none loses its line. |
| TextWrap.WrapText | cmd/cli/describe.go:145-183 | The paragraphs are what stands between newlines, with every CRLF made one and trailing ones dropped; a paragraph that is short enough without trailing blanks and tabs stays that one line; the words of a longer one go, in order and with single blanks, on lines as full as they can be. So the output has exactly the input's words, and a line longer than the width is one word. |
| GoSchema.CelTransitive | config/crd/bases/core.orka.ai_tasks.yaml:1495-1497 | CEL equality carries over from step to step, for every schema, keyed lists and instants included. |
| GoSchema.ComparisonsMeet | internal/admission/execution_mode.go:318-326 | For every schema, documents that CEL finds equal and that decode to equal Go values are identical exactly if their instants are spelled alike, and always where there is no instant. |
| GoSchema.Determined | api/v1alpha1/task_control_fields.go:16-23 | For every schema, the Go value and the places where a zero is written out or a scalar or an instant is spelled unusually determine the document. |
| GoSchema.EqualValuesCompare | api/v1alpha1/task_control_fields.go:16-23 | For equal Go values, CEL agrees exactly if the documents are spelled alike, instants aside. |
| GoSchema.ExactIsIdentity | config/crd/bases/core.orka.ai_tasks.yaml:1495-1497 | Without keyed lists and instants, CEL equality is identity of the documents. |
| GoSchema.KeyedIsRearranged | config/crd/bases/core.orka.ai_tasks.yaml:1495-1497 | CEL-equal keyed lists have the same keys in some order, and are rearrangements of each other if their items compare exactly. |
| GoSchema.EqualDecodesAlike | api/v1alpha1/task_types.go:443-445 | Without keyed lists, CEL-equal documents decode to equal Go values, instants included. |
| GoSchema.OneInstantIsRespelled | config/crd/bases/core.orka.ai_tasks.yaml:2087-2089 | CEL finds records with one instant equal exactly if at most the instant is spelled differently. |
| TaskAdmission.MatchIsPerField | api/v1alpha1/task_types.go:865 | The rule lists every field of the spec but suspend. |
| TaskAdmission.RuleAcceptsExactly | api/v1alpha1/task_types.go:865 | The field-by-field comparison accepts exactly the updates that rearrange resource claims and change suspend. |
| TaskAdmission.BothAcceptIdentity | internal/admission/execution_mode.go:318-326 | The comparison and equality of ExecutionInputs both hold exactly if the stored inputs are identical. |
| TaskAdmission.MatchingInputsAgree | api/v1alpha1/task_control_fields.go:14-23 | When the comparison holds, ExecutionInputs are equal exactly if the claims kept their order. |
| TaskAdmission.EqualInputsMatch | api/v1alpha1/task_control_fields.go:14-23 | When ExecutionInputs are equal, the comparison holds exactly if the stored inputs are spelled alike. |
| TaskAdmission.RuleAgreesWithInputs | api/v1alpha1/task_control_fields.go:9-23 | Comparison and equality of ExecutionInputs agree on an update exactly if claims that only moved kept their order and equal inputs are spelled alike. |
| TaskAdmission.ZeroIsRefused | api/v1alpha1/task_types.go:865 | On every spec, writing out the zero of an absent value-typed field (image, webhookURL, schedule, prompt, resources) changes no input and fails the comparison. |
| TaskAdmission.ZeroSplitsTheChecks | internal/admission/execution_mode.go:318-326 | So on every Task with recorded authority the webhook lets it pass and the CEL rules refuse it. |
| TaskAdmission.SwappedClaimsAreAccepted | api/v1alpha1/task_types.go:865 | On every spec with two claims, swapping them changes the inputs and passes the comparison. |
| TaskAdmission.SwapSplitsTheChecks | internal/admission/execution_mode.go:318-326 | So on every Task with recorded authority the CEL rules let it pass and the webhook refuses it. |
| TaskAdmission.BoundSpecIsFrozen | api/v1alpha1/task_types.go:862-865 | Over every accepted run, once agentExecutionBinding is recorded, it and the spec are constant as CEL compares them. |
| TaskAdmission.BoundSpecKeepsDocuments | api/v1alpha1/task_types.go:862-865 | So the stored spec of a bound Task, suspend included, changes at most in the order of its resource claims. |
| TaskAdmission.SoulBoundInputsAreFrozen | api/v1alpha1/task_types.go:862-865 | Over every accepted run, once soulBinding is recorded, its document is constant, and so are the execution inputs as CEL compares them. |
| TaskAdmission.SoulBoundSpecKeepsDocuments | api/v1alpha1/task_control_fields.go:9-14 | So the stored spec of a soul-bound Task changes at most in suspend and in the order of its resource claims. |
| TaskAdmission.BothChecksFreezeDocuments | internal/admission/execution_mode.go:318-326 | Over every run that rule and webhook accept, the stored documents themselves are constant, claim order included: the whole spec once bound, all but suspend once soul-bound. |
| TaskAdmission.SuspendMayChange | api/v1alpha1/task_control_fields.go:9-14 | A change of suspend alone is accepted exactly when no agentExecutionBinding is recorded. |
| TaskAdmission.RecordIsFrozen | api/v1alpha1/task_types.go:443-445 | Over every accepted run, a recorded outcome or binding is constant as CEL compares it. |
| TaskAdmission.RecordKeepsValue | api/v1alpha1/task_types.go:443-445 | So its Go value is constant, its document is unchanged exactly if its instant is still spelled the same way, and the document of a soul binding is constant. |
| TaskAdmission.RecordRuleAcceptsExactly | api/v1alpha1/task_types.go:443-445 | The rule of a record accepts exactly the updates that at most spell its instant differently. |
| TaskAdmission.RespellingIsAccepted | api/v1alpha1/task_types.go:443-444 | On every Task, rules and webhook accept every other spelling of a recorded instant; the stored record changes and its Go value does not. |
| TaskAdmission.IdentityIsFrozen | api/v1alpha1/task_types.go:129-138 | Over every accepted run, requester, transaction, type, session and effective intent are constant, and for agent Tasks so are prompt, agent, runtime, workspace and timeout. |
| RuntimeJson.CheckFields | api/v1alpha1/runtime_json.go:116-143 | Accepts exactly the objects whose every key is an exact schema name and folds to no removed name. |
| RuntimeJson.SpecRoundTrip | api/v1alpha1/task_types.go:924-944 | The strict decoder accepts every emitted key, and decoding gives the spec back up to an empty disallowedTools becoming nil. |
| RuntimeJson.OmittedIsNotDenyAll | api/v1alpha1/task_types.go:924-925 | Two specs with one encoding have the same allowlist, so omitted and deny-all stay apart. |
| RuntimeJson.CLIKeysAreAllowed | api/v1alpha1/agent_types.go:176-205 | The strict decoder accepts every key the runtime's encoder can emit. |
| RuntimeJson.CLIRoundTrip | api/v1alpha1/agent_types.go:176-205 | A runtime decodes from its encoding exactly when its contract version is unset or v2, and then to itself up to empty toolbox and path-entry lists becoming nil. |
| RuntimeJson.RuntimeSpecReceiver.UnmarshalJSON | api/v1alpha1/runtime_json.go:44-52 | Succeeds exactly on decodable documents; a rejected one leaves the receiver unchanged. |
| RuntimeJson.CLIRuntimeReceiver.UnmarshalJSON | api/v1alpha1/runtime_json.go:54-62 | Succeeds exactly on decodable documents; a rejected one leaves the receiver unchanged. |
| CacheOptions.AddHost | cmd/main.go:2542-2552 | One entry of the type gains the host namespace or is added with the defaults, and loses its other settings; no other entry changes although entries share maps; with one entry per type, exactly this type caches more. |
| CacheOptions.AgentHostCacheOptions | cmd/main.go:2525-2555 | One entry for each of the four host types is written: it gains the host namespace and loses its other settings; no other entry and no namespace map changes; with one entry per type, exactly the four types cache more. |
| CacheOptions.AddHostTwice | cmd/main.go:2525-2555 | With one entry per type, two applications give every type the namespaces that one gives; without restriction or host namespace, nothing changes. |
| CacheOptions.ManagerCacheOptions | cmd/main.go:2557-2589 | Each type caches the namespaces it should, with one entry per type and no nil map. |
| CacheOptions.ConfigureCache | cmd/main.go:2525-2589 | The two composed: host types gain the host namespace, all others cache what they would without agent hosts. |
| ConnectionJoin.RawItem.JoinInto | cmd/cli/connection.go:277-310 | The raw object decodes to what the struct version computes, stays well typed and keeps all other keys. |
| ConnectionJoin.DuplicateProviders | cmd/cli/connection.go:207-221 | A provider is reported exactly when two listed links name it. |
| ConnectionJoin.ReadyExactlyWhenUsable | cmd/cli/connection.go:243-275 | A link shows ready exactly when the API says so, it is not deleting, its provider is listed and accepted, and no other listed link names it. |
| ConnectionJoin.JoinAll | cmd/cli/connection.go:339-367 | For any list of well-typed or null links the structured output decodes to exactly the table's rows; it panics exactly if a link is null while several links name no provider. |
| EffectCopy.ExternalEffect.DeepCopyInto | api/v1alpha1/external_effect_types.go:122-137 | The copy has the original's value up to an empty response, and all its mutable objects are new; an effect copied into itself keeps all but the bytes of its response. |
| EffectCopy.CopyIsEqual | api/v1alpha1/external_effect_types.go:127-132 | The copy equals the original exactly unless the response is empty but not nil, and an effect survives being copied into itself exactly unless its response has non-nil bytes. |
| EffectCopy.ScribbleOnCopy | api/v1alpha1/external_effect_types.go:139-147 | No write through a copy changes the original. |
| EffectCopy.ExternalEffectList.DeepCopyInto | api/v1alpha1/external_effect_types.go:157-167 | A list of any length is copied item by item into new objects that no two items share; nil and empty lists stay apart; a list copied into itself keeps its length and loses its items. |
| EffectCopy.ExternalEffectList.DeepCopy | api/v1alpha1/external_effect_types.go:169-177 | The copy is a new list with the original's items copied into new objects that no two items share. |
| EffectCopy.ScribbleOnListCopy | api/v1alpha1/external_effect_types.go:169-177 | No write through the copy of a list changes the original list or its items. |

## Left out

- The controllers, the control store, the dispatcher and the other admission handlers under `internal/`: only their record types appear in the modelled files.
- X.509 parsing and verification, TLS and random generation: arbitrary functions and values here.
- Kubernetes informers and RBAC, kubelet and power-loss durability: only versioned objects and process crashes are modelled.
- The certificate directory starts empty before the first process and has one writer; entries that somebody else put there are not modelled.
- Describe rows (`compactDescribeRows`, `flatDescribeRows`, `orderedFlatRows`) and `parseExactLabels`: they would only add easy members.
- The TaskSpec rules that look at one object alone (api/v1alpha1/task_types.go:139-144): they only shrink the set of accepted runs.
- The SQLite store and `storageclient.ActivateSnapshotKey`: activation and completion are steps that may fail, and completion is durable. Whether a dataset is new and without records (pristine) is fixed; records appear only after completion, where it no longer matters. An operator who supplies a first key for a dataset that is not complete is not modelled.
- DatasetBootstrap.Host.Bootstrap: key loading is any sequence of claim steps of that start; the loop itself is ClaimClients.EnsureKey.
- JSON text itself (duplicate keys, number syntax, numbers that are not integers); in `RuntimeJson`, nested objects (runtimeRef, toolboxes) are decoded by exact key, without Go's case-insensitive fallback.
- The strict decoding of TaskStatus, client authentication and capabilities: the same check with other field lists.
- Unknown fields of a stored Task: the API server prunes them, or the strict decoder rejects them. Of the authority webhook, who writes and the checks on first binding are not modelled.
- Native tool policies (the MarshalJSON methods of AISpec and AgentSpec): one easy branch.
- ConnectionJoin.JoinAll: assumes keys in their exact spelling; an object with a key that differs only in case is not modelled.
- CacheOptions.AgentHostCacheOptions: requires no nil map for the host types, whose writing would panic.
- Of ObjectMeta, only labels and annotations are heap objects in `EffectCopy`, and ListMeta is plain values: their copying is library code.
- Error texts, `webhookReadyChecker`, `setupWebhookCertRotation`, the remaining commands and the rest of `cmd/main.go`: wiring and presentation.
