# A verified model of the Kubernetes sandbox provider

This project models, in Dafny, the parts of the Inspect Kubernetes sandbox in which behaviour is spread
over several steps or several functions: the network policies its Helm chart compiles, the detection of
restarted pods, the exec, read and write streams, the life of Helm releases, the conversion of Compose
files and the cache of API clients. `dafny verify dfyconfig.toml` checks all of it.

Code that changes state is modelled by classes and methods with loops (`Pod`, `LimitedBuffer`,
`RemoteFile`, `TempFile`, `HelmReleaseManager`, `ThreadLocalClientFactory`, the `Dict` of the Compose
converter); each method is proved equal to a specification function or to state its whole new state, and
the theorems are about that specification. Code made of expressions is modelled by functions. Tasks that
interleave are state machines whose steps run from one await point to the next.

| file | models |
|---|---|
| `Text.dfy` | string replace, ASCII case mapping, decimal rendering |
| `NetworkPolicy.dfy` | the policies and pod labels the chart renders, and what a set of policies allows |
| `NetworkReach.dfy` | who can reach whom, and which ports are open without an identity check |
| `HostGlob.dfy` | the domain glob turned into a regular expression, and a reader of such expressions |
| `PodIdentity.dfy` | the cached pod identity against a cluster that restarts, replaces, unpublishes and publishes |
| `ExecStream.dfy` | limited buffers, the sentinel, and the loop that streams a command's output |
| `Retry.dfy` | which exceptions are retried, and what the retries make of five attempts |
| `FileTransfer.dfy` | chunked writes, limited reads, and the retries around both |
| `HelmEscape.dfy` | escaping for `--set-string` and the reader it must survive |
| `HelmLifecycle.dfy` | installs and uninstalls under two semaphores, with demands on the cluster, retries, timeouts and cancellation |
| `ReleaseCleanup.dfy` | one release under its install, cancellation and uninstalls at once: what stays in the cluster unknown to anyone |
| `ReleaseManager.dfy` | which releases the manager tracks, drops and logs |
| `ClientCache.dfy` | the two maps of the per-thread client cache |
| `ComposeReach.dfy` | from a Compose file to the cluster: who reaches whom when converted services are rendered |
| `NullFinder.dfy` | the search for null values |
| `ComposeService.dfy` | dictionaries consumed by popping; resources from shortcuts, deploy and the extension |
| `ComposeConverter.dfy` | the whole conversion of a service |
| `ComposeNaming.dfy` | the default service and volume names |

## Where the code falls short of what is said of it

Each of these is a theorem that says exactly when it happens.

- The policies do not always mean what the documentation says of networks: a `labels` value with a key
  `aisi.gov.uk/network-<name>` set to `true` puts every pod on that network (`LabelsCanJoinNetworks`). They
  do exactly when the labels join no services that the networks keep apart (`PoliciesMeanTheDocumentation`).
- A change seen before a command runs is raised exactly when the mode is `raise` or the command fails: in
  `warn` mode a command that succeeds hides it (`EarlyChangeSurfaces`, `SuccessHidesAWarnedChange`). Over the
  up to five attempts of one call, a change that one sees is lost exactly when the mode is `warn`, its first
  check saw it, and its command succeeded or raised (`SurfacesIff`). So a call can return an unsuccessful
  result though it saw a change, which one attempt never does: exactly when an earlier attempt took the change
  in and then raised an exception that is retried (`FailureDespiteChangeIff`, `RetryHidesAWarnedChange`).
- More restarts can be reported than happen after construction exactly when the pod's statuses are not
  published then and its container has restarted before: it is cached with a count of zero
  (`ReportsNeverExceedChanges`).
- Output cut at the limit is returned as complete exactly when closing the socket raises on the pass that
  brought the sentinel and it is that pass that goes over (`TruncationHiddenIff`).
- Output that background processes write after the sentinel is delivered as far as it comes in the sentinel's
  own frame, and no further, so what is lost depends on the framing (`LateOutputDependsOnFraming`).
- TCP 80 and 443 are open to allowed domains without an identity check exactly when `allowDomains` has `*`
  (`WebPortsAreChecked`).
- Installs can starve each other until helm's timeout, even if all that is installed is uninstalled in the
  end: exactly when some releases, no more than there are install permits, can fill the cluster with each at
  least one unit short (`TimeoutNeededIff`).
- A release can end up in the cluster with nobody who knows of it, without anything more being asked for,
  exactly when it has already or its install is still running, so that it could still land, nothing was
  reported, and an uninstall of it is in flight or nothing tracks it (`LeaksIff`). What opens that way is an
  uninstall asked for while the install is running, and nothing else (`LeakOpensIff`).
- Dictionaries that a YAML alias shares between services are emptied by the first one converted. A shared
  deploy block leaves the second service with its shortcuts (`SharedDeploy`), a shared extension adds nothing
  to it (`SharedExtension`), a shared healthcheck makes it fail (`SharedHealthcheck`), and a shared service
  is empty (`SharedService`). The statements about single services therefore require that no dictionary
  occurs twice in one (`ServiceFits`), except that one may be both sections of a block, such as the limits
  and the reservations of a deploy block: that makes no difference (`FromDeployResources`).
- `deploy:` with no value, which the Compose schema allows, always fails with an attribute error
  (`NullDeployRejected`).
- Two declared volumes become one exactly when their names agree up to case, `_`, `.` and `-`
  (`VolumesCollideIff`).
- Two nulls can be reported under one path, as in `{a: {b: null}, "a.b": null}` (`TwoNullsOnePath`): exactly
  the keys of one map that are confusable make it possible (`PathsDistinctIff`).

## Model

| member | source | states |
|---|---|---|
| `NetworkReach.PoliciesMeanTheDocumentation` | docs/docs/helm/built-in-chart.md:474-509 | for any services and networks, the rendered policies over the rendered pod labels reach exactly what the documentation says, for every pair and all TCP, UDP and ICMP echo traffic, if and only if the user's `labels` value joins no two services that the networks keep apart |
| `NetworkReach.PoliciesReach` | src/k8s_sandbox/resources/helm/agent-env/templates/network-policy.yaml:122-260 | the exact relation the policies implement: neither end isolated, no networks at all or a network that both pods carry a label for, and the port open on the target; echo needs no port |
| `NetworkReach.FaithfulPair` | src/k8s_sandbox/resources/helm/agent-env/templates/network-policy.yaml:122-260 | the same for one pair: policies and documentation agree exactly when the labels add no connection between the two |
| `NetworkReach.LabelsCanJoinNetworks` | src/k8s_sandbox/resources/helm/agent-env/templates/services.yaml:21-31 | an input where they disagree: a label value naming a network lets a service in that the networks keep out |
| `NetworkReach.DocumentsSelecting` | src/k8s_sandbox/resources/helm/agent-env/templates/network-policy.yaml:122-260 | exactly which rendered documents select a service's pod |
| `NetworkReach.RenderedMembers` | src/k8s_sandbox/resources/helm/agent-env/templates/network-policy.yaml:1-260 | the rendered documents are the egress policy, the default deny, the ingress policies of each service and an isolation for each isolated service, and no others |
| `NetworkReach.EgressInside` | src/k8s_sandbox/resources/helm/agent-env/templates/network-policy.yaml:19-47 | egress from one service to another is open exactly when the source is not isolated |
| `NetworkReach.IngressInside` | src/k8s_sandbox/resources/helm/agent-env/templates/network-policy.yaml:122-233 | ingress to a service is open exactly when it is not isolated, the port is listed (or no ports are) and the peer is admitted |
| `NetworkReach.OutsidersBlocked` | src/k8s_sandbox/resources/helm/agent-env/templates/network-policy.yaml:132-168 | no pod without the release's own selector labels gets into any service |
| `NetworkReach.EgressMeansTheValues` | src/k8s_sandbox/resources/helm/agent-env/templates/network-policy.yaml:19-123 | what the rendered documents let out of a service's pod, to any pod of the cluster and any address outside, for all traffic and all that it says of whom it wants: exactly the release, the allowed DNS queries, the allowed domains with their identity checks and extra ports, the entities and the ranges; and nothing from an isolated service |
| `NetworkReach.RenderFailsIff` | src/k8s_sandbox/resources/helm/agent-env/templates/network-policy.yaml:48-57 | rendering fails exactly when domains are allowed and some listed port opens 80 or 443 to anything but UDP or names a domain that is not allowed, with the first such entry's error |
| `NetworkReach.IsolatedSendsNothing` | src/k8s_sandbox/resources/helm/agent-env/templates/network-policy.yaml:240-260 | an isolated service's pod sends nothing to anyone |
| `ComposeReach.ConvertNetworked` | src/k8s_sandbox/compose/_converter.py:309-328 | every conversion of a service keeps its isolation and its networks as the source has them |
| `ComposeReach.ConvertedServicesReach` | src/k8s_sandbox/compose/_converter.py:309-328 | two converted services, rendered without a `labels` value, reach each other exactly when neither source says `network_mode: none` and, if networks are declared, both list one of the same name |
| `ComposeReach.IsolatedServiceSendsNothing` | src/k8s_sandbox/compose/_converter.py:309-319 | a service converted from `network_mode: none` sends nothing out of its pod, whatever the values allow |
| `NetworkReach.PodLabelValues` | src/k8s_sandbox/resources/helm/agent-env/templates/services.yaml:21-31 | a pod carries the release's selector labels, its own service name, and a network label exactly for its networks and those named by the user's labels, whatever else the user's labels say |
| `NetworkReach.PortSpecsCover` | src/k8s_sandbox/resources/helm/agent-env/templates/network-policy.yaml:169-173 | a nonempty rendered port list covers a TCP or UDP flow exactly when the service lists that port and protocol, and never echo |
| `NetworkPolicy.KeysApart` | src/k8s_sandbox/resources/helm/agent-env/templates/services.yaml:21-31 | the label keys the chart itself writes have different texts |
| `NetworkPolicy.ServicePortsListFor` | src/k8s_sandbox/resources/helm/agent-env/templates/helpers/_helpers.tpl:76-90 | the loop with `$seen` and `$out` computes the deduplicated list |
| `NetworkPolicy.PortsListMembers` | src/k8s_sandbox/resources/helm/agent-env/templates/helpers/_helpers.tpl:76-90 | the list has each listed port once, and no other |
| `NetworkPolicy.SeenKeyInjective` | src/k8s_sandbox/resources/helm/agent-env/templates/helpers/_helpers.tpl:82-83 | the `PROTO/port` key tells any two ports apart |
| `NetworkPolicy.SeenOnceListed` | src/k8s_sandbox/resources/helm/agent-env/templates/helpers/_helpers.tpl:82-86 | a key was seen exactly when its port is already in the list |
| `NetworkPolicy.ValidateDomainPorts` | src/k8s_sandbox/resources/helm/agent-env/templates/network-policy.yaml:50-58 | the validation loop fails with the first rejected entry, checking the web ports before the domain |
| `NetworkPolicy.HasUnscoped` | src/k8s_sandbox/resources/helm/agent-env/templates/network-policy.yaml:88-91 | the flag is set exactly when some entry has no domain, which is exactly when the unscoped block would not be empty |
| `NetworkPolicy.UnscopedMembers` | src/k8s_sandbox/resources/helm/agent-env/templates/network-policy.yaml:93-99 | the unscoped block opens exactly the ports of the entries without a domain |
| `NetworkReach.UncheckedPortsAreThoseListed` | src/k8s_sandbox/resources/helm/agent-env/templates/network-policy.yaml:48-112 | without `*`, the ports opened with no identity check, and for which domains, are exactly the `allowDomainsPorts` entries, each for its own domain when it has one; and a scoped domain is always an allowed one |
| `NetworkReach.WebPortsAreChecked` | src/k8s_sandbox/resources/helm/agent-env/templates/network-policy.yaml:66-86 | over the rendered documents, towards an address outside that no listed entity or range covers: with `*` (or the entity `all`) TCP 80 and 443 are open; otherwise 443 exactly to what names a listed server, 80 exactly to what sends a Host that a listed glob describes, and neither to what says nothing |
| `NetworkReach.ListedPortsAreNotWeb` | src/k8s_sandbox/resources/helm/agent-env/templates/network-policy.yaml:52-54 | an accepted `allowDomainsPorts` entry never covers TCP 80 or 443 |
| `NetworkReach.NoDomainsNoDomainRules` | src/k8s_sandbox/resources/helm/agent-env/templates/network-policy.yaml:48-113 | without `allowDomains` nothing is rejected and no domain rule is rendered, whatever the ports say |
| `NetworkReach.HostRegexesAccept` | src/k8s_sandbox/resources/helm/agent-env/templates/network-policy.yaml:82-86 | a host passes one of the rendered regular expressions exactly when some allowed domain describes it |
| `HostGlob.TwoReplacesAreOnePass` | src/k8s_sandbox/resources/helm/agent-env/templates/network-policy.yaml:85 | the two successive replaces equal a per-character translation, on every string |
| `HostGlob.HostRegexReads` | src/k8s_sandbox/resources/helm/agent-env/templates/network-policy.yaml:85 | the rendered text parses, as a regular expression, into one item for each pattern character and the optional port |
| `HostGlob.HostRegexMeansGlob` | src/k8s_sandbox/resources/helm/agent-env/templates/network-policy.yaml:85 | read as a regular expression, the rendered line accepts exactly the hosts the glob describes, ignoring case and an optional numeric port |
| `HostGlob.DotMustComeFirst` | src/k8s_sandbox/resources/helm/agent-env/templates/network-policy.yaml:85 | the replaces in the other order give the same text exactly when the pattern has no star |
| `PodIdentity.Pod.CheckForPodRestart` | src/k8s_sandbox/_pod/pod.py:67-91 | a check reports what the snapshot shows against the cached identity, returns or raises it by the configured behaviour, and leaves the cache refreshed in both cases |
| `PodIdentity.Pod.Exec` | src/k8s_sandbox/_pod/pod.py:146-155 | the outcome and the new cached identity of a call: success exactly when the command succeeded after a pre-check that saw no change or warned of one; an exception other than a change exactly when the pre-check or the command raised it; the cached identity then the one after the pre-check |
| `PodIdentity.Pod.DiagnoseRestartAfterFailedExec` | src/k8s_sandbox/_pod/pod.py:157-169 | a detected change is raised, any other failure of the re-check is swallowed |
| `PodIdentity.OutcomeIff` | src/k8s_sandbox/_pod/pod.py:146-155 | the same as a statement about all inputs |
| `PodIdentity.ReplacedIsReported` | src/k8s_sandbox/_pod/op.py:153-163 | a pod with another uid is reported as replaced, with both uids and the count its container shows, zero for none |
| `PodIdentity.RestartIsReported` | src/k8s_sandbox/_pod/op.py:164-181 | a restart is reported exactly when the container's count is above the cached one, with that count and the reason or `unknown`; unpublished statuses report nothing, and a missing container fails |
| `PodIdentity.FailureReturnedOnlyWhenNoChangeSeen` | src/k8s_sandbox/_pod/pod.py:146-169 | an unsuccessful result is returned exactly when the command failed, the pre-check saw no change and the post-check detected none |
| `PodIdentity.EarlyChangeSurfaces` | src/k8s_sandbox/_pod/pod.py:146-155 | a change seen by the pre-check is raised exactly when the behaviour is `raise` or the command fails; the cache is refreshed either way |
| `PodIdentity.LateChangeSurfaces` | src/k8s_sandbox/_pod/pod.py:151-169 | a change seen by the post-check of a failed command is always raised, with the cache refreshed |
| `PodIdentity.SuccessHidesAWarnedChange` | src/k8s_sandbox/_pod/pod.py:146-155 | the case where a seen change does not surface: in `warn` mode, when the command succeeds |
| `PodIdentity.RetryExec` | src/k8s_sandbox/_sandbox_environment.py:278-286 | the outcome and the cached identity after up to five attempts on one Pod object |
| `PodIdentity.RepeatedIff` | src/k8s_sandbox/_sandbox_environment.py:65-100 | an attempt is repeated exactly when its pre-check, or else its command, raises an exception that is retried; never for a change |
| `PodIdentity.RetriedOutcomeIff` | src/k8s_sandbox/_sandbox_environment.py:278-286 | all attempts together succeed exactly when the last one's command succeeded after a pre-check that let it run, and raise another exception exactly when the last one's pre-check or command raised it and it is not retried or was the last attempt |
| `PodIdentity.LastDecides` | src/k8s_sandbox/_sandbox_environment.py:88-100 | the attempts that are made: each starts with the identity the one before left, all but the last are repeated, and the last decides |
| `PodIdentity.SurfacesIff` | src/k8s_sandbox/_sandbox_environment.py:278-286 | of all attempts made, a change that a check of one sees is raised by the call if and only if it is not the case that the mode is `warn`, the first check saw it, and the command then succeeded or raised |
| `PodIdentity.FailureDespiteChangeIff` | src/k8s_sandbox/_sandbox_environment.py:278-286 | the call returns an unsuccessful result although one of its checks saw a change if and only if the last attempt's command failed with no change seen and the first check of an earlier attempt, whose command raised, saw one in `warn` mode |
| `PodIdentity.RetryHidesAWarnedChange` | src/k8s_sandbox/_sandbox_environment.py:278-286 | an input: the pod was replaced, the connection breaks, and the retried command fails without a word of the change |
| `PodIdentity.ExecDuringRun` | src/k8s_sandbox/_pod/pod.py:146-169 | with the cluster free to change while the command runs, and the container visible to both checks: an unsuccessful result is returned if and only if the command failed and the pod is still the one the cached identity described at the call; any other failed command raises the change, and the cache has taken in what was seen |
| `PodIdentity.BumpCounts` | src/k8s_sandbox/_pod/snapshot.py:57-67 | restarting one container raises its own count and no other's |
| `PodIdentity.FreshCounts` | src/k8s_sandbox/_pod/snapshot.py:57-67 | the statuses of a fresh pod all count zero |
| `PodIdentity.StepKeeps` | src/k8s_sandbox/_pod/pod.py:67-91 | every cluster step and every check keeps the invariant (the cached uid was in use, the cached count never above the true one while the uid is current), never reports more than it uses up, and only checks and changes alter what is pending |
| `PodIdentity.RunKeeps` | src/k8s_sandbox/_pod/pod.py:67-91 | the same over whole runs |
| `PodIdentity.PublishedCheckIsExact` | src/k8s_sandbox/_pod/op.py:153-181 | at any point of any run, a check with statuses published and the container among them reports exactly when the pod differs from the cached identity, and leaves the cache equal to the snapshot with nothing pending |
| `PodIdentity.MissingContainerCheck` | src/k8s_sandbox/_pod/op.py:164-174 | with statuses published but the container not among them, the check fails without touching the cache exactly when the uid is still the cached one |
| `PodIdentity.QuietRunKeepsPending` | src/k8s_sandbox/_pod/op.py:153-181 | over any run without checks, a change is pending at the end exactly when one was pending or one happened |
| `PodIdentity.NextCheckReportsIffChanged` | src/k8s_sandbox/_pod/op.py:153-181 | from an up-to-date cache, after any steps without checks, the next check with the container's status published reports exactly when the cluster changed |
| `PodIdentity.ReportsNeverExceedChanges` | src/k8s_sandbox/_pod/pod.py:67-91 | reports never exceed changes on any run exactly when statuses were published at construction or the container had not restarted by then |
| `ExecStream.LimitedBuffer.constructor` | src/k8s_sandbox/_pod/buffer.py:12-15 | starts empty and not truncated |
| `ExecStream.LimitedBuffer.Append` | src/k8s_sandbox/_pod/buffer.py:17-23 | over any sequence of appends the buffer is the first `limit` bytes of everything appended, truncated exactly when that is longer |
| `ExecStream.SentinelIsTheOnlyMatch` | src/k8s_sandbox/_pod/execute.py:195-204 | text without a sentinel around one sentinel has that one match only: the leftmost match is it, its number is the return code, and filtering removes it and nothing else |
| `ExecStream.SecondSentinelCutsOff` | src/k8s_sandbox/_pod/execute.py:194-205 | a second sentinel in one frame takes the text after it along, and the first one's code counts |
| `ExecStream.SentinelIff` | src/k8s_sandbox/_pod/execute.py:194-205 | a text has a sentinel exactly when the mark, at least one digit and `>` follow each other in it |
| `ExecStream.NoSentinelInPrefix` | src/k8s_sandbox/_pod/execute.py:17 | text without a sentinel has none in any prefix |
| `ExecStream.NoSentinelInSuffix` | src/k8s_sandbox/_pod/execute.py:17 | text without a sentinel has none in any suffix |
| `ExecStream.StreamOutput` | src/k8s_sandbox/_pod/execute.py:119-166 | the loop with its two buffers, return code and early exits ends as the recursive specification says, for every sequence of ticks, lost connections and a failing close |
| `ExecStream.PlainFrames` | src/k8s_sandbox/_pod/execute.py:123-143 | any run of frames without a sentinel adds its text to the two streams however it is cut |
| `ExecStream.SentinelFrame` | src/k8s_sandbox/_pod/execute.py:133-140 | the frame with the sentinel yields the return code and completes the text before and after it |
| `ExecStream.ResultIndependentOfFraming` | src/k8s_sandbox/_pod/execute.py:119-166 | for every cutting of the streams that keeps the sentinel whole, stdout is the text without the sentinel, with the printed return code, whatever frames would follow |
| `ExecStream.SentinelEnd` | src/k8s_sandbox/_pod/execute.py:133-168 | a sentinel ends the run with its own code and the output up to its pass, cut at the limit, unless the limit error came |
| `ExecStream.PlainEnd` | src/k8s_sandbox/_pod/execute.py:154-164 | a run with no sentinel and no lost pass ends with the channel's code and all the output, or without a return code |
| `ExecStream.LostIff` | src/k8s_sandbox/_pod/execute.py:144-152 | the connection counts as lost exactly when it is lost before a sentinel and before the limit is passed |
| `ExecStream.LateOutputDependsOnFraming` | src/k8s_sandbox/_pod/execute.py:135-142 | output after the sentinel is delivered only as far as it comes in the sentinel's own frame: the same bytes in two framings, with different results |
| `ExecStream.LimitErrorIffOver` | src/k8s_sandbox/_pod/execute.py:120-143 | the limit error is raised exactly when the filtered total of either stream, over the ticks whose limit is checked, exceeds the limit |
| `ExecStream.LimitErrorCarriesPrefixes` | src/k8s_sandbox/_pod/execute.py:206-213 | the error carries prefixes of the two streams of at most the limit, one of them cut at the limit |
| `ExecStream.TruncationHiddenIff` | src/k8s_sandbox/_pod/execute.py:133-149 | output over the limit goes unreported exactly when closing the socket fails on the sentinel's pass and it was that pass that went over |
| `ExecStream.FailedCloseHidesTruncation` | src/k8s_sandbox/_pod/execute.py:141-149 | an input on which truncated output is returned as a success |
| `ExecStream.HandleShellOutput` | src/k8s_sandbox/_pod/execute.py:116-168 | with the sentinel the code uses: every framing of the same output gives the text around it and the code in it; without a sentinel the code is the status channel's and the output is all there is; the connection counts as lost exactly when that comes before a sentinel and before the limit is passed; the limit error comes exactly when a checked total is over, and carries prefixes |
| `Retry.RetriedExactly` | src/k8s_sandbox/_sandbox_environment.py:65-100 | the retried exception types, out of all those an operation raises |
| `Retry.RetriedSucceedsIff` | src/k8s_sandbox/_sandbox_environment.py:88-100 | five attempts yield a value exactly when an attempt among them does and only transient errors came before it |
| `Retry.RetriedFailsIff` | src/k8s_sandbox/_sandbox_environment.py:88-100 | they fail exactly with the error of an attempt that only transient errors came before and that is not retried or the fifth |
| `FileTransfer.WriteStdinChunked` | src/k8s_sandbox/_pod/op.py:69-77 | the frames concatenate to the data, all of the chunk size but the last, none empty |
| `FileTransfer.RecutKeepsTheBytes` | src/k8s_sandbox/_pod/op.py:69-77 | recutting a stream into frames of any sizes keeps its bytes |
| `FileTransfer.EverySplittingIsARecut` | src/k8s_sandbox/_pod/op.py:69-77 | every way of splitting a stream into frames is such a recutting |
| `FileTransfer.RemoteFile.Head` | src/k8s_sandbox/_pod/write.py:27-41 | `head -c` writes the first bytes of the frames it is given, however they are cut |
| `FileTransfer.WriteOnce` | src/k8s_sandbox/_pod/write.py:17-30 | an attempt whose sent frames reach the pod, recut in any way, leaves exactly the data, for every chunk size; any other leaves what it leaves |
| `FileTransfer.WriteFile` | src/k8s_sandbox/_sandbox_environment.py:287-294 | success leaves exactly the data whatever the failed attempts left behind |
| `FileTransfer.TempFile.Seek` | src/k8s_sandbox/_sandbox_environment.py:317 | moves the position only |
| `FileTransfer.TempFile.Truncate` | src/k8s_sandbox/_sandbox_environment.py:318 | drops what is past the position |
| `FileTransfer.TempFile.Write` | src/k8s_sandbox/_pod/read.py:48 | writes at the position |
| `FileTransfer.HandleStreamOutput` | src/k8s_sandbox/_pod/read.py:37-67 | an attempt appends its frames and fails with the limit error, the remote error or not at all, as the specification of one attempt says |
| `FileTransfer.ReadFile` | src/k8s_sandbox/_sandbox_environment.py:302-323 | the loop that rewinds and truncates one file before each attempt gives what independent attempts on fresh files would |
| `FileTransfer.CleanOutcome` | src/k8s_sandbox/_pod/read.py:27-67 | an attempt on which nothing goes wrong gives the file when it is within the limit and the limit error when it is not |
| `FileTransfer.ReadSucceedsIff` | src/k8s_sandbox/_sandbox_environment.py:315-323 | a read gives a value exactly when that is the file, the file is within the limit, and a clean attempt among the five has only transient failures before it |
| `FileTransfer.ReadFailsIff` | src/k8s_sandbox/_sandbox_environment.py:315-323 | what a failed read raises: the limit error when the file or the frames before an error are over the limit, else that error, of the first attempt that is not retried or the fifth |
| `FileTransfer.RoundTrip` | src/k8s_sandbox/_sandbox_environment.py:287-323 | for every data, chunk size, recutting on either side and failed attempts: a read that succeeds returns the data, and it succeeds exactly when the data is within the limit and each side has a clean attempt after transient failures only |
| `HelmEscape.FourReplacesAreOnePass` | src/k8s_sandbox/_helm.py:515-520 | the four ordered replaces equal a per-character escape |
| `HelmEscape.ReadsBackExactlyOnePair` | src/k8s_sandbox/_helm.py:313-316 | for all keys and values, the argument reads back as exactly the one pair, with no nesting |
| `HelmEscape.StructureIff` | src/k8s_sandbox/_helm.py:508-520 | the reader takes a bare comma, dot and equals sign for structure, and nothing after a backslash |
| `HelmEscape.BackslashMustComeFirst` | src/k8s_sandbox/_helm.py:515-519 | with the backslash replaced last, a text reads back literally if and only if it has no comma, dot or equals sign |
| `HelmLifecycle.StepKeeps` | src/k8s_sandbox/_helm.py:207-238 | permits are conserved, tasks hold what their program point says, and the cluster is never over capacity, across every step, the cancel path included |
| `HelmLifecycle.RunKeeps` | src/k8s_sandbox/_helm.py:207-238 | the same over every interleaving |
| `HelmLifecycle.NoHoldAndWait` | src/k8s_sandbox/_helm.py:229-238 | no task waits for an uninstall permit while holding any permit |
| `HelmLifecycle.StepDecreases` | src/k8s_sandbox/_helm.py:207-238 | every step that is not a request (to install, cancel or uninstall) lowers the work left |
| `HelmLifecycle.NoDeadlock` | src/k8s_sandbox/_helm.py:207-238 | from every reachable state, a run without new requests has at most as many steps as there is work left, and where it cannot go on every task is at rest; helm's timeout counts as a step |
| `HelmLifecycle.StuckIff` | src/k8s_sandbox/_helm.py:562-575 | nothing but a timeout, failure, cancellation or new install can happen exactly when starving installs hold all the capacity and every other task is out of the cluster or waits for one of their permits |
| `HelmLifecycle.TimeoutNeededIff` | src/k8s_sandbox/_helm.py:300 | if what is installed is uninstalled in the end, such a state is still reachable if and only if some releases, no more than there are install permits, can fill the cluster with each at least one unit short of its demand |
| `HelmLifecycle.UnitReleasesNeedNoTimeout` | src/k8s_sandbox/_helm.py:300 | so releases of one unit each never need the timeout |
| `HelmLifecycle.SharedSemaphoreDeadlocks` | src/k8s_sandbox/_helm.py:562-568 | with one semaphore for both, two releases of one unit can get stuck on a pending uninstall; with the two semaphores the same releases never do |
| `HelmLifecycle.UninstallStepDecreases` | src/k8s_sandbox/_helm.py:440-475 | each uninstall step lowers the pending work by one and touches no other task |
| `HelmLifecycle.UninstallsDrain` | src/k8s_sandbox/_helm.py:440-475 | from every reachable state uninstall steps alone finish every pending uninstall, in exactly as many steps as there is pending work, even with every install blocked |
| `HelmLifecycle.AttemptsBounded` | src/k8s_sandbox/_helm.py:219-228 | an install is tried at most three times, and a quota conflict on the last one fails it |
| `HelmLifecycle.AttemptsCountConflicts` | src/k8s_sandbox/_helm.py:217-228 | in any run a release that is installing is on its first attempt and one more for each conflict it has met |
| `HelmLifecycle.ConflictRetriedIff` | src/k8s_sandbox/_helm.py:217-228 | the first two quota conflicts are retried, keeping the permit, and the third fails the install and gives it back |
| `HelmLifecycle.UninstallAwaitsTheProcess` | src/k8s_sandbox/_helm.py:229-238 | while helm install runs, cancelled or not, the permit is kept and no uninstall of that release begins; it is over only when it ends by itself |
| `HelmLifecycle.CancelledIsUninstalled` | src/k8s_sandbox/_helm.py:229-238 | a release whose install was cancelled, at whatever point, goes on to its uninstall and at rest was uninstalled or failed to be |
| `HelmLifecycle.HeldUntilUninstalled` | src/k8s_sandbox/_helm.py:217-240 | a release keeps what it holds in the cluster, failed or not, until it is uninstalled |
| `ReleaseManager.HelmReleaseManager.BeginInstall` | src/k8s_sandbox/_manager.py:48-50 | the release is tracked before its install is awaited |
| `ReleaseManager.HelmReleaseManager.EndUninstall` | src/k8s_sandbox/_manager.py:60-61 | only a successful uninstall removes the release, once; removing one that is no longer tracked raises |
| `ReleaseManager.HelmReleaseManager.BeginUninstallAll` | src/k8s_sandbox/_manager.py:72-82 | the batch is all that is tracked, which is cleared; nothing changes when there is nothing or for print-only |
| `ReleaseManager.HelmReleaseManager.EndUninstallAll` | src/k8s_sandbox/_manager.py:83-98 | the releases logged are those whose uninstall raised |
| `ReleaseManager.RemoveFirstKeepsOthers` | src/k8s_sandbox/_manager.py:61 | `list.remove` takes out one occurrence and fails exactly when there is none |
| `ReleaseManager.RemoveFirstAt` | src/k8s_sandbox/_manager.py:61 | the first occurrence goes and the others keep their order |
| `ReleaseManager.FailuresAre` | src/k8s_sandbox/_manager.py:87-89 | a release is logged exactly when one of its results is an exception |
| `ReleaseManager.StepKeeps` | src/k8s_sandbox/_manager.py:41-98 | every step keeps every release accounted for |
| `ReleaseManager.BatchEnds` | src/k8s_sandbox/_manager.py:83-98 | the end of a batch leaves each of its releases uninstalled or logged |
| `ReleaseManager.RunKeeps` | src/k8s_sandbox/_manager.py:41-98 | the same over every interleaving |
| `ReleaseManager.NoReleaseIsLost` | src/k8s_sandbox/_manager.py:41-98 | at every point of every interleaving, each release ever installed is tracked, in a batch in flight, uninstalled or logged |
| `ReleaseManager.CleanupAccountsForAll` | src/k8s_sandbox/_manager.py:63-98 | with nothing tracked and no batch in flight, each is uninstalled or logged |
| `ReleaseManager.Perform` | src/k8s_sandbox/_manager.py:41-98 | for every world and step, the class's methods leave the manager tracking what the step function says, and batch and log the same releases |
| `ReleaseManager.Interleave` | src/k8s_sandbox/_manager.py:41-98 | any interleaving run on the class ends with every release tracked by it, in flight, uninstalled or logged |
| `ReleaseCleanup.StepLeaves` | src/k8s_sandbox/_manager.py:41-98 | the release leaves the cluster only by an uninstall that succeeds, every failed one is reported, and tracking ends with a batch or a success |
| `ReleaseCleanup.LeaksIff` | src/k8s_sandbox/_manager.py:41-98 | from any state, without a further request, a state is reachable in which the release is in the cluster, its install over, untracked, unreported and not being uninstalled, if and only if that is so already or the install is still running (while it could still land), nothing was reported, and an uninstall is in flight or nothing tracks it |
| `ReleaseCleanup.LeakOpensIff` | src/k8s_sandbox/_manager.py:52-82 | at any point of any run, the steps that make such a leak possible are exactly the uninstalls asked for while the install is running, the first one if nothing was reported |
| `ReleaseCleanup.CancelledNeverLeaks` | src/k8s_sandbox/_helm.py:229-238 | a run in which the install was cancelled, at any point, never leaks its release, whatever else is asked for before or after |
| `ClientCache.ThreadLocalClientFactory.constructor` | src/k8s_sandbox/_kubernetes_api.py:212-214 | both maps start empty |
| `ClientCache.ThreadLocalClientFactory.GetClient` | src/k8s_sandbox/_kubernetes_api.py:216-221 | the outcome and the new maps of a call, errors included |
| `ClientCache.ThreadLocalClientFactory.MaybeRefresh` | src/k8s_sandbox/_kubernetes_api.py:223-235 | an expired client leaves both maps and is closed; any other is left alone |
| `ClientCache.RefreshKeeps` | src/k8s_sandbox/_kubernetes_api.py:223-235 | a refresh keeps equal key sets, no closed client cached, and none closed twice |
| `ClientCache.CreateKeeps` | src/k8s_sandbox/_kubernetes_api.py:218-220 | so does caching a new client |
| `ClientCache.CallKeeps` | src/k8s_sandbox/_kubernetes_api.py:216-235 | every call keeps the invariant and returns an open client that is fresh or young enough |
| `ClientCache.CachedOrClosedOnce` | src/k8s_sandbox/_kubernetes_api.py:216-235 | after any calls the maps have equal key sets and every client made is either cached or was closed exactly once |
| `ClientCache.ReturnedClientIsOpenAndFresh` | src/k8s_sandbox/_kubernetes_api.py:216-235 | over the calls made: a returned client was never closed, was made by a call for the same context, and with refreshing on is that very call's or younger than the limit, counted from the clock that call read once it had made it |
| `ClientCache.RecordedWhenMade` | src/k8s_sandbox/_kubernetes_api.py:218-220 | after any calls, the time recorded for a cached client is the clock read by the very call that made it, which was for that context |
| `ClientCache.CallGives` | src/k8s_sandbox/_kubernetes_api.py:216-235 | what each call of any run gives: nothing but the error for an invalid setting; the cached client exactly while it is young enough; else a new one, or none when making it fails, and none is left cached then |
| `ClientCache.NoRefreshKeepsClients` | src/k8s_sandbox/_kubernetes_api.py:224-226 | without refreshing a cached client is returned forever |
| `ClientCache.OtherContextsUntouched` | src/k8s_sandbox/_kubernetes_api.py:216-235 | a call for one context leaves the others alone |
| `NullFinder.FindNullPaths` | src/k8s_sandbox/_helm.py:101-120 | the recursion returns the printed paths of the nulls in traversal order |
| `NullFinder.NullsAre` | src/k8s_sandbox/_helm.py:101-120 | the positions listed are exactly those at which following keys and indices reaches a null |
| `NullFinder.NullsAscend` | src/k8s_sandbox/_helm.py:101-120 | the listed positions ascend by the index of the entry or item at which they part |
| `NullFinder.NullsDistinct` | src/k8s_sandbox/_helm.py:101-120 | no position is listed twice |
| `NullFinder.PathsDistinctIff` | src/k8s_sandbox/_helm.py:107-114 | the maps with given keys, and values that are clear themselves, report all their nulls under different paths if and only if no two of the keys are confusable: one the other continued by `.` or an index in brackets, or an empty one at the top |
| `NullFinder.ClearTextsDistinct` | src/k8s_sandbox/_helm.py:107-114 | a tree without confusable keys reports no path twice |
| `NullFinder.PlainKeysClear` | src/k8s_sandbox/_helm.py:107-114 | keys that are not empty and have neither `.` nor `[` are not confusable |
| `NullFinder.TwoNullsOnePath` | src/k8s_sandbox/_helm.py:107-114 | an input with two nulls reported under one path |
| `NullFinder.ValidateNoNullValues` | src/k8s_sandbox/_helm.py:122-138 | validation passes exactly when no null exists at any depth; else one path is reported for each, in order, and all different when no keys are confusable |
| `ComposeService.ConvertResource` | src/k8s_sandbox/compose/_converter.py:506-517 | converts exactly when only cpus and memory are there and the memory parses; consumes its dictionary |
| `ComposeService.ConvertSection` | src/k8s_sandbox/compose/_converter.py:496-499 | one section: converted when not empty, its dictionary emptied, any other value of it rejected |
| `ComposeService.ConvertResources` | src/k8s_sandbox/compose/_converter.py:494-504 | converts exactly when there is nothing but acceptable limits and reservations; all three dictionaries end up empty, and the result's two share nothing; reservations that are the very dictionary of the limits have been emptied by then and count as none |
| `ComposeService.SetRequestsToLimitsIfUnset` | src/k8s_sandbox/compose/_converter.py:551-555 | requests default to the limits' entries in a dictionary of their own |
| `ComposeService.FromShortcuts` | src/k8s_sandbox/compose/_converter.py:479-487 | limits from mem_limit and cpus, requests the same, in two new dictionaries; nothing when neither is set |
| `ComposeService.ConvertDeploy` | src/k8s_sandbox/compose/_converter.py:459-492 | converts exactly when the block is acceptable; deploy.resources takes precedence over the shortcuts; every dictionary of the block ends up empty |
| `ComposeService.ResourceMeans` | src/k8s_sandbox/compose/_converter.py:506-517 | what limits or reservations may hold and become, key by key |
| `ComposeService.DeployMeans` | src/k8s_sandbox/compose/_converter.py:459-504 | what a deploy block may hold, key by key |
| `ComposeService.BaseMeans` | src/k8s_sandbox/compose/_converter.py:466-504 | the limits and requests before any extension, from the values under the keys |
| `ComposeService.FromDeployResources` | src/k8s_sandbox/compose/_converter.py:466-504 | limits and requests from a deploy block's resources, requests defaulting to the limits; one dictionary that is both limits and reservations through a YAML alias gives what two copies of it would |
| `ComposeService.SharedDeploy` | src/k8s_sandbox/compose/_converter.py:459-492 | a deploy block shared through a YAML alias leaves the second service with its shortcuts; it comes out as it would alone if and only if the block had no resources or the shortcuts amount to the same |
| `ComposeService.SharedExtension` | src/k8s_sandbox/compose/_converter.py:557-578 | a shared extension merges into the first service only; the second comes out as it would alone, where it would be accepted, if and only if it adds nothing there |
| `ComposeService.AddEntries` | src/k8s_sandbox/compose/_converter.py:603-611 | entries are added exactly when none of their keys is there |
| `ComposeService.MergeSection` | src/k8s_sandbox/compose/_converter.py:594-611 | a section is merged exactly when it is null, or a dictionary with no key set already; the other section is untouched |
| `ComposeService.MergeSections` | src/k8s_sandbox/compose/_converter.py:594-611 | both sections, each getting its own entries only |
| `ComposeService.MergeExtensionResources` | src/k8s_sandbox/compose/_converter.py:580-617 | succeeds exactly when only the two sections are there and neither clashes; then each result section is the union |
| `ComposeService.MergeIntoResult` | src/k8s_sandbox/compose/_converter.py:593 | the same, with the result's resources made when absent |
| `ComposeService.ApplyServiceExtensions` | src/k8s_sandbox/compose/_converter.py:557-578 | succeeds exactly when `resources` is the only key and can be merged; the extension and its resources end up empty |
| `ComposeService.ExtensionMeans` | src/k8s_sandbox/compose/_converter.py:557-617 | what an extension may hold and what it adds, from the values under the keys |
| `ComposeService.MergedMeans` | src/k8s_sandbox/compose/_converter.py:594-611 | a merged section holds what either holds, and a key in both is a clash |
| `ComposeConverter.Transform` | src/k8s_sandbox/compose/_converter.py:707-723 | a key is popped and, unless null, put converted under its new name; nothing else changes |
| `ComposeConverter.ConvertBasics` | src/k8s_sandbox/compose/_converter.py:255-258 | runtime, image, entrypoint and command end up under their Kubernetes names |
| `ComposeConverter.ConvertStorage` | src/k8s_sandbox/compose/_converter.py:259-263 | so do working_dir, environment and volumes, and every service has a DNS record |
| `ComposeConverter.ConvertHealthcheck` | src/k8s_sandbox/compose/_converter.py:422-447 | converts exactly when `test` is there and only supported keys are, all of which convert; the dictionary ends up empty |
| `ComposeConverter.ConvertProbeTimes` | src/k8s_sandbox/compose/_converter.py:427-437 | the four durations and counts end up under their Kubernetes names |
| `ComposeConverter.ConvertProbe` | src/k8s_sandbox/compose/_converter.py:264-270 | a null healthcheck counts as absent; any other gives exactly the probe it asks for, command and times, under the new name |
| `ComposeConverter.SharedHealthcheck` | src/k8s_sandbox/compose/_converter.py:422-447 | a shared healthcheck makes the second service fail, on the missing test |
| `ComposeConverter.ConvertSecurity` | src/k8s_sandbox/compose/_converter.py:275-308 | user and the seccomp profile, and memswap_limit dropped |
| `ComposeConverter.ConvertNetworks` | src/k8s_sandbox/compose/_converter.py:309-328 | `none` sets the flag and excludes networks, `bridge` or nothing moves the networks and sets no flag, all else is rejected |
| `ComposeConverter.DropOthers` | src/k8s_sandbox/compose/_converter.py:330-353 | a hostname must be the service's name; five keys are dropped |
| `ComposeConverter.PopExtension` | src/k8s_sandbox/compose/_converter.py:164-177 | either key, not both |
| `ComposeConverter.ConvertDeployValue` | src/k8s_sandbox/compose/_converter.py:274 | without a deploy key an empty block is converted; an explicit null fails |
| `ComposeConverter.NullDeployRejected` | src/k8s_sandbox/compose/_converter.py:274 | a service with a deploy key and no value under it is never accepted |
| `ComposeConverter.ConvertPlain` | src/k8s_sandbox/compose/_converter.py:252-367 | the exact condition for the stages before the extension to succeed, and then the container, its surroundings, the probe, the resources, and no other keys |
| `ComposeConverter.ConvertExtensionKey` | src/k8s_sandbox/compose/_converter.py:372-374 | the exact condition for the extension stage to succeed |
| `ComposeConverter.ConvertKeys` | src/k8s_sandbox/compose/_converter.py:252-374 | the same for all stages, with the keys that are left of the source |
| `ComposeConverter.ConvertService` | src/k8s_sandbox/compose/_converter.py:252-379 | a service converts if and only if every key is supported and every value acceptable; then the source and every dictionary the converter pops from are empty, the resources are the service's own plus the extension's in two dictionaries that share nothing, the probe is the one the source asks for, every other entry is the source's key by key, the flag is set exactly for `network_mode: none`, and the result has no other keys |
| `ComposeConverter.PlainAcceptedMeans` | src/k8s_sandbox/compose/_converter.py:252-353 | what the values must be, key by key |
| `ComposeConverter.SupportedKeys` | src/k8s_sandbox/compose/_converter.py:252-379 | the keys a service may have; with `network_mode: none` not even a null `networks` |
| `ComposeConverter.HealthcheckMeans` | src/k8s_sandbox/compose/_converter.py:422-447 | what a healthcheck may hold, key by key |
| `ComposeConverter.ProbeMeans` | src/k8s_sandbox/compose/_converter.py:422-437 | the probe's entries from the healthcheck's, key by key |
| `ComposeConverter.SharedService` | src/k8s_sandbox/compose/_converter.py:90-97 | a service given two names through an alias is empty under the second, and converts to nothing but a DNS record |
| `ComposeNaming.DetermineDefaultService` | src/k8s_sandbox/compose/_converter.py:100-123 | picks nothing when a `default` exists, else the first marked service, else the first of several |
| `ComposeNaming.PickMeans` | src/k8s_sandbox/compose/_converter.py:100-123 | the pick without helpers: none when a service is called `default`, else the first marked, else the first of at least two |
| `ComposeNaming.PickedIsThere` | src/k8s_sandbox/compose/_converter.py:100-123 | the picked service exists, and only when none is called `default` |
| `ComposeNaming.RenamingIsInjective` | src/k8s_sandbox/compose/_converter.py:85-97 | at most one service changes its name and no two end up with the same |
| `ComposeNaming.DefaultPresentIff` | src/k8s_sandbox/compose/_converter.py:100-123 | `default` exists afterwards exactly when it did, some service is marked, or there are several |
| `ComposeNaming.ConvertServices` | src/k8s_sandbox/compose/_converter.py:85-97 | every service is in the result under its output name, converted under its own name, in the same order, and no assignment replaced another |
| `ComposeNaming.AssignNew` | src/k8s_sandbox/compose/_converter.py:96 | assigning a new key appends it |
| `ComposeNaming.ConvertVolumes` | src/k8s_sandbox/compose/_converter.py:126-135 | succeeds exactly when every declared value is empty; the result has exactly the normalised names |
| `ComposeNaming.VolumeNameByChar` | src/k8s_sandbox/compose/_converter.py:702-704 | normalising maps character by character |
| `ComposeNaming.VolumeNameIdempotent` | src/k8s_sandbox/compose/_converter.py:702-704 | normalising twice is normalising once |
| `ComposeNaming.SplitColonSplits` | src/k8s_sandbox/compose/_converter.py:411-416 | an item splits at its first colon, or has none |
| `ComposeNaming.ConvertServiceVolumes` | src/k8s_sandbox/compose/_converter.py:404-420 | succeeds exactly when every item has a colon; each item keeps its path and has its name normalised |
| `ComposeNaming.ReferenceConverts` | src/k8s_sandbox/compose/_converter.py:416-419 | a reference converts to the normalised name with its path untouched, and converting again changes nothing |
| `ComposeNaming.ReferencesStayDeclared` | src/k8s_sandbox/compose/_converter.py:126-135 | a service's reference to a declared volume names a declared volume after both sides are renamed |
| `ComposeNaming.VolumesCollideIff` | src/k8s_sandbox/compose/_converter.py:702-704 | two declared volumes become one exactly when their names agree up to case, `_`, `.` and `-` |

## Left out

- NetworkPolicy.Render: policies are a list of documents, not objects under names that could collide; `additionalResources`, annotations and descriptions are not part of this model.
- NetworkReach.EgressMeansTheValues: how Cilium matches a name pattern against a name is any function of the two; the names an address was resolved under, the entities that cover it and the ranges it lies in are inputs, and what a connection says of whom it wants is taken as it says it. Port 0, `endPort` and connection tracking are outside the evaluator, which unions allow rules, lets deny win and denies by default once selected. For TCP 80 the domains are plain patterns, as for HostGlob.HostRegexMeansGlob.
- HostGlob.HostRegexMeansGlob: patterns may hold any characters that are not metacharacters of regular expressions other than `.` and `*`; `(?i)` folds ASCII only.
- NetworkPolicy.ServicePortsListFor: `upper` is modelled for ASCII, as `lower` is for volume names.
- PodIdentity.Pod.Exec: a check (snapshot and refresh) is one atomic step, so two checks interleaved on one pod are not modelled; only the default container's identity is.
- PodIdentity.RetryExec: the waits between attempts and the K8sError that wraps an unexpected exception are not modelled.
- PodIdentity.ReportsNeverExceedChanges: uids are assumed never to be reused by the cluster.
- ExecStream.StreamOutput: frames, lost connections, a failing close and the return code from the error channel are inputs; what the client library buffers between the reads of one pass is not part of this model.
- ExecStream.ResultIndependentOfFraming: assumes that the sentinel is not split across frames and that no stdout frame arrives after `close()`, as the code does; bytes are characters, and decoding with replacement is not modelled.
- The shell script, quoting, base64, `runuser` and `timeout` handling, and the classification of results by return code 124 or 126.
- FileTransfer.WriteFile: an attempt that exits with 0 has received all of stdin, which is what keeping the command's stdout open is for; `mkdir -p`, shell quoting, the parsing of remote errors and the wrapping of unexpected exceptions are not modelled.
- HelmEscape.ReadsBackExactlyOnePair: the reader knows the four metacharacters the docstring names; Helm's list and brace syntax is not part of it.
- HelmLifecycle.NoDeadlock: semaphores wake any waiter rather than the first, and a second cancellation during the cleanup of a cancelled install is not modelled.
- HelmLifecycle.TimeoutNeededIff: capacity is a number of equal units, given to releases one by one in any order; a release whose install is over may still be given units.
- HelmLifecycle.StepKeeps: the lifecycle is a state machine over values, since its interleavings are between tasks and no single method performs them.
- ReleaseManager.Perform: how a member of a batch ends is decided outside the class; cancelling `uninstall_all` itself is not modelled.
- ReleaseCleanup.LeaksIff: one release on its own, since releases share nothing but permits and capacity; a failed uninstall is one in which helm exits with an error, which is raised to its caller or logged; a second cancellation during the cleanup of a cancelled install is not modelled.
- ClientCache.ThreadLocalClientFactory.GetClient: clients are numbers in the order they are made, and the clock and the refresh setting are inputs of each call.
- NullFinder.FindNullPaths: map keys are strings; a key that is not one, such as a top-level `1: null`, makes the join of the path raise and is not modelled.
- ComposeService.ConvertResource: conversions of single values (byte quantities, durations, users, seccomp profiles, environment lists, retries) are one function parameter that may fail; it cannot look inside dictionaries.
- ComposeConverter.ConvertSecurity: the seccomp profile is kept under a key of its own, not inside the security context.
- ComposeConverter.ConvertService: cpus, memory, mem_limit and hostname are taken to be scalars, as the Compose schema demands; log messages and which of two errors comes first are not stated; dictionaries shared further down, such as one `limits` in two blocks, are not modelled.
- ComposeReach.ConvertedServicesReach: networks in the list form of a service's `networks` key; the top-level `networks` and how a rendered service is found among the values are inputs.
- ComposeNaming.ConvertServices: the top-level keys of a Compose file other than services and volumes.
- JSON schema validation, YAML parsing, configuration and context lookup, logging, tables, prompts, diagnostics, connection commands and the keepalive thread.
