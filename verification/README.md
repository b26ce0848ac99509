# Verified model of the Enterprise Gateway's control plane

Enterprise Gateway starts, restarts, shuts down and revives Jupyter kernels on behalf of many users. Its
state is a handful of shared tables that interleaved asyncio tasks, a file watcher thread and launcher
processes update. This project models those tables and the programs around them in Dafny, and proves what
they keep over whole runs.

A run is a sequence of steps. A step is a stretch of code between two awaits, one handler call of the file
watcher, one turn of a reader thread, or an action of the surroundings (the disk, the clock, the cluster, the
operating system). Each state machine comes twice: as functions on values, about which the theorems are
proved, and as a class whose methods follow the Python code line by line and are proved to take exactly the
steps of the machine.

| files | what they hold |
|---|---|
| Ids.dfy | kernel ids |
| Gateway.dfy, RemoteManager.dfy | admission of kernel starts, pending counters, registry, revival |
| Lifecycle.dfy | what becomes of starts, kernels and sessions, step by step and over whole runs |
| KernelLimits.dfy | the limits on kernels, in all and per user, over whole runs |
| Sessions.dfy, SessionRuns.dfy, SessionCounts.dfy, SessionManager.dfy | session map, per-user index, session files |
| Restart.dfy | restarts and shutdowns of one kernel |
| SpecCache.dfy, SpecCacheObject.dfy | kernelspec cache against the disk |
| Payload.dfy, Base64.dfy, Padding.dfy, Utf8.dfy | the connection payload between launcher and server |
| Rendezvous.dfy | the response registry between launchers and startup loops |
| Startup.dfy | clock arithmetic and the startup polling loop |
| Ports.dfy | port ranges and port selection |
| StartupCommand.dfy, Shell.dfy, LogPath.dfy | the remote startup command and a POSIX shell's reading of it |
| Hosts.dfy | least-connection and round-robin host selection |
| Namespaces.dfy, PodName.dfy | Kubernetes namespace ownership and pod names |
| GatewayClient.dfy | response demultiplexing in the Python client |
| Collections.dfy, Arithmetic.dfy | stock facts about sequences, sets, maps and quotients |

The surroundings enter as parameters or as nondeterministic outcomes of a step: clocks, random draws, bind
results, Kubernetes answers, liveness of kernel processes, AES, RSA and JSON (used only through the laws that
they undo themselves), `str.lower` and `int`.

## Where the code differs from its comments

The model follows the code.

- The comment in `get_time_diff` (processproxy.py, line 1651) calls it the difference in seconds; it is so
  only when the milliseconds need no leading zero (`Startup.DiffIsExactIff`). The callers only pass whole
  seconds, where it is exact.
- The comment above `terminate_container_resources` (k8s.py, lines 159-164) says that a created namespace is
  deleted after the pod. When deleting the pod raises, for instance because it is gone already, the namespace
  is not deleted, and a missing pod even counts as done (`Namespaces.TerminationDeletesIff`,
  `Namespaces.MissingPodLeavesNamespace`).
- `get_container_status` never returns None, so the test for None in k8s.py, line 179, never succeeds.
- `select_socket` reports failure "after n retries" having made n + 1 attempts.
- `_convert_raw_response` cuts into texts that end in the letter u (`GatewayClient.ConversionUnquotesIff`).
- `init_host_kernels` accepts an empty host name, but `delete_kernel_id` takes it for no host
  (`Hosts.CleanupUndoesLaunch`).

## Model

| member | source | states |
|---|---|---|
| Gateway.PendingCountsStarts | enterprise_gateway/services/kernels/remotemanager.py:131-156 | In every interleaving of starts, failures, removals, restarts, lookups and revivals, the pending total is the number of starts in flight and the sum of the per-user counters, each of which is the number of that user's starts; with no start in flight all of them are zero |
| Gateway.NextKeepsCounters | enterprise_gateway/services/kernels/remotemanager.py:209-234 | Every step keeps the counters exact, in total, for each user and in sum |
| KernelLimits.KernelLimitHolds | enterprise_gateway/services/kernels/remotemanager.py:282-306 | In every interleaving, other gateways on the same store included, registered kernels plus admitted starts not yet registered never exceed the kernel limit, not counting kernels of stored sessions, found at first or written by another gateway, whose ids the run looks up |
| KernelLimits.UserLimitHolds | enterprise_gateway/services/kernels/remotemanager.py:308-324 | In every interleaving, other gateways included, a user's counted sessions plus pending starts never exceed the per-user limit by more than the number of that user's sessions that the store offers and the run looks up |
| KernelLimits.KernelLimitIsOutrightIff | enterprise_gateway/services/kernels/remotemanager.py:282-306 | Over all runs in which the store, at first and from other gateways, offers nothing but given readable files: the kernel limit holds, whatever it is, if and only if there are none of them or persistence is off |
| KernelLimits.UserLimitIsOutrightIff | enterprise_gateway/services/kernels/remotemanager.py:308-324 | Over the same runs a user's limit holds, whatever it is, if and only if none of the files names the user or persistence is off |
| KernelLimits.LimitsHoldWithoutRevival | enterprise_gateway/services/kernels/remotemanager.py:209-234 | Both limits hold outright on every run that looks up no id for which the store ever offers a readable session |
| KernelLimits.RevivalIgnoresLimits | enterprise_gateway/services/kernels/remotemanager.py:338-417 | Whatever is stored at first: with both limits zero, once another gateway has stored a session whose kernel answers, a replication lookup brings its kernel in, and the kernel's first restart makes the session count |
| KernelLimits.StoredRevivalIgnoresLimits | enterprise_gateway/services/kernels/remotemanager.py:338-417 | The same lookup brings in the kernel of a session found stored at first |
| KernelLimits.RunInvariant | enterprise_gateway/services/kernels/remotemanager.py:209-234 | The invariant behind the limits, with other gateways writing to the store: exact counters, tidy tables, live sessions registered, the bound on kernels, and for each user a bound on all ids that count or may come to count |
| KernelLimits.NextKeepsTotal | enterprise_gateway/services/kernels/remotemanager.py:282-306 | Every step keeps the bound on registered plus unregistered admitted kernels |
| KernelLimits.NextKeepsUser | enterprise_gateway/services/kernels/remotemanager.py:308-324 | Every step keeps each user's bound: a finishing start hands its pending slot to one session of the same user |
| KernelLimits.RestartKeepsUser | enterprise_gateway/services/sessions/kernelsessionmanager.py:113-145 | A restart's refresh consumes no slot of any user |
| KernelLimits.NextKeepsTidy | enterprise_gateway/services/sessions/kernelsessionmanager.py:130-145 | Every step, another gateway's write included, keeps the store honest: a readable file names the live session's user, or is one that was found at first or written by another gateway |
| Gateway.RunKeepsTables | enterprise_gateway/services/sessions/kernelsessionmanager.py:130-145 | On every run in which no live id is created under another user, the lists are a sound sub-index, files and memory agree on owners, and every live session's kernel is registered |
| Gateway.CheckFindsOrForgets | enterprise_gateway/services/kernels/remotemanager.py:192-207 | After any run, a lookup of an id ends with its kernel registered, or with the id gone from the session map, from every user's list and from the store |
| Gateway.ResumeKeepsTheLiving | enterprise_gateway/services/sessions/kernelsessionmanager.py:154-180 | Start-up from the files of an earlier gateway leaves, in map and registry, exactly the readable sessions whose kernel answered, as they were saved; of the files only those of readable sessions that did not answer are gone |
| Gateway.TakeoverLeaksASlot | enterprise_gateway/services/sessions/kernelsessionmanager.py:130-145 | An id created again under another user while live leaves the first user one counted session after all sessions are gone |
| Lifecycle.AdmittedIff | enterprise_gateway/services/kernels/remotemanager.py:282-324 | On every run a new start is admitted if and only if registered kernels plus starts in flight are fewer than the kernel limit, where there is one, and the user's listed sessions plus starts in flight fewer than the per-user limit, where it is not negative; nothing else changes |
| Lifecycle.LimitsAreReached | enterprise_gateway/services/kernels/remotemanager.py:282-324 | Both limits are reached: of one user's starts, each finished before the next, as many go through as both limits allow |
| Lifecycle.FinishLeavesSession | enterprise_gateway/services/kernels/remotemanager.py:229-234 | The end of a start whose kernel is registered leaves its session live under the admitted user, as handed over but for the key that saving turns into text, in that user's list, and with persistence readable from its file if it can be saved; every other session, list entry and file stays |
| Lifecycle.RegisterAddsKernel | enterprise_gateway/services/kernels/remotemanager.py:229-232 | Registration adds the kernel to the registry, a failing start takes nothing away but itself |
| Lifecycle.RemoveTakesKernel | enterprise_gateway/services/kernels/remotemanager.py:327-336 | Removal takes the kernel out of the registry and its session out of map and store, and nothing else |
| Lifecycle.CheckRevives | enterprise_gateway/services/kernels/remotemanager.py:192-207 | A lookup revives an unregistered kernel that answers and whose session is live or readable, with what its file holds |
| Lifecycle.CheckForgets | enterprise_gateway/services/kernels/remotemanager.py:192-207 | Every other lookup of an unregistered kernel deletes its session and file; that of a registered one changes nothing |
| Lifecycle.RestartRefreshes | enterprise_gateway/services/sessions/kernelsessionmanager.py:113-128 | A restart of a registered kernel leaves its session with the new connection and process information, user, name and arguments unchanged, and with persistence readable from its file if it can be saved |
| Lifecycle.InFlightIff | enterprise_gateway/services/kernels/remotemanager.py:218-232 | On every run without persistence a start is in flight for a user if and only if a step admitted it for the user, with both limits unreached then, and none has ended it since |
| Lifecycle.RegisteredIff | enterprise_gateway/services/kernels/remotemanager.py:229-230 | On every run without persistence a kernel is registered if and only if a start in flight registered it and no step has removed it since |
| Lifecycle.LiveIff | enterprise_gateway/services/kernels/remotemanager.py:229-234 | On every run without persistence a session is live for a user if and only if the last finished start of its kernel was the user's, the kernel being registered then, and no later removal or vain lookup forgot it; it has the name and arguments handed over |
| RemoteManager.RemoteMappingKernelManager.EnforceKernelLimits | enterprise_gateway/services/kernels/remotemanager.py:282-324 | Lets a start ahead if and only if registered kernels plus starts in flight, and the user's listed sessions plus starts in flight, are below the limits configured |
| RemoteManager.RemoteMappingKernelManager.BeginStart | enterprise_gateway/services/kernels/remotemanager.py:218-228 | Up to its await a start checks the limits and counts itself as pending in one step; it is admitted if and only if kernels and starts, and the user's listed sessions and starts, are below the limits configured |
| RemoteManager.RemoteMappingKernelManager.RegisterKernel | enterprise_gateway/services/kernels/remotemanager.py:229-230 | Registration inside the awaited base-class start, as one step |
| RemoteManager.RemoteMappingKernelManager.EndStart | enterprise_gateway/services/kernels/remotemanager.py:231-234 | After its await a start gives back its pending slot and creates its session in one step: that of a registered kernel is live and listed under the admitted user |
| RemoteManager.RemoteMappingKernelManager.FailStart | enterprise_gateway/services/kernels/remotemanager.py:229-232 | A start that raises gives back its pending slot and nothing else |
| RemoteManager.RemoteMappingKernelManager.RemoveKernel | enterprise_gateway/services/kernels/remotemanager.py:327-336 | Removal takes the kernel out of the registry, known or not, and its session out of the tables |
| RemoteManager.RemoteMappingKernelManager.RefreshKernel | enterprise_gateway/services/kernels/remotemanager.py:644-646 | The end of a restart refreshes the session of a registered kernel |
| RemoteManager.RemoteMappingKernelManager.CheckKernelId | enterprise_gateway/services/kernels/remotemanager.py:192-207 | Finds the kernel, revives it from its file, or deletes its session and answers not found |
| RemoteManager.RemoteMappingKernelManager.ResumeSessions | enterprise_gateway/services/sessions/kernelsessionmanager.py:154-180 | Start-up loads and revives the stored sessions in some order, as one step of the machine |
| RemoteManager.TrackPendingRequests.Increment | enterprise_gateway/services/kernels/remotemanager.py:142-146 | One more pending start in total and for its user |
| RemoteManager.TrackPendingRequests.Decrement | enterprise_gateway/services/kernels/remotemanager.py:148-152 | One fewer pending start in total and for its user |
| Sessions.SavedLoadsBackIffSaveable | enterprise_gateway/services/sessions/kernelsessionmanager.py:228-251 | Saving and loading give a session back unchanged if and only if its other fields are JSON and its key is absent, falsy but not bytes, or non-empty bytes that decode |
| Sessions.SaveKeepsExactIff | enterprise_gateway/services/sessions/kernelsessionmanager.py:130-145 | Saving keeps the per-user lists the exact inverse of the session map if and only if the id is not live under another user |
| Sessions.SaveKeepsSubIndex | enterprise_gateway/services/sessions/kernelsessionmanager.py:130-145 | Saving an id under its own user keeps the lists a duplicate-free sub-index |
| Sessions.ForgetKeepsIndex | enterprise_gateway/services/sessions/kernelsessionmanager.py:207-223 | Deleting a session keeps the lists duplicate-free, sound and exact |
| Sessions.ForgetAll | enterprise_gateway/services/sessions/kernelsessionmanager.py:207-225 | Deleting a list of ids removes exactly these sessions, keeps the index properties and lists nothing new |
| Sessions.ActiveSessionsCounts | enterprise_gateway/services/sessions/kernelsessionmanager.py:285-300 | With an exact index the count of active sessions is the number of live sessions of the user |
| SessionRuns.RunKeepsIndex | enterprise_gateway/services/sessions/kernelsessionmanager.py:82-145 | Over every run without takeovers the lists are a duplicate-free sub-index of the session map, and its exact inverse when nothing was loaded |
| SessionRuns.ActiveSessionsOverRuns | enterprise_gateway/services/sessions/kernelsessionmanager.py:285-300 | Over the same runs the count of active sessions never exceeds the user's live sessions, and equals them when nothing was loaded |
| SessionRuns.CountIsShortByUncounted | enterprise_gateway/services/sessions/kernelsessionmanager.py:285-300 | Over every run without takeovers the count of active sessions is short of the user's live sessions by exactly those that were loaded and not saved since, so it is right if and only if there are none |
| SessionCounts.CountOnEveryRun | enterprise_gateway/services/sessions/kernelsessionmanager.py:285-300 | On every run, takeovers and loads included: the count is the number of the user's live sessions, less those loaded and not saved since, plus the entries for ids that other users took over |
| SessionCounts.ApplyAccounts | enterprise_gateway/services/sessions/kernelsessionmanager.py:130-145 | Every operation keeps, for every user, the account of what the list misses and what it counts too much |
| SessionRuns.LoadedSessionIsNotCounted | enterprise_gateway/services/sessions/kernelsessionmanager.py:383-399 | A session read from its file is live but not counted |
| SessionRuns.RunTracks | enterprise_gateway/services/sessions/kernelsessionmanager.py:356-364 | Over every run with persistence, memory and store hold the same ids and each file is what saving the session last handed over writes |
| SessionRuns.FilesRecoverEveryRun | enterprise_gateway/services/sessions/kernelsessionmanager.py:347-399 | After every run with persistence the stored ids are the live ids, and a fresh manager loading the store gets a session exactly when it was saveable as last handed over, and then just as it was handed, although the save hook rewrites the live dictionary |
| SessionManager.FileKernelSessionManager.CreateSession | enterprise_gateway/services/sessions/kernelsessionmanager.py:82-111 | Saves the session of a registered kernel; an unregistered one changes nothing |
| SessionManager.FileKernelSessionManager.RefreshSession | enterprise_gateway/services/sessions/kernelsessionmanager.py:113-128 | Saves the live session again with fresh connection and process information |
| SessionManager.FileKernelSessionManager.Save | enterprise_gateway/services/sessions/kernelsessionmanager.py:130-145 | Map, user list and file change together as the table operation says |
| SessionManager.FileKernelSessionManager.SaveToFile | enterprise_gateway/services/sessions/kernelsessionmanager.py:356-364 | Truncates the file, lets the hook rewrite the live dictionary, and leaves a corrupt file when hook or JSON raises |
| SessionManager.FileKernelSessionManager.DeleteSessions | enterprise_gateway/services/sessions/kernelsessionmanager.py:207-225 | The deletion loop equals the table operation for any list of ids, known or not, repeated or not |
| SessionManager.FileKernelSessionManager.DeleteFiles | enterprise_gateway/services/sessions/kernelsessionmanager.py:347-354 | Exactly the files of the given ids go |
| SessionManager.FileKernelSessionManager.LoadFromFile | enterprise_gateway/services/sessions/kernelsessionmanager.py:383-399 | A readable file's session enters the map; a missing or unreadable one changes nothing |
| SessionManager.FileKernelSessionManager.LoadSessions | enterprise_gateway/services/sessions/kernelsessionmanager.py:366-375 | Whatever order the directory is listed in, the map gains exactly the readable sessions |
| SessionManager.FileKernelSessionManager.StartSessions | enterprise_gateway/services/sessions/kernelsessionmanager.py:154-180 | Loads all, revives those whose kernel answers, deletes the others |
| SessionManager.FileKernelSessionManager.CountActive | enterprise_gateway/services/sessions/kernelsessionmanager.py:285-300 | The length of the user's list |
| Restart.RestartsExclude | enterprise_gateway/services/kernels/remotemanager.py:236-247 | In every interleaving of manager-issued restarts and shutdowns at most one restart body is in flight, and the flag is up exactly while one is |
| Restart.ShutdownBeginsAfterRestart | enterprise_gateway/services/kernels/remotemanager.py:249-260 | A shutdown's body begins only when no restart body is in flight or after waiting longer than the launch timeout |
| Restart.DuplicateRestartIsSkipped | enterprise_gateway/services/kernels/remotemanager.py:236-243 | A restart that arrives while another is in flight never runs a body of its own, whatever happens later |
| Restart.NewShutdown | enterprise_gateway/services/kernels/remotemanager.py:249-257 | On every run a new shutdown enters its body at once if and only if no restart body is in flight or the launch timeout is negative; otherwise it waits |
| Restart.WaitingShutdown | enterprise_gateway/services/kernels/remotemanager.py:262-280 | A waiting shutdown enters its body at exactly the first look that finds no restart body in flight or the timeout passed |
| Restart.NewRestart | enterprise_gateway/services/kernels/remotemanager.py:236-246 | A new restart enters its body if and only if no restart body is in flight, and is then the only one; otherwise it waits, or is skipped if the timeout is negative |
| Restart.WaitingRestart | enterprise_gateway/services/kernels/remotemanager.py:238-243 | A waiting restart is skipped at exactly the first look that finds no restart body in flight or the timeout passed |
| Restart.BodyEnds | enterprise_gateway/services/kernels/remotemanager.py:244-257 | The end of a body finishes its request; after that of a restart none is in flight and the flag is down |
| Restart.ShutdownRuns | enterprise_gateway/services/kernels/remotemanager.py:249-257 | A requested shutdown is waiting, in its body or finished after its body was in flight, whatever else happens: none is finished without it |
| Restart.RestartRunsToItsEnd | enterprise_gateway/services/kernels/remotemanager.py:236-247 | A restart that begins while none is in flight is in its body until that ends, and finished from then on |
| Restart.WaitForRestartFinish | enterprise_gateway/services/kernels/remotemanager.py:262-280 | The polling loop stops at the first check that finds the flag down or the timeout passed, after at most one more sleep than fit into the timeout |
| Restart.KernelManager.BeginRestart | enterprise_gateway/services/kernels/remotemanager.py:236-246 | Raises the flag and enters the body; if the flag is up, waits, or is skipped if the timeout is negative |
| Restart.KernelManager.BeginShutdown | enterprise_gateway/services/kernels/remotemanager.py:249-256 | Enters the body, or waits if the flag is up and the timeout is not negative |
| Restart.KernelManager.EndRestart | enterprise_gateway/services/kernels/remotemanager.py:246-247 | The flag comes down whether or not the body raised |
| Restart.KernelManager.WakeUp | enterprise_gateway/services/kernels/remotemanager.py:273-280 | A waiting request goes on waiting, or moves on as the loop decides |
| SpecCache.CoherentOverRuns | enterprise_gateway/services/kernelspecs/kernelspec_cache.py:127-149 | In every interleaving of disk changes, event handlers and lookups, a name with no event pending is cached only with what the disk holds, and is cached if and only if its last change happened in a directory watched at that moment or it was looked up since; in particular if it lies in a directory watched from the start |
| SpecCache.NextKeepsInv | enterprise_gateway/services/kernelspecs/kernelspec_cache.py:223-293 | Every step keeps, for every name, what the queued events about it promise of disk and cache |
| SpecCache.LookupRefinesManager | enterprise_gateway/services/kernelspecs/kernelspec_cache.py:53-67 | With no event pending for a name, looking it up gives what the manager without a cache gives |
| SpecCache.FiledTogetherIff | enterprise_gateway/services/kernelspecs/kernelspec_cache.py:127-149 | Two names are filed under one if and only if they differ in case only |
| SpecCache.CaseDoesNotMatter | enterprise_gateway/services/kernelspecs/kernelspec_cache.py:91-110 | Names that differ in case only find the same spec, in the cache and in the manager |
| SpecCache.ListingAtRest | enterprise_gateway/services/kernelspecs/kernelspec_cache.py:69-89 | At quiescence the listing holds only specs on disk, and is the whole disk if and only if no name or every name on disk was last changed under a watch or looked up since |
| SpecCache.WatchedIsKnown | enterprise_gateway/services/kernelspecs/kernelspec_cache.py:164-192 | Directories watched from the start stay watched, and every change in them makes the name known |
| SpecCache.ListingCanBePartial | enterprise_gateway/services/kernelspecs/kernelspec_cache.py:69-89 | Two specs in a directory nobody watches: after one lookup the listing is that one spec with nothing pending |
| SpecCache.LatePutHarmlessIff | enterprise_gateway/services/kernelspecs/kernelspec_cache.py:62-66 | Were the miss path interrupted between read and put by any steps: from then on, on every further run, the cache is right at rest if and only if at the put an event about the name is still pending or the disk still holds what was read |
| SpecCache.DiskStepKeeps | enterprise_gateway/services/kernelspecs/kernelspec_cache.py:246-281 | A create, modify or delete keeps the invariant for every name, whether or not its directory is watched |
| SpecCache.DispatchKeeps | enterprise_gateway/services/kernelspecs/kernelspec_cache.py:223-293 | Handling the oldest event keeps the invariant, although handlers read the disk as it is now |
| SpecCache.DispatchMove | enterprise_gateway/services/kernelspecs/kernelspec_cache.py:283-293 | Handling a queued move keeps the invariant for both of its names: the spec is cached under its new name as the disk holds it |
| SpecCacheObject.KernelSpecCache.constructor | enterprise_gateway/services/kernelspecs/kernelspec_cache.py:164-192 | The cache is seeded with every spec of the manager and watches their directories and the manager's own |
| SpecCacheObject.KernelSpecCache.GetItem | enterprise_gateway/services/kernelspecs/kernelspec_cache.py:91-110 | The cached spec under the lower-cased name, unless it vanished or caching is off; a miss is counted |
| SpecCacheObject.KernelSpecCache.PutItem | enterprise_gateway/services/kernelspecs/kernelspec_cache.py:127-149 | The spec is filed under the lower-cased name and its directory is watched |
| SpecCacheObject.KernelSpecCache.PutAllItems | enterprise_gateway/services/kernelspecs/kernelspec_cache.py:151-154 | Whatever the order, all specs are filed and their directories watched |
| SpecCacheObject.KernelSpecCache.RemoveItem | enterprise_gateway/services/kernelspecs/kernelspec_cache.py:156-162 | The spec goes, and is returned if there was one |
| SpecCacheObject.KernelSpecCache.GetKernelSpec | enterprise_gateway/services/kernelspecs/kernelspec_cache.py:53-67 | A hit answers from the cache; a miss asks the manager and files its answer |
| SpecCacheObject.KernelSpecCache.GetAllSpecs | enterprise_gateway/services/kernelspecs/kernelspec_cache.py:69-89 | An empty cache asks the manager and files everything; otherwise the cache answers |
| SpecCacheObject.KernelSpecChangeHandler.Dispatch | enterprise_gateway/services/kernelspecs/kernelspec_cache.py:223-293 | One event is handled against the disk as it is now; moving an uncached spec raises and changes nothing |
| Payload.DecodeUndoesEncrypt | etc/kernel-launchers/python/scripts/launch_ipykernel.py:207-232 | For every connection info and AES key, the server's version-1 decoding undoes the launcher's encoding, given ciphers and JSON that undo themselves |
| Payload.WireFormat | etc/kernel-launchers/python/scripts/launch_ipykernel.py:207-232 | What is on the wire, layer by layer: version 1, the AES key encrypted, and the padded connection info encrypted with it |
| Payload.OtherVersionsAreRejected | enterprise_gateway/services/processproxies/processproxy.py:315-340 | A payload of another version, or of none, is not read as a version-1 payload, whatever else it holds |
| Payload.AnySplittingDecodes | enterprise_gateway/services/processproxies/processproxy.py:272-339 | However the launcher's bytes are split into received buffers, the server recovers the connection info |
| Payload.ChunkingIrrelevantIffAscii | enterprise_gateway/services/processproxies/processproxy.py:280-289 | Decoding each received buffer by itself gives the text of the whole for every splitting if and only if all bytes are ASCII |
| Payload.ReceiveAll | enterprise_gateway/services/processproxies/processproxy.py:272-289 | The receive loop accumulates the decoded buffers, or fails at the first that does not decode |
| Base64.DecodeEncode | etc/kernel-launchers/python/scripts/launch_ipykernel.py:217-231 | Base64 (section 4 of RFC 4648) decoding undoes encoding for all bytes |
| Base64.EncodedIsAscii | etc/kernel-launchers/python/scripts/launch_ipykernel.py:231-232 | What goes on the wire is ASCII |
| Base64.TestVectors | etc/kernel-launchers/python/scripts/launch_ipykernel.py:217-231 | The encoder meets test vectors of section 10 of RFC 4648 |
| Padding.PadAddsItsLength | etc/kernel-launchers/python/scripts/launch_ipykernel.py:217-217 | Between one and sixteen octets are added, each of them their number, to the next multiple of sixteen |
| Padding.UnpadInvertsPad | etc/kernel-launchers/python/scripts/launch_ipykernel.py:217-217 | Unpadding (section 6.3 of RFC 5652) gives `data` if and only if the block-aligned input is `data` padded |
| Utf8.DecodeEncode | enterprise_gateway/services/processproxies/processproxy.py:286-288 | Decoding UTF-8 gives back every encoded text |
| Utf8.EncodeDecode | enterprise_gateway/services/sessions/kernelsessionmanager.py:228-251 | Bytes that decode are the encoding of what they decode to |
| Rendezvous.PollReturnsLastPost | enterprise_gateway/services/processproxies/processproxy.py:202-205 | Over every run, a poll that waited for a registration of its kernel and did not time out hands over what was last posted to the registration open when it resumes, nothing if nothing was posted to that one, and is a lookup error if none is open; if the kernel was neither registered again nor taken out meanwhile, that is the last post to the registration waited for |
| Rendezvous.PollTimesOut | enterprise_gateway/services/processproxies/processproxy.py:202-205 | A poll times out if and only if no post ever reached the registration it waited for |
| Rendezvous.RegistryIsOpen | enterprise_gateway/services/processproxies/processproxy.py:198-205 | The registry holds exactly the registrations neither followed by another nor taken out |
| Rendezvous.ResponseIsLastPost | enterprise_gateway/services/processproxies/processproxy.py:381-394 | A response object holds what was last posted while its registration was open, if anything was |
| Rendezvous.OneDeliveryPerRegistration | enterprise_gateway/services/processproxies/processproxy.py:198-205 | Between two deliveries to a kernel lies a registration of it |
| Rendezvous.RegisteredDuringWait | enterprise_gateway/services/processproxies/processproxy.py:202-205 | A kernel registered again after the post and before the poll resumes: the poll takes the new, empty response object and nobody finds what the new launch sends |
| Rendezvous.LaunchIsDelivered | enterprise_gateway/services/processproxies/processproxy.py:272-394 | If the last event to reach a kernel's open registration posted what its launcher sent, in whatever chunks it arrived, the poll that waited for it hands over that connection info |
| Rendezvous.ResponseManager.RegisterEvent | enterprise_gateway/services/processproxies/processproxy.py:198-200 | The kernel gets a fresh response object to which nothing was posted |
| Rendezvous.ResponseManager.BeginGetConnectionInfo | enterprise_gateway/services/processproxies/processproxy.py:202-204 | Before its await the poll finds the response object registered, or raises |
| Rendezvous.ResponseManager.EndGetConnectionInfo | enterprise_gateway/services/processproxies/processproxy.py:204-205 | After its await: a timeout or an id gone from the registry leaves the registry as it was; otherwise the object registered by then is handed over and taken out |
| Rendezvous.ResponseManager.PostConnection | enterprise_gateway/services/processproxies/processproxy.py:381-394 | Only the registered kernel named in the payload changes |
| Rendezvous.ResponseManager.ProcessConnection | enterprise_gateway/services/processproxies/processproxy.py:272-293 | One connection is received, decoded and posted; a failure anywhere leaves the registry as it was |
| StartupCommand.TokensOfScript | enterprise_gateway/services/processproxies/distributed.py:147-179 | For every environment, kernelspec environment, argument list and log path, the command reads back as one export per pair in order, then `nohup` and exactly the arguments, then whatever the redirection reads as |
| StartupCommand.ScriptLaunchesKernel | enterprise_gateway/services/processproxies/distributed.py:147-179 | With names for keys and a plain log path, a shell hands `nohup` exactly the arguments in its environment overlaid by the request's and then the kernelspec's environment, appending to the log |
| LogPath.LaunchesIff | enterprise_gateway/services/processproxies/distributed.py:147-179 | Whatever the shell's own environment, it hands `nohup` exactly the arguments in that environment overlaid by the request's and then the kernelspec's, with output appended to the log file, if and only if all keys are names a shell can export and the log path is plain, that is, not empty, not starting with `#`, and free of blanks, quotes and the other characters with a meaning to the shell |
| LogPath.LaunchesWithLogIff | enterprise_gateway/services/processproxies/distributed.py:177-177 | With names for keys, in each environment of the shell, the log path alone decides |
| LogPath.OutputReadsBackIff | enterprise_gateway/services/processproxies/distributed.py:177-177 | The redirection reads back as the log path, the duplication and the echo if and only if the path is plain |
| LogPath.WordIsBounded | enterprise_gateway/services/processproxies/distributed.py:177-177 | A word read from part of the path has no more pieces than the part has characters, and fewer once one of them is not plain, except where a trailing backslash swallows the blank |
| StartupCommand.LexQuote | enterprise_gateway/services/processproxies/distributed.py:165-175 | Quote removal by section 2.2 of the Shell Command Language volume of IEEE Std 1003.1 gives back every quoted text, wherever in a word it stands |
| StartupCommand.LexExports | enterprise_gateway/services/processproxies/distributed.py:165-170 | The export part reads back as one export per pair, in order, whatever keys and values hold |
| StartupCommand.BlankInLogPath | enterprise_gateway/services/processproxies/distributed.py:177-177 | An instance: a blank in the log path ends the redirection there and hands the kernel one more argument |
| StartupCommand.LogIsOwn | enterprise_gateway/services/processproxies/distributed.py:158-160 | The log is the file named after the kernel's id in the log directory |
| StartupCommand.LogsAreDistinct | enterprise_gateway/services/processproxies/distributed.py:158-160 | Two kernels share a log if and only if they share an id |
| StartupCommand.QuotedIff | enterprise_gateway/services/processproxies/distributed.py:165-175 | A text is left unquoted if and only if it is a non-empty run of ASCII letters, digits and the signs `@%_+=:,./-` |
| StartupCommand.BuildStartupCommand | enterprise_gateway/services/processproxies/distributed.py:147-179 | The concatenation loops build the specified command; a local kernel gets its argument list as it is |
| Hosts.CountsOverRuns | enterprise_gateway/services/processproxies/distributed.py:25-62 | On every run, a host's count is the number of kernels mapped to it plus the number of launches that found their own id still mapped to it |
| Hosts.CountsAreExact | enterprise_gateway/services/processproxies/distributed.py:25-62 | When no launch finds its id still mapped, every host's count is the number of kernels mapped to it |
| Hosts.CleanupUndoesLaunch | enterprise_gateway/services/processproxies/distributed.py:36-41 | Cleaning up a fresh launch restores the table if and only if the host's name is not empty; cleaning up again changes nothing |
| Hosts.UnpinnedChoiceIsLeast | enterprise_gateway/services/processproxies/distributed.py:43-47 | An unpinned launch goes to a host whose count is a minimum |
| Hosts.PinnedLaunchPlaces | enterprise_gateway/services/processproxies/distributed.py:181-187 | A pinned least-connection launch maps its kernel to its host and counts it there, and nowhere else |
| Hosts.UnpinnedLaunchPlaces | enterprise_gateway/services/processproxies/distributed.py:181-187 | An unpinned one does so on the first of the least loaded hosts; without hosts it changes nothing |
| Hosts.CleanupUnplaces | enterprise_gateway/services/processproxies/distributed.py:36-41 | A cleanup unmaps and uncounts a kernel mapped to a named host, and changes nothing otherwise |
| Hosts.InitFills | enterprise_gateway/services/processproxies/distributed.py:59-62 | An empty table gets exactly the listed hosts, each once in the order of first mention, with no kernels; any other stays as it is |
| Hosts.FirstMinIsFirst | enterprise_gateway/services/processproxies/distributed.py:47-47 | Of several minima the first in insertion order is taken |
| Hosts.UnpinnedLaunchesStayBalanced | enterprise_gateway/services/processproxies/distributed.py:181-187 | From equal counts, unpinned launches are dealt out in list order: each count is the number of complete rounds plus one once its turn has come, so no two differ by more than one |
| Hosts.UnpinnedLaunchesGoRound | enterprise_gateway/services/processproxies/distributed.py:188-195 | Round-robin: as many consecutive unpinned launches as there are hosts go once round the list from wherever the counter stands |
| Hosts.RoundRobinIsFair | enterprise_gateway/services/processproxies/distributed.py:188-195 | With pinned launches among them, each position is taken once, unless the launch whose turn it was is pinned: then not at all |
| Hosts.DispatchedInTurn | enterprise_gateway/services/processproxies/distributed.py:188-195 | Every launch, pinned or not, uses up one turn |
| Hosts.TrackKernelOnHost.AddKernelId | enterprise_gateway/services/processproxies/distributed.py:31-34 | Maps the kernel and counts it on its host |
| Hosts.TrackKernelOnHost.DeleteKernelId | enterprise_gateway/services/processproxies/distributed.py:36-41 | Uncounts and unmaps a kernel mapped to a named host; anything else is left alone |
| Hosts.TrackKernelOnHost.MinOrRemoteHost | enterprise_gateway/services/processproxies/distributed.py:43-47 | The requested host, else the first least loaded one, else an error for an empty table |
| Hosts.TrackKernelOnHost.InitHostKernels | enterprise_gateway/services/processproxies/distributed.py:59-62 | An empty table gets every listed host with count zero, in first-mention order |
| Hosts.DistributedProcessProxy.DetermineNextHost | enterprise_gateway/services/processproxies/distributed.py:181-195 | Least-connection chooses and counts; round-robin takes the counter's position and moves it, also for a pinned launch |
| Hosts.DistributedProcessProxy.UnregisterAssignedHost | enterprise_gateway/services/processproxies/distributed.py:197-199 | Only least-connection proxies uncount their kernel |
| Namespaces.DeletionsHitOwnNamespaces | enterprise_gateway/services/processproxies/k8s.py:157-208 | On every run with distinct pod names and no outside actor, whatever a launch or termination of a kernel deletes is the namespace a launch of that kernel created, or is gone already; it is no namespace that was there before |
| Namespaces.CollisionDeletesForeign | enterprise_gateway/services/processproxies/k8s.py:172-201 | Whenever two kernels share a pod name there is a run at whose end a termination of the one deletes the namespace of the other |
| Namespaces.DefaultPodNamesAreDistinct | enterprise_gateway/services/processproxies/k8s.py:278-279 | With ids that are printed UUIDs, pod names made of user and id meet the distinctness that safe deletion needs |
| Namespaces.LaunchMarksItsOwn | enterprise_gateway/services/processproxies/k8s.py:314-339 | A launch that goes through marks its namespace for deletion if and only if neither the client nor the shared setting names one, and what it marks is its own |
| Namespaces.LaunchIntoClientNamespace | enterprise_gateway/services/processproxies/k8s.py:320-339 | A namespace named by the client is the kernel's, unmarked, and the cluster is unchanged |
| Namespaces.LaunchIntoSharedNamespace | enterprise_gateway/services/processproxies/k8s.py:324-331 | Without one and with the shared setting it is the gateway's, unmarked, and the cluster is unchanged |
| Namespaces.LaunchIntoOwnNamespace | enterprise_gateway/services/processproxies/k8s.py:351-400 | Otherwise a launch goes through if and only if the API accepted and either the name was free and the role binding made, or found during a restart, or the name was taken during a restart; the namespace is then the pod's name, and one created for a failing launch is deleted |
| Namespaces.TerminationForgetsIff | enterprise_gateway/services/processproxies/k8s.py:157-228 | A termination forgets its pod if and only if the pod was missing or reported terminated, or the marked namespace of a kernel not restarting was gone or reported so; it dooms that namespace and changes nothing else |
| Namespaces.RestartingAsSet | enterprise_gateway/services/kernels/remotemanager.py:244-247 | Whether a kernel is restarting is what was last set, until the gateway restarts |
| Namespaces.TerminationDeletesIff | enterprise_gateway/services/processproxies/k8s.py:157-208 | A termination deletes the namespace if and only if it is marked, the kernel is not restarting, it has a pod and neither deleting the pod nor asking for its status raised; during a restart it leaves the cluster alone |
| Namespaces.MissingPodLeavesNamespace | enterprise_gateway/services/processproxies/k8s.py:157-208 | After a termination that found the pod missing, on every run, nobody asks for the deletion of the kernel's namespace until its pod is located again or the kernel launched again |
| Namespaces.RestartKeepsNamespace | enterprise_gateway/services/processproxies/k8s.py:351-400 | However a kernel's restart is interleaved with everything else, its namespace is still there and its own at the end |
| Namespaces.OwnershipSurvives | enterprise_gateway/services/processproxies/k8s.py:439-451 | Whatever happens between, loading gives back the namespace and the mark that were last saved |
| Namespaces.RunKeepsInv | enterprise_gateway/services/processproxies/k8s.py:351-400 | On every run every mark, in memory or saved, is on the kernel's own pod name, and every owner in the cluster is right |
| Namespaces.KubernetesProcessProxy.CreateKernelNamespace | enterprise_gateway/services/processproxies/k8s.py:351-400 | Creates, reuses during a restart, or raises; a failed role binding deletes what was just created |
| Namespaces.KubernetesProcessProxy.DetermineKernelNamespace | enterprise_gateway/services/processproxies/k8s.py:314-339 | The client's namespace, else the gateway's where shared, else the pod's name, made or taken over exactly when the launch goes through, and marked |
| Namespaces.KubernetesProcessProxy.TerminateContainerResources | enterprise_gateway/services/processproxies/k8s.py:157-237 | Pod first, then the marked namespace; the proxy forgets its pod exactly when the termination counts as done |
| Namespaces.KubernetesProcessProxy.GetProcessInfo | enterprise_gateway/services/processproxies/k8s.py:439-445 | What is saved rebuilds the proxy without its pod |
| Namespaces.KubernetesProcessProxy.LoadProcessInfo | enterprise_gateway/services/processproxies/k8s.py:447-451 | Namespace and mark are taken over |
| PodName.SubstitutionEvaluates | enterprise_gateway/services/processproxies/k8s.py:239-273 | For every template of literals without opening braces and well-formed placeholders, and whatever the values hold, substitution is the one-pass evaluation, given up exactly when a variable is missing or both kinds of double braces are left |
| PodName.SubstitutionFailsIffMissing | enterprise_gateway/services/processproxies/k8s.py:239-273 | With brace-free values it is given up if and only if a variable is missing |
| PodName.MatchesPlaceholder | enterprise_gateway/services/processproxies/k8s.py:247-248 | The pattern matches a placeholder with any blanks inside, and nothing more than it |
| PodName.MatchesNothingElse | enterprise_gateway/services/processproxies/k8s.py:247-248 | What the pattern matches is a placeholder whose name is a letter followed by letters, digits and underscores |
| PodName.KeywordsAreGiven | enterprise_gateway/services/processproxies/k8s.py:285-289 | A template finds the kernel's id and the environment's `KERNEL_` names in lower case, each with the value last given, the id with the kernel's own |
| PodName.SafeTemplateSubstitute | enterprise_gateway/services/processproxies/k8s.py:239-273 | The left-to-right loop that collects missing names computes the specified substitution |
| PodName.TemplateNamesThePod | enterprise_gateway/services/processproxies/k8s.py:275-303 | The pod is named after the evaluated template, or after user and id when a variable is missing or braces are left |
| PodName.StrippingLeavesTheWords | enterprise_gateway/services/processproxies/k8s.py:305-310 | Collapsing runs and stripping hyphens leaves exactly the words of the lowered text, joined by single hyphens |
| PodName.NormalisedIsLabel | enterprise_gateway/services/processproxies/k8s.py:305-310 | Every pod name uses only `0-9a-z-` without leading, trailing or doubled hyphen (section 2.1 of RFC 1123, length aside), and is empty if and only if the text has no digit or letter |
| PodName.NormalisedIsIdempotent | enterprise_gateway/services/processproxies/k8s.py:305-310 | Normalising a pod name changes nothing |
| PodName.NormalisedKeepsAlnums | enterprise_gateway/services/processproxies/k8s.py:305-310 | A pod name has the digits and letters of the lowered text, all of them, in their order |
| PodName.Normalise | enterprise_gateway/services/processproxies/k8s.py:305-310 | The replace and the two stripping loops compute the specified name |
| PodName.DetermineKernelPodName | enterprise_gateway/services/processproxies/k8s.py:275-312 | Default name, plain name or substituted template, then normalised |
| PodName.DefaultNameEndsWithId | enterprise_gateway/services/processproxies/k8s.py:278-279 | A default pod name ends with the kernel's id, whatever the user is called |
| PodName.DefaultNamesAreDistinct | enterprise_gateway/services/processproxies/k8s.py:278-279 | Default names of kernels with distinct ids of one length are distinct, even across users |
| GatewayClient.NothingIsLost | enterprise_gateway/client/gateway_client.py:335-382 | In every interleaving of the reader thread and callers, for every id the messages taken since its request was sent followed by those queued are the frames since then whose parent it is, or that have no parent and bear it themselves (or, for the dead id, bear none), in order |
| GatewayClient.FrameIsFiled | enterprise_gateway/client/gateway_client.py:349-362 | A frame that can be filed goes to the end of exactly one queue, of the id it is addressed to, and every other queue stays |
| GatewayClient.ReplyIsFiledUnderParent | enterprise_gateway/client/gateway_client.py:385-397 | A reply is filed under its parent's id; without one under its own, without either under the dead id |
| GatewayClient.RepliesAreFiled | enterprise_gateway/client/gateway_client.py:335-382 | For a request id that no frame without parent bears: what was taken since it was sent, followed by what is queued, are exactly the well-formed frames received since with that parent id, in order |
| GatewayClient.ExecuteRendersReplies | enterprise_gateway/client/gateway_client.py:158-229 | For such an id `execute` returns the in-order rendering of the frames whose parent is its request, up to the first look that finds none |
| GatewayClient.WhatExecuteShows | enterprise_gateway/client/gateway_client.py:172-208 | A stream contributes its text, a result its plain text or else its HTML, an error its name, value and traceback, anything else nothing; a message raises if and only if it lacks a key that is read of it |
| GatewayClient.ErrorIff | enterprise_gateway/client/gateway_client.py:172-187 | An error is reported if and only if an error message came before any message that lacks a key |
| GatewayClient.FirstMarkGoes | enterprise_gateway/client/gateway_client.py:399-404 | Marks are taken out from left to right, and nothing else is |
| GatewayClient.ConversionLeavesIff | enterprise_gateway/client/gateway_client.py:399-404 | A text is passed on as it is if and only if it has no mark in it |
| GatewayClient.RestartingAsSet | enterprise_gateway/client/gateway_client.py:242-258 | A restart is going on if and only if the client last said so |
| GatewayClient.ExecuteRendersItsOwn | enterprise_gateway/client/gateway_client.py:158-229 | Whatever frames arrive and whatever other requests receive, `execute` returns the in-order rendering of its own messages that arrive while the reader lives, up to the first look that finds none |
| GatewayClient.ConversationIsCompleteIff | enterprise_gateway/client/gateway_client.py:308-333 | What a call collects is a prefix of its own messages, and all of them if and only if each is there by the time it is looked for |
| GatewayClient.ReaderAliveIff | enterprise_gateway/client/gateway_client.py:349-380 | The reader is alive after a run if and only if every receive that failed, every text that was not JSON and every frame without parent header or message type fell into a restart |
| GatewayClient.MalformedFrameSilencesReader | enterprise_gateway/client/gateway_client.py:349-380 | A frame without parent header or message type, received outside a restart, ends the reader: nothing is filed under any id any more |
| GatewayClient.ConversionUnquotesIff | enterprise_gateway/client/gateway_client.py:399-404 | The conversion unquotes a Python 2 unicode literal if and only if its text neither contains the mark nor ends in the letter u |
| GatewayClient.KernelClient.Execute | enterprise_gateway/client/gateway_client.py:158-229 | The loop computes the specified outcome for any activity of other threads between its looks |
| GatewayClient.KernelClient.GetResponse | enterprise_gateway/client/gateway_client.py:308-333 | The oldest queued message, or a timeout that changes nothing |
| GatewayClient.KernelClient.ReadResponse | enterprise_gateway/client/gateway_client.py:349-367 | A frame is appended to the queue of its parent's id, or of its own id without one; one that cannot be filed ends the reader, except during a restart |
| GatewayClient.KernelClient.FailToReceive | enterprise_gateway/client/gateway_client.py:349-380 | A round of the loop that raises before there is a frame ends the reader, except during a restart |
| GatewayClient.KernelClient.SendRequest | enterprise_gateway/client/gateway_client.py:292-306 | A request starts with an empty queue of its own |
| Ports.LauncherFollowsServer | etc/kernel-launchers/python/scripts/launch_ipykernel.py:166-190 | With the same minimum size, the launcher accepts every range string the server accepts, with the same bounds, and the server accepts exactly the launcher's non-empty ranges with equal bounds or both bounds user ports |
| Ports.RangeReadsBack | enterprise_gateway/services/processproxies/processproxy.py:873-945 | A range written as `lower..upper` is read back as these bounds by the server if and only if they are equal, or user ports far enough apart; by the launcher if and only if equal or far enough apart |
| Ports.TriedIff | enterprise_gateway/services/processproxies/processproxy.py:970-998 | An attempt yields a port if and only if the range is not upside down and the system grants a free one; it is the one drawn, or the system's if none was |
| Ports.ProcessProxy.ValidatePortRange | enterprise_gateway/services/processproxies/processproxy.py:873-945 | Accepts exactly the server's ranges and sets their bounds |
| Ports.ProcessProxy.SelectSocket | enterprise_gateway/services/processproxies/processproxy.py:970-998 | Binds at the first attempt that works and gives up after one more failure than the retries allow |
| Ports.ProcessProxy.SelectPorts | enterprise_gateway/services/processproxies/processproxy.py:947-968 | When it returns: that many distinct, previously unbound ports inside the range, user ports if there is a range, all sockets released, within the retry budget; it fails only after a whole search has failed, and then the sockets opened so far are still bound |
| Ports.ProcessProxy.OpenSockets | etc/kernel-launchers/python/scripts/launch_ipykernel.py:297-309 | Sockets are held while others are sought, so their ports are distinct |
| Startup.DiffIsExactIff | enterprise_gateway/services/processproxies/processproxy.py:1648-1653 | The printed time difference is right if and only if its milliseconds are zero or at least 100 |
| Startup.TimedOutAsComputed | enterprise_gateway/services/processproxies/processproxy.py:1643-1653 | Between current times the check compares the number of whole seconds the clock has moved |
| Startup.NeverEarlyIffWhole | enterprise_gateway/services/processproxies/processproxy.py:1470-1484 | No launch times out early, whenever it begins, if and only if the timeout is a whole number of seconds and the clock is not set back by more than the timeout meanwhile |
| Startup.TimesOutWithinASecond | enterprise_gateway/services/processproxies/processproxy.py:1470-1484 | A launch one second over its timeout is always found out |
| Startup.WhatDecides | enterprise_gateway/services/processproxies/container.py:249-274 | For each outcome of an iteration, and for waiting on, exactly what clock, container status, error states, host and receipt showed |
| Startup.ContainerProcessProxy.ConfirmRemoteStartup | enterprise_gateway/services/processproxies/container.py:249-274 | If the clock advances by the poll interval in each iteration, the loop ends within (timeout + 1) / interval + 1 iterations, with the first decision that is not to wait on; a whole-second timeout is never early |
| Startup.ContainerProcessProxy.HandleTimeout | enterprise_gateway/services/processproxies/processproxy.py:1470-1478 | The check against the launch timeout, by way of the printed difference |

## Left out

- LogPath.LaunchesIff: is about the shell of Shell.dfy, which refuses every unquoted pipe, group, pattern, expansion, brace, tilde and exclamation mark; a real shell takes some of these literally in some places, and may keep some names read-only. What `nohup` makes of its arguments is not part of this model.
- SpecCache.CoherentOverRuns: covers moves only of a cached spec to a free name with no other event pending about either name; a spec name lies in one directory only, and the miss path of a lookup is one step. Names are ASCII.
- KernelLimits.KernelLimitHolds: asks that each stored session that can be revived sits under its own kernel id, as every save leaves it; a file edited by hand may not. The same holds for KernelLimits.UserLimitHolds and the two exact conditions.
- SessionRuns.FilesRecoverEveryRun: the store has one writer, and so it has in SessionRuns.CountIsShortByUncounted and SessionCounts.CountOnEveryRun; only the Gateway and KernelLimits machines have a step for other gateways.
- Gateway.RunKeepsTables: is about runs without takeovers, in which other gateways store sessions under their own ids and under the user they are live under here.
- Lifecycle.LiveIff: is about runs without persistence, as are Lifecycle.InFlightIff and Lifecycle.RegisteredIff; with it a lookup or start-up also brings stored sessions in, as Lifecycle.CheckRevives and Gateway.ResumeKeepsTheLiving say.
- Payload.OtherVersionsAreRejected: leaves out that the source then tries the payload as one of version 0.
- Restart.RestartsExclude: is about restarts issued through the mapping manager; auto-restarts set the flag themselves.
- Namespaces.DeletionsHitOwnNamespaces: assumes distinct pod names and that nothing but the gateway uses them as namespace names; Namespaces.DefaultPodNamesAreDistinct supplies distinctness for default names only.
- GatewayClient.ExecuteRendersItsOwn: takes arrival in time as given by batches between looks, so the shorter timeout after an idle status is not modelled; content values are strings.
- Rendezvous.ResponseManager.ProcessConnection: the receipt of a whole connection and its post are one step.
- GatewayClient.ReaderAliveIff: is about a client that is not shut down.
- Ports.ProcessProxy.SelectPorts: ports taken by other processes appear as refused attempts only.
- Payload.DecodeUndoesEncrypt: ciphers and JSON are arbitrary functions that undo themselves; the version-0 payload is left out.
- Limits are fixed during a run; dynamic configuration reload is left out.
- The environment handed to a launch is fixed per step; what jupyter_client keeps of it between launches is not part of this model.
- The session dictionary that the save hook rewrites in place is modelled by writing the rewritten session back into the map; no other alias of it is modelled.
- The webhook session store keeps the same map and lists as the file store and moves each session over HTTP instead of a file; the simple session list is a table of rows behind the sessions handler that no limit or lookup reads; the launchers' environment merging runs in the kernel's own process before any of the protocols here begin. None of the properties above turns on them.
- Tornado handlers, mixins, traitlets and the application class; SSH, sockets, tunnels, signals; Docker, YARN and Conductor proxies; R and Scala launchers; the image puller; the website.
- The length limit of DNS labels, which the source does not check either.
