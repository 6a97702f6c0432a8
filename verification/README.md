# Verified models of the realm node systems

This project models four groups of small concurrent systems under `pkgs/` and proves what they keep over
whole runs.

1. **`http_fqdn` node attestation** (`Wire`, `SuccessQuota`, `Attestation`, `AttestationSafety`,
   `AttestationTheorems`, `AttestationCompleteness`, `AttestationExactly`, `ProcessLimits`,
   `AttestationServer`, `Responder`, `ResponderExactly`, `EndToEnd`). A transition system whose steps are the locked sections of the server plugin and of the
   agent attempts, on a hostile network: payloads, challenges, ready messages and fetched bodies are
   arbitrary, and agents read clocks of their own. `Configure` may replace the server at any time while
   old sessions go on. The classes in `AttestationServer` and `Responder` are the stateful code; each
   method is proved to take exactly the step of the transition system.
2. **Transparent capture** (`Capture`, `CaptureExactly`, `CaptureWorker`, `DnsCapture`, `Routes`,
   `Controller`, `ControllerExactly`). The BPF hooks, one step per hook call, with map eviction as a free step, and the worker that looks up what it
   accepted; the DNS peer table; route choice; and the per-workload controller with every handle it opens,
   while any number of gate requests wait.
3. **Reconciliation and accounting** (`Register`, `Transfer`, `CounterLedger`, `ByteLedger`, `QuotaGate`).
   `spire-register` stopped after any command, byte accounting over counter resets, invocations and missing
   data, and the quota daemon with a crash or an exception between any two of its effects.
4. **Identity observation** (`Stanzas`, `Holders`, `Collector`, `ScrapeCache`). The unit-state parser, the
   remembered state of each workload certificate, the parallel collector under every interleaving, and the
   cached samples that are judged again at scrape time.

Runs are sequences of actions, and a theorem about runs holds for every sequence. The modules named `Exactly`
characterise single steps inside every run: each states, in terms of the state before and the input, if and only
if a thing happens and what it then leaves, with limits written as numbers. Machine integers are modelled
where their width matters: ports as 16 bits, counters as 64 bits. Times are nanoseconds and `Unix` rounds towards
the past.

What the models take as given: signatures cannot be forged, hashes are injective and random IDs are fresh; the
clock of one host does not go back; the kernel gives a connection tuple to a new socket only after the close
callback of the old one, and never a mapped source address to an IPv6 connection; deleting an absent SPIRE entry
succeeds; one replaced file appears whole or not at all; X.509 times are whole seconds. Text is a sequence of
characters, one per byte.

## Where the code and the promise differ

- **Attestation limits.** The documentation (`docs/realm-http-attestation.md:98-124`) gives the limit of six
  approvals per node and minute per plugin process. The code keeps the list in the server object, which every
  `Configure` replaces. `ProcessQuotaExactly` proves that the promise holds exactly for processes configured at
  most once; `SlidingQuota` proves it for each configured server. The limit of 32 pending sessions is kept in the
  server object too: `ProcessCapacityExactly` proves the same exact condition for it, with a run of 33 sessions.
- **Approval after the deadline.** `BoundedSuccess` bounds the last expiry check of an approval by 120 seconds.
  The charge reads the clock again: `DeadlineHoldsExactly` proves that approvals keep the deadline exactly when
  that reading is never later than the check, and `LateCharge` gives the failing runs.
- **Listener ports.** `validate` computes `DNSBase+8` in 16 bits. `OverlapExcludedExactly` proves that the TCP
  port is kept out of the DNS range exactly for a base below 65528.
- **Entry IDs.** `NodesClashExactly` gives the exact pairs of node names whose entries can share an ID: one
  continues the other with a colon.
- **Interrupted registration.** Running the same manifest again always converges. Running a different one after
  an interruption leaves exactly the entries named by `OrphansExactly`.
- **Redirected sockets.** The map's key leaves out the remote address. A socket that was redirected once keeps its
  record, and if it later connects straight to another loopback address on the proxy port under a client's source
  address, that client is misrouted (`SharedKeyMisroutes`). `NeverMisroutesExactly` proves that redirected clients
  are never misrouted exactly when no socket that carries a record makes such a connect. A straight reconnect to the
  proxy itself is answered with the old destination (`StaleReconnect`), and a lookup that comes after its client has
  closed can find the next owner of the tuple (`ReusedTuple`).
- **Transfer count.** The count can exceed the traffic. `NeverOvercountsExactly` gives the schedules for which it
  never does, whatever the traffic: those in which no look reads a counter again, never reset in between, after a
  look past it, that is a look at another invocation or one that found no data. `BlankLookOvercounts` shows the last
  case for a unit that was never restarted. `Balance` accounts for every byte on every schedule.

## Model

| member | source | states |
|---|---|---|
| Wire.ProofRoundTrip | pkgs/realm-node-attest/protocol.go:169-215 | a signed proof that fits verifies under the signer's JWK only, and returns the exact bytes signed |
| Wire.WindowIsExact | pkgs/realm-node-attest/protocol.go:158-167 | the floored window check of an issued challenge passes, on any clock, exactly from the second of issue until its expiry, which lies within 120 s of issue |
| Wire.HonestDocumentsFit | pkgs/realm-node-attest/protocol.go:103-117 | every document honest parties exchange fits the 8 KiB limit, for all valid names and all 64-bit expiry times |
| SuccessQuota.LiveIsSuffix | pkgs/realm-node-attest/server.go:224-233 | on an ascending list the minute filter drops exactly a prefix |
| SuccessQuota.ChargeTracks | pkgs/realm-node-attest/server.go:224-240 | after any charge the pruned list is still the tail of the full success history, and any seven successes in a row span a minute |
| SuccessQuota.AdmitsExactly | pkgs/realm-node-attest/server.go:224-240 | a charge is refused exactly when six successes of the whole history lie in the last minute, although only the pruned list is kept |
| SuccessQuota.WindowHolds | pkgs/realm-node-attest/server.go:224-240 | no half-open minute of a spaced history holds more than six successes |
| SuccessQuota.ClosedMinuteHoldsSeven | pkgs/realm-node-attest/server.go:229-230 | the bound is tight: a closed minute can hold seven |
| SuccessQuota.SuccessSlice.Charge | pkgs/realm-node-attest/server.go:224-240 | the loop that filters into the front of its own backing array equals the pure filter, and admits exactly below six |
| SuccessQuota.SuccessSlice.Append | pkgs/realm-node-attest/server.go:231-238 | appending in place or into a larger copy adds one time at the end |
| Attestation.Registry | pkgs/realm-node-attest/server.go:48-89 | the FQDN table of a valid configuration is the exact inverse of its name table |
| AttestationSafety.StepExtends | pkgs/realm-node-attest/server.go:91-222 | no step rewrites what a session, an attempt or a server generation was created with, makes a settled session or a used attempt pending again, or takes back a signature or an approval |
| AttestationSafety.RunExtends | pkgs/realm-node-attest/server.go:91-222 | the same from any moment of a run to any later one: signatures and approvals are append-only |
| AttestationSafety.FlagsKept | pkgs/realm-node-attest/server.go:150-222 | in each step a session has left exactly when its close has run to the end, and at most once |
| AttestationSafety.ActivesKept | pkgs/realm-node-attest/server.go:122-143 | each step keeps every generation's active map equal to its sessions in service, under their own IDs, at most 32 |
| AttestationSafety.GaugeKept | pkgs/realm-node-attest/metrics.go:68-101 | each step keeps every node's pending gauge equal to its sessions in service over all generations, also across a new registration |
| AttestationSafety.SignedKept | pkgs/realm-node-attest/agent.go:56-87 | each step keeps that an honest attempt has signed at most one document, which names its FQDN, trust domain and key |
| AttestationSafety.ApprovalsKept | pkgs/realm-node-attest/server.go:150-205 | each step keeps every approval backed by its own settled session, no session twice, and by the honest signature its key calls for |
| AttestationSafety.QuotaKept | pkgs/realm-node-attest/server.go:191-240 | each step keeps each generation's success lists in step with the approvals it returned; failed proofs charge nothing |
| AttestationSafety.InvHolds | pkgs/realm-node-attest/server.go:91-240 | all of these hold in every reachable state |
| AttestationTheorems.InjectiveAgreement | pkgs/realm-node-attest/server.go:150-205 | in every run, whatever the agents' clocks read, each approval names the one node registered for the session's FQDN; if the key is an honest attempt's, that attempt runs on that FQDN and domain and signed this session's challenge bytes and nothing else; no session and no honest attempt is approved twice |
| AttestationTheorems.OneApprovalPerAttempt | pkgs/realm-node-attest/agent.go:56-87 | two approvals never share a session or an honest attempt |
| AttestationTheorems.SessionConservation | pkgs/realm-node-attest/server.go:207-222 | in every interleaving of the two close sections with everything else, each generation serves at most 32 sessions, each session leaves at most once, and each pending gauge is the number of sessions in service |
| AttestationTheorems.BoundedSuccess | pkgs/realm-node-attest/server.go:168-194 | the last expiry check of an approval comes neither before its challenge nor from 120 s after it, and its charge not before that check |
| AttestationTheorems.SlidingQuota | pkgs/realm-node-attest/server.go:224-240 | in every run, every half-open minute holds at most six approvals of a node by one server |
| AttestationCompleteness.HonestRunApproved | pkgs/realm-node-attest/server.go:91-205 | from every reachable state with a free place, an honest exchange ends in approval under the node's Agent ID, whatever other sessions, attempts and configurations do in between, if the agent's clock is in the window, the server's checks come before expiry and there is quota at the charge |
| AttestationExactly.VerifiesExactly | pkgs/realm-node-attest/protocol.go:185-215 | a body verifies to given bytes exactly when it is a document of at most 8192 bytes in which the holder of the expected Ed25519 key signed those bytes under the protocol's own type |
| AttestationExactly.AdmitsByHistory | pkgs/realm-node-attest/server.go:224-240 | in every reachable state the pruned list admits exactly when the node has fewer than six approvals by that server in the last sixty seconds |
| AttestationExactly.ApprovedExactly | pkgs/realm-node-attest/server.go:180-205 | in every run an approval is added exactly by the second half of a verification whose session is fetching and not closed, whose fetch has not ended, whose clock check lies between issue and expiry, whose body is the session's challenge signed with its key, and whose node has quota; and it names exactly that session, node, Agent ID and selector |
| AttestationExactly.ClosedNeverApproved | pkgs/realm-node-attest/server.go:191-194 | once a session is closed no approval in any continuation names it |
| AttestationExactly.CloseEndsApproval | pkgs/realm-node-attest/server.go:191-214 | the same from the close itself on |
| AttestationExactly.ClosesExactly | pkgs/realm-node-attest/server.go:207-222 | in every run a session is closed exactly by the first section of a close and goes out of service exactly by the second |
| AttestationExactly.FetchesExactly | pkgs/realm-node-attest/server.go:150-190 | in every run a session is used up exactly by the first verification while it is open, fetches exactly if that carries its own ready message of version 1 before the expiry, and stops with what comes back |
| AttestationExactly.BeganExactly | pkgs/realm-node-attest/server.go:91-144 | in every run a session is added exactly by a request of at most 8192 bytes and version 1, for a registered FQDN and with an Ed25519 key, to a server with fewer than 32 sessions in service; it has fresh random values, the server's names, the requester's key and an expiry 120 seconds on |
| AttestationExactly.SignedExactly | pkgs/realm-node-attest/agent.go:56-87 | in every run an attempt signs exactly when it is pending and the challenge names its FQDN, trust domain, server ID and key and expires after now and within 120 seconds; it signs the exact bytes, once |
| AttestationExactly.RespondsExactly | pkgs/realm-node-attest/agent.go:56-103 | in every run an attempt is used up exactly by the first challenge given to it while open, and closed exactly by its close |
| AttestationExactly.AttemptsExactly | pkgs/realm-node-attest/agent.go:29-52 | in every run an attempt begins exactly for two well-formed names, and begins open |
| AttestationExactly.LabelExactly | pkgs/realm-node-attest/protocol.go:29 | a label passes exactly if it is one lower-case letter or digit, or two with at most 61 letters, digits and hyphens between them |
| AttestationExactly.FqdnExactly | pkgs/realm-node-attest/protocol.go:89-99 | a name passes exactly if it has at most 253 characters and is two or more such labels joined by dots |
| AttestationExactly.NodeExactly | pkgs/realm-node-attest/server.go:63-84 | a node's policy passes exactly with a label, an FQDN and one to sixteen usable addresses, as many different ones as entries |
| AttestationExactly.ConfigExactly | pkgs/realm-node-attest/server.go:48-89 | a configuration passes exactly with a metrics address, the transport trust flag, a trust domain, a port from 1 to 65535, at least one node, passing nodes, and as many FQDNs as nodes |
| AttestationExactly.ConfiguredExactly | pkgs/realm-node-attest/adapters.go:183-218 | in every run a server is added exactly by a passing configuration; it starts empty and knows each node under its FQDN and no other |
| EndToEnd.HonestEndToEnd | pkgs/realm-node-attest/agent.go:56-87 | the same in one interleaving of server, agents and the node's responder: the proof is put after it is signed, kept among other requests, and the server finishes with exactly what a GET between its two halves returned |
| ProcessLimits.SevenAfterConfigure | pkgs/realm-node-attest/adapters.go:183-218 | a run with two configurations in which one instant holds seven approvals of one node |
| ProcessLimits.OneGenerationWindow | pkgs/realm-node-attest/adapters.go:183-218 | a process configured at most once keeps six per node and minute |
| ProcessLimits.ProcessQuotaExactly | docs/realm-http-attestation.md:98-124 | the documented six per node and minute per process hold for all runs exactly when the process is configured at most once |
| ProcessLimits.ActiveBound | pkgs/realm-node-attest/server.go:122-143 | a server's active table has exactly as many entries as it has sessions in service |
| ProcessLimits.ThirtyThreeAfterConfigure | pkgs/realm-node-attest/adapters.go:183-218 | a run with two configurations and 33 sessions in service |
| ProcessLimits.OneServerCapacity | pkgs/realm-node-attest/server.go:122-125 | a process configured at most once keeps 32 sessions in service |
| ProcessLimits.ProcessCapacityExactly | docs/realm-http-attestation.md:98-124 | the documented 32 pending sessions per process hold for all runs exactly when the process is configured at most once |
| ProcessLimits.LateCharge | pkgs/realm-node-attest/server.go:189-197 | for every delay and every wait that puts the check before expiry, a run whose one approval is checked and charged at those times |
| ProcessLimits.DeadlineHoldsExactly | pkgs/realm-node-attest/server.go:189-197 | over all runs whose approvals wait at most so long between check and charge, every charge comes before the 120 s deadline exactly when that wait is zero |
| AttestationServer.CheckAddresses | pkgs/realm-node-attest/server.go:66-82 | the loop over pinned addresses accepts exactly lists of distinct usable ones, compared after parsing |
| AttestationServer.NewServer | pkgs/realm-node-attest/server.go:48-89 | the loop over policies, in any map order, accepts exactly the valid configurations and builds their registry |
| AttestationServer.ServerPlugin.ConfigurePlugin | pkgs/realm-node-attest/adapters.go:183-218 | accepted exactly for a valid configuration with SPIRE's own trust domain and a working metrics listener; then a new generation with empty tables, names registered, old generations untouched; otherwise nothing changes |
| AttestationServer.ServerPlugin.Begin | pkgs/realm-node-attest/server.go:91-144 | takes exactly the begin step and succeeds exactly for an admissible request |
| AttestationServer.ServerPlugin.StartVerify | pkgs/realm-node-attest/server.go:150-170 | takes exactly the first step of a verification: one try per session, and only for its own ready message before expiry |
| AttestationServer.ServerPlugin.FinishVerify | pkgs/realm-node-attest/server.go:180-205 | takes exactly the second step: the one approval it may add is the one it returns; an invalid proof, an ended session (closed, expired or cancelled) and a rate refusal are reported each exactly in its own case |
| AttestationServer.ServerPlugin.MarkClosed | pkgs/realm-node-attest/server.go:207-214 | takes exactly the first section of a close; only one caller goes on |
| AttestationServer.ServerPlugin.Leave | pkgs/realm-node-attest/server.go:215-221 | takes exactly the second section of a close |
| AttestationServer.AgentAttempt.Respond | pkgs/realm-node-attest/agent.go:56-87 | takes exactly the respond step of the system: one try, signs exactly the bytes given and only for a matching challenge; reports ready exactly when the responder took the proof, but what was signed stays signed |
| AttestationServer.AgentAttempt.Close | pkgs/realm-node-attest/agent.go:89-103 | asks once for the deletion of exactly the proof that was published |
| Responder.StoreInvariant | pkgs/realm-node-attest/responder_linux.go:71-180 | in every reachable state: at most four proofs, the gauge is their number, published = held + deleted + expired + overwritten, and each body verifies for its own ID and this FQDN |
| Responder.GetServesFresh | pkgs/realm-node-attest/responder_linux.go:102-110 | a GET never finds a proof that has expired |
| Responder.StaleIsStoredNotServed | pkgs/realm-node-attest/responder_linux.go:148-170 | a proof that expires between its check and its insertion is stored, and no GET from then on finds it |
| Responder.PublishedIsServed | pkgs/realm-node-attest/responder_linux.go:81-180 | an honest proof published with room is served unchanged at every later time before it expires, whatever happens to other IDs |
| Responder.HonestParses | pkgs/realm-node-attest/protocol.go:217-237 | the responder's check accepts an honest proof at every time of the challenge's window and returns its challenge |
| ResponderExactly.ParsesExactly | pkgs/realm-node-attest/protocol.go:217-237 | the responder's check accepts exactly a fitting document signed with its own key over a current challenge for this FQDN that names that key |
| ResponderExactly.DeleteExactly | pkgs/realm-node-attest/responder_linux.go:171-180 | in every run DELETE takes away exactly the proof it names, counts it as deleted exactly if it was held, and changes nothing else |
| ResponderExactly.GetExactly | pkgs/realm-node-attest/responder_linux.go:71-120 | in every run GET takes away exactly the proofs whose last second has come by their own reading of the clock, counts them as expired, and changes nothing else |
| ResponderExactly.PutExactly | pkgs/realm-node-attest/responder_linux.go:141-170 | in every run a PUT that is acceptable under its own ID and finds its ID held or fewer than four proofs left stores exactly its body and expiry, counts one publication, and an overwrite exactly if one was held |
| ResponderExactly.PutRefusedExactly | pkgs/realm-node-attest/responder_linux.go:141-170 | in every run any other PUT publishes nothing, and changes nothing at all unless its document was acceptable |
| Responder.ProofStore.ExpireLocked | pkgs/realm-node-attest/responder_linux.go:71-79 | the deletion loop, in any map order and with one clock reading per entry, removes exactly the stale entries and counts each once |
| Responder.ProofStore.Put | pkgs/realm-node-attest/responder_linux.go:141-170 | takes exactly the PUT step, and reports success exactly when a proof was published |
| Responder.ProofStore.Delete | pkgs/realm-node-attest/responder_linux.go:171-180 | takes exactly the DELETE step |
| Responder.ProofStore.Get | pkgs/realm-node-attest/responder_linux.go:81-120 | takes exactly the GET step and returns the stored body, never an expired one |
| Capture.SocketsHold | pkgs/realm-agent/bpf/realm.bpf.c:141-166 | in every run a socket's storage is its own latest redirected connect, a live connection goes where its latest connect went, and no two live connections share a full tuple |
| Capture.EntriesHold | pkgs/realm-agent/bpf/realm.bpf.c:168-196 | in every run each map entry was written by a socket that is still live under that key, and is that socket's own record |
| Capture.OneClientPerKey | pkgs/realm-agent/bpf/realm.bpf.c:27-34 | two live sockets that reach the worker never share a key |
| Capture.EntryIsWriters | pkgs/realm-agent/bpf/realm.bpf.c:168-196 | in every run an entry is what its writer last asked for exactly when the writer's last connect was redirected |
| Capture.NoMisroutedTcp | pkgs/realm-agent/bpf/realm.bpf.c:141-196 | over all interleavings with eviction and tuple reuse, a lookup under the key of a client that reaches the worker finds that client's own record exactly when the entry's writer did not connect straight to another loopback address on the proxy port; a redirected client's record is what it asked for |
| CaptureWorker.StaleReconnect | pkgs/realm-agent/bpf/realm.bpf.c:141-151 | connect out, close, connect straight to the proxy port: the old destination is found |
| CaptureWorker.SharedKeyMisroutes | pkgs/realm-agent/bpf/realm.bpf.c:27-34 | for every loopback address beside the worker's on the proxy port, a run in which a live, redirected and accepted client is answered with another socket's destination |
| CaptureWorker.NeverMisroutesExactly | pkgs/realm-agent/bpf/realm.bpf.c:69-75 | whatever addresses sockets that carry a record may connect to straight, redirected clients are never misrouted exactly when none of them is another loopback address on the proxy port |
| Capture.PeerNameExactly | pkgs/realm-agent/bpf/realm.bpf.c:198-227 | in every run, the peer name shown is the one asked for exactly when the latest connect was redirected or no earlier redirected record of the family remains; otherwise it is that record's |
| Capture.CloseDeletesOwnEntry | pkgs/realm-agent/bpf/realm.bpf.c:190-194 | a close callback removes no entry written by a socket with another cookie, even if tuples were shared |
| Capture.FreeKeyIsEmpty | pkgs/realm-agent/bpf/realm.bpf.c:168-196 | nothing is found under a key that no live socket has |
| CaptureExactly.ConnectExactly | pkgs/realm-agent/bpf/realm.bpf.c:141-151 | in every run a connect goes straight exactly to a loopback address other than port 53; any other is redirected and recorded, or fails without room; nothing else changes |
| CaptureExactly.NothingEscapes | pkgs/realm-agent/bpf/realm.bpf.c:69-151 | in every run every live connection ends on 127.0.0.0/8 or ::1, at the worker exactly if it asked for anything but a loopback address other than port 53 |
| CaptureExactly.EstablishedExactly | pkgs/realm-agent/bpf/realm.bpf.c:168-189 | in every run and for both families, a completed connect puts the socket's record under its own namespace, source and port if the map takes it, and touches no other key |
| CaptureExactly.RedirectIsRecorded | pkgs/realm-agent/bpf/realm.bpf.c:178-188 | in every run and for both families, after a redirected connect completes, its key holds what it asked for |
| CaptureExactly.EntryEndsExactly | pkgs/realm-agent/bpf/realm.bpf.c:178-194 | in every run a step ends an entry exactly if it evicts it, closes its writer, or completes another recorded connection under the same key |
| CaptureExactly.RedirectStaysRecorded | pkgs/realm-agent/bpf/realm.bpf.c:178-194 | from its completion on, through every continuation without such a step, the key of a redirected connect holds what it asked for |
| CaptureExactly.CloseExactly | pkgs/realm-agent/bpf/realm.bpf.c:190-194 | in every run the close of a live socket takes away exactly the entries that socket wrote |
| CaptureExactly.AcceptExactly | pkgs/realm-agent/worker.go:19-47 | in every run the worker accepts exactly live connections that end at its own address, and holds the client's own key, connection and redirected destination |
| CaptureWorker.AcceptedHolds | pkgs/realm-agent/worker.go:19-47 | in every run the worker looks an accepted connection up under the key that the hook used, and its client keeps tuple and record while it lasts |
| CaptureWorker.OriginalDestination | pkgs/realm-agent/worker.go:49-68 | twenty lookups return the first entry present or the first other error, and nothing exactly when all twenty miss |
| CaptureWorker.LookupIsOwnClient | pkgs/realm-agent/worker.go:49-68 | in every run, a lookup for an accepted connection that lasts finds the record it was accepted with exactly when the entry's writer did not connect straight to another loopback address on the proxy port; it finds its client's record at all only while that client is live under the key |
| CaptureWorker.AnswerIsOwnClient | pkgs/realm-agent/worker.go:49-68 | the same for the first hit of lookups spread over any moments of a run |
| CaptureWorker.ReusedTuple | pkgs/realm-agent/worker.go:49-68 | after close and reuse of the tuple a lookup finds the next owner's destination |
| DnsCapture.ValidatePorts | pkgs/realm-agent/config.go:118-126 | fills the two defaults and accepts exactly the ports the 16-bit comparison accepts; an accepted DNS range stays inside the port space and off port 53 |
| DnsCapture.OverlapExcludedExactly | pkgs/realm-agent/config.go:124-126 | accepted TCP ports stay out of the DNS range exactly for bases below 65528 |
| DnsCapture.PortsExactly | pkgs/realm-agent/config.go:118-126 | apart from base 65528, accepted are exactly the ranges of eight ports that end by the last port and hold neither port 53 nor the TCP port, with a TCP port other than 53 |
| DnsCapture.SendsKeep | pkgs/realm-agent/bpf/realm.bpf.c:105-128 | over any sends the peer table only grows at its end, has no repeats and at most eight entries |
| DnsCapture.RestoreUndoesRedirect | pkgs/realm-agent/bpf/realm.bpf.c:198-227 | after any sends, a datagram from a slot port handed out at any earlier time is shown as coming from its original destination |
| DnsCapture.PortsDiffer | pkgs/realm-agent/bpf/realm.bpf.c:130-140 | two peers of one family never share a port |
| DnsCapture.NinthPeerRefused | pkgs/realm-agent/bpf/realm.bpf.c:105-138 | a query is refused exactly when the socket has no storage or eight other peers fill the table, which then stays as it was |
| DnsCapture.OnlyLoopbackLeaves | pkgs/realm-agent/bpf/realm.bpf.c:130-135 | for every table, send and base, whatever is let through goes to 127.0.0.0/8 or ::1; a send to a port other than 53 is let through, unchanged, exactly when its target is such an address |
| DnsCapture.QueryExactly | pkgs/realm-agent/bpf/realm.bpf.c:105-140 | a query goes to 127.0.0.1 or ::1 on the base plus its peer's slot; a known peer keeps its slot and a new one takes the next while fewer than eight are taken |
| DnsCapture.RestoreExactly | pkgs/realm-agent/bpf/realm.bpf.c:198-227 | for every table, address and base, an address outside the eight ports or off the loopback is shown as it is, any other as the peer of its slot if that is of its family |
| DnsCapture.UdpSocket.DnsSlot | pkgs/realm-agent/bpf/realm.bpf.c:105-128 | the single pass over the fixed slots finds the peer or the first empty slot, and updates the table accordingly |
| Routes.BestIsFirstLongest | pkgs/realm-agent/config.go:189-199 | the remembered route is the first among the longest matching ones, and there is none exactly when nothing matches |
| Routes.ContainsExactly | pkgs/realm-agent/config.go:189-195 | a prefix contains exactly the addresses of its family in the numeric interval that its leading bits begin |
| Routes.ForbiddenExactly | pkgs/realm-agent/config.go:181-187 | the listed prefixes forbid exactly nineteen blocks given by their first and last addresses |
| Routes.TargetExactly | pkgs/realm-agent/config.go:189-213 | the answer is the socket of the first longest matching route if it has one; else the Internet socket exactly for an address outside those blocks and a listed port, if it is set; else a refusal |
| Routes.ForbiddenNeedsRoute | pkgs/realm-agent/config.go:200-207 | a reserved address is reached only through a declared route that contains it on that port |
| Routes.OrderDoesNotMatter | pkgs/realm-agent/config.go:189-213 | any permutation of the routes decides alike when no two share a port and a block |
| Routes.CheckForbidden | pkgs/realm-agent/config.go:181-207 | the loop over the reserved prefixes says exactly whether one contains the address |
| Routes.FindTarget | pkgs/realm-agent/config.go:189-213 | the loops return the first longest matching route's socket, else the Internet socket exactly for an unreserved address and a listed port, else a refusal |
| Controller.LiveWorkersAreCaptured | pkgs/realm-agent/agent.go:36-50 | in a disciplined log every live worker's capture is attached |
| Controller.ReleasedForGood | pkgs/realm-agent/agent.go:36-50 | a released handle is never open again and never released twice |
| Controller.ExpiredExactly | pkgs/realm-agent/agent.go:55-65 | the empty timer fires exactly when every reading over a span of at least thirty seconds found the cgroup empty |
| Controller.LiveInstanceStays | pkgs/realm-agent/agent.go:521-542 | in every run an instance whose worker lives is released or replaced only for a gate request with another key on an empty cgroup, or after thirty seconds of empty readings |
| ControllerExactly.WaitsExactly | pkgs/realm-agent/agent.go:245-266 | in every run a request waits exactly when an arrival of that number passed the process, user and network checks, has not entered since, and every earlier one had; it waits with that arrival's key |
| ControllerExactly.ReadyExactly | pkgs/realm-agent/agent.go:245-296 | in every run READY is answered exactly to a request with such an arrival, when a live worker holds its key, or when no populated cgroup of another key is in the way and a worker was started and its key saved |
| ControllerExactly.EnterExactly | pkgs/realm-agent/agent.go:266-296 | in every run, what entering leaves: the request gone from the queue; an instance with its key or in its way kept; any other closed and replaced exactly if start and save succeed |
| ControllerExactly.StrangerChangesNothing | pkgs/realm-agent/agent.go:245-266 | a request without such an arrival changes nothing and is never answered READY |
| ControllerExactly.TurnExactly | pkgs/realm-agent/agent.go:521-549 | in every run a turn keeps a live instance not empty for thirty seconds and adds its reading; it closes any other, then starts the saved key exactly if a process of the saved cgroup passes every check with that key and the start succeeds, and forgets it exactly if the cgroup is gone and the file could be removed |
| Controller.WorkloadController.PeerProcess | pkgs/realm-agent/agent.go:92-141 | whichever call fails, only a successful check leaves the process directory open, and the pidfd never stays open |
| Controller.WorkloadController.ProcessNetwork | pkgs/realm-agent/agent.go:174-232 | whichever call fails, the cgroup and namespace handles stay open exactly on success, and no other handle does |
| Controller.WorkloadController.CloseInstance | pkgs/realm-agent/agent.go:36-50 | the worker is gone before the capture is released, and every handle of the instance is released once |
| Controller.WorkloadController.Acquire | pkgs/realm-agent/agent.go:298-361 | whichever call fails, nothing opened so far stays open; otherwise exactly the deferred handles are open |
| Controller.WorkloadController.Start | pkgs/realm-agent/agent.go:298-401 | succeeds exactly without a fault, with the worker alive under an attached capture; on every fault nothing it opened stays open and no worker is left |
| Controller.WorkloadController.Displace | pkgs/realm-agent/agent.go:267-284 | keeps, refuses or clears the instance exactly by worker, key and cgroup, and clears by closing it |
| Controller.WorkloadController.Arrive | pkgs/realm-agent/agent.go:245-265 | a request waits exactly if its process, user and network checks passed, with its own key and three handles; one that fails a check holds nothing; instance, state file and other requests stay as they were |
| Controller.WorkloadController.Enter | pkgs/realm-agent/agent.go:266-296 | takes exactly the locked step; READY means the current instance has the request's key, and a live worker unless it died before the answer; the request's handles are owned or closed and the other waiting requests keep theirs |
| Controller.WorkloadController.Recover | pkgs/realm-agent/recovery.go:47-116 | installs an instance exactly when a process of the saved cgroup carries the saved key and start succeeds, leaves no other handle open, and forgets the state file exactly when its removal works |
| Controller.WorkloadController.ExpiredEmpty | pkgs/realm-agent/agent.go:55-65 | the timer field follows the readings and the result is the one specified for them |
| Controller.WorkloadController.ReconcileOnce | pkgs/realm-agent/agent.go:521-549 | takes exactly one reconcile turn: release, with or without the state file, then recover |
| Controller.Lifetime | pkgs/realm-agent/agent.go:245-549 | for every sequence of arriving and entering gate requests, turns and worker exits: at each moment live workers are captured, no handle is opened or released twice, in the end exactly the handles of the current instance and of the waiting requests are open, and instance, state file and queue are those of the specified run |
| Register.NodesClashExactly | pkgs/realm-helper/spireregister.go:171-186 | two nodes can share an entry ID exactly when they are equal or one continues the other with a colon |
| Register.IdsAreUnique | pkgs/realm-helper/spireregister.go:171-186 | for node names without colons, equal IDs mean equal node and name |
| Register.PlanReconciles | pkgs/realm-helper/spireregister.go:87-126 | the commands of an uninterrupted run end in the declared entries, without own stale ones, the rest as before |
| Register.ManagedIdsMatch | pkgs/realm-helper/spireregister.go:87-126 | of the IDs it manages the server holds exactly the declared ones with their declared entries; all others are untouched |
| Register.Idempotent | pkgs/realm-helper/spireregister.go:87-126 | a second run changes nothing |
| Register.InterruptedRunConverges | pkgs/realm-helper/spireregister.go:87-151 | stopping after any number of effects and running again ends where one run would have |
| Register.ManyInterruptions | pkgs/realm-helper/spireregister.go:87-151 | the same after any number of interrupted runs |
| Register.OrphansExactly | pkgs/realm-helper/spireregister.go:108-126 | interrupting one manifest and running another leaves exactly the written entries that neither the second manifest nor the state file names |
| Register.EveryItemServedExactly | pkgs/realm-helper/spireregister.go:98-107 | every declared entry is served exactly when no later one takes its ID for something else |
| Register.Registrar.Reconcile | pkgs/realm-helper/spireregister.go:87-151 | killed after any number of commands it has performed exactly the prefix of the plan those commands allow, and the state file changes exactly at the end of a complete run, which leaves the reconciled server; an entry without parent, identity or selectors stops it before any effect |
| Register.Registrar.DeleteStale | pkgs/realm-helper/spireregister.go:108-126 | the deletion loop removes exactly the planned IDs that its commands allow |
| Transfer.Account | pkgs/adonbox-quota.py:44-59 | the loop over the two directions counts each exactly once against the right old counter |
| Transfer.SegmentsConserveBytes | pkgs/adonbox-quota.py:44-59 | over any samples the final figures of all month segments sum to the counted increments |
| CounterLedger.Balance | pkgs/adonbox-quota.py:44-59 | for one counter and every sequence of traffic, resets, restarts, returns and looks: moved + counted again = counted + taken by resets + still unread |
| CounterLedger.AgainExactly | pkgs/adonbox-quota.py:44-59 | following the looks one by one finds a repeated reading exactly when some look reads a counter again, never reset in between, after a look past it |
| ByteLedger.LedgersFollow | pkgs/adonbox-quota.py:44-59 | what account counts over the readings, with missing data read as zero, is what the ledgers of the two directions count |
| ByteLedger.Balance | pkgs/adonbox-quota.py:44-59 | the same balance for account and both directions together |
| ByteLedger.CountNeverExceedsTraffic | pkgs/adonbox-quota.py:44-59 | without a repeated reading, traffic = counted + taken by resets + still unread |
| ByteLedger.UnbrokenLookIsExact | pkgs/adonbox-quota.py:44-59 | after any history, two looks with nothing but traffic between them count exactly that traffic |
| ByteLedger.ReturningOvercounts | pkgs/adonbox-quota.py:44-59 | in every schedule with a repeated reading, one byte moved before its first look is counted twice |
| ByteLedger.BlankLookOvercounts | pkgs/adonbox-quota.py:21-27 | one invocation, no reset: readings n, no data, n count 2n bytes for n moved |
| ByteLedger.NeverOvercountsExactly | pkgs/adonbox-quota.py:44-59 | a schedule of resets, restarts and looks, with or without data, never overcounts, whatever the traffic, exactly when it has no repeated reading |
| QuotaGate.StaysShut | pkgs/adonbox-quota.py:99-131 | from any state in step with its disk, once the saved usage of a month has reached the limit, every later start is in a later month, through all crashes, faults and restarts |
| QuotaGate.QuotaStaysShut | pkgs/adonbox-quota.py:99-131 | the same for every run from an empty disk |
| QuotaGate.DiskIsSavedSamples | pkgs/adonbox-quota.py:75-87 | in every run with crashes and faults the disk holds the accounting of exactly the samples saved, so the months' final figures sum to their increments |
| QuotaGate.MarkerIsExact | pkgs/adonbox-quota.py:112-121 | every completed turn leaves the marker present exactly when the saved usage has reached the limit |
| QuotaGate.MarkerExactly | pkgs/adonbox-quota.py:106-131 | in every run the marker is there after a step exactly by the saved usage if the step marks, else exactly if it was there or the step is an exception |
| QuotaGate.CommandsExactly | pkgs/adonbox-quota.py:106-131 | in every run a step starts the unit exactly if it ends a turn below 100 000 000 000 bytes that found the marker or is its process's first, and stops it exactly if it marks a running unit at the limit or is an exception |
| QuotaGate.TwoTurns | pkgs/adonbox-quota.py:99-126 | a process that boots starts the unit in its first turn exactly below the limit, and in its second exactly if only the first was at the limit |
| QuotaGate.FaultRecovers | pkgs/adonbox-quota.py:99-131 | after a fault at any point, the next undisturbed turn starts the unit exactly below the limit and stops it again exactly at it |
| QuotaGate.QuotaDaemon.LoopTurn | pkgs/adonbox-quota.py:106-126 | one turn of the loop takes exactly the five steps of the state machine |
| Stanzas.Cut | pkgs/realm-identity-metrics/workloads.go:131-134 | splits at the first equals sign, and fails exactly when there is none |
| Stanzas.ParseWorkloadActivity | pkgs/realm-identity-metrics/workloads.go:99-151 | the loop with its commits equals the specified one-pass scan |
| Stanzas.ScanIsBlocks | pkgs/realm-identity-metrics/workloads.go:124-147 | the one-pass scan equals reading the lines grouped at blank lines, block by block |
| Stanzas.AcceptsExactly | pkgs/realm-identity-metrics/workloads.go:99-151 | the exact accepted inputs: every block blank or naming an expected unit with a state, no unit twice, every unit named; the result's keys are exactly the configured units and no state is empty |
| Stanzas.RoundTrip | pkgs/realm-identity-metrics/workloads.go:99-151 | distinct units with non-empty newline-free states, printed in any order and with either field first, parse back to exactly that map |
| Holders.Update | pkgs/realm-identity-metrics/workload_state.go:16-41 | the assignments of one record call, in order, give the specified entry and error |
| Holders.HolderTable.RecordHolder | pkgs/realm-identity-metrics/workload_state.go:16-48 | each unit's entry is the one its history of calls determines; an error is returned exactly for a failure |
| Holders.HolderTable.RecordUnavailable | pkgs/realm-identity-metrics/workloads.go:153-162 | when unit states cannot be read, every target is recorded as failed exactly once, each with its own clock readings, and no other unit changes |
| Holders.CallsAreConserved | pkgs/realm-identity-metrics/workload_state.go:16-41 | successes + errors + dormant reads are the calls, and the two 64-bit counters hold their counts |
| Holders.FingerprintIsLast | pkgs/realm-identity-metrics/workload_state.go:28-33 | the remembered fingerprint is that of the last success, through any failures after it |
| Holders.RotationStep | pkgs/realm-identity-metrics/workload_state.go:28-31 | a call moves the rotation time exactly when it is a success whose predecessor among the successes had another fingerprint |
| Holders.RotationIsLastChange | pkgs/realm-identity-metrics/workload_state.go:16-41 | over any history the rotation time is that of the last such change, zero exactly when there is none |
| Holders.EntryExactly | pkgs/realm-identity-metrics/workload_state.go:16-41 | over any history the entry shows the last call: its time, its verdict, and its certificate's times exactly if that was a certificate in order; the observation is dated by the last success |
| Holders.ReportedExactly | pkgs/realm-identity-metrics/workload_state.go:50-55 | a unit is reported observed, or dormant, exactly by its most recent call, its age and its certificate's expiry |
| Collector.Gather | pkgs/realm-identity-metrics/workloads.go:203-211 | the receiving loop fails exactly when some result failed, and its time is the least over the successful ones that are not dormant, zero if none |
| Collector.SummariseOne | pkgs/realm-identity-metrics/exporter.go:243-251 | one more result keeps the summary exact |
| Collector.InvHolds | pkgs/realm-identity-metrics/workloads.go:163-212 | in every interleaving each job taken is held by one worker or has one result, which is in the channel or received once |
| Collector.ThreeStepsEach | pkgs/realm-identity-metrics/workloads.go:163-212 | no run of steps that can happen is longer than three per workload, and a run has received every result exactly when it is that long |
| Collector.StuckIsDone | pkgs/realm-identity-metrics/workloads.go:163-212 | no deadlock: a step is enabled exactly until all results are received |
| Collector.CollectionIsExact | pkgs/realm-identity-metrics/workloads.go:163-212 | when it ends, under every interleaving, each target was recorded exactly once, is dormant exactly for an inactive unit and failed for any unit neither active nor inactive, and the outcome is the exact summary |
| Collector.RecordedExactly | pkgs/realm-identity-metrics/workloads.go:163-200 | when it ends, under every interleaving, the call recorded for a target says what the worker that finished it met: the holder's answer at an active unit unless cancelled, without canary or failed; there are at most sixteen workers |
| Collector.OrderDoesNotMatter | pkgs/realm-identity-metrics/workloads.go:163-212 | two collections with the same recorded calls have the same outcome, whatever the order of workers |
| ScrapeCache.FirstSeenCovers | pkgs/realm-identity-metrics/certificates.go:46-50 | the kept certificates are distinct and cover exactly the fingerprints in the file |
| ScrapeCache.FirstSeenExactly | pkgs/realm-identity-metrics/certificates.go:31-55 | the kept certificates are those of the blocks whose fingerprint is new there, in file order |
| ScrapeCache.LoadBundle | pkgs/realm-identity-metrics/certificates.go:24-62 | accepts exactly bundles of authorities with one to sixty-four distinct certificates, in order of first appearance |
| ScrapeCache.CollectBundle | pkgs/realm-identity-metrics/exporter.go:122-137 | emits both validity samples of each certificate and the two counts |
| ScrapeCache.BundleExactly | pkgs/realm-identity-metrics/exporter.go:122-137 | both ends of each certificate's validity under its fingerprint, in order, then the number of certificates and of those valid at the time |
| ScrapeCache.CurrentSamples | pkgs/realm-identity-metrics/exporter.go:258-300 | the indexing and rewriting loops equal the elementwise judgement of fresh samples; a stale cache leaves only zeroed indicators |
| ScrapeCache.CountActive | pkgs/realm-identity-metrics/exporter.go:283-290 | the map loop, in any order, counts exactly the fingerprints in force |
| ScrapeCache.CountByFingerprint | pkgs/realm-identity-metrics/certificates.go:73-75 | counting by fingerprint and whole second equals counting the certificates accepted one by one at the nanosecond |
| ScrapeCache.ScrapeCountsCurrent | pkgs/realm-identity-metrics/exporter.go:258-290 | for every loaded bundle and fresh scrape, the samples are those a collection at the scrape time would have produced |
| ScrapeCache.FreshExactly | pkgs/realm-identity-metrics/exporter.go:258-291 | within 65 seconds every sample stays in its place; an agent turns invalid exactly if its node's identity has expired, an alias exactly if its time is up, and nothing else but the count changes |
| ScrapeCache.StaleExactly | pkgs/realm-identity-metrics/exporter.go:292-300 | later, or without a collection, exactly the agent and alias samples are shown, in order, as zero |
| ScrapeCache.StaleBundleIsSilent | pkgs/realm-identity-metrics/exporter.go:292-300 | a stale bundle collection is not reported at all |

## Left out

- AttestationServer.ServerPlugin.FinishVerify: the five-second fetch budget and caller cancellation are one input, `ended`.
- AttestationServer.ServerPlugin: the success times are a value that each call replaces; `SuccessQuota.SuccessSlice` is the in-place form of the same list.
- Collector.Gather: which of several errors is reported depends on completion order in the source; only whether there is an error is stated.
- Controller.WorkloadController.Enter: one step; requests that arrive while it runs only open and close handles of their own, and the limit of sixteen requests is not modelled.
- Register.Registrar.Reconcile: the sorted order of the manifest is any order of items; the certificate lifetime argument is not part of an entry.
- Cryptography, JSON, base64 and HCL decoding: documents are terms with a size, signatures an ideal oracle.
- HTTP, gRPC and Unix socket plumbing, TLS handshakes, plugin SDK types, address pinning of the proof fetch: only the accept and reject decisions are modelled.
- The responder's connection permits (`limitedListener`), the stream bookkeeping of `aidAttestation` and `Attest`, and the duration buckets and event counters of the metrics registry: not modelled.
- Kernel facts (peer credentials, cgroup files, namespaces, mounts, capabilities) and the path scan of `workloadCgroup`: inputs of the controller model.
- Controller shutdown in `serve`: its gate goroutines are not joined, so the handle properties are about gate requests, reconcile turns and recovery only.
- The worker's accept loop, DNS-over-HTTPS forwarding and the proxy and bridge commands: byte forwarding.
- The text that `parse_counter` and `load` read, and the readiness message of the quota daemon: a value they reject is the Fault action, and missing data is a look that reads zero.
- The agent, alias, canary and bootstrap collectors and `healthy`: their cached samples are rewritten by the modelled `currentSamples`, but how they are collected is not modelled.
- Prometheus text, logs and help tables, and all Nix, TOML, YAML and Nushell files: no behaviour of this kind.
