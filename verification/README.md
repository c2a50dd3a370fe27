# Verified model of ssh_transport_exporter

A Dafny model of the exporter's logic, with proofs. `dafny verify dfyconfig.toml` checks all
of it. One module stands for each component:

| file | component |
|---|---|
| `Bytes.dfy`, `Scanner.dfy` | the watcher that finds the identification string in the bytes as they are read |
| `Identification.dfy` | the identification string's parser, comment stripping, and the 257-byte line cap |
| `Errors.dfy` | wrapped errors, and the reasons derived from them |
| `KnownHosts.dfy` | host key verification against a known_hosts file |
| `HostPort.dfy`, `Normalize.dfy`, `Addresses.dfy` | host names, `host:port` strings, IP addresses and prefixes |
| `Urls.dfy`, `Targets.dfy`, `Authority.dfy` | taking a target apart, target patterns, and the checks that admit a request |
| `Config.dfy` | loading: inheritance, validation, compilation into modules |
| `Timeout.dfy`, `StatusRecorder.dfy`, `Handler.dfy` | the rest of the `/probe` handler, serving one request |
| `Probe.dfy`, `Collector.dfy` | a probe from dial to metrics |
| `Phases.dfy`, `Fields.dfy`, `Samples.dfy` | what holds of every probe, and what each field and each sample tells of the world |
| `Counting.dfy`, `Serving.dfy`, `Reloader.dfy`, `Shutdown.dfy` | requests, reloads and signals running at once |
| `EndToEnd.dfy` | the whole exporter, from the files on disk to the samples of a scrape |

Code that works by updating state is a class or a method with a loop, proved equal to a
function on values; the properties are then proved of the function. Concurrent code is a
state machine over atomic steps, and its properties hold in every state of every run.

## Assumptions

- **The environment of a probe** is a trace of events. `Phases.Rules` says what is assumed of
  it: a connection comes of a connection attempt; the identification string has been read
  before any key exchange callback; the host key is checked before the transport is ready; the
  abort returned at that moment, and nothing else, makes the handshake end in an abort.
  `Phases.Clock` says that time does not run backwards. Every lemma that needs either names it.
- **The known_hosts library** is modelled over the lines of a file, as the comment and the
  table of `internal/probe/classify_test.go:249-320` describe it: any line matching the address
  vouches for its key, be it plain or `@cert-authority`; `@revoked` applies to all hosts; a
  `@revoked` certificate is a `@revoked` line for the key inside; a certificate is never
  replaced by its key. Whether a certificate is in order by its type, principals, dates,
  options and signature is one boolean.
- **`netip.ParseAddr`** is an arbitrary partial function from text to addresses; shifting,
  masking and containment are concrete. **`url.Parse`** is modelled on the text of a target, down
  to the host and port; how these two are read is an arbitrary partial function again.
- **Errors** are trees of wrapped causes. As in Go's libraries, an `*net.OpError` is a net.Error and
  an `*os.SyscallError` is not; the Timeout method of each asks the error directly inside, and
  text added around an error has no such method. Under these rules a timeout would go untold if
  text stood between it and an `*net.OpError` around it, and in no other case (`Errors.DialReasons`,
  `Errors.KexReasons`). That is a condition on the shape of errors, not a fault: the dialer puts
  nothing but an OpError and a SyscallError around a cause, and the SSH library's text stands
  outside of these (`Errors.DialerReasons`, `Errors.HandshakeReasons`).
- **A page** that starts with an informational 1xx other than 101 would be counted under that code
  rather than the one the client gets; no other page is (`StatusRecorder.RecordedIsReceived`). The
  metrics handler does not write one.
- **A load** reads all its files at one moment.

## Where the code and its documentation differ

The model follows the code. Each difference has a lemma that says exactly when it shows.

- The documentation has a failed probe show 0 on the success gauge of the failed phase and of
  every later one, and leave out their durations (`README.md:426-429`). After a completed key
  exchange whose first host key was refused, and only then, `key_exchange_success` is 1 and the
  duration is there, while the error's phase is `key_exchange`: `Collector.FailedPhaseReportsZero`,
  with such a probe in `Collector.RefusedKeyShowsSuccess`.
- The comment on the check of a target (`internal/probehttp/probehttp.go:183-184`) says that it
  rejects any URL structure that parsing would silently drop. An empty query and an empty fragment
  are dropped all the same: "h?" is accepted for "h". An accepted target is a bare host with an
  optional port exactly if it does not end in "?" or "#", and what is dropped does not matter to the
  endpoint: `Authority.NothingIsDropped`, `Authority.EmptyQueryIsDropped`.
- The documentation calls a CA trusted when a `@cert-authority` line for the target has its key
  (`README.md:183-184`, `README.md:197-200`). The code asks whether the CA's key passes as a
  host key, which a plain line is enough for: `KnownHosts.TrustedAsDocumented`,
  `KnownHosts.TrustedByAPlainLine`. The verdict is not affected, only the reason.
- The comment on `serve` (`main.go:228-230`) says that requests in flight have drained when it
  returns. There are two ways for that to fail: the listener ends before the loop has taken a
  signal to terminate, so nothing drains, or the drain runs out of its ten seconds, and then
  `serve` can return without an error. `Shutdown.DrainedIff` says exactly which runs end with a complete drain, and
  `Shutdown.OnlyACompleteDrainDrains` that no other ending keeps the promise, with a run for each
  in `Shutdown.ListenerFailureDoesNotDrain` and `Shutdown.SlowRequestDoesNotDrain`.
- The comment on `normalize.Hostname` (`internal/normalize/normalize.go:6-7`) calls its result the
  canonical form. Normalizing that again changes it exactly if the name ended in two dots:
  `Normalize.HostnameTwice`.

## Model

| member | source | states |
|---|---|---|
| `Bytes.Spelled` | internal/probe/probe.go:220-231 | The prefix, separators and limits, spelled out in ASCII. |
| `Bytes.TrimmedLine` | internal/probe/probe.go:221 | Trimming takes one CR off the end, if there is one, and nothing else. |
| `Scanner.ScanConcat` | internal/probe/probe.go:217-235 | Scanning one read after another is scanning the two joined. |
| `Scanner.ChunkingIsIrrelevant` | internal/probe/probe.go:207-235 | However a stream is cut into reads, the watcher ends in the same state as one read of the whole. |
| `Scanner.ReceivedIsFinal` | internal/probe/probe.go:207-213 | Once set, the identification is unchanged by any later bytes. |
| `Scanner.StepDescribes` | internal/probe/probe.go:217-235 | One byte keeps the watcher's capped buffer in agreement with the lines of the whole, uncapped stream. |
| `Scanner.ScanMeaning` | internal/probe/probe.go:217-235 | The bounded automaton holds the first complete line starting with "SSH-", or, if there is none, the open line so far up to the cap. |
| `Scanner.ReceivedExactly` | internal/probe/probe.go:207-235 | The identification is received iff the reads so far contain a whole "SSH-" line, so in the read that delivers its newline; and it is that line, capped and less its CR. |
| `Scanner.IdentificationWatcher.Read` | internal/probe/probe.go:207-213 | A read advances the state by its bytes, stamps the time exactly when it completes the identification, and leaves the shared array untouched afterwards. |
| `Scanner.IdentificationWatcher.ScanLines` | internal/probe/probe.go:217-235 | The loop over a fixed array that the identification aliases refines the automaton on values. |
| `Identification.ParseServerIdentification` | internal/probe/probe.go:557-597 | The two loops and the cut compute the parser on values, with its four errors. |
| `Identification.ProtoversionsSpelled` | internal/probe/probe.go:562-566 | The two introductions that are accepted, spelled out in ASCII. |
| `Identification.AcceptedIsDenoted` | internal/probe/probe.go:557-597 | An accepted string is printable ASCII and equals "SSH-" proto "-" software, then nothing or a space and the comments. |
| `Identification.DenotedIsAccepted` | internal/probe/probe.go:557-597 | Every string of the grammar is accepted, with the fields the grammar gives it. |
| `Identification.ParseIsTheGrammar` | internal/probe/probe.go:557-597 | The parser returns a value iff the grammar of RFC 4253, section 4.2, denotes it. |
| `Identification.StrippedParsesAgain` | internal/probe/probe.go:599-603 | Stripping is idempotent and keeps conformance as the original had it; the stripped string parses to the same proto and software with no comments, and stays conformant if it was. |
| `Identification.StrippingCanMakeConformant` | internal/probe/probe.go:595-603 | The converse fails: a string over the length limit that becomes conformant once stripped. |
| `Identification.CapIsTransparent` | internal/probe/probe.go:229-233 | With the cap at 257 or more, the capped line parses as the whole line does, for every line. |
| `Identification.SmallCapIsNot` | internal/probe/probe.go:229-233 | For every smaller cap some line parses differently once capped. |
| `Identification.CapIsTight` | internal/probe/probe.go:229-233 | A cap is transparent to the parser iff it is at least 257, the limit and a CR LF. |
| `Identification.BoundedScanRefinesUnbounded` | internal/probe/probe.go:200-235 | Scanner and parser together give what parsing the first whole "SSH-" line of the stream would, however it was read. |
| `Errors.WrappedTimesOut` | internal/probe/probe.go:479-481 | Inside any layers an error is taken for a timeout iff it says so itself and no text lies inside an OpError, or there is no OpError and it was one to begin with. |
| `Errors.WrappingKeepsDialReason` | internal/probe/probe.go:474-499 | Any stack of text, SyscallErrors and OpErrors around any error leaves its dial reason as it was, iff it does not hide a timeout that the context does not outrank. |
| `Errors.WrappingKeepsKexReason` | internal/probe/probe.go:501-522 | The same for a failed handshake, where a failed negotiation outranks a timeout too. |
| `Errors.DialReasons` | internal/probe/probe.go:463-499 | Each cause of a failed dial gets its documented reason inside any stack of layers, unless the context has ended, which wins; except iff it is a timeout under text inside an OpError. |
| `Errors.NegotiationReasons` | README.md:522-526 | Each list the SSH library reports has its documented reason, as a table, and any other the general one. |
| `Errors.KexReasons` | internal/probe/probe.go:501-539 | The same for a handshake, including all negotiation failures. |
| `Errors.DialerReasons` | internal/probe/probe.go:474-499 | Each cause gets its documented reason as the dialer returns it, in an OpError, with or without a SyscallError. |
| `Errors.HandshakeReasons` | internal/probe/probe.go:501-539 | Each cause gets its documented reason as the handshake returns it: under text alone, or under text around an OpError, with or without a SyscallError. |
| `Errors.TextHidesTimeout` | internal/probe/probe.go:479-481 | Every timeout under text inside an OpError would lose its reason: a condition on shapes that the dialer and the handshake keep. |
| `KnownHosts.VerdictIsExact` | internal/probe/probe.go:410-459 | A key is verified iff the file vouches for it (nothing revoked, and the key is listed or its certificate is good and signed by a listed CA with an allowed algorithm); otherwise the reason is the one the lines call for. |
| `KnownHosts.RevocationDominates` | internal/probe/probe.go:429-439 | A revoked key or CA fails with the revoked reason, whatever lines come before or after. |
| `KnownHosts.AddingLinesKeepsVerified` | internal/probe/probe.go:410-440 | Lines added at either end, none of them @revoked, never undo a verification. |
| `KnownHosts.LineOrderIsIrrelevant` | internal/probe/probe.go:410-459 | Files with the same lines in any order and number give the same verdict and reason. |
| `KnownHosts.TrustedAsDocumented` | README.md:197-200 | The certificate-invalid reason agrees with "a @cert-authority line has the CA" iff the CA is not listed on plain lines alone. |
| `KnownHosts.TrustedByAPlainLine` | internal/probe/probe.go:429-438 | A file of one plain line that makes a CA count as trusted. |
| `KnownHosts.NoCallbackRejects` | internal/probe/probe.go:247-252 | Without a callback no key is verified and the reason is "rejected". |
| `KnownHosts.SignatureAlgorithms` | internal/probe/probe.go:169-180 | A CA signature with SHA-1 makes no certificate good; each of the eight default algorithms does. |
| `HostPort.AtoiOfItoa` | internal/probehttp/probehttp.go:192-199 | Printing an int and parsing it gives it back, over the 64-bit range. |
| `HostPort.PrintsDecimals` | internal/probehttp/probehttp.go:199 | Ports are printed digit by digit in base ten. |
| `HostPort.ReadsDecimals` | internal/probehttp/probehttp.go:192-198 | A plus sign or a zero in front does not matter to what is read; no digits are an error. |
| `HostPort.JoinedText` | internal/probehttp/probehttp.go:199 | A colon joins host and port, with brackets around a host that has one. |
| `HostPort.SplitJoined` | internal/probehttp/probehttp.go:199 | Splitting a joined address recovers host and port iff the host has no brackets. |
| `Normalize.HostnameTwice` | internal/normalize/normalize.go:8-10 | Normalizing twice is normalizing once iff the name had at most one trailing dot. |
| `Normalize.SameHostname` | internal/normalize/normalize.go:6-10 | Two names have one canonical form iff, less a dot at the end, they differ in ASCII case alone; and it has no capitals. |
| `Normalize.FinalDot` | internal/normalize/normalize.go:8-10 | One dot at the end makes no difference. |
| `Addresses.ContainsIsTopBits` | internal/config/target.go:113-127 | A prefix contains an address iff it has no zone, the same family and equal top bits; masking the prefix does not change that. |
| `Addresses.PrefixByText` | internal/config/target.go:113-118 | A prefix is read out of exactly the texts of an address without a zone, a slash, and a number of bits it has in plain decimals. |
| `Targets.BuildTarget` | internal/config/target.go:35-55 | No pattern ever compiles to the allow-all matcher. |
| `Targets.ResolveAllowedTargets` | internal/config/target.go:16-33 | The loop yields one matcher a pattern, in order, or the first bad pattern's error; an empty list is allow-all with the flag and an error without. |
| `Targets.TargetAllowed` | internal/probehttp/probehttp.go:202-209 | True iff some matcher matches. |
| `Targets.WildcardIsOneLabel` | internal/config/target.go:74-92 | Neither the parent nor anything two labels below it matches. |
| `Targets.BuildKeepsMeaning` | internal/config/target.go:35-127 | A compiled pattern matches exactly the hosts its text stands for. |
| `Targets.CompileKeepsMeaning` | internal/config/target.go:24-32 | A host passes a compiled list iff some pattern of the list stands for it, and no matcher is allow-all. |
| `Targets.NoListAllowsAll` | internal/config/target.go:57-60 | Every list leaves some host out. |
| `Targets.ForbiddenPatterns` | internal/config/target.go:35-44 | A list with an empty pattern, "*", a leading "**" or a zone never compiles. |
| `Targets.BuildsByText` | internal/config/target.go:35-127 | Exactly which patterns compile, by their text. |
| `Targets.CompilesByText` | internal/config/target.go:24-32 | A list compiles iff each of its patterns can. |
| `Urls.PlainByText` | internal/probehttp/probehttp.go:179-187 | Parsing finds nothing but a host and port in a target iff, less a "#" and a "?" at its end, it has no userinfo, path, query, fragment or control character and its host can be read; the host is then that of this part. |
| `Authority.AcceptedByText` | internal/probehttp/probehttp.go:178-200 | A target is accepted iff, less a "#" and a "?" at its end, it is a bare host with an optional readable port; host and port are then those. |
| `Authority.NothingIsDropped` | internal/probehttp/probehttp.go:183-187 | An accepted target is a bare host with an optional port as it stands iff it does not end in "?" or "#"; without these it has the same endpoint. |
| `Authority.EmptyQueryIsDropped` | internal/probehttp/probehttp.go:183-187 | "h?" is accepted and is not a bare host. |
| `Authority.DialledIsChecked` | internal/probehttp/probehttp.go:178-200 | Splitting the dialled target recovers the host the matchers saw and the port looked up, IPv6 and zones included, iff the name has no brackets; the lookup classification is then of that same host. |
| `Authority.ModuleIsTheOneNamed` | internal/probehttp/probehttp.go:66-77 | A request that names a module is decided by that module alone and goes by its name; a name there is no module of is 400 with the empty label; no name is "default". |
| `Authority.RejectionCodes` | README.md:472-477 | By the files and the request's text: 400 with the empty label iff the configuration lacks the module; 400 with its name iff the target is missing or, but for an empty query and fragment at its end, is not a bare host with a readable port; for the rest 403 iff the configuration does not permit the host and port, and a probe iff it does. |
| `Authority.AllowedIsPermitted` | internal/config/module.go:31-78 | A loaded module's matchers and ports allow a host and port iff the file's own patterns and ports permit them. |
| `Authority.AdmittedIsPermitted` | internal/probehttp/probehttp.go:71-100 | A request admitted under a loaded configuration goes to the host and port it names, which the files permit its module; the dialled string splits into just these iff the name has no brackets. |
| `Authority.AdmittedIsAuthorised` | internal/probehttp/probehttp.go:71-120 | What it is dialled with is the joined host and port, and the options that the files give its module. |
| `Authority.DefaultIsServed` | internal/config/config.go:102-104 | With a file that lists no modules, a request that names none is decided by the one module "default". |
| `Config.AlgorithmSet` | internal/config/config.go:30-38 | The set holds exactly the names of the lists. |
| `Config.ValidateAlgorithms` | internal/config/config.go:43-54 | An error iff some name is unknown, and it lists all of them in order. |
| `Config.Validate` | internal/config/config.go:113-157 | No error iff the module is well-formed; an error is one that the module bears out. |
| `Config.ResolveModules` | internal/config/config.go:109-160 | For every order of the map: success iff every module is individually well-formed, then the same map; a failure names a module that is to blame. |
| `Config.LoadRawConfig` | internal/config/config.go:86-163 | The same for a file, with the modules it lists, or "default" if it lists none, and with the allow-all flag taken in. |
| `Config.EmptyPortsDoNotInherit` | internal/config/config.go:130-136 | The top level's ports can make a difference to a module iff it leaves allowed_ports out; an explicit empty list is its own. |
| `Config.ResolvingTwice` | internal/config/config.go:102-160 | A resolved configuration loads again, and to itself. |
| `Config.Build` | internal/config/module.go:31-78 | For every order: success iff every module compiles, then the same map; a failure is a module's own. |
| `Config.Load` | internal/config/module.go:23-29 | A load succeeds iff the configuration decodes and each of its modules can be served, and its map depends on the files alone. |
| `Config.LoadSucceeds` | internal/config/config.go:109-160 | When that is, by the file: each module has a known_hosts file that parses, ports in 1..65535 with the default among them, known algorithms only, and targets that compile, or none at either level with the flag. |
| `Config.LoadedNames` | internal/config/config.go:102-104 | What is served are the modules listed, or "default" if none are, and never nothing. |
| `Config.LoadedDefault` | internal/config/config.go:102-136 | That module has the top level's default port or 22, its ports, targets and known_hosts file, and no algorithms of its own. |
| `Config.LoadedPorts` | internal/config/config.go:123-144 | In service the default port is an allowed one and the file's, every allowed port is in 1..65535, and they are those of the first level that lists any, or the default port. |
| `Config.LoadedTargets` | internal/config/config.go:106-119 | Allow-all iff the flag is set and neither level lists targets; else exactly the hosts that the module's patterns, or the top level's in their absence, stand for. |
| `Config.LoadedOptions` | internal/config/module.go:50-59 | A loaded module probes with the file's algorithms, all of them known, and strips comments if either level says so. |
| `Config.LoadedTrust` | internal/config/module.go:34-51 | A loaded module verifies exactly the keys that its own known_hosts file, or else the top level's, vouches for, and has that file's reason for any other. |
| `Config.LoadedAsConfigured` | internal/config/module.go:34-63 | The options of a loaded module are in every part those that the files give it. |
| `Timeout.TimeoutIsLargestThatFits` | internal/probehttp/probehttp.go:156-169 | The result is in (0, max]; if some whole-nanosecond timeout fits both the bound and the scrape less the offset, it is the largest such; otherwise it is max. |
| `StatusRecorder.RecordedIsReceived` | internal/probehttp/probehttp.go:128-150 | For every sequence of calls, the recorded code is the received one iff the first call is not informational. |
| `StatusRecorder.ReceivedIsFirstFinal` | internal/probehttp/probehttp.go:134-150 | The client receives the code of the first call that is a write or a code outside 100..199 but for 101, and otherwise 200. |
| `StatusRecorder.ResponseWriter.Do` | internal/probehttp/probehttp.go:128-150 | The server's writer sends the first final code and no later one. |
| `StatusRecorder.Recorder.WriteHeader` | internal/probehttp/probehttp.go:139-145 | Every call is passed on, and only the first is recorded. |
| `StatusRecorder.Recorder.Write` | internal/probehttp/probehttp.go:147-150 | A write is passed on and settles the recorded code. |
| `StatusRecorder.Recorder.Replay` | internal/probehttp/probehttp.go:122-124 | After any handler, recorder and client agree iff its first call is not informational. |
| `Handler.ProbeHandler.WriteError` | internal/probehttp/probehttp.go:172-175 | The client gets the code, and the request is counted once under it. |
| `Handler.ProbeHandler.Check` | internal/probehttp/probehttp.go:66-100 | The checks in turn compute the decision that the concurrent model takes in one step. |
| `Handler.ProbeHandler.ServeProbe` | internal/probehttp/probehttp.go:65-125 | One request leaves slots and gauge as they were, is counted once under its own label, and under the code the client gets unless the page starts with an informational one. |
| `Handler.RequestAlone` | internal/probehttp/probehttp.go:65-125 | The concurrent model's steps of a request, undisturbed, have that same effect: slots and gauge as before, one count, under the same label. |
| `Probe.CheckHostKey` | internal/probe/probe.go:318-323 | A verdict has a reason iff it is not "verified". |
| `Probe.Watch` | internal/probe/probe.go:307-347 | What callbacks and watcher leave behind, as functions of the events; only the first host key verdict is kept. |
| `Probe.Dial` | internal/probe/probe.go:254-300 | The fields of the lookup and the connection, or the error's phase and reason. |
| `Probe.Identify` | internal/probe/probe.go:349-362 | Version exchange fields, and the parsed string, stripped if so configured; an unparsable one is dropped. |
| `Probe.JudgeHandshake` | internal/probe/probe.go:364-381 | Success on the abort, else the phase and reason of the failure. |
| `Probe.JudgeHostKey` | internal/probe/probe.go:383-394 | A refused key outranks the handshake's own failure; success needs key exchange and verdict. |
| `Probe.Run` | internal/probe/probe.go:238-396 | The steps together compute the outcome, field by field. |
| `Phases.VerdictIsOfFirst` | internal/probe/probe.go:318-327 | The verdict is that of the first key offered. |
| `Phases.LaterOffersAreIgnored` | internal/probe/probe.go:324-327 | A host key offered again, at any later point, changes nothing in the result. |
| `Phases.SuccessOrErrorExactly` | internal/probe/probe.go:364-395 | On every trace phase and reason are set together; success excludes an error, and the lack of one means success iff no abort came without a host key. |
| `Phases.SuccessMeans` | internal/probe/probe.go:364-395 | Success iff no error; and iff connected, transport ready, and the first key offered passes verification. |
| `Phases.StagesNest` | README.md:493-495 | An abort implies a verdict, a verdict implies the identification string, and without an abort there are no algorithms. |
| `Phases.PhasesInOrder` | README.md:493-502 | Each phase's success implies the earlier ones', algorithms imply key exchange success, and an error's phase is the last one reached. |
| `Phases.FailedPhases` | README.md:426-429 | Neither the failed phase nor a later one has succeeded, except iff the transport got ready and the first host key was refused. |
| `Phases.PhasesFitInDuration` | internal/probe/probe_test.go:72-74 | No phase takes negative time, and together they fit in the probe's duration. |
| `Phases.ExportsFirstLine` | internal/probe/probe.go:349-362 | Version exchange succeeds iff the stream has a whole "SSH-" line, and what is exported is the parse of the first one, uncapped. |
| `Fields.StreamIsReads` | internal/probe/probe.go:207-213 | The stream is what the reads deliver, one after the other. |
| `Fields.ConnectionFields` | internal/probe/probe.go:239-300 | Lookup, connection, MSS and whole duration, each from the times and values of the world. |
| `Fields.DialFailure` | internal/probe/probe.go:279-286 | A dial that fails with a cause, as the dialer wraps it, has the phase reached and that cause's documented reason. |
| `Fields.HandshakeFailure` | internal/probe/probe.go:372-377 | The same for a handshake in which no host key was refused. |
| `Fields.HandshakeEnds` | internal/probe/probe.go:364-371 | The abort completes the key exchange without an error; no error at all is "user auth reached". |
| `Fields.RefusedKey` | internal/probe/probe.go:383-392 | A first host key that the known_hosts file does not vouch for has the reason the file's lines call for, whatever became of the handshake. |
| `Fields.RejectedKey` | internal/probe/probe.go:247-252 | With no callback every host key is "rejected". |
| `Fields.HandshakeSuccesses` | internal/probe/probe.go:349-394 | The stages' successes: a whole "SSH-" line, the abort, a verified first key; and the probe's. |
| `Fields.HandshakeTimes` | internal/probe/probe.go:332-351 | The version exchange lasts until the read that ends the identification string, the key exchange from then until the transport last got ready. |
| `Fields.HandshakeAlgorithms` | internal/probe/probe.go:336-341 | The algorithms are those of the last time the transport got ready, write being client to server and read server to client. |
| `Collector.Collect` | internal/collector/collector.go:257-352 | A sample is exported iff the result calls for it, and no series twice. |
| `Samples.ConnectionSamples` | internal/collector/collector.go:289-302 | Lookup, connection, MSS and duration samples: there iff the world had it so, with the world's values. |
| `Samples.SuccessSamples` | internal/collector/collector.go:312-351 | The success gauges, from the stream, the handshake's error and the first key. |
| `Samples.TimeSamples` | internal/collector/collector.go:313-344 | The stages' durations, from the times of the events they lie between. |
| `Samples.AlgorithmSamples` | internal/collector/collector.go:317-337 | Each algorithm sample, under its own label and direction, iff not empty and of the last time the transport got ready. |
| `Samples.IdentificationSamples` | internal/collector/collector.go:304-310 | The four labels are the text and fields of the first "SSH-" line, stripped if so configured, with its conformance. |
| `Samples.FailureSamples` | internal/collector/collector.go:346-348 | A failed dial or handshake is reported with its phase and its cause's documented reason. |
| `Samples.RefusalSample` | internal/collector/collector.go:346-348 | A host key not vouched for is reported with the known_hosts file's reason. |
| `Collector.ScrapeFacts` | internal/collector/collector.go:257-352 | Both hold of every probe's samples under the rules. |
| `Collector.FailedPhaseReportsZero` | README.md:426-429 | A failed probe's samples have 0 on the gauges of the failed and all later phases and none of their durations, iff it is not one whose transport got ready and whose first host key was refused; that one shows key_exchange_success 1 and its duration. |
| `Collector.RefusedKeyShowsSuccess` | README.md:426-429 | A probe under all the rules whose samples do not show its failure as documented. |
| `Collector.Scrape` | internal/collector/collector.go:257-352 | Probe and export together: the samples are the outcome's, and under the rules say one thing, in order. |
| `Serving.AccountedAlways` | internal/probehttp/probehttp.go:60-125 | In every reachable state slots, gauge and counters are counts of the requests at the respective points. |
| `Serving.SlotsAreAccounted` | internal/probehttp/probehttp.go:102-124 | With a limit, gauge ≤ slots taken ≤ limit, and slots are exactly the requests between acquire and release; once all requests are done nothing is left. |
| `Serving.RequestsNeverBlock` | internal/probehttp/probehttp.go:102-111 | In every reachable state each unfinished request can take its next step. |
| `Serving.FullMeansRefused` | internal/probehttp/probehttp.go:102-111 | A request that comes to the semaphore is refused with 503 iff as many requests as the limit hold a slot, and else takes one. |
| `Serving.RequestsAreConserved` | internal/probehttp/probehttp.go:66-125 | The counter's total is the requests past their count step, each counted once, under a label its own snapshot calls for. |
| `Serving.CountedLabels` | internal/probehttp/probehttp.go:66-77 | A counted request is under the module it names, or "default" if it names none, when its own snapshot has that, and else under none with 400. |
| `Serving.ServiceAlways` | main.go:163-176 | What every reload may rely on at each point, in every reachable state. |
| `Serving.LiveStep` | main.go:163-176 | A step never makes the live files older, and only a store changes the live modules, so a failed load leaves them. |
| `Serving.LiveNeverGoesBack` | main.go:159-176 | Over every run, the version behind the live modules never decreases. |
| `Serving.GaugeIsTrueWhenIdle` | main.go:142-176 | While no reload holds the mutex the gauge is 1 iff the last load succeeded, and then its map is live. |
| `Serving.DisagreementIsTheWindow` | main.go:167-173 | Otherwise a reload stands between its load and its store. |
| `Serving.SuccessfulReloadIsInService` | main.go:178-186 | A reload that answers success has put in service files at least as new as when it was asked for. |
| `Serving.ReloadsNeverDeadlock` | main.go:163-176 | While a reload is unfinished some reload can move. |
| `Serving.ReloadReachesItsEnd` | main.go:163-176 | From every reachable state at most nine steps of reloads end any given one, whoever holds the mutex. |
| `Serving.SnapshotIsTakenOnce` | internal/probehttp/probehttp.go:71 | A request reads the live pointer once. |
| `Serving.ProbeComesFrom` | internal/probehttp/probehttp.go:71-120 | Every started probe dials the target, with the options, that the map its own snapshot found live admits it with; a load of files that were on disk made that map. |
| `Serving.ProbesAreAuthorised` | internal/probehttp/probehttp.go:66-120 | In every interleaving, every probe started dials the host and port its request names, read back from the dialled string iff the name has no brackets, permitted by the files behind the one map its snapshot found live; with the options those files give the module the request names, or "default"; and as that module alone would have it. |
| `Reloader.ReloadMetrics.RecordLoad` | main.go:142-149 | The gauge is the outcome; the timestamp moves only on success. |
| `Reloader.ConfigReloader.Reload` | main.go:163-176 | One reload: success iff the files load, the new map iff success, the old one otherwise. |
| `Reloader.ReloadAlone` | main.go:163-176 | The concurrent model's steps of a reload, undisturbed, have that same effect and give back the mutex. |
| `Shutdown.InvAlways` | main.go:231-272 | The invariant of `serve` in every reachable state. |
| `Shutdown.ShutDownMeansTold` | main.go:245-252 | The server is told to shut down iff the loop took a termination signal. |
| `Shutdown.ReturnsAfterTheLoop` | main.go:231-272 | `shutdownDone` is closed at most once; `serve` returns only after it, with the loop over, and after a termination signal the drain is over or timed out. |
| `Shutdown.HangupsNeverEndTheLoop` | main.go:242-246 | The loop ends only by a termination signal or once the listener has returned. |
| `Shutdown.ReloadsAreHangups` | main.go:241-246 | The loop has started as many reloads as it took hangups. |
| `Shutdown.ReloadingUntilItEnds` | main.go:242-246 | From taking a hangup the loop is at that one reload until it ends. |
| `Shutdown.SignalIsTaken` | main.go:238-256 | A signal that finds the loop waiting and the channel empty starts one more reload if it is a hangup, and else the drain. |
| `Shutdown.NoSignalWhileDraining` | main.go:247-249 | From then on no signal reaches the loop. |
| `Shutdown.DrainCompletes` | main.go:251-256 | The end of every request in flight is all that a complete drain takes. |
| `Shutdown.NothingAfterReturn` | main.go:264-272 | After the return the loop starts no reload and changes nothing. |
| `Shutdown.NeverStuck` | main.go:261-272 | Once the listener has returned, some step of `serve`'s own can be taken until it returns. |
| `Shutdown.StepsLeadOn` | main.go:235-265 | Every own step brings the return one closer, and no step but taking a hangup, which costs one, moves it away. |
| `Shutdown.ReachesReturn` | main.go:261-272 | From every reachable state after the listener's return, at most four own steps lead to the return of `serve`; one of them may be the end of a reload, whose own steps, and those of one it waits for, `Serving.ReloadReachesItsEnd` bounds. |
| `Shutdown.DrainedIff` | main.go:228-272 | By the return the drain is complete iff a signal to terminate was taken and the drain did not run out of time. |
| `Shutdown.OnlyACompleteDrainDrains` | main.go:228-230 | No request is ever in flight at a return after an ending, iff that ending is the complete drain. |
| `Shutdown.ListenerFailureDoesNotDrain` | main.go:261-269 | A run that the listener's failure ends, with an error and a request in flight. |
| `Shutdown.SlowRequestDoesNotDrain` | main.go:251-271 | A run that a signal ends, without an error, with a request in flight when the drain times out. |
| `EndToEnd.VerifiedIsVouched` | README.md:189-190 | With options as configured, server_host_key_verify_success is 1 iff the probe connected and the configured known_hosts file vouches for the first host key. |
| `EndToEnd.SuccessIsDeserved` | internal/probe/probe.go:394 | With options as configured, success is scraped iff the probe connected, the transport got ready, and the configured known_hosts file vouches for the first host key. |
| `EndToEnd.SuccessIsVouchedFor` | README.md:189-190 | From end to end: in every interleaving and whatever the server does, a started probe's server_host_key_verify_success is 1 iff it connected and the known_hosts file, as one past load had it, of the module its request names, or "default", vouches for the first host key at the dialled target; if it does not, its reason is the one scraped; and under the rules success is 1 iff the transport got ready too. |

## Left out

- Timeout.TimeoutIsLargestThatFits: does not model float rounding or 64-bit overflow; the header is an exact real and the products are exact.
- Normalize.ToLower: does not model lower-casing beyond ASCII.
- Targets.NoListAllowsAll: takes it that strings of the letter "a" are not IP addresses, since the address parser is otherwise arbitrary.
- Scanner.IdentificationWatcher.ScanLines: does not model the growth of the buffer by reallocation; the array has its full 257 bytes from the start.
- Handler.ProbeHandler.ServeProbe: does not model panics in the page's handler, nor status codes that the HTTP server rejects.
- Serving.ProbeComesFrom: does not model edits between the files that one load reads; its reads are one step.
- Shutdown.NeverStuck: does not model a second termination signal, which ends the process rather than `serve`.
- Urls.Parse: does not model malformed escapes in userinfo, path or fragment, which answer 400 with or without the error; nor the reading of the host.
- The SSH library's handshake, signature and certificate checks, and certificates that sign certificates.
- Sockets, name resolution, MSS reading, the timers behind a context, file reading and YAML decoding: their results are inputs.
- The default algorithm lists (`orDefault`) and the algorithms offered to the server, which only the SSH library sees.
- The Prometheus registry, metric descriptions and text encoding; seconds are kept as nanoseconds.
- The HTTP server's internals, TLS and basic auth, error texts, the landing and health pages, the reload handler's response text, logging, and flag parsing beyond the two limits that `flags.validate` enforces.
- The file descriptor check, build information, and the test servers.
