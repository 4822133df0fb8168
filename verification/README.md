# Verification of the probe scanner's core

This project models, in Dafny 4.11, the parts of the scanner where a mistake would be hard to see:
the probe language with its compiler and executor, the concurrent probe scheduler, the stateless SYN
correlation and the paced sender, the converter for reviewed NSE scripts, and the cross-date host
index. Everything is proved for all inputs, all peers and all interleavings. Nothing here runs the
scanner.

`dafny verify dfyconfig.toml` checks the whole project.

## How the modules fit together

**The probe language.** `Schema` is a probe as it is written, `Ir` its compiled form, `Compiler` the
lowering with its static checks, and `CompileLoop` the loop that computes it over mutable locals.
`Meaning` gives the written language a direct meaning over *named* buffers and registers; `Executor`
runs compiled operations over *numbered* ones. Both share `Sessions`, which says what one send,
receive, transform or extraction does to a connection and to plain values. `Acceptance` says which
documents the compiler accepts, in terms of the document alone, `Verdicts` what a run reports,
`ReceiveLaws` and `ValueLaws` what is received and computed. `StaticAnalysis`, `Soundness` and `Runs` prove the size analysis sound,
`CompilerCorrectness` and `CompiledMeaning` prove that compiling preserves meaning, `Consumption`
that streams are consumed exactly and within the declared maxima, also by operations that fail.

**The peer.** `Transport.Wire` is the peer as a script of single bytes and expired deadlines with an
ending (closed, broken, silent). `Transport.PeerStream` is the same script cut into arbitrary chunks,
and its methods are the read loops. `RunProbe` is the executor as a loop that updates its connection,
buffers and registers over such chunked peers; it reports what `Executor.Execute` says of the bytes
alone, so fragmentation cannot be observed.

**Codecs.** `Words` (number packing), `Encodings` (hexadecimal and Base64, RFC 4648), `Rc4` with the
published vector of `Rc4Vector` (RFC 6229), `MsgPack`,
`HttpText`, `HttpRequest` and `HttpResponse` (RFC 9112 and RFC 9110); `HttpGrammar` says where accepted
numbers leave the grammar.

**Scheduling.** `Limits` holds the per-host semaphore table and the sharded claim set, as functions and
as classes. `Scheduler` is the scheduler as a transition system of one dispatcher and any number of
plans; `SchedulerSafety`, `SchedulerClaims` and `SchedulerPlans` are its inductive invariant, and
`SchedulerRuns` the theorems about whole runs. `PlanLoop` is the loop of one plan as it is written,
shown to be a run of that system. Permits are always taken in the order global, host, probe.

**Discovery.** `Cookie` is the sequence-number arithmetic, on machine words; `SendLoop` the batch sender
and its pacing, over scripts of system-call results, job arrivals and clock movements.

**Converter.** `Converter` and `ConverterWinos` hold the emitted rules as probe documents beside the
script's own predicates; `ConverterCompiles` shows the compiler accepts both rules, so the results
carry over to their compiled form.

**Host index.** `HostHistory` defines new, returning, gone, active and intermittent over a history of
sets and proves their laws; `HostIndex` is the dictionary-updating method, proved against them.

## What the code does differently from what it promises

* `cookie.rs` reports round-trip times for waiting times of up to 1024 ms. A delay is measured within
  one tick whenever it starts if and only if it is at most 1020 ms, so the waiting times that pass the
  guard although a delay within them is measured wrongly are those from 1021 ms to 1024 ms
  (`Cookie.RttBound`, `Cookie.WaitIff`, `Cookie.GuardAdmitsWrap`). The receiver moreover listens for
  the whole scan and the waiting time after it: all its measurements are within one tick if and only
  if both together last at most 1023 ms, so no waiting time is short enough for a longer scan
  (`Cookie.HeardIff`).
* The converter reports the N520 rule as equivalent to the script in its core match. The script refuses
  every response that is not of 44 bytes; the rule reads 44 bytes and does not see what follows them.
  Rule and script agree if and only if the response has at most 44 bytes or its first 44 fail the test
  of a frame (`Converter.N520RuleIsScript`). A good frame with anything after it is confirmed by the
  rule alone (`Converter.N520RuleWidens`), and there is a good frame for every checksum function
  (`Converter.ZeroFrameConfirmed`).
* The emitted Winos rule omits the script's `& 0xff`. Besides the declared lengths other than 15, which
  the converter reports as left out, it therefore misses header bytes above 201: it accepts exactly the
  fifteen-byte answers the script does whose header byte is at most 201
  (`ConverterWinos.RuleIsScriptOnFrames`, `ConverterWinos.RuleMissesHighHeaders`).
* The check of a request path admits spaces, which section 3.2 of RFC 9112 does not. Cutting the request
  line at its spaces gives back method, path and version if and only if the path holds none
  (`HttpRequest.RequestLineReads`, `HttpRequest.SpacedPathAccepted`).
* Status and, after `trim`, Content-Length are parsed by the standard library. Every status and length
  is also accepted behind a plus sign, a status behind a zero and a length behind a vertical tab, where
  section 4 of RFC 9112 has three digits and section 8.6 of RFC 9110 digits only
  (`HttpGrammar.LooseNumbersAccepted`). The numbers of an accepted block are grammatical if and only if
  the status has three bytes and no leading plus sign, and each Content-Length consists of digits,
  spaces and tabs (`HttpGrammar.GrammaticalIff`).

## Model

| member | source | states |
|---|---|---|
| `CompiledMeaning.CompilerCorrect` | src/dsl/compiler.rs:294-784 | For every accepted document and every network behaviour, executing the compiled probe reports exactly what the named-step meaning says: verdict, confidence, status, fields, bytes sent, or failure; and every accepted document has a meaning |
| `CompiledMeaning.RunsAgree` | src/probe/executor.rs:81-294 | From related states, running the compiled operations and running the named steps end alike, also when a rejection or a failure stops them early |
| `CompiledMeaning.FieldsAgree` | src/probe/executor.rs:32-55 | Reported fields agree, and a field whose name no step had defined when a run was rejected takes its default on both sides |
| `Verdicts.CompletedReport` | src/probe/executor.rs:276-322 | A run to the end reports, if the match held, the confidence and status the match gives, or else those of the result, with the flag of the declared class; if not, those of unmatched runs, an empty status becoming protocol_mismatch, and no flag |
| `Verdicts.RejectedReport` | src/probe/executor.rs:221-237 | A rejected run reports the confidence and status of its rejection and no flag |
| `Verdicts.FailedReport` | src/probe/executor.rs:68-77 | A run that fails reports the name of the failure, confidence zero, no flag and no field |
| `Verdicts.StatusNames` | src/probe/transport.rs:42-53 | Different failures have different names |
| `Verdicts.ReportedFields` | src/probe/executor.rs:32-56 | Each field of a run that ends or is rejected is the value its reference names at that point, in the form its prefix asks for, or its constant |
| `Verdicts.RespondsIff` | src/probe/executor.rs:125-216 | A run counts as responsive if and only if a receiving operation has succeeded |
| `CompilerCorrectness.ActionAgrees` | src/dsl/compiler.rs:343-693 | One step, from related states, has the same effect on the session and on all values as the operation it was lowered to, and keeps names and slots related |
| `CompilerCorrectness.ExprAgrees` | src/dsl/compiler.rs:890-939 | A compiled expression evaluates to the value of the named one |
| `CompilerCorrectness.ConditionAgrees` | src/dsl/compiler.rs:951-1045 | A compiled condition is true exactly when the named one is |
| `CompilerCorrectness.SourcesAgree` | src/dsl/compiler.rs:412-441 | The buffers joined by number are the buffers joined by name |
| `CompileLoop.CompileDocument` | src/dsl/compiler.rs:330-745 | The compile loop, which updates its maps, sizes, operations and counters step by step and adds up the budget, accepts exactly the documents the functional compiler accepts, with the same result |
| `Acceptance.AcceptedIff` | src/dsl/compiler.rs:294-784 | The compiler accepts a document if and only if it is acceptable: one operation a step, new names, references to earlier ones, sizes, ranges, texts and nesting of conditions within their bounds given what earlier steps define, one match, at most 4 MiB of buffers, a transport that fits its prelude, and result fields that name something defined |
| `Acceptance.ActionDecided` | src/dsl/compiler.rs:343-707 | One step, after given definitions, is accepted if and only if it is good, and then defines what the document says it defines |
| `Acceptance.TargetStrips` | src/dsl/compiler.rs:855-864 | All dollar signs in front of a reference are dropped, and nothing else |
| `CompileLoop.Builder.Take` | src/dsl/compiler.rs:343-707 | One step, by branches that insert names, push sizes and push the operation, leaves the locals the functional step gives, or is refused exactly when that is |
| `StaticAnalysis.ActionLowered` | src/dsl/compiler.rs:343-693 | A step lowers to one operation that reads only slots already defined, writes the next ones, satisfies its static checks, and adds exactly the sizes that operation adds |
| `Runs.CompiledRunIsSafe` | src/dsl/compiler.rs:714-723 | At every operation of every run of a compiled probe: each buffer is within its static size and all of them within 4 MiB, only written buffers and registers are read, and an internal error arises if and only if a computed value does not fit its packing, a request exceeds 1 MiB, or a new connection fails internally |
| `Runs.ExactExtractSucceeds` | src/probe/executor.rs:323-344 | On a buffer whose length is fixed statically, directly or through joins, hexadecimal decoding, Base64 encoding and encryption, `extract` and `crc32` never fail |
| `Soundness.OpBehaves` | src/probe/executor.rs:89-294 | One checked operation on a machine within its sizes: it keeps what was written, adds slots within the sizes it adds, and fails internally exactly for the listed causes, so the executor's own 1 MiB concat check never fires |
| `Soundness.TransformBounds` | src/probe/executor.rs:412-446 | Every transform stays within the bound the compiler computed for it, and can only fail as an invalid response |
| `Consumption.CompiledRunConsumes` | src/probe/executor.rs:125-196 | Between any two points of a run with no reconnect between them, the bytes the stream lost are exactly the received buffers and frame headers, in order and without gaps, and at most the declared maxima |
| `Consumption.OpTakes` | src/probe/executor.rs:125-196 | An operation that continues takes from the stream exactly what it saved, within its declared maximum |
| `Consumption.CompiledRunTakesAtMost` | src/probe/executor.rs:81-294 | Every run of a compiled probe, over all its connections and including the operation that rejects or fails, takes at most the sum of the maxima its document declares and of its frame headers |
| `Consumption.OpTakesAtMost` | src/probe/executor.rs:125-196 | Whether it continues or fails, on any stream, an operation takes at most its declared maximum and its frame header |
| `Consumption.ContinuesAfter` | src/probe/executor.rs:125-196 | The stream an operation leaves when it continues is the one it leaves in any case |
| `RunProbe.RunProbe` | src/probe/executor.rs:81-322 | The executor loop over chunked peers, with its mutable connection, buffers, registers and verdict, reports what `Execute` says of the peers' bytes, and the streams of its connections together lose at most what the operations declare, however the run ends |
| `RunProbe.RunTwice` | src/probe/transport.rs:84-155 | Two deliveries of the same bytes, deadlines and endings, cut into different chunks, end in equal reports |
| `RunProbe.JoinBuffers` | src/probe/executor.rs:111-124 | Concatenation as a loop over sources: the missing-buffer and 1 MiB errors and the joined bytes |
| `RunProbe.ReadReply` | src/probe/executor.rs:161-196 | The header block is read to its blank line, and the body as its fields and the limits call for |
| `RunProbe.Conclusion` | src/probe/executor.rs:295-322 | The reported confidence, status and classification, with the overrides of the match and the defaults for unmatched runs |
| `Transport.PeerStream.ReadExactly` | src/probe/transport.rs:84-94 | The read loop returns the next `len` bytes however they are chunked, or the failure of the first deadline, close or error before them; in both cases it leaves the stream after the bytes it took and the deadline that stopped it |
| `Transport.PeerStream.ReadAtMost` | src/probe/transport.rs:96-125 | Collects until `max` bytes, the deadline or the close; too few bytes are a timeout when there are none and an invalid response otherwise; what is left of the stream is stated for failures as well |
| `Transport.PeerStream.ReadDelimited` | src/probe/transport.rs:127-155 | Reads byte by byte to the delimiter, so nothing after it is consumed, and nothing after the limit when it does not come |
| `Transport.ReadUntilIsShortest` | src/probe/transport.rs:127-155 | `read_until` succeeds with `n` bytes if and only if they are the shortest prefix ending in the delimiter and within the limit |
| `Transport.ReadsAreSlices` | src/probe/transport.rs:84-155 | Every successful read returns the next bytes of the stream, and leaves the rest but for an expired deadline |
| `Transport.ReadExactIff` | src/probe/transport.rs:84-94 | `read_exact` succeeds if and only if enough bytes arrive, with just those, and otherwise fails as the deadline, the close or the error demands |
| `Transport.ReadUpToIff` | src/probe/transport.rs:96-125 | `read_up_to` succeeds with `d` if and only if `d` is what arrives up to `max`, has at least `min` bytes, and the stream does not break before `max`; a break gives its own failure, nothing a timeout, too little an invalid response |
| `Transport.ReadUntilFails` | src/probe/transport.rs:127-155 | Without the delimiter in what arrives, `read_until` fails as invalid at its limit and otherwise as the stream stalls |
| `ReceiveLaws.FrameReceived` | src/probe/executor.rs:144-160 | A frame on the stream is received with its body and length if the length is within the bounds, and is an invalid response if not |
| `ReceiveLaws.HttpReceived` | src/probe/executor.rs:161-196 | A response on the stream: the failure of a header block that is not accepted, and the body each kind of header calls for |
| `ReceiveLaws.RedialsNext` | src/probe/executor.rs:211 | A reconnect takes the next connection, or its failure, and keeps the run's verdict and what was sent |
| `ReceiveLaws.SendsInOrder` | src/probe/executor.rs:89-94 | What sends hand over is recorded as sent, in order |
| `Transport.ReadTakesAtMost` | src/probe/transport.rs:84-125 | Successful or not, a read for a number of bytes takes the next bytes of the stream, at most that many, and nothing else |
| `Transport.UntilTakesAtMost` | src/probe/transport.rs:127-155 | Successful or not, a read to a delimiter takes at most its limit |
| `Transport.SucceedsAfter` | src/probe/transport.rs:84-155 | A successful read leaves the stream those bounds speak of |
| `Words.ReadAfterPack` | src/probe/executor.rs:345-355 | Reading back a packed number that fits its width restores it, for each width and byte order |
| `Words.PackAfterRead` | src/probe/executor.rs:333-344 | Packing a number that was read restores its bytes, and a number read never exceeds its width |
| `Words.PackTruncates` | src/probe/executor.rs:345-355 | Packing any value and reading it back keeps exactly the low bits of its width |
| `Words.HoldsIff` | src/probe/executor.rs:95-110 | A value fits a width if and only if packing drops no bit of it |
| `Words.ByteOrder` | src/probe/executor.rs:345-355 | For every value, width and position: big-endian forms hold the most significant byte first and little-endian forms last |
| `Sessions.DecimalExtracts` | src/probe/executor.rs:260-275 | Decimal digits anywhere in a buffer are extracted as the number they print, and numbers above 64 bits are invalid responses |
| `ValueLaws.ComparesNumbers` | src/probe/executor.rs:369-398 | The four comparisons of registers are those of the numbers their bytes stand for |
| `ValueLaws.ShiftsDouble` | src/probe/executor.rs:356-368 | Shifts double and halve as often as the low six bits of their right operand say |
| `ValueLaws.ConnectivesWorkOnBits` | src/probe/executor.rs:356-368 | And, or and exclusive or work on each bit |
| `ValueLaws.ArithmeticWraps` | src/probe/executor.rs:356-368 | Addition and subtraction wrap at both ends of 64 bits |
| `ValueLaws.ExtractsPacked` | src/probe/executor.rs:323-344 | A number packed anywhere in a buffer is extracted as what its width kept |
| `ValueLaws.ContainsIff` | src/probe/executor.rs:370-398 | A buffer contains bytes if and only if they stand between something and a rest |
| `ValueLaws.TransformsBase64` | src/probe/executor.rs:412-446 | Base64 transforms decode what they encode, with white space anywhere in the text |
| `ValueLaws.TransformsCipher` | src/probe/executor.rs:412-446 | The cipher transform gives an output if and only if that is the RC4 encryption under its key |
| `ValueLaws.TransformsGzip` | src/probe/executor.rs:412-446 | Decompression starts at the offset, and output above the limit is noticed and refused |
| `Encodings.ParsesPrintedHex` | src/dsl/compiler.rs:847-854 | Hexadecimal text in either case decodes to the bytes it prints, wherever white space stands between digits |
| `Encodings.DecodeAfterEncode` | src/probe/executor.rs:412-428 | Base64 decoding inverts encoding for all bytes (section 4 of RFC 4648) |
| `Encodings.EncodeAfterDecode` | src/probe/executor.rs:416-425 | Only canonical Base64 is accepted: encoding what was decoded restores the text |
| `Encodings.PublishedVectors` | src/probe/executor.rs:412-428 | Vectors of section 10 of RFC 4648, with and without padding |
| `Encodings.AlphabetIs` | src/probe/executor.rs:412-428 | The letters are those of table 1 of RFC 4648 |
| `Rc4.Rc4Involution` | src/probe/executor.rs:448-468 | Encrypting twice with one key restores the data |
| `Rc4.CipherIff` | src/probe/executor.rs:448-468 | The cipher's output is the one output that the states of key schedule and generator determine: start at the identity, add cell and key byte to the index, exchange; then advance, add, exchange, and read where the sum of the two cells points |
| `Rc4Vector.PublishedVector` | src/probe/executor.rs:448-468 | The stream for the 40-bit key of RFC 6229 starts as published there |
| `Rc4.StateIsPermutation` | src/probe/executor.rs:448-468 | The state is a permutation of 0..255 after the key schedule and after any number of generated bytes |
| `Rc4.ScheduleInPlace` | src/probe/executor.rs:448-457 | The in-place key schedule on the array computes the scheduled state, a permutation |
| `Rc4.Generate` | src/probe/executor.rs:458-468 | The in-place generator combines the data with the key stream of the state it started from |
| `Rc4.Crypt` | src/probe/executor.rs:448-468 | Schedule and generation on one array compute the cipher, and end the states its relation describes |
| `MsgPack.LookupInverts` | src/probe/executor.rs:559-591 | Looking up a key in the encoding of 1 to 15 pairs, each string as fixstr or str8, gives its last value |
| `MsgPack.LookupIff` | src/probe/executor.rs:559-591 | A value is returned if and only if the input is exactly such an encoding, with nothing after it, and that is the last value of the key |
| `MsgPack.FindString` | src/probe/executor.rs:559-576 | The scanning loop with its offset computes the lookup |
| `MsgPack.ReadString` | src/probe/executor.rs:577-591 | One string of either form is read at an offset, with its bounds checks |
| `HttpText.SplitJoined` | src/probe/executor.rs:475-490 | Splitting joined lines at CRLF gives the lines back |
| `HttpText.ParsePrinted` | src/probe/executor.rs:496-518 | A printed number parses to itself up to the limit of its type and not above, also behind a leading plus sign |
| `HttpRequest.RequestFraming` | src/probe/executor.rs:527-557 | In every compiled request the first blank line ends the header block; splitting it gives the request line and all headers in order, `$target_ip` replaced by the address and other values unchanged; an implicit Content-Length is added if and only if there is a body and no such header in any case, and it reads as the length of the body; method, path and version are the parts of the request line if and only if the path holds no space (sections 2.1 and 3 of RFC 9112) |
| `HttpRequest.RequestLineReads` | src/dsl/compiler.rs:825-835 | Cutting the request line at its spaces gives back method, path and version if and only if the path holds no space |
| `HttpRequest.SpacedPathAccepted` | src/dsl/compiler.rs:825-835 | A path with a space passes the check, and its request line has four parts |
| `HttpRequest.BuildHttpRequest` | src/probe/executor.rs:527-557 | The building loop computes the request, or an internal error above 1 MiB |
| `HttpResponse.AcceptedIff` | src/probe/executor.rs:475-525 | A header block is accepted if and only if it is UTF-8, ends in a blank line, has a good status line, and its fields have distinct names in any case, no Transfer-Encoding, and a length within the limit |
| `HttpResponse.AcceptedBounds` | src/probe/executor.rs:475-525 | Accepted blocks have a status in 100..599 and a length of at most the limit |
| `HttpResponse.ParsePrintedHeader` | src/probe/executor.rs:475-525 | Parsing the printed form of any status and any distinct token-named fields returns that status and that Content-Length (sections 4 and 5 of RFC 9112) |
| `HttpResponse.ParseHttpHeader` | src/probe/executor.rs:475-525 | The parsing loop with its accumulators computes the parse |
| `HttpGrammar.GrammaticalIff` | src/probe/executor.rs:475-525 | The numbers of an accepted block are written as RFC 9112 and RFC 9110 require if and only if the status has three bytes without a leading plus sign and each Content-Length consists of digits, spaces and tabs |
| `HttpGrammar.LooseNumbersAccepted` | src/probe/executor.rs:483-518 | For every status and length, blocks that hold them behind plus signs, or behind a zero and a vertical tab, are accepted with that status and length, and are not grammatical |
| `Limits.HostLimits.Acquire` | src/probe/scheduler.rs:72-79 | A known host's semaphore is shared and its users counted up; an unknown host gets a new one with the given permits |
| `Limits.HostLimits.Release` | src/probe/scheduler.rs:81-89 | The users are counted down and the entry removed at zero |
| `Limits.LeaveUndoesEnter` | src/probe/scheduler.rs:71-90 | Releasing undoes acquiring, whether the host was known before or not |
| `Limits.SeenProbes.Claim` | src/probe/scheduler.rs:55-61 | True exactly the first time a key is claimed; the claimed keys grow by that key |
| `Limits.ShardedClaim` | src/probe/scheduler.rs:42-62 | Looking into the one shard the hash selects agrees with membership in the single set of all keys, for every hash |
| `Limits.ClaimsCommute` | src/probe/scheduler.rs:42-62 | Claims of different keys do not disturb each other, in either order |
| `SchedulerRuns.AlwaysSafe` | src/probe/scheduler.rs:64-158 | In every interleaving: executions in progress stay within the host, probe and global limits; all plans on a host hold the semaphore of its entry, which counts exactly those plans although entries are removed and re-created; no key is executed more than `retries + 1` times |
| `SchedulerRuns.NeverStuck` | src/probe/scheduler.rs:125-163 | With positive limits every reachable state with work left has an enabled step that is not the interrupt |
| `SchedulerRuns.RunsEnd` | src/probe/scheduler.rs:177-258 | Every run is finite, with a bound on its steps from the number of targets, probes and retries |
| `SchedulerRuns.ScanOutcome` | src/probe/scheduler.rs:125-258 | At the end all permits are free and no host is remembered; every probe in scope of a planned target was executed 1 to `retries + 1` times unless the plan had a confirmed result before it; the reports are exactly the final tries the mode asks for (all, none, responsive, confirmed or probable, confirmed), each sent once, those of a plan in the order of its probes |
| `SchedulerRuns.FailuresRetried` | src/probe/scheduler.rs:192-204 | A failed execution is tried again exactly for connect and read timeouts, resets and probe errors |
| `SchedulerRuns.PlansStopWhenConfirmed` | src/probe/scheduler.rs:177-258 | Of two executions by one plan the first was not confirmed, and the same probe runs again only after a transient failure |
| `SchedulerRuns.EveryTargetPlanned` | src/probe/scheduler.rs:125-163 | Without an interrupt the plans are exactly the targets received, in order |
| `SchedulerRuns.OpenPortsReported` | src/probe/scheduler.rs:125-134 | In every run the open-port results are the targets received so far, in order and also after an interrupt, when the mode asks for them, and none otherwise |
| `SchedulerRuns.StepGood` | src/probe/scheduler.rs:110-258 | Every atomic step keeps the whole invariant |
| `SchedulerSafety.StepShared` | src/probe/scheduler.rs:71-90 | Every step keeps: one shared semaphore per host with plans, users equal to those plans and at least one, and no semaphore for two hosts |
| `SchedulerSafety.StepPermits` | src/probe/scheduler.rs:120-209 | Every step keeps, for each semaphore, that free permits and holders add up to its limit |
| `SchedulerClaims.StepClaims` | src/probe/scheduler.rs:177-213 | Every step keeps: a key is owned by one plan at most, and its executions are counted by the tries of the owner |
| `SchedulerPlans.StepInOrder` | src/probe/scheduler.rs:177-258 | Every step keeps the order of a plan's executions, and nothing of a plan follows its confirmed result |
| `SchedulerPlans.StepSentOnce` | src/probe/scheduler.rs:214-256 | Every step keeps: the reports of a plan are of different probes, in order, and lie behind the probe at hand |
| `PlanLoop.RunPlan` | src/probe/scheduler.rs:167-260 | The loops over probes and retries, on the sharded claim set, claim, execute and report as a run of the transition system does |
| `Cookie.UnmixMixes` | src/discovery/cookie.rs:26-32 | The mix can be undone, for every seed, by inverse shifts and inverse factors modulo 2^64 |
| `Cookie.MixInjective` | src/discovery/cookie.rs:26-32 | For one secret, different destinations have different mixes before truncation |
| `Cookie.SecretMatters` | src/discovery/cookie.rs:24-33 | For one destination, different secrets have different mixes |
| `Cookie.MixVector` | src/discovery/cookie.rs:26-32 | The mix is SplitMix64: from zero it gives that generator's first output |
| `Cookie.CollisionsComeFromTruncation` | src/discovery/cookie.rs:24-33 | Destinations that share a cookie differ in the 40 bits that are dropped |
| `Cookie.CookieFits` | src/discovery/cookie.rs:21-33 | The cookie never exceeds 24 bits |
| `Cookie.AcknowledgementMatches` | src/discovery/cookie.rs:39-46 | The acknowledged number less one is recognised for its destination and carries the tick of sending, also when the increment wraps |
| `Cookie.MatchesIff` | src/discovery/cookie.rs:44-46 | Exactly the numbers made of the cookie and some tick are recognised |
| `Cookie.RttExactIff` | src/discovery/cookie.rs:49-53 | The measured delay is within one 4 ms tick of the true one if and only if fewer than 256 ticks have passed |
| `Cookie.RttBound` | src/discovery/cookie.rs:49-58 | A delay is measured within one tick whenever it starts if and only if it is at most 1020 ms |
| `Cookie.WaitIff` | src/discovery/cookie.rs:55-58 | All delays within a waiting time are measured within one tick if and only if it is at most 1020 ms |
| `Cookie.GuardAdmitsWrap` | src/discovery/cookie.rs:55-58 | The guard passes a waiting time within which some delay is measured wrongly exactly from 1021 ms to 1024 ms; 1021 ms can be measured as 0 |
| `Cookie.HeardIff` | src/discovery/linux.rs:65-110 | With packets sent until `last` and replies heard until `wait` after it, all are measured within one tick if and only if `last + wait` is at most 1023 ms |
| `SendLoop.TransmitConserves` | src/discovery/linux.rs:360-390 | Whatever the system calls answer, each packet of a batch is sent or skipped, exactly once |
| `SendLoop.PacketBatch.SendAll` | src/discovery/linux.rs:337-390 | The cursor loop counts the packets sent and skipped through partial, interrupted and failed calls |
| `SendLoop.AddJob` | src/discovery/linux.rs:210-242 | A job without IPv4 address or route is skipped and counted; any other becomes a packet from the address of its route, with the sequence number of its target at a time during the call, unless the batch is full |
| `SendLoop.Collect` | src/discovery/linux.rs:129-168 | One job is waited for and more are taken while there are any and the batch has room; each job taken is in the batch or dropped |
| `SendLoop.SendPaced` | src/discovery/linux.rs:169-194 | A batch starts no earlier than now, and when it is done its share of the rate has passed |
| `SendLoop.Run` | src/discovery/linux.rs:125-199 | The loop is aborted if and only if the batch size is zero, which the command line refuses (src/cli/mod.rs:142), and some job has an IPv4 address and a route; otherwise jobs received are packets sent plus targets skipped, as multisets and in the counters; every packet is for a job of the channel, from the address of its route, and stamped with its target's sequence number at a time between the start and the sending of its batch; batches are paced |
| `SendLoop.RunReplyMeasured` | src/discovery/linux.rs:226-241 | A reply to a packet of a run is measured within one tick of the time since the packet was queued if and only if fewer than 256 ticks have passed |
| `SendLoop.WindowBound` | src/discovery/linux.rs:169-194 | In any window of a paced run, whatever its gaps, at most `rate * (t2 - t1) + batch_size` packets are attempted |
| `Converter.N520RuleDecides` | src/nse/mod.rs:748-798 | The emitted N520 rule, evaluated in unmasked 64-bit arithmetic, confirms exactly when 44 bytes arrive that pass the script's 32-bit test of a frame |
| `Converter.N520RuleIsScript` | tests/fixtures/valleyrat-c2.nse:113-126 | Whatever the script receives on the same connection: the rule confirms it if and only if it starts with a good frame, the script if and only if it also has 44 bytes; they agree if and only if it has at most 44 bytes or its first 44 fail the test |
| `Converter.N520Restricted` | tests/fixtures/valleyrat-c2.nse:116-126 | On any response of at least 44 bytes the script confirms if and only if the rule's test holds of the first 44 and there are no more |
| `Converter.N520RuleWidens` | src/nse/mod.rs:112-122 | Every frame the script confirms, with anything after it, is confirmed by the rule and refused by the script |
| `Converter.ZeroFrameConfirmed` | tests/fixtures/valleyrat-c2.nse:118-126 | For every checksum function there is a frame the script confirms |
| `Converter.WideIsNarrow` | tests/fixtures/valleyrat-c2.nse:122-127 | The script's 32-bit test of a frame and the rule's 64-bit one agree |
| `ConverterCompiles.N520CompiledIsScript` | src/nse/mod.rs:748-798 | The compiler accepts the emitted N520 rule; its compiled form confirms exactly the responses that start with a good frame, the script those of them with 44 bytes, and the two agree exactly when the response has at most 44 bytes or its first 44 fail the test |
| `ConverterWinos.RequestIsScripts` | tests/fixtures/valleyrat-c2.nse:35-50 | The request the Winos rule assembles is the script's frame |
| `ConverterWinos.WinosRuleDecides` | src/nse/mod.rs:626-695 | The rule sends that frame alone, rejects its reflection, and confirms exactly the answers of declared length 15 whose decoded command is one of the three |
| `ConverterWinos.RuleIsScriptRestricted` | tests/fixtures/valleyrat-c2.nse:35-72 | On any response of at least 15 bytes: the rule accepts its first 15 if and only if the script confirms the response, the declared length is 15, and the header byte is at most 201 |
| `ConverterWinos.RuleIsScriptOnFrames` | src/nse/mod.rs:626-695 | On responses of 15 bytes the rule accepts exactly what the script confirms with a header byte of at most 201 |
| `ConverterWinos.RuleMissesHighHeaders` | src/nse/mod.rs:655-656 | A response the script confirms and the rule does not |
| `ConverterCompiles.WinosCompiledIsScript` | src/nse/mod.rs:626-695 | The compiler accepts the emitted Winos rule; its compiled form asks with the script's frame and, whatever the script receives in answer, confirms if and only if the script does, the declared length is 15 and the header byte is at most 201 |
| `HostIndex.NewAreFirstSeenOrReturning` | scripts/summarize_results.py:783-797 | In a built overview each day's new hosts are its first-seen and its returning ones, without overlap |
| `HostIndex.RecordIsIndexed` | scripts/summarize_results.py:745-772 | Every record's host is indexed with its date within first and last seen, its port, its own probe or else the section's, and its status |
| `HostHistory.FirstSeenOnce` | scripts/summarize_results.py:783-797 | A host is first-seen on the first day with it and on no other |
| `HostHistory.NewLessGoneIsActive` | scripts/summarize_results.py:783-803 | All new less all gone hosts are the hosts of the last day |
| `HostHistory.ObservedWithinSpan` | scripts/summarize_results.py:804-816 | Days observed never exceed the span, and fall short of it exactly when a day is missing in between |
| `HostHistory.IntermittentIffReturns` | scripts/summarize_results.py:783-816 | A host has a gap if and only if some day lists it as returning |
| `HostIndex.BuildOverview` | scripts/summarize_results.py:727-824 | The dictionaries built day by day hold, for every host and day, what the history defines: dates, first and last seen, ports, probes, statuses, the four sets of each day, and the derived columns |
| `HostIndex.ReadDay` | scripts/summarize_results.py:745-772 | One day's records update exactly the entries of the hosts seen, and the hosts seen are collected |
| `HostIndex.CompareDay` | scripts/summarize_results.py:785-800 | New, first-seen, returning and gone hosts of a day, derived from the index |
| `HostIndex.Summarise` | scripts/summarize_results.py:802-816 | The columns of a host are those the history defines, and coverage is above 0 and at most 1 |
| `HostIndex.IntermittentAreReturning` | scripts/summarize_results.py:785-816 | In a built overview the intermittent hosts are exactly those some day lists as returning |
| `HostIndex.FirstSeenOnOneDay` | scripts/summarize_results.py:785-797 | In a built overview every host is first-seen on one day and on one only |
| `HostIndex.BalanceIsActive` | scripts/summarize_results.py:785-808 | In a built overview all new hosts less all gone hosts number the active hosts |

## Left out

- Sockets, TLS handshake and certificate verification, STARTTLS prelude exchange, raw-socket set-up: one connection attempt is a value, either a failure or a peer script with the fate of its sends and its certificate digest; connecting times out when the list of attempts ends.
- Deadlines as clock times: a deadline that passes is an event in the peer's script, seen by the read in progress.
- Regular expressions, gzip, CRC32: arbitrary functions passed in; gzip output is read through its cap.
- YAML, parameter substitution, and `allows` on addresses: documents start as data types; `allows` is an arbitrary predicate of probe and target, and scope addresses are not parsed.
- Error messages of rejected documents: a document is accepted or not.
- Overflow of `usize` sums: sizes are unbounded naturals.
- Values reported as text: the bytes of the field are reported; lossy UTF-8 and hexadecimal spelling are not modelled.
- Confidences, coverage and pacing use real numbers: rounding of floating point is not modelled.
- Timestamps, durations, metrics other than the sender's counters, and the text of output records.
- Panics, closed semaphores and a closed output channel of the scheduler: executions return and reports are consumed, as the progress results assume.
- CompileLoop.CompileDocument: scope addresses are not parsed, so a document with a malformed one is not refused; conditions and expressions are compiled by recursive functions.
- PlanLoop.RunPlan: states the loops of a plan when no other plan moves and permits are free; interleavings are covered by the transition system.
- The order in which waiting plans get permits: any order is allowed.
- RouteResolver's one-entry cache and checksums of built packets: whether a route exists is part of a job's arrival.
- The receive thread apart from the sequence check: packet parsing and flags.
- `lex`, `local_functions` and the recognisers of the NSE converter, and the VVAS rule: the profiles hold the constants of the reviewed script.
- ConverterWinos.WinosRuleDecides: the script's network calls are modelled as one send and one read of at least 15 bytes.
- Converter.N520RuleIsScript: the script's read of at least 44 bytes returns any longer prefix of what comes in time; which one is not determined.
- Display columns of the host index (network, sort keys, probe hosts, sorted lists): sets are used for lists sorted for display.
- HostIndex.BuildOverview: requires dates in ascending order, as the caller sorts them.
