# Verification of the forward proxy's dial race, padding codec, UDP associations and target policy

A Dafny model of the concurrent and looping parts of the forward proxy, with proofs over every input, every
interleaving and every run. `dafny verify dfyconfig.toml` checks all of it.

## What is modelled

* **The incremental Happy Eyeballs dial race** (`DialRace.dfy`, `DialRaceInvariants.dfy`, `DialRaceTheorems.dfy`).
  Two resolver goroutines, the closer, the attempt goroutines, the context, the clock and the scheduler loop form a
  labelled transition system; each step is one critical section, one channel operation or one stretch of
  scheduler-local code. Lookup answers, dial results, their timing and the context are arbitrary. `History.dfy` is
  the sequence of events the scheduler acted on, `FamilyFeed.dfy` the candidate feed as a value and as an object
  whose methods are proved against that value, `Candidates.dfy` the filtering and ordering of addresses, and
  `Outcomes.dfy` what a race returns in terms of what its dials and context reported.
* **The static scheduler** (`StaticDial.dfy`) the race took its policy from, over the same attempts and clock
  (`Attempts.dfy`), the refinement between the two (`Refinement.dfy`), and which late answers keep it
  (`LateAnswers.dfy`).
* **The Naive padding codec** (`Padding.dfy`, `PaddingTheorems.dfy`): both copy loops with their in-place 64 KiB buffer.
* **CONNECT-UDP**: admission (`Admission.dfy`), the lock-free peak (`Peak.dfy`), the datagram codec (`Datagram.dfy`),
  the two pumps (`Pumps.dfy`) and the association lifecycle (`Association.dfy`).
* **Target policy** (`Acl.dfy`, `Policy.dfy`): rules, label matching, the pre-pass, the scan and rule provisioning.

## Main results

* The race never loses a wake-up and never gets stuck (`NoLostWakeup`, `NeverStuck`), takes a bounded number of steps
  (`StepBound`, `IterationBound`), and from every reachable state goes on to its return, whatever the lookups and
  dials answer (`RunsUntilItWaits`, `RaceReturns`).
* A run of the race is a run of the static scheduler, with the same dials at the same times and the same outcome,
  exactly when its dials are a prefix of the full interleaved list (`StaticExactlyInOrder`). The proof looks back from
  the end of the run, and holds the static scheduler back from receiving the last failure for as long as the race
  has not seen its feed closed. In terms of the answer that comes last: every continuation is a static run exactly
  when that answer contributes nothing, or is v6 and no v4 candidate was chosen yet, or is v4 and at most one v6
  candidate was chosen, or the context had ended with one candidate too many chosen but not dialled
  (`RaceIsStaticExactly`, `StaticWhateverFollows`). So a late v6 answer that contributes something breaks it once a v4
  address was dialled (`LateV6IsNotStatic`), and both answers before the first choice never do
  (`RaceRefinesStaticScheduler`).
* What is returned is what was reported: the winner's dial gave a connection and no error; an exhausted race had no
  connecting dial, and its error is that of the dial received last; if all dials connect, a connection is returned
  (`WinnerConnected`, `ExhaustedMeansNoneConnected`, `ConnectingRaceConnects`, `AnsweredOutcome`). A cancelled race returns
  within four steps (`CancelledRaceReturns`).
* Every connection but the returned one is closed exactly once (`ConnectionsOwnedOnce`); dials are paced over the
  whole run, 250 and 100 ms apart, and both bounds are met (`DialsArePaced`, `FallbackDelayIsMet`, `MinimumDelayIsMet`); only approved addresses are dialled, once, in resolver order
  (`OnlyApprovedAddressesAreDialled`); a failure is exhaustive (`FailureIsExhaustive`) and carries the legacy error
  (`RefusalMatchesLegacy`).
* After Provision the entry of the first matching subject decides, and without one everything is allowed but the
  private and local ranges (`FirstSubjectDecides`).
* An association returns the cause that ended its loop, after its shutdown, and always comes to its return
  (`ResultIsTheCause`, `ShutdownOrder`, `RunReturns`).
* Padding round-trips exactly when no framed read was empty or nothing was sent raw (`RoundTrip`), and under exactly
  the same condition every cut stream yields the application bytes before the cut (`Truncation`).

## Where the code does not do what one might expect

* A read of zero bytes on the sending side uses up one of the eight frames without writing one, so the peer then
  strips a frame from raw bytes (`EmptyReadBreaksStream`; `RoundTrip` gives the exact condition).
* A padded stream that ends inside a header, a payload, or right before its padding ends without an error; only an
  end that leaves part of a frame's padding is reported (`Truncation`).
* With nothing to dial, the static scheduler reports a failed connection even if the context has ended; a race that
  returned any other error is no static run (`NothingToDial`).
* An association can expire as idle while an activity notification is waiting in its channel
  (`PendingActivityCanBeIgnored`); `IdleExpiryIsNotEarly` says that this is the only way to expire early.
* The pre-pass over domain rules is not the scan taken earlier: it can deny what the scan would allow, exactly when a
  matching non-domain allow precedes the first matching domain rule and that one denies (`TwoPassesVersusOneScan`;
  `PrePassDeniesWhatScanAllows` is such a rule list).
* When an answer holds addresses of the wrong family the race's refusal can differ from the legacy one
  (`RefusalMatchesLegacy` gives the exact condition, `StrayRefusalDiffers` a reachable refusal). When both lookups fail, the v4 error alone decides between 502
  and 504 (`StatusOfFailure`); the comment in the source speaks of "the cause" only.

## Assumptions of the model

* Time is idealised, in whole milliseconds; reading the clock at a start and launching the dial are one step, and so
  are the context check and the launch. A fired timer leaves no stale tick behind, as in Go since 1.23.
* An attempt context may report an error only once the dial context has ended or the 5 s attempt timeout has passed;
  it need not.
* Numeric addresses are (family, bits) values; strings that do not parse are kept apart (`Unparsed`). CIDR parsing is
  a parameter. A source that has ended keeps reporting its end.
* Counters are unbounded; association ids do not wrap at 2^64.

## Model

| member | source | states |
|---|---|---|
| DialRaceTheorems.NoLostWakeup | connect_dial_incremental.go:67-72 | While the scheduler is blocked: what was admitted since its last advance has a wake token or a pulse coming, a feed closed since then the closer's; a candidate it saw and left has the timer; one whose window has elapsed has a pulse coming or an expired timer; an open window has the timer set for its end |
| DialRaceTheorems.NeverStuck | connect_dial_incremental.go:296-337 | An unfinished race waiting for no lookup and no dial always has a step of its own, without help from the context |
| DialRaceTheorems.StepBound | connect_dial_incremental.go:170-337 | All goroutines together take at most 18n + 23 steps besides the passing of time, n being the admitted candidates |
| DialRaceTheorems.RunsUntilItWaits | connect_dial_incremental.go:296-337 | From every reachable state, steps of the program alone lead to one that waits for a lookup or a dial, or has returned |
| DialRaceTheorems.RaceReturns | connect_dial_incremental.go:161-338 | From every reachable state, and for every way the lookups and dials answer, the race goes on to its return |
| Outcomes.DialIsOffered | connect_dial_incremental.go:235-253 | After its dial returns an attempt offers the connection exactly when there is one and no error, else the error of its context, of the dial, or a failed connection; a connection with an error is closed once |
| Outcomes.AttemptTimesOut | connect_dial_incremental.go:235-240 | An attempt's own context can end it exactly once the dial context has ended or 5000 ms have passed |
| Outcomes.WinnerConnected | connect_dial_incremental.go:316-324 | In every run, the dial whose connection is returned reported a connection and no error |
| Outcomes.ExhaustedMeansNoneConnected | connect_dial_incremental.go:310-312 | In every exhausted run, each dialled address reported a failure, and the error is that of the dial received last |
| Outcomes.ContextErrorIsReported | connect_dial_incremental.go:314-315 | A context error is returned only if the context ended with that error |
| Outcomes.ConnectingRaceConnects | connect_dial_incremental.go:161-338 | With a candidate admitted, every returned dial connecting and the context not ending, a returned race has a connection |
| Outcomes.AnsweredOutcome | connect_dial_incremental.go:161-338 | The same for races answered by given lookups and dials |
| Outcomes.CancelledRaceReturns | connect_dial_incremental.go:298-315 | Once the context has ended the scheduler returns in at most four steps of its own |
| DialRaceTheorems.IterationBound | connect_dial_incremental.go:296-337 | The scheduler loop runs at most 4n + 4 times; at most 3 wakes, 2n timer firings, n results |
| DialRaceTheorems.ConnectionsOwnedOnce | connect_dial_incremental.go:233-260 | Once all attempts ended, the open connections are exactly the returned one; every other was closed once; nothing is ever closed twice, nor the connection being returned at all |
| DialRaceTheorems.AttemptsWindDown | connect_dial_incremental.go:249-258 | After the return no attempt is left blocked on handing over its result |
| DialRaceTheorems.DialsArePaced | connect_dial_incremental.go:297-333 | Any two dials i and j are at least 250(j-i) - 150F ms apart, F counting failures received in between, and never under 100(j-i) ms |
| DialRaceTheorems.FallbackDelayIsMet | connect_dial.go:13-17 | A reachable second dial starts exactly 250 ms after a first one still pending |
| DialRaceTheorems.MinimumDelayIsMet | connect_dial.go:13-17 | A reachable second dial starts exactly 100 ms after a first one that failed |
| History.PacingOfHistory | connect_dial_incremental.go:268-277 | The same, for every event history that respects the window policy |
| DialRaceTheorems.OnlyApprovedAddressesAreDialled | connect_dial_incremental.go:185-212 | Each dialled address passed the rules, fits the network, came from its own family's answer, is dialled once, and per family in filtered, de-duplicated resolver order |
| DialRaceTheorems.NoStartAfterTheEnd | connect_dial_incremental.go:298-309 | From a state where the context is done or an outcome was reached, no run starts another dial |
| DialRaceTheorems.FailureIsExhaustive | connect_dial_incremental.go:310-312 | A non-context error is returned only when both lookups ended and every admitted candidate was dialled and failed; the error is the failure received last |
| DialRaceTheorems.RefusalMatchesLegacy | connect_dial_incremental.go:117-142 | With nothing dialled, the error is that of legacy resolve plus interleave, for family-respecting answers; in general exactly when no dialable address sat in the wrong answer |
| DialRaceTheorems.StrayRefusalDiffers | connect_dial_incremental.go:193-200 | An allowed v6 address in the v4 answer alone reaches a refusal the legacy path does not give |
| DialRaceTheorems.StatusOfFailure | forwardproxy.go:571-581 | 403 exactly when a lookup succeeded and every answered address was denied; both lookups failed gives 504 or 502 by the v4 error; approved but unrequested addresses give 502; after failed dials the failure received last decides 504 or 502 |
| DialRaceInvariants.ReachableInv | connect_dial_incremental.go:161-338 | The inductive invariant of the race holds in every reachable state |
| LateAnswers.RaceIsStaticExactly | connect_dial_incremental.go:29-37 | A race with something to dial is a run of dialTCPAddresses on the full list from the start, same dials, times and outcome, exactly when the last answer contributes nothing, comes before more than its allowance was chosen (one v6 candidate for v4, none for v6), or the dials stop at that allowance |
| LateAnswers.StaticWhateverFollows | connect_dial_incremental.go:20-23 | All runs from the last answer on are static runs exactly when, as it is admitted, it contributes nothing, no more than its allowance was chosen, or the one too many is undialled and the context has ended |
| LateAnswers.SomeAnswerCompletes | connect_dial_incremental.go:170-225 | Every race with both answers in has such a last answer |
| LateAnswers.RaceRefinesStaticScheduler | connect_dial_incremental.go:29-37 | Every run from a state with both answers in and nothing chosen is a run of dialTCPAddresses from there: same dials and times, same outcome |
| LateAnswers.InOrderExactly | connect_dial_incremental.go:74-101 | The dials are a prefix of the full list exactly under that condition on the last answer |
| Refinement.StaticExactlyInOrder | connect_dial.go:79-114 | Once both answers are in and hold something, a run is a static run exactly when its dials are a prefix of the full list |
| Refinement.NothingToDial | connect_dial.go:32-35 | With nothing to dial, a returned race is a static run exactly when it reports a failed connection |
| LateAnswers.LateV6IsNotStatic | connect_dial_incremental.go:20-23 | A v4 address dialled before a contributing v6 answer arrives is reachable, and no static run on the full list has that first dial |
| Refinement.StaticListIsLegacyOrder | connect_dial.go:120-152 | The list it runs on is the legacy interleaving of the merged, approved answer |
| Refinement.StepSimulates | connect_dial.go:79-114 | Each step of a race that keeps to the list is answered by at most one step of the static scheduler, keeping the simulation relation |
| Refinement.WindowCoversStaticTimer | connect_dial.go:96-100 | Whenever the race's window has elapsed the static timer has expired |
| FamilyFeed.DrainIsInterleaved | connect_dial_incremental.go:74-101 | Draining a fixed feed lazily gives interleaveTCPAddresses of the v6-then-v4 list, and the v4-first order after a v6 start |
| FamilyFeed.AdmitEffect | connect_dial_incremental.go:173-217 | Admission appends exactly the approved, requested, unseen addresses to the family's tail and leaves the other family alone |
| FamilyFeed.ContributionExactly | connect_dial_incremental.go:185-205 | An answer contributes exactly its allowed addresses of the family asked for, none that tcp4 or tcp6 excludes |
| FamilyFeed.RaceVerdictIsLegacy | connect_dial_incremental.go:117-142 | For family-respecting answers the complete feed dials the legacy order or refuses with the legacy error, whichever family came first |
| FamilyFeed.RefusalIsLegacyExactlyWithoutStrays | connect_dial_incremental.go:193-200 | For arbitrary answers, the refusal is the legacy one exactly when no dialable address was hidden in the wrong answer |
| FamilyFeed.TcpFamilyFeed.constructor | connect_dial_incremental.go:60-65 | A new feed is empty, open and has no token |
| FamilyFeed.TcpFamilyFeed.Pulse | connect_dial_incremental.go:67-72 | The wake channel holds a token afterwards |
| FamilyFeed.TcpFamilyFeed.PopLocked | connect_dial_incremental.go:80-101 | The feed and address of the lazy alternation rule, or nothing from an empty feed |
| FamilyFeed.TcpFamilyFeed.Advance | connect_dial_incremental.go:105-115 | Pops only when due; reports the closed and empty state otherwise |
| FamilyFeed.TcpFamilyFeed.AdmitAnswer | connect_dial_incremental.go:177-214 | The admission loop computes Admit, and reports whether anything new was seen |
| FamilyFeed.TcpFamilyFeed.Close | connect_dial_incremental.go:222-224 | Only the closed flag changes |
| Candidates.InterleaveTCPAddresses | connect_dial.go:120-152 | The loops compute Interleaved |
| Candidates.InterleavedSpec | connect_dial.go:117-119 | The interleaving is a reordering of the kept addresses that keeps each family's order, starts with the first kept one, and repeats a family only once the other is exhausted |
| Candidates.InterleavedExactly | connect_dial.go:123-132 | The interleaving holds exactly the numeric addresses, less those of the family tcp4 or tcp6 excludes |
| Candidates.SelectedExactly | native_udp_protocol.go:245-257 | The selection holds exactly the passing addresses of the answer, each once |
| Candidates.SelectInResolverOrder | native_udp_protocol.go:246-257 | Selecting a prefix of the answer gives a prefix of the selection |
| Candidates.ResolveTarget | native_udp_protocol.go:240-261 | The approved addresses in order; refused exactly when the lookup failed or no address is allowed |
| Candidates.PerFamilyListsMatchMergedOrder | connect_dial_incremental.go:13-27 | Per-family candidate lists zipped v6 first equal the legacy order of the merged answer |
| Attempts.WorldKeepsOwnership | connect_dial.go:43-69 | Whatever the attempt goroutines, the clock and the context do keeps connection ownership |
| PaddingTheorems.RoundTrip | forwardproxy.go:767-827 | Decoding the encoder's output gives back the stream, an end of file being success and any other end reported, exactly when none of the first eight reads was empty or nothing was sent raw, for every split and padding |
| PaddingTheorems.EmptyReadBreaksStream | forwardproxy.go:770-775 | An empty framed read followed by raw bytes does break the stream |
| PaddingTheorems.Overhead | forwardproxy.go:770-783 | Framing adds at most 3 + 255 bytes to each of the first eight reads |
| PaddingTheorems.ExactOverhead | forwardproxy.go:770-783 | The wire carries the payload plus 3 bytes and the padding for each non-empty read among the first eight; from the ninth on it is raw |
| PaddingTheorems.RoomForReads | forwardproxy.go:772-774 | A read delivers at most 65530 bytes less the padding while framing, 65536 after |
| PaddingTheorems.Truncation | forwardproxy.go:784-826 | A stream cut at any byte and ended in any way decodes to exactly the application bytes before the cut; an end of file is reported, as unexpected, exactly when it leaves part of a frame's padding, any other end always as it is; true of every cut exactly when the stream round-trips |
| Padding.AddPadding | forwardproxy.go:767-801 | The framing copy writes Encoded, all buffer indices in range |
| Padding.FrameInPlace | forwardproxy.go:770-783 | One frame is built in place within the 64 KiB buffer |
| Padding.RemovePadding | forwardproxy.go:784-826 | The unframing copy writes Decoded whatever the buffer held before, for every chunking of the raw tail and every stream; a source that breaks is reported as it broke, an end of file only inside padding |
| Padding.Unframe | forwardproxy.go:784-795 | One framed read, including short headers that leave stale length bytes in use |
| Admission.RunConserves | native_udp_association.go:161-212 | Over any interleaving, the active count is the number of unreleased tickets and the sum of the per-client map; at most 512 are held and 128 per client unless configured; no zero entries, ids never go back |
| Admission.AcquireDecision | native_udp_association.go:171-190 | Refused exactly when the held tickets fill a limit, changing nothing; otherwise a fresh larger id, and releasing it restores all counts |
| Admission.SecondReleaseIsNoOp | native_udp_association.go:194-210 | A ticket once released stays released; releasing it again changes nothing |
| Admission.Limiter.constructor | native_udp_association.go:161-174 | A new limiter is empty |
| Admission.Limiter.AcquireConnectUDP | native_udp_association.go:161-192 | The critical section computes Acquired and returns the new id or a refusal |
| Admission.Limiter.Release | native_udp_association.go:195-210 | The release closure computes Released, once |
| Peak.PeakIsMostHeld | native_udp_metrics.go:100-114 | For every interleaving the peak never decreases, and equals the most tickets held at once when all recorders finished |
| Peak.RetryMeansProgress | native_udp_metrics.go:104-112 | A failed swap means another recorder raised the peak since the load |
| Datagram.AcceptedExactlyCanonical | native_udp_protocol.go:186-198 | A datagram decodes to a payload exactly when it is the canonical encoding of that payload, one zero byte before it |
| Datagram.VarintForm | native_udp_protocol.go:186-198 | Integers take 1, 2, 4 or 8 bytes below 2^6, 2^14, 2^30 and 2^62, as section 16 of RFC 9000 fixes |
| Datagram.MinimalParse | native_udp_protocol.go:187-190 | A value parses in minimal length exactly when the input starts with its canonical encoding |
| Pumps.PumpH3ToUDP | native_udp_association.go:263-289 | Writes are the payloads of the accepted datagrams in order, each tried once; received = written + malformed + at most one failed write |
| Pumps.PumpUDPToH3 | native_udp_association.go:291-319 | Sends are the encodings of the packets read, in order, each tried once; packets = sent + oversize + at most one failed send |
| Pumps.AcceptsExactlyCanonical | native_udp_association.go:270-274 | The pump accepts exactly canonical encodings of payloads of at most 65535 bytes: a zero byte and up to 65535 more |
| Pumps.RelayIsFaithful | native_udp_association.go:263-319 | The packets one side reads, except those too large, failed or lost, are in order exactly what the other side writes |
| Association.ShutdownOrder | native_udp_association.go:251-260 | The result is non-nil, both pumps have reported; cancel, CancelRead, CancelWrite and the UDP close come in that order, then only received results, then the stream close |
| Association.ResultIsTheCause | native_udp_association.go:226-249 | What ends the loop is returned through the whole shutdown: the deadline, the pump's error or errConnectUDPClosed, the parent's cause, the stream's cause |
| Association.SomethingEndsTheLoop | native_udp_association.go:226-249 | Every association past its loop left it in one of these four ways |
| Association.CausesWereReported | native_udp_association.go:216-249 | The causes a loop can leave with were reported by a pump, the parent or the stream of the run |
| Association.RunReturns | native_udp_association.go:226-260 | From every reachable state, with pumps that return once cancelled, the association comes to its return |
| Association.PumpsNeverBlock | native_udp_association.go:216-220 | A pump that returned can always report |
| Association.NeverStuck | native_udp_association.go:226-260 | Shutdown always goes on once the pumps have ended; while looping the timer is set for the timeout after the last consumed activity, and each awaited event can be taken |
| Association.IdleExpiryIsNotEarly | native_udp_association.go:234-243 | The idle branch fires no sooner than the timeout after the last consumed activity, and sooner than that after the last activity only with a notification waiting |
| Association.PendingActivityCanBeIgnored | native_udp_association.go:227-243 | That case is reachable |
| Policy.TwoPassesVersusOneScan | native_udp_protocol.go:217-228 | A granted address has an allow as first matching rule; the two passes differ from the scan exactly when a matching non-domain allow precedes the first matching domain rule, a deny |
| Policy.PrePassDeniesWhatScanAllows | native_udp_protocol.go:217-228 | A catch-all allow before a domain denial: the scan allows every address of the host, the two passes none |
| Policy.ProvisionedScanIsTotal | forwardproxy.go:181-205 | After Provision some rule always matches; a default-denied address is allowed only by an operator rule that matches first |
| Policy.Provision | forwardproxy.go:181-205 | Fails exactly when a subject does not parse; otherwise one rule per subject, in entry order and subject order, then six denials and the catch-all |
| Policy.OperatorRulesAre | forwardproxy.go:181-190 | The operator's rules exist exactly when every subject parses, and are one per subject in order |
| Policy.FirstSubjectDecides | forwardproxy.go:181-205 | After Provision the entry of the first matching subject decides; with none, all but the private and local ranges is allowed |
| Policy.DefaultDenialsAreRanges | forwardproxy.go:191-198 | The default denials are 10/8, 127/8, 172.16/12, 192.168/16, ::1 and fe80::/10 as address ranges |
| Policy.AllEntryDecides | acl.go:73-74 | `deny all` denies every address, `allow all` allows every one |
| Policy.PortIsAllowed | forwardproxy.go:599-620 | A decimal port from 1 to 65535 that is listed, or any if none is |
| Policy.HostIsAllowed | forwardproxy.go:585-597 | True exactly when the first matching rule allows |
| Policy.PrepareTarget | native_udp_protocol.go:209-229 | Malformed, port-denied and domain-denied exactly in their cases |
| Acl.SubdomainRuleMatchesLabelSuffix | acl.go:48-59 | A `*.d` rule matches exactly the hosts, one leading dot trimmed, whose label list ends with d's labels |
| Acl.ExactRuleMatchesSameLabels | acl.go:48-59 | A plain domain rule matches exactly one label list |
| Acl.ParsedDomainRule | acl.go:72-122 | A parsed domain subject is that domain or `*.` before it, with labels of 1 to 63 characters, and matches by labels |
| Acl.ParsedRule | acl.go:72-101 | For every subject: the rule carries the entry's decision and matches what the subject means; none exactly when it is not "all", no network and no domain |
| Acl.CheckDomain | acl.go:103-122 | The loops accept exactly letters, digits, `_`, `-` and dots with sections of 1 to 63 characters |
| Acl.ContainsBlock | acl.go:31-34 | A network holds exactly its family's addresses in the aligned block of its base |

## Left out

- Write, short-write and flush errors of the copy loop: they only stop it, after a prefix of the modelled output.
- Raw reads that deliver no byte and no error on the receiving side: they change nothing but the number of iterations.
- Caddy plumbing, request routing, credentials, probe resistance, PAC file, hidden page, Caddyfile parsing: framework calls.
- The non-CONNECT forwarding path, hop-by-hop headers, upstream dialing and the HTTP client: thin layers over net/http and http2.
- parseConnectUDPTarget, canonicalDomain, CIDR, IP, IDNA and URL parsing: single-pass validation over library parsers.
- clientAddressKey and the close reason recorded for an association: one mapping each.
- The pumps' activity notifications: the association model lets them come at any moment a pump is at work.
- Padding negotiation and response header padding: single decisions and random bytes.
- Prometheus gauges and counters other than the peak value, and logging: the later gauge update is a separate, unordered step.
- The select loops of both schedulers and of the association as executable loops: they are step relations over values, since their steps interleave with other goroutines.
- QUIC streams and HTTP/3 capabilities: only the order of calls made by the association is kept.
- Padding.RemovePadding: takes the source as a byte string with one terminal error; a source that recovers after an error is not modelled.
- Peak.PeakIsMostHeld: speaks of the associations of one handler; the process-wide value is shared by all handlers.
