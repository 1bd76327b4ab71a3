# A verified model of hx

hx is a harness for authorised web assessments: it drives a proxy extension over a
local socket, captures traffic, crawls, scans, and records everything in one store
per engagement. This project models the parts of it whose correctness is a matter of
state, order or bytes, and proves what those parts promise. `dafny verify
dfyconfig.toml` checks all of it.

## What is modelled

**The bridge and the operator halt** (`BridgeState`, `Bridge`, `BridgeProofs`,
`BridgeTheorems`, `BridgeReplies`, `BridgeSends`, `BridgeServer`, `HaltLog`, `OperatorHalt`). Each
locked region, unlocked read, socket write and durable write of `BridgeServer` and
`OperatorHalt` is one step of a system in which the read thread, any number of
callers, a second process over the same engagement directory, and a crash of either
process may take the next step. The regions are functions of the shared fields (`BridgeState`); the
class `BridgeServer` runs the source's statements and is proved to compute them. The
theorems are about every run of the system.

**The scan** (`Probe`, `Identity`, `IdentityTrace`, `DedupeKeys`, `ScanPlan`, `Session`, `Scan`). `ProbeSender`,
`IdentityWindow`, the identity bracket and `scan.run` are classes and methods over one
wire, with a fault at every store statement, every candidate write, every canary and
every way a check can come back. What a run meets and does not decide is a `World`;
`ScanPlan` says what should become of every (surface, check) pair in it, `Session` what
the answers on the wire make of an identity, and `Scan` proves that the nested loop does
that.

**The store** (`Tables`, `Blobs`, `Store`, `Capture`). Two writers, `Capture.on_exchange`
and `issue`, one blob store outside the transaction, and the run lifecycle. Any
statement and any step of a blob put may fail; a transaction commits whole or not at
all. Each operation is a function of the store and of what will fail under it, the
method is proved to compute it, and when it succeeds is stated as a condition on both.
`Capture.Sink` is the read thread's accounting of frames nobody could keep.

**The crawler** (`Pages`, `Graph`, `Frontier`, `Search`, `Crawl`, `Cdp`). Breadth-first
search, as a function of the site and as the loop that cuts it short under three
budgets, and the NUL-delimited demultiplexer it drives a browser with.

**The codecs** (`Utf8`, `Json`, `JsonSpellings`, `Codec`, `FrameReader`, `ConfigBody`). Strict UTF-8
(RFC 3629 section 4), flat JSON (RFC 8259 section 7 for strings), length-prefixed
frames, two-body frames, the frame reader over a stream cut anywhere, and the
`configure` body.

**The normaliser and the request printer** (`Percent`, `Surface`, `Templates`,
`QueryKeys`, `Request`, `RequestParser`, `HttpText`). Percent-decoding to a bounded
fixed point (RFC 3986 section 2.1), path templates, query key sets; HTTP/1.1 request
serialisation and a strict recipient of it (RFC 9112 sections 2.2, 3 and 6.3).

`Options`, `Text`, `Chars` and `Insertion` hold what several of these share.

Text is a sequence of Unicode code points or of bytes, integers are unbounded as in
Python, and a Python exception is a result value. Clocks, randomness, the network and
the behaviour of the code behind a verdict are parameters.

## Where the code and its own words part

- A completed resume outlives a restart only if the clock did not step back: the
  latest of the two rows is the latest by timestamp (`HaltLog.ResumeSurvivesRestart`,
  `HaltLog.ResumeLostToTheClock`).
- A halt is re-asserted to a new peer before `on_hello`, but not before a `configure`
  by a caller already waiting in another thread: at any step, the halt frame of a hello
  has been written exactly when the read thread is past writing it
  (`BridgeReplies.HaltWrittenExactlyWhen`), and a run exists in which a configure goes
  out first (`BridgeReplies.OvertakenFromBoot`).
- "Only resume() does that" holds of the durable halt and not of the field `state`: a
  refused configure lifts an auto-halt and the next accepted one re-arms
  (`BridgeTheorems.OnlyTheseLeaveHalted`, `BridgeTheorems.ReArmedFromBoot`).
- The halt's lock belongs to one process. A halt stands in every continuation that
  records no resume exactly when its sentinel did not land between another process's
  resume row and its unlink (`BridgeTheorems.HaltStandsExactlyWhen`); a run in which
  one does leaves no trace of it (`BridgeTheorems.HaltLostFromBoot`).
- The `_conn is None` half of each commit guard is implied by the other half
  (`BridgeTheorems.TokenImpliesConnection`).
- `Frontier.next` asks about budgets before the empty queue, so a crawl that visited
  everything on exactly `max_pages` names a budget (`Crawl.CompleteYetTruncated`). It
  names none exactly when every budget leaves room for one visit more than there are
  pages (`Crawl.UntruncatedExactlyWhen`), and has visited everything exactly when every
  budget lasts until the last page is begun (`Crawl.CompleteExactlyWhen`).
- `scan.run` keeps a verdict's offer before it writes the verdict's findings. A row
  closed `error` retires a finding exactly when it lost a finding verdict that
  considered its issue type and nothing else stands in the way
  (`ScanPlan.ErrorRowExamines`, `Scan.ScanRun.ErrorRowRetires`), and it can retire the
  very finding it found again (`ScanPlan.ErrorRowRetires`,
  `Scan.ScanRun.RetireWhatWasFound`).
- A dedupe key is nine parts joined with `|`, and a path template may hold one: a finding
  on one surface and one at an insertion point of another can be filed under one string
  (`DedupeKeys.SpelledAlike`). Where no part but the last holds one, the string tells
  findings apart exactly as the parts do (`DedupeKeys.SpelledApart`).
- `_check_header` looks for unpaired surrogates in values and not in keys; a header
  with one in a key passes it and then raises something that is no FrameError
  (`Codec.EncodesExactlyWhen`). A peer that escapes such a key has its header handed on
  (`Codec.LoneKeyHandedOn`).
- `_kept_segment` is not injective. A segment at its fixed point is kept as another
  one is exactly when it is not UTF-8 and holds a brace or the spelling of one
  (`Surface.KeptMerges`; `%FF{` in `Surface.KeptMergesOne`).
- `request_bytes` promises one framed request. A strict recipient reads it so exactly
  when every given field name and the method are tokens, the target is visible, every
  given length is plain digits and `host` keeps to its line (`RequestParser.OneRequest`);
  `request_bytes` checks none of these whole. Names are stripped by Python's rules, so a
  name with a vertical tab before the colon suppresses the computed length and names
  none (`RequestParser.UnnamedLength`); `+0` is a length to `int()` and to nobody else
  (`RequestParser.SignedLength`); a line end in `host` adds a header line
  (`RequestParser.BrokenHost`).
- `issue` reads `ms`, normalises the url and opens its transaction after the request
  was sent. An answered request is on file exactly when `ms` is a number, the url can be
  normalised, outcome and status agree, the run is there and no put, statement or id
  fails (`Capture.IssuedExactlyWhen`); otherwise no row and no `requests_issued` speaks
  of it. An answer whose `ms` is no number, or that says "ok" and has no status, is never
  on file (`Capture.SentUnrecorded`).

## Model

| member | source | states |
|---|---|---|
| `HaltLog.Latest` | src/hx/halt.py:80-87 | the row the start-up query answers with is the newest by clock, and the last inserted of those |
| `HaltLog.ArmedAfterAppend` | src/hx/halt.py:80-88 | a row appended decides what the next process believes exactly when its timestamp is not older than the deciding row's |
| `HaltLog.ResumeSurvivesRestart` | src/hx/halt.py:171-192 | a recorded resume is believed after a restart if and only if no halt row deciding before it carries a later timestamp |
| `HaltLog.ResumeLostToTheClock` | src/hx/halt.py:80-88 | one microsecond back between the two rows is enough to come back halted |
| `OperatorHalt.OperatorHalt.constructor` | src/hx/halt.py:62-88 | a new process is armed as the row log says |
| `OperatorHalt.OperatorHalt.Halted` | src/hx/halt.py:96-126 | the union of memory and file, an unreadable file counting as halted |
| `OperatorHalt.OperatorHalt.Halt` | src/hx/halt.py:143-169 | after every fault point, the sentinel, the flag in memory and the log; issuance is stopped unless the sentinel itself could not be written |
| `OperatorHalt.OperatorHalt.Resume` | src/hx/halt.py:171-192 | after every fault point, the same three; a resume that raises leaves a sentinel that stood standing |
| `BridgeProofs.StepKeepsInv` | src/hx/bridge/server.py:331-922 | every step of the read thread, a caller, another process or a crash of either keeps the invariant that ties state, epoch, connection, generation, ids, replies and the halt's lock together |
| `BridgeProofs.Reachable` | src/hx/bridge/server.py:331-922 | the invariant holds in every state of every run |
| `BridgeTheorems.DenyAllWithoutConnection` | src/hx/bridge/server.py:385-406 | in every run, any state but "waiting" and any epoch but 0 is backed by the connection being served |
| `BridgeTheorems.TeardownAlwaysResets` | src/hx/bridge/server.py:378-406 | a teardown always finds its own generation, resets to DENY-ALL and wakes every waiter |
| `BridgeTheorems.TokenImpliesConnection` | src/hx/bridge/server.py:708-720 | at a commit, a current generation alone decides the guard |
| `BridgeTheorems.SameGeneration` | src/hx/bridge/server.py:331-406 | the generation never falls, and two equal readings enclose no accept and no reset |
| `BridgeTheorems.TokenKept` | src/hx/bridge/server.py:664-668 | a caller's token stays the generation it was taken at until it takes another |
| `BridgeTheorems.CommitOnSameConnection` | src/hx/bridge/server.py:664-732 | a commit of configure, halt or resume lands only on the connection its token was taken on, no disconnect or reconnect between |
| `BridgeTheorems.HaltStops` | src/hx/halt.py:143-169 | a halt's sentinel leaves nobody on the way to unlinking it exactly when it crosses no resume of the other process |
| `BridgeTheorems.HaltStands` | src/hx/halt.py:143-192 | a landed halt stands through disconnects, hellos, configures and crashes anywhere, until a resume records its row |
| `BridgeTheorems.HaltedSendsNothing` | src/hx/bridge/server.py:860-877 | under a halt, every locally enforced send begun is refused before it registers an id or writes a frame; of a bridge that is merely not configured, `BridgeSends` says so |
| `BridgeTheorems.OnlyTheseLeaveHalted` | src/hx/bridge/server.py:679-732 | exactly which steps can take the field `state` out of "halted" |
| `BridgeTheorems.ReArmedWithoutResume` | src/hx/bridge/server.py:693-731 | a refused and then an accepted configure take an auto-halted bridge to "configured" |
| `BridgeTheorems.Answered` | src/hx/bridge/server.py:664-732 | one whole configure exchange, step by step, and the state it ends in |
| `BridgeTheorems.HaltLostBetweenProcesses` | src/hx/halt.py:65-68 | an interleaving of two processes' transitions after which the halt leaves no trace |
| `BridgeTheorems.DiesHalfWay` | src/hx/halt.py:143-192 | a second process that dies half-way through a halt or a resume leaves a sentinel without its row, or a resume's row under a sentinel that still stands |
| `BridgeTheorems.HaltStandsExactlyWhen` | src/hx/halt.py:65-192 | in every run, a halt's sentinel survives every continuation without a resume, crashes of either process included, exactly when it crossed no resume of the other process |
| `BridgeTheorems.HaltLostFromBoot` | src/hx/halt.py:65-68 | a run from start-up that ends with no trace of a halt written in it |
| `BridgeTheorems.ReArmedFromBoot` | src/hx/bridge/server.py:693-731 | a run from start-up in which nothing but configures follows the target's halt and the bridge ends "configured" |
| `BridgeReplies.ClosedForGood` | src/hx/bridge/server.py:587-601 | an id no longer awaited and holding no reply is never answered again |
| `BridgeReplies.LateReplyIgnored` | src/hx/bridge/server.py:587-662 | once a caller gave up or collected, a reply to its id that comes later changes nothing |
| `BridgeReplies.ResetFailsWaiters` | src/hx/bridge/server.py:400-406 | nothing registered before a reset is returned after it |
| `BridgeReplies.CollectedOnce` | src/hx/bridge/server.py:646-662 | no reply is collected twice, by anyone |
| `BridgeReplies.DeliveredSince` | src/hx/bridge/server.py:587-601 | a reply held was delivered under its own id, to a waiter, by a step since there was none |
| `BridgeReplies.IdKept` | src/hx/bridge/server.py:625-637 | a caller keeps the id it registered under |
| `BridgeReplies.ReplyIsOwn` | src/hx/bridge/server.py:625-662 | a request that returns, returns the reply naming its own id, delivered after it registered, with no reset since |
| `BridgeReplies.HaltWrittenExactlyWhen` | src/hx/bridge/server.py:414-433 | while a halt stands, at every step after a hello and on its connection, the halt frame has been written exactly when the read thread is past writing it |
| `BridgeReplies.ConfigureOvertakesHalt` | src/hx/bridge/server.py:420-433 | a caller's configure frame can be on the wire before that halt frame |
| `BridgeReplies.OvertakenFromBoot` | src/hx/bridge/server.py:420-433 | a run from start-up in which a configure frame goes out under a standing halt that the peer was not told of |
| `BridgeSends.SendGoesOnExactlyWhen` | src/hx/bridge/server.py:860-880 | in every run, a send called with local enforcement gets past its checks exactly when they find, in turn, no halt in memory, no sentinel and a configured bridge; otherwise it has failed with no id and no frame |
| `BridgeSends.SendsOnlyConfigured` | src/hx/bridge/server.py:869-880 | DENY-ALL: a send that registers an id or writes a frame read "configured" since it was called, standing on a configure the peer acknowledged, with no accept, hello or denied configure since |
| `BridgeSends.ConfiguredByPeer` | src/hx/bridge/server.py:679-732 | in every state of every run `config_epoch` is the last epoch a configure committed since the last accept, hello or denied configure, else 0, and "configured" needs one |
| `BridgeSends.StandingMeans` | src/hx/bridge/server.py:664-732 | that epoch came in a reply of the peer's to the configure that committed it |
| `BridgeSends.SuccessIsAnswered` | src/hx/bridge/server.py:625-892 | in every run, a configure, identity or send that returned was answered, under its own id, with a frame of the type it asks for |
| `BridgeSends.CallAnswered` | src/hx/bridge/server.py:801-892 | a whole send, or identity, with nothing between but its reply: it returns exactly when the reply is of the type that answers it, and leaves only an id spent |
| `BridgeSends.ConfigureAnswered` | src/hx/bridge/server.py:664-732 | a whole configure, whatever the reply: what it makes of state and epoch, and whether it returns |
| `BridgeSends.HaltCalled` | src/hx/bridge/server.py:894-909 | a whole halt: armed and recorded with or without a peer, "halted" and returning exactly with one |
| `BridgeSends.ResumeCalled` | src/hx/bridge/server.py:911-922 | a whole resume: everything lifted and recorded with a peer, nothing lifted without one |
| `BridgeServer.BridgeServer.Reset` | src/hx/bridge/server.py:385-406 | the whole reset: nobody left waiting, no reply left behind, no earlier token current; nothing for a stale generation |
| `BridgeServer.BridgeServer.Deliver` | src/hx/bridge/server.py:587-601 | the locked half: a reply nobody awaits changes nothing; an awaited one is stored under its id, and its waiter's event is still to be set |
| `BridgeServer.BridgeServer.Register` | src/hx/bridge/server.py:626-630 | an id nobody has had, awaited and with no reply yet |
| `BridgeServer.BridgeServer.Collect` | src/hx/bridge/server.py:646-662 | the reply that names the id is taken out, or there is none; the id is finished with |
| `BridgeServer.BridgeServer.AcknowledgeConfigure` | src/hx/bridge/server.py:708-731 | the epoch and the state, "halted" kept |
| `Probe.RateLimitWait` | src/hx/checks/probe.py:334-346 | a wait exactly for a positive hint; never shorter than the hint up to the ceiling, and longer by the slack alone |
| `Probe.RetriesAndIssues` | src/hx/checks/probe.py:215-236 | which answer is waited out, and which refusals are no issuance: ten classes and no other, an unnamed or unknown one counting as sent |
| `Probe.Attempts` | src/hx/checks/probe.py:423-499 | at most three sends, each but the last a refusal to be waited out and no issuance |
| `Probe.IssuedCountSplits` | src/hx/checks/probe.py:423-499 | issuances over a stretch of the wire add up over its parts |
| `Probe.AttemptsIssue` | src/hx/checks/probe.py:423-499 | a get is at most one issuance however often it tries |
| `Probe.ProbeSender.Get` | src/hx/checks/probe.py:423-499 | which paths are refused before anything is sent; sends, sleeps, `sent`, `refused` and the outcome for every other path and every answer |
| `Probe.ProbeSender.GetAll` | src/hx/checks/probe.py:349-499 | over any sequence, refusals counted equal refusals raised, and `sent` equals the wire's issuances |
| `Probe.SendableMeans` | src/hx/checks/probe.py:423-450 | which paths are sent at all: from a slash, with no stretch in braces before the query, and encodable as Latin-1 |
| `Insertion.HoldsPlaceholderMeans` | src/hx/checks/probe.py:423-450 | a path is refused as a template exactly when, before its query, some stretch from slash to slash is in braces with something between |
| `Insertion.UnprobeableMeans` | src/hx/checks/probe.py:241-292 | a cookie, and a credential header in any case of its name, and nothing else, is a point no probe is sent to |
| `IdentityTrace.ProvenIsBracketed` | src/hx/identity.py:238-302 | where every canary passed and the last event is one, every row lies between two consecutive passing canaries |
| `IdentityTrace.GapBound` | src/hx/scan.py:1163-1179 | between two consecutive canaries all but the last row's probes number fewer than the schedule |
| `Identity.IdentityWindow.Open` | src/hx/identity.py:275-280 | the first result is latched, a failure is remembered, the count restarts |
| `Identity.IdentityWindow.NoteProbe` | src/hx/identity.py:282-293 | due exactly when the count reaches the schedule |
| `Identity.IdentityWindow.Close` | src/hx/identity.py:295-297 | a failure is remembered and nothing else moves |
| `Identity.IdentityWindow.StateForRun` | src/hx/identity.py:299-302 | dead, assumed or proven, from what was latched and remembered |
| `Identity.IdentityBracket.Canary` | src/hx/scan.py:1323-1366 | one liveness request; it passes exactly when its last answer is a 2xx with the declared signature |
| `Identity.PassesExactlyWhen` | src/hx/identity.py:190-235 | a canary passes exactly on a last answer that is "ok", 2xx, holds the declared signature, and does not hold the one declared absent |
| `Identity.IdentityBracket.Settle` | src/hx/scan.py:1225-1288 | raw and settled results, and the one refresh a programmatic identity gets, as the answers on the wire decide them |
| `Identity.IdentityBracket.Start` | src/hx/scan.py:1142-1161 | the run goes on exactly when the identity registers and the wire's answers settle the session live, and then opens proven |
| `Identity.IdentityBracket.Note` | src/hx/scan.py:1163-1179 | one row's probes on the trace; due exactly when the trace has the schedule behind it |
| `Identity.IdentityBracket.CanaryIfDue` | src/hx/scan.py:1181-1203 | nothing when not due; when due it goes on exactly when the wire's answers settle the session live, the trace then ends in a passing canary, and a first failure is remembered |
| `Identity.IdentityBracket.Finish` | src/hx/scan.py:1205-1223 | the settled state is proven exactly when no canary failed before and the wire's answers pass this one, which is when every canary from the opening one passed; then every probe is bracketed |
| `ScanPlan.SenderExactlyWhen` | src/hx/scan.py:426-635 | exactly when a probing check is handed a sender rather than skipped |
| `ScanPlan.HasSenderExactlyWhen` | src/hx/scan.py:426-640 | which row has a sender: its surface in time, its check one that probes, and past all six reasons to skip it |
| `ScanPlan.SkippedBecause` | src/hx/scan.py:426-620 | which of the six reasons a probing check is skipped for, each by its own condition, in the order they are asked |
| `ScanPlan.VerdictByCause` | src/hx/scan.py:386-722 | the verdict on every row, cause by cause, for every way a check can be skipped, return, refuse, raise or be interrupted |
| `ScanPlan.StopsByCause` | src/hx/scan.py:386-722 | exactly when the pass is left at a pair |
| `ScanPlan.SmoothExactlyWhen` | src/hx/scan.py:346-425 | the pass gets through some surfaces exactly when the heartbeat of each in time goes through and it is left at no pair of the plan |
| `ScanPlan.VisitedCounts` | src/hx/scan.py:346-385 | the surfaces counted as scanned are those the filter lets through in time |
| `ScanPlan.CarriesExactlyWhen` | src/hx/scan.py:937-1002 | a run has a bracket exactly when it is under an identity, has a bridge and a probing check, and there is a first surface to aim at |
| `ScanPlan.StoredByCause` | src/hx/scan.py:671-691 | what a check reports is stored up to the first failing write, and nothing else is ever stored |
| `ScanPlan.PlanOnce` | src/hx/scan.py:346-422 | the plan holds each check of each filtered surface once and nothing else |
| `ScanPlan.Covered` | src/hx/scan.py:346-722 | every filtered (surface, check) has exactly one row, no other pair has one, none is pending |
| `ScanPlan.RowTallies` | src/hx/scan.py:1760-1771 | the tally of reasons holds one reason per skipped row |
| `ScanPlan.TableOutside` | src/hx/scan.py:1853-1875 | a finding the run did not see is as it was, one it saw is on file |
| `ScanPlan.TableKeyed` | src/hx/store/records.py:786-852 | every row stays filed under the check and the issue type its dedupe key spells; which findings share one is `DedupeKeys.KeysAgree` |
| `ScanPlan.UpsertMeans` | src/hx/store/records.py:855-1037 | one candidate filed: its row moves to where it was last seen and by which check, and keeps the issue it was first filed as; every other row stands |
| `DedupeKeys.KeysAgree` | src/hx/store/records.py:770-852 | two findings of one scope share a key exactly when check, issue and point agree and, as far as the scope narrows it, origin, method and template |
| `DedupeKeys.SpelledApart` | src/hx/store/records.py:786-852 | the joined string tells two keys apart exactly when the parts do, where no part but the last holds the separator |
| `DedupeKeys.SpelledAlike` | src/hx/store/records.py:786-852 | and not where a template holds it: two keys of one string |
| `ScanPlan.SeenSighted` | src/hx/scan.py:671-691 | what a run saw is exactly what its pairs stored, each under the key of its check, surface and candidate |
| `ScanPlan.ExaminedMeans` | src/hx/scan.py:1512-1681 | a finding is examined exactly when some answered row of its surface and check named its issue type, and, for a probing check, the run is proven at that row's origin |
| `ScanPlan.ErrorRowExamines` | src/hx/scan.py:671-719 | of the rows closed error, exactly those that lost a finding verdict examine anything, and what they considered |
| `ScanPlan.ErrorRowRetires` | src/hx/scan.py:671-719 | a row that found a finding again, and failed to write it, lets it be retired |
| `Session.DeadStaysDead` | src/hx/scan.py:1181-1203 | a session that dies under a canary is not revived by what the run would still have come to |
| `Session.LivesExactlyWhen` | src/hx/scan.py:1142-1203 | a session lives through some pairs exactly when every canary due before one of them, its surface in time, settles live |
| `Session.LatePairs` | src/hx/scan.py:1835-1850 | the checks of a surface reached too late ask nothing of the wire |
| `Scan.ScanRun.Skip` | src/hx/scan.py:1760-1771 | the row and both tallies |
| `Scan.ScanRun.Spend` | src/hx/scan.py:1774-1802 | the sender's refusals to the tally, its issuances to the row and to the window |
| `Scan.ScanRun.File` | src/hx/scan.py:680-691 | the finding row, this run's observation, and the count of distinct findings |
| `Scan.ScanRun.WriteFindings` | src/hx/scan.py:672-691 | the candidates up to the first whose write fails |
| `Scan.ScanRun.Accept` | src/hx/scan.py:641-691 | the offer, the writes, and the verdict the row is to be closed with |
| `Scan.ScanRun.Handle` | src/hx/scan.py:425-720 | one check, through every exit of its `try`, ends as its fate says |
| `Scan.ScanRun.Conclude` | src/hx/scan.py:692-722 | the close of a row, its requests told to the row and to the window alike |
| `Scan.ScanRun.OneCheck` | src/hx/scan.py:386-722 | one pair keeps every ledger: rows, tallies, findings, offers, traffic, the identity trace and the session; it stops exactly where its world says or the session dies |
| `Scan.ScanRun.SkipRest` | src/hx/scan.py:1835-1850 | a surface out of time has every check recorded, none absent |
| `Scan.ScanRun.EachCheck` | src/hx/scan.py:386-722 | the checks of one surface in time, up to the first that the pass is left at |
| `Scan.ScanRun.OneSurface` | src/hx/scan.py:346-722 | one surface, in time or late |
| `Scan.ScanRun.Pass` | src/hx/scan.py:346-722 | the whole nested loop fills exactly the plan |
| `Scan.ScanRun.MarkUnobserved` | src/hx/scan.py:1878-1949 | observed is written false exactly for a finding on file, not seen, and examined; all or nothing |
| `Scan.ScanRun.Prepare` | src/hx/scan.py:937-1002 | a bracket exactly when there is a bridge, a probing check, a filtered surface and an identity, aimed at the first filtered surface; its session opens exactly as the wire answers |
| `Scan.ScanRun.Settle` | src/hx/scan.py:724-752 | the closing canary, then the state its answers and the earlier canaries settle, then the retirement |
| `Scan.ScanRun.Retires` | src/hx/scan.py:724-752 | exactly which findings a finished run retires; by a probing check only when proven at that origin with every row bracketed |
| `Scan.ScanRun.CountsFindings` | src/hx/scan.py:671-691 | of a finished run, two candidates written are on one row exactly when they are one finding, and counted as two when they are not; all of one finding count one |
| `Scan.ScanRun.ErrorRowRetires` | src/hx/scan.py:671-752 | exactly when a row closed error retires a finding of a finished run |
| `Scan.ScanRun.RetireWhatWasFound` | src/hx/scan.py:671-752 | a whole run that completes and retires the finding its one row found again and could not write |
| `Scan.ScanRun.Run` | src/hx/scan.py:209-819 | coverage, tallies, traffic conservation, findings, identity and retirement on return; with no identity it returns exactly when nothing in its world stops it; with one, exactly when the identity registers, the answers on the wire open its session and keep it live through every canary that falls due, and nothing in the world stops it under the state they settle, which is the run's; on a raise, nothing retired, never proven, and dead exactly when its session could not be opened live or was found dead under a canary |
| `Pages.NormaliseIdempotent` | src/hx/crawl/frontier.py:32-76 | a canonical address is its own normal form, with its own origin |
| `Pages.NormaliseTellsPages` | src/hx/crawl/frontier.py:32-76 | an address has a canonical form exactly when it may be visited; two have one form exactly when they are one page, and one origin exactly when scheme, host and effective port agree |
| `Pages.NormaliseKeeps` | src/hx/crawl/frontier.py:32-67 | scheme, query and a path that is there are kept, and the request goes where it went |
| `Graph.ExploredIsEverything` | src/hx/crawl/run.py:86-120 | a closed explored set that holds the seeds is what is reachable from them |
| `Graph.ProgressVisits` | src/hx/crawl/run.py:86-109 | one visit keeps distinctness, nearest-first order and the frontier's account of what is left |
| `Graph.ProgressMeans` | src/hx/crawl/run.py:86-120 | what that account means when the queue is empty |
| `Graph.ReachableByPath` | src/hx/crawl/run.py:86-120 | reachable is at the end of a path of links from a seed |
| `Graph.NearIsShortest` | src/hx/crawl/run.py:86-120 | in a nearest-first order no page found later has a path shorter than every path to an earlier one |
| `Frontier.Frontier.constructor` | src/hx/crawl/frontier.py:82-100 | the seeds' origins and the seeds' pages, each where it first stands |
| `Frontier.EligibleMeans` | src/hx/crawl/frontier.py:131-141 | an address is queued as its canonical form, and only on one of the seeds' origins |
| `Frontier.NewPagesOffered` | src/hx/crawl/frontier.py:102-141 | an offer queues exactly the pages that its addresses spell on those origins and that were not seen |
| `Frontier.Frontier.Enqueue` | src/hx/crawl/frontier.py:131-141 | queued exactly when the address normalises, to a page on a seed's origin, that is new; it is that page |
| `Frontier.Frontier.Offer` | src/hx/crawl/frontier.py:102-104 | the new eligible pages, each where it first stands, and how many; each on a seed's origin |
| `Frontier.NewPagesGrow` | src/hx/crawl/frontier.py:102-141 | those pages are exactly the eligible ones not seen, each once |
| `Frontier.Frontier.Next` | src/hx/crawl/frontier.py:109-129 | the first page queued unless a budget is spent, in the order they are asked |
| `Crawl.Count` | src/hx/crawl/run.py:92-108 | the tallies follow one visit |
| `Crawl.Crawl` | src/hx/crawl/run.py:64-120 | the unbudgeted search cut where a budget is first spent: each reachable page at most once, nearest first, each at the end of a path from a seed than which no page visited later has a shorter one; every page on the origin of a seed and spelled by a seed or by a page visited before it; and untruncated, it misses nothing those spell on a seed's origin |
| `Crawl.CompleteYetTruncated` | src/hx/crawl/frontier.py:109-127 | a crawl that visited everything and still names `max_pages` |
| `Search.Exhausts` | src/hx/crawl/run.py:86-120 | the search of a finite site is over after exactly as many visits as it has pages |
| `Search.AfterOnOffer` | src/hx/crawl/run.py:86-120 | after any number of visits, every page visited or queued lies on a seed's origin and is spelled by a seed or a page visited before it, and every page those spell there is seen |
| `Crawl.UntruncatedExactlyWhen` | src/hx/crawl/frontier.py:109-127 | no budget is named exactly when the reachable pages are finite and pages, requests and clock all leave room for one visit more |
| `Crawl.CompleteExactlyWhen` | src/hx/crawl/run.py:86-120 | every reachable page is visited exactly when they are finite and every budget lasts until the last is begun |
| `Cdp.Connection.FileFirst` | src/hx/crawl/cdp.py:129-146 | the first frame filed where it belongs, or gone from the buffer where filing it raises |
| `Cdp.Connection.Take` | src/hx/crawl/cdp.py:128-146 | after any chunk, what was handed out and what waits are the events of the frames taken, in order, once; all that the chunk completes is taken, and every reply filed under its id, exactly when none of it raises |
| `Cdp.Connection.Pump` | src/hx/crawl/cdp.py:110-146 | one read, and what it brought taken; or nothing changed, exactly as the read comes |
| `Cdp.Connection.Call` | src/hx/crawl/cdp.py:53-72 | the reply already there, or what comes of waiting for it: its own id's reply, a timeout, no peer or a bad frame, exactly as the reads bring them; events meanwhile are kept |
| `Cdp.Connection.AwaitMeans` | src/hx/crawl/cdp.py:53-72 | after any reads without its reply, a call answers with the last reply to it that the next read completes, fails where that raises or is none, and times out in silence |
| `Cdp.Connection.EventsOfEach` | src/hx/crawl/cdp.py:128-146 | the events of a stretch of frames do not depend on where it is cut |
| `Cdp.Connection.IncomingIs` | src/hx/crawl/cdp.py:74-87 | a drain reads what the reads bring, up to the first that brings nothing or the deadline |
| `Cdp.Connection.Drain` | src/hx/crawl/cdp.py:74-87 | it reads until the time is up or a read brings nothing, and raises exactly when something it read does; every event there was or that came is handed out, and none is left behind; where it raises, none is handed out and none is lost |
| `Cdp.PumpAll` | src/hx/crawl/cdp.py:110-146 | however a stream is cut, its events are the same, unless the last read ended on a frame that raises |
| `Tables.LiveIsNotStale` | src/hx/run.py:132-222 | no instant finds one run both live to a capture and dead to the reaper |
| `Tables.StaleExactlyWhen` | src/hx/run.py:182-222 | dead to the reaper exactly when running and last heard of longer ago than the window given, or half an hour |
| `Tables.LiveExactlyWhen` | src/hx/run.py:132-170 | live to a capture exactly when running and heard of within a quarter of an hour |
| `Tables.BeatenIsHeard` | src/hx/run.py:53-57 | a heartbeat keeps a running run from every reaper that cuts off no later, and an ended run hears none |
| `Tables.NamedIsThere` | src/hx/capture.py:326-349 | with no collisions, the blob under a row's reference is the body it was made for |
| `Tables.AdvancesOnward` | src/hx/run.py:60-72 | what no statement takes back, no sequence of them takes back |
| `Tables.CommittedKeeps` | src/hx/capture.py:344-372 | the transaction keeps every clause of coherence and takes nothing back |
| `Tables.SetRunKeeps` | src/hx/run.py:39-72 | a run row inserted or updated keeps coherence |
| `Tables.BlobsKeptKeeps` | src/hx/capture.py:326-335 | blobs added or repaired keep it too |
| `Tables.DeniedKeeps` | src/hx/store/records.py:567-607 | so does a denial row |
| `Tables.DroppedSet` | src/hx/run.py:255-279 | the engagement's drops move with one run's |
| `Blobs.BlobStore.Put` | src/hx/store/blobs.py:45-87 | a digest exactly where the file system lets its bytes be there under it; the files after every way of failing, none of which harms a blob |
| `Blobs.PathStaysInside` | src/hx/store/blobs.py:31-43 | no digest names a file outside the root, and no two name one file |
| `Blobs.BlobStore.Get` | src/hx/store/blobs.py:89-100 | bytes exactly when they are what their name says |
| `Blobs.BlobStore.PutThenGet` | src/hx/store/blobs.py:45-100 | what was put is what is got, exactly where the put returns |
| `Store.OpenRun` | src/hx/run.py:39-50 | one new running row exactly when the kind is one, the INSERT goes through and the id is new; otherwise nothing |
| `Store.Heartbeat` | src/hx/run.py:53-57 | moves a running row's heartbeat and nothing else, exactly when the UPDATE goes through |
| `Store.CloseRun` | src/hx/run.py:60-72 | ends a running row and leaves an ended one as it ended, exactly when the UPDATE goes through |
| `Store.CountDrop` | src/hx/run.py:255-279 | adds a positive count exactly when the UPDATE goes through, and refuses any other |
| `Store.Newest` | src/hx/run.py:148-170 | the running run of the kind that started last |
| `Store.CurrentRun` | src/hx/run.py:132-179 | a live run of the kind, never one the reaper would end at the same instant; an idle one ended as of when it was last heard; and when there is one to return |
| `Store.CurrentExactlyWhen` | src/hx/run.py:132-179 | a run is found or opened exactly when the one, two or three statements it takes go through and a new id is new |
| `Store.ReapStale` | src/hx/run.py:225-252 | exactly the stale runs end in error and no stale run is left, exactly when the SELECT and one UPDATE a stale run go through |
| `Capture.Transact` | src/hx/capture.py:344-372 | the statements, in order, come to the committed step or to nothing, wherever one fails |
| `Capture.TransactedExactlyWhen` | src/hx/capture.py:344-372 | the transaction is whole exactly when its guards hold, its run is there, its five statements go through and its ids are new; otherwise no table moves |
| `Capture.UpsertSurface` | src/hx/capture.py:374-408 | the surface under a key, touched or new, with exemplar, `first_seen_run` and `discovered_by` written once |
| `Capture.TellsByOutcome` | src/hx/store/records.py:641-718 | outcome by outcome, the statuses an exchange may be recorded with |
| `Capture.WriteExchange` | src/hx/store/records.py:610-718 | the exchange, its run's count and its surface, exactly then; or no change at all. The row names the request's body as its request and the response's as its response, none where there is none, and its redacted url |
| `Capture.PutBlob` | src/hx/capture.py:326-335 | a reference that resolves, before any row names it, exactly where the put returns |
| `Capture.RunFor` | src/hx/capture.py:81-92 | a run of the kind the source says, heard from, exactly when the statements go through |
| `Capture.RoutesRefusals` | src/hx/store/records.py:53-85 | a refusal gets a denial row exactly when it is no issuance and not the halt of a whole run, and each kind of row names its own refusals |
| `Capture.RoutesNowhere` | src/hx/store/records.py:494-553 | which classes get no row: what may have left, the halt, and what is no answer to a request |
| `Capture.TakeDrop` | src/hx/capture.py:179-211 | a drop report lands on a run's total exactly when it can be read and the statements go through; otherwise on nothing |
| `Capture.TakeDenial` | src/hx/capture.py:245-289 | one denial row of the class's kind, for a request that was never issued, exactly when the statements go through and the ids are new |
| `Capture.TakeExchange` | src/hx/capture.py:291-372 | one exchange filed under its own surface and counted by its own run, exactly when nothing on its way fails; its row names the bodies handed in, each as what it is |
| `Capture.OnExchange` | src/hx/capture.py:159-372 | refused exactly when unreadable and then untouched; taken exactly when readable and no guard, statement, put or id fails; coherent however anything fails; its row names the bodies handed in, each as what it is |
| `Capture.TakenExactlyWhen` | src/hx/capture.py:159-372 | the same two conditions, of the store and its faults, for every frame |
| `Capture.OnHalted` | src/hx/capture.py:94-157 | every running run aborted, exactly when the SELECT and one UPDATE a run go through; otherwise none |
| `Capture.Issue` | src/hx/issue.py:252-341 | the second writer keeps the same invariant; a refusal stores nothing; a ValueError after the send comes exactly of an unreadable `ms` or url, before any put, or of an outcome and a status that disagree, once both blobs are put; its row names the bodies handed in, each as what it is |
| `Capture.IssuedExactlyWhen` | src/hx/issue.py:286-331 | exactly when an answered request is on file, exactly when a ValueError follows the send, and that no table moves unless it is on file |
| `Capture.SentUnrecorded` | src/hx/store/records.py:659-676 | over any store, an answer whose `ms` is no number changes nothing, and one that says "ok" with no status is not on file and raises once its blobs are put |
| `Capture.Sink.Take` | src/hx/bridge/server.py:478-559 | a frame is kept exactly when the sink takes it; if not, its loss is one more drop on a run exactly when the sink still takes a drop frame; otherwise only the error count knows |
| `Capture.LossExactlyWhen` | src/hx/bridge/server.py:478-559 | the same, as conditions on the store before and between the two attempts |
| `Capture.Sink.Serve` | src/hx/bridge/server.py:478-559 | over any frames each is accounted for once, by that rule in turn; drops on the runs are those reported plus those counted |
| `Capture.WorkingStoreLosesNothing` | src/hx/bridge/server.py:478-559 | over a store whose statements go through, nothing is lost but drop reports that cannot be read, whatever blobs and rows are refused |
| `Utf8.RoundTrip` | src/hx/bridge/codec.py:96-102 | text with no surrogate is decoded from its encoding |
| `Utf8.ReadBack` | src/hx/bridge/codec.py:195-212 | bytes that decode are the only encoding of what they decode to |
| `Json.LoadsPrinted` | src/hx/bridge/codec.py:96-102 | what is printed parses back, for every flat header |
| `Json.LoadsDistinct` | src/hx/bridge/codec.py:205-216 | a parsed header has each key once |
| `JsonSpellings.LoadsSpelled` | src/hx/bridge/codec.py:205-216 | every spelling of a flat header is read as that header: space between any tokens, any character escaped or not, surrogate pairs joined; a key written twice keeps its last value |
| `JsonSpellings.LoadsEmpty` | src/hx/bridge/codec.py:205-216 | so is the empty one |
| `Json.PrintedVisible` | src/hx/bridge/codec.py:96-102 | no control character, so no raw newline, is ever printed |
| `Codec.EncodesExactlyWhen` | src/hx/bridge/codec.py:65-102 | exactly which headers and sizes encode, and which raise what |
| `Codec.HeaderOkMeans` | src/hx/bridge/codec.py:65-93 | the check a header must pass: a version, a type, no unpaired surrogate in a value, no number past a signed 64-bit integer |
| `Codec.LoneKeyHandedOn` | src/hx/bridge/codec.py:65-217 | any header with a key that is an escaped unpaired surrogate is decoded and handed on, and cannot be encoded |
| `Codec.HeaderEndsAtFirstNewline` | src/hx/bridge/codec.py:207-209 | the first newline of a payload is the one behind the header |
| `Codec.FrameRoundTrip` | src/hx/bridge/codec.py:96-232 | an encoded frame followed by anything decodes to its header, its body and its own length |
| `Codec.PrefixIncomplete` | src/hx/bridge/codec.py:195-203 | every proper prefix of a frame is incomplete |
| `Codec.VerdictStands` | src/hx/bridge/codec.py:195-232 | later bytes change no verdict once given |
| `Codec.DecodesAlone` | src/hx/bridge/codec.py:195-232 | only its own bytes decide a frame |
| `Codec.DecodedOk` | src/hx/bridge/codec.py:214-217 | a decoded header passes the check an encoded one must |
| `Codec.SplitsExactly` | src/hx/bridge/codec.py:130-192 | a payload splits exactly when its header declares the number 2 of bodies and it is two prefixed bodies to the last byte, and into those |
| `Codec.TwoBodiesRoundTrip` | src/hx/bridge/codec.py:105-192 | two bodies encoded, decoded and split are the two bodies |
| `FrameReader.FrameReader.Read` | src/hx/bridge/codec.py:253-271 | one frame, decided by the bytes and not by how they were cut; what follows is still there |
| `FrameReader.FrameReader.ReadAll` | src/hx/bridge/codec.py:235-271 | successive reads give exactly the frames sent, in order, no byte lost |
| `ConfigBody.BuildConfigBody` | src/hx/bridge/codec.py:274-286 | built exactly when every key is known and every value one encodable line; then those lines |
| `ConfigBody.KnownKeys` | src/hx/bridge/codec.py:274-279 | a key is known exactly when it is one of the nine names |
| `ConfigBody.ParseConfigBody` | src/hx/bridge/codec.py:455-466 | the body's lines, grouped by key, or the line or the bytes that are wrong |
| `ConfigBody.BuildThenParse` | src/hx/bridge/codec.py:274-466 | a configuration comes back whole but for keys with no value |
| `Percent.RoundShrinks` | src/hx/surface.py:102-116 | a round changes nothing it cannot read, and what it changes gets at least two characters shorter |
| `Percent.SpellingUnescapes` | src/hx/surface.py:102-116 | a text with no `%` is read back however its characters are escaped |
| `Surface.DecodeSegment` | src/hx/surface.py:119-153 | the fixed point repeated rounds reach from the segment, or the segment itself where that holds a slash; always so for at most 34 characters |
| `Surface.ReadingMeans` | src/hx/surface.py:119-153 | the same, of any fixed point reached within the bound |
| `Surface.AlwaysReaches` | src/hx/surface.py:119-150 | every segment reaches one, and one of at most 34 characters within the bound |
| `Surface.SpeltDecodes` | src/hx/surface.py:102-116 | one round reads a text with no `%`, however it is spelt, and leaves it alone |
| `Surface.FixedWithin` | src/hx/surface.py:119-150 | sixteen rounds reach the fixed point of any segment of at most 34 characters |
| `Surface.NotFixedAtThirtyFive` | src/hx/surface.py:119-150 | and not of one of 35 |
| `Surface.KeptUnbraced` | src/hx/surface.py:156-180 | a kept segment holds no brace |
| `Surface.KeptDecodes` | src/hx/surface.py:156-180 | keeping a segment loses nothing decoding would see |
| `Surface.KeptReadsBack` | src/hx/surface.py:156-180 | decoding undoes keeping exactly when there was nothing readable to decode |
| `Surface.KeptMerges` | src/hx/surface.py:156-180 | a fixed point is kept as another is exactly when it is not UTF-8 and holds a brace or the spelling of one |
| `Surface.KeptMergesOne` | src/hx/surface.py:168-180 | `%FF{` and `%FF%7B` are kept alike |
| `Templates.Unforgeable` | src/hx/surface.py:194-215 | a segment is in braces, and holds a brace at all, exactly where a shape rule fired |
| `Templates.NamedByShape` | src/hx/surface.py:194-215 | which name a segment is templated by: the first shape its reading has, unless preserved |
| `Templates.ShapesMean` | src/hx/surface.py:70-76 | what the four shapes are, character by character and group by group |
| `Templates.RoundsTemplateAlike` | src/hx/surface.py:119-215 | a spelling, what a round makes of it and the fixed point it comes to have one template, unless that holds a slash |
| `Templates.SpeltTemplatesAlike` | src/hx/surface.py:119-215 | a text with no `%` or slash has one template however it is spelt |
| `Templates.NumbersAreIds` | src/hx/surface.py:194-207 | a number is `{id}`, whichever of its digits are escaped |
| `Templates.SpellingsTemplateAlike` | src/hx/surface.py:194-215 | a segment and its reading have one template |
| `Templates.KeptSegmentsNameOneReading` | src/hx/surface.py:156-215 | two requests under one kept segment have one reading |
| `Templates.PathTemplate` | src/hx/surface.py:218-233 | segment by segment, none joined and none split |
| `Templates.PathsKeepTheirShape` | src/hx/surface.py:218-233 | as many segments as the path, in braces only where a rule fired |
| `QueryKeys.KeysApart` | src/hx/surface.py:236-247 | two keys are spelt alike only if equal, the empty one included, and never with a comma |
| `QueryKeys.RenderInjective` | src/hx/surface.py:250-262 | a listing is read back from its string |
| `QueryKeys.QueryKeySetInjective` | src/hx/surface.py:250-262 | two query texts are written alike exactly when they carry the same set of keys, and one is written at all exactly when each key can be encoded |
| `QueryKeys.ListingSorts` | src/hx/surface.py:250-262 | the listing is strictly ascending and holds exactly the keys of the query |
| `QueryKeys.UnquoteReads` | src/hx/surface.py:250-262 | a key of encodable text can be encoded, and where it is UTF-8 it is what strict decoding reads |
| `QueryKeys.BrokenIsLongest` | src/hx/surface.py:250-262 | where no code point can be read, one replacement stands for the longest beginning of one, or for a single byte |
| `QueryKeys.CleanQueryWritten` | src/hx/surface.py:250-262 | the query of any encodable text is written, whatever bytes it escapes |
| `QueryKeys.NoQueryIsNoKey` | src/hx/surface.py:250-262 | no query is the empty string and a query of the empty key is not |
| `Request.RequestBytes` | src/hx/issue.py:126-249 | the loop builds exactly the specified head and body, or raises exactly where it should |
| `RequestParser.OneRequest` | src/hx/issue.py:126-249 | a strict recipient, with its own grammar of names, method and target, reads one request with the same method, target, lines and body, whatever follows it, exactly when names and method are tokens, the target is visible, lengths are plain digits and the host keeps to its line; it refuses the rest, but for a host that breaks its line |
| `RequestParser.BrokenHost` | src/hx/issue.py:243-248 | a host with a line end in it builds the bytes of the request that was given the rest as a header line |
| `RequestParser.SignedLength` | src/hx/issue.py:200-213 | a signed length is accepted here and refused there |
| `RequestParser.IntsMean` | src/hx/issue.py:200-213 | which values `int()` takes for a length: digits with single underscores between, behind an optional sign; below zero only behind a minus |
| `RequestParser.UnnamedLength` | src/hx/issue.py:182-213 | a length line whose name only Python recognises: nothing on the wire names a length, and five bytes follow an empty body |
| `RequestParser.FieldsCount` | src/hx/issue.py:234-248 | where given names are tokens, one Host line and a length wherever there is a body, by the names a recipient goes by |
| `RequestParser.FramingExactly` | src/hx/issue.py:200-213 | the length a recipient frames by, from any accepted lines |
| `HttpText.RecoversBodyAndTarget` | src/hx/http_text.py:24-44 | the repository's own readers recover the body and the target of a built request |
| `HttpText.HeadEnds` | src/hx/http_text.py:24-44 | the blank line is found at the end of the head and no bare pair of line feeds before it |

## Left out

- Json.Loads: a reader of flat objects only. Where `json.loads` gives a nested value or a float its caller refuses the header, and so does this reader; a nested value overridden by a later duplicate key, and a nesting deep enough to exhaust the interpreter, are not modelled.
- Scan.ScanRun.CountsFindings: a row is filed under the nine parts of its key, not under the string they are joined to; `DedupeKeys` says where the two agree.
- Scan.ScanRun.Run: starts from a run row nothing else has written to; the tally of refusal classes is kept but its total over a run is not stated.
- Scan.ScanRun.MarkUnobserved: reads the finding rows in an order given to it, whatever that order is.
- ScanPlan.SenderExactlyWhen: the insertion points and the concrete path of an exemplar request are given; `insertion.derive` and `request_path` are not part of this model beyond `_request_target`.
- Store.CurrentRun: one engagement per store, as `hx.engagement` keeps it, so no query filters on one.
- Capture.WriteExchange: row ids are drawn from a given sequence and an id already taken fails its statement; a BEGIN or a COMMIT that raises is not a statement of its own.
- Capture.OnExchange: one clock reading serves a whole frame.
- Blobs.BlobStore.PutThenGet: assumes no two byte strings with one digest; the permission bits and the staging file's own name are not modelled.
- QueryKeys.QueryKeySetInjective: of a query's text; which part of a url is its query is `urlsplit`'s word, which is not part of this model.
- RequestParser.OneRequest: of a field value the recipient checks line ends and NUL; it does not parse a Host value as host and port, nor a target as a path and query.
- Cdp.Connection.Call: what `json.loads` and the test for an id make of a frame is a given function: to a reply, to an event, to no JSON, or to a TypeError.
- Pages.NormaliseIdempotent: over the fields `urlsplit` yields; the text of a URL, IPv6 literals and `hx.surface.normalise`'s own use of them are not modelled.
- Crawl.Crawl: what a page visit reports is a fixed function of the page, so a page that changes between two crawls is two sites here.
- `identity_body` and `parse_identity`, the one nested JSON body.
- Socket, process and file plumbing: peer credentials, file modes, fsync, Burp and browser launch, signals.
- The SQL text and the tables no claim above needs; report, coverage, tool and command-line rendering; YAML and config validation; the bodies of the checks; the web application.
- `triage`, `delta` and the two registries, which would add only easy members.
