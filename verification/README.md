# kseal server: a verified model

This project models the stateful core of the kseal server in Dafny 4.11 and proves what
that core promises over whole runs. `dafny verify dfyconfig.toml` verifies every file.
Nothing here executes the server, and no result below comes from executing anything.

What is modelled, component by component:

- **Fleet-anomaly engine** (`WindowRing`, `Fleet`, `FleetAssess`, `FleetScope`, `FleetLru`,
  `FleetEngine`, `FleetSnapshot`, `FleetSteady`, `SnapshotCache`): a ring of epoch-tagged buckets that must
  agree with the full history of observations, moving-average baselines fed by the buckets
  that leave the ring, surge and velocity tests, sharded least-recently-used maps, the sorted
  snapshot with its binary searches, and the single-flight snapshot cache.
- **Guardrail detector** (`Guardrails`, `GuardrailModules`, `GuardrailDetector`): the same ring
  per policy scope, with pruning; the detector itself updates arrays of buckets in place.
- **Durable ingest** (`EventCodec`, `EventWire`, `IngestPipeline`, `IngestWriter`, `Paging`,
  `EventStore`): the varint event codec, the protocol between the Kafka consumer and the
  batching Writer, and newest-first keyset pages over a store that keeps changing.
- **Compliance** (`AuditChain`, `AuditStore`, `AuditListing`, `AuditReads`, `MemStore`,
  `KillSwitch`, `SwitchSigning`, `SwitchRuns`, `ScopeKeys`): the canonical audit encoding and
  hash chain, the in-memory store's audited mutations, audit listing, kill-switch resolution
  and what kill switches are signed over.
- **SIEM export** (`Siem`, `SiemExporter`): tenant pipes under concurrent submission, idle
  reaping, recreation and Stop.
- **Trust** (`Trust`, `TrustService`): single-use nonces, sessions and request sequences
  under every interleaving, and the request-proof check.
- **Rate limiting** (`TokenBucket`): the Redis token bucket script.
- **Risk** (`Risk`): bit translation, saturating score, level and decision.

`Bytes` (Go strings as bytes, bytewise order, decimal integers) and `Sorting` (sort.Slice as
any sorted arrangement) are shared.

How it is modelled. Where the source updates objects in place, a class or a method with loops
is proved against a specification function; the theorems are about that function and its runs.
Concurrent code is a labelled transition system whose steps are single lock sections, scripts
or channel operations, and the theorems hold for every interleaving. SHA-256 is a function
parameter; the binding theorem is stated both for a digest that does not collide on the events
at hand and, with no assumption on it, as "the lists agree or two of their events collide". Clocks, random values,
the shard hash, key-source answers and outcomes of store writes are parameters.

## Where the code does less than its comments say

Each of these is stated with a concrete input or run and with the exact condition under which
the promise holds.

- A record that does not decode is marked committable at once (broker_kafka.go:330-337). Marked
  and committed positions stay covered by the store exactly when no earlier record of that
  partition still waits: `StepExact`, `PoisonExact`, over whole runs `RunExact`, and the losing run
  `PoisonLoses`.
- After an abandoned flush, a later acknowledgement pops the abandoned records (writer.go:389-393).
  It is safe exactly when those are already stored: `AckPopExact`, and the losing run `AbandonLoses`.
- The event decoder is called the exact inverse of the encoder (event_codec.go:62-65). Decoding an
  encoding gives the event back exactly when its strings are at most 1 MiB (`RoundTrip`), and an
  accepted byte string is the encoding of its event exactly when its varints are in shortest form,
  its narrow fields are in range and its version is current (`ExactInverse`).
- That dropping any event breaks verification (audit.go:109-110) fails for the last event and only
  for it: `DropDetected`. Length prefixes are 32 bits wide, so preimages are unambiguous exactly while
  every length is below 2^32: `InjectiveExactly`, with the colliding entries in `LongFieldsCollide`; the
  same for kill switches, `SigningInjectiveExactly`.
- A kill switch's signature is said to cover every field except itself (killswitch.go:33-34). It does not
  cover the key id: `PreimageExact`.
- An observation older than the whole window overwrites the live bucket in its slot. The ring keeps
  agreeing with the history exactly when that bucket held nothing: `ObserveExact`,
  `LateObservationErases`.
- Pruning a guardrail scope loses module false-positive rates: `ModuleRateLost`. What a rate then is, on
  every run, is `ModuleRateIsHistory`. Decision totals are unaffected.
- Joined scope keys collide when a part contains a NUL byte: a scope owns its key exactly when its
  parts are free of NUL, `OwnKeyExact`.
- A SIEM caller that found its pipe before Stop can be accepted after the pipe has drained for the
  last time. Once every pipe has exited, everything accepted was delivered exactly when that did not
  happen: `StopExact`, step by step `SettledExact`, and the losing run `StopLoses`.
- The token bucket grants a window no more than capacity plus rate times its length exactly when the
  clock readings in it earn no more than that length: `LengthBoundExact`. A clock that never goes back
  is enough (`SteadyClockBound`); one replica running late is too much (`SkewOvergrants`).
- Pages ordered by (bucket, id) are complete at every page size exactly when equal pairs mean equal
  matching events: `ListingExact`, with two events that break it in `TieLosesAnEvent`. Which events a
  given listing misses is `ListingMissesOnlyTies`.

## Model

| member | source | states |
|---|---|---|
| EventCodec.UvarintRoundTrip | server/data-plane/ingest/event_codec.go:119-130 | reading the varint of any 64-bit value, whatever follows it, gives the value and its length |
| EventCodec.ZigZagRoundTrip | server/data-plane/ingest/event_codec.go:132-143 | signed varints come back for every 64-bit integer |
| EventCodec.RoundTrip | server/data-plane/ingest/event_codec.go:40-104 | decoding an encoded event gives that event back if and only if its strings are at most 1 MiB, and the error otherwise is the length error |
| EventCodec.PrefixRejected | server/data-plane/ingest/event_codec.go:66-104 | every strict prefix of an encoding is rejected |
| EventCodec.ExtensionRejected | server/data-plane/ingest/event_codec.go:97-104 | every strict extension of an encoding is rejected |
| EventCodec.VersionOne | server/data-plane/ingest/event_codec.go:66-90 | the version-one bytes of an event decode to the same event with the layout unknown |
| EventCodec.ExactInverse | server/data-plane/ingest/event_codec.go:62-104 | an accepted byte string is the encoding of what it decodes to if and only if its varints are shortest, its narrow fields in range and its version current |
| EventWire.AppendUvarint | server/data-plane/ingest/event_codec.go:106-109 | the seven-bits-at-a-time loop appends exactly the varint |
| EventWire.ReadUvarint | server/data-plane/ingest/event_codec.go:119-130 | the shift-and-or loop computes the value, length and overflow answer of the recursive definition, with no wrap-around before the overflow test |
| EventWire.EncodeStoredEvent | server/data-plane/ingest/event_codec.go:40-60 | growing one buffer field by field produces the specified encoding |
| EventWire.StickyIsFirstError | server/data-plane/ingest/event_codec.go:111-166 | a decoder that latches its first error and then reads zeros ends with the error, or the fields, of reading them one by one |
| EventWire.Decoder.Uvarint | server/data-plane/ingest/event_codec.go:119-130 | one read appends its token to what was read and leaves the decoder in the specified state |
| EventWire.Decoder.String | server/data-plane/ingest/event_codec.go:145-166 | a string read, with both length checks, appends its token and leaves the specified state |
| EventWire.DecodeStoredEvent | server/data-plane/ingest/event_codec.go:66-104 | the sticky-error decoder answers exactly what the specification does, error by error |
| IngestPipeline.StepExact | server/data-plane/ingest/broker_kafka.go:292-355 | from a good state, marked and committed offsets stay covered by the store if and only if the step is careful, and careful steps keep the state good |
| IngestPipeline.RunExact | server/data-plane/ingest/broker_kafka.go:292-355 | along every run, marked and committed offsets are covered by the store in each state if and only if each step is careful |
| IngestPipeline.PoisonExact | server/data-plane/ingest/broker_kafka.go:330-337 | marking an undecodable record keeps offsets covered if and only if every pending record of its partition is already stored |
| IngestPipeline.AckPopExact | server/data-plane/ingest/broker_kafka.go:292-309 | an acknowledgement keeps offsets covered if and only if the abandoned records it pops are already stored |
| IngestPipeline.AtLeastOnce | server/data-plane/ingest/broker_kafka.go:311-355 | on every interleaving of careful steps, crashes included, each decodable record below a committed position has its event in the store |
| IngestPipeline.AckPopsTheBatch | server/data-plane/ingest/writer.go:378-394 | with nothing abandoned, the records popped are those of the persisted batch, position by position |
| IngestPipeline.DrainedIsComplete | server/data-plane/ingest/writer.go:404-411 | when everything was read and nothing is pending, every record ever logged is stored or undecodable |
| IngestPipeline.CarefulWithoutPoison | server/data-plane/ingest/broker_kafka.go:311-355 | a run with no undecodable record and no abandoned flush takes only careful steps |
| IngestPipeline.PublishedIsNoPoison | server/data-plane/ingest/broker_kafka.go:253-282 | what this server publishes, with strings of at most 1 MiB, is never an undecodable record |
| IngestPipeline.PoisonLoses | server/data-plane/ingest/broker_kafka.go:330-337 | a run with one undecodable record and no abandoned flush that commits past, and loses, a good event |
| IngestPipeline.AbandonLoses | server/data-plane/ingest/writer.go:386-393 | a run of well-formed records with one abandoned flush that commits past, and loses, an event |
| IngestWriter.KafkaBroker.Ack | server/data-plane/ingest/broker_kafka.go:292-309 | pops the first n pending records, or all, and moves each partition's mark to cover them |
| IngestWriter.KafkaBroker.Handle | server/data-plane/ingest/broker_kafka.go:327-352 | one polled record takes the fields through the protocol's poll step and, when it decodes, its send or stop step |
| IngestWriter.Writer.FlushWithRetry | server/data-plane/ingest/writer.go:434-461 | succeeds exactly when the last attempt is written; the store gains what landed and then the batch; the k-th wait is the initial backoff doubled k times, capped |
| IngestWriter.Writer.Flush | server/data-plane/ingest/writer.go:378-394 | a flush performs the protocol's write, acknowledge or abandon steps and starts an empty batch |
| IngestWriter.FlushRun | server/data-plane/ingest/writer.go:378-461 | the label sequence of a whole flush, retries included, leads the protocol to the state the Writer ends in |
| IngestWriter.Writer.Add | server/data-plane/ingest/writer.go:395-403 | taking an event performs the protocol's receive step, and a flush when the batch is full |
| IngestWriter.Writer.Drain | server/data-plane/ingest/writer.go:466-478 | empties the channel by protocol steps, however each flush goes; when each is written in the end, nothing stored, batched or buffered is lost, copy for copy |
| Paging.CutIsPage | server/data-plane/ingest/writer.go:240-263 | cutting the sorted matches past the cursor at the limit yields a page: ordered, complete above its next cursor, and with a next cursor exactly when matches remain |
| Paging.WalkDescends | server/data-plane/ingest/writer.go:219-264 | whatever changes between pages, with unique keys the keys shown strictly descend over the whole walk |
| Paging.NothingSkipped | server/data-plane/ingest/writer.go:219-264 | an item present at every page has been shown, is still ahead of the cursor, or has the key at which a page was cut |
| Paging.MissedExactly | server/data-plane/ingest/writer.go:219-264 | an item present at every page of a finished walk is missed if and only if a page was cut at its key before it was shown |
| Paging.TieExample | server/data-plane/ingest/writer.go:219-264 | two items with one key read one per page: the second is never shown |
| Paging.WalkOrdered | server/data-plane/ingest/writer.go:219-264 | whatever changes between pages and however keys repeat, the keys shown never get newer |
| Paging.OnePerPageExact | server/data-plane/ingest/writer.go:219-264 | a finished walk of one item per page over an unchanged collection shows everything if and only if equal keys mean equal items |
| Paging.WalkExists | server/data-plane/ingest/writer.go:219-264 | from every collection and at every limit there is a walk to the end |
| Paging.QuietWalk | server/data-plane/ingest/writer.go:219-264 | over an unchanged collection where equal keys mean equal items, a finished walk shows every item, none more often than it is there, newest first; with unique keys exactly the collection |
| Paging.WalkLength | server/data-plane/ingest/writer.go:257-262 | every page but the last of a walk over an unchanged collection shows the full limit, so it cannot go on for more pages than there are items |
| EventStore.NewerIsKeyOrder | server/data-plane/ingest/writer.go:267-272 | the page order on (bucket, id) is a strict total order |
| EventStore.CursorRoundTrip | server/data-plane/ingest/writer.go:274-295 | every key comes back from its cursor, for all 64-bit buckets and all ids, colons included |
| EventStore.InMemoryAnalyticsStore.ListEvents | server/data-plane/ingest/writer.go:222-264 | refuses a bad cursor; otherwise the newest matches past the cursor, at most the clamped limit, with a cursor that decodes to the last one exactly when matches remain |
| EventStore.InMemoryAnalyticsStore.PurgeOlderThan | server/data-plane/ingest/writer.go:180-201 | removes exactly the tenant's events before the cutoff and counts them; a context found done at a check leaves the store as it was and returns the count reached there |
| EventStore.ListingDescends | server/data-plane/ingest/writer.go:219-264 | with arbitrary writes and purges between pages, no key is shown twice and none out of order |
| EventStore.ListingComplete | server/data-plane/ingest/writer.go:219-264 | a matching event in the store at every page of a finished listing was shown, where equal keys mean equal matching events; copies of one event, as redelivery makes, are allowed |
| EventStore.ListingMissesOnlyTies | server/data-plane/ingest/writer.go:219-264 | without unique keys, an event present throughout a finished listing is missed if and only if a page was cut at its own key before it was shown |
| EventStore.QuietListing | server/data-plane/ingest/writer.go:219-264 | over an unchanged store the listing ends; where equal keys mean equal matching events it has shown every one of them, none more often than stored, newest first, and with unique keys exactly the matches |
| EventStore.ListingExists | server/data-plane/ingest/writer.go:219-264 | over every store and at every page size a caller can follow cursors to the end |
| EventStore.ListingExact | server/data-plane/ingest/writer.go:219-264 | over an unchanged store listings are complete at every page size if and only if equal keys mean equal matching events |
| EventStore.OnePerPage | server/data-plane/ingest/writer.go:219-264 | a finished listing of one event per page shows every match if and only if equal keys mean equal matching events |
| EventStore.TieLosesAnEvent | server/data-plane/ingest/writer.go:219-272 | two events of two tenants with the same bucket and id, listed one per page: never are both shown |
| AuditChain.PartsInjective | server/control-plane/compliance/audit.go:66-80 | sequences of fields of the same kinds below 4 GiB with equal bytes are equal |
| AuditChain.MetadataInjective | server/control-plane/compliance/audit.go:82-100 | metadata maps with equal canonical bytes are equal |
| AuditChain.WriteMetadata | server/control-plane/compliance/audit.go:85-100 | the sorted-key loop writes the canonical bytes whatever order the map is ranged in |
| AuditChain.PreimageInjective | server/control-plane/compliance/audit.go:102-124 | equal preimages of bounded entries mean equal sequence, entry, time and previous hash |
| AuditChain.LongFieldsCollide | server/control-plane/compliance/audit.go:72-80 | two different entries with fields of at least 4 GiB have the same preimage |
| AuditChain.InjectiveExactly | server/control-plane/compliance/audit.go:72-124 | entries whose lengths are all below b have different preimages when they differ if and only if b is at most 2^32 |
| AuditChain.BuildPreimage | server/control-plane/compliance/audit.go:111-124 | the buffer built field by field is the specified preimage |
| AuditChain.Recompute | server/control-plane/compliance/audit.go:144-172 | verifies the longest intact prefix and names the first event that breaks the chain |
| AuditChain.HeadBindsOrCollides | server/control-plane/compliance/audit.go:102-172 | for every digest, two accepted lists with the same head agree in length and every hashed field, or an event of one and an event of the other with different preimages and equal digests are exhibited |
| AuditChain.HeadBinds | server/control-plane/compliance/audit.go:102-172 | when the digest has no collision among the two lists' events, the reported head hash determines the whole list |
| AuditChain.DropDetected | server/control-plane/compliance/audit.go:109-110 | removing one event is detected if and only if it is not the last |
| AuditChain.ReorderDetected | server/control-plane/compliance/audit.go:109-110 | exchanging two events is always detected |
| AuditStore.RunsVerify | server/control-plane/compliance/mem.go:54-92 | after every run of mutations across tenants each chain is intact and has one event per accepted mutation of its tenant |
| AuditStore.RunVerdict | server/control-plane/compliance/mem.go:133-140 | verification after any run reports intact with a count equal to the tenant's accepted mutations |
| AuditStore.ChainsGrow | server/control-plane/compliance/mem.go:54-79 | an earlier chain is a prefix of every later one |
| AuditStore.VersionIsCount | server/control-plane/compliance/mem.go:191-204 | a scope's version is the number of kill switches issued under its key, along every run |
| AuditStore.SwitchEntryRecords | server/control-plane/compliance/helpers.go:50-71 | two issues with the same audit entry agree in scope, actor, command name and version |
| AuditStore.CanariesOk | server/control-plane/compliance/mem.go:236-346 | in every reachable store a promoted canary is at 100 percent with the candidate stable, a rolled-back one at 0, and no percentage exceeds 100 |
| AuditStore.EffectiveIsLatest | server/control-plane/compliance/store.go:94-105 | over NUL-free scopes, the command in effect is the last one issued for the most specific scope ever issued, whatever order the map lists switches in |
| AuditListing.NewestIsPage | server/control-plane/compliance/mem.go:109-130 | cutting the chain's matching events below the token, newest first, at the page size makes a page of the selected events |
| AuditListing.GrowingListing | server/control-plane/compliance/mem.go:94-131 | following tokens to the end while events are appended shows exactly the first page's matching events, once each, newest first |
| AuditReads.ReachableListing | server/control-plane/compliance/mem.go:54-131 | on every run of the store, a caller that follows the tokens to the end while mutations go on sees exactly the matching events the tenant's chain held at the first page, once each, newest first |
| MemStore.MemStore.AppendLocked | server/control-plane/compliance/mem.go:54-79 | appends one event with the next sequence number, linked to the head hash; an entry without an action changes nothing |
| MemStore.MemStore.AppendAudit | server/control-plane/compliance/mem.go:81-92 | takes the store to the specified one, keeps every chain intact, and reports success exactly when the mutation is accepted |
| MemStore.MemStore.IssueKillSwitch | server/control-plane/compliance/mem.go:179-213 | signs and stores the next version for the scope and audits it; refused input or a missing key changes nothing; every chain stays intact |
| MemStore.MemStore.SetCanary | server/control-plane/compliance/mem.go:236-281 | stores the rollout with its last-event text, keeping the recorded stable policy only when none is given, and audits it |
| MemStore.MemStore.PromoteCanary | server/control-plane/compliance/mem.go:305-323 | promotes a known canary, with its last-event text, and audits it; an unknown one changes nothing |
| MemStore.MemStore.RollbackCanary | server/control-plane/compliance/mem.go:325-346 | rolls a known canary back, records what was observed and why, and audits it |
| MemStore.MemStore.VerifyAudit | server/control-plane/compliance/mem.go:133-140 | the verdict of the tenant's chain; an empty tenant is refused |
| MemStore.Collect | server/control-plane/compliance/mem.go:110-130 | the backward loop collects the newest chosen events up to the size and reports whether another exists |
| MemStore.MemStore.ListAudit | server/control-plane/compliance/mem.go:94-131 | refuses an empty tenant or bad token and otherwise returns a page of the chain, in every store the mutations can reach |
| MemStore.MemStore.ListKillSwitches | server/control-plane/compliance/mem.go:215-234 | the tenant's switches and no others, each as often as the map holds it, sorted by app and build, whatever the map order |
| MemStore.ListedOnce | server/control-plane/compliance/mem.go:191-234 | in every reachable store a switch is held under one key only, so it is listed once |
| ScopeKeys.OwnKeyExact | server/control-plane/compliance/mem.go:47-49 | a scope shares its key with no other scope if and only if its parts contain no NUL byte |
| ScopeKeys.NulCollides | server/control-plane/compliance/mem.go:47-49 | every scope with a NUL byte has another scope with the same key |
| KillSwitch.ResolveEffective | server/control-plane/compliance/killswitch.go:84-98 | returns a covering switch no covering switch outranks, and nothing exactly when none covers |
| KillSwitch.RankIsTarget | server/control-plane/compliance/killswitch.go:57-78 | of the scopes that cover one query there is at most one of each specificity |
| KillSwitch.OrderIrrelevant | server/control-plane/compliance/killswitch.go:80-98 | with distinct scopes the answer does not depend on the order of the list |
| KillSwitch.GetState | server/control-plane/compliance/store.go:99-105 | the effective switch's command, and enabled when there is none |
| SwitchSigning.PreimageExact | server/control-plane/compliance/killswitch.go:14-31 | two switches are signed over the same bytes if and only if they agree in scope, command, version, time and reason; the key id is not covered |
| SwitchSigning.SigningInjectiveExactly | server/control-plane/compliance/killswitch.go:14-31 | switches with texts below b that order differently have different signed bytes if and only if b is at most 2^32 |
| SwitchSigning.DomainsSeparate | server/control-plane/compliance/killswitch.go:9-12 | a switch's signed bytes are never those of an audit event, a signed config or a request proof, however long the fields |
| SwitchSigning.BuildSwitchPreimage | server/control-plane/compliance/killswitch.go:19-31 | the buffer built field by field is the specified preimage |
| SwitchRuns.HeldIsIssued | server/control-plane/compliance/mem.go:179-213 | every switch in a reachable store was issued by an operation of the run and carries that operation's signature over its own bytes |
| SwitchRuns.EachIssueIsItsOwn | server/control-plane/compliance/mem.go:190-213 | along a run later issues of a scope have greater versions, and no two issues are signed over the same bytes |
| Siem.StepKeeps | server/data-plane/siem/exporter.go:135-200 | every step of callers, pipes, reaping and Stop keeps the pipe invariant |
| Siem.PipesConserve | server/data-plane/siem/exporter.go:135-334 | on every interleaving a closed pipe is empty, an open pipe is the registered one of its tenant, and accepted events are, in order, those delivered and then those held |
| Siem.SettledExact | server/data-plane/siem/exporter.go:204-221 | a goroutine past its last drain keeps an empty queue through a step if and only if the step accepts nothing onto it |
| Siem.RunSettledExact | server/data-plane/siem/exporter.go:204-221 | along every run, nothing waits behind a last drain if and only if every step so far was in time |
| Siem.StopExact | server/data-plane/siem/exporter.go:202-221 | at any point of a run where every pipe has exited, everything accepted was delivered if and only if every step up to it was in time |
| Siem.StopDelivers | server/data-plane/siem/exporter.go:202-221 | while every step so far was in time, a pipe that has exited has delivered everything its tenant was accepted, whatever the other pipes do |
| Siem.StopLoses | server/data-plane/siem/exporter.go:135-163 | a run in which an event is accepted after its pipe's goroutine has gone |
| Siem.PastDrainForGood | server/data-plane/siem/exporter.go:296-319 | what is queued on a pipe past its last drain stays there through every step |
| SiemExporter.TenantPipe.Enqueue | server/data-plane/siem/exporter.go:262-274 | accepts onto an open pipe with room, sheds when full, refuses when closed |
| SiemExporter.TenantPipe.TryClose | server/data-plane/siem/exporter.go:324-334 | closes exactly when nothing is queued |
| SiemExporter.TenantPipe.DrainInto | server/data-plane/siem/exporter.go:337-347 | the whole queue joins the batch in order |
| SiemExporter.Exporter.GetOrCreate | server/data-plane/siem/exporter.go:165-190 | the registered pipe, or a new empty one unless stopped |
| SiemExporter.Exporter.RemovePipe | server/data-plane/siem/exporter.go:194-200 | removes the pipe only while it is the registered one |
| SiemExporter.Exporter.Submit | server/data-plane/siem/exporter.go:135-163 | ends on the open registered pipe or on a new one, never on a closed one, and touches no other tenant's pipe |
| Trust.NonceKeyInjective | server/data-plane/trust/nonce.go:40-43 | keys of different tenants or nonces differ, whatever a tenant id contains |
| Trust.SequencesIncrease | server/control-plane/registry/mem.go:627-639 | on every interleaving the accepted sequence numbers of a token are at least one, the only one included, and strictly increase |
| Trust.NoUseAfterRevocation | server/control-plane/registry/mem.go:641-650 | once a session is revoked or failed, no sequence number is accepted for its token again |
| Trust.NonceMintsOnce | server/data-plane/trust/nonce.go:17-24 | no more sessions are minted from a nonce, tenant and app than the times it was issued for them |
| Trust.ActiveSessionWasIssued | server/data-plane/trust/service.go:201-338 | behind every active session is a nonce issued for that session's tenant and app |
| TrustService.NonceStore.Issue | server/data-plane/trust/nonce.go:47-58 | makes the nonce redeemable for its app |
| TrustService.NonceStore.Consume | server/data-plane/trust/nonce.go:63-70 | true exactly when redeemable for that app, and then for no app again; every other nonce is untouched |
| TrustService.SessionStore.ConsumeSequence | server/control-plane/registry/mem.go:627-639 | advances an active session to a larger sequence number and otherwise changes nothing |
| TrustService.SessionStore.RevokeTrustSession | server/control-plane/registry/mem.go:641-650 | revokes the tenant's session, after which no sequence number is accepted |
| TrustService.SessionStore.RecordFailedAttestation | server/control-plane/registry/mem.go:652-667 | leaves a session no request can use |
| TrustService.VerifyAttestation | server/data-plane/trust/service.go:201-338 | mints exactly when the nonce was live for this tenant and app and the attestation accepted; the level is the policy's level of the fused risk; a live nonce is spent either way; a refusal lets no new request through |
| TrustService.ValidateRequestProof | server/data-plane/trust/service.go:343-412 | passes exactly complete, signed, unexpired requests of an active session of this tenant with a new sequence number, advances it so that the same request is then a replay, and decides by level and mode |
| TokenBucket.TokensAreLeastSlack | server/shared/middleware/ratelimit.go:27-37 | the stored tokens are the least slack of any window of calls that ends now |
| TokenBucket.GrantExact | server/shared/middleware/ratelimit.go:27-37 | a call is granted if and only if that keeps every window ending with it within capacity plus refill |
| TokenBucket.WindowBound | server/shared/middleware/ratelimit.go:15-43 | no window is granted more than capacity plus rate times the forward movement of the clock |
| TokenBucket.RefillBound | server/shared/middleware/ratelimit.go:15-43 | a window is granted at most the capacity and what its clock readings can earn, each gap counted up to a full bucket, whatever the costs |
| TokenBucket.GreedyAttains | server/shared/middleware/ratelimit.go:15-43 | taking the whole bucket at every call attains that bound |
| TokenBucket.LengthBoundExact | server/shared/middleware/ratelimit.go:15-43 | calls of non-negative cost at the given times are never granted more than capacity plus rate times the length of the window, if and only if the readings earn no more than that length does |
| TokenBucket.SteadyClockBound | server/shared/middleware/ratelimit.go:15-43 | with a clock that never goes back, no interval is granted more than capacity plus rate times its length |
| TokenBucket.SkewOvergrants | server/shared/middleware/ratelimit.go:30 | a replica running late by any amount lets more than a full bucket be taken at one instant |
| TokenBucket.ExpiryInvisible | server/shared/middleware/ratelimit.go:39-41 | dropping a bucket after its time to live changes no refill, grant or stored count, on every run |
| TokenBucket.KeysApart | server/shared/middleware/ratelimit.go:71-72 | the two keys of a bucket, and the keys of different buckets, never coincide |
| TokenBucket.RateLimiter.AllowN | server/shared/middleware/ratelimit.go:69-80 | answers and updates the key's bucket as specified, sets both keys' time to live, touches no other bucket, and lets the call through when Redis fails or no time to live follows from the rate |
| Risk.FromWire | server/shared/risk/risk.go:154-162 | the loop yields exactly the server bits of the set wire bits |
| Risk.TranslationUnion | server/shared/risk/risk.go:154-168 | translating a union is the union of the translations |
| Risk.NeverFleet | server/shared/risk/risk.go:50-56 | no wire bitset translates to the fleet bit, and unknown wire bits mean nothing |
| Risk.ScoreBits | server/shared/risk/risk.go:177-202 | saturating at each addition gives the smaller of 2^32-1 and the exact sum of the set bits' weights |
| Risk.LevelOf | server/shared/risk/risk.go:221-258 | the most severe level whose minimum is met, in whatever order the thresholds are visited; the default table when there are none |
| Risk.DefaultIsTable | server/shared/risk/risk.go:204-241 | the built-in table means what the same thresholds given by name would mean |
| Risk.LevelUnique | server/shared/risk/risk.go:214-241 | the level does not depend on the order in which thresholds are visited |
| Risk.LevelMonotone | server/shared/risk/risk.go:221-241 | a higher score never gives a less severe level |
| Risk.Decision | server/shared/risk/risk.go:263-281 | denied exactly when not observing and critical, or high risk while blocking; allowed exactly when observing or at most low risk |
| Risk.BitsMonotone | server/shared/risk/risk.go:164-281 | more bits never lower score, level or decision, for every policy |
| Risk.PipelineMonotone | server/data-plane/trust/service.go:275-281 | more wire bits, more attestation bits or the fleet bit never make the decision less severe |
| WindowRing.Slot | server/data-plane/fleet/engine.go:385-390 | the truncating remainder expression is the mathematical remainder for negative epochs too |
| WindowRing.ObserveExact | server/data-plane/fleet/engine.go:385-407 | after one more observation the ring answers every later window like the full history if and only if the observation evicted no counted traffic of the window |
| WindowRing.RingRefinesHistory | server/data-plane/fleet/engine.go:443-457 | on every timely history the window sums equal the counts over the full history in the last B epochs |
| WindowRing.LateObservationErases | server/data-plane/fleet/engine.go:391-399 | one observation a whole ring late makes the window lose an arrival |
| Fleet.New | server/data-plane/fleet/engine.go:222-290 | every configuration comes out within the ranges the detector relies on, one already in range is kept, and only a negative snapshot time to live turns caching off |
| Fleet.BucketSize | server/data-plane/fleet/engine.go:271-278 | the bucket width is never zero, and the buckets fit any window of at least one unit each |
| Fleet.BaselinesOfFolded | server/data-plane/fleet/engine.go:409-424 | each baseline is the moving average of exactly the buckets folded so far, in order |
| Fleet.Conserved | server/data-plane/fleet/engine.go:385-424 | ring sums plus folded sums are the sums of everything observed, whatever the order of epochs |
| Fleet.ArrivalsConserved | server/data-plane/fleet/engine.go:385-424 | ring totals plus folded totals are the number of arrivals |
| Fleet.BucketsOk | server/data-plane/fleet/engine.go:385-407 | every signal count of every bucket, in the ring or folded, is at most its total |
| Fleet.BaselineRanges | server/data-plane/fleet/engine.go:409-424 | a seeded signal baseline is in [0, 1] and a seeded volume baseline is at least 1 |
| FleetAssess.QuietSignal | server/data-plane/fleet/engine.go:459-482 | a seeded signal with folded rates at least lo and ring rates at most hi, hi below the surge multiple of lo, is not reported at any epoch |
| FleetAssess.QuietVolume | server/data-plane/fleet/engine.go:484-503 | the same for bucket volumes and the velocity factor |
| FleetAssess.QuietFleet | server/data-plane/fleet/engine.go:443-503 | a cohort quiet in every signal and in volume is reported clean |
| FleetAssess.SteadyBits | server/data-plane/fleet/engine.go:443-482 | a cohort whose arrivals all carry the same bits never trips a seeded signal, however its traffic is spread over time |
| FleetSteady.SteadyStream | server/data-plane/fleet/engine.go:443-503 | the same number of identical arrivals in every epoch is never an anomaly once the baselines are seeded, at any epoch |
| FleetAssess.SurgeReported | server/data-plane/fleet/engine.go:459-482 | a signal whose rate over the last window of the full history reaches the surge multiple of its highest folded rate, and the floor, is reported |
| FleetAssess.TrippedDetail | server/data-plane/fleet/engine.go:459-482 | every signal that trips is named with its rate and baseline |
| FleetScope.CohortState.ObserveLocked | server/data-plane/fleet/engine.go:385-407 | updates ring and baselines in place to the specified cohort |
| FleetScope.CohortState.FoldBaseline | server/data-plane/fleet/engine.go:409-424 | folds each signal's rate and the volume into the baselines |
| FleetScope.CohortState.AssessLocked | server/data-plane/fleet/engine.go:443-503 | the accumulating loops answer the specified assessment |
| FleetLru.LruIsRecent | server/data-plane/fleet/engine.go:318-343 | after every run the list is the most recently touched distinct keys, newest first, cut at the cap |
| FleetLru.LruBounded | server/data-plane/fleet/engine.go:318-343 | the list never exceeds the cap and never holds a key twice |
| FleetLru.RecentOrdered | server/data-plane/fleet/engine.go:318-343 | of two listed keys the earlier one was touched later |
| FleetLru.EvictsLeastRecent | server/data-plane/fleet/engine.go:331-341 | an evicted key was last touched before every key that stays |
| FleetLru.TouchEvictsLast | server/data-plane/fleet/engine.go:331-341 | only the last key can be evicted, never the one just touched |
| FleetEngine.MaxScopesPerShard | server/data-plane/fleet/engine.go:292-298 | a share of at least one, within the configured total beyond that |
| FleetEngine.Shard.GetOrCreateLocked | server/data-plane/fleet/engine.go:318-343 | map and list keep the same keys, the list is touched as specified, and the cohort returned is resident |
| FleetEngine.Shard.Observe | server/data-plane/fleet/engine.go:356-364 | takes the shard to the specified one |
| FleetEngine.Shard.Assess | server/data-plane/fleet/engine.go:428-441 | an unknown cohort is not created; a known one is touched and assessed |
| FleetEngine.ShardIsLru | server/data-plane/fleet/engine.go:318-364 | on every run a shard's keys are those of the recency list |
| FleetEngine.CohortIsItsHistory | server/data-plane/fleet/engine.go:318-407 | a resident cohort's state is that of its own arrivals since it was last created |
| FleetEngine.SinceIsSuffix | server/data-plane/fleet/engine.go:318-343 | those arrivals are a suffix of all the cohort's arrivals |
| FleetEngine.ShardsIndependent | server/data-plane/fleet/engine.go:304-316 | each shard of the engine behaves as if it alone received the operations of its keys |
| FleetEngine.OwnShard | server/data-plane/fleet/engine.go:304-316 | a key is only ever resident in the shard its hash names |
| FleetEngine.EngineBounded | server/data-plane/fleet/engine.go:292-298 | the resident cohorts of the whole engine never exceed the shares of its shards |
| FleetSnapshot.ComputeSnapshot | server/data-plane/fleet/engine.go:557-591 | the result is sorted, holds exactly the cohorts found anomalous in each shard as it was when locked, and, each cohort being in its own shard, none twice |
| FleetSnapshot.RunHomed | server/data-plane/fleet/engine.go:304-347 | on every run a cohort is resident in its own shard only |
| FleetSnapshot.Search | server/data-plane/fleet/engine.go:597-612 | the binary search finds the boundary position |
| FleetSnapshot.TenantSnapshot | server/data-plane/fleet/engine.go:597-616 | the two searches cut out exactly the tenant's anomalies |
| SnapshotCache.FreshAndSingleFlight | server/data-plane/fleet/engine.go:519-552 | under any number of racing readers every cached answer was computed less than the time to live ago, and scans are at least that far apart |
| Guardrails.RunAgrees | server/data-plane/guardrails/detector.go:90-167 | on every ordered run a scope's ring, pruned or not, answers like its full history |
| Guardrails.SampleIsHistory | server/data-plane/guardrails/detector.go:178-190 | a sample is the block rate and total of the last window of the full history |
| Guardrails.PruningInvisible | server/data-plane/guardrails/detector.go:220-236 | a detector that prunes answers every later sample exactly like one that never does |
| Guardrails.ModuleRateLost | server/data-plane/guardrails/detector.go:193-202 | a pruned scope forgets a module's false-positive rate |
| Guardrails.ModuleRateAfterPrune | server/data-plane/guardrails/detector.go:193-236 | a module's rate after pruning is the old one while the scope has decision traffic and zero otherwise |
| Guardrails.DueIsHistory | server/data-plane/guardrails/detector.go:220-254 | whether a scope is due for an alert depends only on the last window of its full history |
| GuardrailModules.ModuleRateIsHistory | server/data-plane/guardrails/detector.go:151-236 | on every ordered run a module's rate is that of its flags in the last window since the last pruning that found the scope without decisions |
| GuardrailDetector.ScopeCounts.RecordDecision | server/data-plane/guardrails/detector.go:90-147 | the bucket array, updated in place, is the one the history of decisions gives |
| GuardrailDetector.ScopeCounts.RecordModule | server/data-plane/guardrails/detector.go:90-167 | the same for a module flag, creating the module in its bucket only |
| GuardrailDetector.ScopeCounts.HasTraffic | server/data-plane/guardrails/detector.go:128-137 | true exactly when some live bucket holds a decision |
| GuardrailDetector.ScopeCounts.Aggregate | server/data-plane/guardrails/detector.go:102-126 | the totals of the live buckets and the false-positive rate of every module flagged in them, and of no other |
| GuardrailDetector.Detector.Sample | server/data-plane/guardrails/detector.go:178-190 | the block rate and total of the last window, creating nothing |
| GuardrailDetector.Detector.ModuleFalsePositiveRate | server/data-plane/guardrails/detector.go:193-202 | the module's rate over the last window, zero for an unknown scope or module |
| GuardrailDetector.Detector.Evaluate | server/data-plane/guardrails/detector.go:220-254 | one alert for each due scope, with its module rates, worst first, and exactly the scopes without decision traffic are dropped |

## Left out

- SHA-256, HMAC, Ed25519 and token minting: a digest and a signing function are parameters, and signature checks enter as their outcome.
- Base64url in page cursors: cursors are modelled before it, as the "number:id" text.
- Floating-point rounding: fleet, guardrail and token-bucket arithmetic is over reals.
- uint64 bitsets are sets of bit positions; bitwise or and and are union and intersection.
- The FNV shard hash: any function from keys to shard numbers.
- The memory layout of in-place slice shifts in Ack and of pooled batches: lists are sequence values held in fields.
- Kafka rebalances, fetch errors and the producer's shedding; the client is a log per partition, marked offsets and committed offsets.
- TrustService.ValidateRequestProof: canary health recording and decision reason texts are not modelled.
- TrustService.VerifyAttestation: token minting, policy hash, capability scope and the internal-error answers are not modelled; the token id is assumed fresh, as a UUID is.
- VerifyKillSwitch and the client's use of versions: the model says what is signed, and by whom, not how a signature is checked.
- Redis expiry against a server clock that differs from the callers' clock.
- SIEM delivery over HTTP, connector caches, circuit breakers, gzip and payload rendering; a batch counts as delivered when it is handed to delivery.
- The select loop of Writer.Run, whose cases are `Add`, `Flush` and `Drain`; the event sink and the write-error callback.
- Close of the Kafka broker: its effects are the protocol's StopConsumer and Commit steps; the flush of outstanding produces is not modelled.
- Postgres and ClickHouse stores, migrations and the webhook dispatcher.
- Query, Count and TenantIDs of the analytics store, canary reads, data-processing records, feature flags, policy storage and API keys of the in-memory stores: easy beside the rest.
- The canary controller's timing; only the store transitions and their audit events are modelled.
- IngestWriter.KafkaBroker.Handle: one record at a time; the poll loop around it and the metrics are not modelled.
- SiemExporter.Exporter.Submit: one caller without interference; interleavings are the subject of the protocol in `Siem`.
