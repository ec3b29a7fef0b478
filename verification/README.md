# Verified model of the security-audit service

Audit events reach this service on a Redis stream. Worker processes that share one consumer group write
them to the `audit_events` table, move entries that keep failing to `quarantined_audit_events`, and
acknowledge an entry only after one of the two rows is committed. Rows are hashed when they are written; a
verifier recomputes the hashes later; triggers keep the tables append-only; a retention script deletes old
rows that no legal hold covers; a query API pages through the events under tenant scope.

This project models that behaviour in Dafny and proves what it promises, over every input, every run and
every interleaving. `dafny verify dfyconfig.toml` checks it.

## Layout

- `Delivery` is the delivery protocol as a state machine with any number of workers: each label is one call
  to Redis or to the database, a tick of the clock, or a crash, and a run is any sequence of enabled labels.
  `DeliverySafety`, `DeliveryBound`, `DeliveryTight`, `DeliveryTiming` and `Sweeps` hold its theorems.
- `Worker` is the worker's own code on the shared state (`World`), with other processes' calls between any two
  of its own; every method leads from one reachable state of the protocol to another. `Starvation` builds the
  runs in which it never gets to an entry.
- `Decimal`, `Json`, `JsonLaws`, `Timestamps`, `Lines`, `RecordIntegrity`, `RecordIntegrityLaws`, `Signing`,
  `Events` and `Sinks` are the write path from a payload to a hashed row and back from a stored row.
- `Verifier` is the integrity check; `AuditSystem` runs it on the tables that any run of the protocol leaves.
- `Readings`, `Tampering`, `TamperEvidence` and `WrittenRows` say which changes of a stored row the check
  notices.
- `Retention` covers triggers, holds and the retention script; `Queries` and `TenantReads` the read API, and
  `TenantSystem` that API on the workers' tables; `RateLimits` (modules `RateLimits` and `Alerts`) alert
  de-duplication and the recreate backoff; `RedisSession` the guarded Redis session.

## Main results

1. In every run, with crashes between any two calls and any database failures, each entry the group has ever
   delivered is still pending or has durable evidence (`EveryDeliveredEntryAccountedFor`). The evidence is the
   entry's own row unless a different entry carries the same event id (`OwnRowStored`,
   `DuplicateIdLosesContent`).
2. With n workers racing on stale snapshots no entry is delivered more than limit + n - 1 times, and at most
   limit times when sweeps do not overlap (`RacingWorkersBound`, `AtomicSweepsBound`). The bound is exact: for
   every limit of at least 2 and every n some run reaches it (`BoundAttained`), and with a limit of 1 or 0
   nothing is delivered twice (`LowLimitDeliversOnce`).
3. Prompt workers never handle one entry at the same time, and deliveries of an entry are at least the idle
   threshold apart (`PromptWorkersNeverShare`, `DeliveriesSpaced`).
4. The main loop, alone on its group, keeps up with what arrives, and each entry it delivers whose handling cannot
   fail is stored and gone from the list. With iterations at any times it has drained every entry delivered before
   it, except fewer than a batch of entries whose quarantine writes keep failing, once as many idle thresholds as
   the entries' summed rank have passed (`RunLoop`, `AllOthersDrain`; `EnoughTime` says how long that is). Behind
   a full batch of those an entry is never listed again (`FullBatchStarves`). In every configuration a run from
   the start brings such a batch about, so "fewer than a batch" cannot be relaxed (`BlockageOccurs`,
   `StarvationOccurs`).
5. Every stored event says what the payload of its entry said and how that was signed (`StoredRowTells`). What
   is hashed at insert is what is read back, for every event, offset, store and key order
   (`WriteReadRoundTrip`). Whatever is done to a row of either table, the check notices it if and only if the
   written texts do not themselves spell out a column's label (`EventProtectedIff`, `QuarantineProtectedIff`,
   `QuarantineRowProtectedIff`); rows that do have doubles (`ReasonSpillsIntoTrace`,
   `DataSpillsIntoSignature`).
6. A row's verdict is determined by its texts, its hash and its key, in the current and in the legacy form
   (`UnkeyedVerdict`, `KeyedVerdict`). Whatever the workers did, the quarantine table they leave passes the
   verifier, and audit_events passes it exactly when no stored event has an empty id, service, event type or
   action (`EveryRunVerifies`, `DefaultActionReported`).
7. Rows leave the tables only unheld and by the maintenance user (`RowsOnlyLeaveUnheld`). Each table's result in
   a retention run is true; the total is exact if and only if no table removed rows it does not report as
   success (`TotalExactIff`, `HoldMidwayUnreported`).
8. The pages a client fetches, put together, are the one possible listing (`PagesGiveListing`, `ListingUnique`).
   Nothing outside an organization's own rows can influence what its callers see (`OtherRowsInvisible`), and
   after every run that view is the platform's view filtered to it (`OrganizationViewAfterEveryRun`).
9. A production check of a Redis identity puts nothing on the wire but AUTH, ACL WHOAMI and commands of the
   allowlist, whatever the server answers and whatever is called later (`ProductionCheck`).

## Assumptions

- No entry is trimmed from the stream while it is pending. `MAXLEN` in audit/logger.py:49-54 can break this;
  then consumers/stream_reader.py:128-129 hands back empty fields.
- Acks sit outside every `try` (worker/main.py:167, worker/main.py:198), so a failing ack ends the process and
  is a `Crash` step. A Redis error inside `claim_stale` or `read_group` loses only the worker's local state and
  is also a `Crash` step, after whatever Redis had already done.
- A commit may succeed without the worker learning of it (`Unconfirmed`), so an entry may end up in both
  tables. The invariant is "at least one", not "exactly one".
- A payload without `event_id` gets a new one at every parse; a new id is one no row has yet.
- The keyed hash is a parameter. The tamper-evidence theorems and `SignatureBindsServiceAndData` assume that it
  has no collisions, and the round trips that it is never the empty text; nothing else is assumed of it.
- `json.loads` plus the schema is a function from text to an event whose own id and timestamp may be missing.

## Where code and documentation disagree

- consumers/stream_reader.py:79-86 says that of two workers racing for one entry the second gets nothing. That
  holds only while the entry has not idled for the threshold again: `BoundAttained` builds runs in which every
  worker's claim succeeds on the same snapshot, and the count passes the limit.
- consumers/quarantine.py:43-45 says a payload filed as "persistence_exhausted" is not itself the problem.
  `ExhaustedNeverParsesIff` says for which payloads it is: the objects the schema or the tenant rule refuses;
  `GlobalScopeMisfiled` is one.
- audit/models.py:34 lets `action` default to the empty text; scripts/verify_audit_integrity.py:138-140 then
  reports every such row as lacking a required field (`DefaultActionReported`).
- audit/record_integrity.py:176-177 says that any changed field breaks the hash. Text that spells the label of a
  neighbouring column can be moved across it unnoticed, and NULL and the text "None" are written alike
  (`ReasonSpillsIntoTrace`, `DataSpillsIntoSignature`, `NullReadsAsText`).
- audit/record_integrity.py:20-25 says the update triggers spare the maintenance user. They refuse every
  UPDATE that touches a row (alembic/versions/0005_retention_immutability.py:115-123).
- scripts/audit_retention_cleanup.py:78 calls the total of the tables reported as success the deleted total. A
  partial table's deletions, and those of a table whose commit raised after taking effect, are not in it
  (`HoldMidwayUnreported`).
- The range bounds of a query are compared by their wall clock although stored timestamps are UTC
  (`BoundMeansInstantIff`), and a bound with an offset beside one without makes the safe route fail.

## Model

| member | source | states |
|---|---|---|
| `Delivery.Delivered` | consumers/stream_reader.py:45-50 | XREADGROUP makes exactly the next n entries pending, each delivered once to the reader, and leaves the rest of the list as it was |
| `Delivery.PoisonOf` | consumers/stream_reader.py:118-118 | the poison entries of a snapshot are exactly its entries at or over the limit |
| `Delivery.RunConcat` | worker/main.py:251-288 | running two label sequences one after the other is running their concatenation |
| `DeliverySafety.StepGrows` | consumers/sink.py:90-99 | no step of any worker changes or removes a row of either table |
| `DeliverySafety.RunGrows` | consumers/sink.py:90-99 | in every run, what a prefix committed is still there, unchanged, at the end |
| `DeliverySafety.RunKeeps` | worker/main.py:136-204 | the protocol invariant holds in every reachable state: nothing lost, every held job true to its stream entry, evidence before ack, every row in either table built from a stream entry |
| `DeliverySafety.EveryDeliveredEntryAccountedFor` | worker/main.py:136-204 | in every run each entry below the cursor is pending, or quarantined, or has a row in audit_events: under the event id it carries, or built from it if it carries none |
| `DeliverySafety.QuarantineFaithful` | consumers/quarantine.py:62-103 | in every run each quarantine row is the row built from its own entry with a delivery count at or over the limit |
| `DeliverySafety.WrittenEntriesParse` | worker/main.py:136-141 | whatever any step writes to audit_events comes from an entry that parses |
| `DeliverySafety.FirstCommitWins` | consumers/sink.py:37-99 | after every run audit_events holds, for each event id ever committed, exactly the row of its first commit, and nothing else |
| `DeliverySafety.OwnRowStored` | consumers/sink.py:90-99 | an acked entry that was not quarantined and whose event id no different entry carries and no parse drew anew has its own row stored |
| `DeliverySafety.DuplicateIdLosesContent` | consumers/sink.py:92-99 | two different entries with one event id: both are acked, and the second one's content is in neither table |
| `AuditSystem.EventSource` | worker/main.py:136-157 | in every run each row of audit_events is the one built for the event some stream entry parses to, with the status of that entry's own signature over its own bytes |
| `DeliveryBound.DeliveriesBounded` | consumers/stream_reader.py:112-134 | if never more than k workers are between XPENDING and XCLAIM, every count, plus the reclaiming snapshots still out once it reached the limit, is at most limit + k - 1 |
| `DeliveryBound.RacingWorkersBound` | consumers/stream_reader.py:112-134 | with n workers racing in any way no entry is delivered more than limit + n - 1 times |
| `DeliveryBound.AtomicSweepsBound` | consumers/stream_reader.py:112-134 | when sweeps do not overlap no entry is delivered more often than the limit |
| `DeliveryTight.BoundAttained` | consumers/stream_reader.py:112-134 | for every limit of at least 2, every batch of at least 1 and every n, a run delivers an entry exactly limit + n - 1 times |
| `DeliveryTight.LowLimitDeliversOnce` | consumers/stream_reader.py:118-119 | with a limit of 1 or 0 every pending entry has been delivered exactly once in every run |
| `DeliveryTiming.PromptWorkersNeverShare` | audit/config.py:60-66 | if every worker is done with each entry within the idle threshold of getting it, queueing included, no two workers ever hold the same entry to handle |
| `DeliveryTiming.DeliveriesSpaced` | consumers/stream_reader.py:112-134 | in every run two deliveries of one entry are at least the idle threshold apart |
| `Sweeps.SweepMakesProgress` | worker/main.py:227-239 | when acks and quarantine writes succeed, a sweep lowers the summed rank of the list by at least the number of stale entries it saw |
| `Sweeps.ReachesOther` | consumers/stream_reader.py:112-114 | while fewer than a batch of entries are stuck, a sweep lists some other stale entry if there is one |
| `Sweeps.FullBatchStarves` | worker/main.py:186-196 | behind at least a batch of idle poison entries whose quarantine writes keep failing, no number of sweeps at any times lists an entry, and it stays pending as it was |
| `Starvation.BlockageOccurs` | consumers/stream_reader.py:112-134 | in every configuration a run of one worker from the start leads to a batch of idle poison entries with one more entry, delivered once, behind them |
| `Starvation.StarvationOccurs` | worker/main.py:186-196 | from that reachable state any number of sweeps over as many idle thresholds, with quarantine writes failing for exactly a batch of entries, leaves the entry behind them pending: the drain theorem's bound cannot be relaxed by one |
| `Sweeps.XPendingIsFirstStale` | consumers/stream_reader.py:112-114 | the listing has at most `batch` entries, ids ascending, each stale and with its own count, and leaves out a stale entry only if it is full of smaller ids |
| `Sweeps.ListedHasRoom` | consumers/stream_reader.py:112-114 | a listed entry has fewer smaller stale entries than the batch |
| `Sweeps.PoisonInOrder` | consumers/stream_reader.py:118-118 | poison entries keep the snapshot's order |
| `Worker.ReachableSane` | worker/main.py:242-288 | every state the worker's methods reach satisfies the protocol invariant, and no pending entry was delivered in the future |
| `Worker.ReachableSafe` | worker/main.py:242-288 | after every call of every worker each delivered entry is pending or has evidence, and its count is at most limit + workers - 1 |
| `Worker.World.Interfere` | consumers/stream_reader.py:66-86 | whatever other processes do between two calls is a run of the protocol that leaves this worker's position alone and no committed row changed |
| `Worker.World.Pass` | worker/main.py:252-252 | time passing and entries arriving is a run of the protocol |
| `Worker.World.XReadGroup` | consumers/stream_reader.py:45-50 | reads up to COUNT new entries, moves the cursor past them and makes them pending |
| `Worker.World.XPendingRange` | consumers/stream_reader.py:112-114 | the first stale entries, as `FirstStale` defines them: bounded, ascending, with their counts, none left out unless the list is full of smaller ids |
| `Worker.World.XRangeOne` | consumers/stream_reader.py:128-130 | reads a poison entry's fields into a quarantine job without touching the pending list |
| `Worker.World.XClaimAll` | consumers/stream_reader.py:132-134 | claims what is still pending and still idle, and returns those entries as jobs |
| `Worker.World.XAck` | consumers/stream_reader.py:52-54 | removes exactly the acked entry from the pending list |
| `Worker.World.GiveUp` | worker/main.py:137-141 | a payload that does not parse leaves the entry pending and changes nothing |
| `Worker.World.NewEventId` | audit/models.py:22-22 | a new id that no stored row has |
| `Worker.World.WriteEvent` | consumers/sink.py:29-99 | inserts the row unless its event id is present, a duplicate counting as success; fails exactly when the row cannot be built or the commit is not confirmed |
| `Worker.World.WriteQuarantine` | consumers/quarantine.py:62-123 | the same for a quarantine row keyed by stream id |
| `Worker.Consumer.HandleMessage` | worker/main.py:88-168 | whatever others do in between it leads to a reachable state; acked only if the payload parsed, the commit was confirmed and the entry's row is there; alone, only this entry leaves the list |
| `Worker.Consumer.QuarantineAndAck` | worker/main.py:171-204 | likewise, acked exactly when the quarantine write was confirmed, and then its row is there |
| `Worker.Consumer.ClaimStale` | consumers/stream_reader.py:66-134 | likewise, one quarantine job per poison entry of the snapshot, in order, and handle jobs only for reclaimable ones; alone, one for each of those |
| `Worker.Consumer.FetchPoison` | consumers/stream_reader.py:122-130 | the loop over poison entries fetches each once, in order, and leaves the list alone |
| `Worker.Consumer.WorkOff` | worker/main.py:235-239 | one job by its kind; a handled entry is acked if handling it cannot fail, and only after a parse and a confirmed commit with its row there; alone, the list loses its entry exactly when it was acked |
| `Worker.Consumer.WorkOffAll` | worker/main.py:235-239 | all jobs in turn; alone, the list loses only entries whose writes landed, every quarantined one and every handled one that cannot fail, whose row is then stored |
| `Worker.Consumer.SweepPending` | worker/main.py:207-239 | leads to a reachable state; alone, it has exactly the effect the drain theorems start from, and a listed entry under the limit whose handling cannot fail is gone from the list with its row stored |
| `Worker.Consumer.ReadAndHandle` | worker/main.py:254-287 | alone, the cursor moves by COUNT or to the end of the stream, the entries delivered before stay as they were, each new one that cannot fail is gone and stored, and each that does not parse or whose write does not land is pending, delivered once |
| `Worker.Consumer.RunLoop` | worker/main.py:242-288 | any iterations, with time, arrivals and answers of their own, lead from a reachable state to a reachable state; alone, once as many idle thresholds as the summed rank have passed, only stuck entries are left of those delivered before, if fewer than a batch are stuck, and an entry behind a full batch of stuck poison entries is as it was; the stream has grown by the arrivals, whatever had arrived by iteration j is read but for what exceeds COUNT for each later iteration, and every entry delivered in the loop that parses, whose writes land and whose row can be built is gone from the list with its row stored |
| `Worker.Consumer.Iterate` | worker/main.py:252-287 | one iteration leads from a reachable state to a reachable state; alone, the arrivals join the stream, one sweep has the declared effect, and then the cursor moves by COUNT or to the end of the stream: the entries delivered before stay as they were and the new ones are handled as `ReadAndHandle` says |
| `Worker.EnoughTime` | worker/main.py:252-288 | iterations at most a gap apart see n idle thresholds pass if together they take longer than n thresholds and n - 1 gaps |
| `Sweeps.AllOthersDrain` | worker/main.py:207-239 | sweeps at any times clear every entry that is not stuck once as many idle thresholds as the summed rank have passed, however often handling fails and whatever new entries arrive, if fewer than a batch are stuck |
| `Sweeps.EntryLeaves` | worker/main.py:207-239 | an entry whose quarantine write succeeds, with fewer than a batch of pending entries before it, is gone once as many idle thresholds as its rank have passed, at whatever times the sweeps come: limit - count reclaims and one quarantine sweep |
| `AuditSystem.WorkerConfigOk` | consumers/sink.py:42-89 | the thresholds are the configured ones, and with the real parser and row builder a row exists only for an entry that parses, under the id it carries or else the new one |
| `AuditSystem.QuarantineTellsTheEntry` | consumers/quarantine.py:32-103 | in every run a quarantine row holds the entry's exact data and signature and a count at or over the limit, says why the payload failed and for which service, and one filed as malformed never had a step that wrote an audit_events row for it |
| `AuditSystem.RowsTenantConsistent` | audit/models.py:43-54 | in every run each audit_events row has scope "organization" exactly when it has an organization id |
| `AuditSystem.EveryRunVerifies` | scripts/verify_audit_integrity.py:120-186 | after every run, however the stores hand all rows back, the quarantine table is clean, and audit_events is clean exactly when every stored event has a non-empty id, service, event type and action |
| `AuditSystem.DefaultActionReported` | audit/models.py:34-34 | one delivery of an event with the default action leaves a table no full reading of which is clean |
| `Json.BeforeTotal` | audit/record_integrity.py:76-76 | the key order is total |
| `Json.BeforeAtFirstDifference` | audit/record_integrity.py:76-76 | the key order is decided at the first difference, by code point, a proper prefix first |
| `Json.BeforeTransitive` | audit/record_integrity.py:76-76 | the key order is transitive |
| `JsonLaws.LoadsUndoesPrint` | audit/record_integrity.py:71-76 | the parser gives back every value from its printed text, compact or spaced, escaped or not |
| `JsonLaws.LoadsWellFormed` | audit/record_integrity.py:71-75 | what the parser yields has distinct keys at every depth |
| `JsonLaws.SortedKeeps` | audit/record_integrity.py:76-76 | sorting keys keeps the meaning and puts keys in order at every depth |
| `JsonLaws.OrderedUnique` | audit/record_integrity.py:76-76 | only one value in key order has a given meaning |
| `JsonLaws.CanonicalIffSameMeaning` | audit/record_integrity.py:54-76 | two documents have one canonical text exactly when they mean the same, key order aside |
| `JsonLaws.EscapesAsPython` | audit/record_integrity.py:76-76 | every character is escaped as `json.dumps` does it: short escapes, printable ASCII as it is, lower-case hexadecimal otherwise |
| `JsonLaws.CompactHasNoPadding` | audit/record_integrity.py:76-76 | the canonical text holds a space only where the document's own texts do |
| `JsonLaws.SurroundedText` | audit/record_integrity.py:71-75 | white space around a printed text changes nothing, and anything else after it makes it no JSON text |
| `JsonLaws.LastValueWins` | audit/record_integrity.py:71-75 | of a repeated key the last value is kept |
| `JsonLaws.PrintPrintable` | audit/record_integrity.py:76-76 | the canonical text is printable ASCII, so it holds no raw newline |
| `Timestamps.ToNaiveUtc` | audit/record_integrity.py:37-47 | the wall clock less the offset, or failure exactly when that leaves the calendar |
| `Timestamps.RoundToSecond` | audit/record_integrity.py:128-131 | the nearest whole second, halves upwards, or failure exactly in the calendar's last half second |
| `Timestamps.StoredRoundsAlike` | audit/record_integrity.py:111-131 | what a rounding or an exact store hands back is the hashed second or the very instant, and rounds to the second of what was written |
| `Timestamps.CivilOf` | audit/record_integrity.py:134-134 | the calendar fields of a second are in range and denote that very instant |
| `Timestamps.IsoFormatParts` | audit/record_integrity.py:134-134 | the text reads as year, month, day, hour, minute and second at the positions of YYYY-MM-DDTHH:MM:SS |
| `Timestamps.IsoFormatInjective` | audit/record_integrity.py:134-134 | two seconds with one ISO text are one instant |
| `Lines.KeyedDiffers` | audit/record_integrity.py:136-138 | a message with a key line never equals one without |
| `Lines.TwoLooseFieldsCollide` | audit/record_integrity.py:135-138 | if two fields may hold newlines, two different records share a message |
| `Lines.LooseLastFieldCollides` | audit/record_integrity.py:135-138 | if the last field may hold newlines, an unkeyed record shares a message with a keyed one |
| `Lines.UnambiguousIff` | audit/record_integrity.py:96-139 | messages determine texts and key id exactly when newlines are confined to one field that is not the last |
| `RecordIntegrity.BuildCanonicalMessage` | audit/record_integrity.py:96-139 | the loop over parts computes the canonical message, and fails exactly when a timestamp leaves the calendar |
| `RecordIntegrityLaws.CanonicalMessageInjective` | audit/record_integrity.py:84-139 | equal messages come from equal content, equal second, one key id and one timestamp form |
| `RecordIntegrityLaws.TimeTextsAgree` | audit/record_integrity.py:104-134 | current and legacy timestamp texts never coincide, and equal texts name one second |
| `RecordIntegrityLaws.NullReadsAsText` | audit/record_integrity.py:135-135 | NULL and the text "None" give one message, in any column but context |
| `RecordIntegrityLaws.LegacyTexts` | audit/record_integrity.py:104-134 | the legacy form of an event's texts differs in the timestamp alone, which ends in "+00:00" |
| `RecordIntegrityLaws.PlainForms` | audit/record_integrity.py:126-136 | in any column but context text is hashed as it is and NULL as "None", and in any column a number as text that reads back as that number |
| `RecordIntegrityLaws.ContextForms` | audit/record_integrity.py:54-76 | NULL is hashed as the empty object, JSON text as what it parses to, also when it comes as a decoded string, and other text as a JSON string |
| `RecordIntegrityLaws.EventFieldsAreNames` | audit/record_integrity.py:84-88 | the audit_events field list has the shape the encoding needs |
| `RecordIntegrityLaws.QuarantineFieldsAreNames` | audit/record_integrity.py:90-93 | so has the quarantine field list |
| `Signing.ValidIffSigned` | audit/signing.py:61-121 | an event is classified "valid" exactly when its signature is what the signer produces for that service and those bytes, "unsigned" exactly when it has none, and "invalid" otherwise |
| `Signing.SignatureBindsServiceAndData` | audit/signing.py:61-68 | one valid signature fits one service and one payload, for service names on one line |
| `Signing.Partition` | audit/signing.py:110-112 | splits a signature at its first colon, losing nothing |
| `Events.Validated` | audit/models.py:43-54 | what passes is tenant-consistent and differs from the input in the scope alone; it passes exactly when consistent or of unknown scope with an organization |
| `Events.ValidateTenantScope` | audit/models.py:43-54 | the validator, assignment by assignment, gives that outcome |
| `Events.ParsedKeepsPayload` | consumers/processor.py:43-44 | a parsed event has the payload's own id and timestamp, the defaults only where the payload has none, every other field, and the scope the tenant rule gives it |
| `Events.MalformedNeverParses` | consumers/quarantine.py:32-46 | "malformed" means exactly no JSON object, and then no parse ever succeeds, whatever the defaults; whether a payload parses does not depend on them |
| `Events.ExhaustedNeverParsesIff` | consumers/quarantine.py:38-46 | filed "persistence_exhausted" although it can never parse: exactly the objects without schema-valid fields and those whose organization id and scope the tenant rule refuses |
| `Events.GlobalScopeMisfiled` | consumers/quarantine.py:41-46 | whatever the parser, an object with an organization id and scope "global" is filed so and never parses |
| `Sinks.WriteReadRoundTrip` | consumers/sink.py:42-89 | for every event and offset, either store and any key order, the row read back has the message that was hashed and verifies under its key |
| `Sinks.RowExistsIff` | consumers/sink.py:42-66 | the sink refuses an event exactly when its instant, in UTC and to the nearest second, is outside the calendar |
| `Sinks.QuarantineRowVerifies` | consumers/quarantine.py:62-94 | every quarantine row verifies under the key that wrote it |
| `Readings.CutUnique` | audit/record_integrity.py:135-139 | a message cut at labels that no neighbouring text spells cannot be cut otherwise |
| `Readings.ReadingUnique` | audit/record_integrity.py:96-139 | texts that spell no label beside their column are the only ones their message stands for |
| `Tampering.SaysSameIff` | audit/record_integrity.py:99-135 | two column values have one text exactly when they say the same: same document, same second, same value, or both NULL or "None" |
| `Tampering.RowsAgree` | audit/record_integrity.py:96-139 | rows with the same lines say the same if one of them spells no label |
| `Tampering.RowRespelled` | audit/record_integrity.py:96-139 | a row that spells a label has a double with the same lines and other content |
| `Verifier.ResolveKeyring` | scripts/verify_audit_integrity.py:54-84 | a resolved keyring is not empty, its ids are single lines of allowed characters, its current key has at least 32 bytes and is not the legacy key; it holds exactly the configured keys, and the script exits exactly when they do not meet the policy |
| `Verifier.UnkeyedVerdict` | audit/record_integrity.py:155-191 | an event row without a key id is valid exactly when its hash is that of its texts in the current form or in the one whose timestamp ends in "+00:00", and counts as legacy exactly in the second |
| `Verifier.LegacyCounted` | scripts/verify_audit_integrity.py:147-150 | such a row raises the legacy count by one exactly when its hash is that of the legacy form |
| `Verifier.CurrentFormNotLegacy` | audit/record_integrity.py:176-191 | under a hash free of collisions a row in the current form is valid and not counted as legacy |
| `Verifier.KeyedVerdict` | scripts/verify_audit_integrity.py:111-117 | a row with a key id is checked in the current form alone, under the key the id selects, and is unverifiable without one |
| `Verifier.QuarantineCompleteIff` | scripts/verify_audit_integrity.py:51-51 | the required fields of a quarantine row |
| `Verifier.Utf8Bounds` | scripts/verify_audit_integrity.py:75-75 | a secret has from one to four bytes a character, and one each exactly when it is ASCII |
| `TamperEvidence.EventProtectedIff` | audit/record_integrity.py:155-191 | any row with the written hash that is called valid is unchanged, for every written event row, if and only if the row spells no label and the legacy key does not share its secret |
| `TamperEvidence.ResolvedKeyringProtects` | scripts/verify_audit_integrity.py:54-84 | with a keyring the script resolves the condition is on the row alone |
| `TamperEvidence.SharedLegacySecret` | scripts/verify_audit_integrity.py:78-80 | if the legacy key shared the secret, a row without a key id and with another integrity status would pass |
| `TamperEvidence.QuarantineProtectedIff` | audit/record_integrity.py:194-202 | the same for a quarantine row: if and only if its text columns spell no label; a NULL key id never helps |
| `WrittenRows.QuarantineRowProtectedIff` | consumers/quarantine.py:62-94 | for what the quarantine sink writes: if and only if data, signature, service and detail spell neither their own column's name nor the next one's at the start of a line |
| `WrittenRows.OneLineEventProtected` | consumers/sink.py:42-89 | every change of an event row whose texts are single lines is noticed |
| `WrittenRows.ReasonSpillsIntoTrace` | consumers/sink.py:42-66 | a written event whose reason spells the trace id's label has a row with another reason that is called valid |
| `WrittenRows.DataSpillsIntoSignature` | consumers/quarantine.py:71-82 | quarantined data that spells the signature's label: two different rows, one canonical message |
| `Sinks.EventRow` | consumers/sink.py:42-89 | a row exists only if the timestamp has an instant in the calendar; its columns are those of the record that was hashed |
| `Sinks.EventColumns` | consumers/sink.py:42-89 | each of the fourteen columns holds its own field of the event, the timestamp in UTC and the status given; the hash is that of the row's own columns under the key its key id names |
| `Verifier.VerdictsPartition` | scripts/verify_audit_integrity.py:120-186 | valid, invalid, unverifiable and no-baseline rows add up to all rows |
| `Verifier.EmptyIsUnset` | scripts/verify_audit_integrity.py:62-83 | an empty key setting counts as one that is not set |
| `Verifier.MissingFields` | scripts/verify_audit_integrity.py:138-140 | reports exactly the required fields that are NULL or empty |
| `Verifier.CheckHash` | scripts/verify_audit_integrity.py:142-152 | one row's hash check keeps the counters in step with the verdicts |
| `Verifier.CheckStructure` | scripts/verify_audit_integrity.py:134-140 | one row's structural check reports exactly when it breaks distinctness or completeness |
| `Verifier.VerifyTable` | scripts/verify_audit_integrity.py:120-186 | the loop's counters and id lists are those of the verdicts, the legacy count that of the rows valid in the legacy form, they add up to the rows checked, and the structural problems are exactly the repeated ids and the missing fields of the rows |
| `Verifier.Report` | scripts/verify_audit_integrity.py:198-216 | a table is ok exactly when none of the four kinds of problem occurred |
| `Verifier.ExitCode` | scripts/verify_audit_integrity.py:248-285 | exit code 0 exactly when in both tables ids are distinct, required fields are filled, every row has a hash and a known key, and every hash verifies, otherwise 1 |
| `Retention.UserOfAccount` | alembic/versions/0005_retention_immutability.py:124-158 | the trigger compares the user before the at sign, whatever the host |
| `Retention.RowsOnlyLeaveUnheld` | alembic/versions/0005_retention_immutability.py:114-168 | in every log under any accounts a row stays with identical content, or one step removed it, by the maintenance user, while no hold covered it |
| `Retention.HeldRowsStay` | alembic/versions/0005_retention_immutability.py:124-168 | a held row and its hold outlive everything but a release of that hold |
| `Retention.ReleaseUndoesHold` | alembic/versions/0005_retention_immutability.py:124-176 | a hold keeps the row from the maintenance user, releasing it restores what was, and then the row can be deleted |
| `Retention.DeleteRemoves` | scripts/audit_retention_cleanup.py:105-117 | for the maintenance user the script's delete removes exactly the eligible rows |
| `Retention.Maintenance.CleanTable` | scripts/audit_retention_cleanup.py:164-205 | one table, with other sessions before its transaction and between its count and its delete: what was removed is exactly the table's rows dated before the cutoff and not held when the delete ran, every other row is as it was unless another session deleted it, the result and its count are true, a dry run only counts, and if nothing goes wrong for the maintenance user no such row is left |
| `Retention.Maintenance.Transact` | scripts/audit_retention_cleanup.py:164-205 | count, delete and commit come to the declared outcome, and the table to what its log says |
| `Retention.CleanTells` | scripts/audit_retention_cleanup.py:164-205 | of the declared outcome: the result is true, the removed rows were dated before the cutoff and not held when the delete ran, every other action is another session's |
| `Retention.Maintenance.Cleanup` | scripts/audit_retention_cleanup.py:161-230 | both tables, with other sessions interleaved, also between the two transactions: every table's result is true, the removed rows were dated before the cutoff and not held when the delete ran, a row dated at or after the cutoff that no other session deletes stays as it was, each table that meets no failure under the maintenance user was at some time without such rows, every logged action is another session's or the script's own delete, a dry run adds no action of its own, the verdict is right, and the total is the number of rows removed exactly when no table removed rows it does not report as success |
| `Retention.TotalExactIff` | scripts/audit_retention_cleanup.py:78-78 | the total is exact if and only if in neither table the delete removed rows and then the commit raised after taking effect or their number was not the counted one |
| `Retention.HoldMidwayUnreported` | scripts/audit_retention_cleanup.py:183-201 | two eligible rows, one held between count and delete: one row is removed, the result is partial and the total is zero |
| `Queries.OrderedIsStrict` | services/audit_query_service.py:64-67 | distinct event ids make the order by timestamp and event id strict |
| `Queries.OrderedKeepsRows` | services/audit_query_service.py:64-67 | ordering keeps every row and every multiplicity |
| `Queries.StrictOrderUnique` | services/audit_query_service.py:64-67 | two strictly ordered lists of the same rows are one list |
| `Queries.ListingUnique` | services/audit_query_service.py:37-40 | the listing does not depend on how the table is stored |
| `Queries.PagesCover` | api/routes_audit_events.py:72-72 | pages 1 to total_pages, one after the other, are the whole listing, and later pages are empty |
| `Queries.PagesNotEmpty` | api/routes_audit_events.py:72-72 | a page has rows exactly if it is one of the first total_pages |
| `Queries.PagesGiveListing` | services/audit_query_service.py:37-72 | answers to calls for pages 1 to total_pages, put together, are exactly the matching rows, each once, in strictly descending order |
| `Queries.NewestFirst` | services/audit_query_service.py:64-69 | within a page and from one page to a later one each row is newer than the next, or as new with the greater event id |
| `Queries.LaterPagesEmpty` | services/audit_query_service.py:62-72 | a call for a later page answers with no rows and the same total |
| `Queries.QueryIsListing` | services/audit_query_service.py:62-72 | filtering and ordering give the one listing of the matching rows |
| `Queries.BuildQuery` | services/audit_query_service.py:42-60 | the filters built one by one admit exactly the rows that meet every filter given |
| `Queries.BoundMeansInstantIff` | services/audit_query_service.py:54-57 | a lower bound and an upper bound each mean the instant they name exactly when they have no offset or a zero one |
| `Queries.RunQuery` | services/audit_query_service.py:62-72 | the page asked for of that listing, and its full length as the total |
| `Queries.ListAuditEvents` | services/audit_query_service.py:18-72 | the page asked for of the listing of the wanted rows, and the listing's length |
| `TenantReads.AccessOf` | api/deps_audit.py:25-32 | platform-wide exactly with the platform permission; otherwise an organization exactly with its role and a non-empty scalar claim, which it is |
| `TenantReads.AccessFromClaims` | api/deps_audit.py:25-32 | the same of the claims as they are: a list grants a name it holds, a bare text one it contains, a missing claim none |
| `TenantReads.ListSafe` | services/audit_query_service.py:83-114 | the page asked for of the listing of the rows in scope that meet every filter, also without an organization, when it asks for NULL |
| `TenantReads.SafeRoute` | api/routes_audit_safe.py:47-82 | refuses exactly what is denied, reversed in time, not comparable in time or outside the caller's organization, each with the status the code gives; otherwise pages the listing of what the caller is shown, total_pages being the least number of pages that holds the total |
| `TenantReads.OtherRowsInvisible` | services/audit_query_service.py:91-97 | tables that agree on an organization's own rows give its callers the same listing |
| `TenantReads.OrganizationParameterRedundant` | api/routes_audit_safe.py:49-51 | for an organization caller the organization parameter, where not refused, changes nothing |
| `TenantReads.OrganizationViewIsFilteredPlatformView` | services/audit_query_service.py:92-98 | under any further filters an organization's view equals the platform view filtered to it exactly when, of the rows that meet them, all with its id have organization scope |
| `TenantReads.ConsistentViewsAgree` | services/audit_query_service.py:92-114 | on tenant-consistent tables the two views agree under any further filters |
| `TenantSystem.StoredRowTells` | consumers/sink.py:42-89 | after every run, from either store, a row as the query service reads it has the id, user, organization, scope, service, type and decision of the event its entry parses to, that event's instant, and the status of the entry's signature |
| `TenantSystem.OrganizationViewAfterEveryRun` | services/audit_query_service.py:91-114 | after every run, under any filters and however the rows are read, an organization's view is the platform view filtered to it |
| `RateLimits.PassesSpaced` | audit/security_alerts.py:130-134 | two passes of one key, the later not exempt, are at least a window apart |
| `RateLimits.PassesSpan` | audit/security_alerts.py:130-134 | any k of them span at least k - 1 windows |
| `RateLimits.SuppressedNearAPass` | audit/security_alerts.py:131-133 | what is suppressed follows a pass of its key by less than a window |
| `RateLimits.OtherKeysUnaffected` | audit/security_alerts.py:134-134 | a request leaves every other key's state alone |
| `Alerts.AlertGate.Emit` | audit/security_alerts.py:126-134 | one call sends exactly when the limiter lets it pass, and keeps the limiter's state |
| `Alerts.EmitAll` | audit/security_alerts.py:126-141 | over a whole sequence of calls exactly the passing ones are sent |
| `Alerts.KeysDistinct` | audit/security_alerts.py:126-126 | with colon-free components two alerts share a key only if component and condition agree |
| `Alerts.AlertsSpan` | audit/security_alerts.py:126-134 | k sent alerts of one component and condition, no recovery, span at least k - 1 windows |
| `Alerts.SuppressedIsRepeat` | audit/security_alerts.py:128-133 | a suppressed alert's condition does not end in "_recovered", and it repeats an alert sent less than a window earlier |
| `Alerts.RecoveryAlwaysSent` | audit/security_alerts.py:127-134 | a recovery is sent whatever was sent before, under a key other than its alert's |
| `Alerts.NogroupGuard.Handle` | worker/main.py:59-69 | attempts a recreation exactly when enabled and the backoff has passed |
| `Alerts.HandleAll` | worker/main.py:59-69 | over a whole sequence of errors the first is attempted and attempts are at least one backoff apart |
| `RedisSession.NormalizeCommand` | scripts/redis_acl_safety.py:307-325 | the loop over decoded, stripped and upper-cased arguments gives the command's one- or two-token name, or refuses an empty one |
| `RedisSession.PaddingIgnored` | scripts/redis_acl_safety.py:308-313 | white space around an argument does not change what it is folded to |
| `RedisSession.CaseIgnored` | scripts/redis_acl_safety.py:308-313 | nor does the case of its ASCII letters |
| `RedisSession.BytesIgnored` | scripts/redis_acl_safety.py:318-320 | nor whether ASCII text came as bytes |
| `RedisSession.WhoamiPermitted` | scripts/redis_acl_safety.py:544-544 | every gate permits the identity check |
| `RedisSession.ListedRecognized` | scripts/redis_acl_safety.py:253-326 | every listed name, typed as listed and with any arguments after it, is recognized as that name, so neither list has an entry the gates never see |
| `RedisSession.AllowedNotDangerous` | scripts/redis_acl_safety.py:253-291 | no allowed command is on the denylist |
| `RedisSession.Authorize` | scripts/redis_acl_safety.py:366-455 | raises nothing exactly when the gate permits the command's name, and raises the dangerous-command error exactly for listed names |
| `RedisSession.SentPermitted` | scripts/redis_acl_safety.py:478-482 | whatever a sequence of calls sends was asked for and is permitted |
| `RedisSession.NothingAfterClose` | scripts/redis_acl_safety.py:478-491 | calls after a close send nothing |
| `RedisSession.OpenSessionSendsAll` | scripts/redis_acl_safety.py:478-482 | until a close calls add up, so no permitted command is dropped |
| `RedisSession.AuthenticatedSession.Run` | scripts/redis_acl_safety.py:478-482 | sends the command exactly when the session is open and the gate permits it, and raises nothing exactly when it was also answered |
| `RedisSession.AuthenticatedSession.Close` | scripts/redis_acl_safety.py:484-491 | closes session and connection and sends nothing, also when called again |
| `RedisSession.AuthenticatedSession.Use` | scripts/redis_acl_safety.py:478-491 | over any sequence of calls the wire grows by exactly the permitted commands before the first close |
| `RedisSession.Authenticate` | scripts/redis_acl_safety.py:500-569 | a session exactly when AUTH was accepted and WHOAMI named the expected identity; otherwise the connection is closed, the wire is a prefix of AUTH, ACL WHOAMI, a refused AUTH was its only command, and the error tells a failed authentication from a wrong identity |
| `RedisSession.AuthenticateProduction` | scripts/redis_acl_safety.py:572-590 | a session exactly on the production port, with AUTH accepted and the expected identity named; no connection on another port; the identity error exactly when AUTH was accepted and WHOAMI was answered with another identity or with a Redis error |
| `RedisSession.ProductionCheck` | scripts/redis_acl_safety.py:478-590 | for every server and every later calls: it succeeds exactly on the production port with AUTH of that user and password answered by true or OK and ACL WHOAMI by the expected identity; the wire is a prefix of those two, or both and then only commands that were asked for, are on the allowlist and not on the denylist |

## Left out

- Redis, MySQL, SQLAlchemy, FastAPI and pydantic themselves: only the effects the code relies on are modelled.
- Trimming, and deletion or recreation of the stream or group: only the backoff around recreation is modelled.
- Worker.Consumer.RunLoop: does not model failing Redis calls, because the state machine has them as `Crash` steps and its theorems cover them; inside these methods only database calls fail. Time passes between iterations, not within a sweep. The drain and starvation clauses are for one worker alone on its group.
- Worker.Consumer.ReadAndHandle: does not model blocking or time-outs of XREADGROUP, because an empty reply has the same effect.
- Verifier.VerifyTable: one method stands for the two verifier loops, because they differ only in table, id column, required fields and hash function, which are its parameter.
- Verifier.ExitCode: does not model a stored hash with characters outside ASCII, for which `hmac.compare_digest` raises outside the `try` (audit/record_integrity.py:167) and the script ends with a traceback, also not with exit code 0.
- TamperEvidence.EventProtectedIff: does not model column widths (db/models.py:30-65), because a store may or may not enforce them; a width only makes doubles rarer. The single secret a direct caller may pass in place of a keyring is left out too.
- RedisSession.AuthenticatedSession.Close: does not model a client whose close fails, because the session refuses further commands either way.
- RedisSession.NormalizeCommand: takes upper-casing and white space beyond ASCII, and the decoding of bytes beyond ASCII, as parameters, because they are Python's tables.
- Queries.OrderedIsStrict: orders event ids by code point, because the column's collation is the database's own.
- Retention.RowsOnlyLeaveUnheld: does not model DDL, TRUNCATE or dropped triggers, because whoever may issue those is outside the triggers' reach; user names and keys are compared exactly, not by collation.
- Floats, NaN, lone surrogates and values that need `default=str` in a context document.
- SHA-256, HMAC and the derivation of keys from secrets; reading other settings from the environment.
- `project_safe_metadata` and the other response projections, which would only add easy members; the 401 and 503 answers.
- Token verification in audit/jwt_verify.py; identities, contexts and decorators.
- The live probe of disposable Redis instances (`classify_environment`); its two gates are modelled only in what they let through.
- Alert sinks, printing, status files, the health service, the other migrations and the provisioning script.
