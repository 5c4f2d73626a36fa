# BSDM-Proxy: verified models

Dafny models of the stateful cores of BSDM-Proxy, with the laws they keep. `dafny verify dfyconfig.toml`
checks the whole project.

| file | component |
|---|---|
| `DnsName`, `DnsMessage`, `DnsZone`, `DnsServer` | the DNS sinkhole: names with compression pointers, queries and responses (RFC 1035, sections 4.1.1 to 4.1.4), the blocklist zone, and a packet from arrival to answer |
| `KafkaIngest` | the Kafka to event-store consumer, through crashes, failed inserts and lost commits |
| `AgentCrl`, `CrlInterleaving`, `CrlOrder` | the agent revocation list over a shared Redis hash, first with whole operations, then with every store call a step of its own, then the runs in which its number can be trusted |
| `DeviceRegistry`, `RegistryCluster` | the agent device registry with its Redis indexes and its merge, on one node and on any number |
| `TrustStatus` | good, revoked or unknown, and the step that revokes a device in both stores |
| `AclEngine` | the priority-ordered access rules, their regex cache, copy-on-write and persistence |
| `AlertDedupe`, `Categorization`, `CacheFreshness`, `CacheDigest` | the small caches and filters |
| `SecurityUtil`, `Certificates`, `Clock`, `Text`, `Utf8` | secret comparison, the keys of a certificate, elapsed time, Rust string operations, and the UTF-8 codec that names go through |

Each operation that the code performs by mutation is a method, in a class where the code has an object,
proved equal to a function on values. The laws are then proved of those functions, over every input or
over every run. A run is a sequence of states or of operations from the empty start; nothing bounds its
length, the number of nodes, or how their steps mix.

Where the code and its own words differ, the code is followed:

- The comment on `*.` domain rules speaks of subdomains, while the code compares characters.
  `WildcardIsSubdomain` gives the exact condition under which the two agree, `WildcardOverreach` a case
  where they do not.
- Section 2.3.4 of RFC 1035 limits a label to 63 bytes. The reader takes any length byte below 0xC0, so
  the name laws hold for labels of 1 to 191 bytes, in any Unicode text, and not only for ASCII.
- The CRL number of section 5.2.3 of RFC 5280 identifies a list only while readers and writers keep
  apart. `OrderlyNumbering` proves it of every run in which no task is between its two reads while
  another writes, revocations exclude each other, and only lookups miss the store.
  `MergeKeepsNumbering` and `ListKeepsNumbering` give, for a single step, the exact condition.
  `OverlapBreaksNumbering`, `TornTooHigh`, `TornTooLow` and `MissedHash` break it without each clause.
  What survives every overlap and every store failure is stated by `NothingTaken`, `NothingInvented` and
  `StoredIsSeen`.
- A revoked device is meant to stay revoked. On one node it does (`RevokedForever`). With several, the
  flag in Redis is that of the last writer (`RevokedFlagLaw`), and one heartbeat from a node with an older
  copy undoes a revocation (`HeartbeatUndoes`). It is final once every node holds it (`SettledForever`).
  The revocation list, which every status answer asks first, has no such gap (`RevokedEverywhere`).
- A certificate is meant to be good while a trusted device holds it. The Redis indexes are never cleaned,
  so a fingerprint that a device has replaced stays good (`RotatedStaysGood`). `RedisHarmless` says exactly
  when Redis changes no answer, `StatusInRuns` what the answer is.

## Model

| member | source | states |
|---|---|---|
| `DnsName.ReadName` | dns-sinkhole/src/dns.rs:66-111 | The pointer-following loop ends on every buffer and offset; it succeeds exactly when a finite walk with at most 10 pointers leads from the offset to a zero byte, and then gives the labels of every such walk and an end after the start and within the buffer |
| `DnsName.LabelsExactlyWalks` | dns-sinkhole/src/dns.rs:66-111 | For any hop limit, reading succeeds if and only if a walk exists, and all walks spell the same labels, so no pointer cycle is accepted |
| `DnsName.NameEndInBounds` | dns-sinkhole/src/dns.rs:66-111 | The end offset of a readable name is strictly after its start and at most the buffer length |
| `DnsName.NameEndIsLocal` | dns-sinkhole/src/dns.rs:66-111 | The end offset is fixed by the bytes up to the first terminator or pointer alone |
| `DnsName.WithinIsLocal` | dns-sinkhole/src/dns.rs:66-111 | A name whose reading, pointers included, stays inside a range of bytes is read alike, to the same end, from any buffer that agrees on that range, with that hop limit or a higher one |
| `DnsName.EncodeName` | dns-sinkhole/src/dns.rs:113-127 | The loop writes length-prefixed labels and a terminator; `EncodedNameOfLabels` and `ReadLabelsAt` say what they mean |
| `DnsName.EncodedNameOfLabels` | dns-sinkhole/src/dns.rs:113-127 | Encoding the dotted form of any non-empty dot-free labels, of any length, writes exactly those labels |
| `DnsName.ReadLabelsAt` | dns-sinkhole/src/dns.rs:66-127 | Wherever encoded labels of 1 to 191 bytes stand in a buffer, the reader gives them back in lower case |
| `DnsMessage.ParseQuery` | dns-sinkhole/src/dns.rs:29-64 | The parser computes `QueryIn` with all its refusals, the subject of the round trip below |
| `DnsMessage.RefusedExactly` | dns-sinkhole/src/dns.rs:29-64 | Each refusal exactly when the packet is too short, asks other than one question, has QR set, has an unreadable name or ends within the question; everything else is accepted |
| `DnsMessage.QueryRoundTrip` | dns-sinkhole/src/dns.rs:29-127 | For any id, flags with QR clear, counts, labels, type, class and trailing bytes, parsing the written query gives the lower-cased name, the same id, RD bit, type and class, and exactly the encoded question |
| `DnsMessage.QueryFacts` | dns-sinkhole/src/dns.rs:29-64 | An accepted query's captured question bytes are the name and the four bytes after it |
| `DnsMessage.BuildResponse` | dns-sinkhole/src/dns.rs:129-164 | The appended buffer is the header, the echoed question and the answers in order, with the code's casts; `ResponseDecodes` says what a receiver makes of it |
| `DnsMessage.AnswersDecode` | dns-sinkhole/src/dns.rs:154-162 | Every answer, read by an independent decoder, has its own type, TTL and data and, through its 0xC00C pointer, the question's name |
| `DnsMessage.ResponseDecodes` | dns-sinkhole/src/dns.rs:29-164 | For every accepted query whose name, compressed or not, stays inside its question, the response decodes to the same id, RD bit, rcode, question and ordered answers if and only if rcode is below 16, the answer count and data lengths fit 16 bits and, when there are answers, the name follows at most 9 pointers |
| `DnsMessage.UncompressedContained` | dns-sinkhole/src/dns.rs:29-111 | Every uncompressed name stays inside its question |
| `DnsMessage.DanglingEcho` | dns-sinkhole/src/dns.rs:129-164 | A name that is a bare pointer to bytes after its question cannot be decoded from the echo of any response without answers |
| `DnsZone.StripComment` | dns-sinkhole/src/zone.rs:66-79 | The quote-tracking loop removes what `UncommentedIs` says |
| `DnsZone.UncommentedIs` | dns-sinkhole/src/zone.rs:66-79 | What is left is a prefix that stops exactly at the first `;` or `#` outside quotes |
| `DnsZone.OptionalFieldsIgnored` | dns-sinkhole/src/zone.rs:104-125 | A TTL and a class before the type change nothing about the entry |
| `DnsZone.LineForms` | dns-sinkhole/src/zone.rs:86-153 | The same of whole lines: written with or without TTL and class they say the same thing |
| `DnsZone.RecordSays` | dns-sinkhole/src/zone.rs:104-153 | For all tokens: an owner with `*.` is a suffix entry of its normalised name, without an exact one, with the policy for CNAME and the address for A and AAAA in any case; every other type and every unparseable address is its own error |
| `DnsZone.TypeMissing` | dns-sinkhole/src/zone.rs:104-120 | An owner followed by a TTL or a class only is the error of a missing type |
| `DnsZone.SingleSays` | dns-sinkhole/src/zone.rs:92-102 | A single token is a policy entry, of a suffix with a leading dot and of the name itself without |
| `DnsZone.NormalizedIs` | dns-sinkhole/src/zone.rs:81-84 | A name is normalised to its text without surrounding blanks and final dots, in lower case |
| `DnsZone.WrittenLine` | dns-sinkhole/src/zone.rs:33-43 | Indentation, trailing blanks and a comment change nothing of what a line says |
| `DnsZone.SaysNothing` | dns-sinkhole/src/zone.rs:36-42 | Blank lines, comments and `$` directives say nothing |
| `DnsZone.Zone.ParseLine` | dns-sinkhole/src/zone.rs:86-153 | An index of some entries becomes an index of those and the entry that `RecordSays` and `SingleSays` give for the line; a bad line is reported and leaves the index alone |
| `DnsZone.ParseZone` | dns-sinkhole/src/zone.rs:31-46 | Every accepted text gives an index of exactly its entries in file order; otherwise the first bad line is reported with its number |
| `DnsZone.CollectFails` | dns-sinkhole/src/zone.rs:31-46 | A text is accepted exactly when every line is, and its error is that of its first bad line, counted from 1 |
| `DnsZone.SuffixLineAnswers` | dns-sinkhole/src/zone.rs:31-59 | A suffix line of an accepted text decides every name that ends in its labels, if no line names that name exactly and no earlier suffix line ends it |
| `DnsZone.ExactLineAnswers` | dns-sinkhole/src/zone.rs:31-59 | An exact line decides its name if no later line names it exactly, whatever the suffix lines say |
| `DnsZone.Zone.Lookup` | dns-sinkhole/src/zone.rs:48-59 | The answer is the last exact line for the name, else the first suffix line whose labels are a tail of the name's labels, else nothing |
| `DnsZone.IndexAnswers` | dns-sinkhole/src/zone.rs:31-59 | The map-and-vector index agrees with the list of lines for every list of entries and every name |
| `DnsZone.AnswersUnique` | dns-sinkhole/src/zone.rs:48-59 | The lines determine the answer |
| `DnsZone.ExactIndexAnswers` | dns-sinkhole/src/zone.rs:48-52 | The map holds a name exactly when a line names it, with the action of the last such line |
| `DnsZone.SuffixIndexAnswers` | dns-sinkhole/src/zone.rs:53-57 | The scan finds the first suffix line in file order, for any suffix test |
| `Text.SuffixTestIsLabelTail` | dns-sinkhole/src/zone.rs:54 | Equal, or ending in a dot and the suffix, is the same as being a tail of labels |
| `Text.TokensSplitBack` | dns-sinkhole/src/zone.rs:87 | Tokens joined by spaces are split into the same tokens |
| `Text.TrimIs` | dns-sinkhole/src/zone.rs:35 | Trimming takes whitespace from the two ends and nothing else |
| `Text.TrimOf` | dns-sinkhole/src/zone.rs:35 | The text between surrounding whitespace is what trimming gives |
| `Text.LinesOf` | dns-sinkhole/src/zone.rs:33 | Lines that are each ended by a newline are the lines of the text |
| `Text.LowerSame` | dns-sinkhole/src/zone.rs:82 | Strings lower-case to the same exactly when they differ in the case of ASCII letters only |
| `Utf8.DecodeEncode` | dns-sinkhole/src/dns.rs:103 | Decoding the UTF-8 bytes of a string gives it back, for every string |
| `Utf8.EncodeDecode` | dns-sinkhole/src/dns.rs:103 | Only the encoding of a string decodes to it, so overlong and other ill-formed bytes are refused |
| `DnsServer.BuildBlockResponse` | dns-sinkhole/src/server.rs:185-218 | The branches give a reply from which the client that asked decodes the right code and address, whatever packet the query came in, if its name stays inside the question with a hop to spare |
| `DnsServer.VerdictServes` | dns-sinkhole/src/server.rs:185-218 | For every action, policy and query type, the verdict decodes to the right response code and at most the one right address, under the name that was asked |
| `DnsServer.ProcessQuery` | dns-sinkhole/src/server.rs:143-183 | The server's handling of a packet is `Handled`, the subject of the end-to-end law |
| `DnsServer.PacketServed` | dns-sinkhole/src/server.rs:143-218 | For every packet: a format error under its id when it cannot be parsed; forwarded unchanged exactly when it is class IN and no zone line speaks of its name. Of replies to names that stay inside their question: an empty one decodes outside class IN, and in class IN, with a hop to spare, what the deciding line says |
| `DnsServer.SuffixLineServes` | dns-sinkhole/src/server.rs:143-218 | From zone text to client: a class IN question under a suffix line, with no exact line and no earlier suffix line for it, is never forwarded and decodes to what that line says |
| `KafkaIngest.Run` | cache-indexer/src/kafka_ingest.rs:35-86 | The loop over its batch, position and commit time computes `Session`, turn by turn what `TurnCommits` states, with an early end at the first failed flush or commit |
| `KafkaIngest.FlushBatch` | cache-indexer/src/kafka_ingest.rs:88-104 | A good insert stores the whole batch in order, a failing one any part of it |
| `KafkaIngest.TurnCommits` | cache-indexer/src/kafka_ingest.rs:42-84 | What waits is stored exactly when 50 wait after a new one, the poll ran dry or the last commit is over 30 seconds old; a turn that stores and stays up hands the position after it to the broker, and no other turn hands over anything |
| `KafkaIngest.TurnKeepsInv` | cache-indexer/src/kafka_ingest.rs:42-84 | One turn of the loop keeps: every offset the broker holds or may yet hold is covered by the store, the batch is exactly the unstored events read, and no event is stored beyond its allowance |
| `KafkaIngest.RunsKeepInv` | cache-indexer/src/kafka_ingest.rs:35-104 | The same in every run with crashes, restarts and commits that land late, out of order or never |
| `KafkaIngest.AtLeastOnce` | cache-indexer/src/kafka_ingest.rs:35-104 | Every parseable event below the committed offset is stored, none more than restarts + 1 times, and a process that never restarted holds exactly the events it read, in order, but for a pending batch shorter than 50 |
| `KafkaIngest.CommittedIsDone` | cache-indexer/src/kafka_ingest.rs:35-104 | After any turn of any run that stores and stays up, once its commit lands a crash and restart resume at that position, and unless an older commit lands late no earlier event is ever stored again |
| `KafkaIngest.LateCommitRewinds` | cache-indexer/src/kafka_ingest.rs:52-53 | An older commit that lands late moves a restart back to it |
| `KafkaIngest.Delivered` | cache-indexer/src/kafka_ingest.rs:35-86 | From any moment of any run at which the process is up, every failure-free continuation that polls often enough, with any clock and any fate of commits, and then one idle poll, leave every event of the log stored and nothing pending |
| `AgentCrl.CrlHandle.Pull` | proxy/src/agent_crl.rs:135-171 | The merge loop, over whatever order the hash comes in, computes `Pulled` |
| `AgentCrl.PullTwice` | proxy/src/agent_crl.rs:135-171 | Pulling twice is pulling once, in whatever orders the hash comes |
| `AgentCrl.CrlHandle.Entry` | proxy/src/agent_crl.rs:203-233 | A lookup pulls and then finds the first entry that holds the key, if any |
| `AgentCrl.EntryByIs` | proxy/src/agent_crl.rs:203-233 | An entry is found exactly when one holds the key, in any case, and it is the first that does |
| `AgentCrl.CrlHandle.Revoke` | proxy/src/agent_crl.rs:236-308 | Pull, add once, number and publish: the whole new state of the node and of Redis, of the node alone without Redis, and nothing at all without a fingerprint |
| `AgentCrl.EntryTells` | proxy/src/agent_crl.rs:236-275 | A revocation is for the list exactly when its fingerprint is not blank, and its entry has the trimmed lower-case fingerprint and serial (none when blank), the device, the time and the reason or "unspecified" |
| `AgentCrl.PullCatchesUp` | proxy/src/agent_crl.rs:135-171 | A pull brings any node to exactly the whole history of revocations and its number |
| `AgentCrl.StepKeepsInv` | proxy/src/agent_crl.rs:135-308 | A revoke or pull on any node keeps: Redis holds the history, and each node its first number - 1 entries in some order |
| `AgentCrl.NumberingLaw` | proxy/src/agent_crl.rs:135-308 | For any two moments and nodes of any run: number is entry count + 1, a smaller number means a sublist, equal numbers mean equal lists, and fingerprints are distinct and lower-case |
| `AgentCrl.NothingLost` | proxy/src/agent_crl.rs:135-308 | Along a run no node's number goes back and no entry disappears |
| `AgentCrl.RevocationSpreads` | proxy/src/agent_crl.rs:177-308 | Once any node has revoked a fingerprint, every later lookup on every node finds it, in any spelling of case |
| `AgentCrl.EntrySpreads` | proxy/src/agent_crl.rs:135-308 | Once any node has added a revocation, every later lookup on every node sees an entry with all it said |
| `AgentCrl.SerialSpreads` | proxy/src/agent_crl.rs:189-308 | So a lookup by its serial, in any case, finds an entry on every node |
| `CrlInterleaving.StepGrows` | proxy/src/agent_crl.rs:135-308 | No single store call or locked section, failed or not, takes an entry away or lowers a node's number |
| `CrlInterleaving.NothingTaken` | proxy/src/agent_crl.rs:135-308 | With every interleaving of store calls of any number of tasks and every failure, lists only grow at their end, node numbers only rise and hash keys stay |
| `CrlInterleaving.NothingInvented` | proxy/src/agent_crl.rs:135-308 | In the same runs every entry anywhere is one that some begun revocation asked for, each list holds a fingerprint once, and the hash keeps each entry under its own fingerprint |
| `CrlInterleaving.StoredIsSeen` | proxy/src/agent_crl.rs:135-308 | In the same runs, once an entry is in the hash, every pull that reads the hash later leaves the fingerprint on its node's list |
| `CrlInterleaving.Serialised` | proxy/src/agent_crl.rs:135-308 | Every run of tasks one at a time without failures is, at each moment, a run of whole revokes and pulls plus the task under way |
| `CrlOrder.MergeKeepsNumbering` | proxy/src/agent_crl.rs:135-171 | Merging a hash of the first p revocations under number n keeps a list numbered if and only if n and p + 1 agree, or the list is already ahead of both |
| `CrlOrder.ListKeepsNumbering` | proxy/src/agent_crl.rs:244-266 | Appending a new entry keeps a list numbered if and only if it has the whole history |
| `CrlOrder.MoveKeeps` | proxy/src/agent_crl.rs:135-308 | Every store call and locked section keeps: each list, each task under way and the store hold parts of one history, as long as no task is between its two reads while another writes and revocations exclude each other |
| `CrlOrder.OrderlyNumbering` | proxy/src/agent_crl.rs:135-308 | In every such run, with lookups overlapping freely and allowed to miss the store, the numbering law holds at any two moments on any two nodes, also while tasks are under way |
| `CrlOrder.OneAtATimeIsOrderly` | proxy/src/agent_crl.rs:135-308 | Tasks that run one at a time are such a run |
| `CrlInterleaving.OverlapBreaksNumbering` | proxy/src/agent_crl.rs:236-308 | Any two revocations of different fingerprints have an overlapping run, without failures, that ends with equal numbers on unequal lists |
| `CrlOrder.TornTooHigh` | proxy/src/agent_crl.rs:135-171 | One lookup beside one revocation, hash read before and number after, ends with the number of a list it does not have |
| `CrlOrder.TornTooLow` | proxy/src/agent_crl.rs:135-171 | Hash read after and number before, it ends with the number of a shorter list |
| `CrlOrder.MissedHash` | proxy/src/agent_crl.rs:135-150 | A failed read of the hash lets a later revocation take the number of an earlier one |
| `DeviceRegistry.RedisDevices.PutDevice` | proxy/src/device_registry.rs:714-766 | The command sequence leaves the record and the three indexes as `Put` says; `PutKeepsExact` says what that is worth |
| `DeviceRegistry.RegistryHandle.ApplyHeartbeat` | proxy/src/device_registry.rs:353-416 | Each refusal leaves the registry alone; otherwise the map and Redis change as `Beat` says |
| `DeviceRegistry.RegistryHandle.EnrollDevice` | proxy/src/device_registry.rs:419-526 | The same for enrolment and its three refusals |
| `DeviceRegistry.RegistryHandle.RevokeDevice` | proxy/src/device_registry.rs:646-680 | The same for revocation, including a device that only Redis knows |
| `DeviceRegistry.RegistryHandle.PullFromRedis` | proxy/src/device_registry.rs:313-350 | The merge loop over the hash in any order, and how many records it took; nothing without Redis |
| `DeviceRegistry.RegistryHandle.DeviceTokenValid` | proxy/src/device_registry.rs:529-553 | The scan, then the Redis index, decide as `CheckToken` says, and a device found by index is cached |
| `DeviceRegistry.RegistryHandle.CertValid` | proxy/src/device_registry.rs:556-643 | The scan for a trusted holder, then the Redis index of the key, decide as `CheckCert` says, and a device found by index is cached |
| `DeviceRegistry.RegistryHandle.CertKnown` | proxy/src/device_registry.rs:582-617 | The same for any holder, trusted or not, caching nothing |
| `DeviceRegistry.EnrollMeans` | proxy/src/device_registry.rs:419-526 | Which of the three refusals applies, exactly, and every field an enrolment writes or keeps |
| `DeviceRegistry.BeatMeans` | proxy/src/device_registry.rs:353-416 | The same for a heartbeat and its two refusals, a blank id and a score over 100 |
| `DeviceRegistry.RevokeMeans` | proxy/src/device_registry.rs:646-680 | The same for a revocation, which changes the flag and the token of one record only |
| `DeviceRegistry.LookupsCache` | proxy/src/device_registry.rs:529-643 | A lookup that only Redis can answer leaves the record it found in the local map; every other lookup changes nothing |
| `DeviceRegistry.ApplyKeepsInv` | proxy/src/device_registry.rs:353-680 | Every operation keeps: keys are ids, revoked records have no token, Redis mirrors the map, and every index entry is backed by a record |
| `DeviceRegistry.RunKeepsInv` | proxy/src/device_registry.rs:353-680 | In every run of one node each record is the digest of its history: last reported fingerprint, serial, score, platform, enrolment and sighting, the hash of the last token not withdrawn, and revoked exactly when it was ever withdrawn |
| `DeviceRegistry.TokenLaw` | proxy/src/device_registry.rs:353-553 | In every run a token is valid exactly when it is the latest one issued to some device with no later revocation of that device |
| `DeviceRegistry.RevokedForever` | proxy/src/device_registry.rs:646-680 | Once revoked, a device stays revoked, holds no token hash and is never issued a token again |
| `DeviceRegistry.CarrierLaw` | proxy/src/device_registry.rs:714-766 | In every run with Redis each fingerprint and serial index entry names the device of the last event that left its record holding the key, though that device may hold another by now |
| `DeviceRegistry.CarrierReported` | proxy/src/device_registry.rs:714-766 | A key has such a device exactly when it was ever reported |
| `DeviceRegistry.HeldInRuns` | proxy/src/device_registry.rs:353-680 | In every run the records hold exactly the keys their histories say, and are trusted exactly when never withdrawn |
| `DeviceRegistry.PutKeepsExact` | proxy/src/device_registry.rs:714-766 | Writing a record keeps the token index the exact inverse of the records if and only if no other record holds its token hash |
| `DeviceRegistry.IndexAgreesWithScan` | proxy/src/device_registry.rs:714-790 | With one writer and fresh tokens, after every run lookup by token hash agrees with a full scan |
| `DeviceRegistry.MergeIsPointwise` | proxy/src/device_registry.rs:313-350 | Whatever the order of the hash, the merge keeps for each id the record seen later, the local one on ties |
| `DeviceRegistry.MergeLaws` | proxy/src/device_registry.rs:313-350 | The merge does not depend on order, is idempotent, and never lowers a sighting time |
| `RegistryCluster.ClusterSound` | proxy/src/device_registry.rs:313-680 | In every run of any number of nodes over one Redis, with all lookups that write the cache, in every cache and in Redis, keys are ids and a revoked record has no token hash |
| `RegistryCluster.RevokedFlagLaw` | proxy/src/device_registry.rs:353-766 | In every such run Redis has a device revoked exactly when the last step that wrote it is a revocation or was made by a node whose cache then held it revoked |
| `RegistryCluster.AfterWithdrawal` | proxy/src/device_registry.rs:646-680 | So after a withdrawal the flag in Redis is settled by the last write since |
| `RegistryCluster.TokenIndexLaw` | proxy/src/device_registry.rs:714-766 | In every such run a token index entry is what the last step that touched it made it: set by an enrolment or by a heartbeat of a node that knows the token, dropped by a new enrolment or a revocation that knows it |
| `RegistryCluster.ClusterTokenLaw` | proxy/src/device_registry.rs:529-553 | In every such run a node accepts a token exactly when its cache holds an unrevoked record of its hash, or the index leads to a device whose last writer neither revoked it nor held it revoked |
| `RegistryCluster.WithdrawnTokenAccepted` | proxy/src/device_registry.rs:529-553 | A token of a withdrawn device is accepted exactly when the node still holds it itself, or the index leads to the device and its last write is later than the withdrawal, no revocation, and by a node that did not hold it revoked |
| `RegistryCluster.SettledForever` | proxy/src/device_registry.rs:313-680 | Once Redis and every node hold a device revoked, they do for the rest of the run |
| `RegistryCluster.HeartbeatUndoes` | proxy/src/device_registry.rs:353-416 | For any device, token and times: one heartbeat on a node that pulled before the revocation unrevokes the record in Redis, indexes its token again, and after the next pull the revoking node accepts it |
| `RegistryCluster.StrangerUndoes` | proxy/src/device_registry.rs:353-416 | A heartbeat on a node that never saw the device clears the flag in Redis too |
| `SecurityUtil.ConstantTimeEq` | proxy/src/security_util.rs:9-18 | Or-ing all byte differences decides equality |
| `TrustStatus.CheckStatusApi` | proxy/src/agent_ocsp.rs:66-145 | List, then registry scans and indexes, in the order of the code: the answer is `CheckStatus`, the list is pulled once in effect, and the registry only caches what its index found |
| `TrustStatus.StatusMeaning` | proxy/src/agent_ocsp.rs:66-145 | Without Redis, for one key: revoked exactly when listed or held only by revoked devices, good exactly when unlisted and held by a trusted device, unknown exactly otherwise |
| `TrustStatus.RedisHarmless` | proxy/src/agent_ocsp.rs:66-145 | For every registry with Redis, the answer is that one if and only if the key is listed, its index entry leads nowhere, a trusted device holds it, or the entry leads to a revoked device while some device holds it |
| `TrustStatus.StatusInRuns` | proxy/src/agent_ocsp.rs:66-145 | After every run of one node with Redis, for an unlisted key: unknown exactly when it was never reported, good exactly when a device that holds it now or the last one ever stored with it was not withdrawn, revoked exactly otherwise; a listed key is always revoked |
| `TrustStatus.RotatedStaysGood` | proxy/src/agent_ocsp.rs:104-111 | A device that reports one fingerprint and then another no longer holds the first, which is still answered good |
| `TrustStatus.ListedMeansRevoked` | proxy/src/agent_ocsp.rs:81-168 | A key on the list, asked alone or with another, is answered revoked with every field from the first entry that holds it, fingerprint first, whatever the registry says |
| `TrustStatus.BothKeys` | proxy/src/agent_ocsp.rs:66-145 | Asked by both keys: revoked if either is listed, otherwise good exactly when one alone would be and unknown exactly when both would be |
| `TrustStatus.Echoed` | proxy/src/agent_ocsp.rs:66-145 | No answer exactly when both keys are blank; one that the list does not give echoes the keys in lower case, its times, and a reason exactly when revoked |
| `TrustStatus.RevokeDeviceApi` | proxy/src/agent_api.rs:353-381 | Registry first, then list: the whole new state of both and of their stores, which without Redis is the step of `RevokedForGood`; an unknown device leaves the list alone |
| `TrustStatus.WithdrawnListed` | proxy/src/agent_api.rs:353-381 | Revoking a device whose fingerprint is new to the list puts it there with its id, serial, time and reason |
| `TrustStatus.RevokedForGood` | proxy/src/agent_api.rs:353-381 | In every run of one process, after a device with a fingerprint is revoked, every query by that fingerprint, in any case and with any serial, is answered revoked for ever; and if the fingerprint was new to the list, every query by its serial too |
| `TrustStatus.RevokedEverywhere` | proxy/src/agent_ocsp.rs:66-168 | In every run of any number of nodes over one list, after one has revoked a fingerprint every node answers revoked, whatever its registry says |
| `TrustStatus.SerialRevokedEverywhere` | proxy/src/agent_ocsp.rs:66-168 | The same by serial, with any fingerprint, after a revocation that added its entry |
| `AclEngine.StableSortIs` | proxy/src/acl.rs:281-289 | The sort is by descending priority and moves no rule past another of its priority |
| `AclEngine.StableSortUnique` | proxy/src/acl.rs:281-289 | Such a sort has one result |
| `AclEngine.RunsSortArrivals` | proxy/src/acl.rs:281-324 | After every sequence of load, add, update and remove the rules are the stable sort of a list that was never sorted, where an added or raised rule goes last, a lowered one first and an unmoved one stays: so they are in descending priority with ties in exactly that order |
| `AclEngine.RunDecides` | proxy/src/acl.rs:343-394 | So after every run the decider is the live rule of highest priority that stands earliest in that list |
| `AclEngine.Engine.RebuildCache` | proxy/src/acl.rs:268-278 | The cache maps exactly the patterns of the current regex rules to their compiled form |
| `AclEngine.Engine.AddRule` | proxy/src/acl.rs:281-289 | The rules after, with order and cache kept valid |
| `AclEngine.Engine.UpdateRule` | proxy/src/acl.rs:292-304 | The first rule of that id is replaced and re-sorted, found exactly when there is one, with order and cache kept valid |
| `AclEngine.Engine.RemoveRule` | proxy/src/acl.rs:307-316 | Every rule of that id goes, found exactly when there is one, with order and cache kept valid |
| `AclEngine.Engine.LoadRules` | proxy/src/acl.rs:319-324 | The given rules, sorted, with the cache rebuilt |
| `AclEngine.Engine.CheckAccess` | proxy/src/acl.rs:343-394 | The answer is that of the enabled rule of highest priority that the request meets, earliest on ties, or of the default: action, id exactly when not allowed, redirect target exactly when redirected, and reason |
| `AclEngine.OutcomeIs` | proxy/src/acl.rs:361-393 | What an answer says for every deciding rule and default |
| `AclEngine.CacheMeans` | proxy/src/acl.rs:398-462 | With an exact cache a rule matches exactly the requests it means: URLs that begin with its prefix, its category, addresses of its family between its bounds, names its pattern covers, its user or a member entry that names its group, its compiled pattern |
| `AclEngine.SortedScanDecides` | proxy/src/acl.rs:343-394 | Scanning the sorted rules decides for the best live rule of the list as it was given, in any order |
| `AclEngine.AccessDecides` | proxy/src/acl.rs:343-428 | With an exact cache the scan with cached patterns and the definition without a cache agree on every request |
| `AclEngine.RemoveOtherDecides` | proxy/src/acl.rs:307-316 | Removing any rule but the deciding one changes no decision |
| `AclEngine.AddDecides` | proxy/src/acl.rs:281-289 | An added rule decides exactly when it is live and of higher priority than the decider; otherwise nothing changes |
| `AclEngine.UpdateDecides` | proxy/src/acl.rs:292-304 | An updated rule decides exactly when it is live and outranks the best of the others, a tie going to it when it was lowered, against it when it was raised, and by place when neither |
| `AclEngine.DisableIsRemove` | proxy/src/acl.rs:292-316 | With unique ids, an update that makes a rule dead decides every request like removing it |
| `AclEngine.WindowIsArc` | proxy/src/acl.rs:37-53 | A time window, wrapping or not, is the arc of the 1440-minute clock from start to end |
| `AclEngine.ClockParses` | proxy/src/acl.rs:25-34 | Every hour and minute is read as it is written, and nothing past 23:59 is a time |
| `AclEngine.WildcardIsSubdomain` | proxy/src/acl.rs:451-462 | A `*.` pattern is the subdomain test on labels if and only if the character before the matched suffix, if any, is a dot |
| `AclEngine.WildcardOverreach` | proxy/src/acl.rs:451-462 | A name that merely ends in the same letters is matched |
| `AclEngine.Handle.Mutate` | proxy/src/acl.rs:219-236 | The change is made on a fresh copy that is then published; the old snapshot is untouched |
| `AclEngine.Fork` | proxy/src/acl.rs:212-216 | A fork has the same rules in the same order, default and compiler, so it decides alike |
| `AclEngine.ActionRoundTrip` | proxy/src/acl_config.rs:7-21 | Every action survives being written and parsed, in any case, and any other text is allow |
| `AclEngine.LoadEngine` | proxy/src/acl_config.rs:32-51 | The loaded engine is valid, with the document's rules sorted and its default, or the fallback |
| `AclEngine.SaveThenLoad` | proxy/src/acl_config.rs:32-67 | Save followed by load gives back the same rules and default, whatever the fallback, so it decides alike |
| `AlertDedupe.DedupeCache.ShouldFire` | alert-worker/src/dedupe.rs:17-26 | The answer and the new map are `Answered`, the step of the run laws |
| `AlertDedupe.DedupeCache.Evict` | alert-worker/src/dedupe.rs:28-31 | Exactly the entries younger than the ttl stay |
| `AlertDedupe.EvictionIsInvisible` | alert-worker/src/dedupe.rs:17-31 | Over every run with a clock that does not go back, each answer is true exactly when the full unevicted history has no fire of that fingerprint less than ttl ago |
| `AlertDedupe.FiresApart` | alert-worker/src/dedupe.rs:17-31 | Two fires of one fingerprint are at least ttl apart |
| `Categorization.LongestSuffixWins` | proxy/src/categorization.rs:113-123 | A domain of two or more labels gets the entry of its longest listed suffix of at least two labels, and none exactly when none is listed |
| `Categorization.CheckLocalDb` | proxy/src/categorization.rs:441-449 | The loop finds the first listed suffix |
| `Categorization.Categorizer.CategorizeLocal` | proxy/src/categorization.rs:258-318 | The answer and the new cache of one lookup; an answer that is not cached is the right one for the lists, and it is cached exactly when an unexpired entry was there |
| `Categorization.RightExactly` | proxy/src/categorization.rs:258-318 | The answer is right exactly when its categories are those of the longest listed name, of the domain in the custom list, and Rkn when the enabled blocked set holds a suffix of two or more labels (or the one-label name), and its source is unknown, the one that spoke, or multiple |
| `Categorization.Categorizer.CleanupCache` | proxy/src/categorization.rs:620-624 | Exactly the unexpired entries stay |
| `Categorization.AnswersAreRecent` | proxy/src/categorization.rs:258-318 | In every run of lookups, cleanups and swaps of the blocked set, each answer is right for the set as it was at some moment at most the time to live earlier |
| `Categorization.AnswersStick` | proxy/src/categorization.rs:258-318 | An answer with categories is given again to every lookup within the time to live of the one that computed it; one without is not kept |
| `CacheFreshness.ParseCacheControl` | proxy/src/cache_freshness.rs:67-97 | The loop over directives computes `Parsed`, whose meaning `DirectivesMean` states |
| `CacheFreshness.DirectivesMean` | proxy/src/cache_freshness.rs:67-97 | A flag is set exactly when its directive is in the list, and an age is the last readable one of its name |
| `CacheFreshness.CombinedFields` | proxy/src/cache_freshness.rs:67-97 | For all strings, parsing two field values joined by a comma merges their parses: flags or-ed, the later age wins |
| `CacheFreshness.StoreMeans` | proxy/src/cache_freshness.rs:133-198 | What is stored, for how long, whether negative, whether to revalidate and with which validators, in terms of the method, the status and the directives as they were sent |
| `CacheFreshness.TokenForms` | proxy/src/cache_freshness.rs:69-78 | For all strings a directive is read as its trimmed name in lower case and, after the first equals sign, its trimmed argument |
| `CacheFreshness.AgeForm` | proxy/src/cache_freshness.rs:84-93 | An age is read back as it is written, up to the largest 64-bit number |
| `CacheFreshness.HeaderIs` | proxy/src/cache_freshness.rs:99-104 | A header is the first of its name, in any case |
| `CacheFreshness.PrecheckExact` | proxy/src/cache_freshness.rs:122-191 | A stored response had the identical decision from the precheck if and only if its declared length, if any, is within the body limit, hence whenever it does not exceed the real size |
| `CacheFreshness.CombiningNeverLoosens` | proxy/src/cache_freshness.rs:67-191 | A second Cache-Control value never makes a response storable |
| `CacheDigest.Digest.Insert` | proxy/src/cache_digest.rs:40-47 | A filter of exactly some keys becomes a filter of exactly those and the new one |
| `CacheDigest.Digest.MightContain` | proxy/src/cache_digest.rs:49-59 | True exactly when every bit of the key is a bit of some inserted key, so true of every inserted key |
| `CacheDigest.InsertedIsCovered` | proxy/src/cache_digest.rs:40-59 | There are no false negatives |
| `CacheDigest.MaskIs` | proxy/src/cache_digest.rs:43-44 | Bit i of the filter is bit i % 8, from the lowest, of byte i / 8 |
| `CacheDigest.FromBytes` | proxy/src/cache_digest.rs:65-75 | Refused exactly when the byte length does not fit the bit count |
| `CacheDigest.Exchanged` | proxy/src/cache_digest.rs:61-75 | A peer that receives the bytes answers every query as the sender would, for every positive bit count, divisible by 8 or not |

## Left out

- Redis, Kafka, ClickHouse, files, sockets, clocks and random tokens: they appear only as maps, logs, parameters and nondeterministic outcomes.
- JSON, SHA-256, regular expressions, IP address and URL parsing: parameters, with injectivity of the token hash assumed where a law needs it, and every pattern assumed to compile where the code panics otherwise.
- Device fields that no modelled decision reads (name, address, type, versions, subject, user, capabilities): they would only add record copying.
- DeviceRegistry.TokenLaw: is stated for runs of one node; `RegistryCluster.ClusterTokenLaw` is the law for several.
- DeviceRegistry.RevokedForever: is stated for runs of one node; `RegistryCluster.RevokedFlagLaw` is the law for several.
- RegistryCluster.RevokedFlagLaw: takes each operation as one step; commands of two nodes that interleave within one write are not modelled, and neither are failed ones.
- AgentCrl.CrlHandle.Revoke: the file the list may be persisted to is not modelled; failures and overlaps are in `CrlInterleaving`.
- AgentCrl.NumberingLaw: takes a revoke as one step; `CrlOrder` says what is left of it otherwise. The number is unbounded, without 64-bit wrap-around.
- CrlOrder.OrderlyNumbering: the condition on whole runs is sufficient; the exact one is stated for single steps, since a torn read on a node that is already ahead does no harm.
- DnsMessage.ResponseDecodes: says nothing in general of names that lead outside their question, where the outcome depends on what the response holds there; `DanglingEcho` shows one family that is lost.
- Sending a forwarded packet upstream, DNS over TLS and HTTPS, and reloading the zone file while serving.
- Kafka rebalances and more than one partition: each partition is its own log.
- AclEngine.Handle.Mutate: models the fork; the branch that changes an engine in place needs the caller to be its only owner, while the handle itself still holds it. Calls follow one another.
- Online categorization feeds and reputation scores.
- Admin and control APIs, certificate issuance, DER responses, LDAP and SSPI, cache bodies and compression, ML scoring, DLP, CASB, metrics and configuration loading: thin layers over libraries, or nothing to prove that is not read off one body.
