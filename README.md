# DNS-over-HTTPS proxy: resolution policy and local-domain table

This project models the per-query resolution policy of the rust-dns
DNS-over-HTTPS proxy (`src/doh/proxy.rs`) and its static local-domain answer
table (`src/doh/localdomain.rs`), and proves properties of the model in Dafny.

The model has five modules:

- `Wrappers`: `Option` and `Result`.
- `Dns`: a DNS message as a value. It has the transaction ID (u16), message type,
  response code (the RCODE of section 4.1.1 of RFC 1035), the authoritative,
  recursion-desired and recursion-available flags, and the question list. It also
  has the answer, name-server and additional sections, each a sequence of records
  with a u32 TTL.
- `Ttl`: TTL clamping before an answer is stored (`clamp_and_get_min_ttl_seconds`)
  and TTL ageing on a cache hit (the record loop of `get_message_for_cache_hit`).
  Both are loops over the three sections, written as methods with loop invariants.
  Each method is proved equal to a specification function. The properties are
  lemmas about those functions.
- `LocalDomain`: turning forward and reverse configurations into synthetic
  authoritative A and PTR answers. `LocalDomainCache::new` has two insertion loops,
  and construction stops at the first configuration that fails. Lookup is a plain
  map read.
- `Proxy`: the failure response, the ID-zeroed upstream request, the
  cache/no-cache decision, the cache-hit method, and the dispatch order
  (local table, then cache, then upstream). It also covers the packet-level error
  branches.

The model does not see the collaborators' code, so they are parameters:

- the wire codec (`Message::emit` / `Message::read`);
- the DoH client's exchange;
- `Name::from_str`, the IPv4 parser and `RequestKey::try_from`;
- `get_cache_key`, `CacheKey::valid` and `Cache::get`.

A cache lookup reports three things: the entry, the entry's own expiry verdict,
and the whole seconds the entry has spent in the cache. Time is natural-number
seconds. A query's outcome lists the cache write it causes (`CacheWrite`) and the
branch it took (`Route`). The branch decides which metrics counter the source
increments.

Behaviour of the code, as modelled:

- Only NoError and NXDomain answers are cached. NXDomain caching is negative
  caching in the sense of RFC 2308. The entry's lifetime is the least clamped
  TTL, the same rule as for NoError answers. SERVFAIL is never cached.
- Each cache miss makes one upstream call. Any failure of encode, exchange,
  HTTP status or decode gives SERVFAIL.
- `proxy.rs` uses `LocalDomainCache::new` as if it cannot fail. Its definition in
  `localdomain.rs` returns a `Result`. The model builds the table with the
  fallible `New` and gives the proxy an already-built table.
- `proxy.rs` keys the local table with its `CacheKey`, but `localdomain.rs` keys
  it with `RequestKey`. The model uses one key type `K` for both.
- The clamp bounds come from a `proxy_configuration()` that `config.rs` does not
  define. They are fields of `DohProxy`.

## Model

| member | source | states |
|---|---|---|
| Ttl.ClampTtl | src/doh/proxy.rs:158-161 | the clamped TTL is at most clamp_max, at least clamp_min whenever clamp_min ≤ clamp_max, unchanged inside the range, clamp_min below it and clamp_max above it when clamp_min ≤ clamp_max, and clamp_max whenever clamp_min > clamp_max |
| Ttl.SeqMin | src/doh/proxy.rs:163-166 | the running minimum is one of the values seen and no larger than any of them |
| Ttl.MinOrAppend | src/doh/proxy.rs:163-166 | folding one more TTL into the (found, minimum) accumulator gives the minimum of the extended sequence |
| Ttl.MinRecordTtl | src/doh/proxy.rs:154-183 | the least TTL over all three sections is attained by a record and bounds every record; with no record it is the default |
| Ttl.ClampRecords | src/doh/proxy.rs:170-181 | clamping keeps each section's count, order, names and data; only TTLs change, each to its clamped value |
| Ttl.ClampMessage | src/doh/proxy.rs:170-181 | the clamped message's records are the clamped records of the original, across answer, name-server and additional sections; ID, header and questions are unchanged |
| Ttl.ClampedTtlsInRange | src/doh/proxy.rs:157-168 | every record of a clamped message has TTL ≤ clamp_max, and ≥ clamp_min when clamp_min ≤ clamp_max |
| Ttl.MinClampedTtlCases | src/doh/proxy.rs:154-183 | the returned minimum is clamp_min without records; otherwise it equals some record's clamped TTL and is ≤ every clamped TTL |
| Ttl.ProcessRecord | src/doh/proxy.rs:157-168 | the closure sets the record's TTL to its clamped value, marks a TTL as found, and lowers the minimum to that TTL when it is the first or smaller |
| Ttl.ClampSection | src/doh/proxy.rs:170-173 | one take-process-re-add loop yields the section's clamped records and carries the accumulator to the minimum over everything seen |
| Ttl.ClampAndGetMinTtl | src/doh/proxy.rs:144-184 | the message after the three loops is the clamped message, and the returned value is the minimum clamped TTL (clamp_min without records) |
| Ttl.AgeRecords | src/doh/proxy.rs:252-270 | ageing keeps count, order, names and data and lowers every TTL by exactly the elapsed seconds |
| Ttl.AgeMessage | src/doh/proxy.rs:273-286 | each section keeps its own record count, and the aged message's records are the aged records of the original in order, so every record stays in its section with its TTL lowered; everything else is unchanged |
| Ttl.AgeSection | src/doh/proxy.rs:252-278 | one section's loop lowers each TTL that covers the elapsed seconds, leaves the others untouched and clears ok exactly when some TTL is too small; the u32 overflow branch is unreachable |
| Proxy.GetMessageForCacheHit | src/doh/proxy.rs:235-295 | a hit yields a message exactly when the entry exists, is not expired and every TTL covers the elapsed seconds; that message has the request ID and every TTL lowered by the elapsed seconds |
| Proxy.BuildFailureResponseMessage | src/doh/proxy.rs:87-92 | the failure response is the request with message type Response and code ServFail, and nothing else changed |
| Proxy.UpstreamRequestMessage | src/doh/proxy.rs:105-106 | the upstream request is the client request with ID 0 and nothing else changed |
| Proxy.MakeDohRequest | src/doh/proxy.rs:104-142 | an upstream answer exists exactly when the ID-zeroed request encodes and its bytes get a successful HTTP exchange whose body decodes; the answer is that decoded body |
| Proxy.UpstreamIgnoresClientId | src/doh/proxy.rs:104-142 | requests that differ only in transaction ID send the same upstream request and get the same upstream answer |
| Proxy.ClampTtlAndCacheResponse | src/doh/proxy.rs:186-218 | a non-NoError/NXDomain answer is returned unchanged with no write; otherwise TTLs are clamped, and one entry (clamped message, now, minimum TTL) is written iff the minimum is non-zero and the key valid; the lifetime is positive, ≤ every stored TTL, ≤ clamp_max when there are records, clamp_min when there are none |
| Proxy.GetMessageForLocalDomain | src/doh/proxy.rs:220-233 | a local answer exists iff the key is in the table, and is the stored message with the request ID |
| Proxy.ProcessRequestMessage | src/doh/proxy.rs:297-339 | every response carries the request ID; the empty-question route is taken iff there is no question; empty-question and upstream-failure routes give the SERVFAIL copy and write nothing; only the upstream-answer route writes, under the request's key |
| Proxy.LocalDomainAnswersFirst | src/doh/proxy.rs:312-316 | a local-domain entry answers the request, whatever the cache and upstream hold, and nothing is written |
| Proxy.CacheAnswersBeforeUpstream | src/doh/proxy.rs:318-324 | without a local entry, a usable cache entry answers the request and nothing is written |
| Proxy.UpstreamDecidesOnMiss | src/doh/proxy.rs:326-338 | on a double miss, upstream failure gives SERVFAIL with no write; an upstream answer is clamped, possibly stored, and re-tagged with the request ID |
| Proxy.TransactionIdOnlyTagsResponse | src/doh/proxy.rs:297-339 | when the cache key ignores the ID, a request differing only in transaction ID takes the same route, causes the same cache write, and gets the same response under its own ID |
| Proxy.StoredAnswerServedAged | src/doh/proxy.rs:207-292 | an entry written for an upstream answer and read back unexpired within its lifetime is served: same records in order, TTL = clamped TTL − elapsed seconds, request ID |
| Proxy.ProcessRequestPacketBuffer | src/doh/proxy.rs:341-367 | an undecodable packet gets no reply and no write; an encodable response is sent; otherwise the encoded SERVFAIL response is sent; the cache write is that of the processed request |
| Proxy.ReplyCarriesRequestId | src/doh/proxy.rs:350-366 | with a codec that reads back what it writes, every reply decodes to a message with the request's ID |
| LocalDomain.SyntheticAnswer | src/doh/localdomain.rs:60-73 | the built message is an ID-0 authoritative NoError response without the recursion flags, with one question and one answer of the same name and a matching type |
| LocalDomain.ForwardDomainConfigurationToMessage | src/doh/localdomain.rs:52-76 | a bad name or a bad IP address gives its own error; otherwise one question (name, A) and one answer (name, ttl_seconds, A ip_address) |
| LocalDomain.ReverseDomainConfigurationToMessage | src/doh/localdomain.rs:78-103 | a bad reverse address or a bad name gives its own error; otherwise one question (reverse_address, PTR) and one answer (reverse_address, ttl_seconds, PTR name) |
| LocalDomain.Entries | src/doh/localdomain.rs:25-30 | a list builds iff every configuration builds, giving their entries in order; otherwise the error is that of the first failing configuration |
| LocalDomain.LocalDomainEntries | src/doh/localdomain.rs:25-37 | all forward entries come before all reverse entries, in list order; a failure is the first failing forward configuration, or the first failing reverse one when every forward one built |
| LocalDomain.TableOf | src/doh/localdomain.rs:29-36 | the table built by successive inserts has no more keys than entries |
| LocalDomain.TableOfKeys | src/doh/localdomain.rs:29-36 | a key is in the table iff some entry carries it |
| LocalDomain.TableOfLastWins | src/doh/localdomain.rs:29-36 | a key maps to the message of the last entry that carries it |
| LocalDomain.TableOfValues | src/doh/localdomain.rs:29-36 | every binding of the table is one of the inserted entries |
| LocalDomain.LocalDomainCache.GetResponseMessage | src/doh/localdomain.rs:44-49 | lookup returns the stored message for a present key and None for an absent one, leaving the table as it was |
| LocalDomain.EntriesStopAt | src/doh/localdomain.rs:26-28 | once every earlier configuration built, a failing one is the error of the whole construction |
| LocalDomain.EntriesAllBuild | src/doh/localdomain.rs:25-30 | when every configuration builds, the entries are exactly theirs, in order |
| LocalDomain.InsertForwardEntries | src/doh/localdomain.rs:25-30 | the forward loop fails with the first forward error, or extends the table by all forward entries in order |
| LocalDomain.InsertReverseEntries | src/doh/localdomain.rs:32-37 | the reverse loop fails with the first reverse error, or extends the table by all reverse entries in order |
| LocalDomain.New | src/doh/localdomain.rs:19-42 | construction returns exactly the table of all forward then reverse entries, or the first error |
| LocalDomain.EntryMessages | src/doh/localdomain.rs:52-103 | a forward entry's message is a synthetic A answer and a reverse entry's a synthetic PTR answer |
| LocalDomain.BuiltTableSize | src/doh/localdomain.rs:23-39 | the table holds at most as many messages as there are forward plus reverse configurations |
| LocalDomain.BuiltTableAnswers | src/doh/localdomain.rs:25-37 | every stored message is an authoritative NoError answer to its own single A or PTR question |
| LocalDomain.BuiltTableKeys | src/doh/localdomain.rs:25-37 | a key has a message iff some forward or reverse configuration produced it |
| LocalDomain.LastForwardWins | src/doh/localdomain.rs:25-37 | a forward entry whose key no later configuration produces is what lookup returns |
| LocalDomain.LastReverseWins | src/doh/localdomain.rs:32-37 | a reverse entry whose key no later reverse configuration produces is what lookup returns |

## Left out

- The cache store (`crate::doh::cache`) is not part of this model. This covers
  its LRU order, capacity, periodic purge, and the rules of `expired` and
  `duration_in_cache`. A lookup's expiry verdict and elapsed seconds are inputs,
  and a store is reported as a `CacheWrite` rather than applied.
- `get_cache_key`, `CacheKey::valid`, `RequestKey::try_from`, `Name::from_str`
  and the IPv4 parser are not part of this model. They are function parameters.
- The DNS wire codec (`Message::emit`, `Message::read`) is not part of this model.
  It is a pair of partial functions. `decode_dns_message_vec` and
  `decode_dns_message_slice` are the same decode.
- `build_failure_response_buffer` and `encode_dns_message` are folded into
  `ProcessRequestPacketBuffer` and `MakeDohRequest` as calls of the codec.
- `DOHClient` and the HTTPS exchange are not part of this model. The exchange is a
  function whose `None` stands for the client's error.
- Metrics are not counted. The `Route` of an outcome says which counter the source
  increments.
- Not modelled, because they are concurrency or I/O with no stated behaviour:
  - `DOHProxy::new`, `run` and `run_periodic_timer`;
  - the TCP and UDP servers;
  - `Arc` sharing, async scheduling and logging;
  - `src/main.rs` and `src/doh/config.rs`.
- Updating in place through `&mut Message` is modelled as methods that return the
  new message value. No aliasing is involved.
- Message fields the proxy never reads or writes are not modelled: opcode,
  truncation, EDNS, question class and record class.
- `duration_in_cache` returns a `Duration`; the proxy uses its whole seconds
  (`as_secs()`, a u64), which are an unbounded natural here. Only comparisons
  and subtraction are done on them.
