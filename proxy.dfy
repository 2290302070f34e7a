/**
 * The per-query resolution policy of the DNS-over-HTTPS proxy: the local-domain
 * table first, then the response cache, then the upstream DoH server; fresh
 * NoError and NXDomain answers are clamped and cached, every failure becomes
 * SERVFAIL, and every response carries the client's transaction ID.
 *
 * The cache store, the DoH client and the wire codec are not part of this
 * model; they appear as parameters (CacheView, Codec, the exchange function).
 */
module Proxy {
  import opened Wrappers
  import opened Dns
  import opened Ttl
  import opened LocalDomain

  /** A cache entry: the stored response, when it was stored, and its lifetime in seconds. */
  datatype CacheObject = CacheObject(message: Message, cachedAt: nat, lifetime: nat)

  /**
   * What the cache says about a key at the moment of the lookup: no entry, or
   * the entry with its own verdict on expiry and the whole seconds it has spent
   * in the cache (CacheObject::expired and duration_in_cache).
   */
  datatype CacheLookup = Miss | Found(entry: CacheObject, expired: bool, secondsInCache: nat)

  /** The cache write a query causes, if any. */
  datatype CacheWrite<K> = NoWrite | Put(key: K, entry: CacheObject)

  /** The cache as the proxy sees it: get_cache_key, CacheKey::valid and Cache::get. */
  datatype CacheView<!K> = CacheView(keyOf: Message -> K, valid: K -> bool, lookup: K -> CacheLookup)

  /** The DNS wire codec: Message::emit and Message::read, each of which may fail. */
  datatype Codec = Codec(encode: Message -> Option<Bytes>, decode: Bytes -> Option<Message>)

  /** What the DoH client gives back for a request body that reached it. */
  datatype DohResponse = HttpRequestError | HttpRequestSuccess(body: Bytes)

  /**
   * The proxy's configuration and collaborators. exchange is the DoH client's
   * request; None stands for the client's own error.
   */
  datatype DohProxy<!K> = DohProxy(
    clampMinTtl: u32,
    clampMaxTtl: u32,
    localDomainCache: LocalDomainCache<K>,
    cache: CacheView<K>,
    codec: Codec,
    exchange: Bytes -> Option<DohResponse>)

  /** Which branch of process_request_message produced the response. */
  datatype Route = EmptyQuestion | LocalDomainHit | CacheHit | UpstreamFailure | UpstreamAnswer

  datatype Outcome<K> = Outcome(response: Message, store: CacheWrite<K>, route: Route)

  /** The outcome of one request packet: the reply bytes (None: nothing is sent) and the cache write. */
  datatype PacketOutcome<K> = PacketOutcome(reply: Option<Bytes>, store: CacheWrite<K>)

  /** build_failure_response_message: the request turned into a SERVFAIL response. */
  function BuildFailureResponseMessage(request: Message): (r: Message)
    ensures r.messageType == Response && r.responseCode == ServFail
    ensures r.(messageType := request.messageType, responseCode := request.responseCode) == request
  {
    request.(messageType := Response, responseCode := ServFail)
  }

  /** The request as sent upstream: its ID zeroed, everything else kept. */
  function UpstreamRequestMessage(request: Message): (r: Message)
    ensures r.id == 0
    ensures r.(id := request.id) == request
  {
    request.(id := 0)
  }

  /**
   * make_doh_request: encode the upstream request, post it, and decode the body
   * of a successful HTTP exchange; any failure along the way gives None.
   */
  function MakeDohRequest(codec: Codec, exchange: Bytes -> Option<DohResponse>, request: Message): (r: Option<Message>)
    ensures r.Some? ==> codec.encode(UpstreamRequestMessage(request)).Some?
    ensures r.Some? ==>
      exists body ::
        && exchange(codec.encode(UpstreamRequestMessage(request)).value) == Some(HttpRequestSuccess(body))
        && codec.decode(body) == r
    ensures codec.encode(UpstreamRequestMessage(request)).Some? ==>
      forall body :: exchange(codec.encode(UpstreamRequestMessage(request)).value) == Some(HttpRequestSuccess(body)) ==>
        r == codec.decode(body)
  {
    match codec.encode(UpstreamRequestMessage(request))
    case None => None
    case Some(requestBuffer) =>
      match exchange(requestBuffer)
      case None => None
      case Some(HttpRequestError) => None
      case Some(HttpRequestSuccess(responseBuffer)) => codec.decode(responseBuffer)
  }

  /** Two requests that differ only in their transaction ID send the same bytes upstream and get the same answer. */
  lemma UpstreamIgnoresClientId(codec: Codec, exchange: Bytes -> Option<DohResponse>, request: Message, id: u16)
    ensures UpstreamRequestMessage(request.(id := id)) == UpstreamRequestMessage(request)
    ensures MakeDohRequest(codec, exchange, request.(id := id)) == MakeDohRequest(codec, exchange, request)
  {
  }

  /** Only NoError and NXDomain answers are clamped and cached; NXDomain is negative caching (RFC 2308). */
  predicate Cacheable(m: Message) {
    m.responseCode == NoError || m.responseCode == NXDomain
  }

  /**
   * clamp_ttl_and_cache_response: a cacheable answer gets its TTLs clamped and,
   * unless its least clamped TTL is 0 or the key is invalid, is stored for that
   * many seconds; any other answer passes through untouched.
   */
  function ClampTtlAndCacheResponse<K>(key: K, keyValid: bool, response: Message, lo: u32, hi: u32, now: nat)
    : (r: (Message, CacheWrite<K>))
    ensures !Cacheable(response) ==> r.0 == response && r.1 == NoWrite
    ensures Cacheable(response) ==> r.0 == ClampMessage(response, lo, hi)
    ensures r.1.Put? <==> Cacheable(response) && MinClampedTtl(response, lo, hi) != 0 && keyValid
    ensures r.1.Put? ==> r.1.key == key && r.1.entry.message == r.0 && r.1.entry.cachedAt == now
    ensures r.1.Put? ==> r.1.entry.lifetime == MinClampedTtl(response, lo, hi)
    ensures r.1.Put? ==> 0 < r.1.entry.lifetime
    ensures r.1.Put? && response.Records() != [] ==> r.1.entry.lifetime <= hi
    ensures r.1.Put? && response.Records() == [] ==> r.1.entry.lifetime == lo
    ensures r.1.Put? ==> forall rec :: rec in r.1.entry.message.Records() ==> r.1.entry.lifetime <= rec.ttl
  {
    if !Cacheable(response) then (response, NoWrite)
    else
      var clamped := ClampMessage(response, lo, hi);
      var minTtl := MinClampedTtl(response, lo, hi);
      if minTtl == 0 then (clamped, NoWrite)
      else if !keyValid then (clamped, NoWrite)
      else
        ClampedTtlsInRange(response, lo, hi);
        (clamped, Put(key, CacheObject(clamped, now, minTtl)))
  }

  /** get_message_for_local_domain: the table's message for the key, re-tagged with the request ID. */
  function GetMessageForLocalDomain<K>(table: LocalDomainCache<K>, key: K, requestId: u16): (r: Option<Message>)
    ensures r.Some? <==> key in table.cache
    ensures r.Some? ==> r.value == table.cache[key].(id := requestId)
  {
    match table.GetResponseMessage(key)
    case None => None
    case Some(m) => Some(m.(id := requestId))
  }

  /**
   * The answer of a cache hit, as get_message_for_cache_hit computes it: none for
   * a miss, an expired entry, or an entry with a record whose TTL is below the
   * seconds spent in the cache; otherwise the stored message aged by those
   * seconds and re-tagged with the request ID.
   */
  function CacheHitResponse(lookup: CacheLookup, requestId: u16): Option<Message> {
    match lookup
    case Miss => None
    case Found(entry, expired, elapsed) =>
      if expired then None
      else if !Ageable(entry.message.Records(), elapsed) then None
      else Some(AgeMessage(entry.message, elapsed).(id := requestId))
  }

  /**
   * get_message_for_cache_hit: ages every record of the entry's message in
   * place, section by section, and gives up when a TTL would go negative.
   */
  method GetMessageForCacheHit(lookup: CacheLookup, requestId: u16) returns (r: Option<Message>)
    ensures r == CacheHitResponse(lookup, requestId)
    ensures r.Some? <==>
      lookup.Found? && !lookup.expired &&
      forall rec :: rec in lookup.entry.message.Records() ==> lookup.secondsInCache <= rec.ttl
    ensures r.Some? ==>
      && r.value.id == requestId
      && |r.value.Records()| == |lookup.entry.message.Records()|
      && forall i :: 0 <= i < |r.value.Records()| ==>
           r.value.Records()[i].ttl == lookup.entry.message.Records()[i].ttl - lookup.secondsInCache &&
           r.value.Records()[i].name == lookup.entry.message.Records()[i].name &&
           r.value.Records()[i].rdata == lookup.entry.message.Records()[i].rdata
  {
    if lookup.Miss? {
      return None;
    }
    if lookup.expired {
      return None;
    }
    var elapsed := lookup.secondsInCache;
    var message := lookup.entry.message;
    var ok := true;
    var answers, nameServers, additionals;
    answers, ok := AgeSection(message.answers, elapsed, ok);
    nameServers, ok := AgeSection(message.nameServers, elapsed, ok);
    additionals, ok := AgeSection(message.additionals, elapsed, ok);
    if !ok {
      return None;
    }
    message := message.(answers := answers, nameServers := nameServers, additionals := additionals);
    message := message.(id := requestId);
    r := Some(message);
  }

  /**
   * process_request_message: an empty question list gives SERVFAIL; otherwise the
   * local-domain table, then the cache, then the upstream server are tried in
   * that order, and an upstream failure gives SERVFAIL.
   */
  function ProcessRequestMessage<K>(proxy: DohProxy<K>, request: Message, now: nat): (r: Outcome<K>)
    ensures r.response.id == request.id
    ensures r.route == EmptyQuestion <==> request.queries == []
    ensures r.route == EmptyQuestion || r.route == UpstreamFailure ==>
      r.response == BuildFailureResponseMessage(request) && r.store == NoWrite
    ensures r.store.Put? ==> r.route == UpstreamAnswer && r.store.key == proxy.cache.keyOf(request)
  {
    if request.queries == [] then
      Outcome(BuildFailureResponseMessage(request), NoWrite, EmptyQuestion)
    else
      var key := proxy.cache.keyOf(request);
      match GetMessageForLocalDomain(proxy.localDomainCache, key, request.id)
      case Some(m) => Outcome(m, NoWrite, LocalDomainHit)
      case None =>
        match CacheHitResponse(proxy.cache.lookup(key), request.id)
        case Some(m) => Outcome(m, NoWrite, CacheHit)
        case None =>
          match MakeDohRequest(proxy.codec, proxy.exchange, request)
          case None => Outcome(BuildFailureResponseMessage(request), NoWrite, UpstreamFailure)
          case Some(upstream) =>
            var (m, write) := ClampTtlAndCacheResponse(
              key, proxy.cache.valid(key), upstream, proxy.clampMinTtl, proxy.clampMaxTtl, now);
            Outcome(m.(id := request.id), write, UpstreamAnswer)
  }

  /**
   * process_request_packet_buffer: an undecodable packet gets no reply; a
   * response that cannot be encoded is replaced by the encoded SERVFAIL
   * response (itself None when that cannot be encoded either).
   */
  function ProcessRequestPacketBuffer<K>(proxy: DohProxy<K>, buffer: Bytes, now: nat): (r: PacketOutcome<K>)
    ensures proxy.codec.decode(buffer).None? ==> r == PacketOutcome(None, NoWrite)
    ensures proxy.codec.decode(buffer).Some? ==>
      var request := proxy.codec.decode(buffer).value;
      var outcome := ProcessRequestMessage(proxy, request, now);
      && r.store == outcome.store
      && (proxy.codec.encode(outcome.response).Some? ==> r.reply == proxy.codec.encode(outcome.response))
      && (proxy.codec.encode(outcome.response).None? ==>
            r.reply == proxy.codec.encode(BuildFailureResponseMessage(request)))
  {
    match proxy.codec.decode(buffer)
    case None => PacketOutcome(None, NoWrite)
    case Some(request) =>
      var outcome := ProcessRequestMessage(proxy, request, now);
      match proxy.codec.encode(outcome.response)
      case Some(responseBuffer) => PacketOutcome(Some(responseBuffer), outcome.store)
      case None => PacketOutcome(proxy.codec.encode(BuildFailureResponseMessage(request)), outcome.store)
  }

  /** A local-domain entry answers the request whatever the cache and the upstream would say. */
  lemma LocalDomainAnswersFirst<K>(proxy: DohProxy<K>, request: Message, now: nat)
    requires request.queries != []
    requires proxy.cache.keyOf(request) in proxy.localDomainCache.cache
    ensures var r := ProcessRequestMessage(proxy, request, now);
      && r.route == LocalDomainHit
      && r.response == proxy.localDomainCache.cache[proxy.cache.keyOf(request)].(id := request.id)
      && r.store == NoWrite
  {
  }

  /** Without a local-domain entry, a usable cache entry answers the request and the upstream is not asked. */
  lemma CacheAnswersBeforeUpstream<K>(proxy: DohProxy<K>, request: Message, now: nat)
    requires request.queries != []
    requires proxy.cache.keyOf(request) !in proxy.localDomainCache.cache
    requires CacheHitResponse(proxy.cache.lookup(proxy.cache.keyOf(request)), request.id).Some?
    ensures var r := ProcessRequestMessage(proxy, request, now);
      && r.route == CacheHit
      && r.response == CacheHitResponse(proxy.cache.lookup(proxy.cache.keyOf(request)), request.id).value
      && r.store == NoWrite
  {
  }

  /**
   * On a local-domain and cache miss the upstream decides: its failure gives the
   * SERVFAIL copy of the request, its answer is clamped, possibly stored, and
   * re-tagged with the request ID.
   */
  lemma UpstreamDecidesOnMiss<K>(proxy: DohProxy<K>, request: Message, now: nat)
    requires request.queries != []
    requires proxy.cache.keyOf(request) !in proxy.localDomainCache.cache
    requires CacheHitResponse(proxy.cache.lookup(proxy.cache.keyOf(request)), request.id).None?
    ensures var r := ProcessRequestMessage(proxy, request, now);
      var key := proxy.cache.keyOf(request);
      var upstream := MakeDohRequest(proxy.codec, proxy.exchange, request);
      && (upstream.None? ==> r.route == UpstreamFailure && r.response.responseCode == ServFail && r.store == NoWrite)
      && (upstream.Some? ==>
            var (m, write) := ClampTtlAndCacheResponse(
              key, proxy.cache.valid(key), upstream.value, proxy.clampMinTtl, proxy.clampMaxTtl, now);
            r.route == UpstreamAnswer && r.response == m.(id := request.id) && r.store == write)
  {
  }

  /**
   * The transaction ID only tags the response: a request that differs only in
   * its ID takes the same route, causes the same cache write, and gets the same
   * response under its own ID (given that the cache key ignores the ID).
   */
  lemma TransactionIdOnlyTagsResponse<K>(proxy: DohProxy<K>, request: Message, id: u16, now: nat)
    requires proxy.cache.keyOf(request.(id := id)) == proxy.cache.keyOf(request)
    ensures var r := ProcessRequestMessage(proxy, request, now);
      ProcessRequestMessage(proxy, request.(id := id), now) == Outcome(r.response.(id := id), r.store, r.route)
  {
    var other := request.(id := id);
    UpstreamIgnoresClientId(proxy.codec, proxy.exchange, request, id);
    if request.queries != [] {
      var key := proxy.cache.keyOf(request);
      var lookup := proxy.cache.lookup(key);
      if lookup.Found? && !lookup.expired && Ageable(lookup.entry.message.Records(), lookup.secondsInCache) {
        assert CacheHitResponse(lookup, id) == Some(CacheHitResponse(lookup, request.id).value.(id := id));
      }
    }
  }

  /**
   * What is stored is served back aged: an entry written for an upstream answer,
   * looked up before it expires after at most its lifetime in seconds, gives
   * every record of the answer, in order, with its clamped TTL lowered by the
   * elapsed seconds, under the new request's ID.
   */
  lemma {:induction false} StoredAnswerServedAged<K>(key: K, response: Message, lo: u32, hi: u32, now: nat, elapsed: nat, requestId: u16)
    requires ClampTtlAndCacheResponse(key, true, response, lo, hi, now).1.Put?
    requires elapsed <= ClampTtlAndCacheResponse(key, true, response, lo, hi, now).1.entry.lifetime
    ensures var entry := ClampTtlAndCacheResponse(key, true, response, lo, hi, now).1.entry;
      var hit := CacheHitResponse(Found(entry, false, elapsed), requestId);
      && hit.Some?
      && hit.value.id == requestId
      && hit.value.responseCode == response.responseCode
      && hit.value.queries == response.queries
      && |hit.value.Records()| == |response.Records()|
      && forall i :: 0 <= i < |response.Records()| ==>
           && hit.value.Records()[i].name == response.Records()[i].name
           && hit.value.Records()[i].rdata == response.Records()[i].rdata
           && hit.value.Records()[i].ttl == ClampTtl(response.Records()[i].ttl, lo, hi) - elapsed
  {
    var entry := ClampTtlAndCacheResponse(key, true, response, lo, hi, now).1.entry;
    var stored := entry.message;
    assert stored == ClampMessage(response, lo, hi);
    assert Ageable(stored.Records(), elapsed);
    var aged := AgeMessage(stored, elapsed);
    assert aged.Records() == AgeRecords(ClampRecords(response.Records(), lo, hi), elapsed);
  }

  /**
   * With a codec that reads back what it writes, every reply sent for a
   * decodable request decodes to a message carrying the request's ID.
   */
  lemma ReplyCarriesRequestId<K>(proxy: DohProxy<K>, buffer: Bytes, now: nat)
    requires forall m :: proxy.codec.encode(m).Some? ==> proxy.codec.decode(proxy.codec.encode(m).value) == Some(m)
    requires proxy.codec.decode(buffer).Some?
    ensures var reply := ProcessRequestPacketBuffer(proxy, buffer, now).reply;
      reply.Some? ==>
        proxy.codec.decode(reply.value).Some? && proxy.codec.decode(reply.value).value.id == proxy.codec.decode(buffer).value.id
  {
    var request := proxy.codec.decode(buffer).value;
    var outcome := ProcessRequestMessage(proxy, request, now);
    if proxy.codec.encode(outcome.response).None? {
      var failure := BuildFailureResponseMessage(request);
      assert failure.id == request.id;
    }
  }
}
