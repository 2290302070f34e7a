/**
 * The local-domain table: synthetic authoritative answers built once from
 * configuration (forward entries give an A record, reverse entries a PTR
 * record), then looked up by request key.
 */
module LocalDomain {
  import opened Wrappers
  import opened Dns

  datatype ForwardDomainConfiguration = ForwardDomainConfiguration(name: string, ipAddress: string, ttlSeconds: u32)

  datatype ReverseDomainConfiguration = ReverseDomainConfiguration(reverseAddress: string, name: string, ttlSeconds: u32)

  /** Why the table could not be built; one case per error return of the source. */
  datatype ConfigError =
    | InvalidForwardName(name: string)
    | InvalidIpAddress(ipAddress: string)
    | InvalidForwardRequestKey
    | InvalidReverseAddress(reverseAddress: string)
    | InvalidReverseName(name: string)
    | InvalidReverseRequestKey

  /**
   * The parsers the table is built with: Name::from_str, the Ipv4Addr parser
   * and RequestKey::try_from, each of which may fail.
   */
  datatype Parsers<K> = Parsers(
    parseName: string -> Option<Name>,
    parseIpv4: string -> Option<Ipv4Addr>,
    requestKey: Message -> Option<K>)

  /** The shape of every message in the table: a response to its own single question. */
  predicate IsSyntheticAnswer(m: Message) {
    && m.id == 0
    && m.messageType == Response
    && m.responseCode == NoError
    && m.authoritative
    && !m.recursionDesired
    && !m.recursionAvailable
    && |m.queries| == 1
    && |m.answers| == 1
    && m.nameServers == []
    && m.additionals == []
    && m.answers[0].name == m.queries[0].name
    && m.answers[0].rdata.Type() == m.queries[0].queryType
  }

  /** Message::new() turned into an authoritative NoError response with one question and one answer. */
  function SyntheticAnswer(name: Name, ttl: u32, rdata: RData): (r: Message)
    ensures IsSyntheticAnswer(r)
    ensures r.queries[0] == Question(name, rdata.Type())
    ensures r.answers[0] == Record(name, ttl, rdata)
  {
    NewMessage.(
      messageType := Response,
      responseCode := NoError,
      authoritative := true,
      queries := [Question(name, rdata.Type())],
      answers := [Record(name, ttl, rdata)])
  }

  /** forward_domain_configuration_to_message: an A answer for the configured name. */
  function ForwardDomainConfigurationToMessage<K>(c: ForwardDomainConfiguration, p: Parsers<K>): (r: Result<Message, ConfigError>)
    ensures p.parseName(c.name).None? ==> r == Failure(InvalidForwardName(c.name))
    ensures p.parseName(c.name).Some? && p.parseIpv4(c.ipAddress).None? ==> r == Failure(InvalidIpAddress(c.ipAddress))
    ensures p.parseName(c.name).Some? && p.parseIpv4(c.ipAddress).Some? ==> r.Success?
    ensures r.Success? ==>
      && p.parseName(c.name).Some? && p.parseIpv4(c.ipAddress).Some?
      && IsSyntheticAnswer(r.value)
      && r.value.queries == [Question(p.parseName(c.name).value, A)]
      && r.value.answers == [Record(p.parseName(c.name).value, c.ttlSeconds, Address(p.parseIpv4(c.ipAddress).value))]
  {
    match p.parseName(c.name)
    case None => Failure(InvalidForwardName(c.name))
    case Some(name) =>
      match p.parseIpv4(c.ipAddress)
      case None => Failure(InvalidIpAddress(c.ipAddress))
      case Some(ip) => Success(SyntheticAnswer(name, c.ttlSeconds, Address(ip)))
  }

  /** reverse_domain_configuration_to_message: a PTR answer for the configured reverse address. */
  function ReverseDomainConfigurationToMessage<K>(c: ReverseDomainConfiguration, p: Parsers<K>): (r: Result<Message, ConfigError>)
    ensures p.parseName(c.reverseAddress).None? ==> r == Failure(InvalidReverseAddress(c.reverseAddress))
    ensures p.parseName(c.reverseAddress).Some? && p.parseName(c.name).None? ==> r == Failure(InvalidReverseName(c.name))
    ensures p.parseName(c.reverseAddress).Some? && p.parseName(c.name).Some? ==> r.Success?
    ensures r.Success? ==>
      && p.parseName(c.reverseAddress).Some? && p.parseName(c.name).Some?
      && IsSyntheticAnswer(r.value)
      && r.value.queries == [Question(p.parseName(c.reverseAddress).value, PTR)]
      && r.value.answers == [Record(p.parseName(c.reverseAddress).value, c.ttlSeconds, Pointer(p.parseName(c.name).value))]
  {
    match p.parseName(c.reverseAddress)
    case None => Failure(InvalidReverseAddress(c.reverseAddress))
    case Some(reverseAddress) =>
      match p.parseName(c.name)
      case None => Failure(InvalidReverseName(c.name))
      case Some(name) => Success(SyntheticAnswer(reverseAddress, c.ttlSeconds, Pointer(name)))
  }

  /** One forward configuration as a table entry: its message under the request key derived from it. */
  function ForwardEntry<K>(c: ForwardDomainConfiguration, p: Parsers<K>): Result<(K, Message), ConfigError> {
    match ForwardDomainConfigurationToMessage(c, p)
    case Failure(e) => Failure(e)
    case Success(m) =>
      match p.requestKey(m)
      case None => Failure(InvalidForwardRequestKey)
      case Some(k) => Success((k, m))
  }

  /** One reverse configuration as a table entry. */
  function ReverseEntry<K>(c: ReverseDomainConfiguration, p: Parsers<K>): Result<(K, Message), ConfigError> {
    match ReverseDomainConfigurationToMessage(c, p)
    case Failure(e) => Failure(e)
    case Success(m) =>
      match p.requestKey(m)
      case None => Failure(InvalidReverseRequestKey)
      case Some(k) => Success((k, m))
  }

  /**
   * The entries of a list of configurations, in list order; the first
   * configuration that cannot be turned into an entry gives the error.
   */
  function Entries<C, K>(cs: seq<C>, entry: C -> Result<(K, Message), ConfigError>): (r: Result<seq<(K, Message)>, ConfigError>)
    ensures r.Success? <==> forall i :: 0 <= i < |cs| ==> entry(cs[i]).Success?
    ensures r.Success? ==> |r.value| == |cs| && forall i :: 0 <= i < |cs| ==> entry(cs[i]) == Success(r.value[i])
    ensures r.Failure? ==> exists i :: 0 <= i < |cs| && entry(cs[i]) == Failure(r.error) &&
                                       forall j :: 0 <= j < i ==> entry(cs[j]).Success?
  {
    if cs == [] then Success([])
    else
      var init := cs[..|cs| - 1];
      assert forall i :: 0 <= i < |init| ==> init[i] == cs[i];
      match Entries(init, entry)
      case Failure(e) => Failure(e)
      case Success(es) =>
        match entry(cs[|cs| - 1])
        case Failure(e) => Failure(e)
        case Success(kv) => Success(es + [kv])
  }

  /** The map built by inserting the entries in order: a later entry replaces an earlier one with the same key. */
  function TableOf<K>(entries: seq<(K, Message)>): (t: map<K, Message>)
    ensures |t| <= |entries|
  {
    if entries == [] then map[]
    else
      var last := entries[|entries| - 1];
      TableOf(entries[..|entries| - 1])[last.0 := last.1]
  }

  /** A key is in the table exactly when some entry carries it. */
  lemma {:induction false} TableOfKeys<K>(entries: seq<(K, Message)>, k: K)
    ensures k in TableOf(entries) <==> exists i :: 0 <= i < |entries| && entries[i].0 == k
  {
    if entries != [] {
      var init := entries[..|entries| - 1];
      TableOfKeys(init, k);
      assert forall i :: 0 <= i < |init| ==> init[i] == entries[i];
      if k in TableOf(init) {
        var i :| 0 <= i < |init| && init[i].0 == k;
        assert entries[i].0 == k;
      }
    }
  }

  /** The table maps each key to the message of the last entry that carries it. */
  lemma {:induction false} TableOfLastWins<K>(entries: seq<(K, Message)>, i: nat)
    requires i < |entries|
    requires forall j :: i < j < |entries| ==> entries[j].0 != entries[i].0
    ensures entries[i].0 in TableOf(entries) && TableOf(entries)[entries[i].0] == entries[i].1
  {
    var init := entries[..|entries| - 1];
    if i < |entries| - 1 {
      assert forall j :: 0 <= j < |init| ==> init[j] == entries[j];
      TableOfLastWins(init, i);
    }
  }

  /** Every binding of the table is one of the entries. */
  lemma {:induction false} TableOfValues<K>(entries: seq<(K, Message)>, k: K)
    requires k in TableOf(entries)
    ensures exists i :: 0 <= i < |entries| && entries[i] == (k, TableOf(entries)[k])
  {
    var init := entries[..|entries| - 1];
    var last := entries[|entries| - 1];
    if k != last.0 {
      TableOfValues(init, k);
      var i :| 0 <= i < |init| && init[i] == (k, TableOf(init)[k]);
      assert entries[i] == init[i];
    }
  }

  /** The table, immutable once built. */
  datatype LocalDomainCache<K> = LocalDomainCache(cache: map<K, Message>)
  {
    /** get_response_message: a copy of the stored message, or None for an absent key. */
    function GetResponseMessage(key: K): (r: Option<Message>)
      ensures r.Some? <==> key in cache
      ensures r.Some? ==> r.value == cache[key]
    {
      if key in cache then Some(cache[key]) else None
    }
  }


  function ForwardEntries<K>(fs: seq<ForwardDomainConfiguration>, p: Parsers<K>): Result<seq<(K, Message)>, ConfigError> {
    Entries(fs, c => ForwardEntry(c, p))
  }

  function ReverseEntries<K>(rs: seq<ReverseDomainConfiguration>, p: Parsers<K>): Result<seq<(K, Message)>, ConfigError> {
    Entries(rs, c => ReverseEntry(c, p))
  }

  /**
   * All entries, forward configurations first and then reverse ones, each list
   * in order; construction stops at the first configuration that fails.
   */
  function LocalDomainEntries<K>(fs: seq<ForwardDomainConfiguration>, rs: seq<ReverseDomainConfiguration>, p: Parsers<K>)
    : (r: Result<seq<(K, Message)>, ConfigError>)
    ensures r.Success? <==>
      (forall i :: 0 <= i < |fs| ==> ForwardEntry(fs[i], p).Success?) &&
      (forall j :: 0 <= j < |rs| ==> ReverseEntry(rs[j], p).Success?)
    ensures r.Success? ==>
      && |r.value| == |fs| + |rs|
      && (forall i :: 0 <= i < |fs| ==> ForwardEntry(fs[i], p) == Success(r.value[i]))
      && (forall j :: 0 <= j < |rs| ==> ReverseEntry(rs[j], p) == Success(r.value[|fs| + j]))
    ensures r.Failure? ==>
      || (exists i :: 0 <= i < |fs| && ForwardEntry(fs[i], p) == Failure(r.error) &&
                      forall i' :: 0 <= i' < i ==> ForwardEntry(fs[i'], p).Success?)
      || ((forall i :: 0 <= i < |fs| ==> ForwardEntry(fs[i], p).Success?) &&
          exists j :: 0 <= j < |rs| && ReverseEntry(rs[j], p) == Failure(r.error) &&
                      forall j' :: 0 <= j' < j ==> ReverseEntry(rs[j'], p).Success?)
  {
    match ForwardEntries(fs, p)
    case Failure(e) => Failure(e)
    case Success(fe) =>
      match ReverseEntries(rs, p)
      case Failure(e) => Failure(e)
      case Success(re) => Success(fe + re)
  }

  /** The table LocalDomainCache::new builds: every entry inserted in order. */
  function BuildLocalDomainCache<K>(fs: seq<ForwardDomainConfiguration>, rs: seq<ReverseDomainConfiguration>, p: Parsers<K>)
    : Result<LocalDomainCache<K>, ConfigError>
  {
    match LocalDomainEntries(fs, rs, p)
    case Failure(e) => Failure(e)
    case Success(es) => Success(LocalDomainCache(TableOf(es)))
  }

  /** When every configuration before the i-th builds and the i-th fails, its error is the error of the whole list. */
  lemma EntriesStopAt<C, K>(cs: seq<C>, entry: C -> Result<(K, Message), ConfigError>, i: nat)
    requires i < |cs|
    requires forall j :: 0 <= j < i ==> entry(cs[j]).Success?
    requires entry(cs[i]).Failure?
    ensures Entries(cs, entry) == Failure(entry(cs[i]).error)
  {
    var j :| 0 <= j < |cs| && entry(cs[j]) == Failure(Entries(cs, entry).error) &&
             forall j' :: 0 <= j' < j ==> entry(cs[j']).Success?;
  }

  /** When every configuration builds, the entries are exactly theirs, in order. */
  lemma EntriesAllBuild<C, K>(cs: seq<C>, entry: C -> Result<(K, Message), ConfigError>, es: seq<(K, Message)>)
    requires |es| == |cs|
    requires forall i :: 0 <= i < |cs| ==> entry(cs[i]) == Success(es[i])
    ensures Entries(cs, entry) == Success(es)
  {
    var r := Entries(cs, entry);
    assert r.Success? && |r.value| == |es|;
    assert forall i :: 0 <= i < |cs| ==> r.value[i] == es[i];
    assert r.value == es;
  }

  /** The forward loop of LocalDomainCache::new: each configuration's message inserted under its key. */
  method InsertForwardEntries<K>(fs: seq<ForwardDomainConfiguration>, p: Parsers<K>, cache: map<K, Message>, ghost before: seq<(K, Message)>)
    returns (r: Result<map<K, Message>, ConfigError>)
    requires cache == TableOf(before)
    ensures ForwardEntries(fs, p).Failure? ==> r == Failure(ForwardEntries(fs, p).error)
    ensures ForwardEntries(fs, p).Success? ==> r == Success(TableOf(before + ForwardEntries(fs, p).value))
  {
    var table := cache;
    ghost var inserted: seq<(K, Message)> := [];
    assert before + inserted == before;
    for i := 0 to |fs|
      invariant |inserted| == i
      invariant forall j :: 0 <= j < i ==> ForwardEntry(fs[j], p) == Success(inserted[j])
      invariant table == TableOf(before + inserted)
    {
      var message: Message;
      match ForwardDomainConfigurationToMessage(fs[i], p) {
        case Failure(e) =>
          EntriesStopAt(fs, c => ForwardEntry(c, p), i);
          return Failure(e);
        case Success(m) => message := m;
      }
      var key: K;
      match p.requestKey(message) {
        case None =>
          EntriesStopAt(fs, c => ForwardEntry(c, p), i);
          return Failure(InvalidForwardRequestKey);
        case Some(k) => key := k;
      }
      assert (before + inserted) + [(key, message)] == before + (inserted + [(key, message)]);
      table := table[key := message];
      inserted := inserted + [(key, message)];
    }
    EntriesAllBuild(fs, c => ForwardEntry(c, p), inserted);
    r := Success(table);
  }

  /** The reverse loop of LocalDomainCache::new. */
  method InsertReverseEntries<K>(rs: seq<ReverseDomainConfiguration>, p: Parsers<K>, cache: map<K, Message>, ghost before: seq<(K, Message)>)
    returns (r: Result<map<K, Message>, ConfigError>)
    requires cache == TableOf(before)
    ensures ReverseEntries(rs, p).Failure? ==> r == Failure(ReverseEntries(rs, p).error)
    ensures ReverseEntries(rs, p).Success? ==> r == Success(TableOf(before + ReverseEntries(rs, p).value))
  {
    var table := cache;
    ghost var inserted: seq<(K, Message)> := [];
    assert before + inserted == before;
    for i := 0 to |rs|
      invariant |inserted| == i
      invariant forall j :: 0 <= j < i ==> ReverseEntry(rs[j], p) == Success(inserted[j])
      invariant table == TableOf(before + inserted)
    {
      var message: Message;
      match ReverseDomainConfigurationToMessage(rs[i], p) {
        case Failure(e) =>
          EntriesStopAt(rs, c => ReverseEntry(c, p), i);
          return Failure(e);
        case Success(m) => message := m;
      }
      var key: K;
      match p.requestKey(message) {
        case None =>
          EntriesStopAt(rs, c => ReverseEntry(c, p), i);
          return Failure(InvalidReverseRequestKey);
        case Some(k) => key := k;
      }
      assert (before + inserted) + [(key, message)] == before + (inserted + [(key, message)]);
      table := table[key := message];
      inserted := inserted + [(key, message)];
    }
    EntriesAllBuild(rs, c => ReverseEntry(c, p), inserted);
    r := Success(table);
  }

  /**
   * LocalDomainCache::new: inserts the forward entries, then the reverse entries,
   * into a map built up step by step, and gives up at the first configuration
   * whose name, address or request key cannot be derived.
   */
  method New<K>(fs: seq<ForwardDomainConfiguration>, rs: seq<ReverseDomainConfiguration>, p: Parsers<K>)
    returns (r: Result<LocalDomainCache<K>, ConfigError>)
    ensures r == BuildLocalDomainCache(fs, rs, p)
  {
    var forward := InsertForwardEntries(fs, p, map[], []);
    if forward.Failure? {
      return Failure(forward.error);
    }
    assert [] + ForwardEntries(fs, p).value == ForwardEntries(fs, p).value;
    var reverse := InsertReverseEntries(rs, p, forward.value, ForwardEntries(fs, p).value);
    if reverse.Failure? {
      return Failure(reverse.error);
    }
    r := Success(LocalDomainCache(reverse.value));
  }

  /** The entry built from a configuration carries key k. */
  predicate Produces<K(==)>(e: Result<(K, Message), ConfigError>, k: K) {
    e.Success? && e.value.0 == k
  }

  /** The n-th entry of the table's entry list, and the configuration it came from. */
  lemma EntryOrigin<K>(fs: seq<ForwardDomainConfiguration>, rs: seq<ReverseDomainConfiguration>, p: Parsers<K>, n: nat)
    requires LocalDomainEntries(fs, rs, p).Success?
    requires n < |fs| + |rs|
    ensures n < |fs| ==> ForwardEntry(fs[n], p) == Success(LocalDomainEntries(fs, rs, p).value[n])
    ensures |fs| <= n ==> ReverseEntry(rs[n - |fs|], p) == Success(LocalDomainEntries(fs, rs, p).value[n])
  {
    if |fs| <= n {
      var j := n - |fs|;
      assert |fs| + j == n;
    }
  }

  /** A message built from a configuration: an A answer from a forward one, a PTR answer from a reverse one. */
  lemma EntryMessages<K>(f: ForwardDomainConfiguration, r: ReverseDomainConfiguration, p: Parsers<K>)
    ensures ForwardEntry(f, p).Success? ==>
      IsSyntheticAnswer(ForwardEntry(f, p).value.1) && ForwardEntry(f, p).value.1.queries[0].queryType == A
    ensures ReverseEntry(r, p).Success? ==>
      IsSyntheticAnswer(ReverseEntry(r, p).value.1) && ReverseEntry(r, p).value.1.queries[0].queryType == PTR
  {
  }

  /** The table never holds more messages than there are configurations. */
  lemma BuiltTableSize<K>(fs: seq<ForwardDomainConfiguration>, rs: seq<ReverseDomainConfiguration>, p: Parsers<K>)
    requires BuildLocalDomainCache(fs, rs, p).Success?
    ensures |BuildLocalDomainCache(fs, rs, p).value.cache| <= |fs| + |rs|
  {
  }

  /**
   * Every message of the table is a synthetic authoritative answer: an A answer
   * when a forward configuration produced it, a PTR answer when a reverse one did.
   */
  lemma BuiltTableAnswers<K>(fs: seq<ForwardDomainConfiguration>, rs: seq<ReverseDomainConfiguration>, p: Parsers<K>, k: K)
    requires BuildLocalDomainCache(fs, rs, p).Success?
    requires k in BuildLocalDomainCache(fs, rs, p).value.cache
    ensures var m := BuildLocalDomainCache(fs, rs, p).value.cache[k];
      && IsSyntheticAnswer(m)
      && (m.queries[0].queryType == A || m.queries[0].queryType == PTR)
  {
    var es := LocalDomainEntries(fs, rs, p).value;
    TableOfValues(es, k);
    var i :| 0 <= i < |es| && es[i] == (k, TableOf(es)[k]);
    EntryOrigin(fs, rs, p, i);
    if i < |fs| {
      EntryMessages(fs[i], ReverseDomainConfiguration([], [], 0), p);
    } else {
      EntryMessages(ForwardDomainConfiguration([], [], 0), rs[i - |fs|], p);
    }
  }

  /** A key has a message exactly when some forward or reverse configuration produced that key. */
  lemma BuiltTableKeys<K>(fs: seq<ForwardDomainConfiguration>, rs: seq<ReverseDomainConfiguration>, p: Parsers<K>, k: K)
    requires BuildLocalDomainCache(fs, rs, p).Success?
    ensures BuildLocalDomainCache(fs, rs, p).value.GetResponseMessage(k).Some? <==>
      (exists i :: 0 <= i < |fs| && Produces(ForwardEntry(fs[i], p), k)) ||
      (exists j :: 0 <= j < |rs| && Produces(ReverseEntry(rs[j], p), k))
  {
    var es := LocalDomainEntries(fs, rs, p).value;
    TableOfKeys(es, k);
    if k in TableOf(es) {
      var i :| 0 <= i < |es| && es[i].0 == k;
      EntryOrigin(fs, rs, p, i);
      if |fs| <= i {
        assert Produces(ReverseEntry(rs[i - |fs|], p), k);
      }
    }
    if exists i :: 0 <= i < |fs| && Produces(ForwardEntry(fs[i], p), k) {
      var i :| 0 <= i < |fs| && Produces(ForwardEntry(fs[i], p), k);
      EntryOrigin(fs, rs, p, i);
    }
    if exists j :: 0 <= j < |rs| && Produces(ReverseEntry(rs[j], p), k) {
      var j :| 0 <= j < |rs| && Produces(ReverseEntry(rs[j], p), k);
      EntryOrigin(fs, rs, p, |fs| + j);
    }
  }

  /** A forward configuration whose key no later configuration produces is what the lookup returns. */
  lemma LastForwardWins<K>(fs: seq<ForwardDomainConfiguration>, rs: seq<ReverseDomainConfiguration>, p: Parsers<K>, i: nat, k: K)
    requires BuildLocalDomainCache(fs, rs, p).Success?
    requires i < |fs| && Produces(ForwardEntry(fs[i], p), k)
    requires forall i' :: i < i' < |fs| ==> !Produces(ForwardEntry(fs[i'], p), k)
    requires forall j :: 0 <= j < |rs| ==> !Produces(ReverseEntry(rs[j], p), k)
    ensures BuildLocalDomainCache(fs, rs, p).value.GetResponseMessage(k) == Some(ForwardEntry(fs[i], p).value.1)
  {
    var es := LocalDomainEntries(fs, rs, p).value;
    EntryOrigin(fs, rs, p, i);
    forall j | i < j < |es| ensures es[j].0 != es[i].0 {
      EntryOrigin(fs, rs, p, j);
    }
    TableOfLastWins(es, i);
  }

  /** A reverse configuration whose key no later reverse configuration produces is what the lookup returns. */
  lemma LastReverseWins<K>(fs: seq<ForwardDomainConfiguration>, rs: seq<ReverseDomainConfiguration>, p: Parsers<K>, j: nat, k: K)
    requires BuildLocalDomainCache(fs, rs, p).Success?
    requires j < |rs| && Produces(ReverseEntry(rs[j], p), k)
    requires forall j' :: j < j' < |rs| ==> !Produces(ReverseEntry(rs[j'], p), k)
    ensures BuildLocalDomainCache(fs, rs, p).value.GetResponseMessage(k) == Some(ReverseEntry(rs[j], p).value.1)
  {
    var es := LocalDomainEntries(fs, rs, p).value;
    var i := |fs| + j;
    EntryOrigin(fs, rs, p, i);
    assert es[i].0 == k;
    forall n | i < n < |es| ensures es[n].0 != k {
      EntryOrigin(fs, rs, p, n);
      var m := n - |fs|;
      assert j < m < |rs| && !Produces(ReverseEntry(rs[m], p), k);
    }
    TableOfLastWins(es, i);
  }
}
