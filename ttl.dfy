/**
 * TTL handling of the proxy: clamping a fresh upstream answer before it is
 * stored (clamp_and_get_min_ttl_seconds) and ageing a stored answer by the time
 * it spent in the cache (the record loop of get_message_for_cache_hit).
 */
module Ttl {
  import opened Dns

  function Min(a: int, b: int): int { if a <= b then a else b }

  function Max(a: int, b: int): int { if a <= b then b else a }

  /** The TTL a record gets when stored: raised to lo, then lowered to hi. */
  function ClampTtl(ttl: u32, lo: u32, hi: u32): (r: u32)
    ensures r <= hi
    ensures lo <= hi ==> lo <= r
    ensures lo <= ttl <= hi ==> r == ttl
    ensures ttl < lo <= hi ==> r == lo
    ensures hi < ttl ==> r == hi
    ensures hi < lo ==> r == hi
  {
    Min(Max(ttl, lo), hi)
  }

  function Ttls(rs: seq<Record>): (r: seq<u32>)
    ensures |r| == |rs|
    ensures forall i :: 0 <= i < |rs| ==> r[i] == rs[i].ttl
  {
    seq(|rs|, i requires 0 <= i < |rs| => rs[i].ttl)
  }

  lemma TtlsAppend(a: seq<Record>, b: seq<Record>)
    ensures Ttls(a + b) == Ttls(a) + Ttls(b)
  {
    assert forall i :: 0 <= i < |a + b| ==> Ttls(a + b)[i] == (Ttls(a) + Ttls(b))[i];
  }

  /** The least element of a non-empty sequence. */
  function SeqMin(s: seq<int>): (r: int)
    requires s != []
    ensures r in s
    ensures forall x :: x in s ==> r <= x
  {
    if |s| == 1 then s[0]
    else
      var init := s[..|s| - 1];
      assert s == init + [s[|s| - 1]];
      Min(SeqMin(init), s[|s| - 1])
  }

  /** The least element, or the default when there is none. */
  function MinOr(s: seq<int>, default: int): int {
    if s == [] then default else SeqMin(s)
  }

  /** Appending one value to a sequence updates its least element the way process_record does. */
  lemma MinOrAppend(s: seq<int>, t: int, default: int)
    ensures MinOr(s + [t], default) == if s == [] then t else Min(MinOr(s, default), t)
  {
    if s != [] {
      assert (s + [t])[..|s|] == s;
    }
  }

  /** The least TTL of all records of m, or default when m has no record. */
  function MinRecordTtl(m: Message, default: u32): (r: u32)
    ensures m.Records() == [] ==> r == default
    ensures m.Records() != [] ==> exists rec :: rec in m.Records() && rec.ttl == r
    ensures forall rec :: rec in m.Records() ==> r <= rec.ttl
  {
    var ttls := Ttls(m.Records());
    if ttls == [] then default
    else
      var r := SeqMin(ttls);
      assert forall rec :: rec in m.Records() ==> rec.ttl in ttls;
      var k :| 0 <= k < |ttls| && ttls[k] == r;
      assert m.Records()[k] in m.Records();
      r
  }

  /** One record with its TTL clamped. */
  function ClampRecord(rec: Record, lo: u32, hi: u32): Record {
    rec.(ttl := ClampTtl(rec.ttl, lo, hi))
  }

  /** Records with clamped TTLs: the same records, in the same order; only the TTLs change. */
  function ClampRecords(rs: seq<Record>, lo: u32, hi: u32): (r: seq<Record>)
    ensures |r| == |rs|
    ensures forall i :: 0 <= i < |rs| ==>
      r[i].name == rs[i].name && r[i].rdata == rs[i].rdata && r[i].ttl == ClampTtl(rs[i].ttl, lo, hi)
  {
    seq(|rs|, i requires 0 <= i < |rs| => ClampRecord(rs[i], lo, hi))
  }

  /** A sequence that clamps its original record by record is ClampRecords of it. */
  lemma ClampRecordsPointwise(rs: seq<Record>, clamped: seq<Record>, lo: u32, hi: u32)
    requires |clamped| == |rs|
    requires forall j :: 0 <= j < |rs| ==> clamped[j] == ClampRecord(rs[j], lo, hi)
    ensures clamped == ClampRecords(rs, lo, hi)
  {
  }

  lemma ClampRecordsAppend(a: seq<Record>, b: seq<Record>, lo: u32, hi: u32)
    ensures ClampRecords(a + b, lo, hi) == ClampRecords(a, lo, hi) + ClampRecords(b, lo, hi)
  {
    assert forall i :: 0 <= i < |a + b| ==>
      ClampRecords(a + b, lo, hi)[i] == (ClampRecords(a, lo, hi) + ClampRecords(b, lo, hi))[i];
  }

  /** The message as clamp_and_get_min_ttl_seconds leaves it. */
  function ClampMessage(m: Message, lo: u32, hi: u32): (r: Message)
    ensures r.Records() == ClampRecords(m.Records(), lo, hi)
    ensures r.(answers := m.answers, nameServers := m.nameServers, additionals := m.additionals) == m
    ensures |r.answers| == |m.answers| && |r.nameServers| == |m.nameServers| && |r.additionals| == |m.additionals|
  {
    ClampRecordsAppend(m.answers, m.nameServers, lo, hi);
    ClampRecordsAppend(m.answers + m.nameServers, m.additionals, lo, hi);
    m.(answers := ClampRecords(m.answers, lo, hi),
       nameServers := ClampRecords(m.nameServers, lo, hi),
       additionals := ClampRecords(m.additionals, lo, hi))
  }

  /** What clamp_and_get_min_ttl_seconds returns: the least clamped TTL, or lo when there is no record. */
  function MinClampedTtl(m: Message, lo: u32, hi: u32): u32 {
    MinRecordTtl(ClampMessage(m, lo, hi), lo)
  }

  /** Every record of a clamped message has its TTL within [lo, hi] (within hi alone when lo > hi). */
  lemma ClampedTtlsInRange(m: Message, lo: u32, hi: u32)
    ensures forall rec :: rec in ClampMessage(m, lo, hi).Records() ==>
      rec.ttl <= hi && (lo <= hi ==> lo <= rec.ttl)
  {
    var cm := ClampMessage(m, lo, hi);
    forall rec | rec in cm.Records() ensures rec.ttl <= hi && (lo <= hi ==> lo <= rec.ttl) {
      var i :| 0 <= i < |cm.Records()| && cm.Records()[i] == rec;
      assert rec.ttl == ClampTtl(m.Records()[i].ttl, lo, hi);
    }
  }

  /**
   * The two cases of the returned minimum: with records, the least of the
   * clamped TTLs, attained by one of them; with none, lo.
   */
  lemma MinClampedTtlCases(m: Message, lo: u32, hi: u32)
    ensures m.Records() == [] ==> MinClampedTtl(m, lo, hi) == lo
    ensures m.Records() != [] ==>
      (exists i :: 0 <= i < |m.Records()| && MinClampedTtl(m, lo, hi) == ClampTtl(m.Records()[i].ttl, lo, hi))
    ensures forall i :: 0 <= i < |m.Records()| ==> MinClampedTtl(m, lo, hi) <= ClampTtl(m.Records()[i].ttl, lo, hi)
  {
    var cm := ClampMessage(m, lo, hi);
    var r := MinClampedTtl(m, lo, hi);
    forall i | 0 <= i < |m.Records()| ensures r <= ClampTtl(m.Records()[i].ttl, lo, hi) {
      assert cm.Records()[i] in cm.Records();
    }
    if m.Records() != [] {
      var rec :| rec in cm.Records() && rec.ttl == r;
      var i :| 0 <= i < |cm.Records()| && cm.Records()[i] == rec;
      assert r == ClampTtl(m.Records()[i].ttl, lo, hi);
    }
  }

  /**
   * The process_record closure: clamps one record's TTL and folds it into the
   * (found, minimum) accumulator.
   */
  method ProcessRecord(record: Record, lo: u32, hi: u32, found: bool, minTtl: u32)
    returns (clamped: Record, found': bool, minTtl': u32)
    ensures clamped == ClampRecord(record, lo, hi)
    ensures found'
    ensures minTtl' == if found then Min(minTtl, clamped.ttl) else clamped.ttl
  {
    var ttl := Max(record.ttl, lo);
    ttl := Min(ttl, hi);
    found', minTtl' := found, minTtl;
    if !found' || ttl < minTtl' {
      minTtl' := ttl;
      found' := true;
    }
    clamped := record.(ttl := ttl);
  }

  /**
   * One section's loop: each record taken out, processed and put back, and the
   * accumulator carried on from the records seen before.
   */
  method ClampSection(records: seq<Record>, lo: u32, hi: u32, ghost seen: seq<int>, found: bool, minTtl: u32)
    returns (clamped: seq<Record>, found': bool, minTtl': u32)
    requires found == (seen != [])
    requires minTtl == MinOr(seen, lo)
    ensures clamped == ClampRecords(records, lo, hi)
    ensures found' == (seen + Ttls(clamped) != [])
    ensures minTtl' == MinOr(seen + Ttls(clamped), lo)
  {
    clamped, found', minTtl' := [], found, minTtl;
    assert seen + Ttls(clamped) == seen;
    var i := 0;
    while i < |records|
      invariant 0 <= i <= |records|
      invariant |clamped| == i
      invariant forall j :: 0 <= j < i ==> clamped[j] == ClampRecord(records[j], lo, hi)
      invariant found' == (seen != [] || i > 0)
      invariant minTtl' == MinOr(seen + Ttls(clamped), lo)
    {
      ghost var before := seen + Ttls(clamped);
      var record;
      record, found', minTtl' := ProcessRecord(records[i], lo, hi, found', minTtl');
      MinOrAppend(before, record.ttl, lo);
      TtlsAppend(clamped, [record]);
      clamped := clamped + [record];
      assert seen + Ttls(clamped) == before + [record.ttl];
      i := i + 1;
    }
    ClampRecordsPointwise(records, clamped, lo, hi);
  }

  /**
   * clamp_and_get_min_ttl_seconds: walks the answer, name-server and additional
   * sections in order, clamps every TTL into [lo, hi], and returns the clamped
   * message with the least clamped TTL (lo when there is no record).
   */
  method ClampAndGetMinTtl(m: Message, lo: u32, hi: u32) returns (clamped: Message, minTtl: u32)
    ensures clamped == ClampMessage(m, lo, hi)
    ensures minTtl == MinClampedTtl(m, lo, hi)
  {
    var found := false;
    minTtl := lo;
    var answers, nameServers, additionals;
    answers, found, minTtl := ClampSection(m.answers, lo, hi, [], found, minTtl);
    assert [] + Ttls(answers) == Ttls(answers);
    nameServers, found, minTtl := ClampSection(m.nameServers, lo, hi, Ttls(answers), found, minTtl);
    additionals, found, minTtl := ClampSection(m.additionals, lo, hi, Ttls(answers) + Ttls(nameServers), found, minTtl);
    clamped := m.(answers := answers, nameServers := nameServers, additionals := additionals);
    assert clamped == ClampMessage(m, lo, hi);
    TtlsAppend(answers, nameServers);
    TtlsAppend(answers + nameServers, additionals);
  }

  /** Every record's TTL is at least the elapsed seconds, so the hit can be aged without underflow. */
  predicate Ageable(rs: seq<Record>, elapsed: nat) {
    forall rec :: rec in rs ==> elapsed <= rec.ttl
  }

  /** Records aged by the elapsed seconds: same records, same order, each TTL lowered by exactly that much. */
  function AgeRecords(rs: seq<Record>, elapsed: nat): (r: seq<Record>)
    requires Ageable(rs, elapsed)
    ensures |r| == |rs|
    ensures forall i :: 0 <= i < |rs| ==>
      r[i].name == rs[i].name && r[i].rdata == rs[i].rdata && r[i].ttl == rs[i].ttl - elapsed
  {
    seq(|rs|, i requires 0 <= i < |rs| => assert rs[i] in rs; rs[i].(ttl := rs[i].ttl - elapsed))
  }

  lemma AgeRecordsAppend(a: seq<Record>, b: seq<Record>, elapsed: nat)
    requires Ageable(a + b, elapsed)
    ensures Ageable(a, elapsed) && Ageable(b, elapsed)
    ensures AgeRecords(a + b, elapsed) == AgeRecords(a, elapsed) + AgeRecords(b, elapsed)
  {
    assert forall i :: 0 <= i < |a + b| ==>
      AgeRecords(a + b, elapsed)[i] == (AgeRecords(a, elapsed) + AgeRecords(b, elapsed))[i];
  }

  /** The message of a cache hit after elapsed whole seconds in the cache. */
  function AgeMessage(m: Message, elapsed: nat): (r: Message)
    requires Ageable(m.Records(), elapsed)
    ensures r.Records() == AgeRecords(m.Records(), elapsed)
    ensures |r.answers| == |m.answers| && |r.nameServers| == |m.nameServers| && |r.additionals| == |m.additionals|
    ensures r.(answers := m.answers, nameServers := m.nameServers, additionals := m.additionals) == m
  {
    AgeRecordsAppend(m.answers + m.nameServers, m.additionals, elapsed);
    AgeRecordsAppend(m.answers, m.nameServers, elapsed);
    m.(answers := AgeRecords(m.answers, elapsed),
       nameServers := AgeRecords(m.nameServers, elapsed),
       additionals := AgeRecords(m.additionals, elapsed))
  }

  /**
   * One section's pass of adjust_record_ttl: a record whose TTL is at least the
   * elapsed seconds gets its TTL lowered by them; any other record is left as it
   * is and clears ok. The u32 overflow branch of the source cannot be taken.
   */
  method AgeSection(records: seq<Record>, elapsed: nat, ok: bool) returns (aged: seq<Record>, ok': bool)
    ensures ok' == (ok && Ageable(records, elapsed))
    ensures |aged| == |records|
    ensures forall i :: 0 <= i < |records| ==>
      aged[i] == if elapsed <= records[i].ttl then records[i].(ttl := records[i].ttl - elapsed) else records[i]
    ensures Ageable(records, elapsed) ==> aged == AgeRecords(records, elapsed)
  {
    aged, ok' := [], ok;
    var i := 0;
    while i < |records|
      invariant 0 <= i <= |records|
      invariant ok' == (ok && Ageable(records[..i], elapsed))
      invariant |aged| == i
      invariant forall j :: 0 <= j < i ==>
        aged[j] == if elapsed <= records[j].ttl then records[j].(ttl := records[j].ttl - elapsed) else records[j]
    {
      var record := records[i];
      var originalTtl := record.ttl;
      assert records[..i + 1] == records[..i] + [record];
      if elapsed > originalTtl {
        ok' := false;
        aged := aged + [record];
      } else {
        var newTtl := originalTtl - elapsed;
        if newTtl < 0x1_0000_0000 {
          aged := aged + [record.(ttl := newTtl)];
        } else {
          assert false;
        }
      }
      i := i + 1;
    }
    assert records[..i] == records;
  }
}
