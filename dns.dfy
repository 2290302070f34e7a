/**
 * The part of a DNS message (trust_dns_proto's Message) that the proxy reads or
 * writes, as a value. Widths follow the wire format of RFC 1035: the transaction
 * ID is 16 bits and a record's TTL is an unsigned 32-bit count of seconds.
 */
module Dns {

  type u8 = x: int | 0 <= x < 0x100
  type u16 = x: int | 0 <= x < 0x1_0000
  type u32 = x: int | 0 <= x < 0x1_0000_0000

  type Bytes = seq<u8>

  /** A parsed domain name, label by label. */
  datatype Name = Name(labels: seq<string>)

  datatype Ipv4Addr = Ipv4Addr(a: u8, b: u8, c: u8, d: u8)

  datatype RecordType = A | PTR | OtherType(code: u16)

  /** Record data: the two kinds the proxy builds itself, and everything else as raw bytes. */
  datatype RData =
    | Address(ip: Ipv4Addr)
    | Pointer(target: Name)
    | Unknown(rtype: RecordType, data: Bytes)
  {
    function Type(): RecordType {
      match this
      case Address(_) => A
      case Pointer(_) => PTR
      case Unknown(t, _) => t
    }
  }

  datatype Record = Record(name: Name, ttl: u32, rdata: RData)

  /** An entry of the question section (trust_dns_proto's Query); the question class is not modelled. */
  datatype Question = Question(name: Name, queryType: RecordType)

  datatype MessageType = Query | Response

  /** RCODE values of section 4.1.1 of RFC 1035, with the rest kept by number. */
  datatype ResponseCode = NoError | FormErr | ServFail | NXDomain | NotImp | Refused | Unassigned(code: u16)

  datatype Message = Message(
    id: u16,
    messageType: MessageType,
    responseCode: ResponseCode,
    authoritative: bool,
    recursionDesired: bool,
    recursionAvailable: bool,
    queries: seq<Question>,
    answers: seq<Record>,
    nameServers: seq<Record>,
    additionals: seq<Record>)
  {
    /** The answer, name-server and additional sections, in that order. */
    function Records(): seq<Record> {
      answers + nameServers + additionals
    }
  }

  /** What Message::new() gives: ID 0, a query with code NoError, no flags, empty sections. */
  const NewMessage := Message(0, Query, NoError, false, false, false, [], [], [], [])
}
