/** Reading resource records: `extractRecords` (pkg/dns/dnssec.go) and `ParseResolvedIpv4s` (handler.go). */
module Records {
  import opened Bytes
  import opened Wire
  import opened WireFormat
  import opened Questions
  import opened Answers

  datatype ParsedRecord = ParsedRecord(
    name: bytes, rtype: uint16, rclass: uint16, ttl: uint32, rdLength: uint16, rdata: bytes, offset: nat)

  datatype RecordRead = RecordRead(record: Option<ParsedRecord>, next: nat)

  /** One record from `off`; when its data would pass the end there is none, and the cursor stays before it. */
  function ReadRecord(buf: bytes, off: nat): RecordRead {
    var (rtype, o1) := ReadU16(buf, ReadName(buf, off).next);
    var (rclass, o2) := ReadU16(buf, o1);
    var (ttl, o3) := ReadU32(buf, o2);
    var (rdlen, o4) := ReadU16(buf, o3);
    if o4 + rdlen > |buf| then RecordRead(None, o4)
    else
      RecordRead(
        Some(ParsedRecord(Lower(NameAt(buf, off)), rtype, rclass, ttl, rdlen, buf[o4..o4 + rdlen], o4)),
        o4 + rdlen)
  }

  datatype Section = Section(records: seq<ParsedRecord>, next: nat)

  function ReadSection(buf: bytes, off: nat, count: nat): Section
    decreases count
  {
    if count == 0 || off >= |buf| then Section([], off)
    else
      var r := ReadRecord(buf, off);
      if r.record.None? then Section([], r.next)
      else
        var rest := ReadSection(buf, r.next, count - 1);
        Section([r.record.value] + rest.records, rest.next)
  }

  /** The question section is skipped by reading each name and four octets more. */
  function SkipQuestions(buf: bytes, off: nat, count: nat): nat
    decreases count
  {
    if count == 0 then off else SkipQuestions(buf, ReadName(buf, off).next + 4, count - 1)
  }

  datatype Extracted = Extracted(
    qdcount: nat, answers: seq<ParsedRecord>, authorities: seq<ParsedRecord>, additionals: seq<ParsedRecord>)

  function RecordsOf(buf: bytes): Option<Extracted> {
    if |buf| < HEADER then None
    else
      var answers := ReadSection(buf, SkipQuestions(buf, HEADER, GetU16(buf, 4)), GetU16(buf, 6));
      var authorities := ReadSection(buf, answers.next, GetU16(buf, 8));
      var additionals := ReadSection(buf, authorities.next, GetU16(buf, 10));
      Some(Extracted(GetU16(buf, 4), answers.records, authorities.records, additionals.records))
  }

  method SkipQuestionNames(dw: DnsWireFormat, count: nat)
    modifies dw`Offset
    ensures dw.Offset == SkipQuestions(dw.Buf[..], old(dw.Offset), count)
  {
    hide ReadName, NameAt;
    ghost var buf := dw.Buf[..];
    for i := 0 to count
      invariant SkipQuestions(buf, dw.Offset, count - i) == SkipQuestions(buf, old(dw.Offset), count)
    {
      var _ := dw.ReadDomainName();
      dw.Offset := dw.Offset + 4;
    }
  }

  method ParseRecord(dw: DnsWireFormat) returns (r: Option<ParsedRecord>)
    modifies dw`Offset
    ensures RecordRead(r, dw.Offset) == ReadRecord(dw.Buf[..], old(dw.Offset))
  {
    hide ReadName, NameAt, Lower;
    var name := dw.ReadDomainName();
    var rtype := dw.ReadUint16();
    var rclass := dw.ReadUint16();
    var ttl := dw.ReadUint32();
    var rdlen := dw.ReadUint16();
    if dw.Offset + rdlen > dw.Buf.Length {
      return None;
    }
    var rdata := dw.Buf[dw.Offset..dw.Offset + rdlen];
    var recordOffset := dw.Offset;
    dw.Offset := dw.Offset + rdlen;
    assert rdata == dw.Buf[..][recordOffset..recordOffset + rdlen];
    return Some(ParsedRecord(Lower(name), rtype, rclass, ttl, rdlen, rdata, recordOffset));
  }

  method ParseSection(dw: DnsWireFormat, count: nat) returns (records: seq<ParsedRecord>)
    modifies dw`Offset
    ensures Section(records, dw.Offset) == ReadSection(dw.Buf[..], old(dw.Offset), count)
  {
    hide ReadRecord;
    ghost var buf := dw.Buf[..];
    ghost var whole := ReadSection(buf, dw.Offset, count);
    records := [];
    for i := 0 to count
      invariant whole.records == records + ReadSection(buf, dw.Offset, count - i).records
      invariant whole.next == ReadSection(buf, dw.Offset, count - i).next
    {
      Unit(records);
      if dw.Offset >= dw.Buf.Length {
        break;
      }
      var r := ParseRecord(dw);
      if r.None? {
        break;
      }
      Assoc(records, [r.value], ReadSection(buf, dw.Offset, count - i - 1).records);
      records := records + [r.value];
    }
    Unit(records);
  }

  method ExtractRecords(buffer: bytes) returns (r: Option<Extracted>)
    ensures r == RecordsOf(buffer)
  {
    hide ReadRecord, SkipQuestions, ReadSection;
    if |buffer| < HEADER {
      return None;
    }
    var dw := new DnsWireFormat.Over(buffer);
    dw.Offset := 4;
    var qdcount := dw.ReadUint16();
    var ancount := dw.ReadUint16();
    var nscount := dw.ReadUint16();
    var arcount := dw.ReadUint16();
    SkipQuestionNames(dw, qdcount);
    var answers := ParseSection(dw, ancount);
    var authorities := ParseSection(dw, nscount);
    var additionals := ParseSection(dw, arcount);
    return Some(Extracted(qdcount, answers, authorities, additionals));
  }

  datatype AddressRead = AddressRead(found: seq<bytes>, next: nat)

  /** One answer as the address log reads it: type and length only; at most one address comes of it. */
  function ReadAddress(buf: bytes, off: nat): AddressRead {
    var (rtype, o1) := ReadU16(buf, ReadName(buf, off).next);
    var (rdlen, o2) := ReadU16(buf, o1 + 6);
    AddressRead(
      if ((rtype == TYPE_A && rdlen == 4) || (rtype == TYPE_AAAA && rdlen == 16)) && o2 + rdlen <= |buf|
      then [buf[o2..o2 + rdlen]] else [],
      o2 + rdlen)
  }

  function AddressesFrom(buf: bytes, off: nat, count: nat): seq<bytes>
    decreases count
  {
    if count == 0 then []
    else ReadAddress(buf, off).found + AddressesFrom(buf, ReadAddress(buf, off).next, count - 1)
  }

  /** The octets of the A and AAAA addresses of a response. */
  function AddressesOf(resp: bytes): seq<bytes> {
    if |resp| < HEADER then []
    else AddressesFrom(resp, SkipQuestions(resp, HEADER, GetU16(resp, 4)), GetU16(resp, 6))
  }

  method ParseAddress(f: DnsWireFormat) returns (ips: seq<bytes>)
    modifies f`Offset
    ensures AddressRead(ips, f.Offset) == ReadAddress(f.Buf[..], old(f.Offset))
  {
    hide ReadName, NameAt, GetU16;
    ips := [];
    var _ := f.ReadDomainName();
    var qtype := f.ReadUint16();
    f.Offset := f.Offset + 6;
    var rdlen := f.ReadUint16();
    if qtype == TYPE_A && rdlen == 4 {
      if f.Offset + 4 <= f.Buf.Length {
        ips := [f.Buf[f.Offset..f.Offset + 4]];
      }
    } else if qtype == TYPE_AAAA && rdlen == 16 {
      if f.Offset + 16 <= f.Buf.Length {
        ips := [f.Buf[f.Offset..f.Offset + 16]];
      }
    }
    assert f.Offset + rdlen <= f.Buf.Length ==>
      f.Buf[f.Offset..f.Offset + rdlen] == f.Buf[..][f.Offset..f.Offset + rdlen];
    f.Offset := f.Offset + rdlen;
  }

  method ParseAddresses(f: DnsWireFormat, count: nat) returns (ips: seq<bytes>)
    modifies f`Offset
    ensures ips == AddressesFrom(f.Buf[..], old(f.Offset), count)
  {
    hide ReadAddress;
    ghost var buf := f.Buf[..];
    ips := [];
    for i := 0 to count
      invariant AddressesFrom(buf, old(f.Offset), count) == ips + AddressesFrom(buf, f.Offset, count - i)
    {
      ghost var start, before := f.Offset, ips;
      var found := ParseAddress(f);
      ips := ips + found;
      Assoc(before, found, AddressesFrom(buf, f.Offset, count - i - 1));
    }
    Unit(ips);
  }

  method ParseResolvedIps(resp: bytes) returns (ips: seq<bytes>)
    ensures ips == AddressesOf(resp)
  {
    hide SkipQuestions, AddressesFrom;
    if |resp| < HEADER {
      return [];
    }
    var f := new DnsWireFormat.Over(resp);
    f.Offset := 4;
    var qd := f.ReadUint16();
    var an := f.ReadUint16();
    f.Offset := f.Offset + 4;
    SkipQuestionNames(f, qd);
    ips := ParseAddresses(f, an);
  }

  /** A record that is cut off in its fixed part is still one: what is missing of the part reads as zero, and there is
      no data. */
  lemma CutRecord(buf: bytes, off: nat)
    requires off <= |buf| < ReadName(buf, off).next + 10
    ensures var end := ReadName(buf, off).next;
            ReadRecord(buf, off) == RecordRead(Some(ParsedRecord(
              Lower(NameAt(buf, off)),
              if end + 2 <= |buf| then GetU16(buf, end) else 0,
              if end + 4 <= |buf| then GetU16(buf, end + 2) else 0,
              if end + 8 <= |buf| then GetU32(buf, end + 4) else 0,
              0, [], |buf|)), |buf|)
  {
    hide DecodeName, Lower, GetU16, GetU32;
    assert buf[|buf|..|buf|] == [];
  }

  /** A record whose data would pass the end is none, and nothing is read after it. */
  lemma OverlongRecord(buf: bytes, off: nat, count: nat)
    requires off < |buf| && count > 0
    requires ReadName(buf, off).next + 10 <= |buf|
    requires ReadName(buf, off).next + 10 + GetU16(buf, ReadName(buf, off).next + 8) > |buf|
    ensures ReadSection(buf, off, count).records == []
  {
    hide DecodeName, Lower, GetU32;
  }
}
