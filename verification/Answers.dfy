/** Record data and answer entries: the `Encode*` functions and `buildSingleAnswer`. */
module Answers {
  import opened Bytes
  import opened Names
  import opened Wire
  import opened WireFormat
  import opened Config

  const TYPE_A: uint16 := 1
  const TYPE_AAAA: uint16 := 28
  const CONFIGURED_TTL: uint32 := 300

  function UpperChar(c: char): char {
    if 'a' <= c <= 'z' then (c as int - 32) as char else c
  }

  function ToUpper(s: string): (r: string)
    ensures |r| == |s| && forall i :: 0 <= i < |s| ==> r[i] == UpperChar(s[i])
  {
    seq(|s|, i requires 0 <= i < |s| => UpperChar(s[i]))
  }

  function TypeNumber(rtype: string): uint16 {
    match ToUpper(rtype)
    case "A" => 1
    case "AAAA" => 28
    case "CNAME" => 5
    case "TXT" => 16
    case "MX" => 15
    case "NS" => 2
    case "SRV" => 33
    case "PTR" => 12
    case _ => 0
  }

  /** `uint16(*p)` of an optional field, 0 when absent. */
  function Word(v: Option<int>): uint16 {
    match v case None => 0 case Some(n) => n % 0x1_0000
  }

  function Chunk(txt: bytes): bytes {
    if |txt| > 255 then [255] + txt[..255] else [|txt|] + txt
  }

  function TxtBytes(data: seq<bytes>): bytes {
    if data == [] then [] else Chunk(data[0]) + TxtBytes(data[1..])
  }

  function MappedV4(four: Octets4): (r: bytes)
    ensures |r| == 16
  {
    [0, 0, 0, 0, 0, 0, 0, 0, 0, 0, 0xff, 0xff] + four
  }

  /** The record data; a record type spelt in any other way than the listed one has none. */
  function Rdata(r: DnsRecord): bytes {
    match r.rtype
    case "A" => (match r.address case V4(four) => four case _ => [])
    case "AAAA" =>
      (match r.address case V4(four) => MappedV4(four) case V6(sixteen) => sixteen case NotAnIp => [])
    case "CNAME" => NameBytes(Labels(r.target))
    case "TXT" => TxtBytes(r.data)
    case "MX" => U16(Word(r.priority)) + NameBytes(Labels(r.exchange))
    case "NS" => NameBytes(Labels(r.target))
    case "SRV" => U16(Word(r.priority)) + U16(Word(r.weight)) + U16(Word(r.port)) + NameBytes(Labels(r.target))
    case "PTR" => NameBytes(Labels(r.target))
    case _ => []
  }

  function Entry(rtype: uint16, ttl: uint32, rdata: bytes): (r: bytes)
    ensures |r| == 10 + |rdata|
  {
    U16(rtype) + U16(1) + U32(ttl) + U16(|rdata| % 0x1_0000) + rdata
  }

  /** An answer entry without its owner name; the program always passes a TTL of 300 seconds. */
  function SingleAnswer(r: DnsRecord, ttl: uint32): bytes {
    Entry(TypeNumber(r.rtype), ttl, Rdata(r))
  }

  lemma NoTxt()
    ensures TxtBytes([]) == []
  {
  }

  lemma ChunkShape(txt: bytes)
    ensures var len := if |txt| > 255 then 255 else |txt|; Chunk(txt) == [len] + txt[..len]
  {
  }

  lemma TxtStep(data: seq<bytes>, i: nat, before: bytes)
    requires i < |data|
    ensures var len := if |data[i]| > 255 then 255 else |data[i]|;
            before + TxtBytes(data[i..]) == before + [len] + data[i][..len] + TxtBytes(data[i + 1..])
  {
    hide Chunk;
    Tail(data, i);
    ChunkShape(data[i]);
    Assoc(before, Chunk(data[i]), TxtBytes(data[i + 1..]));
    var len := if |data[i]| > 255 then 255 else |data[i]|;
    Assoc(before, [len], data[i][..len]);
  }

  method EncodeTXT(data: seq<bytes>) returns (rdata: bytes)
    ensures rdata == TxtBytes(data)
  {
    hide TxtBytes;
    NoTxt();
    assert data[0..] == data && data[|data|..] == [];
    var encoder := new DnsWireFormat();
    for i := 0 to |data|
      invariant encoder.Offset <= encoder.Buf.Length && fresh(encoder.Buf)
      invariant encoder.Written() + TxtBytes(data[i..]) == TxtBytes(data)
    {
      var chunk := data[i];
      var chunkLen := |chunk|;
      if chunkLen > 255 {
        chunkLen := 255;
        chunk := chunk[..255];
      }
      assert chunk == data[i][..chunkLen];
      ghost var before := encoder.Written();
      TxtStep(data, i, before);
      encoder.WriteUint8(chunkLen);
      encoder.WriteBytes(chunk);
    }
    rdata := encoder.Finish();
  }

  method EncodeName(target: bytes) returns (rdata: bytes)
    ensures rdata == NameBytes(Labels(target))
  {
    var encoder := new DnsWireFormat();
    encoder.WriteDomainName(target);
    rdata := encoder.Finish();
  }

  method EncodeMX(priority: uint16, exchange: bytes) returns (rdata: bytes)
    ensures rdata == U16(priority) + NameBytes(Labels(exchange))
  {
    hide U16, NameBytes, Labels;
    var encoder := new DnsWireFormat();
    encoder.WriteUint16(priority);
    encoder.WriteDomainName(exchange);
    rdata := encoder.Finish();
  }

  method EncodeSRV(priority: uint16, weight: uint16, port: uint16, target: bytes) returns (rdata: bytes)
    ensures rdata == U16(priority) + U16(weight) + U16(port) + NameBytes(Labels(target))
  {
    hide U16, NameBytes, Labels;
    var encoder := new DnsWireFormat();
    encoder.WriteUint16(priority);
    encoder.WriteUint16(weight);
    encoder.WriteUint16(port);
    encoder.WriteDomainName(target);
    rdata := encoder.Finish();
  }

  method BuildSingleAnswer(r: DnsRecord) returns (entry: bytes)
    ensures entry == SingleAnswer(r, CONFIGURED_TTL)
  {
    hide U16, U32, NameBytes, Labels, TxtBytes, Word;
    var rdata: bytes := [];
    match r.rtype {
      case "A" => if r.address.V4? { rdata := r.address.four; }
      case "AAAA" =>
        if r.address.V4? { rdata := MappedV4(r.address.four); }
        else if r.address.V6? { rdata := r.address.sixteen; }
      case "CNAME" => rdata := EncodeName(r.target);
      case "TXT" => rdata := EncodeTXT(r.data);
      case "MX" => rdata := EncodeMX(Word(r.priority), r.exchange);
      case "NS" => rdata := EncodeName(r.target);
      case "SRV" => rdata := EncodeSRV(Word(r.priority), Word(r.weight), Word(r.port), r.target);
      case "PTR" => rdata := EncodeName(r.target);
      case _ =>
    }
    entry := U16(TypeNumber(r.rtype)) + U16(1) + U32(CONFIGURED_TTL) + U16(|rdata| % 0x1_0000) + rdata;
  }

  /** The records of one host configuration that have the queried type, in configuration order. */
  function Matching(records: seq<DnsRecord>, qtype: uint16): seq<DnsRecord> {
    if records == [] then []
    else (if TypeNumber(records[0].rtype) == qtype then [records[0]] else []) + Matching(records[1..], qtype)
  }

  function Entries(rs: seq<DnsRecord>, ttl: uint32): seq<bytes> {
    if rs == [] then [] else [SingleAnswer(rs[0], ttl)] + Entries(rs[1..], ttl)
  }

  lemma NoEntries(ttl: uint32)
    ensures Entries([], ttl) == []
  {
  }

  lemma EntriesCons(rs: seq<DnsRecord>, ttl: uint32)
    requires rs != []
    ensures Entries(rs, ttl) == [SingleAnswer(rs[0], ttl)] + Entries(rs[1..], ttl)
  {
  }

  lemma {:induction false} EntriesLong(rs: seq<DnsRecord>, ttl: uint32)
    ensures |Entries(rs, ttl)| == |rs|
    ensures forall i :: 0 <= i < |rs| ==> |Entries(rs, ttl)[i]| >= 10
  {
    if rs != [] {
      EntriesLong(rs[1..], ttl);
    }
  }

  lemma {:induction false} EntriesConcat(a: seq<DnsRecord>, b: seq<DnsRecord>, ttl: uint32)
    ensures Entries(a + b, ttl) == Entries(a, ttl) + Entries(b, ttl)
  {
    hide Entries, SingleAnswer;
    if a == [] {
      NoEntries(ttl);
      Unit(b);
      Unit(Entries(b, ttl));
    } else {
      EntriesCons(a, ttl);
      ConsTail(a, b);
      EntriesCons(a + b, ttl);
      EntriesConcat(a[1..], b, ttl);
      Assoc([SingleAnswer(a[0], ttl)], Entries(a[1..], ttl), Entries(b, ttl));
    }
  }

  /** As many records as a 16-bit count can announce, and the others. */
  function Told(rs: seq<DnsRecord>): seq<DnsRecord> {
    rs[..|rs| % 0x1_0000]
  }

  function Untold(rs: seq<DnsRecord>): seq<DnsRecord> {
    rs[|rs| % 0x1_0000..]
  }

  /** `buildAnswers` */
  function AnswersFor(records: seq<DnsRecord>, qtype: uint16, ttl: uint32): seq<bytes> {
    Entries(Matching(records, qtype), ttl)
  }

  lemma {:induction false} TxtLength(data: seq<bytes>)
    requires forall i :: 0 <= i < |data| ==> |data[i]| <= 255
    ensures |TxtBytes(data)| == |data| + TotalLength(data)
  {
    if data != [] {
      TxtLength(data[1..]);
    }
  }

  /** A validated record's data is far from overflowing its 16-bit length field. */
  lemma ValidRdataFits(r: DnsRecord)
    requires ValidRecord(r)
    ensures |Rdata(r)| <= 2176
  {
    hide NameBytes, Labels, TxtBytes, TotalLength, IsValidHostname;
    match r.rtype {
      case "CNAME" => ValidHostnameFits(r.target);
      case "NS" => ValidHostnameFits(r.target);
      case "PTR" => ValidHostnameFits(r.target);
      case "TXT" => TxtLength(r.data);
      case "MX" => ValidHostnameFits(r.exchange);
      case "SRV" => ValidHostnameFits(r.target);
      case _ =>
    }
  }
}
