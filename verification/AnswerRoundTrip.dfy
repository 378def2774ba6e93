/** What the record readers make of a packet built for one question and validated records. */
module AnswerRoundTrip {
  import opened Bytes
  import opened Names
  import opened Wire
  import opened Questions
  import opened Config
  import opened Answers
  import opened Response
  import opened Records

  predicate AllValid(rs: seq<DnsRecord>) {
    forall i :: 0 <= i < |rs| ==> ValidRecord(rs[i])
  }

  /** The records as a resolver should receive them: owner, type, class IN, TTL and data, in order. */
  function Received(rs: seq<DnsRecord>, owner: bytes, ttl: uint32, off: nat): (r: seq<ParsedRecord>)
    ensures |r| == |rs|
    ensures forall i :: 0 <= i < |rs| ==>
              && r[i].name == owner && r[i].rtype == TypeNumber(rs[i].rtype) && r[i].rclass == 1
              && r[i].ttl == ttl && r[i].rdLength == |Rdata(rs[i])| % 0x1_0000 && r[i].rdata == Rdata(rs[i])
  {
    if rs == [] then []
    else
      var rdata := Rdata(rs[0]);
      [ParsedRecord(owner, TypeNumber(rs[0].rtype), 1, ttl, |rdata| % 0x1_0000, rdata, off + 12)]
      + Received(rs[1..], owner, ttl, off + 12 + |rdata|)
  }

  /** The configured addresses, in order. */
  function AddressesIn(rs: seq<DnsRecord>): seq<bytes> {
    if rs == [] then []
    else
      (match (rs[0].rtype, rs[0].address)
       case ("A", V4(four)) => [four]
       case ("AAAA", V6(sixteen)) => [sixteen]
       case _ => [])
      + AddressesIn(rs[1..])
  }

  const TO_QUESTION: uint16 := 0xc00c

  lemma EntryLayout(buf: bytes, off: nat, pointer: uint16, rtype: uint16, ttl: uint32, rdata: bytes)
    requires At(buf, off, U16(pointer) + Entry(rtype, ttl, rdata)) && |rdata| < 0x1_0000
    ensures At(buf, off, U16(pointer))
    ensures off + 12 + |rdata| <= |buf| && buf[off + 12..off + 12 + |rdata|] == rdata
    ensures GetU16(buf, off + 2) == rtype && GetU16(buf, off + 4) == 1
    ensures GetU32(buf, off + 6) == ttl && GetU16(buf, off + 10) == |rdata|
  {
    hide U16, U32, GetU16, GetU32, At;
    var head := U16(rtype) + U16(1) + U32(ttl) + U16(|rdata|);
    AtConcat(buf, off, U16(pointer), Entry(rtype, ttl, rdata));
    AtConcat(buf, off + 2, head, rdata);
    AtConcat(buf, off + 2, U16(rtype) + U16(1) + U32(ttl), U16(|rdata|));
    AtConcat(buf, off + 2, U16(rtype) + U16(1), U32(ttl));
    AtConcat(buf, off + 2, U16(rtype), U16(1));
    AtU16(buf, off + 2, rtype);
    AtU16(buf, off + 4, 1);
    AtU32(buf, off + 6, ttl);
    AtU16(buf, off + 10, |rdata|);
    AtSlice(buf, off + 12, rdata);
  }

  /** An answer whose pointer targets a name is read with that name as owner. */
  lemma EntryRead(buf: bytes, off: nat, target: nat, labels: seq<bytes>, rtype: uint16, ttl: uint32, rdata: bytes)
    requires target < 0x4000 && |rdata| < 0x1_0000
    requires At(buf, off, U16(0xc000 + target) + Entry(rtype, ttl, rdata))
    requires WireLabels(labels) && At(buf, target, NameBytes(labels))
    ensures ReadRecord(buf, off) == RecordRead(
      Some(ParsedRecord(Lower(Join(labels)), rtype, 1, ttl, |rdata|, rdata, off + 12)), off + 12 + |rdata|)
    ensures ReadAddress(buf, off) == AddressRead(
      if (rtype == TYPE_A && |rdata| == 4) || (rtype == TYPE_AAAA && |rdata| == 16) then [rdata] else [],
      off + 12 + |rdata|)
    ensures off < |buf|
  {
    hide At, Entry, Lower, Join, NameBytes, GetU16, GetU32, DecodeName, U16;
    EntryLayout(buf, off, 0xc000 + target, rtype, ttl, rdata);
    PointerRoundTrip(buf, off, target, labels);
  }

  lemma AnswerSectionHead(buf: bytes, off: nat, rs: seq<DnsRecord>, ttl: uint32, count: uint16)
    requires rs != [] && At(buf, off, AnswerSection([HEADER], Entries(rs, ttl), count))
    ensures At(buf, off, U16(TO_QUESTION) + SingleAnswer(rs[0], ttl))
    ensures At(buf, off + 12 + |Rdata(rs[0])|, AnswerSection([HEADER], Entries(rs[1..], ttl), Next(count)))
  {
    hide At, Rdata, TypeNumber, U16, U32;
    EntriesCons(rs, ttl);
    AnswerSectionCons([HEADER], SingleAnswer(rs[0], ttl), Entries(rs[1..], ttl), count);
    AtConcat(buf, off, U16(TO_QUESTION) + SingleAnswer(rs[0], ttl),
             AnswerSection([HEADER], Entries(rs[1..], ttl), Next(count)));
  }

  lemma ReceivedCons(rs: seq<DnsRecord>, k: nat, owner: bytes, ttl: uint32, off: nat)
    requires 0 < k <= |rs| && |Rdata(rs[0])| < 0x1_0000
    ensures var rdata := Rdata(rs[0]);
            Received(rs[..k], owner, ttl, off)
            == [ParsedRecord(owner, TypeNumber(rs[0].rtype), 1, ttl, |rdata|, rdata, off + 12)]
               + Received(rs[1..][..k - 1], owner, ttl, off + 12 + |rdata|)
  {
    hide Rdata, TypeNumber;
    assert rs[..k][1..] == rs[1..][..k - 1];
  }

  lemma ReceivedNone(rs: seq<DnsRecord>, owner: bytes, ttl: uint32, off: nat)
    ensures Received(rs[..0], owner, ttl, off) == []
  {
  }

  lemma {:induction false} AnswersRead(buf: bytes, off: nat, labels: seq<bytes>,
                                       rs: seq<DnsRecord>, ttl: uint32, count: uint16, k: nat)
    requires AllValid(rs) && k <= |rs|
    requires At(buf, off, AnswerSection([HEADER], Entries(rs, ttl), count))
    requires WireLabels(labels) && At(buf, HEADER, NameBytes(labels))
    ensures ReadSection(buf, off, k).records == Received(rs[..k], Lower(Join(labels)), ttl, off)
    decreases k
  {
    hide At, AnswerSection, Rdata, TypeNumber, WireLabels, NameBytes, Join, Lower, ReadRecord, ReadAddress, ValidRecord,
         Received, Entries;
    if k == 0 {
      ReceivedNone(rs, Lower(Join(labels)), ttl, off);
    } else {
      var rdata := Rdata(rs[0]);
      ValidRdataFits(rs[0]);
      AnswerSectionHead(buf, off, rs, ttl, count);
      EntryRead(buf, off, HEADER, labels, TypeNumber(rs[0].rtype), ttl, rdata);
      AnswersRead(buf, off + 12 + |rdata|, labels, rs[1..], ttl, Next(count), k - 1);
      ReceivedCons(rs, k, Lower(Join(labels)), ttl, off);
    }
  }

  lemma UpperFixed(s: string)
    requires forall i :: 0 <= i < |s| ==> 'A' <= s[i] <= 'Z'
    ensures ToUpper(s) == s
  {
  }

  /** Only A and AAAA records have the type and the length of an address. */
  lemma AddressShape(r: DnsRecord)
    requires ValidRecord(r)
    ensures var t, n := TypeNumber(r.rtype), |Rdata(r)|;
            ((t == TYPE_A && n == 4) || (t == TYPE_AAAA && n == 16) <==> r.rtype == "A" || r.rtype == "AAAA")
            && AddressesIn([r]) == if r.rtype == "A" || r.rtype == "AAAA" then [Rdata(r)] else []
  {
    hide ToUpper, NameBytes, Labels, TxtBytes, Word, IsValidHostname;
    UpperFixed(r.rtype);
  }

  lemma {:induction false} AddressesRead(buf: bytes, off: nat, labels: seq<bytes>,
                                         rs: seq<DnsRecord>, ttl: uint32, count: uint16, k: nat)
    requires AllValid(rs) && k <= |rs|
    requires At(buf, off, AnswerSection([HEADER], Entries(rs, ttl), count))
    requires WireLabels(labels) && At(buf, HEADER, NameBytes(labels))
    ensures AddressesFrom(buf, off, k) == AddressesIn(rs[..k])
    decreases k
  {
    hide At, AnswerSection, Rdata, TypeNumber, WireLabels, NameBytes, Join, Lower, ReadRecord, ReadAddress, ValidRecord,
         AddressesIn, Entries;
    if k == 0 {
      NoAddresses(rs);
    } else {
      var rdata := Rdata(rs[0]);
      var next := off + 12 + |rdata|;
      ValidRdataFits(rs[0]);
      AnswerSectionHead(buf, off, rs, ttl, count);
      EntryRead(buf, off, HEADER, labels, TypeNumber(rs[0].rtype), ttl, rdata);
      AddressesRead(buf, next, labels, rs[1..], ttl, Next(count), k - 1);
      AddressShape(rs[0]);
      AddressesCons(rs, k);
    }
  }

  lemma AddressesCons(rs: seq<DnsRecord>, k: nat)
    requires 0 < k <= |rs|
    ensures AddressesIn(rs[..k]) == AddressesIn([rs[0]]) + AddressesIn(rs[1..][..k - 1])
  {
    assert rs[..k][1..] == rs[1..][..k - 1];
  }

  lemma NoAddresses(rs: seq<DnsRecord>)
    ensures AddressesIn(rs[..0]) == []
  {
  }

  /** Both record readers see one question, these answers, and nothing else. */
  ghost predicate ReadsBackAs(packet: bytes, answers: seq<ParsedRecord>, addresses: seq<bytes>) {
    RecordsOf(packet) == Some(Extracted(1, answers, [], [])) && AddressesOf(packet) == addresses
  }

  /**
    The answer round trip.  A packet built for one question from validated records is read
    back by both record readers as exactly those records, in order, each owned by the
    lower-cased normalised question name through the compression pointer -- as many of them
    as the 16-bit answer count can say, hence all of them up to 65535.
   */
  lemma AnswerRoundTrip(id: uint16, flags: uint16, q: ParsedQuestion, rs: seq<DnsRecord>, ttl: uint32)
    requires WireLabels(Labels(q.name)) && AllValid(rs)
    ensures var p := ResponsePacket(id, flags, [q], Entries(rs, ttl));
            var told := Told(rs);
            var first := HEADER + |NameBytes(Labels(q.name))| + 4;
            ReadsBackAs(p, Received(told, Lower(Normalise(q.name)), ttl, first), AddressesIn(told))
    ensures |rs| < 0x1_0000 <==> Told(rs) == rs
  {
    hide At, AnswerSection, TypeNumber, WireLabels, NameBytes, Join, Lower, ReadRecord, ReadAddress, ValidRecord,
         Header, ResponsePacket;
    hide Received, Labels, Entries, AddressesFrom, AddressesIn;
    var p := ResponsePacket(id, flags, [q], Entries(rs, ttl));
    var echo := Echo(q);
    var n := |rs| % 0x1_0000;
    EntriesLong(rs, ttl);
    UsableAll(Entries(rs, ttl));
    PacketLayout(id, flags, [q], Entries(rs, ttl));
    HeaderFields(p, id, flags, 1, n, 0, 0);
    assert Echoes([q]) == [echo];
    assert SectionBytes([echo]) == QuestionBytes(echo);
    assert Offsets([echo], HEADER) == [HEADER];
    QuestionRead(p, HEADER, echo);
    AtConcat(p, HEADER, NameBytes(echo.labels), U16(q.qtype) + U16(1));
    var first := HEADER + |QuestionBytes(echo)|;
    assert SkipQuestions(p, HEADER, 1) == SkipQuestions(p, first, 0) == first;
    AnswersRead(p, first, echo.labels, rs, ttl, 0, n);
    AddressesRead(p, first, echo.labels, rs, ttl, 0, n);
  }

  /** The character strings of TXT data (section 3.3.14 of RFC 1035). */
  function CharacterStrings(rdata: bytes): seq<bytes> {
    if rdata == [] || 1 + rdata[0] > |rdata| then []
    else [rdata[1..1 + rdata[0]]] + CharacterStrings(rdata[1 + rdata[0]..])
  }

  lemma FirstString(txt: bytes, rest: bytes)
    requires |txt| <= 255
    ensures CharacterStrings(Chunk(txt) + rest) == [txt] + CharacterStrings(rest)
  {
    hide Chunk;
    ChunkOctets(txt);
    var all := Chunk(txt) + rest;
    assert all[0] == |txt| && all[1..1 + |txt|] == txt && all[1 + |txt|..] == rest;
  }

  lemma ChunkOctets(txt: bytes)
    requires |txt| <= 255
    ensures |Chunk(txt)| == 1 + |txt| && Chunk(txt)[0] == |txt| && Chunk(txt)[1..] == txt
  {
  }

  lemma {:induction false} TxtRoundTrip(data: seq<bytes>)
    requires forall i :: 0 <= i < |data| ==> |data[i]| <= 255
    ensures CharacterStrings(TxtBytes(data)) == data
  {
    hide Chunk;
    if data != [] {
      FirstString(data[0], TxtBytes(data[1..]));
      TxtRoundTrip(data[1..]);
    }
  }

  lemma HostnameDecodes(buf: bytes, off: nat, hostname: bytes)
    requires IsValidHostname(hostname) && At(buf, off, NameBytes(Labels(hostname)))
    ensures NameAt(buf, off) == hostname
  {
    ValidHostnameFits(hostname);
    NameRoundTrip(buf, off, Labels(hostname), MAX_JUMPS);
  }

  /** Record data is itself faithful: every configured field of a validated record can be read from it. */
  lemma RdataDecodes(r: DnsRecord)
    requires ValidRecord(r)
    ensures var rd := Rdata(r);
            match r.rtype
            case "A" => rd == r.address.four
            case "AAAA" => rd == r.address.sixteen
            case "TXT" => CharacterStrings(rd) == r.data
            case "MX" => |rd| >= 2 && GetU16(rd, 0) == r.priority.value && NameAt(rd, 2) == r.exchange
            case "SRV" =>
              && |rd| >= 6 && GetU16(rd, 0) == r.priority.value && GetU16(rd, 2) == r.weight.value
              && GetU16(rd, 4) == r.port.value && NameAt(rd, 6) == r.target
            case _ => NameAt(rd, 0) == r.target
  {
    hide NameBytes, Labels, TxtBytes, IsValidHostname, NameAt, CharacterStrings;
    var rd := Rdata(r);
    match r.rtype {
      case "A" =>
      case "AAAA" =>
      case "TXT" => TxtRoundTrip(r.data);
      case "MX" => HostnameDecodes(rd, 2, r.exchange);
      case "SRV" => HostnameDecodes(rd, 6, r.target);
      case _ => HostnameDecodes(rd, 0, r.target);
    }
  }
}
