/** The data a signature covers, read back: what exactly is signed (section 3.1.8.1 of RFC 4034). */
module SignedRead {
  import opened Bytes
  import opened Names
  import opened Wire
  import opened Records
  import opened Messages
  import opened Dnssec

  /** A record as the reader yields it: its length is true, and its owner can be written. */
  predicate Received(rr: ParsedRecord) {
    WireLabels(Labels(Lower(rr.name))) && rr.rdLength == |rr.rdata|
  }

  predicate AllReceived(rrs: seq<ParsedRecord>) {
    forall i :: 0 <= i < |rrs| ==> Received(rrs[i])
  }

  lemma NameFits(buf: bytes, off: nat)
    ensures WireLabels(Labels(Lower(NameAt(buf, off)))) && WireLabels(Labels(Lower(Lower(NameAt(buf, off)))))
  {
    hide DecodeName, Labels, Lower, Join;
    RejoinedLabelsFit(ReadName(buf, off).labels);
    LabelsLower(NameAt(buf, off));
    LabelsLower(Lower(NameAt(buf, off)));
  }

  /** Every record that comes out of a packet, whatever its octets, is such a record. */
  lemma {:induction false} SectionReceived(buf: bytes, off: nat, count: nat)
    ensures AllReceived(ReadSection(buf, off, count).records)
    decreases count
  {
    hide ReadName, NameAt, Lower, Labels, GetU16, GetU32;
    if count > 0 && off < |buf| && ReadRecord(buf, off).record.Some? {
      NameFits(buf, off);
      SectionReceived(buf, ReadRecord(buf, off).next, count - 1);
    }
  }

  /** A record with the TTL of the signature, owner in canonical form. */
  function AsSigned(ttl: uint32, rr: ParsedRecord): WireRecord {
    WireRecord(Labels(Lower(rr.name)), rr.rtype, rr.rclass, ttl, rr.rdata)
  }

  function AllSigned(ttl: uint32, rrs: seq<ParsedRecord>): (r: seq<WireRecord>)
    ensures |r| == |rrs| && forall i :: 0 <= i < |r| ==> r[i] == AsSigned(ttl, rrs[i])
  {
    seq(|rrs|, i requires 0 <= i < |rrs| => AsSigned(ttl, rrs[i]))
  }

  lemma SignedBytes(ttl: uint32, rr: ParsedRecord)
    requires rr.rdLength == |rr.rdata|
    ensures RecordData(ttl, rr) == RecordBytes(AsSigned(ttl, rr))
  {
    hide NameBytes, Labels, Lower, U16, U32;
    var a, b, c, d := U16(rr.rtype), U16(rr.rclass), U32(ttl), U16(rr.rdLength);
    Assoc(a + b + c, d, rr.rdata);
    Assoc(a + b, c, d + rr.rdata);
    Assoc(a, b, c + (d + rr.rdata));
  }

  lemma {:induction false} AllSignedBytes(ttl: uint32, rrs: seq<ParsedRecord>)
    requires AllReceived(rrs)
    ensures RecordsData(ttl, rrs) == RecordsBytes(AllSigned(ttl, rrs)) && AllWritable(AllSigned(ttl, rrs))
  {
    hide RecordData, RecordBytes, Labels, Lower;
    if rrs != [] {
      AllSignedBytes(ttl, rrs[1..]);
      SignedBytes(ttl, rrs[0]);
      assert AllSigned(ttl, rrs)[1..] == AllSigned(ttl, rrs[1..]);
    }
  }

  lemma {:induction false} AsRecordsFields(rs: seq<WireRecord>, off: nat)
    requires AllWritable(rs)
    ensures var r := AsRecords(rs, off);
            |r| == |rs| && forall i :: 0 <= i < |rs| ==>
              && r[i].name == Lower(Join(rs[i].labels)) && r[i].rtype == rs[i].rtype && r[i].rclass == rs[i].rclass
              && r[i].ttl == rs[i].ttl && r[i].rdata == rs[i].data && r[i].rdLength == |rs[i].data|
  {
    hide RecordBytes, Join, Lower, WireLabels, NameBytes;
    if rs != [] {
      AsRecordsFields(rs[1..], off + |RecordBytes(rs[0])|);
    }
  }

  /** What the reader makes of the signed data is these records, each with that TTL, and nothing after them. */
  ghost predicate ReadsSigned(section: Section, rrs: seq<ParsedRecord>, ttl: uint32, end: nat) {
    && section.next == end && |section.records| == |rrs|
    && forall i :: 0 <= i < |rrs| ==>
         var r := section.records[i];
         && r.name == Canonical(rrs[i].name) && r.rtype == rrs[i].rtype && r.rclass == rrs[i].rclass
         && r.ttl == ttl && r.rdata == rrs[i].rdata && r.rdLength == |rrs[i].rdata|
  }

  lemma RecordsReadSigned(data: bytes, off: nat, rrs: seq<ParsedRecord>, ttl: uint32)
    requires AllReceived(rrs) && At(data, off, RecordsData(ttl, rrs))
    ensures ReadsSigned(ReadSection(data, off, |rrs|), rrs, ttl, off + |RecordsData(ttl, rrs)|)
  {
    hide At, RecordsData, RecordsBytes, AllWritable, AsRecords, ReadSection, Lower, Join, Labels, WireLabels;
    var signed := AllSigned(ttl, rrs);
    AllSignedBytes(ttl, rrs);
    RecordsRead(data, off, signed);
    AsRecordsFields(signed, off);
    forall i | 0 <= i < |rrs|
      ensures Lower(Join(signed[i].labels)) == Canonical(rrs[i].name)
    {
      CanonicalIsLower(rrs[i].name);
    }
  }

  /**
    What is signed: the first 18 octets of the RRSIG data, the signer's name in canonical form, and
    then exactly the records given, in order -- owner in canonical form, type, class, data -- each
    with the original TTL that octets 4 to 7 of the RRSIG data say, and nothing else.
   */
  lemma SignedDataReads(rrsig: bytes, rrs: seq<ParsedRecord>)
    requires |rrsig| >= RRSIG_FIXED && AllReceived(rrs)
    ensures var data := SignedData(rrsig, rrs);
            var start := ReadName(data, 18).next;
            && |data| >= 18 && data[..18] == rrsig[..18]
            && NameAt(data, 18) == Canonical(NameAt(rrsig, 18))
            && ReadsSigned(ReadSection(data, start, |rrs|), rrs, GetU32(rrsig, 4), |data|)
  {
    hide At, RecordsData, NameBytes, Labels, Lower, DecodeName, Join, GetU32, ReadSection, ReadsSigned, AllReceived;
    var data := SignedData(rrsig, rrs);
    var fixed, signer := rrsig[..18], NameBytes(Labels(Lower(NameAt(rrsig, 18))));
    AtWhole(data);
    AtConcat(data, 0, fixed + signer, RecordsData(GetU32(rrsig, 4), rrs));
    AtConcat(data, 0, fixed, signer);
    AtSlice(data, 0, fixed);
    NameFits(rrsig, 18);
    NameRoundTrip(data, 18, Labels(Lower(NameAt(rrsig, 18))), MAX_JUMPS);
    RecordsReadSigned(data, 18 + |signer|, rrs, GetU32(rrsig, 4));
  }
}
