/** Whole messages without compression, and that the readers undo their encoding (section 4.1 of RFC 1035). */
module Messages {
  import opened Bytes
  import opened Names
  import opened Wire
  import opened Questions
  import opened Response
  import opened Records

  datatype WireRecord = WireRecord(labels: seq<bytes>, rtype: uint16, rclass: uint16, ttl: uint32, data: bytes)

  predicate Writable(r: WireRecord) {
    WireLabels(r.labels) && |r.data| < 0x1_0000
  }

  predicate AllWritable(rs: seq<WireRecord>) {
    forall i :: 0 <= i < |rs| ==> Writable(rs[i])
  }

  function RecordBytes(r: WireRecord): bytes {
    NameBytes(r.labels) + (U16(r.rtype) + (U16(r.rclass) + (U32(r.ttl) + (U16(|r.data| % 0x1_0000) + r.data))))
  }

  function RecordsBytes(rs: seq<WireRecord>): bytes {
    if rs == [] then [] else RecordBytes(rs[0]) + RecordsBytes(rs[1..])
  }

  /** A record as it should be received, if it stands at `off`. */
  function AsRecord(r: WireRecord, off: nat): ParsedRecord {
    ParsedRecord(Lower(Join(r.labels)), r.rtype, r.rclass, r.ttl, |r.data| % 0x1_0000, r.data,
                 off + |NameBytes(r.labels)| + 10)
  }

  function AsRecords(rs: seq<WireRecord>, off: nat): seq<ParsedRecord> {
    if rs == [] then [] else [AsRecord(rs[0], off)] + AsRecords(rs[1..], off + |RecordBytes(rs[0])|)
  }

  lemma RecordSize(r: WireRecord)
    ensures |RecordBytes(r)| == |NameBytes(r.labels)| + 10 + |r.data|
  {
  }

  lemma RecordLayout(buf: bytes, off: nat, r: WireRecord)
    requires Writable(r) && At(buf, off, RecordBytes(r))
    ensures At(buf, off, NameBytes(r.labels))
    ensures var o := off + |NameBytes(r.labels)|;
            && o + 10 + |r.data| <= |buf| && buf[o + 10..o + 10 + |r.data|] == r.data
            && GetU16(buf, o) == r.rtype && GetU16(buf, o + 2) == r.rclass
            && GetU32(buf, o + 4) == r.ttl && GetU16(buf, o + 8) == |r.data|
  {
    hide At, GetU16, GetU32, U16, U32, NameBytes, WireLabels;
    var o, len := off + |NameBytes(r.labels)|, |r.data|;
    AtConcat(buf, off, NameBytes(r.labels), U16(r.rtype) + (U16(r.rclass) + (U32(r.ttl) + (U16(len) + r.data))));
    AtConcat(buf, o, U16(r.rtype), U16(r.rclass) + (U32(r.ttl) + (U16(len) + r.data)));
    AtConcat(buf, o + 2, U16(r.rclass), U32(r.ttl) + (U16(len) + r.data));
    AtConcat(buf, o + 4, U32(r.ttl), U16(len) + r.data);
    AtConcat(buf, o + 8, U16(len), r.data);
    AtU16(buf, o, r.rtype);
    AtU16(buf, o + 2, r.rclass);
    AtU32(buf, o + 4, r.ttl);
    AtU16(buf, o + 8, len);
    AtSlice(buf, o + 10, r.data);
  }

  lemma RecordRead(buf: bytes, off: nat, r: WireRecord)
    requires Writable(r) && At(buf, off, RecordBytes(r))
    ensures off < |buf|
    ensures ReadRecord(buf, off) == Records.RecordRead(Some(AsRecord(r, off)), off + |RecordBytes(r)|)
  {
    hide At, GetU16, GetU32, DecodeName, NameBytes, Join, Lower, WireLabels;
    RecordLayout(buf, off, r);
    RecordSize(r);
    NameRoundTrip(buf, off, r.labels, MAX_JUMPS);
  }

  lemma {:induction false} RecordsRead(buf: bytes, off: nat, rs: seq<WireRecord>)
    requires AllWritable(rs) && At(buf, off, RecordsBytes(rs))
    ensures ReadSection(buf, off, |rs|) == Section(AsRecords(rs, off), off + |RecordsBytes(rs)|)
    decreases |rs|
  {
    hide At, RecordBytes, ReadRecord, AsRecord, Writable;
    if rs != [] {
      AtConcat(buf, off, RecordBytes(rs[0]), RecordsBytes(rs[1..]));
      RecordRead(buf, off, rs[0]);
      RecordsRead(buf, off + |RecordBytes(rs[0])|, rs[1..]);
    }
  }

  lemma {:induction false} SkipEncoded(buf: bytes, off: nat, qs: seq<WireQuestion>)
    requires forall i :: 0 <= i < |qs| ==> Askable(qs[i])
    requires At(buf, off, SectionBytes(qs))
    ensures SkipQuestions(buf, off, |qs|) == off + |SectionBytes(qs)|
    decreases |qs|
  {
    hide At, Askable, QuestionBytes, ReadName;
    if qs != [] {
      AtConcat(buf, off, QuestionBytes(qs[0]), SectionBytes(qs[1..]));
      QuestionRead(buf, off, qs[0]);
      SkipEncoded(buf, off + |QuestionBytes(qs[0])|, qs[1..]);
    }
  }

  predicate Sendable(qs: seq<WireQuestion>, an: seq<WireRecord>, ns: seq<WireRecord>, ar: seq<WireRecord>) {
    && |qs| < 0x1_0000 && |an| < 0x1_0000 && |ns| < 0x1_0000 && |ar| < 0x1_0000
    && (forall i :: 0 <= i < |qs| ==> Askable(qs[i]))
    && AllWritable(an) && AllWritable(ns) && AllWritable(ar)
  }

  function Message(id: uint16, flags: uint16, qs: seq<WireQuestion>,
                   an: seq<WireRecord>, ns: seq<WireRecord>, ar: seq<WireRecord>): bytes
    requires Sendable(qs, an, ns, ar)
  {
    Header(id, flags, |qs|, |an|, |ns|, |ar|)
    + (SectionBytes(qs) + (RecordsBytes(an) + (RecordsBytes(ns) + RecordsBytes(ar))))
  }

  lemma MessageLayout(id: uint16, flags: uint16, qs: seq<WireQuestion>,
                      an: seq<WireRecord>, ns: seq<WireRecord>, ar: seq<WireRecord>)
    requires Sendable(qs, an, ns, ar)
    ensures var m := Message(id, flags, qs, an, ns, ar);
            var o1 := HEADER + |SectionBytes(qs)|;
            var o2 := o1 + |RecordsBytes(an)|;
            var o3 := o2 + |RecordsBytes(ns)|;
            && At(m, 0, Header(id, flags, |qs|, |an|, |ns|, |ar|)) && At(m, HEADER, SectionBytes(qs))
            && At(m, o1, RecordsBytes(an)) && At(m, o2, RecordsBytes(ns)) && At(m, o3, RecordsBytes(ar))
            && |m| == o3 + |RecordsBytes(ar)| >= HEADER
  {
    hide At, SectionBytes, RecordsBytes, Header, AllWritable, Askable;
    var m := Message(id, flags, qs, an, ns, ar);
    var rest := RecordsBytes(an) + (RecordsBytes(ns) + RecordsBytes(ar));
    var o1 := HEADER + |SectionBytes(qs)|;
    AtWhole(m);
    AtConcat(m, 0, Header(id, flags, |qs|, |an|, |ns|, |ar|), SectionBytes(qs) + rest);
    AtConcat(m, HEADER, SectionBytes(qs), rest);
    AtConcat(m, o1, RecordsBytes(an), RecordsBytes(ns) + RecordsBytes(ar));
    AtConcat(m, o1 + |RecordsBytes(an)|, RecordsBytes(ns), RecordsBytes(ar));
  }

  /** `ExtractQuestions` and `extractRecords` undo the encoding of any message: every question and
      every record of every section, in order. */
  lemma MessageRead(id: uint16, flags: uint16, qs: seq<WireQuestion>,
                    an: seq<WireRecord>, ns: seq<WireRecord>, ar: seq<WireRecord>)
    requires Sendable(qs, an, ns, ar)
    ensures var m := Message(id, flags, qs, an, ns, ar);
            var o1 := HEADER + |SectionBytes(qs)|;
            var o2 := o1 + |RecordsBytes(an)|;
            var o3 := o2 + |RecordsBytes(ns)|;
            && |m| >= HEADER && GetU16(m, 0) == id && GetU16(m, 2) == flags
            && QuestionsOf(m) == AsParsed(qs, HEADER)
            && RecordsOf(m) == Some(Extracted(|qs|, AsRecords(an, o1), AsRecords(ns, o2), AsRecords(ar, o3)))
  {
    hide At, SectionBytes, RecordsBytes, Header, Askable, GetU16, Message, AllWritable, AsRecords, AsParsed,
         ExtractFrom,
         ReadSection, SkipQuestions;
    var m := Message(id, flags, qs, an, ns, ar);
    var o1 := HEADER + |SectionBytes(qs)|;
    var o2 := o1 + |RecordsBytes(an)|;
    MessageLayout(id, flags, qs, an, ns, ar);
    HeaderFields(m, id, flags, |qs|, |an|, |ns|, |ar|);
    SectionRead(m, HEADER, qs);
    SkipEncoded(m, HEADER, qs);
    RecordsRead(m, o1, an);
    RecordsRead(m, o2, ns);
    RecordsRead(m, o2 + |RecordsBytes(ns)|, ar);
  }
}
