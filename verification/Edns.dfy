/** What is sent upstream for a client query: the EDNS0 step (pkg/dns/handler.go) and all steps together. */
module Edns {
  import opened Bytes
  import opened Names
  import opened Wire
  import opened WireFormat
  import opened Questions
  import opened Response
  import opened Records
  import opened Messages
  import opened CaseRewrite
  import opened ForwardedQuery

  const TYPE_OPT: uint16 := 41
  const UDP_SIZE: uint16 := 4096
  const DO_BIT: uint32 := 0x8000

  /** An OPT record (section 6.1.2 of RFC 6891): root owner, UDP size as class, flags as TTL, no data. */
  function OptBytes(): bytes {
    [0] + (U16(TYPE_OPT) + (U16(UDP_SIZE) + (U32(DO_BIT) + U16(0))))
  }

  function AppendEdns0(query: bytes): bytes {
    if |query| < HEADER || GetU16(query, 10) > 0 then query else Patch(query, 10, U16(1)) + OptBytes()
  }

  method AppendEdns0DoBit(query: bytes) returns (r: bytes)
    ensures r == AppendEdns0(query)
  {
    hide U16, U32, Patch;
    if |query| < HEADER {
      return query;
    }
    var arcount := GetU16(query, 10);
    if arcount > 0 {
      return query;
    }
    var encoder := new DnsWireFormat();
    encoder.WriteBytes(query);
    Unit(query);
    encoder.PutUint16(10, 1);
    encoder.WriteUint8(0);
    encoder.WriteUint16(TYPE_OPT);
    encoder.WriteUint16(UDP_SIZE);
    encoder.WriteUint32(DO_BIT);
    encoder.WriteUint16(0);
    r := encoder.Finish();
    OptGroups(Patch(query, 10, U16(1)));
  }

  lemma OptGroups(q: bytes)
    ensures q + OptBytes() == q + [0] + U16(TYPE_OPT) + U16(UDP_SIZE) + U32(DO_BIT) + U16(0)
  {
    hide U16, U32;
    var d := U16(0);
    var c := U32(DO_BIT) + d;
    var b := U16(UDP_SIZE) + c;
    var a := U16(TYPE_OPT) + b;
    Assoc(q, [0], a);
    Assoc(q + [0], U16(TYPE_OPT), b);
    Assoc(q + [0] + U16(TYPE_OPT), U16(UDP_SIZE), c);
    Assoc(q + [0] + U16(TYPE_OPT) + U16(UDP_SIZE), U32(DO_BIT), d);
  }

  const OPT: WireRecord := WireRecord([], TYPE_OPT, UDP_SIZE, DO_BIT, [])

  lemma OptIsRecord()
    ensures RecordsBytes([OPT]) == OptBytes() && Writable(OPT) && AllWritable([OPT])
  {
    hide U16, U32;
    assert NameBytes([]) == [0];
    Unit(U16(0));
    Unit(RecordBytes(OPT));
  }

  /** What is sent upstream for a client query: cases mixed, a new ID, EDNS0 appended. */
  function Upstream(query: bytes, entropy: bytes, ephemeralId: uint16): bytes
    requires 2 <= |query| <= |entropy|
  {
    AppendEdns0(Patch(Mix(query, entropy), 0, U16(ephemeralId)))
  }

  /** A query that announces additional records keeps its length, and changes behind the ID by its case only. */
  lemma UpstreamKeepsOwn(query: bytes, entropy: bytes, ephemeralId: uint16)
    requires HEADER <= |query| <= |entropy| && GetU16(query, 10) > 0
    ensures var sent := Upstream(query, entropy, ephemeralId);
            |sent| == |query| && sent[..2] == U16(ephemeralId) && sent[2..] == Mix(query, entropy)[2..]
  {
    hide Mix, Recasing, Recased;
    var mixed := Mix(query, entropy);
    MixVariant(query, entropy);
    assert mixed[10] == mixed[..HEADER][10] && mixed[11] == mixed[..HEADER][11];
  }

  lemma PatchHead(id: uint16, id': uint16, flags: uint16, qd: uint16, an: uint16, ns: uint16, ar: uint16, rest: bytes)
    ensures Patch(Header(id, flags, qd, an, ns, ar) + rest, 0, U16(id')) == Header(id', flags, qd, an, ns, ar) + rest
    ensures Patch(Header(id, flags, qd, an, ns, 0) + rest, 10, U16(1)) == Header(id, flags, qd, an, ns, 1) + rest
  {
    var h, g := Header(id, flags, qd, an, ns, ar), Header(id, flags, qd, an, ns, 0);
    assert Patch(h + rest, 0, U16(id')) == Patch(h, 0, U16(id')) + rest;
    assert Patch(h, 0, U16(id')) == Header(id', flags, qd, an, ns, ar);
    assert Patch(g + rest, 10, U16(1)) == Patch(g, 10, U16(1)) + rest;
    assert Patch(g, 10, U16(1)) == Header(id, flags, qd, an, ns, 1);
  }

  /** The additional records of what is sent: the client's own, or else the OPT record. */
  function Additional(ar: seq<WireRecord>): seq<WireRecord> {
    if ar == [] then [OPT] else ar
  }

  lemma EdnsMessage(id: uint16, flags: uint16, qs: seq<WireQuestion>,
                    an: seq<WireRecord>, ns: seq<WireRecord>, ar: seq<WireRecord>)
    requires Sendable(qs, an, ns, ar)
    ensures Sendable(qs, an, ns, Additional(ar))
    ensures AppendEdns0(Message(id, flags, qs, an, ns, ar)) == Message(id, flags, qs, an, ns, Additional(ar))
  {
    hide At, SectionBytes, RecordsBytes, Header, Askable, AllWritable, GetU16, Patch, OptBytes, U16;
    MessageLayout(id, flags, qs, an, ns, ar);
    HeaderFields(Message(id, flags, qs, an, ns, ar), id, flags, |qs|, |an|, |ns|, |ar|);
    OptIsRecord();
    if ar == [] {
      NoRecords();
      var section, a, n := SectionBytes(qs), RecordsBytes(an), RecordsBytes(ns);
      var head := Header(id, flags, |qs|, |an|, |ns|, 1);
      PatchHead(id, id, flags, |qs|, |an|, |ns|, 0, section + (a + (n + [])));
      Unit(n);
      Assoc(head, section + (a + n), OptBytes());
      Assoc(section, a + n, OptBytes());
      Assoc(a, n, OptBytes());
    }
  }

  lemma NoRecords()
    ensures RecordsBytes([]) == []
  {
  }

  lemma MixMessage(id: uint16, flags: uint16, qs: seq<WireQuestion>,
                   an: seq<WireRecord>, ns: seq<WireRecord>, ar: seq<WireRecord>, entropy: bytes)
    requires Sendable(qs, an, ns, ar) && |Message(id, flags, qs, an, ns, ar)| <= |entropy|
    ensures HEADER + |SectionBytes(qs)| <= |entropy|
    ensures var mixed := RecaseSection(qs, entropy, HEADER);
            && Sendable(mixed, an, ns, ar)
            && Mix(Message(id, flags, qs, an, ns, ar), entropy) == Message(id, flags, mixed, an, ns, ar)
  {
    hide At, SectionBytes, RecordsBytes, Header, Askable, AllWritable, GetU16, MixQuestions, RecaseSection;
    var m := Message(id, flags, qs, an, ns, ar);
    var head := Header(id, flags, |qs|, |an|, |ns|, |ar|);
    var rest := RecordsBytes(an) + (RecordsBytes(ns) + RecordsBytes(ar));
    MessageLayout(id, flags, qs, an, ns, ar);
    HeaderFields(m, id, flags, |qs|, |an|, |ns|, |ar|);
    Assoc(head, SectionBytes(qs), rest);
    MixSectionEncoded(head, qs, rest, entropy);
    Assoc(head, SectionBytes(RecaseSection(qs, entropy, HEADER)), rest);
  }

  /** Same number, same types, and names equal up to ASCII case. */
  ghost predicate AsksTheSame(asked: seq<ParsedQuestion>, qs: seq<WireQuestion>) {
    |asked| == |qs| &&
    forall i :: 0 <= i < |qs| ==>
      asked[i].qtype == qs[i].qtype && Lower(asked[i].name) == Lower(Join(qs[i].labels))
  }

  /**
    For every message without compression, with whatever records, and all random octets: what goes
    upstream asks the same questions and carries the same answer and authority records.  Its
    additional records are the client's own where there are any, and else exactly one, the
    root-owned OPT record with the DO bit (sections 6.1.2 and 6.1.3 of RFC 6891).
   */
  lemma UpstreamAsksTheSame(id: uint16, flags: uint16, qs: seq<WireQuestion>,
                            an: seq<WireRecord>, ns: seq<WireRecord>, ar: seq<WireRecord>,
                            entropy: bytes, ephemeralId: uint16)
    requires Sendable(qs, an, ns, ar) && HEADER <= |Message(id, flags, qs, an, ns, ar)| <= |entropy|
    ensures var sent := Upstream(Message(id, flags, qs, an, ns, ar), entropy, ephemeralId);
            var o1 := HEADER + |SectionBytes(qs)|;
            var o2 := o1 + |RecordsBytes(an)|;
            var o3 := o2 + |RecordsBytes(ns)|;
            && |sent| >= HEADER && GetU16(sent, 0) == ephemeralId && GetU16(sent, 2) == flags
            && AsksTheSame(QuestionsOf(sent), qs)
            && RecordsOf(sent) == Some(Extracted(|qs|, AsRecords(an, o1), AsRecords(ns, o2),
                 if ar == [] then [ParsedRecord([], TYPE_OPT, UDP_SIZE, DO_BIT, 0, [], |sent|)] else AsRecords(ar, o3)))
  {
    hide SectionBytes, RecordsBytes, Header, Askable, AllWritable, GetU16, Patch, U16, Mix, AppendEdns0, QuestionsOf,
         RecordsOf, AsParsed, AsRecords, RecaseSection, Join, Lower, Message, Additional, Sendable;
    MixMessage(id, flags, qs, an, ns, ar, entropy);
    var mixed := RecaseSection(qs, entropy, HEADER);
    NewId(id, ephemeralId, flags, mixed, an, ns, ar);
    EdnsMessage(ephemeralId, flags, mixed, an, ns, ar);
    MessageRead(ephemeralId, flags, mixed, an, ns, Additional(ar));
    AsParsedFields(mixed, HEADER);
    RecaseSectionKeeps(qs, entropy, HEADER);
    OptLast(ephemeralId, flags, mixed, an, ns, ar);
  }

  lemma NewId(id: uint16, id': uint16, flags: uint16, qs: seq<WireQuestion>,
              an: seq<WireRecord>, ns: seq<WireRecord>, ar: seq<WireRecord>)
    requires Sendable(qs, an, ns, ar)
    ensures |Message(id, flags, qs, an, ns, ar)| >= HEADER
    ensures Patch(Message(id, flags, qs, an, ns, ar), 0, U16(id')) == Message(id', flags, qs, an, ns, ar)
  {
    hide SectionBytes, RecordsBytes, Header, Askable, AllWritable, Patch, U16;
    PatchHead(id, id', flags, |qs|, |an|, |ns|, |ar|,
              SectionBytes(qs) + (RecordsBytes(an) + (RecordsBytes(ns) + RecordsBytes(ar))));
  }

  lemma OptLast(id: uint16, flags: uint16, qs: seq<WireQuestion>,
                an: seq<WireRecord>, ns: seq<WireRecord>, ar: seq<WireRecord>)
    requires Sendable(qs, an, ns, Additional(ar))
    ensures var m := Message(id, flags, qs, an, ns, Additional(ar));
            var o3 := HEADER + |SectionBytes(qs)| + |RecordsBytes(an)| + |RecordsBytes(ns)|;
            AsRecords(Additional(ar), o3)
            == if ar == [] then [ParsedRecord([], TYPE_OPT, UDP_SIZE, DO_BIT, 0, [], |m|)] else AsRecords(ar, o3)
  {
    hide SectionBytes, Header, Askable, AllWritable, Sendable, U16, U32;
    if ar == [] {
      MessageLayout(id, flags, qs, an, ns, [OPT]);
      OptIsRecord();
      OptSize();
      assert Lower(Join([])) == [];
    }
  }

  lemma OptSize()
    ensures |OptBytes()| == 11 && |NameBytes([])| == 1
  {
  }
}
