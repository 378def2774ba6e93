/** Answers to several questions: which question each of them names as its owner. */
module ManyAnswers {
  import opened Bytes
  import opened Names
  import opened Wire
  import opened Questions
  import opened Config
  import opened Answers
  import opened Response
  import opened Records
  import opened Messages
  import opened AnswerRoundTrip

  /** The owner of the answer at that index is the question of the same index, or else the last one. */
  function OwnerIndex(n: nat, index: nat): (i: nat)
    requires n > 0
    ensures i < n
  {
    if index < n then index else n - 1
  }

  /** The records as they are received, if the first of them is the answer at `index`. */
  function ReceivedFor(rs: seq<DnsRecord>, qs: seq<WireQuestion>, ttl: uint32, off: nat, index: nat): seq<ParsedRecord>
    requires qs != []
  {
    if rs == [] then []
    else
      var owner, rdata := Lower(Join(qs[OwnerIndex(|qs|, index)].labels)), Rdata(rs[0]);
      [ParsedRecord(owner, TypeNumber(rs[0].rtype), 1, ttl, |rdata| % 0x1_0000, rdata, off + 12)]
      + ReceivedFor(rs[1..], qs, ttl, off + 12 + |rdata|, index + 1)
  }

  lemma {:induction false} OffsetNames(buf: bytes, off: nat, qs: seq<WireQuestion>, i: nat)
    requires At(buf, off, SectionBytes(qs)) && off + |SectionBytes(qs)| <= 0x4000 && i < |qs|
    ensures Offsets(qs, off)[i] < 0x4000 && At(buf, Offsets(qs, off)[i], NameBytes(qs[i].labels))
    decreases |qs|
  {
    hide At, NameBytes, U16;
    AtConcat(buf, off, QuestionBytes(qs[0]), SectionBytes(qs[1..]));
    if i == 0 {
      AtConcat(buf, off, NameBytes(qs[0].labels), U16(qs[0].qtype) + U16(qs[0].qclass));
    } else {
      OffsetNames(buf, off + |QuestionBytes(qs[0])|, qs[1..], i - 1);
    }
  }

  lemma ReceivedForCons(rs: seq<DnsRecord>, k: nat, qs: seq<WireQuestion>, ttl: uint32, off: nat, index: nat)
    requires 0 < k <= |rs| && |Rdata(rs[0])| < 0x1_0000 && qs != []
    ensures var rdata, owner := Rdata(rs[0]), Lower(Join(qs[OwnerIndex(|qs|, index)].labels));
            ReceivedFor(rs[..k], qs, ttl, off, index)
            == [ParsedRecord(owner, TypeNumber(rs[0].rtype), 1, ttl, |rdata|, rdata, off + 12)]
               + ReceivedFor(rs[1..][..k - 1], qs, ttl, off + 12 + |rdata|, index + 1)
  {
    hide Rdata, TypeNumber, Join, Lower;
    TakeTail(rs, k);
  }

  lemma SectionHead(buf: bytes, off: nat, offsets: seq<uint16>, rs: seq<DnsRecord>, ttl: uint32, count: uint16)
    requires rs != [] && At(buf, off, AnswerSection(offsets, Entries(rs, ttl), count))
    ensures At(buf, off, U16(OwnerPointer(offsets, count)) + SingleAnswer(rs[0], ttl))
    ensures At(buf, off + 12 + |Rdata(rs[0])|, AnswerSection(offsets, Entries(rs[1..], ttl), Next(count)))
  {
    hide At, Rdata, TypeNumber, U16, U32, OwnerPointer;
    EntriesCons(rs, ttl);
    AnswerSectionCons(offsets, SingleAnswer(rs[0], ttl), Entries(rs[1..], ttl), count);
    AtConcat(buf, off, U16(OwnerPointer(offsets, count)) + SingleAnswer(rs[0], ttl),
             AnswerSection(offsets, Entries(rs[1..], ttl), Next(count)));
  }

  lemma Owner(buf: bytes, qs: seq<WireQuestion>, count: uint16)
    requires qs != [] && At(buf, HEADER, SectionBytes(qs)) && HEADER + |SectionBytes(qs)| <= 0x4000
    ensures var target := Offsets(qs, HEADER)[OwnerIndex(|qs|, count)];
            && target < 0x4000 && OwnerPointer(Offsets(qs, HEADER), count) == 0xc000 + target
            && At(buf, target, NameBytes(qs[OwnerIndex(|qs|, count)].labels))
  {
    hide At, SectionBytes, NameBytes, Offsets;
    OffsetNames(buf, HEADER, qs, OwnerIndex(|qs|, count));
  }

  ghost predicate Encoded(buf: bytes, qs: seq<WireQuestion>) {
    && qs != [] && (forall i :: 0 <= i < |qs| ==> WireLabels(qs[i].labels))
    && At(buf, HEADER, SectionBytes(qs)) && HEADER + |SectionBytes(qs)| <= 0x4000
  }

  lemma {:induction false} AnswersReadFor(buf: bytes, off: nat, qs: seq<WireQuestion>,
                                          rs: seq<DnsRecord>, ttl: uint32, count: uint16, k: nat)
    requires AllValid(rs) && k <= |rs| && count + k < 0x1_0000 && Encoded(buf, qs)
    requires At(buf, off, AnswerSection(Offsets(qs, HEADER), Entries(rs, ttl), count))
    ensures ReadSection(buf, off, k).records == ReceivedFor(rs[..k], qs, ttl, off, count)
    decreases k
  {
    hide At, AnswerSection, Rdata, TypeNumber, WireLabels, NameBytes, Join, Lower, ReadRecord, ReadAddress, ValidRecord,
         ReceivedFor, Entries, SectionBytes, Offsets, OwnerPointer, U16, Entry;
    if k == 0 {
      NothingReceived(rs, qs, ttl, off, count);
    } else {
      var rdata := Rdata(rs[0]);
      var labels := qs[OwnerIndex(|qs|, count)].labels;
      ValidRdataFits(rs[0]);
      SectionHead(buf, off, Offsets(qs, HEADER), rs, ttl, count);
      Owner(buf, qs, count);
      EntryRead(buf, off, Offsets(qs, HEADER)[OwnerIndex(|qs|, count)], labels, TypeNumber(rs[0].rtype), ttl, rdata);
      AnswersReadFor(buf, off + 12 + |rdata|, qs, rs[1..], ttl, Next(count), k - 1);
      ReceivedForCons(rs, k, qs, ttl, off, count);
    }
  }

  lemma NothingReceived(rs: seq<DnsRecord>, qs: seq<WireQuestion>, ttl: uint32, off: nat, index: nat)
    requires qs != []
    ensures ReceivedFor(rs[..0], qs, ttl, off, index) == []
  {
  }

  /**
    A packet built for any number of questions, as long as their section ends where pointers reach:
    all records are read back in order, and the answer at index k is owned by question k, or by the
    last question when there are fewer.
   */
  lemma ManyQuestionsRead(id: uint16, flags: uint16, qs: seq<ParsedQuestion>, rs: seq<DnsRecord>, ttl: uint32)
    requires qs != [] && Echoable(qs) && AllValid(rs) && |rs| < 0x1_0000
    requires HEADER + |SectionBytes(Echoes(qs))| <= 0x4000
    ensures var first := HEADER + |SectionBytes(Echoes(qs))|;
            RecordsOf(ResponsePacket(id, flags, qs, Entries(rs, ttl)))
            == Some(Extracted(|qs|, ReceivedFor(rs, Echoes(qs), ttl, first, 0), [], []))
  {
    hide At, AnswerSection, WireLabels, Header, ResponsePacket, ReceivedFor, Labels, Entries, SectionBytes, Offsets,
         GetU16,
         ReadSection, SkipQuestions, ValidRecord, Usable;
    var p, echoes := ResponsePacket(id, flags, qs, Entries(rs, ttl)), Echoes(qs);
    var first := HEADER + |SectionBytes(echoes)|;
    EntriesLong(rs, ttl);
    UsableAll(Entries(rs, ttl));
    PacketLayout(id, flags, qs, Entries(rs, ttl));
    HeaderFields(p, id, flags, |qs|, |rs|, 0, 0);
    SkipEncoded(p, HEADER, echoes);
    AnswersReadFor(p, first, echoes, rs, ttl, 0, |rs|);
    assert rs[..|rs|] == rs;
    NoSection(p);
  }

  lemma NoSection(p: bytes)
    ensures forall off: nat {:trigger ReadSection(p, off, 0)} :: ReadSection(p, off, 0) == Section([], off)
  {
  }
}
