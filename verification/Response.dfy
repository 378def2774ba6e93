/** `BuildResponsePacket` and `GenerateErrorResponse` (pkg/dns/server.go). */
module Response {
  import opened Bytes
  import opened Names
  import opened Wire
  import opened WireFormat
  import opened Questions

  type Rcode = x: int | 0 <= x < 16
  const RCODE_NO_ERROR: Rcode := 0
  const RCODE_SERVFAIL: Rcode := 2
  const RCODE_NXDOMAIN: Rcode := 3
  const RCODE_REFUSED: Rcode := 5

  /**
    `(flags &^ 0x8000) | FlagQR | FlagAA | uint16(rcode)`, field by field: QR set, opcode kept, AA
    set, the six bits from TC to CD kept, and the four-bit code or-ed in.
   */
  function CombinedFlags(flags: uint16, rcode: Rcode): uint16 {
    0x8000 + flags / 0x800 % 16 * 0x800 + 0x400 + flags / 16 % 64 * 16 + OrNibble(flags % 16, rcode)
  }

  lemma FlagFields(f: int, opcode: nat, kept: nat, code: nat)
    requires opcode < 16 && kept < 64 && code < 16 && f == 0x8000 + opcode * 0x800 + 0x400 + kept * 16 + code
    ensures f / 0x8000 == 1 && f / 0x400 % 2 == 1 && f / 0x800 % 16 == opcode
    ensures f / 16 % 64 == kept && f % 16 == code
  {
    assert f / 0x400 == 32 + 2 * opcode + 1;
    assert f / 0x800 == 16 + opcode;
    assert f / 16 == 0x840 + 128 * opcode + kept;
  }

  /** Every bit of `x` is also set in `y`. */
  predicate Within(x: nat, y: nat) {
    && (x / 8 % 2 == 1 ==> y / 8 % 2 == 1) && (x / 4 % 2 == 1 ==> y / 4 % 2 == 1)
    && (x / 2 % 2 == 1 ==> y / 2 % 2 == 1) && (x % 2 == 1 ==> y % 2 == 1)
  }

  lemma OrWithin(x: nat, y: nat)
    requires x < 16 && y < 16
    ensures OrNibble(x, y) == y <==> Within(x, y)
  {
    assert y == y / 8 * 8 + y / 4 % 2 * 4 + y / 2 % 2 * 2 + y % 2;
  }

  /**
    Every response is marked as one (bit 15) and as authoritative (bit 10), and keeps the opcode
    and the other flags of the request.  It carries the code if and only if the request's code
    field has no bit besides; in particular when that was clear.
   */
  lemma ResponseFlags(flags: uint16, rcode: Rcode)
    ensures var f := CombinedFlags(flags, rcode);
            && f / 0x8000 == 1 && f / 0x400 % 2 == 1
            && f / 0x800 % 16 == flags / 0x800 % 16 && f / 16 % 64 == flags / 16 % 64
            && (f % 16 == rcode <==> Within(flags % 16, rcode))
            && (flags % 16 == 0 ==> f % 16 == rcode)
  {
    hide OrNibble, Within;
    OrWithin(flags % 16, rcode);
    FlagFields(CombinedFlags(flags, rcode), flags / 0x800 % 16, flags / 16 % 64, OrNibble(flags % 16, rcode));
  }

  /** `0xc000 | offset`: an offset of 16384 or more loses its top bits. */
  function PointerWord(offset: uint16): uint16 {
    0xc000 + offset % 0x4000
  }

  lemma PointerWordMask(offset: bv16)
    ensures 0xc000 | offset == 0xc000 + (offset & 0x3fff)
  {
  }

  function Header(id: uint16, flags: uint16, qd: uint16, an: uint16, ns: uint16, ar: uint16): (r: bytes)
    ensures |r| == HEADER
  {
    U16(id) + U16(flags) + (U16(qd) + U16(an) + U16(ns) + U16(ar))
  }

  lemma HeaderFields(b: bytes, id: uint16, flags: uint16, qd: uint16, an: uint16, ns: uint16, ar: uint16)
    requires At(b, 0, Header(id, flags, qd, an, ns, ar))
    ensures |b| >= HEADER
    ensures GetU16(b, 0) == id && GetU16(b, 2) == flags && GetU16(b, 4) == qd
    ensures GetU16(b, 6) == an && GetU16(b, 8) == ns && GetU16(b, 10) == ar
  {
    var h := Header(id, flags, qd, an, ns, ar);
    assert forall i :: 0 <= i < HEADER ==> b[0..HEADER][i] == b[i];
  }

  /** A question as it is echoed: empty labels dropped, class always IN. */
  function Echo(q: ParsedQuestion): WireQuestion {
    WireQuestion(Labels(q.name), q.qtype, 1)
  }

  function Echoes(qs: seq<ParsedQuestion>): (r: seq<WireQuestion>)
    ensures |r| == |qs|
    ensures forall i :: 0 <= i < |qs| ==> r[i] == Echo(qs[i])
  {
    seq(|qs|, i requires 0 <= i < |qs| => Echo(qs[i]))
  }

  /** Where each question starts, as the 16-bit offsets kept for compression. */
  function Offsets(qs: seq<WireQuestion>, off: nat): (r: seq<uint16>)
    ensures |r| == |qs|
  {
    if qs == [] then [] else [off % 0x1_0000] + Offsets(qs[1..], off + |QuestionBytes(qs[0])|)
  }

  /** The owner of the answer that follows `count` others: the question of that index, at most the last. */
  function OwnerPointer(offsets: seq<uint16>, count: uint16): uint16 {
    PointerWord(if |offsets| == 0 then 12 else if count < |offsets| then offsets[count] else offsets[|offsets| - 1])
  }

  function Usable(answers: seq<bytes>): seq<bytes> {
    if answers == [] then []
    else (if |answers[0]| < 10 then [] else [answers[0]]) + Usable(answers[1..])
  }

  lemma {:induction false} UsableAll(answers: seq<bytes>)
    requires forall i :: 0 <= i < |answers| ==> |answers[i]| >= 10
    ensures Usable(answers) == answers
  {
    if answers != [] {
      UsableAll(answers[1..]);
    }
  }

  /** The answers as written, given how many were written before (a 16-bit counter). */
  function AnswerSection(offsets: seq<uint16>, answers: seq<bytes>, count: uint16): bytes {
    if answers == [] then []
    else
      U16(OwnerPointer(offsets, count)) + answers[0]
      + AnswerSection(offsets, answers[1..], Next(count))
  }

  lemma AnswerSectionCons(offsets: seq<uint16>, ans: bytes, rest: seq<bytes>, count: uint16)
    ensures AnswerSection(offsets, [ans] + rest, count)
         == U16(OwnerPointer(offsets, count)) + ans + AnswerSection(offsets, rest, Next(count))
  {
    assert ([ans] + rest)[1..] == rest;
  }

  lemma NoAnswers(offsets: seq<uint16>)
    ensures Usable([]) == [] && forall count :: AnswerSection(offsets, [], count) == []
  {
  }

  lemma UsableStep(answers: seq<bytes>, i: nat)
    requires i < |answers|
    ensures Usable(answers[i..]) == (if |answers[i]| < 10 then [] else [answers[i]]) + Usable(answers[i + 1..])
  {
    Tail(answers, i);
  }

  /** Everything after the ID and the flags; it does not depend on them. */
  function ResponseBody(qs: seq<WireQuestion>, answers: seq<bytes>): bytes {
    (U16(|qs| % 0x1_0000) + U16(|answers| % 0x1_0000) + U16(0) + U16(0))
    + SectionBytes(qs) + AnswerSection(Offsets(qs, HEADER), answers, 0)
  }

  function ResponsePacket(id: uint16, flags: uint16, qs: seq<ParsedQuestion>, answers: seq<bytes>): bytes {
    U16(id) + U16(flags) + ResponseBody(Echoes(qs), Usable(answers))
  }

  method WriteQuestion(encoder: DnsWireFormat, q: ParsedQuestion)
    requires encoder.Offset <= encoder.Buf.Length
    modifies encoder, encoder.Buf
    ensures encoder.Buf == old(encoder.Buf) || fresh(encoder.Buf)
    ensures encoder.Offset <= encoder.Buf.Length
    ensures encoder.Written() == old(encoder.Written()) + QuestionBytes(Echo(q))
  {
    hide U16, NameBytes, Labels;
    ghost var before, name := encoder.Written(), NameBytes(Labels(q.name));
    encoder.WriteDomainName(q.name);
    encoder.WriteUint16(q.qtype);
    encoder.WriteUint16(1);
    Assoc(before, name, U16(q.qtype));
    Assoc(before, name + U16(q.qtype), U16(1));
    Assoc(name, U16(q.qtype), U16(1));
  }

  method WriteQuestions(encoder: DnsWireFormat, questions: seq<ParsedQuestion>) returns (trackedOffsets: seq<uint16>)
    requires encoder.Offset <= encoder.Buf.Length
    modifies encoder, encoder.Buf
    ensures encoder.Buf == old(encoder.Buf) || fresh(encoder.Buf)
    ensures encoder.Offset <= encoder.Buf.Length
    ensures encoder.Written() == old(encoder.Written()) + SectionBytes(Echoes(questions))
    ensures trackedOffsets == Offsets(Echoes(questions), old(encoder.Offset))
  {
    hide QuestionBytes, Echo;
    ghost var head := encoder.Written();
    ghost var echoes := Echoes(questions);
    trackedOffsets := [];
    assert echoes[0..] == echoes;
    for i := 0 to |questions|
      invariant encoder.Offset <= encoder.Buf.Length
      invariant encoder.Buf == old(encoder.Buf) || fresh(encoder.Buf)
      invariant encoder.Written() + SectionBytes(echoes[i..]) == head + SectionBytes(echoes)
      invariant trackedOffsets + Offsets(echoes[i..], encoder.Offset) == Offsets(echoes, old(encoder.Offset))
    {
      ghost var before, rest := encoder.Written(), SectionBytes(echoes[i + 1..]);
      ghost var start, tracked := encoder.Offset, trackedOffsets;
      trackedOffsets := trackedOffsets + [encoder.Offset % 0x1_0000];
      WriteQuestion(encoder, questions[i]);
      Tail(echoes, i);
      Assoc(before, QuestionBytes(echoes[i]), rest);
      Assoc(tracked, [start % 0x1_0000], Offsets(echoes[i + 1..], encoder.Offset));
    }
    Unit(encoder.Written());
    Unit(trackedOffsets);
  }

  method WriteAnswers(encoder: DnsWireFormat, offsets: seq<uint16>, answers: seq<bytes>) returns (ancount: uint16)
    requires encoder.Offset <= encoder.Buf.Length
    modifies encoder, encoder.Buf
    ensures encoder.Buf == old(encoder.Buf) || fresh(encoder.Buf)
    ensures encoder.Offset <= encoder.Buf.Length
    ensures encoder.Written() == old(encoder.Written()) + AnswerSection(offsets, Usable(answers), 0)
    ensures ancount == |Usable(answers)| % 0x1_0000
  {
    hide U16, OwnerPointer, Usable, AnswerSection;
    NoAnswers(offsets);
    assert answers[0..] == answers && answers[|answers|..] == [];
    ancount := 0;
    ghost var start := encoder.Written();
    ghost var all := AnswerSection(offsets, Usable(answers), 0);
    ghost var written: nat := 0;
    for i := 0 to |answers|
      invariant encoder.Offset <= encoder.Buf.Length
      invariant encoder.Buf == old(encoder.Buf) || fresh(encoder.Buf)
      invariant |Usable(answers)| == written + |Usable(answers[i..])| && ancount == written % 0x1_0000
      invariant encoder.Written() + AnswerSection(offsets, Usable(answers[i..]), ancount) == start + all
    {
      var ans := answers[i];
      ghost var rest := Usable(answers[i + 1..]);
      UsableStep(answers, i);
      if |ans| < 10 {
        Unit(rest);
        continue;
      }
      ghost var before := encoder.Written();
      ghost var after := AnswerSection(offsets, rest, Next(ancount));
      var pointer := OwnerPointer(offsets, ancount);
      AnswerSectionCons(offsets, ans, rest, ancount);
      Assoc(before, U16(pointer) + ans, after);
      Assoc(before, U16(pointer), ans);
      encoder.WriteUint16(pointer);
      encoder.WriteBytes(ans);
      NextMod(written);
      ancount := Next(ancount);
      written := written + 1;
    }
    Unit(encoder.Written());
  }

  method WriteResponseHeader(encoder: DnsWireFormat, id: uint16, flags: uint16, qdcount: uint16)
    requires encoder.Offset == 0 <= encoder.Buf.Length
    modifies encoder, encoder.Buf
    ensures encoder.Buf == old(encoder.Buf) || fresh(encoder.Buf)
    ensures encoder.Offset == HEADER <= encoder.Buf.Length
    ensures encoder.Written() == Header(id, flags, qdcount, 0, 0, 0)
  {
    hide U16;
    encoder.WriteUint16(id);
    encoder.WriteUint16(flags);
    encoder.WriteUint16(qdcount);
    WriteNoCounts(encoder);
  }

  /** The counts of answers, authorities and additional records, all zero so far. */
  method WriteNoCounts(encoder: DnsWireFormat)
    requires encoder.Offset <= encoder.Buf.Length
    modifies encoder, encoder.Buf
    ensures encoder.Buf == old(encoder.Buf) || fresh(encoder.Buf)
    ensures encoder.Offset == old(encoder.Offset) + 6 <= encoder.Buf.Length
    ensures encoder.Written() == old(encoder.Written()) + U16(0) + U16(0) + U16(0)
  {
    hide U16;
    encoder.WriteUint16(0);
    encoder.WriteUint16(0);
    encoder.WriteUint16(0);
  }

  lemma PatchedCount(id: uint16, flags: uint16, qd: uint16, an: uint16, questions: bytes, answers: bytes)
    ensures Patch(Header(id, flags, qd, 0, 0, 0) + questions + answers, 6, U16(an))
         == U16(id) + U16(flags) + ((U16(qd) + U16(an) + U16(0) + U16(0)) + questions + answers)
  {
    var unpatched := Header(id, flags, qd, 0, 0, 0);
    assert Patch(unpatched + questions + answers, 6, U16(an)) == Patch(unpatched, 6, U16(an)) + questions + answers;
    assert Patch(unpatched, 6, U16(an)) == Header(id, flags, qd, an, 0, 0);
  }

  method BuildResponsePacket(id: uint16, flags: uint16, rcode: Rcode, questions: seq<ParsedQuestion>,
                             answers: seq<bytes>)
    returns (packet: bytes)
    ensures packet == ResponsePacket(id, CombinedFlags(flags, rcode), questions, answers)
  {
    hide CombinedFlags, Usable, Offsets, AnswerSection, SectionBytes, U16, Header;
    var combinedFlags := CombinedFlags(flags, rcode);
    var qdcount := |questions| % 0x1_0000;
    var encoder := new DnsWireFormat();
    WriteResponseHeader(encoder, id, combinedFlags, qdcount);
    var answerCountOffset := 6;
    var trackedOffsets := WriteQuestions(encoder, questions);
    var ancount := WriteAnswers(encoder, trackedOffsets, answers);
    encoder.PutUint16(answerCountOffset, ancount);
    packet := encoder.Finish();
    PatchedCount(id, combinedFlags, qdcount, ancount,
                 SectionBytes(Echoes(questions)), AnswerSection(trackedOffsets, Usable(answers), 0));
  }

  function ErrorResponse(query: bytes, rcode: Rcode): Option<bytes> {
    if |query| < HEADER then None
    else Some(ResponsePacket(GetU16(query, 0), CombinedFlags(GetU16(query, 2), rcode), QuestionsOf(query), []))
  }

  method GenerateErrorResponse(query: bytes, rcode: Rcode) returns (r: Option<bytes>)
    ensures r == ErrorResponse(query, rcode)
  {
    if |query| < HEADER {
      return None;
    }
    var questions := ExtractQuestions(query);
    var packet := BuildResponsePacket(GetU16(query, 0), GetU16(query, 2), rcode, questions, []);
    r := Some(packet);
  }

  predicate Echoable(qs: seq<ParsedQuestion>) {
    |qs| < 0x1_0000 && forall i :: 0 <= i < |qs| ==> WireLabels(Labels(qs[i].name))
  }

  lemma ExtractedEchoable(query: bytes)
    ensures Echoable(QuestionsOf(query))
  {
    if |query| >= HEADER {
      ExtractedNamesFit(query, HEADER, GetU16(query, 4));
    }
  }

  /** The layout of a built packet: header, question section, answer section. */
  lemma PacketLayout(id: uint16, flags: uint16, qs: seq<ParsedQuestion>, answers: seq<bytes>)
    ensures var p := ResponsePacket(id, flags, qs, answers);
            var section := SectionBytes(Echoes(qs));
            && p == Header(id, flags, |qs| % 0x1_0000, |Usable(answers)| % 0x1_0000, 0, 0)
                 + section + AnswerSection(Offsets(Echoes(qs), HEADER), Usable(answers), 0)
            && At(p, 0, Header(id, flags, |qs| % 0x1_0000, |Usable(answers)| % 0x1_0000, 0, 0))
            && At(p, HEADER, section)
            && At(p, HEADER + |section|, AnswerSection(Offsets(Echoes(qs), HEADER), Usable(answers), 0))
  {
    hide U16, SectionBytes, AnswerSection, Offsets, Usable;
    var p := ResponsePacket(id, flags, qs, answers);
    var h := Header(id, flags, |qs| % 0x1_0000, |Usable(answers)| % 0x1_0000, 0, 0);
    var section := SectionBytes(Echoes(qs));
    var rest := AnswerSection(Offsets(Echoes(qs), HEADER), Usable(answers), 0);
    assert p == h + section + rest;
  }

  /** Reading the questions of a built packet gives back the questions it was built from, normalised. */
  lemma BuiltQuestions(id: uint16, flags: uint16, qs: seq<ParsedQuestion>, answers: seq<bytes>)
    requires Echoable(qs)
    ensures var p := ResponsePacket(id, flags, qs, answers);
            && |p| >= HEADER && GetU16(p, 0) == id && GetU16(p, 2) == flags
            && QuestionsOf(p) == AsParsed(Echoes(qs), HEADER)
  {
    hide U16, AnswerSection, Offsets, Usable, Header, ResponsePacket, At;
    hide ExtractFrom, SectionBytes, AsParsed, WireLabels, Labels;
    var p := ResponsePacket(id, flags, qs, answers);
    PacketLayout(id, flags, qs, answers);
    HeaderFields(p, id, flags, |qs|, |Usable(answers)| % 0x1_0000, 0, 0);
    SectionRead(p, HEADER, Echoes(qs));
  }

  /**
    For every query of at least 12 octets, however malformed, the error response carries the
    query's ID and its questions: as many, with the same types, and with the same names once
    empty labels are dropped; nothing follows the last question.
   */
  lemma ErrorResponseRoundTrip(query: bytes, rcode: Rcode)
    requires |query| >= HEADER
    ensures ErrorResponse(query, rcode).Some?
    ensures var r := ErrorResponse(query, rcode).value;
            var asked, echoed := QuestionsOf(query), QuestionsOf(r);
            && |r| >= HEADER && GetU16(r, 0) == GetU16(query, 0)
            && GetU16(r, 2) == CombinedFlags(GetU16(query, 2), rcode)
            && |echoed| == |asked|
            && (forall i :: 0 <= i < |asked| ==>
                  echoed[i].name == Normalise(asked[i].name) && echoed[i].qtype == asked[i].qtype)
            && |r| == if asked == [] then HEADER else echoed[|echoed| - 1].nextOffset
  {
    hide U16, CombinedFlags, QuestionsOf, Header, At, ResponsePacket;
    var qs, flags := QuestionsOf(query), CombinedFlags(GetU16(query, 2), rcode);
    ExtractedEchoable(query);
    BuiltQuestions(GetU16(query, 0), flags, qs, []);
    PacketLayout(GetU16(query, 0), flags, qs, []);
    AsParsedFields(Echoes(qs), HEADER);
  }
}
