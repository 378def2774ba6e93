/** The question section: `parseQuestion` and `ExtractQuestions`, and the form they read. */
module Questions {
  import opened Bytes
  import opened Names
  import opened Wire
  import opened WireFormat

  const HEADER: nat := 12

  datatype ParsedQuestion = ParsedQuestion(name: bytes, qtype: uint16, nextOffset: nat)

  function ParseQuestion(query: bytes, base: nat): (r: Option<ParsedQuestion>)
    ensures r.Some? ==> base < r.value.nextOffset <= |query|
  {
    var next := ReadName(query, base).next;
    if next + 4 > |query| then None
    else
      var qclass := GetU16(query, next + 2);
      if qclass != 1 && qclass != 255 then None
      else Some(ParsedQuestion(NameAt(query, base), GetU16(query, next), next + 4))
  }

  /** The first at most `n` questions from `off` on; the first malformed one ends the list. */
  function ExtractFrom(query: bytes, off: nat, n: nat): (r: seq<ParsedQuestion>)
    ensures |r| <= n
    decreases n
  {
    if n == 0 then []
    else match ParseQuestion(query, off)
      case None => []
      case Some(q) => [q] + ExtractFrom(query, q.nextOffset, n - 1)
  }

  function QuestionsOf(query: bytes): (r: seq<ParsedQuestion>)
    ensures |r| < 0x1_0000
  {
    if |query| < HEADER then [] else ExtractFrom(query, HEADER, GetU16(query, 4))
  }

  method ParseQuestionAt(query: bytes, base: nat) returns (r: Option<ParsedQuestion>)
    ensures r == ParseQuestion(query, base)
  {
    var decoder := new DnsWireFormat.Over(query);
    decoder.Offset := base;
    var name := decoder.ReadDomainName();
    if decoder.Offset > |query| - 4 {
      return None;
    }
    var qtype := decoder.ReadUint16();
    var qclass := decoder.ReadUint16();
    if qclass != 1 && qclass != 255 {
      return None;
    }
    return Some(ParsedQuestion(name, qtype, decoder.Offset));
  }

  method ExtractQuestions(query: bytes) returns (questions: seq<ParsedQuestion>)
    ensures questions == QuestionsOf(query)
  {
    hide ParseQuestion, GetU16;
    if |query| < HEADER {
      return [];
    }
    var qdcount := GetU16(query, 4);
    ghost var all := QuestionsOf(query);
    questions := [];
    var offset: nat := HEADER;
    for i := 0 to qdcount
      invariant all == questions + ExtractFrom(query, offset, qdcount - i)
    {
      var q := ParseQuestionAt(query, offset);
      if q == None {
        break;
      }
      ghost var rest := ExtractFrom(query, q.value.nextOffset, qdcount - i - 1);
      Assoc(questions, [q.value], rest);
      questions := questions + [q.value];
      offset := q.value.nextOffset;
    }
    Unit(questions);
  }

  /** A question as a client encodes it: labels, type and class, without compression. */
  datatype WireQuestion = WireQuestion(labels: seq<bytes>, qtype: uint16, qclass: uint16)

  predicate Askable(q: WireQuestion) {
    WireLabels(q.labels) && (q.qclass == 1 || q.qclass == 255)
  }

  function QuestionBytes(q: WireQuestion): bytes {
    NameBytes(q.labels) + (U16(q.qtype) + U16(q.qclass))
  }

  function SectionBytes(qs: seq<WireQuestion>): bytes {
    if qs == [] then [] else QuestionBytes(qs[0]) + SectionBytes(qs[1..])
  }

  /** What the reader makes of a section encoded at `off`. */
  function AsParsed(qs: seq<WireQuestion>, off: nat): seq<ParsedQuestion> {
    if qs == [] then []
    else
      var next := off + |QuestionBytes(qs[0])|;
      [ParsedQuestion(Join(qs[0].labels), qs[0].qtype, next)] + AsParsed(qs[1..], next)
  }

  lemma {:induction false} AsParsedFields(qs: seq<WireQuestion>, off: nat)
    ensures var r := AsParsed(qs, off);
            && |r| == |qs|
            && (forall i :: 0 <= i < |qs| ==> r[i].name == Join(qs[i].labels) && r[i].qtype == qs[i].qtype)
            && (qs != [] ==> r[|r| - 1].nextOffset == off + |SectionBytes(qs)|)
  {
    hide Join, QuestionBytes;
    if qs != [] {
      AsParsedFields(qs[1..], off + |QuestionBytes(qs[0])|);
    }
  }

  lemma QuestionRead(buf: bytes, off: nat, q: WireQuestion)
    requires Askable(q) && At(buf, off, QuestionBytes(q))
    ensures ParseQuestion(buf, off) == Some(ParsedQuestion(Join(q.labels), q.qtype, off + |QuestionBytes(q)|))
    ensures ReadName(buf, off).next + 4 == off + |QuestionBytes(q)|
  {
    hide At, NameBytes, GetU16, DecodeName, Join, WireLabels;
    var name := NameBytes(q.labels);
    AtConcat(buf, off, name, U16(q.qtype) + U16(q.qclass));
    AtConcat(buf, off + |name|, U16(q.qtype), U16(q.qclass));
    NameRoundTrip(buf, off, q.labels, MAX_JUMPS);
    AtU16(buf, off + |name|, q.qtype);
    AtU16(buf, off + |name| + 2, q.qclass);
    AtEnd(buf, off + |name| + 2, U16(q.qclass));
  }

  /** `ExtractQuestions` undoes the encoding of a question section. */
  lemma {:induction false} SectionRead(buf: bytes, off: nat, qs: seq<WireQuestion>)
    requires forall i :: 0 <= i < |qs| ==> Askable(qs[i])
    requires At(buf, off, SectionBytes(qs))
    ensures ExtractFrom(buf, off, |qs|) == AsParsed(qs, off)
    decreases |qs|
  {
    hide ParseQuestion, QuestionBytes, Askable, At, Join;
    if qs != [] {
      AtConcat(buf, off, QuestionBytes(qs[0]), SectionBytes(qs[1..]));
      QuestionRead(buf, off, qs[0]);
      var q := ParseQuestion(buf, off).value;
      SectionRead(buf, q.nextOffset, qs[1..]);
      assert ExtractFrom(buf, off, |qs|) == [q] + ExtractFrom(buf, q.nextOffset, |qs| - 1);
    }
  }

  lemma ParsedNameFits(query: bytes, off: nat)
    requires ParseQuestion(query, off).Some?
    ensures WireLabels(Labels(ParseQuestion(query, off).value.name))
  {
    hide DecodeName, Join, Labels;
    RejoinedLabelsFit(ReadName(query, off).labels);
  }

  /** Every name that comes out of the reader can be written back: its labels fit. */
  lemma {:induction false} ExtractedNamesFit(query: bytes, off: nat, n: nat)
    ensures forall i :: 0 <= i < |ExtractFrom(query, off, n)| ==>
              WireLabels(Labels(ExtractFrom(query, off, n)[i].name))
    decreases n
  {
    hide ParseQuestion, WireLabels, Labels;
    if n > 0 && ParseQuestion(query, off).Some? {
      ParsedNameFits(query, off);
      ExtractedNamesFit(query, ParseQuestion(query, off).value.nextOffset, n - 1);
    }
  }

  predicate InClass(q: WireQuestion) {
    q.qclass == 1 || q.qclass == 255
  }

  /** The questions before the first of another class. */
  function UpToClass(qs: seq<WireQuestion>): seq<WireQuestion> {
    if qs == [] || !InClass(qs[0]) then [] else [qs[0]] + UpToClass(qs[1..])
  }

  lemma OtherClass(buf: bytes, off: nat, q: WireQuestion)
    requires WireLabels(q.labels) && At(buf, off, QuestionBytes(q)) && !InClass(q)
    ensures ParseQuestion(buf, off) == None
  {
    hide At, NameBytes, GetU16, DecodeName, Join, WireLabels;
    var name := NameBytes(q.labels);
    AtConcat(buf, off, name, U16(q.qtype) + U16(q.qclass));
    AtConcat(buf, off + |name|, U16(q.qtype), U16(q.qclass));
    NameRoundTrip(buf, off, q.labels, MAX_JUMPS);
    AtU16(buf, off + |name| + 2, q.qclass);
    AtEnd(buf, off + |name| + 2, U16(q.qclass));
  }

  /** Questions of any class: those before the first that is neither IN nor ANY are extracted, and no others. */
  lemma {:induction false} SectionUpToClass(buf: bytes, off: nat, qs: seq<WireQuestion>)
    requires forall i :: 0 <= i < |qs| ==> WireLabels(qs[i].labels)
    requires At(buf, off, SectionBytes(qs))
    ensures ExtractFrom(buf, off, |qs|) == AsParsed(UpToClass(qs), off)
    decreases |qs|
  {
    hide ParseQuestion, QuestionBytes, WireLabels, At, Join;
    if qs != [] {
      AtConcat(buf, off, QuestionBytes(qs[0]), SectionBytes(qs[1..]));
      if InClass(qs[0]) {
        QuestionRead(buf, off, qs[0]);
        SectionUpToClass(buf, off + |QuestionBytes(qs[0])|, qs[1..]);
        assert ([qs[0]] + UpToClass(qs[1..]))[1..] == UpToClass(qs[1..]);
      } else {
        OtherClass(buf, off, qs[0]);
      }
    }
  }
}
