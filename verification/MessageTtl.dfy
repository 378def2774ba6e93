/** TTL rewriting on messages of any origin: the answers get the new TTL, and nothing else changes. */
module MessageTtl {
  import opened Bytes
  import opened Names
  import opened Wire
  import opened Questions
  import opened Response
  import opened Messages
  import opened Ttl
  import opened BuiltTtl

  function WithTtl(rs: seq<WireRecord>, ttl: uint32): (r: seq<WireRecord>)
    ensures |r| == |rs| && forall i :: 0 <= i < |rs| ==> r[i] == rs[i].(ttl := ttl)
  {
    seq(|rs|, i requires 0 <= i < |rs| => rs[i].(ttl := ttl))
  }

  /** Where the TTLs of these records stand when the first starts at `off`. */
  function TtlPositions(rs: seq<WireRecord>, off: nat): seq<nat> {
    if rs == [] then []
    else [off + |NameBytes(rs[0].labels)| + 4] + TtlPositions(rs[1..], off + |RecordBytes(rs[0])|)
  }

  lemma RecordSkipped(buf: bytes, off: nat, r: WireRecord)
    requires Writable(r) && At(buf, off, RecordBytes(r))
    ensures SkipQuestion(buf, off) == off + |NameBytes(r.labels)| + 4 && off < |buf|
  {
    hide At, Spells, DecodeName, SkipName, NameBytes, U16, U32, WireLabels, GetU16, GetU32;
    RecordLayout(buf, off, r);
    WrittenNameSpells(buf, off, r.labels);
    WalkersAgree(buf, off, r.labels, 0, MAX_JUMPS);
    NameRoundTrip(buf, off, r.labels, MAX_JUMPS);
  }

  lemma {:induction false} PositionsEncoded(buf: bytes, off: nat, rs: seq<WireRecord>)
    requires AllWritable(rs) && At(buf, off, RecordsBytes(rs))
    ensures TtlFields(buf, off, |rs|) == TtlPositions(rs, off)
    decreases |rs|
  {
    hide At, RecordBytes, SkipQuestion, Fields, GetU16, GetU32, NameBytes, WireLabels;
    if rs != [] {
      AtConcat(buf, off, RecordBytes(rs[0]), RecordsBytes(rs[1..]));
      RecordSkipped(buf, off, rs[0]);
      RecordLayout(buf, off, rs[0]);
      RecordSize(rs[0]);
      PositionsEncoded(buf, off + |RecordBytes(rs[0])|, rs[1..]);
    }
  }

  lemma PatchMiddle(left: bytes, mid: bytes, other: bytes, right: bytes)
    requires |mid| == |other|
    ensures Patch(left + mid + right, |left|, other) == left + other + right
  {
  }

  lemma RecordAround(pre: bytes, r: WireRecord, rest: bytes)
    ensures var left := pre + NameBytes(r.labels) + U16(r.rtype) + U16(r.rclass);
            var right := U16(|r.data| % 0x1_0000) + r.data;
            pre + RecordBytes(r) + rest == left + U32(r.ttl) + (right + rest)
  {
    hide NameBytes, U16, U32;
    var n, a, b := NameBytes(r.labels), U16(r.rtype), U16(r.rclass);
    var c, d := U32(r.ttl), U16(|r.data| % 0x1_0000) + r.data;
    Assoc(pre, n, a + (b + (c + d)));
    Assoc(pre + n, a, b + (c + d));
    Assoc(pre + n + a, b, c + d);
    Assoc(pre + n + a + b, c, d);
    Assoc(pre + n + a + b + c, d, rest);
  }

  lemma PatchRecord(pre: bytes, r: WireRecord, rest: bytes, ttl: uint32)
    ensures Patch(pre + RecordBytes(r) + rest, |pre| + |NameBytes(r.labels)| + 4, U32(ttl))
            == pre + RecordBytes(r.(ttl := ttl)) + rest
  {
    hide NameBytes, U16, U32, Patch, RecordBytes;
    var left := pre + NameBytes(r.labels) + U16(r.rtype) + U16(r.rclass);
    var right := U16(|r.data| % 0x1_0000) + r.data;
    RecordAround(pre, r, rest);
    RecordAround(pre, r.(ttl := ttl), rest);
    PatchMiddle(left, U32(r.ttl), U32(ttl), right + rest);
  }

  lemma {:induction false} PatchRecords(pre: bytes, rs: seq<WireRecord>, rest: bytes, ttl: uint32)
    requires forall k :: 0 <= k < |TtlPositions(rs, |pre|)| ==>
               TtlPositions(rs, |pre|)[k] + 4 <= |pre + RecordsBytes(rs) + rest|
    ensures PatchAll(pre + RecordsBytes(rs) + rest, TtlPositions(rs, |pre|), U32(ttl))
            == pre + RecordsBytes(WithTtl(rs, ttl)) + rest
    decreases |rs|
  {
    hide NameBytes, U32, Patch, RecordBytes, WireLabels;
    if rs == [] {
      assert WithTtl(rs, ttl) == [];
    } else {
      var r, r', more := rs[0], rs[0].(ttl := ttl), RecordsBytes(rs[1..]);
      var positions := TtlPositions(rs, |pre|);
      assert WithTtl(rs, ttl)[1..] == WithTtl(rs[1..], ttl);
      RecordSize(r);
      RecordSize(r');
      Regrouped(pre, RecordBytes(r), more, rest);
      PatchRecord(pre, r, more + rest, ttl);
      Assoc(pre + RecordBytes(r'), more, rest);
      assert positions[1..] == TtlPositions(rs[1..], |pre + RecordBytes(r')|);
      PatchRecords(pre + RecordBytes(r'), rs[1..], rest, ttl);
      Regrouped(pre, RecordBytes(r'), RecordsBytes(WithTtl(rs[1..], ttl)), rest);
    }
  }

  lemma Regrouped(a: bytes, b: bytes, c: bytes, d: bytes)
    ensures a + (b + c) + d == a + b + (c + d) == a + b + c + d
  {
    Assoc(a, b, c);
    Assoc(a + b, c, d);
  }

  /** On every message without compression, rewriting sets the TTL of all answers and of no other record. */
  lemma RewriteMessage(id: uint16, flags: uint16, qs: seq<WireQuestion>,
                       an: seq<WireRecord>, ns: seq<WireRecord>, ar: seq<WireRecord>, ttl: uint32)
    requires Sendable(qs, an, ns, ar)
    ensures Sendable(qs, WithTtl(an, ttl), ns, ar)
    ensures RewriteTtl(Message(id, flags, qs, an, ns, ar), ttl) == Message(id, flags, qs, WithTtl(an, ttl), ns, ar)
  {
    hide At, SectionBytes, RecordsBytes, Header, Askable, GetU16, U32, PatchAll, TtlFields, TtlPositions, AnswerStart,
         Fields,
         WireLabels;
    var m := Message(id, flags, qs, an, ns, ar);
    var pre := Header(id, flags, |qs|, |an|, |ns|, |ar|) + SectionBytes(qs);
    var rest := RecordsBytes(ns) + RecordsBytes(ar);
    MessageLayout(id, flags, qs, an, ns, ar);
    HeaderFields(m, id, flags, |qs|, |an|, |ns|, |ar|);
    AnswerStartBuilt(m, HEADER, qs);
    PositionsEncoded(m, |pre|, an);
    FieldsInside(m, |pre|, |an|);
    Around(Header(id, flags, |qs|, |an|, |ns|, |ar|), SectionBytes(qs), RecordsBytes(an), rest);
    Around(Header(id, flags, |qs|, |an|, |ns|, |ar|), SectionBytes(qs), RecordsBytes(WithTtl(an, ttl)), rest);
    PatchRecords(pre, an, rest, ttl);
  }

  lemma Around(a: bytes, b: bytes, c: bytes, d: bytes)
    ensures a + (b + (c + d)) == a + b + c + d
  {
    Assoc(a, b, c + d);
    Assoc(a + b, c, d);
  }
}
