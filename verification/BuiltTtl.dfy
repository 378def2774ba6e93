/** TTL rewriting on the packets this program builds, and agreement of its name walkers. */
module BuiltTtl {
  import opened Bytes
  import opened Names
  import opened Wire
  import opened Questions
  import opened Config
  import opened Answers
  import opened Response
  import opened Ttl

  /**
    Wherever the message spells a name within the reader's hop limit, the cache's skipping walker
    and the decoding reader leave their cursors at the same place, although the one never follows
    a pointer and the other always does.
   */
  lemma {:induction false} WalkersAgree(buf: bytes, off: nat, labels: seq<bytes>, hops: nat, jumps: nat)
    requires Spells(buf, off, labels, hops) && hops <= jumps
    ensures SkipName(buf, off) == Some(DecodeName(buf, off, jumps).next)
    decreases |labels|
  {
    if !IsPointer(buf[off]) && buf[off] != 0 {
      WalkersAgree(buf, off + 1 + buf[off], labels[1..], hops, jumps);
    }
  }

  lemma SkipBuiltQuestion(buf: bytes, off: nat, q: WireQuestion)
    requires Askable(q) && At(buf, off, QuestionBytes(q))
    ensures SkipQuestion(buf, off) == off + |QuestionBytes(q)|
  {
    hide At, Spells, DecodeName, SkipName, NameBytes, U16;
    var name := NameBytes(q.labels);
    AtConcat(buf, off, name, U16(q.qtype) + U16(q.qclass));
    QuestionRead(buf, off, q);
    WrittenNameSpells(buf, off, q.labels);
    WalkersAgree(buf, off, q.labels, 0, MAX_JUMPS);
    AtEnd(buf, off, QuestionBytes(q));
  }

  lemma {:induction false} AnswerStartBuilt(buf: bytes, off: nat, qs: seq<WireQuestion>)
    requires forall i :: 0 <= i < |qs| ==> Askable(qs[i])
    requires At(buf, off, SectionBytes(qs))
    ensures AnswerStart(buf, off, |qs|) == off + |SectionBytes(qs)|
    decreases |qs|
  {
    hide At, Askable, SkipQuestion;
    if qs != [] {
      AtConcat(buf, off, QuestionBytes(qs[0]), SectionBytes(qs[1..]));
      SkipBuiltQuestion(buf, off, qs[0]);
      AnswerStartBuilt(buf, off + |QuestionBytes(qs[0])|, qs[1..]);
    }
  }

  predicate Sized(rs: seq<DnsRecord>) {
    forall i :: 0 <= i < |rs| ==> |Rdata(rs[i])| < 0x1_0000
  }

  /** Where the TTLs of these records stand when their answers start at `off`. */
  function FieldPositions(rs: seq<DnsRecord>, off: nat): seq<nat> {
    if rs == [] then [] else [off + 6] + FieldPositions(rs[1..], off + 12 + |Rdata(rs[0])|)
  }

  lemma AnswerHead(buf: bytes, off: nat, offsets: seq<uint16>, r: DnsRecord, ttl: uint32, count: uint16, rest: bytes)
    requires At(buf, off, U16(OwnerPointer(offsets, count)) + SingleAnswer(r, ttl) + rest) && |Rdata(r)| < 0x1_0000
    ensures SkipQuestion(buf, off) == off + 6 && off + 12 + |Rdata(r)| <= |buf|
    ensures GetU16(buf, off + 10) == |Rdata(r)|
    ensures At(buf, off + 12 + |Rdata(r)|, rest)
  {
    hide Rdata, TypeNumber, U32, SkipName;
    var pointer, rdata := U16(OwnerPointer(offsets, count)), Rdata(r);
    var head := U16(TypeNumber(r.rtype)) + U16(1) + U32(ttl);
    AtConcat(buf, off, pointer + SingleAnswer(r, ttl), rest);
    AtConcat(buf, off, pointer, SingleAnswer(r, ttl));
    AtConcat(buf, off + 2, head + U16(|rdata|), rdata);
    AtConcat(buf, off + 2, head, U16(|rdata|));
    AtU16(buf, off + 10, |rdata|);
    AtIndex(buf, off, pointer, 0);
    PointerSkipped(buf, off);
  }

  lemma PointerSkipped(buf: bytes, off: nat)
    requires off + 2 <= |buf| && IsPointer(buf[off])
    ensures SkipName(buf, off) == Some(off + 2)
  {
  }

  lemma {:induction false} FieldsBuilt(buf: bytes, off: nat, offsets: seq<uint16>, rs: seq<DnsRecord>, ttl: uint32,
                                       count: uint16, k: nat)
    requires Sized(rs) && k <= |rs|
    requires At(buf, off, AnswerSection(offsets, Entries(rs, ttl), count))
    ensures TtlFields(buf, off, k) == FieldPositions(rs[..k], off)
    decreases k
  {
    hide At, Rdata, OwnerPointer, SingleAnswer, SkipQuestion, Fields, GetU16, AnswerSection, Entries;
    if k > 0 {
      var c := Next(count);
      EntriesCons(rs, ttl);
      AnswerSectionCons(offsets, SingleAnswer(rs[0], ttl), Entries(rs[1..], ttl), count);
      AnswerHead(buf, off, offsets, rs[0], ttl, count, AnswerSection(offsets, Entries(rs[1..], ttl), c));
      FieldsBuilt(buf, off + 12 + |Rdata(rs[0])|, offsets, rs[1..], ttl, c, k - 1);
      assert rs[..k][1..] == rs[1..][..k - 1];
    }
  }

  lemma PatchEntry(pre: bytes, pointer: bytes, rtype: uint16, rdata: bytes, rest: bytes, from: uint32, to: uint32)
    requires |pointer| == 2
    ensures Patch(pre + (pointer + Entry(rtype, from, rdata) + rest), |pre| + 6, U32(to))
         == pre + pointer + Entry(rtype, to, rdata) + rest
  {
    hide U16, U32;
    var left, right := U16(rtype) + U16(1), U16(|rdata| % 0x1_0000) + rdata;
    assert pre + (pointer + Entry(rtype, from, rdata) + rest) == pre + pointer + left + U32(from) + right + rest;
    assert pre + pointer + Entry(rtype, to, rdata) + rest == pre + pointer + left + U32(to) + right + rest;
  }

  /** Patching the first `k` TTL fields of an answer section. */
  lemma {:induction false} PatchBuilt(pre: bytes, offsets: seq<uint16>, rs: seq<DnsRecord>, from: uint32, to: uint32,
                                      count: uint16, k: nat)
    requires k <= |rs|
    requires var p := pre + AnswerSection(offsets, Entries(rs, from), count);
             forall i :: 0 <= i < |FieldPositions(rs[..k], |pre|)| ==> FieldPositions(rs[..k], |pre|)[i] + 4 <= |p|
    ensures PatchAll(pre + AnswerSection(offsets, Entries(rs, from), count), FieldPositions(rs[..k], |pre|), U32(to))
         == pre + AnswerSection(offsets, Entries(rs[..k], to) + Entries(rs[k..], from), count)
    decreases k
  {
    hide Rdata, OwnerPointer, TypeNumber, U16, U32, Patch, Entry, AnswerSection, Entries;
    if k == 0 {
      assert rs[0..] == rs && rs[..0] == [];
      EntriesLong([], to);
      Unit(Entries(rs, from));
    } else {
      var c, r := Next(count), rs[0];
      var entries := Entries(rs[1..], from);
      var pointer, positions := U16(OwnerPointer(offsets, count)), FieldPositions(rs[..k], |pre|);
      var pre' := pre + pointer + SingleAnswer(r, to);
      EntriesCons(rs, from);
      AnswerSectionCons(offsets, SingleAnswer(r, from), entries, count);
      PatchEntry(pre, pointer, TypeNumber(r.rtype), Rdata(r), AnswerSection(offsets, entries, c), from, to);
      assert rs[..k][1..] == rs[1..][..k - 1];
      assert positions[1..] == FieldPositions(rs[1..][..k - 1], |pre'|);
      assert forall i :: 0 <= i < |positions[1..]| ==> positions[1..][i] == positions[i + 1];
      PatchBuilt(pre', offsets, rs[1..], from, to, c, k - 1);
      var tail := Entries(rs[1..][..k - 1], to) + Entries(rs[k..], from);
      assert rs[1..][k - 1..] == rs[k..];
      EntriesCons(rs[..k], to);
      Assoc([SingleAnswer(r, to)], Entries(rs[1..][..k - 1], to), Entries(rs[k..], from));
      AnswerSectionCons(offsets, SingleAnswer(r, to), tail, count);
      Assoc(pre, pointer + SingleAnswer(r, to), AnswerSection(offsets, tail, c));
      Assoc(pre, pointer, SingleAnswer(r, to));
    }
  }

  /**
    On a built packet, rewriting the TTLs is building with the new TTL -- for the answers that the
    16-bit answer count can say, hence for all of them up to 65535.
   */
  lemma RewriteBuilt(id: uint16, flags: uint16, qs: seq<ParsedQuestion>, rs: seq<DnsRecord>, from: uint32, to: uint32)
    requires Echoable(qs) && Sized(rs)
    ensures RewriteTtl(ResponsePacket(id, flags, qs, Entries(rs, from)), to)
         == ResponsePacket(id, flags, qs, Entries(Told(rs), to) + Entries(Untold(rs), from))
    ensures |rs| < 0x1_0000 ==>
              RewriteTtl(ResponsePacket(id, flags, qs, Entries(rs, from)), to)
              == ResponsePacket(id, flags, qs, Entries(rs, to))
  {
    hide At, AnswerSection, SectionBytes, Header, ResponsePacket, Entries, U32, PatchAll, Offsets, Usable, TtlFields,
         FieldPositions, AnswerStart, WireLabels, Labels, Fields;
    var k := |rs| % 0x1_0000;
    var entries := Entries(rs, from);
    var mixed := Entries(rs[..k], to) + Entries(rs[k..], from);
    var p := ResponsePacket(id, flags, qs, entries);
    EntriesLong(rs, from);
    EntriesLong(rs[..k], to);
    EntriesLong(rs[k..], from);
    UsableAll(entries);
    UsableAll(mixed);
    PacketLayout(id, flags, qs, entries);
    PacketLayout(id, flags, qs, mixed);
    HeaderFields(p, id, flags, |qs|, k, 0, 0);
    var echoes := Echoes(qs);
    var pre := Header(id, flags, |qs|, k, 0, 0) + SectionBytes(echoes);
    AnswerStartBuilt(p, HEADER, echoes);
    FieldsBuilt(p, |pre|, Offsets(echoes, HEADER), rs, from, 0, k);
    FieldsInside(p, |pre|, k);
    PatchBuilt(pre, Offsets(echoes, HEADER), rs, from, to, 0, k);
    if |rs| < 0x1_0000 {
      assert rs[..k] == rs && rs[k..] == [];
      EntriesLong([], from);
      assert mixed == Entries(rs, to);
    }
  }

  lemma FieldsInside(buf: bytes, off: nat, k: nat)
    ensures forall i :: 0 <= i < |TtlFields(buf, off, k)| ==> TtlFields(buf, off, k)[i] + 4 <= |buf|
  {
  }

  lemma OtherTtlDiffers(r: DnsRecord, from: uint32, to: uint32)
    requires from != to
    ensures |SingleAnswer(r, from)| == |SingleAnswer(r, to)| && SingleAnswer(r, from) != SingleAnswer(r, to)
  {
    hide Rdata, TypeNumber, U16, U32;
    EntryTtl(TypeNumber(r.rtype), from, Rdata(r));
    EntryTtl(TypeNumber(r.rtype), to, Rdata(r));
  }

  lemma EntryTtl(rtype: uint16, ttl: uint32, rdata: bytes)
    ensures GetU32(Entry(rtype, ttl, rdata), 4) == ttl
  {
    hide At, GetU32, U16, U32;
    var e, tail := Entry(rtype, ttl, rdata), U16(|rdata| % 0x1_0000);
    AtWhole(e);
    AtConcat(e, 0, U16(rtype) + U16(1) + U32(ttl) + tail, rdata);
    AtConcat(e, 0, U16(rtype) + U16(1) + U32(ttl), tail);
    AtConcat(e, 0, U16(rtype) + U16(1), U32(ttl));
    AtU32(e, 4, ttl);
  }

  lemma {:induction false} OneAnswerDiffers(offsets: seq<uint16>, a: seq<bytes>, b: seq<bytes>, count: uint16, i: nat)
    requires i < |a| && i < |b| && a[..i] == b[..i] && |a[i]| == |b[i]| && a[i] != b[i]
    ensures AnswerSection(offsets, a, count) != AnswerSection(offsets, b, count)
    decreases i
  {
    hide U16, OwnerPointer;
    var pointer := U16(OwnerPointer(offsets, count));
    var more, more' := AnswerSection(offsets, a[1..], Next(count)), AnswerSection(offsets, b[1..], Next(count));
    if i == 0 {
      Behind(pointer, a[0], more);
      Behind(pointer, b[0], more');
    } else {
      assert a[0] == a[..i][0] == b[..i][0] == b[0];
      assert a[1..][..i - 1] == a[..i][1..] && b[1..][..i - 1] == b[..i][1..];
      OneAnswerDiffers(offsets, a[1..], b[1..], Next(count), i - 1);
      Behind(pointer, a[0], more);
      Behind(pointer, a[0], more');
    }
  }

  lemma Behind(x: bytes, y: bytes, z: bytes)
    ensures (x + y + z)[|x|..|x| + |y|] == y && (x + y + z)[|x| + |y|..] == z
  {
  }

  /** The bound is exact: rewriting to another TTL is building with it if and only if the count can say all answers. */
  lemma RewriteBuiltExact(id: uint16, flags: uint16, qs: seq<ParsedQuestion>, rs: seq<DnsRecord>, from: uint32,
                          to: uint32)
    requires Echoable(qs) && Sized(rs) && from != to
    ensures RewriteTtl(ResponsePacket(id, flags, qs, Entries(rs, from)), to)
            == ResponsePacket(id, flags, qs, Entries(rs, to))
            <==> |rs| < 0x1_0000
  {
    hide RewriteTtl, ResponsePacket, Entries, AnswerSection, SectionBytes, Header, Offsets, SingleAnswer, At, Usable,
         Echoable, Sized;
    RewriteBuilt(id, flags, qs, rs, from, to);
    if |rs| >= 0x1_0000 {
      var k := |rs| % 0x1_0000;
      var kept, wanted := Entries(rs[..k], to) + Entries(rs[k..], from), Entries(rs[..k], to) + Entries(rs[k..], to);
      EntriesConcat(rs[..k], rs[k..], to);
      assert rs[..k] + rs[k..] == rs;
      FirstUntold(rs, k, from, to);
      SameBefore(Entries(rs[..k], to), Entries(rs[k..], from), Entries(rs[k..], to));
      OneAnswerDiffers(Offsets(Echoes(qs), HEADER), kept, wanted, 0, k);
      PacketsDiffer(id, flags, qs, kept, wanted);
    }
  }

  lemma FirstUntold(rs: seq<DnsRecord>, k: nat, from: uint32, to: uint32)
    requires k < |rs| && from != to
    ensures var told, kept, wanted := Entries(rs[..k], to), Entries(rs[k..], from), Entries(rs[k..], to);
            && |told| == k && |kept| == |wanted| == |rs| - k
            && |kept[0]| == |wanted[0]| && kept[0] != wanted[0]
            && (forall i :: 0 <= i < k ==> |told[i]| >= 10)
            && (forall i :: 0 <= i < |kept| ==> |kept[i]| >= 10 && |wanted[i]| >= 10)
  {
    hide Entries, SingleAnswer;
    EntriesLong(rs[..k], to);
    EntriesLong(rs[k..], from);
    EntriesLong(rs[k..], to);
    EntriesCons(rs[k..], from);
    EntriesCons(rs[k..], to);
    OtherTtlDiffers(rs[k], from, to);
  }

  lemma SameBefore(told: seq<bytes>, kept: seq<bytes>, wanted: seq<bytes>)
    requires |kept| == |wanted| > 0
    ensures var k := |told|;
            (told + kept)[..k] == (told + wanted)[..k] && (told + kept)[k] == kept[0] && (told + wanted)[k] == wanted[0]
  {
  }

  lemma PacketsDiffer(id: uint16, flags: uint16, qs: seq<ParsedQuestion>, a: seq<bytes>, b: seq<bytes>)
    requires |a| == |b| && forall i :: 0 <= i < |a| ==> |a[i]| >= 10 && |b[i]| >= 10
    requires AnswerSection(Offsets(Echoes(qs), HEADER), a, 0) != AnswerSection(Offsets(Echoes(qs), HEADER), b, 0)
    ensures ResponsePacket(id, flags, qs, a) != ResponsePacket(id, flags, qs, b)
  {
    hide ResponsePacket, AnswerSection, SectionBytes, Header, Offsets, At, Usable;
    UsableAll(a);
    UsableAll(b);
    PacketLayout(id, flags, qs, a);
    PacketLayout(id, flags, qs, b);
    var head, section := Header(id, flags, |qs| % 0x1_0000, |a| % 0x1_0000, 0, 0), SectionBytes(Echoes(qs));
    Behind(head, section, AnswerSection(Offsets(Echoes(qs), HEADER), a, 0));
    Behind(head, section, AnswerSection(Offsets(Echoes(qs), HEADER), b, 0));
  }
}
