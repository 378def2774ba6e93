/** TTL rewriting inside a finished packet: `skipQuestionSection` and `rewriteResponseTtl` (pkg/dns/cache.go). */
module Ttl {
  import opened Bytes
  import opened Wire
  import opened Questions

  /** The end of the name at `off`; labels of any length are stepped over, pointers are not followed. */
  function SkipName(buf: bytes, off: nat): (r: Option<nat>)
    ensures r.Some? ==> off <= r.value
    decreases |buf| - off
  {
    if off >= |buf| then Some(off)
    else
      var len := buf[off];
      if len == 0 then Some(off + 1)
      else if IsPointer(len) then (if off + 1 >= |buf| then None else Some(off + 2))
      else if off + 1 + len > |buf| then None
      else SkipName(buf, off + 1 + len)
  }

  /** Past a name, a type and a class; `off` itself when they do not fit. */
  function SkipQuestion(buf: bytes, off: nat): (r: nat)
    ensures r == off || off + 4 <= r <= |buf|
  {
    match SkipName(buf, off)
    case None => off
    case Some(o) => if o + 4 > |buf| then off else o + 4
  }

  function AnswerStart(buf: bytes, off: nat, qdcount: nat): (r: nat)
    ensures off <= r
    decreases qdcount
  {
    if qdcount == 0 || SkipQuestion(buf, off) == off then off
    else AnswerStart(buf, SkipQuestion(buf, off), qdcount - 1)
  }

  ghost predicate Fields(buf: bytes, off: nat, fields: seq<nat>) {
    && (forall k :: 0 <= k < |fields| ==> off + 4 <= fields[k] && fields[k] + 4 <= |buf|)
    && (forall k, l :: 0 <= k < l < |fields| ==> fields[k] + 6 <= fields[l])
  }

  /** The offsets of the TTL fields of up to `ancount` answers from `off` on. */
  function TtlFields(buf: bytes, off: nat, ancount: nat): (r: seq<nat>)
    ensures Fields(buf, off, r)
    decreases ancount
  {
    if ancount == 0 || off >= |buf| then []
    else
      var t := SkipQuestion(buf, off);
      if t == off || t + 4 > |buf| then []
      else if t + 6 > |buf| then [t]
      else [t] + TtlFields(buf, t + 6 + GetU16(buf, t + 4), ancount - 1)
  }

  /** The walk, one answer at a time. */
  lemma TtlFieldsStep(buf: bytes, off: nat, ancount: nat)
    requires ancount > 0 && off < |buf|
    ensures var t := SkipQuestion(buf, off);
            var fields := TtlFields(buf, off, ancount);
            if t == off || t + 4 > |buf| then fields == []
            else if t + 6 > |buf| then fields == [t]
            else fields == [t] + TtlFields(buf, t + 6 + GetU16(buf, t + 4), ancount - 1)
  {
  }

  lemma NoTtlFields(buf: bytes, off: nat, ancount: nat)
    requires ancount == 0 || off >= |buf|
    ensures TtlFields(buf, off, ancount) == []
  {
  }

  function TtlFieldsOf(response: bytes): (r: seq<nat>)
    requires |response| >= HEADER
    ensures Fields(response, HEADER, r)
  {
    TtlFields(response, AnswerStart(response, HEADER, GetU16(response, 4)), GetU16(response, 6))
  }

  function PatchAll(buf: bytes, fields: seq<nat>, data: bytes): (r: bytes)
    requires forall k :: 0 <= k < |fields| ==> fields[k] + |data| <= |buf|
    ensures |r| == |buf|
    decreases |fields|
  {
    if fields == [] then buf else PatchAll(Patch(buf, fields[0], data), fields[1..], data)
  }

  function RewriteTtl(response: bytes, ttl: uint32): (r: bytes)
    ensures |r| == |response|
  {
    if |response| < HEADER then response else PatchAll(response, TtlFieldsOf(response), U32(ttl))
  }

  method SkipQuestionSection(buffer: bytes, start: nat) returns (r: nat)
    ensures r == SkipQuestion(buffer, start)
  {
    var offset := start;
    while offset < |buffer|
      invariant SkipName(buffer, offset) == SkipName(buffer, start)
    {
      var length := buffer[offset];
      if length == 0 {
        offset := offset + 1;
        assert SkipName(buffer, start) == Some(offset);
        break;
      }
      if IsPointer(length) {
        if offset + 1 >= |buffer| {
          return start;
        }
        offset := offset + 2;
        break;
      }
      if offset + 1 + length > |buffer| {
        return start;
      }
      offset := offset + 1 + length;
    }
    assert SkipName(buffer, start) == Some(offset);
    if offset + 4 > |buffer| {
      return start;
    }
    return offset + 4;
  }

  method SkipQuestions(response: bytes, qdcount: nat) returns (offset: nat)
    ensures offset == AnswerStart(response, HEADER, qdcount)
  {
    hide SkipQuestion;
    offset := HEADER;
    for i := 0 to qdcount
      invariant AnswerStart(response, offset, qdcount - i) == AnswerStart(response, HEADER, qdcount)
    {
      var nextOffset := SkipQuestionSection(response, offset);
      if nextOffset == offset {
        break;
      }
      offset := nextOffset;
    }
  }

  method PatchAnswers(response: bytes, start: nat, ancount: nat, newTtl: uint32) returns (result: bytes)
    ensures result == PatchAll(response, TtlFields(response, start, ancount), U32(newTtl))
  {
    hide SkipQuestion, U32, Patch;
    result := response;
    var offset: nat := start;
    for i := 0 to ancount
      invariant |result| == |response|
      invariant PatchAll(result, TtlFields(response, offset, ancount - i), U32(newTtl))
             == PatchAll(response, TtlFields(response, start, ancount), U32(newTtl))
    {
      if offset >= |response| {
        break;
      }
      ghost var fields := TtlFields(response, offset, ancount - i);
      var ttlOffset := SkipQuestionSection(response, offset);
      if ttlOffset == offset || ttlOffset + 4 > |response| {
        break;
      }
      assert fields != [] && fields[0] == ttlOffset;
      result := Patch(result, ttlOffset, U32(newTtl));
      var rdLengthOffset := ttlOffset + 4;
      if rdLengthOffset + 2 > |response| {
        assert fields[1..] == [];
        break;
      }
      var rdlength := GetU16(response, rdLengthOffset);
      offset := rdLengthOffset + 2 + rdlength;
      assert fields[1..] == TtlFields(response, offset, ancount - i - 1);
    }
  }

  method RewriteResponseTtl(response: bytes, newTtl: uint32) returns (rewritten: bytes)
    ensures rewritten == RewriteTtl(response, newTtl)
  {
    if |response| < HEADER {
      return response;
    }
    var offset := SkipQuestions(response, GetU16(response, 4));
    rewritten := PatchAnswers(response, offset, GetU16(response, 6), newTtl);
  }

  ghost predicate Covered(fields: seq<nat>, i: int) {
    exists k :: 0 <= k < |fields| && fields[k] <= i < fields[k] + 4
  }

  /** The buffers agree from `from` to the end, except inside the four octets of the given fields. */
  ghost predicate SameBut(buf: bytes, buf': bytes, from: nat, fields: seq<nat>) {
    |buf| == |buf'| && forall i :: from <= i < |buf| && !Covered(fields, i) ==> buf[i] == buf'[i]
  }

  lemma CoveredTail(fields: seq<nat>, i: int)
    requires fields != []
    ensures Covered(fields, i) <==> fields[0] <= i < fields[0] + 4 || Covered(fields[1..], i)
  {
    var rest := fields[1..];
    if Covered(rest, i) {
      var k :| 0 <= k < |rest| && rest[k] <= i < rest[k] + 4;
      assert fields[k + 1] <= i < fields[k + 1] + 4;
    }
    if Covered(fields, i) && !(fields[0] <= i < fields[0] + 4) {
      var k :| 0 <= k < |fields| && fields[k] <= i < fields[k] + 4;
      assert rest[k - 1] <= i < rest[k - 1] + 4;
    }
  }

  lemma {:induction false} PatchAllOutside(buf: bytes, fields: seq<nat>, data: bytes, i: nat)
    requires Fields(buf, 0, fields) && |data| == 4 && i < |buf| && !Covered(fields, i)
    ensures PatchAll(buf, fields, data)[i] == buf[i]
    decreases |fields|
  {
    hide Covered;
    if fields != [] {
      CoveredTail(fields, i);
      PatchAllOutside(Patch(buf, fields[0], data), fields[1..], data, i);
    }
  }

  lemma {:induction false} PatchAllInside(buf: bytes, fields: seq<nat>, data: bytes, k: nat, j: nat)
    requires Fields(buf, 0, fields) && |data| == 4 && k < |fields| && j < 4
    ensures PatchAll(buf, fields, data)[fields[k] + j] == data[j]
    decreases |fields|
  {
    var once, rest := Patch(buf, fields[0], data), fields[1..];
    if k == 0 {
      PatchAllOutside(once, rest, data, fields[0] + j);
    } else {
      PatchAllInside(once, rest, data, k - 1, j);
    }
  }

  lemma PatchTwice(buf: bytes, fields: seq<nat>, first: bytes, second: bytes)
    requires Fields(buf, 0, fields) && |first| == |second| == 4
    ensures PatchAll(PatchAll(buf, fields, first), fields, second) == PatchAll(buf, fields, second)
  {
    hide PatchAll;
    var once := PatchAll(buf, fields, first);
    forall i | 0 <= i < |buf|
      ensures PatchAll(once, fields, second)[i] == PatchAll(buf, fields, second)[i]
    {
      if Covered(fields, i) {
        var k :| 0 <= k < |fields| && fields[k] <= i < fields[k] + 4;
        PatchAllInside(once, fields, second, k, i - fields[k]);
        PatchAllInside(buf, fields, second, k, i - fields[k]);
      } else {
        PatchAllOutside(buf, fields, first, i);
        PatchAllOutside(once, fields, second, i);
        PatchAllOutside(buf, fields, second, i);
      }
    }
  }

  /** The name walk looks at nothing outside what it steps over. */
  lemma {:induction false} SkipLocal(buf: bytes, buf': bytes, off: nat, end: nat)
    requires |buf| == |buf'| && end <= |buf| && forall i :: off <= i < end ==> buf[i] == buf'[i]
    requires end == |buf| || (SkipName(buf, off).Some? && SkipName(buf, off).value <= end)
    ensures SkipName(buf', off) == SkipName(buf, off)
    decreases |buf| - off
  {
    if off < |buf| && buf[off] != 0 && !IsPointer(buf[off]) && off + 1 + buf[off] <= |buf| {
      SkipLocal(buf, buf', off + 1 + buf[off], end);
    }
  }

  lemma SkipQuestionLocal(buf: bytes, buf': bytes, off: nat)
    requires |buf| == |buf'|
    requires var t := SkipQuestion(buf, off);
             forall i :: off <= i < (if t == off then |buf| else t) ==> buf[i] == buf'[i]
    ensures SkipQuestion(buf', off) == SkipQuestion(buf, off)
  {
    var t := SkipQuestion(buf, off);
    SkipLocal(buf, buf', off, if t == off then |buf| else t - 4);
  }

  lemma Uncovered(buf: bytes, off: nat, fields: seq<nat>, i: nat)
    requires Fields(buf, off, fields)
    requires fields != [] ==> i < fields[0] || fields[0] + 4 <= i < fields[0] + 6
    ensures !Covered(fields, i)
  {
  }

  lemma SameLength(buf: bytes, buf': bytes, from: nat, fields: seq<nat>)
    requires SameBut(buf, buf', from, fields)
    ensures |buf| == |buf'|
  {
  }

  lemma SameAt(buf: bytes, buf': bytes, from: nat, fields: seq<nat>, i: nat)
    requires SameBut(buf, buf', from, fields) && from <= i < |buf| && !Covered(fields, i)
    ensures i < |buf'| && buf[i] == buf'[i]
  {
  }

  /** The walk takes the same step in two buffers that differ in TTL fields only. */
  lemma SameStep(buf: bytes, buf': bytes, off: nat, fields: seq<nat>)
    requires Fields(buf, off, fields) && SameBut(buf, buf', off, fields) && off < |buf|
    requires fields != [] ==> fields[0] == SkipQuestion(buf, off)
    ensures SkipQuestion(buf', off) == SkipQuestion(buf, off)
    ensures fields != [] && fields[0] + 6 <= |buf| ==> GetU16(buf', fields[0] + 4) == GetU16(buf, fields[0] + 4)
  {
    hide Covered, SkipQuestion, SameBut;
    SameLength(buf, buf', off, fields);
    forall i | off <= i < |buf| && (fields == [] || i < fields[0])
      ensures buf[i] == buf'[i]
    {
      Uncovered(buf, off, fields, i);
      SameAt(buf, buf', off, fields, i);
    }
    SkipQuestionLocal(buf, buf', off);
    if fields != [] && fields[0] + 6 <= |buf| {
      Uncovered(buf, off, fields, fields[0] + 4);
      Uncovered(buf, off, fields, fields[0] + 5);
      SameAt(buf, buf', off, fields, fields[0] + 4);
      SameAt(buf, buf', off, fields, fields[0] + 5);
    }
  }

  lemma {:induction false} FieldsStable(buf: bytes, buf': bytes, off: nat, ancount: nat)
    requires SameBut(buf, buf', off, TtlFields(buf, off, ancount))
    ensures TtlFields(buf', off, ancount) == TtlFields(buf, off, ancount)
    decreases ancount
  {
    hide Covered, SkipQuestion, Fields, SameBut, TtlFields, GetU16;
    var fields := TtlFields(buf, off, ancount);
    SameLength(buf, buf', off, fields);
    if ancount == 0 || off >= |buf| {
      NoTtlFields(buf, off, ancount);
      NoTtlFields(buf', off, ancount);
    } else {
      var t := SkipQuestion(buf, off);
      TtlFieldsStep(buf, off, ancount);
      TtlFieldsStep(buf', off, ancount);
      SameStep(buf, buf', off, fields);
      if t != off && t + 6 <= |buf| {
        var next := t + 6 + GetU16(buf, t + 4);
        SameRest(buf, buf', off, t, TtlFields(buf, next, ancount - 1), next);
        FieldsStable(buf, buf', next, ancount - 1);
      }
    }
  }

  lemma SameRest(buf: bytes, buf': bytes, from: nat, t: nat, rest: seq<nat>, next: nat)
    requires SameBut(buf, buf', from, [t] + rest) && from <= next && t + 4 <= next
    ensures SameBut(buf, buf', next, rest)
  {
    hide Covered;
    assert ([t] + rest)[1..] == rest;
    forall i | next <= i < |buf| && !Covered(rest, i)
      ensures buf[i] == buf'[i]
    {
      CoveredTail([t] + rest, i);
    }
  }

  lemma {:induction false} AnswerStartStable(buf: bytes, buf': bytes, off: nat, qdcount: nat)
    requires |buf| == |buf'|
    requires AnswerStart(buf, off, qdcount) <= |buf|
    requires forall i :: off <= i < AnswerStart(buf, off, qdcount) ==> buf[i] == buf'[i]
    requires SkipQuestion(buf, AnswerStart(buf, off, qdcount)) != AnswerStart(buf, off, qdcount)
    ensures AnswerStart(buf', off, qdcount) == AnswerStart(buf, off, qdcount)
    decreases qdcount
  {
    if qdcount > 0 {
      var next := SkipQuestion(buf, off);
      SkipQuestionLocal(buf, buf', off);
      AnswerStartStable(buf, buf', next, qdcount - 1);
    }
  }

  /** Rewriting leaves the header alone and does not move the TTL fields: the walk never reads what it wrote. */
  lemma RewriteKeepsShape(response: bytes, ttl: uint32)
    requires |response| >= HEADER
    ensures RewriteTtl(response, ttl)[..HEADER] == response[..HEADER]
    ensures TtlFieldsOf(RewriteTtl(response, ttl)) == TtlFieldsOf(response)
  {
    hide PatchAll, U32, SkipQuestion;
    var fields := TtlFieldsOf(response);
    var rewritten := RewriteTtl(response, ttl);
    forall i | 0 <= i < |response| && !Covered(fields, i)
      ensures rewritten[i] == response[i]
    {
      PatchAllOutside(response, fields, U32(ttl), i);
    }
    assert forall i :: 0 <= i < HEADER ==> !Covered(fields, i);
    if fields != [] {
      var start := AnswerStart(response, HEADER, GetU16(response, 4));
      assert forall i :: HEADER <= i < start ==> !Covered(fields, i);
      AnswerStartStable(response, rewritten, HEADER, GetU16(response, 4));
      FieldsStable(response, rewritten, start, GetU16(response, 6));
    } else {
      assert forall i :: 0 <= i < |response| ==> !Covered(fields, i);
      assert rewritten == response;
    }
  }

  /**
    On every byte string: the length and the header stay, and a second rewriting overrides the
    first completely.
   */
  lemma RewriteTwice(response: bytes, first: uint32, second: uint32)
    ensures RewriteTtl(RewriteTtl(response, first), second) == RewriteTtl(response, second)
  {
    hide PatchAll, U32, TtlFieldsOf;
    if |response| >= HEADER {
      RewriteKeepsShape(response, first);
      PatchTwice(response, TtlFieldsOf(response), U32(first), U32(second));
    }
  }

  lemma {:induction false} SameAnswerStart(buf: bytes, buf': bytes, off: nat, qdcount: nat)
    requires |buf| == |buf'| && forall i :: off <= i < |buf| ==> buf[i] == buf'[i]
    ensures AnswerStart(buf', off, qdcount) == AnswerStart(buf, off, qdcount)
    decreases qdcount
  {
    hide SkipQuestion;
    SkipQuestionLocal(buf, buf', off);
    if qdcount > 0 {
      SameAnswerStart(buf, buf', SkipQuestion(buf, off), qdcount - 1);
    }
  }

  lemma SameFields(buf: bytes, buf': bytes, off: nat, ancount: nat)
    requires |buf| == |buf'| && forall i :: off <= i < |buf| ==> buf[i] == buf'[i]
    ensures TtlFields(buf', off, ancount) == TtlFields(buf, off, ancount)
  {
    hide TtlFields;
    FieldsStable(buf, buf', off, ancount);
  }

  lemma SamePatch(buf: bytes, buf': bytes, fields: seq<nat>, data: bytes, i: nat)
    requires |buf| == |buf'| && Fields(buf, 0, fields) && Fields(buf', 0, fields) && |data| == 4
    requires i < |buf| && buf[i] == buf'[i]
    ensures PatchAll(buf, fields, data)[i] == PatchAll(buf', fields, data)[i]
  {
    hide PatchAll;
    if Covered(fields, i) {
      var k :| 0 <= k < |fields| && fields[k] <= i < fields[k] + 4;
      PatchAllInside(buf, fields, data, k, i - fields[k]);
      PatchAllInside(buf', fields, data, k, i - fields[k]);
    } else {
      PatchAllOutside(buf, fields, data, i);
      PatchAllOutside(buf', fields, data, i);
    }
  }
}
