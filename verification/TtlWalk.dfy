/** Which octets TTL rewriting changes, on every byte string. */
module TtlWalk {
  import opened Bytes
  import opened Wire
  import opened Questions
  import opened Ttl

  /** Labels of any length from `off` on, up to a root octet or a pointer that ends before `end`. */
  ghost predicate NameSpan(buf: bytes, off: nat, end: nat)
    decreases |buf| - off
  {
    off < |buf| &&
    if buf[off] == 0 then end == off + 1
    else if buf[off] >= 0xC0 then off + 1 < |buf| && end == off + 2
    else off + 1 + buf[off] <= |buf| && NameSpan(buf, off + 1 + buf[off], end)
  }

  /** A name, a type and a class, from `off` up to `end`. */
  ghost predicate HeadSpan(buf: bytes, off: nat, end: nat) {
    end >= 4 && NameSpan(buf, off, end - 4) && end <= |buf|
  }

  lemma {:induction false} NameSkipped(buf: bytes, off: nat, end: nat)
    requires off <= |buf|
    ensures NameSpan(buf, off, end) ==> SkipName(buf, off) == Some(end) && off < end
    ensures SkipName(buf, off) == Some(end) && end < |buf| ==> NameSpan(buf, off, end)
    decreases |buf| - off
  {
    if off < |buf| && buf[off] != 0 && buf[off] < 0xC0 && off + 1 + buf[off] <= |buf| {
      NameSkipped(buf, off + 1 + buf[off], end);
    }
  }

  /** The walker moves over a head if there is one, and else stays. */
  lemma HeadSkipped(buf: bytes, off: nat)
    ensures HeadSpan(buf, off, SkipQuestion(buf, off)) <==> SkipQuestion(buf, off) != off
    ensures forall end :: HeadSpan(buf, off, end) ==> SkipQuestion(buf, off) == end
  {
    if off <= |buf| {
      forall end: nat
        ensures NameSpan(buf, off, end) ==> SkipName(buf, off) == Some(end) && off < end
        ensures SkipName(buf, off) == Some(end) && end < |buf| ==> NameSpan(buf, off, end)
      {
        NameSkipped(buf, off, end);
      }
    }
  }

  /** `n` heads lead from `off` to `to`. */
  ghost predicate Heads(buf: bytes, off: nat, n: nat, to: nat)
    decreases n
  {
    if n == 0 then to == off else exists end: nat :: HeadSpan(buf, off, end) && Heads(buf, end, n - 1, to)
  }

  /** `n` whole answers lead from `off` to `to`: a head, a TTL, a length and as many octets as it says. */
  ghost predicate Answers(buf: bytes, off: nat, n: nat, to: nat)
    decreases n
  {
    if n == 0 then to == off
    else exists t: nat :: HeadSpan(buf, off, t) && t + 6 <= |buf| && Answers(buf, t + 6 + GetU16(buf, t + 4), n - 1, to)
  }

  /** The answers are looked for behind all questions, or behind the last before one that has no head. */
  lemma {:induction false} StartExactly(buf: bytes, off: nat, count: nat) returns (n: nat)
    ensures n <= count && Heads(buf, off, n, AnswerStart(buf, off, count))
    ensures n == count || forall end :: !HeadSpan(buf, AnswerStart(buf, off, count), end)
    decreases count
  {
    hide HeadSpan, SkipQuestion;
    HeadSkipped(buf, off);
    if count == 0 || SkipQuestion(buf, off) == off {
      n := 0;
    } else {
      n := StartExactly(buf, SkipQuestion(buf, off), count - 1);
      n := n + 1;
    }
  }

  /** At `t` stands the TTL field of one of the first `count` answers from `off` on. */
  ghost predicate TtlAt(buf: bytes, off: nat, count: nat, t: nat) {
    t + 4 <= |buf| && exists n: nat, o :: n < count && Answers(buf, off, n, o) && HeadSpan(buf, o, t)
  }

  lemma TtlAtFirst(buf: bytes, off: nat, count: nat, t: nat)
    requires count > 0 && HeadSpan(buf, off, t) && t + 4 <= |buf|
    ensures TtlAt(buf, off, count, t)
  {
    assert Answers(buf, off, 0, off);
  }

  lemma TtlAtLater(buf: bytes, off: nat, count: nat, t: nat, u: nat)
    requires count > 0 && HeadSpan(buf, off, t) && t + 6 <= |buf|
    requires TtlAt(buf, t + 6 + GetU16(buf, t + 4), count - 1, u)
    ensures TtlAt(buf, off, count, u)
  {
    hide HeadSpan, GetU16;
    var n: nat, o :| n < count - 1 && Answers(buf, t + 6 + GetU16(buf, t + 4), n, o) && HeadSpan(buf, o, u);
    assert Answers(buf, off, n + 1, o);
  }

  lemma TtlAtSplit(buf: bytes, off: nat, count: nat, u: nat)
    requires count > 0 && TtlAt(buf, off, count, u)
    ensures || HeadSpan(buf, off, u)
            || exists t: nat :: && HeadSpan(buf, off, t) && t + 6 <= |buf|
                                && TtlAt(buf, t + 6 + GetU16(buf, t + 4), count - 1, u)
  {
    hide HeadSpan, GetU16;
    var n: nat, o :| n < count && Answers(buf, off, n, o) && HeadSpan(buf, o, u);
    if n > 0 {
      var t: nat :| HeadSpan(buf, off, t) && t + 6 <= |buf| && Answers(buf, t + 6 + GetU16(buf, t + 4), n - 1, o);
      assert TtlAt(buf, t + 6 + GetU16(buf, t + 4), count - 1, u);
    }
  }

  /** The fields that are patched are exactly the TTL fields of the answers that can be reached. */
  lemma {:induction false} FieldsExactly(buf: bytes, off: nat, count: nat, u: nat)
    ensures u in TtlFields(buf, off, count) <==> TtlAt(buf, off, count, u)
    decreases count
  {
    hide HeadSpan, SkipQuestion, GetU16, TtlAt, Fields;
    var t := SkipQuestion(buf, off);
    HeadSkipped(buf, off);
    NoTtlBeyond(buf, off, count, u);
    if count > 0 && t != off && off < |buf| {
      if TtlAt(buf, off, count, u) {
        TtlAtSplit(buf, off, count, u);
      }
      if u == t && t + 4 <= |buf| {
        TtlAtFirst(buf, off, count, t);
      }
      if t + 6 <= |buf| {
        var next := t + 6 + GetU16(buf, t + 4);
        FieldsExactly(buf, next, count - 1, u);
        if TtlAt(buf, next, count - 1, u) {
          TtlAtLater(buf, off, count, t, u);
        }
      }
    }
  }

  lemma NoTtlBeyond(buf: bytes, off: nat, count: nat, u: nat)
    ensures TtlAt(buf, off, count, u) ==> count > 0 && u + 4 <= |buf| && off < |buf| && SkipQuestion(buf, off) != off
  {
    hide SkipQuestion, GetU16;
    HeadSkipped(buf, off);
    if TtlAt(buf, off, count, u) {
      TtlAtSplit(buf, off, count, u);
      var t: nat :| HeadSpan(buf, off, t);
    }
  }

  /** Octet `p` belongs to the TTL field at `t` of an announced answer. */
  ghost predicate InTtl(response: bytes, t: nat, p: nat)
    requires |response| >= HEADER
  {
    && TtlAt(response, AnswerStart(response, HEADER, GetU16(response, 4)), GetU16(response, 6), t)
    && t <= p < t + 4
  }

  lemma InField(response: bytes, t: nat)
    requires |response| >= HEADER
    ensures t in TtlFieldsOf(response) <==> InTtl(response, t, t)
  {
    hide AnswerStart, TtlAt, GetU16, TtlFields;
    FieldsExactly(response, AnswerStart(response, HEADER, GetU16(response, 4)), GetU16(response, 6), t);
  }

  /**
    Rewriting, octet by octet, on every byte string with a header: the octets of the TTL fields of
    the announced answers that can be reached become those of the new TTL, and no other changes.
   */
  lemma RewriteExactly(response: bytes, ttl: uint32, p: nat)
    requires |response| >= HEADER && p < |response|
    ensures forall t: nat :: InTtl(response, t, p) ==> RewriteTtl(response, ttl)[p] == U32(ttl)[p - t]
    ensures (forall t: nat :: !InTtl(response, t, p)) ==> RewriteTtl(response, ttl)[p] == response[p]
  {
    hide AnswerStart, TtlAt, GetU16, PatchAll, TtlFieldsOf, U32;
    var fields := TtlFieldsOf(response);
    forall t: nat | InTtl(response, t, p)
      ensures RewriteTtl(response, ttl)[p] == U32(ttl)[p - t]
    {
      InField(response, t);
      var k :| 0 <= k < |fields| && fields[k] == t;
      PatchAllInside(response, fields, U32(ttl), k, p - t);
    }
    forall k | 0 <= k < |fields|
      ensures InTtl(response, fields[k], fields[k])
    {
      InField(response, fields[k]);
    }
    if !Covered(fields, p) {
      PatchAllOutside(response, fields, U32(ttl), p);
    } else {
      var k :| 0 <= k < |fields| && fields[k] <= p < fields[k] + 4;
      assert InTtl(response, fields[k], p);
    }
  }
}
