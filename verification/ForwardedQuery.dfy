/** A forwarded query still asks what the client asked. */
module ForwardedQuery {
  import opened Bytes
  import opened Names
  import opened Wire
  import opened WireFormat
  import opened Questions
  import opened Response
  import opened Messages
  import opened CaseRewrite

  /** No pointer that the reader follows from `off` has a second octet that randomisation may change. */
  predicate SteadyPointers(query: bytes, off: nat, jumps: nat)
    decreases jumps, |query| - off
  {
    if StopsAt(query, off, jumps) then true
    else if IsPointer(query[off]) then
      !Recased(query, off + 1) && SteadyPointers(query, PointerTarget(query[off], query[off + 1]), jumps - 1)
    else SteadyPointers(query, off + 1 + query[off], jumps)
  }

  ghost predicate SameUpToCase(a: seq<bytes>, b: seq<bytes>) {
    |a| == |b| && forall i :: 0 <= i < |a| ==> Lower(a[i]) == Lower(b[i])
  }

  /** A letter is no usable length octet, so case never moves the reader -- but for pointers. */
  lemma VariantStep(buf: bytes, buf': bytes, off: nat, jumps: nat)
    requires Recasing(buf, buf')
    ensures StopsAt(buf', off, jumps) == StopsAt(buf, off, jumps)
    ensures !StopsAt(buf, off, jumps) ==> buf'[off] == buf[off]
    ensures !StopsAt(buf, off, jumps) && IsPointer(buf[off]) && !Recased(buf, off + 1) ==> buf'[off + 1] == buf[off + 1]
  {
    hide Recased;
  }

  lemma SliceUpToCase(buf: bytes, buf': bytes, lo: nat, hi: nat)
    requires Recasing(buf, buf') && lo <= hi <= |buf|
    ensures Lower(buf[lo..hi]) == Lower(buf'[lo..hi])
  {
    assert forall i :: 0 <= i < hi - lo ==> buf[lo..hi][i] == buf[lo + i] && buf'[lo..hi][i] == buf'[lo + i];
  }

  lemma UpToCaseCons(x: bytes, y: bytes, a: seq<bytes>, b: seq<bytes>)
    requires Lower(x) == Lower(y) && SameUpToCase(a, b)
    ensures SameUpToCase([x] + a, [y] + b)
  {
  }

  lemma {:induction false} NameUpToCase(buf: bytes, buf': bytes, off: nat, jumps: nat)
    requires Recasing(buf, buf') && SteadyPointers(buf, off, jumps)
    ensures SameUpToCase(DecodeName(buf', off, jumps).labels, DecodeName(buf, off, jumps).labels)
    decreases jumps, |buf| - off
  {
    hide DecodeName, Recasing, Recased, SameUpToCase, StopsAt, Lower, WireLabels;
    SameSize(buf, buf');
    DecodeStep(buf, off, jumps);
    DecodeStep(buf', off, jumps);
    VariantStep(buf, buf', off, jumps);
    Stops(buf, off, jumps);
    if StopsAt(buf, off, jumps) {
      UpToCaseNone();
    } else if IsPointer(buf[off]) {
      NameUpToCase(buf, buf', PointerTarget(buf[off], buf[off + 1]), jumps - 1);
    } else {
      var next := off + 1 + buf[off];
      NameUpToCase(buf, buf', next, jumps);
      SliceUpToCase(buf, buf', off + 1, next);
      UpToCaseCons(buf'[off + 1..next], buf[off + 1..next],
                   DecodeName(buf', next, jumps).labels, DecodeName(buf, next, jumps).labels);
    }
  }

  lemma SameSize(buf: bytes, buf': bytes)
    requires Recasing(buf, buf')
    ensures |buf| == |buf'|
  {
  }

  lemma Stops(buf: bytes, off: nat, jumps: nat)
    ensures !StopsAt(buf, off, jumps) ==>
              && off < |buf|
              && (IsPointer(buf[off]) ==> jumps > 0 && off + 1 < |buf|)
              && (!IsPointer(buf[off]) ==> 0 < buf[off] <= 63 && off + 1 + buf[off] <= |buf|)
  {
  }

  lemma UpToCaseNone()
    ensures SameUpToCase([], [])
  {
  }

  /** Where the reader goes on after a name does not depend on case at all. */
  lemma {:induction false} NextUpToCase(buf: bytes, buf': bytes, off: nat, jumps: nat)
    requires Recasing(buf, buf')
    ensures DecodeName(buf', off, jumps).next == DecodeName(buf, off, jumps).next
    decreases |buf| - off
  {
    hide DecodeName, Recasing, Recased, StopsAt, WireLabels;
    SameSize(buf, buf');
    DecodeStep(buf, off, jumps);
    DecodeStep(buf', off, jumps);
    VariantStep(buf, buf', off, jumps);
    Stops(buf, off, jumps);
    if !StopsAt(buf, off, jumps) && !IsPointer(buf[off]) {
      NextUpToCase(buf, buf', off + 1 + buf[off], jumps);
    }
  }

  /** Every question from `off` on is read through steady pointers only. */
  predicate SteadyQuestions(query: bytes, off: nat, n: nat)
    decreases n
  {
    n > 0 ==>
      && SteadyPointers(query, off, MAX_JUMPS)
      && (ParseQuestion(query, off).Some? ==> SteadyQuestions(query, ParseQuestion(query, off).value.nextOffset, n - 1))
  }

  lemma ClassUpToCase(buf: bytes, buf': bytes, off: nat)
    requires Recasing(buf, buf') && off + 2 <= |buf|
    ensures GetU16(buf', off) == 1 <==> GetU16(buf, off) == 1
    ensures GetU16(buf', off) == 255 <==> GetU16(buf, off) == 255
  {
    hide Recased;
  }

  lemma ParseUpToCase(buf: bytes, buf': bytes, off: nat)
    requires Recasing(buf, buf')
    ensures ParseQuestion(buf', off).Some? == ParseQuestion(buf, off).Some?
    ensures ParseQuestion(buf, off).Some? ==>
              ParseQuestion(buf', off).value.nextOffset == ParseQuestion(buf, off).value.nextOffset
  {
    hide DecodeName, Recasing, Join, GetU16;
    SameSize(buf, buf');
    NextUpToCase(buf, buf', off, MAX_JUMPS);
    var next := ReadName(buf, off).next;
    if next + 4 <= |buf| {
      ClassUpToCase(buf, buf', next + 2);
    }
  }

  lemma QuestionUpToCase(buf: bytes, buf': bytes, off: nat)
    requires Recasing(buf, buf') && SteadyPointers(buf, off, MAX_JUMPS) && ParseQuestion(buf, off).Some?
    ensures ParseQuestion(buf', off).Some?
    ensures Lower(ParseQuestion(buf', off).value.name) == Lower(ParseQuestion(buf, off).value.name)
  {
    hide DecodeName, SteadyPointers, Recasing, Join, Lower, GetU16;
    ParseUpToCase(buf, buf', off);
    NameUpToCase(buf, buf', off, MAX_JUMPS);
    LowerJoin(ReadName(buf', off).labels, ReadName(buf, off).labels);
  }

  lemma {:induction false} ExtractUpToCase(buf: bytes, buf': bytes, off: nat, n: nat)
    requires Recasing(buf, buf') && SteadyQuestions(buf, off, n)
    ensures var a, b := ExtractFrom(buf', off, n), ExtractFrom(buf, off, n);
            |a| == |b| && forall i :: 0 <= i < |a| ==> Lower(a[i].name) == Lower(b[i].name)
    decreases n
  {
    hide ParseQuestion, SteadyPointers, Recasing, Lower;
    if n > 0 {
      ParseUpToCase(buf, buf', off);
      if ParseQuestion(buf, off).Some? {
        QuestionUpToCase(buf, buf', off);
        ExtractUpToCase(buf, buf', ParseQuestion(buf, off).value.nextOffset, n - 1);
      }
    }
  }

  predicate SteadyQuery(query: bytes) {
    |query| >= HEADER ==> SteadyQuestions(query, HEADER, GetU16(query, 4))
  }

  lemma HeaderKept(query: bytes, entropy: bytes)
    requires |query| <= |entropy|
    ensures |query| >= HEADER ==> GetU16(Mix(query, entropy), 4) == GetU16(query, 4)
  {
    hide Mix, Recasing;
    MixVariant(query, entropy);
    if |query| >= HEADER {
      var mixed := Mix(query, entropy);
      assert mixed[4] == mixed[..HEADER][4] && mixed[5] == mixed[..HEADER][5];
    }
  }

  /**
    Case randomisation keeps the question names up to case, on every query -- malformed ones
    included -- in which no followed pointer has an octet that the randomiser changes.
   */
  lemma MixKeepsNames(query: bytes, entropy: bytes)
    requires |query| <= |entropy| && SteadyQuery(query)
    ensures SameUpToCase(NamesOf(Mix(query, entropy)), NamesOf(query))
  {
    hide Mix, Recasing, SteadyQuestions, ExtractFrom, Lower, GetU16;
    MixVariant(query, entropy);
    HeaderKept(query, entropy);
    if |query| >= HEADER {
      ExtractUpToCase(query, Mix(query, entropy), HEADER, GetU16(query, 4));
    }
  }

  function RecaseLabels(labels: seq<bytes>, entropy: bytes, off: nat): (r: seq<bytes>)
    requires off + |NameBytes(labels)| <= |entropy|
    ensures |r| == |labels|
    ensures forall i :: 0 <= i < |labels| ==> |r[i]| == |labels[i]|
  {
    if labels == [] then []
    else [RecaseAll(labels[0], entropy, off + 1)] + RecaseLabels(labels[1..], entropy, off + 1 + |labels[0]|)
  }

  function RecaseSection(qs: seq<WireQuestion>, entropy: bytes, off: nat): (r: seq<WireQuestion>)
    requires off + |SectionBytes(qs)| <= |entropy|
    ensures |r| == |qs|
    ensures forall i :: 0 <= i < |qs| ==>
              r[i].qtype == qs[i].qtype && r[i].qclass == qs[i].qclass && (Askable(qs[i]) ==> Askable(r[i]))
  {
    if qs == [] then []
    else
      [qs[0].(labels := RecaseLabels(qs[0].labels, entropy, off))]
      + RecaseSection(qs[1..], entropy, off + |QuestionBytes(qs[0])|)
  }

  lemma {:induction false} RecaseLabelsKeep(labels: seq<bytes>, entropy: bytes, off: nat)
    requires off + |NameBytes(labels)| <= |entropy|
    ensures |NameBytes(RecaseLabels(labels, entropy, off))| == |NameBytes(labels)|
    ensures SameUpToCase(RecaseLabels(labels, entropy, off), labels)
  {
    hide Lower, SameUpToCase;
    UpToCaseNone();
    if labels != [] {
      RecaseLabelsKeep(labels[1..], entropy, off + 1 + |labels[0]|);
      RecaseAllLower(labels[0], entropy, off + 1);
      UpToCaseCons(RecaseAll(labels[0], entropy, off + 1), labels[0],
                   RecaseLabels(labels[1..], entropy, off + 1 + |labels[0]|), labels[1..]);
      assert labels == [labels[0]] + labels[1..];
    }
  }

  lemma RecaseAllLower(s: bytes, entropy: bytes, off: nat)
    requires off + |s| <= |entropy|
    ensures Lower(RecaseAll(s, entropy, off)) == Lower(s)
  {
    hide Recase;
    forall i | 0 <= i < |s|
      ensures Lower(RecaseAll(s, entropy, off))[i] == Lower(s)[i]
    {
      RecaseKeeps(s[i], entropy[off + i]);
    }
  }

  /** Mixing the label that follows `pre` and its length octet. */
  lemma MixOneLabel(pre: bytes, text: bytes, rest: bytes, entropy: bytes)
    requires |pre| + |text| + |rest| <= |entropy|
    ensures MixLabel(pre + text + rest, |pre|, |text|, entropy) == pre + RecaseAll(text, entropy, |pre|) + rest
  {
    hide RecaseAll;
    var q := pre + text + rest;
    assert q[..|pre|] == pre && q[|pre|..|pre| + |text|] == text && q[|pre| + |text|..] == rest;
  }

  lemma MixNameStep(query: bytes, off: nat, entropy: bytes)
    requires off < |query| <= |entropy| && !IsPointer(query[off])
    ensures MixName(query, off, entropy)
         == if query[off] == 0 then Mixed(query, off + 1)
            else MixName(MixLabel(query, off + 1, query[off], entropy), off + 1 + query[off], entropy)
  {
  }

  lemma Regroup(pre: bytes, len: byte, text: bytes, rest: bytes, post: bytes)
    ensures pre + ([len] + text + rest) + post == pre + [len] + text + (rest + post)
    ensures pre + ([len] + text + rest) + post == pre + [len] + text + rest + post
    ensures (pre + ([len] + text + rest) + post)[|pre|] == len
  {
    assert pre + ([len] + text + rest) == pre + [len] + text + rest;
    Assoc(pre + [len] + text, rest, post);
  }

  lemma EncodedHead(labels: seq<bytes>, entropy: bytes, off: nat)
    requires labels != [] && |labels[0]| < 256 && off + |NameBytes(labels)| <= |entropy|
    ensures var len, rest := |labels[0]|, labels[1..];
            && NameBytes(labels) == [len] + labels[0] + NameBytes(rest)
            && NameBytes(RecaseLabels(labels, entropy, off))
               == [len] + RecaseAll(labels[0], entropy, off + 1) + NameBytes(RecaseLabels(rest, entropy, off + 1 + len))
  {
    hide RecaseAll;
    var mixed := RecaseLabels(labels, entropy, off);
    assert mixed[1..] == RecaseLabels(labels[1..], entropy, off + 1 + |labels[0]|);
  }

  lemma RootBytes()
    ensures NameBytes([]) == [0]
  {
  }

  lemma NothingEncoded(pre: bytes, post: bytes, entropy: bytes)
    requires |pre| + |NameBytes([])| + |post| <= |entropy|
    ensures RecaseLabels([], entropy, |pre|) == []
    ensures MixName(pre + [0] + post, |pre|, entropy) == Mixed(pre + [0] + post, |pre| + 1)
  {
    assert (pre + [0] + post)[|pre|] == 0;
  }

  lemma {:induction false} MixNameEncoded(pre: bytes, labels: seq<bytes>, post: bytes, entropy: bytes)
    requires WireLabels(labels) && |pre| + |NameBytes(labels)| + |post| <= |entropy|
    ensures MixName(pre + NameBytes(labels) + post, |pre|, entropy)
         == Mixed(pre + NameBytes(RecaseLabels(labels, entropy, |pre|)) + post, |pre| + |NameBytes(labels)|)
    decreases |labels|
  {
    hide MixLabel, RecaseAll, MixName, NameBytes, RecaseLabels;
    if labels == [] {
      RootBytes();
      NothingEncoded(pre, post, entropy);
    } else {
      var text, len := labels[0], |labels[0]|;
      EncodedHead(labels, entropy, |pre|);
      var rest, mixed := NameBytes(labels[1..]), RecaseAll(text, entropy, |pre| + 1);
      Regroup(pre, len, text, rest, post);
      MixNameStep(pre + NameBytes(labels) + post, |pre|, entropy);
      MixOneLabel(pre + [len], text, rest + post, entropy);
      Assoc(pre + [len] + mixed, rest, post);
      MixNameEncoded(pre + [len] + mixed, labels[1..], post, entropy);
      Regroup(pre, len, mixed, NameBytes(RecaseLabels(labels[1..], entropy, |pre| + 1 + len)), post);
    }
  }

  lemma RegroupQuestion(pre: bytes, name: bytes, fixed: bytes, rest: bytes, post: bytes)
    ensures pre + (name + fixed + rest) + post == pre + name + (fixed + rest + post) == pre + name + fixed + rest + post
  {
    Assoc(name, fixed, rest);
    Assoc(pre, name, fixed + rest);
    Assoc(pre + name, fixed + rest, post);
    Assoc(pre + name, fixed, rest);
  }

  lemma {:induction false} MixSectionEncoded(pre: bytes, qs: seq<WireQuestion>, post: bytes, entropy: bytes)
    requires forall i :: 0 <= i < |qs| ==> Askable(qs[i])
    requires |pre| + |SectionBytes(qs)| + |post| <= |entropy|
    ensures MixQuestions(pre + SectionBytes(qs) + post, |pre|, |qs|, entropy)
         == pre + SectionBytes(RecaseSection(qs, entropy, |pre|)) + post
    decreases |qs|
  {
    hide MixName, NameBytes, RecaseLabels, WireLabels, U16;
    if qs != [] {
      var name, fixed, rest := NameBytes(qs[0].labels), U16(qs[0].qtype) + U16(qs[0].qclass), SectionBytes(qs[1..]);
      var mixed := NameBytes(RecaseLabels(qs[0].labels, entropy, |pre|));
      var pre' := pre + mixed + fixed;
      RegroupQuestion(pre, name, fixed, rest, post);
      MixNameEncoded(pre, qs[0].labels, fixed + rest + post, entropy);
      RecaseLabelsKeep(qs[0].labels, entropy, |pre|);
      RegroupQuestion(pre, mixed, fixed, rest, post);
      MixSectionEncoded(pre', qs[1..], post, entropy);
      RegroupQuestion(pre, mixed, fixed, SectionBytes(RecaseSection(qs[1..], entropy, |pre'|)), post);
    }
  }

  lemma {:induction false} WrittenNameSteady(buf: bytes, off: nat, labels: seq<bytes>)
    requires WireLabels(labels) && At(buf, off, NameBytes(labels))
    ensures SteadyPointers(buf, off, MAX_JUMPS)
    decreases |labels|
  {
    hide At;
    if labels == [] {
      AtIndex(buf, off, NameBytes(labels), 0);
    } else {
      AtNameHead(buf, off, labels);
      WrittenNameSteady(buf, off + 1 + |labels[0]|, labels[1..]);
    }
  }

  lemma {:induction false} SectionSteady(buf: bytes, off: nat, qs: seq<WireQuestion>)
    requires forall i :: 0 <= i < |qs| ==> Askable(qs[i])
    requires At(buf, off, SectionBytes(qs))
    ensures SteadyQuestions(buf, off, |qs|)
    decreases |qs|
  {
    hide At, SteadyPointers, ParseQuestion, NameBytes;
    if qs != [] {
      AtConcat(buf, off, QuestionBytes(qs[0]), SectionBytes(qs[1..]));
      AtConcat(buf, off, NameBytes(qs[0].labels), U16(qs[0].qtype) + U16(qs[0].qclass));
      WrittenNameSteady(buf, off, qs[0].labels);
      QuestionRead(buf, off, qs[0]);
      SectionSteady(buf, off + |QuestionBytes(qs[0])|, qs[1..]);
    }
  }

  /** Every message without compression meets the proviso of `MixKeepsNames`. */
  lemma UncompressedIsSteady(id: uint16, flags: uint16, qs: seq<WireQuestion>,
                             an: seq<WireRecord>, ns: seq<WireRecord>, ar: seq<WireRecord>)
    requires Sendable(qs, an, ns, ar)
    ensures SteadyQuery(Message(id, flags, qs, an, ns, ar))
  {
    hide At, Askable, SectionBytes, RecordsBytes, AllWritable, Header, GetU16, SteadyQuestions, Message;
    var m := Message(id, flags, qs, an, ns, ar);
    MessageLayout(id, flags, qs, an, ns, ar);
    HeaderFields(m, id, flags, |qs|, |an|, |ns|, |ar|);
    SectionSteady(m, HEADER, qs);
  }

  lemma {:induction false} RecaseSectionKeeps(qs: seq<WireQuestion>, entropy: bytes, off: nat)
    requires off + |SectionBytes(qs)| <= |entropy|
    ensures |SectionBytes(RecaseSection(qs, entropy, off))| == |SectionBytes(qs)|
    ensures forall i :: 0 <= i < |qs| ==>
              Lower(Join(RecaseSection(qs, entropy, off)[i].labels)) == Lower(Join(qs[i].labels))
    decreases |qs|
  {
    hide Lower, Join, NameBytes, RecaseLabels, Askable;
    if qs != [] {
      RecaseLabelsKeep(qs[0].labels, entropy, off);
      LowerJoin(RecaseLabels(qs[0].labels, entropy, off), qs[0].labels);
      RecaseSectionKeeps(qs[1..], entropy, off + |QuestionBytes(qs[0])|);
    }
  }
}
