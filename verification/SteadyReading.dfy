/**
  When case randomisation cannot lead the reader of a query astray.  The randomiser walks the
  question section by its own rules; a name read later may lead through octets it has changed.
 */
module SteadyReading {
  import opened Bytes
  import opened Names
  import opened Wire
  import opened Questions
  import opened CaseRewrite
  import opened ForwardedQuery

  /** The offsets of the length octets that the reader visits for one name. */
  function Trail(buf: bytes, off: nat, jumps: nat): (r: seq<nat>)
    ensures r != [] && r[0] == off
    decreases jumps, |buf| - off
  {
    [off] +
    if StopsAt(buf, off, jumps) then []
    else if IsPointer(buf[off]) then Trail(buf, PointerTarget(buf[off], buf[off + 1]), jumps - 1)
    else Trail(buf, off + 1 + buf[off], jumps)
  }

  /** The same for the names of `n` questions, up to the first that does not parse. */
  function Trails(buf: bytes, off: nat, n: nat): seq<seq<nat>>
    decreases n
  {
    if n == 0 then []
    else
      var q := ParseQuestion(buf, off);
      [Trail(buf, off, MAX_JUMPS)] + if q.None? then [] else Trails(buf, q.value.nextOffset, n - 1)
  }

  function TrailsOf(query: bytes): seq<seq<nat>> {
    if |query| < HEADER then [] else Trails(query, HEADER, GetU16(query, 4))
  }

  lemma {:induction false} SteadyTrail(buf: bytes, buf': bytes, off: nat, jumps: nat)
    requires Recasing(buf, buf') && SteadyPointers(buf, off, jumps)
    ensures Trail(buf', off, jumps) == Trail(buf, off, jumps)
    decreases jumps, |buf| - off
  {
    hide Recasing, Recased, StopsAt;
    SameSize(buf, buf');
    VariantStep(buf, buf', off, jumps);
    Stops(buf, off, jumps);
    if !StopsAt(buf, off, jumps) {
      if IsPointer(buf[off]) {
        SteadyTrail(buf, buf', PointerTarget(buf[off], buf[off + 1]), jumps - 1);
      } else {
        SteadyTrail(buf, buf', off + 1 + buf[off], jumps);
      }
    }
  }

  lemma {:induction false} SteadyTrails(buf: bytes, buf': bytes, off: nat, n: nat)
    requires Recasing(buf, buf') && SteadyQuestions(buf, off, n)
    ensures Trails(buf', off, n) == Trails(buf, off, n)
    decreases n
  {
    hide Recasing, SteadyPointers, ParseQuestion, Trail;
    if n > 0 {
      SteadyTrail(buf, buf', off, MAX_JUMPS);
      ParseUpToCase(buf, buf', off);
      if ParseQuestion(buf, off).Some? {
        SteadyTrails(buf, buf', ParseQuestion(buf, off).value.nextOffset, n - 1);
      }
    }
  }

  /** Random octets that flip the case of the letter at `p`. */
  function Coins(query: bytes, p: nat): (r: bytes)
    requires p < |query|
    ensures |r| == |query|
  {
    seq(|query|, i => if query[p] >= 0x61 then 1 else 0)
  }

  lemma CoinsFlip(query: bytes, p: nat)
    requires Recased(query, p)
    ensures Mix(query, Coins(query, p))[p] != query[p]
  {
    hide Mix, Recased;
    RecasedLetter(query, p);
    MixOctet(query, Coins(query, p), p);
  }

  lemma RecasedLetter(query: bytes, p: nat)
    requires Recased(query, p)
    ensures p < |query| && IsLetter(query[p])
  {
  }

  lemma TrailNext(buf: bytes, off: nat, jumps: nat)
    requires !StopsAt(buf, off, jumps)
    ensures Trail(buf, off, jumps)[1..]
            == if IsPointer(buf[off]) then Trail(buf, PointerTarget(buf[off], buf[off + 1]), jumps - 1)
               else Trail(buf, off + 1 + buf[off], jumps)
  {
  }

  /** A followed pointer with a recased octet leads elsewhere for some random octets. */
  lemma {:induction false} UnsteadyTrail(query: bytes, off: nat, jumps: nat) returns (entropy: bytes)
    requires !SteadyPointers(query, off, jumps)
    ensures |entropy| == |query| && Trail(Mix(query, entropy), off, jumps) != Trail(query, off, jumps)
    decreases jumps, |query| - off
  {
    hide Mix, Recasing, Recased, StopsAt, Trail;
    Stops(query, off, jumps);
    if IsPointer(query[off]) && Recased(query, off + 1) {
      entropy := Coins(query, off + 1);
      CoinsFlip(query, off + 1);
    } else if IsPointer(query[off]) {
      entropy := UnsteadyTrail(query, PointerTarget(query[off], query[off + 1]), jumps - 1);
    } else {
      entropy := UnsteadyTrail(query, off + 1 + query[off], jumps);
    }
    MixVariant(query, entropy);
    VariantStep(query, Mix(query, entropy), off, jumps);
    TrailNext(query, off, jumps);
    TrailNext(Mix(query, entropy), off, jumps);
  }

  lemma {:induction false} UnsteadyTrails(query: bytes, off: nat, n: nat) returns (entropy: bytes)
    requires !SteadyQuestions(query, off, n)
    ensures |entropy| == |query| && Trails(Mix(query, entropy), off, n) != Trails(query, off, n)
    decreases n
  {
    hide Mix, Recasing, SteadyPointers, ParseQuestion, Trail;
    if !SteadyPointers(query, off, MAX_JUMPS) {
      entropy := UnsteadyTrail(query, off, MAX_JUMPS);
    } else {
      entropy := UnsteadyTrails(query, ParseQuestion(query, off).value.nextOffset, n - 1);
    }
    MixVariant(query, entropy);
    ParseUpToCase(query, Mix(query, entropy), off);
    TrailsHead(query, off, n);
    TrailsHead(Mix(query, entropy), off, n);
  }

  lemma TrailsHead(buf: bytes, off: nat, n: nat)
    requires n > 0
    ensures Trails(buf, off, n) != [] && Trails(buf, off, n)[0] == Trail(buf, off, MAX_JUMPS)
    ensures ParseQuestion(buf, off).Some? ==>
              Trails(buf, off, n)[1..] == Trails(buf, ParseQuestion(buf, off).value.nextOffset, n - 1)
  {
    hide Trail, ParseQuestion;
  }

  /**
    Exactly when randomisation cannot mislead the reader: for all random octets it visits the same
    offsets, in every question, if and only if no pointer it follows has a recased second octet.
   */
  lemma SteadyExact(query: bytes)
    ensures (forall entropy: bytes :: |query| <= |entropy| ==> TrailsOf(Mix(query, entropy)) == TrailsOf(query))
            <==> SteadyQuery(query)
  {
    hide Mix, Trails, SteadyQuestions, GetU16, Recasing;
    if SteadyQuery(query) {
      forall entropy: bytes | |query| <= |entropy|
        ensures TrailsOf(Mix(query, entropy)) == TrailsOf(query)
      {
        MixVariant(query, entropy);
        HeaderKept(query, entropy);
        if |query| >= HEADER {
          SteadyTrails(query, Mix(query, entropy), HEADER, GetU16(query, 4));
        }
      }
    } else {
      var entropy := UnsteadyTrails(query, HEADER, GetU16(query, 4));
      HeaderKept(query, entropy);
    }
  }

  lemma {:induction false} PointerInName(query: bytes, off: nat, p: nat)
    requires p + 1 < |query| && IsPointer(query[p]) && InName(query, off, p + 1)
    ensures InName(query, off, p)
    decreases |query| - off
  {
    if !(off < p + 1 <= off + query[off]) {
      PointerInName(query, off + 1 + query[off], p);
    }
  }

  lemma {:induction false} PointerInQuestions(query: bytes, off: nat, n: nat, p: nat)
    requires p + 1 < |query| && IsPointer(query[p]) && InQuestions(query, off, n, p + 1)
    ensures InQuestions(query, off, n, p)
    decreases n
  {
    hide InName, NameEnd;
    if InName(query, off, p + 1) {
      PointerInName(query, off, p);
    } else {
      PointerInQuestions(query, AfterFixed(|query|, NameEnd(query, off)), n - 1, p);
    }
  }

  /** The reader starts no label and no pointer inside the text of a label. */
  ghost predicate Aligned(query: bytes, trail: seq<nat>) {
    |query| >= HEADER ==> forall i :: 0 <= i < |trail| ==> !InQuestions(query, HEADER, GetU16(query, 4), trail[i])
  }

  lemma PointerSpared(query: bytes, trail: seq<nat>)
    requires trail != [] && trail[0] + 1 < |query| && IsPointer(query[trail[0]]) && Aligned(query, trail)
    ensures !Recased(query, trail[0] + 1)
  {
    hide InQuestions, GetU16;
    if Recased(query, trail[0] + 1) {
      PointerInQuestions(query, HEADER, GetU16(query, 4), trail[0]);
    }
  }

  lemma {:induction false} AlignedTrail(query: bytes, off: nat, jumps: nat)
    requires Aligned(query, Trail(query, off, jumps))
    ensures SteadyPointers(query, off, jumps)
    decreases jumps, |query| - off
  {
    hide StopsAt, InQuestions, GetU16, Trail;
    Stops(query, off, jumps);
    if !StopsAt(query, off, jumps) {
      var trail := Trail(query, off, jumps);
      TrailNext(query, off, jumps);
      assert Aligned(query, trail[1..]);
      if IsPointer(query[off]) {
        PointerSpared(query, trail);
        AlignedTrail(query, PointerTarget(query[off], query[off + 1]), jumps - 1);
      } else {
        AlignedTrail(query, off + 1 + query[off], jumps);
      }
    }
  }

  lemma {:induction false} AlignedTrails(query: bytes, off: nat, n: nat)
    requires forall i :: 0 <= i < |Trails(query, off, n)| ==> Aligned(query, Trails(query, off, n)[i])
    ensures SteadyQuestions(query, off, n)
    decreases n
  {
    hide Aligned, Trail, SteadyPointers, ParseQuestion;
    if n > 0 {
      var all := Trails(query, off, n);
      TrailsHead(query, off, n);
      assert Aligned(query, all[0]);
      AlignedTrail(query, off, MAX_JUMPS);
      if ParseQuestion(query, off).Some? {
        assert forall i :: 0 <= i < |all[1..]| ==> all[1..][i] == all[i + 1];
        AlignedTrails(query, ParseQuestion(query, off).value.nextOffset, n - 1);
      }
    }
  }

  /** Ordinary compression is steady: it suffices that no name is read from inside the text of a label. */
  lemma AlignedIsSteady(query: bytes)
    requires forall i :: 0 <= i < |TrailsOf(query)| ==> Aligned(query, TrailsOf(query)[i])
    ensures SteadyQuery(query)
  {
    hide Aligned, Trails, SteadyQuestions, GetU16;
    if |query| >= HEADER {
      assert TrailsOf(query) == Trails(query, HEADER, GetU16(query, 4));
      AlignedTrails(query, HEADER, GetU16(query, 4));
    }
  }

  /** On a name that the message spells, the walk of the randomiser and the reader stop at the same octet. */
  lemma {:induction false} WalkMeetsReader(query: bytes, off: nat, labels: seq<bytes>, hops: nat, jumps: nat)
    requires Spells(query, off, labels, hops) && hops <= jumps
    ensures NameEnd(query, off) == DecodeName(query, off, jumps).next
    decreases |labels|
  {
    if !IsPointer(query[off]) && query[off] != 0 {
      WalkMeetsReader(query, off + 1 + query[off], labels[1..], hops, jumps);
    }
  }

  ghost predicate SpellsName(query: bytes, off: nat) {
    exists labels, hops: nat :: hops <= MAX_JUMPS && Spells(query, off, labels, hops)
  }

  /** The section is well formed: each question parses, and its name is spelled within the hop limit. */
  ghost predicate WellFormed(query: bytes, off: nat, n: nat)
    decreases n
  {
    n > 0 ==>
      && SpellsName(query, off) && ParseQuestion(query, off).Some?
      && WellFormed(query, ParseQuestion(query, off).value.nextOffset, n - 1)
  }

  /** From `off` on, only the text of labels may differ. */
  ghost predicate Spared(buf: bytes, buf': bytes, off: nat, n: nat) {
    |buf'| == |buf| && forall p :: off <= p < |buf| && !InQuestions(buf, off, n, p) ==> buf'[p] == buf[p]
  }

  lemma ParsedEnd(query: bytes, off: nat)
    requires ParseQuestion(query, off).Some?
    ensures var next := ParseQuestion(query, off).value.nextOffset;
            && next == ReadName(query, off).next + 4 <= |query|
            && ParseQuestion(query, off).value.qtype == GetU16(query, next - 4)
  {
    hide DecodeName, Join;
  }

  lemma WalkEnd(query: bytes, off: nat)
    requires SpellsName(query, off) && ParseQuestion(query, off).Some?
    ensures NameEnd(query, off) + 4 == ParseQuestion(query, off).value.nextOffset <= |query|
  {
    hide Spells, DecodeName, ParseQuestion;
    var labels, hops: nat :| hops <= MAX_JUMPS && Spells(query, off, labels, hops);
    WalkMeetsReader(query, off, labels, hops, MAX_JUMPS);
    ParsedEnd(query, off);
  }

  lemma SparedNext(buf: bytes, buf': bytes, off: nat, n: nat)
    requires n > 0 && Spared(buf, buf', off, n) && NameEnd(buf, off) + 4 <= |buf|
    ensures Spared(buf, buf', NameEnd(buf, off) + 4, n - 1)
    ensures forall p :: NameEnd(buf, off) <= p < NameEnd(buf, off) + 4 ==> buf'[p] == buf[p]
  {
    hide InName, NameEnd;
    var end := NameEnd(buf, off);
    forall p | end <= p < |buf|
      ensures InQuestions(buf, off, n, p) == InQuestions(buf, end + 4, n - 1, p)
      ensures p < end + 4 ==> !InQuestions(buf, end + 4, n - 1, p)
    {
      NameInside(buf, off, p);
      QuestionsBeyond(buf, end + 4, n - 1, p);
    }
  }

  lemma {:induction false} TypesKept(buf: bytes, buf': bytes, off: nat, n: nat)
    requires Recasing(buf, buf') && Spared(buf, buf', off, n) && WellFormed(buf, off, n)
    ensures var a, b := ExtractFrom(buf', off, n), ExtractFrom(buf, off, n);
            |a| == |b| == n && forall i :: 0 <= i < n ==> a[i].qtype == b[i].qtype && a[i].nextOffset == b[i].nextOffset
    decreases n
  {
    hide Recasing, Spared, SpellsName, NameEnd, ParseQuestion, GetU16;
    if n > 0 {
      var next := ParseQuestion(buf, off).value.nextOffset;
      SameSize(buf, buf');
      WalkEnd(buf, off);
      SparedNext(buf, buf', off, n);
      ParseUpToCase(buf, buf', off);
      ParsedEnd(buf, off);
      ParsedEnd(buf', off);
      SameWord(buf, buf', next - 4);
      TypesKept(buf, buf', next, n - 1);
    }
  }

  lemma SameWord(buf: bytes, buf': bytes, off: nat)
    requires off + 4 <= |buf| == |buf'| && forall p :: off <= p < off + 4 ==> buf'[p] == buf[p]
    ensures GetU16(buf', off) == GetU16(buf, off)
  {
  }

  /**
    A well-formed query, compressed or not, asks the same after randomisation: as many questions,
    the same types, and the same names up to case if its pointers are steady.
   */
  lemma MixKeepsQuestions(query: bytes, entropy: bytes)
    requires HEADER <= |query| <= |entropy| && WellFormed(query, HEADER, GetU16(query, 4))
    ensures var asked, mixed := QuestionsOf(query), QuestionsOf(Mix(query, entropy));
            && |mixed| == |asked| == GetU16(query, 4)
            && (forall i :: 0 <= i < |asked| ==> mixed[i].qtype == asked[i].qtype)
            && (SteadyQuery(query) ==> forall i :: 0 <= i < |asked| ==> Lower(mixed[i].name) == Lower(asked[i].name))
  {
    hide Mix, Recasing, SteadyQuestions, WellFormed, ExtractFrom, Lower, GetU16;
    var mixed := Mix(query, entropy);
    MixVariant(query, entropy);
    HeaderKept(query, entropy);
    MixSpares(query, entropy);
    TypesKept(query, mixed, HEADER, GetU16(query, 4));
    if SteadyQuery(query) {
      ExtractUpToCase(query, mixed, HEADER, GetU16(query, 4));
    }
  }

  lemma MixSpares(query: bytes, entropy: bytes)
    requires HEADER <= |query| <= |entropy|
    ensures Spared(query, Mix(query, entropy), HEADER, GetU16(query, 4))
  {
    hide Mix, InQuestions, GetU16;
    forall p | HEADER <= p < |query| && !InQuestions(query, HEADER, GetU16(query, 4), p)
      ensures Mix(query, entropy)[p] == query[p]
    {
      MixOctet(query, entropy, p);
    }
  }

  /** Two questions; the text of the first label looks like a pointer, and the second name starts there. */
  function Misleading(c: byte): (r: bytes)
    ensures |r| == 70
  {
    [0, 0, 1, 0, 0, 2, 0, 0, 0, 0, 0, 0, 2, 0xC0, c, 0, 0, 1, 0, 1, 0xC0, 13, 0, 1, 0, 1]
    + seq(39, i => 0) + [1, 0x78, 0, 0, 0]
  }

  lemma MisleadingOctets(c: byte)
    ensures var q := Misleading(c);
            && GetU16(q, 4) == 2 && q[12] == 2 && q[13] == 0xC0 && q[14] == c && q[15] == 0
            && q[20] == 0xC0 && q[21] == 13 && q[65] == 1 && q[66] == 0x78 && q[67] == 0
            && GetU16(q, 16) == 1 && GetU16(q, 18) == 1 && GetU16(q, 22) == 1 && GetU16(q, 24) == 1
  {
  }

  lemma MisleadingRest(c: byte, d: byte, p: nat)
    requires p < 70 && p != 14
    ensures Misleading(d)[p] == Misleading(c)[p] && (IsLetter(Misleading(c)[p]) ==> p == 66)
  {
  }

  /** The walk recases the text of the first label and nothing else. */
  lemma MisleadingWalk(p: nat)
    requires p < 70
    ensures Recased(Misleading(0x61), p) <==> p == 14
  {
    hide Misleading, InQuestions, GetU16;
    MisleadingOctets(0x61);
    if p != 14 {
      MisleadingRest(0x61, 0x61, p);
    }
    var q := Misleading(0x61);
    assert NameEnd(q, 15) == 16 && !InName(q, 15, p);
    assert NameEnd(q, 12) == 16 && (InName(q, 12, p) <==> 12 < p <= 14);
    assert !InName(q, 20, p);
    WalkStep(q, 12, 2, p);
    WalkStep(q, 20, 1, p);
    WalkStep(q, 26, 0, p);
    assert NameEnd(q, 20) == 22;
  }

  lemma WalkStep(query: bytes, off: nat, n: nat, p: nat)
    ensures InQuestions(query, off, n, p) <==>
              n > 0 && (InName(query, off, p) || InQuestions(query, AfterFixed(|query|, NameEnd(query, off)), n - 1, p))
  {
  }

  lemma MisleadingMixed(entropy: bytes)
    requires |entropy| >= 70 && entropy[14] % 2 == 1
    ensures Mix(Misleading(0x61), entropy) == Misleading(0x41)
  {
    hide Mix, Misleading, Recased;
    var q := Misleading(0x61);
    MisleadingOctets(0x61);
    MisleadingOctets(0x41);
    forall p | 0 <= p < 70
      ensures Mix(q, entropy)[p] == Misleading(0x41)[p]
    {
      MisleadingWalk(p);
      MixOctet(q, entropy, p);
      if p != 14 {
        MisleadingRest(0x61, 0x41, p);
      }
    }
  }

  lemma FirstMisleading(c: byte)
    ensures ParseQuestion(Misleading(c), HEADER) == Some(ParsedQuestion([0xC0, c], 1, 20))
  {
    hide Misleading, DecodeName, GetU16;
    var q := Misleading(c);
    MisleadingOctets(c);
    DecodeStep(q, 12, MAX_JUMPS);
    DecodeStep(q, 15, MAX_JUMPS);
    assert q[13..15] == [0xC0, c];
  }

  lemma SecondMisleading(c: byte)
    requires c == 0x41 || c == 0x61
    ensures ParseQuestion(Misleading(c), 20) == Some(ParsedQuestion(if c == 0x41 then [0x78] else [], 1, 26))
  {
    hide Misleading, DecodeName, GetU16;
    var q := Misleading(c);
    MisleadingOctets(c);
    DecodeStep(q, 20, MAX_JUMPS);
    DecodeStep(q, 13, MAX_JUMPS - 1);
    DecodeStep(q, c, MAX_JUMPS - 2);
    DecodeStep(q, 67, MAX_JUMPS - 2);
    assert q[66..67] == [0x78];
  }

  lemma MisleadingNames(c: byte)
    requires c == 0x41 || c == 0x61
    ensures NamesOf(Misleading(c)) == [[0xC0, c], if c == 0x41 then [0x78] else []]
  {
    hide Misleading, ParseQuestion, GetU16;
    MisleadingOctets(c);
    FirstMisleading(c);
    SecondMisleading(c);
    var q := Misleading(c);
    assert ExtractFrom(q, 26, 0) == [];
    assert ExtractFrom(q, 20, 1) == [ParseQuestion(q, 20).value];
    assert ExtractFrom(q, HEADER, 2) == [ParseQuestion(q, HEADER).value] + ExtractFrom(q, 20, 1);
  }

  /** A query that shows the proviso is needed: under odd random octets its second name, the root, becomes "x". */
  lemma RecasedPointerShows(entropy: bytes)
    requires |entropy| >= 70 && entropy[14] % 2 == 1
    ensures NamesOf(Misleading(0x61)) == [[0xC0, 0x61], []]
    ensures NamesOf(Mix(Misleading(0x61), entropy)) == [[0xC0, 0x41], [0x78]]
  {
    hide Mix, Misleading, NamesOf;
    MisleadingMixed(entropy);
    MisleadingNames(0x61);
    MisleadingNames(0x41);
  }
}
