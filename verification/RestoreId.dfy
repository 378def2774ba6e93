/**
  Putting the client's ID back into an upstream message changes its first two octets.  A
  compression pointer may target them, so this can change the question names of the message;
  here is exactly when it cannot.
 */
module RestoreId {
  import opened Bytes
  import opened Names
  import opened Wire
  import opened Questions
  import opened CaseRewrite
  import opened ForwardedQuery

  function WithId(msg: bytes, id: uint16): (r: bytes)
    requires |msg| >= HEADER
    ensures |r| == |msg|
  {
    Patch(msg, 0, U16(id))
  }

  /** Reading the name at `off`, the reader comes upon octet 0 or 1. */
  predicate ReadsId(msg: bytes, off: nat, jumps: nat)
    decreases jumps, |msg| - off
  {
    off < 2 ||
    (!StopsAt(msg, off, jumps) &&
     if IsPointer(msg[off]) then ReadsId(msg, PointerTarget(msg[off], msg[off + 1]), jumps - 1)
     else ReadsId(msg, off + 1 + msg[off], jumps))
  }

  /** None of the first `n` questions from `off` on is read through the ID. */
  predicate IdUnreadFrom(msg: bytes, off: nat, n: nat)
    decreases n
  {
    n > 0 && ParseQuestion(msg, off).Some? ==>
      !ReadsId(msg, off, MAX_JUMPS) && IdUnreadFrom(msg, ParseQuestion(msg, off).value.nextOffset, n - 1)
  }

  /** No compression pointer followed while reading the questions targets the ID. */
  predicate IdUnread(msg: bytes) {
    |msg| >= HEADER ==> IdUnreadFrom(msg, HEADER, GetU16(msg, 4))
  }

  lemma BeyondId(msg: bytes, id: uint16, off: nat, jumps: nat)
    requires |msg| >= HEADER && off >= 2
    ensures StopsAt(WithId(msg, id), off, jumps) == StopsAt(msg, off, jumps)
    ensures off < |msg| ==> WithId(msg, id)[off] == msg[off]
    ensures off + 1 < |msg| ==> WithId(msg, id)[off + 1] == msg[off + 1]
    ensures forall hi :: off <= hi <= |msg| ==> WithId(msg, id)[off..hi] == msg[off..hi]
  {
  }

  lemma {:induction false} UnreadIsKept(msg: bytes, id: uint16, off: nat, jumps: nat)
    requires |msg| >= HEADER && !ReadsId(msg, off, jumps)
    ensures DecodeName(WithId(msg, id), off, jumps) == DecodeName(msg, off, jumps)
    ensures !ReadsId(WithId(msg, id), off, jumps)
    decreases jumps, |msg| - off
  {
    hide DecodeName, StopsAt, WithId, WireLabels;
    var msg' := WithId(msg, id);
    BeyondId(msg, id, off, jumps);
    DecodeStep(msg, off, jumps);
    DecodeStep(msg', off, jumps);
    Stops(msg, off, jumps);
    if !StopsAt(msg, off, jumps) {
      if IsPointer(msg[off]) {
        UnreadIsKept(msg, id, PointerTarget(msg[off], msg[off + 1]), jumps - 1);
      } else {
        BeyondId(msg, id, off + 1, jumps);
        UnreadIsKept(msg, id, off + 1 + msg[off], jumps);
      }
    }
  }

  lemma {:induction false} NextIsKept(msg: bytes, id: uint16, off: nat, jumps: nat)
    requires |msg| >= HEADER && off >= 2
    ensures DecodeName(WithId(msg, id), off, jumps).next == DecodeName(msg, off, jumps).next
    decreases |msg| - off
  {
    hide DecodeName, StopsAt, WithId, WireLabels;
    BeyondId(msg, id, off, jumps);
    DecodeStep(msg, off, jumps);
    DecodeStep(WithId(msg, id), off, jumps);
    Stops(msg, off, jumps);
    if !StopsAt(msg, off, jumps) && !IsPointer(msg[off]) {
      NextIsKept(msg, id, off + 1 + msg[off], jumps);
    }
  }

  lemma QuestionIsKept(msg: bytes, id: uint16, off: nat)
    requires |msg| >= HEADER && off >= 2
    ensures ParseQuestion(WithId(msg, id), off).Some? == ParseQuestion(msg, off).Some?
    ensures ParseQuestion(msg, off).Some? ==>
              ParseQuestion(WithId(msg, id), off).value.nextOffset == ParseQuestion(msg, off).value.nextOffset
    ensures ParseQuestion(msg, off).Some? && !ReadsId(msg, off, MAX_JUMPS) ==>
              ParseQuestion(WithId(msg, id), off) == ParseQuestion(msg, off)
  {
    hide DecodeName, ReadsId, Join;
    NextIsKept(msg, id, off, MAX_JUMPS);
    if !ReadsId(msg, off, MAX_JUMPS) {
      UnreadIsKept(msg, id, off, MAX_JUMPS);
    }
  }

  lemma {:induction false} UnreadQuestions(msg: bytes, id: uint16, off: nat, n: nat)
    requires |msg| >= HEADER && off >= 2 && IdUnreadFrom(msg, off, n)
    ensures ExtractFrom(WithId(msg, id), off, n) == ExtractFrom(msg, off, n)
    ensures IdUnreadFrom(WithId(msg, id), off, n)
    decreases n
  {
    hide ParseQuestion, ReadsId, WithId;
    if n > 0 {
      QuestionIsKept(msg, id, off);
      if ParseQuestion(msg, off).Some? {
        UnreadStays(msg, id, off);
        UnreadQuestions(msg, id, ParseQuestion(msg, off).value.nextOffset, n - 1);
      }
    }
  }

  lemma UnreadStays(msg: bytes, id: uint16, off: nat)
    requires |msg| >= HEADER
    ensures !ReadsId(msg, off, MAX_JUMPS) ==> !ReadsId(WithId(msg, id), off, MAX_JUMPS)
  {
    hide DecodeName, ReadsId, WithId;
    if !ReadsId(msg, off, MAX_JUMPS) {
      UnreadIsKept(msg, id, off, MAX_JUMPS);
    }
  }

  function Weight(labels: seq<bytes>): nat {
    if labels == [] then 0 else |labels[0]| + 1 + Weight(labels[1..])
  }

  lemma {:induction false} JoinLength(labels: seq<bytes>)
    ensures |Join(labels)| == if labels == [] then 0 else Weight(labels) - 1
  {
    if |labels| > 1 {
      JoinLength(labels[1..]);
    }
  }

  /** A name read through the ID is longer under ID 0x0101 than under ID 0. */
  lemma {:induction false} ReadIdShows(msg: bytes, off: nat, jumps: nat)
    requires |msg| >= HEADER && ReadsId(msg, off, jumps)
    ensures var short, long :=
            DecodeName(WithId(msg, 0), off, jumps).labels, DecodeName(WithId(msg, 0x0101), off, jumps).labels;
            long != [] && Weight(short) + 2 <= Weight(long)
    decreases jumps, |msg| - off
  {
    hide DecodeName, StopsAt, WithId, WireLabels, Weight;
    var zero, one := WithId(msg, 0), WithId(msg, 0x0101);
    DecodeStep(zero, off, jumps);
    DecodeStep(one, off, jumps);
    if off < 2 {
      IdOctets(msg, off, jumps);
      WeightStep([], DecodeName(one, off, jumps).labels);
    } else {
      BeyondId(msg, 0, off, jumps);
      BeyondId(msg, 0x0101, off, jumps);
      Stops(msg, off, jumps);
      if IsPointer(msg[off]) {
        ReadIdShows(msg, PointerTarget(msg[off], msg[off + 1]), jumps - 1);
      } else {
        var next := off + 1 + msg[off];
        BeyondId(msg, 0, off + 1, jumps);
        BeyondId(msg, 0x0101, off + 1, jumps);
        ReadIdShows(msg, next, jumps);
        WeightCons(msg[off + 1..next], DecodeName(zero, next, jumps).labels);
        WeightCons(msg[off + 1..next], DecodeName(one, next, jumps).labels);
      }
    }
  }

  lemma IdOctets(msg: bytes, off: nat, jumps: nat)
    requires |msg| >= HEADER && off < 2
    ensures StopsAt(WithId(msg, 0), off, jumps)
    ensures !StopsAt(WithId(msg, 0x0101), off, jumps) && WithId(msg, 0x0101)[off] == 1 && !IsPointer(1)
  {
  }

  lemma WeightCons(l: bytes, labels: seq<bytes>)
    ensures Weight([l] + labels) == |l| + 1 + Weight(labels) && [l] + labels != []
  {
    assert ([l] + labels)[1..] == labels;
  }

  lemma WeightStep(none: seq<bytes>, some: seq<bytes>)
    requires none == []
    ensures Weight(none) == 0
    ensures some != [] && |some[0]| >= 1 ==> Weight(some) >= 2
  {
  }

  lemma NameShows(msg: bytes, off: nat)
    requires |msg| >= HEADER && ReadsId(msg, off, MAX_JUMPS)
    ensures |NameAt(WithId(msg, 0), off)| < |NameAt(WithId(msg, 0x0101), off)|
  {
    hide DecodeName, ReadsId, WithId, Join, Weight;
    ReadIdShows(msg, off, MAX_JUMPS);
    JoinLength(ReadName(WithId(msg, 0), off).labels);
    JoinLength(ReadName(WithId(msg, 0x0101), off).labels);
    WeightStep([], ReadName(WithId(msg, 0), off).labels);
  }

  lemma {:induction false} SomeNameShows(msg: bytes, off: nat, n: nat) returns (i: nat)
    requires |msg| >= HEADER && off >= 2 && !IdUnreadFrom(msg, off, n)
    ensures var zero, one := ExtractFrom(WithId(msg, 0), off, n), ExtractFrom(WithId(msg, 0x0101), off, n);
            i < |zero| && i < |one| && |zero[i].name| < |one[i].name|
    decreases n
  {
    hide ReadsId, WithId, ParseQuestion;
    QuestionIsKept(msg, 0, off);
    QuestionIsKept(msg, 0x0101, off);
    ParsedName(WithId(msg, 0), off);
    ParsedName(WithId(msg, 0x0101), off);
    if ReadsId(msg, off, MAX_JUMPS) {
      NameShows(msg, off);
      i := 0;
    } else {
      i := SomeNameShows(msg, ParseQuestion(msg, off).value.nextOffset, n - 1);
      i := i + 1;
    }
  }

  lemma ParsedName(msg: bytes, off: nat)
    ensures ParseQuestion(msg, off).Some? ==> ParseQuestion(msg, off).value.name == NameAt(msg, off)
  {
  }

  lemma CountKept(msg: bytes, id: uint16)
    requires |msg| >= HEADER
    ensures GetU16(WithId(msg, id), 4) == GetU16(msg, 4) && GetU16(WithId(msg, id), 0) == id
  {
  }

  /** The names survive: then also exactly, and whatever ID is put there next. */
  lemma UnreadNames(msg: bytes, id: uint16)
    requires |msg| >= HEADER && IdUnread(msg)
    ensures NamesOf(WithId(msg, id)) == NamesOf(msg) && IdUnread(WithId(msg, id))
  {
    hide WithId, ExtractFrom, IdUnreadFrom, GetU16;
    CountKept(msg, id);
    UnreadQuestions(msg, id, HEADER, GetU16(msg, 4));
  }

  /**
    The question names of a message survive every possible change of its ID, up to case, exactly
    when no pointer followed in its question section targets the ID.
   */
  lemma IdChangeKeepsNames(msg: bytes)
    requires |msg| >= HEADER
    ensures (forall id: uint16 :: SameUpToCase(NamesOf(WithId(msg, id)), NamesOf(msg))) <==> IdUnread(msg)
  {
    hide WithId, ExtractFrom, IdUnreadFrom, GetU16, Lower;
    if IdUnread(msg) {
      forall id: uint16
        ensures SameUpToCase(NamesOf(WithId(msg, id)), NamesOf(msg))
      {
        UnreadNames(msg, id);
      }
    } else {
      CountKept(msg, 0);
      CountKept(msg, 0x0101);
      var i := SomeNameShows(msg, HEADER, GetU16(msg, 4));
      var zero, one, names := NamesOf(WithId(msg, 0)), NamesOf(WithId(msg, 0x0101)), NamesOf(msg);
      assert |zero[i]| < |one[i]|;
      assert SameUpToCase(zero, names) ==> |zero[i]| == |Lower(zero[i])| == |Lower(names[i])| == |names[i]|;
      assert SameUpToCase(one, names) ==> |one[i]| == |Lower(one[i])| == |Lower(names[i])| == |names[i]|;
    }
  }
}
