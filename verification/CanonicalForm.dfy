/** The data an RRSIG is checked against does not depend on how the RRset arrived. */
module CanonicalForm {
  import opened Bytes
  import opened Names
  import opened Wire
  import opened Questions
  import opened Response
  import opened Records
  import opened Messages
  import opened Dnssec

  /** The records have one owner and one type: what `VerifyDnssecResponse` selects for a signature. */
  predicate Covered(owner: bytes, rtype: uint16, rrs: seq<ParsedRecord>) {
    forall i :: 0 <= i < |rrs| ==> rrs[i].name == owner && rrs[i].rtype == rtype && rrs[i].rdLength == |rrs[i].rdata|
  }

  predicate Selects(r: ParsedRecord, owner: bytes, rtype: uint16) {
    r.name == owner && r.rtype == rtype
  }

  /** `chosen` are the records of that owner and type among `all`, at the positions `at`, in order. */
  ghost predicate Chosen(chosen: seq<ParsedRecord>, all: seq<ParsedRecord>, owner: bytes, rtype: uint16, at: seq<nat>) {
    && |chosen| == |at|
    && (forall k :: 0 <= k < |at| ==> at[k] < |all| && chosen[k] == all[at[k]] && Selects(chosen[k], owner, rtype))
    && (forall j, k :: 0 <= j < k < |at| ==> at[j] < at[k])
    && (forall i :: 0 <= i < |all| && Selects(all[i], owner, rtype) ==> i in at)
  }

  lemma ChosenMore(chosen: seq<ParsedRecord>, all: seq<ParsedRecord>, owner: bytes, rtype: uint16, at: seq<nat>,
                   r: ParsedRecord)
    requires Chosen(chosen, all, owner, rtype, at)
    ensures Selects(r, owner, rtype) ==> Chosen(chosen + [r], all + [r], owner, rtype, at + [|all|])
    ensures !Selects(r, owner, rtype) ==> Chosen(chosen, all + [r], owner, rtype, at)
  {
    hide Selects;
    var more := all + [r];
    assert forall i :: 0 <= i < |all| ==> more[i] == all[i];
    assert more[|all|] == r;
    assert (at + [|all|])[|at|] == |all|;
  }

  lemma ChosenNone(owner: bytes, rtype: uint16)
    ensures Chosen([], [], owner, rtype, [])
  {
  }

  /** The answers of that owner and type, as collected for a signature: all of them, each once, in order. */
  method SelectCovered(buffer: bytes, owner: bytes, rtype: uint16)
    returns (rrset: seq<ParsedRecord>, ghost at: seq<nat>)
    ensures Covered(owner, rtype, rrset)
    ensures Chosen(rrset, if RecordsOf(buffer).Some? then RecordsOf(buffer).value.answers else [], owner, rtype, at)
  {
    hide RecordsOf, Chosen;
    ChosenNone(owner, rtype);
    var records := ExtractRecords(buffer);
    if records.None? {
      return [], [];
    }
    var answers := records.value.answers;
    AnswersMeasured(buffer);
    rrset, at := [], [];
    for i := 0 to |answers|
      invariant Covered(owner, rtype, rrset)
      invariant Chosen(rrset, answers[..i], owner, rtype, at)
    {
      assert answers[..i + 1] == answers[..i] + [answers[i]];
      ChosenMore(rrset, answers[..i], owner, rtype, at, answers[i]);
      if answers[i].name == owner && answers[i].rtype == rtype {
        rrset, at := rrset + [answers[i]], at + [i];
      }
    }
    assert answers[..|answers|] == answers;
  }

  ghost predicate Measured(rrs: seq<ParsedRecord>) {
    forall i :: 0 <= i < |rrs| ==> rrs[i].rdLength == |rrs[i].rdata|
  }

  lemma {:induction false} SectionMeasured(buf: bytes, off: nat, count: nat)
    ensures Measured(ReadSection(buf, off, count).records)
    decreases count
  {
    hide ReadName, NameAt, Lower, GetU16, GetU32;
    if count > 0 && off < |buf| && ReadRecord(buf, off).record.Some? {
      SectionMeasured(buf, ReadRecord(buf, off).next, count - 1);
    }
  }

  lemma AnswersMeasured(buf: bytes)
    ensures RecordsOf(buf).Some? ==> Measured(RecordsOf(buf).value.answers)
  {
    hide ReadSection, SkipQuestions, GetU16, Measured;
    if |buf| >= HEADER {
      SectionMeasured(buf, SkipQuestions(buf, HEADER, GetU16(buf, 4)), GetU16(buf, 6));
    }
  }

  predicate OneClass(rclass: uint16, rrs: seq<ParsedRecord>) {
    forall i :: 0 <= i < |rrs| ==> rrs[i].rclass == rclass
  }

  lemma Members(a: seq<ParsedRecord>, b: seq<ParsedRecord>, i: nat)
    requires multiset(a) == multiset(b) && i < |a|
    ensures |a| == |b| && a[i] in b
  {
    assert a[i] in multiset(a);
    assert |multiset(a)| == |multiset(b)|;
  }

  lemma CoveredSorted(owner: bytes, rtype: uint16, sorted: seq<ParsedRecord>, rrset: seq<ParsedRecord>)
    requires Covered(owner, rtype, rrset) && SortedForm(sorted, rrset)
    ensures Covered(owner, rtype, sorted)
  {
    hide Ordered;
    forall i | 0 <= i < |sorted|
      ensures sorted[i].name == owner && sorted[i].rtype == rtype && sorted[i].rdLength == |sorted[i].rdata|
    {
      Members(sorted, rrset, i);
    }
  }

  lemma ClassSorted(rclass: uint16, sorted: seq<ParsedRecord>, rrset: seq<ParsedRecord>)
    requires OneClass(rclass, rrset) && SortedForm(sorted, rrset)
    ensures OneClass(rclass, sorted)
  {
    hide Ordered;
    forall i | 0 <= i < |sorted|
      ensures sorted[i].rclass == rclass
    {
      Members(sorted, rrset, i);
    }
  }

  function Without(rrs: seq<ParsedRecord>, k: nat): seq<ParsedRecord>
    requires k < |rrs|
  {
    rrs[..k] + rrs[k + 1..]
  }

  lemma WithoutRecord(rrs: seq<ParsedRecord>, k: nat)
    requires k < |rrs|
    ensures multiset(Without(rrs, k)) == multiset(rrs) - multiset{rrs[k]}
  {
    assert rrs == rrs[..k] + [rrs[k]] + rrs[k + 1..];
  }

  lemma WithoutData(rrs: seq<ParsedRecord>, k: nat)
    requires k < |rrs|
    ensures multiset(Rdatas(rrs)) == multiset{rrs[k].rdata} + multiset(Rdatas(Without(rrs, k)))
  {
    var data := Rdatas(rrs);
    assert data == data[..k] + [data[k]] + data[k + 1..];
    assert Rdatas(Without(rrs, k)) == data[..k] + data[k + 1..];
  }

  lemma {:induction false} RdatasPermute(a: seq<ParsedRecord>, b: seq<ParsedRecord>)
    requires multiset(a) == multiset(b)
    ensures multiset(Rdatas(a)) == multiset(Rdatas(b))
    decreases |a|
  {
    hide Without, Rdatas;
    if a == [] {
      assert |multiset(b)| == 0;
    } else {
      Members(a, b, 0);
      var k :| 0 <= k < |b| && b[k] == a[0];
      WithoutRecord(a, 0);
      WithoutRecord(b, k);
      WithoutShorter(a, 0);
      RdatasPermute(Without(a, 0), Without(b, k));
      WithoutData(a, 0);
      WithoutData(b, k);
    }
  }

  lemma WithoutShorter(rrs: seq<ParsedRecord>, k: nat)
    requires k < |rrs|
    ensures |Without(rrs, k)| == |rrs| - 1
  {
  }

  /** Records that agree in all but TTL and position are signed alike. */
  lemma {:induction false} SameRecordsData(ttl: uint32, a: seq<ParsedRecord>, b: seq<ParsedRecord>)
    requires |a| == |b|
    requires forall i :: 0 <= i < |a| ==> RecordData(ttl, a[i]) == RecordData(ttl, b[i])
    ensures RecordsData(ttl, a) == RecordsData(ttl, b)
  {
    hide RecordData;
    if a != [] {
      SameRecordsData(ttl, a[1..], b[1..]);
    }
  }

  /**
    For records that share owner, type and class: whichever way they arrived, whatever TTLs they
    carried and whichever sorted form the sort produced, the signed data is the same.
   */
  lemma SignedDataCanonical(rrsig: bytes, owner: bytes, rtype: uint16, rclass: uint16,
                            a: seq<ParsedRecord>, sortedA: seq<ParsedRecord>,
                            b: seq<ParsedRecord>, sortedB: seq<ParsedRecord>)
    requires |rrsig| >= RRSIG_FIXED
    requires Covered(owner, rtype, a) && OneClass(rclass, a) && SortedForm(sortedA, a)
    requires Covered(owner, rtype, b) && OneClass(rclass, b) && SortedForm(sortedB, b)
    requires multiset(Rdatas(a)) == multiset(Rdatas(b))
    ensures SignedData(rrsig, sortedA) == SignedData(rrsig, sortedB)
  {
    hide Ordered, Less, NameBytes, Labels, Lower, U16, U32, GetU32, NameAt, RecordsData;
    CoveredSorted(owner, rtype, sortedA, a);
    CoveredSorted(owner, rtype, sortedB, b);
    ClassSorted(rclass, sortedA, a);
    ClassSorted(rclass, sortedB, b);
    RdatasPermute(sortedA, a);
    RdatasPermute(sortedB, b);
    OrderedUnique(Rdatas(sortedA), Rdatas(sortedB));
    forall i | 0 <= i < |sortedA|
      ensures RecordData(GetU32(rrsig, 4), sortedA[i]) == RecordData(GetU32(rrsig, 4), sortedB[i])
    {
      assert Rdatas(sortedA)[i] == Rdatas(sortedB)[i];
    }
    SameRecordsData(GetU32(rrsig, 4), sortedA, sortedB);
  }

  /** Records with the same data have the same class. */
  ghost predicate ClassByData(rrs: seq<ParsedRecord>) {
    forall i, j :: 0 <= i < |rrs| && 0 <= j < |rrs| && rrs[i].rdata == rrs[j].rdata ==> rrs[i].rclass == rrs[j].rclass
  }

  lemma {:induction false} OneRecordDiffers(ttl: uint32, a: seq<ParsedRecord>, b: seq<ParsedRecord>, i: nat)
    requires i < |a| && i < |b| && a[..i] == b[..i]
    requires |RecordData(ttl, a[i])| == |RecordData(ttl, b[i])| && RecordData(ttl, a[i]) != RecordData(ttl, b[i])
    ensures RecordsData(ttl, a) != RecordsData(ttl, b)
    decreases i
  {
    hide RecordData;
    var x, y := RecordData(ttl, a[0]), RecordData(ttl, b[0]);
    var more, more' := RecordsData(ttl, a[1..]), RecordsData(ttl, b[1..]);
    if i == 0 {
      assert (x + more)[..|x|] == x && (y + more')[..|x|] == y;
    } else {
      assert a[0] == a[..i][0] == b[..i][0] == b[0];
      assert a[1..][..i - 1] == a[..i][1..] && b[1..][..i - 1] == b[..i][1..];
      OneRecordDiffers(ttl, a[1..], b[1..], i - 1);
      assert (x + more)[|x|..] == more && (x + more')[|x|..] == more';
    }
  }

  lemma OtherClassDiffers(ttl: uint32, r: ParsedRecord, s: ParsedRecord)
    requires r.name == s.name && r.rtype == s.rtype && r.rdLength == s.rdLength && r.rdata == s.rdata
              && r.rclass != s.rclass
    ensures |RecordData(ttl, r)| == |RecordData(ttl, s)| && RecordData(ttl, r) != RecordData(ttl, s)
  {
    hide NameBytes, Labels, Lower;
    var at := |NameBytes(Labels(Lower(r.name)))| + 2;
    assert GetU16(RecordData(ttl, r), at) == r.rclass && GetU16(RecordData(ttl, s), at) == s.rclass;
  }

  lemma Swapped(rrs: seq<ParsedRecord>, i: nat, j: nat)
    requires i < j < |rrs| && rrs[i].rdata == rrs[j].rdata && Ordered(Rdatas(rrs))
    ensures SortedForm(rrs[i := rrs[j]][j := rrs[i]], rrs)
  {
    hide Ordered;
    assert Rdatas(rrs[i := rrs[j]][j := rrs[i]]) == Rdatas(rrs);
  }

  lemma Positions(rrset: seq<ParsedRecord>, sorted: seq<ParsedRecord>) returns (i: nat, j: nat)
    requires multiset(sorted) == multiset(rrset) && !ClassByData(rrset)
    ensures i < j < |sorted| && sorted[i].rdata == sorted[j].rdata && sorted[i].rclass != sorted[j].rclass
  {
    var p, q :| 0 <= p < |rrset| && 0 <= q < |rrset| && rrset[p].rdata == rrset[q].rdata
        && rrset[p].rclass != rrset[q].rclass;
    Members(rrset, sorted, p);
    Members(rrset, sorted, q);
    i :| 0 <= i < |sorted| && sorted[i] == rrset[p];
    j :| 0 <= j < |sorted| && sorted[j] == rrset[q];
    if i > j {
      i, j := j, i;
    }
  }

  lemma SameFormsAgree(rrsig: bytes, owner: bytes, rtype: uint16, rrset: seq<ParsedRecord>, a: seq<ParsedRecord>,
                       b: seq<ParsedRecord>)
    requires |rrsig| >= RRSIG_FIXED && Covered(owner, rtype, rrset) && ClassByData(rrset)
    requires SortedForm(a, rrset) && SortedForm(b, rrset)
    ensures SignedData(rrsig, a) == SignedData(rrsig, b)
  {
    hide Ordered, Less, NameBytes, Labels, Lower, U16, U32, GetU32, NameAt, RecordsData;
    RdatasPermute(a, b);
    OrderedUnique(Rdatas(a), Rdatas(b));
    CoveredSorted(owner, rtype, a, rrset);
    CoveredSorted(owner, rtype, b, rrset);
    forall i | 0 <= i < |a|
      ensures RecordData(GetU32(rrsig, 4), a[i]) == RecordData(GetU32(rrsig, 4), b[i])
    {
      Members(a, rrset, i);
      Members(b, rrset, i);
      assert Rdatas(a)[i] == Rdatas(b)[i];
    }
    SameRecordsData(GetU32(rrsig, 4), a, b);
  }

  /**
    The selection for a signature does not look at the class.  The outcome of the unstable sort
    leaves the signed data open exactly when two records with the same data differ in class.
   */
  lemma SignedDataDetermined(rrsig: bytes, owner: bytes, rtype: uint16, rrset: seq<ParsedRecord>)
    requires |rrsig| >= RRSIG_FIXED && Covered(owner, rtype, rrset)
    ensures (forall a, b :: SortedForm(a, rrset) && SortedForm(b, rrset) ==>
            SignedData(rrsig, a) == SignedData(rrsig, b))
            <==> ClassByData(rrset)
  {
    hide Ordered, Less, SignedData, RecordData, Covered;
    if ClassByData(rrset) {
      forall a, b | SortedForm(a, rrset) && SortedForm(b, rrset)
        ensures SignedData(rrsig, a) == SignedData(rrsig, b)
      {
        SameFormsAgree(rrsig, owner, rtype, rrset, a, b);
      }
    } else {
      var sorted := SortRrset(rrset);
      SortRrsetSorts(rrset);
      var i, j := Positions(rrset, sorted);
      Swapped(sorted, i, j);
      CoveredSorted(owner, rtype, sorted, rrset);
      SwapShows(rrsig, owner, rtype, sorted, i, j);
    }
  }

  lemma SwapShows(rrsig: bytes, owner: bytes, rtype: uint16, rrs: seq<ParsedRecord>, i: nat, j: nat)
    requires |rrsig| >= RRSIG_FIXED && Covered(owner, rtype, rrs)
    requires i < j < |rrs| && rrs[i].rdata == rrs[j].rdata && rrs[i].rclass != rrs[j].rclass
    ensures SignedData(rrsig, rrs) != SignedData(rrsig, rrs[i := rrs[j]][j := rrs[i]])
  {
    hide NameBytes, Labels, Lower, NameAt, RecordData, RecordsData, GetU32;
    var ttl, swapped := GetU32(rrsig, 4), rrs[i := rrs[j]][j := rrs[i]];
    var pre := rrsig[..RRSIG_FIXED] + NameBytes(Labels(Lower(NameAt(rrsig, RRSIG_FIXED))));
    OtherClassDiffers(ttl, rrs[i], rrs[j]);
    OneRecordDiffers(ttl, rrs, swapped, i);
    assert (pre + RecordsData(ttl, rrs))[|pre|..] == RecordsData(ttl, rrs);
    assert (pre + RecordsData(ttl, swapped))[|pre|..] == RecordsData(ttl, swapped);
  }

  /** A response with two answers for the root that differ in class only. */
  function TwoClasses(rtype: uint16, c: uint16, d: uint16, ttl: uint32, data: bytes): bytes
    requires |data| < 0x1_0000
  {
    Message(0, 0x8180, [], [WireRecord([], rtype, c, ttl, data), WireRecord([], rtype, d, ttl, data)], [], [])
  }

  lemma TwoClassesRead(rtype: uint16, c: uint16, d: uint16, ttl: uint32, data: bytes)
    requires |data| < 0x1_0000
    ensures RecordsOf(TwoClasses(rtype, c, d, ttl, data)) == Some(Extracted(0, [
        ParsedRecord([], rtype, c, ttl, |data|, data, HEADER + 11),
        ParsedRecord([], rtype, d, ttl, |data|, data, HEADER + 22 + |data|)], [], []))
  {
    hide RecordsOf, QuestionsOf, Message, RecordBytes, GetU16;
    var one, two := WireRecord([], rtype, c, ttl, data), WireRecord([], rtype, d, ttl, data);
    MessageRead(0, 0x8180, [], [one, two], [], []);
    RecordSize(one);
    assert |NameBytes([])| == 1 && Lower(Join([])) == [] && SectionBytes([]) == [];
    assert [one, two][1..] == [two] && [two][1..] == [];
    var next := HEADER + |RecordBytes(one)|;
    assert AsRecords([two], next) == [AsRecord(two, next)];
    assert AsRecords([one, two], HEADER) == [AsRecord(one, HEADER), AsRecord(two, next)];
  }

  lemma EqualDataOrdered(rrs: seq<ParsedRecord>, data: bytes)
    requires forall i :: 0 <= i < |rrs| ==> rrs[i].rdata == data
    ensures Ordered(Rdatas(rrs))
  {
    hide Less;
    LessIrreflexive(data);
  }

  /**
    A response for which the signed data is open: two answers with the same owner, type and data and
    different classes.  Both orders are sorted, and they sign differently, whatever the signature.
   */
  lemma TwoClassesOpen(rrsig: bytes, rtype: uint16, c: uint16, d: uint16, ttl: uint32, data: bytes)
    requires |rrsig| >= RRSIG_FIXED && |data| < 0x1_0000 && c != d
    ensures var answers := RecordsOf(TwoClasses(rtype, c, d, ttl, data)).value.answers;
            && |answers| == 2 && Covered([], rtype, answers)
            && var other := [answers[1], answers[0]];
            && SortedForm(answers, answers) && SortedForm(other, answers)
            && SignedData(rrsig, answers) != SignedData(rrsig, other)
  {
    hide Ordered, Less, SignedData, RecordsOf, TwoClasses;
    TwoClassesRead(rtype, c, d, ttl, data);
    var answers := RecordsOf(TwoClasses(rtype, c, d, ttl, data)).value.answers;
    var other := [answers[1], answers[0]];
    EqualDataOrdered(answers, data);
    EqualDataOrdered(other, data);
    assert other == answers[0 := answers[1]][1 := answers[0]];
    SwapShows(rrsig, [], rtype, answers, 0, 1);
  }
}
