/** The signed data of an RRset (pkg/dns/dnssec.go). */
module Dnssec {
  import opened Bytes
  import opened Names
  import opened Wire
  import opened Answers
  import opened Records

  /** The length of the longest common prefix. */
  function Common(a: bytes, b: bytes): (k: nat)
    ensures k <= |a| && k <= |b| && a[..k] == b[..k]
    ensures k == |a| || k == |b| || a[k] != b[k]
  {
    if a == [] || b == [] || a[0] != b[0] then 0
    else
      assert a == [a[0]] + a[1..] && b == [b[0]] + b[1..];
      1 + Common(a[1..], b[1..])
  }

  /** The canonical order of RR data (section 6.3 of RFC 4034): octet by octet, and the absence of
      an octet sorts first. */
  predicate Less(a: bytes, b: bytes) {
    var k := Common(a, b);
    k < |b| && (k == |a| || a[k] < b[k])
  }

  lemma CommonUnique(a: bytes, b: bytes, k: nat)
    requires k <= |a| && k <= |b| && a[..k] == b[..k]
    requires k == |a| || k == |b| || a[k] != b[k]
    ensures Common(a, b) == k
  {
    hide Common;
    var c := Common(a, b);
    assert forall i :: 0 <= i < k ==> a[i] == a[..k][i] && b[i] == b[..k][i];
    assert forall i :: 0 <= i < c ==> a[i] == a[..c][i] && b[i] == b[..c][i];
  }

  /** The comparison the sort is given. */
  method RdataLess(a: bytes, b: bytes) returns (less: bool)
    ensures less == Less(a, b)
  {
    hide Common;
    var minLen := if |b| < |a| then |b| else |a|;
    for k := 0 to minLen
      invariant a[..k] == b[..k]
    {
      if a[k] != b[k] {
        CommonUnique(a, b, k);
        return a[k] < b[k];
      }
    }
    CommonUnique(a, b, minLen);
    less := |a| < |b|;
  }

  /** What the order is: the first octet in which two strings differ decides, and a prefix comes first. */
  lemma LessMeaning(prefix: bytes, x: byte, s: bytes, y: byte, t: bytes)
    ensures x != y ==> (Less(prefix + [x] + s, prefix + [y] + t) <==> x < y)
    ensures Less(prefix, prefix + [x] + s) && !Less(prefix + [x] + s, prefix)
  {
    hide Common;
    var a, b, k := prefix + [x] + s, prefix + [y] + t, |prefix|;
    assert a[..k] == prefix == b[..k] && a[k] == x && b[k] == y;
    if x != y {
      CommonUnique(a, b, k);
    }
    assert prefix[..k] == prefix;
    CommonUnique(prefix, a, k);
    CommonUnique(a, prefix, k);
  }

  /** The order is total: distinct strings are always ordered. */
  lemma LessTotal(a: bytes, b: bytes)
    requires !Less(a, b) && !Less(b, a)
    ensures a == b
  {
    hide Common;
    var k := Common(a, b);
    CommonUnique(b, a, k);
    assert a == a[..k] && b == b[..k];
  }

  lemma LessTransitive(a: bytes, b: bytes, c: bytes)
    requires Less(a, b) && Less(b, c)
    ensures Less(a, c)
  {
    hide Common;
    var i, j := Common(a, b), Common(b, c);
    var k := if i < j then i else j;
    assert a[..k] == a[..i][..k] && b[..k] == b[..i][..k] == b[..j][..k] && c[..k] == c[..j][..k];
    assert i < j ==> b[i] == b[..j][i] == c[..j][i];
    CommonUnique(a, c, k);
  }

  lemma LessIrreflexive(a: bytes)
    ensures !Less(a, a)
  {
    CommonUnique(a, a, |a|);
  }

  function Rdatas(rrs: seq<ParsedRecord>): (r: seq<bytes>)
    ensures |r| == |rrs| && forall i :: 0 <= i < |r| ==> r[i] == rrs[i].rdata
  {
    seq(|rrs|, i requires 0 <= i < |rrs| => rrs[i].rdata)
  }

  ghost predicate Ordered(data: seq<bytes>) {
    forall i, j :: 0 <= i < j < |data| ==> !Less(data[j], data[i])
  }

  /** All that is known of the result of the library sort, which is not stable. */
  ghost predicate SortedForm(sorted: seq<ParsedRecord>, rrset: seq<ParsedRecord>) {
    Ordered(Rdatas(sorted)) && multiset(sorted) == multiset(rrset)
  }

  lemma NotLessTransitive(a: bytes, b: bytes, c: bytes)
    requires !Less(b, a) && !Less(c, b)
    ensures !Less(c, a)
  {
    hide Less;
    if Less(c, a) {
      if Less(a, b) {
        LessTransitive(c, a, b);
      } else {
        LessTotal(a, b);
      }
    }
  }

  lemma LessAsymmetric(a: bytes, b: bytes)
    requires Less(a, b)
    ensures !Less(b, a)
  {
    hide Less;
    LessIrreflexive(a);
    if Less(b, a) {
      LessTransitive(a, b, a);
    }
  }

  lemma OrderedCons(rr: ParsedRecord, rrs: seq<ParsedRecord>)
    requires Ordered(Rdatas(rrs)) && forall x :: x in rrs ==> !Less(x.rdata, rr.rdata)
    ensures Ordered(Rdatas([rr] + rrs))
  {
    hide Less;
    var data := Rdatas([rr] + rrs);
    forall i, j | 0 <= i < j < |data|
      ensures !Less(data[j], data[i])
    {
      assert rrs[j - 1] in rrs && Rdatas(rrs)[j - 1] == data[j];
      if i > 0 {
        assert Rdatas(rrs)[i - 1] == data[i];
      }
    }
  }

  lemma OrderedTail(rrs: seq<ParsedRecord>)
    requires rrs != [] && Ordered(Rdatas(rrs))
    ensures Ordered(Rdatas(rrs[1..])) && forall x :: x in rrs[1..] ==> !Less(x.rdata, rrs[0].rdata)
  {
    hide Less;
    var data := Rdatas(rrs);
    assert Rdatas(rrs[1..]) == data[1..];
    forall x | x in rrs[1..]
      ensures !Less(x.rdata, rrs[0].rdata)
    {
      var j :| 0 <= j < |rrs[1..]| && rrs[1..][j] == x;
      assert !Less(data[j + 1], data[0]);
    }
  }

  function Insert(rr: ParsedRecord, rrs: seq<ParsedRecord>): seq<ParsedRecord> {
    if rrs != [] && Less(rrs[0].rdata, rr.rdata) then [rrs[0]] + Insert(rr, rrs[1..]) else [rr] + rrs
  }

  /** One of the results the library sort may have. */
  function SortRrset(rrset: seq<ParsedRecord>): seq<ParsedRecord> {
    if rrset == [] then [] else Insert(rrset[0], SortRrset(rrset[1..]))
  }

  lemma {:induction false} InsertOrdered(rr: ParsedRecord, rrs: seq<ParsedRecord>)
    requires Ordered(Rdatas(rrs))
    ensures Ordered(Rdatas(Insert(rr, rrs))) && multiset(Insert(rr, rrs)) == multiset{rr} + multiset(rrs)
  {
    hide Less, Ordered;
    if rrs != [] {
      OrderedTail(rrs);
      assert rrs == [rrs[0]] + rrs[1..];
    }
    if rrs != [] && Less(rrs[0].rdata, rr.rdata) {
      var rest := Insert(rr, rrs[1..]);
      InsertOrdered(rr, rrs[1..]);
      LessAsymmetric(rrs[0].rdata, rr.rdata);
      assert forall x :: x in rest ==> x in multiset(rest);
      OrderedCons(rrs[0], rest);
    } else {
      forall x | x in rrs
        ensures !Less(x.rdata, rr.rdata)
      {
        if x in rrs[1..] {
          NotLessTransitive(rr.rdata, rrs[0].rdata, x.rdata);
        }
      }
      OrderedCons(rr, rrs);
    }
  }

  lemma {:induction false} SortRrsetSorts(rrset: seq<ParsedRecord>)
    ensures SortedForm(SortRrset(rrset), rrset)
  {
    hide Less, Insert;
    if rrset != [] {
      assert rrset == [rrset[0]] + rrset[1..];
      SortRrsetSorts(rrset[1..]);
      InsertOrdered(rrset[0], SortRrset(rrset[1..]));
    }
  }

  lemma OrderedDrop(a: seq<bytes>)
    requires a != [] && Ordered(a)
    ensures Ordered(a[1..])
  {
    hide Less;
  }

  lemma SameMembers(a: seq<bytes>, b: seq<bytes>)
    requires multiset(a) == multiset(b)
    ensures |a| == |b| && forall x :: x in a <==> x in b
  {
    assert |multiset(a)| == |multiset(b)|;
    assert forall x :: x in a <==> x in multiset(a);
  }

  lemma HeadsEqual(a: seq<bytes>, b: seq<bytes>)
    requires a != [] && b != [] && Ordered(a) && Ordered(b) && a[0] in b && b[0] in a
    ensures a[0] == b[0]
  {
    hide Less, Ordered;
    FirstIsLeast(a, b[0]);
    FirstIsLeast(b, a[0]);
    LessTotal(a[0], b[0]);
  }

  lemma TailMultiset(a: seq<bytes>)
    requires a != []
    ensures multiset(a[1..]) == multiset(a) - multiset{a[0]}
  {
    assert a == [a[0]] + a[1..];
  }

  /** Strings in order are determined by which strings they are. */
  lemma {:induction false} OrderedUnique(a: seq<bytes>, b: seq<bytes>)
    requires Ordered(a) && Ordered(b) && multiset(a) == multiset(b)
    ensures a == b
    decreases |a|
  {
    hide Less, Ordered;
    SameMembers(a, b);
    if a != [] {
      HeadsEqual(a, b);
      TailMultiset(a);
      TailMultiset(b);
      OrderedDrop(a);
      OrderedDrop(b);
      OrderedUnique(a[1..], b[1..]);
      Reassembled(a, b);
    }
  }

  lemma Reassembled(a: seq<bytes>, b: seq<bytes>)
    requires a != [] && b != [] && a[0] == b[0] && a[1..] == b[1..]
    ensures a == b
  {
    assert a == [a[0]] + a[1..] && b == [b[0]] + b[1..];
  }

  lemma FirstIsLeast(a: seq<bytes>, x: bytes)
    requires Ordered(a) && x in a
    ensures !Less(x, a[0])
  {
    hide Less;
    LessIrreflexive(x);
  }

  /** One record as it is signed: canonical owner, type, class, the TTL of the signature, data. */
  function RecordData(ttl: uint32, rr: ParsedRecord): bytes {
    NameBytes(Labels(Lower(rr.name))) + (U16(rr.rtype) + U16(rr.rclass) + U32(ttl) + U16(rr.rdLength) + rr.rdata)
  }

  function RecordsData(ttl: uint32, rrs: seq<ParsedRecord>): bytes {
    if rrs == [] then [] else RecordData(ttl, rrs[0]) + RecordsData(ttl, rrs[1..])
  }

  const RRSIG_FIXED: nat := 18

  /** What is hashed: the RRSIG data without the signature, then the records (section 3.1.8.1 of RFC 4034). */
  function SignedData(rrsig: bytes, rrs: seq<ParsedRecord>): bytes
    requires |rrsig| >= RRSIG_FIXED
  {
    rrsig[..RRSIG_FIXED] + NameBytes(Labels(Lower(NameAt(rrsig, RRSIG_FIXED)))) + RecordsData(GetU32(rrsig, 4), rrs)
  }

  method EncodeCanonicalName(name: bytes) returns (r: bytes)
    ensures r == NameBytes(Labels(Lower(name)))
  {
    r := EncodeName(Lower(name));
  }

  /** The octets `verifySignature` hashes. */
  method AssembleSignedData(rrsig: bytes, rrset: seq<ParsedRecord>) returns (signedData: bytes)
    requires |rrsig| >= RRSIG_FIXED
    ensures exists sorted :: SortedForm(sorted, rrset) && signedData == SignedData(rrsig, sorted)
  {
    hide Less, Labels, NameBytes, Lower, SortedForm, GetU32, NameAt, U16, U32;
    var signerNameCanonical := EncodeCanonicalName(NameAt(rrsig, RRSIG_FIXED));
    var originalTtl := GetU32(rrsig, 4);
    signedData := rrsig[..RRSIG_FIXED] + signerNameCanonical;
    var sortedRrset := SortRrset(rrset);
    SortRrsetSorts(rrset);
    ghost var all := SignedData(rrsig, sortedRrset);
    assert sortedRrset[0..] == sortedRrset;
    for i := 0 to |sortedRrset|
      invariant signedData + RecordsData(originalTtl, sortedRrset[i..]) == all
    {
      var rr := sortedRrset[i];
      var ownerCanonical := EncodeCanonicalName(rr.name);
      var header := U16(rr.rtype) + U16(rr.rclass) + U32(originalTtl) + U16(rr.rdLength);
      Tail(sortedRrset, i);
      Assoc(signedData, RecordData(originalTtl, rr), RecordsData(originalTtl, sortedRrset[i + 1..]));
      Assoc(signedData, ownerCanonical, header + rr.rdata);
      Assoc(signedData + ownerCanonical, header, rr.rdata);
      signedData := signedData + ownerCanonical + header + rr.rdata;
    }
    Unit(signedData);
  }
}
