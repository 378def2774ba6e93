/**
  Dotted names: Go's `strings.Split(name, ".")` and `strings.Join(labels, ".")`, and the
  normal form a name takes once its empty labels are dropped.
 */
module Names {
  import opened Bytes

  const DOT: byte := 46

  function Split(s: bytes): (r: seq<bytes>)
    ensures |r| >= 1
  {
    if s == [] then [[]]
    else
      var rest := Split(s[1..]);
      if s[0] == DOT then [[]] + rest else [[s[0]] + rest[0]] + rest[1..]
  }

  function Join(labels: seq<bytes>): bytes {
    if labels == [] then []
    else if |labels| == 1 then labels[0]
    else labels[0] + [DOT] + Join(labels[1..])
  }

  function DropEmpty(labels: seq<bytes>): seq<bytes> {
    if labels == [] then []
    else (if labels[0] == [] then [] else [labels[0]]) + DropEmpty(labels[1..])
  }

  /** The labels that `WriteDomainName` puts on the wire. */
  function Labels(name: bytes): seq<bytes> {
    DropEmpty(Split(name))
  }

  function Normalise(name: bytes): bytes {
    Join(Labels(name))
  }

  /** Every label has 1 to 63 octets, as section 2.3.4 of RFC 1035 demands. */
  predicate WireLabels(labels: seq<bytes>) {
    forall i :: 0 <= i < |labels| ==> 1 <= |labels[i]| <= 63
  }

  predicate DotFree(labels: seq<bytes>) {
    forall i :: 0 <= i < |labels| ==> DOT !in labels[i]
  }

  predicate AtMost(labels: seq<bytes>, n: nat) {
    forall i :: 0 <= i < |labels| ==> |labels[i]| <= n
  }

  lemma {:induction false} SplitParts(s: bytes)
    ensures DotFree(Split(s)) && AtMost(Split(s), |s|)
  {
    if s != [] {
      SplitParts(s[1..]);
    }
  }

  lemma {:induction false} SplitConcat(a: bytes, b: bytes)
    ensures Split(a + [DOT] + b) == Split(a) + Split(b)
  {
    hide Split;
    var s := a + [DOT] + b;
    SplitHead(s);
    if a == [] {
      assert s[1..] == b;
      SplitNothing();
    } else {
      assert s[1..] == a[1..] + [DOT] + b;
      SplitConcat(a[1..], b);
      SplitHead(a);
    }
  }

  lemma SplitHead(s: bytes)
    requires s != []
    ensures var rest := Split(s[1..]);
            Split(s) == if s[0] == DOT then [[]] + rest else [[s[0]] + rest[0]] + rest[1..]
  {
  }

  lemma SplitNothing()
    ensures Split([]) == [[]]
  {
  }

  lemma {:induction false} SplitDotFree(a: bytes)
    requires DOT !in a
    ensures Split(a) == [a]
  {
    if a != [] {
      SplitDotFree(a[1..]);
      assert [a[0]] + a[1..] == a;
    }
  }

  lemma {:induction false} SplitJoin(labels: seq<bytes>)
    requires labels != [] && DotFree(labels)
    ensures Split(Join(labels)) == labels
  {
    SplitDotFree(labels[0]);
    if |labels| > 1 {
      SplitJoin(labels[1..]);
      SplitConcat(labels[0], Join(labels[1..]));
    }
  }

  lemma {:induction false} JoinSplit(s: bytes)
    ensures Join(Split(s)) == s
  {
    if s != [] {
      var rest := Split(s[1..]);
      JoinSplit(s[1..]);
      if s[0] == DOT {
        assert Split(s)[1..] == rest;
        assert [DOT] + s[1..] == s;
      } else {
        assert Split(s)[1..] == rest[1..];
        assert [s[0]] + s[1..] == s;
        if |rest| > 1 {
          assert Join(Split(s)) == [s[0]] + (rest[0] + [DOT] + Join(rest[1..]));
        }
      }
    }
  }

  lemma {:induction false} DropEmptyParts(labels: seq<bytes>, n: nat)
    requires AtMost(labels, n)
    ensures AtMost(DropEmpty(labels), n)
    ensures DotFree(labels) ==> DotFree(DropEmpty(labels))
    ensures forall i :: 0 <= i < |DropEmpty(labels)| ==> DropEmpty(labels)[i] != []
  {
    if labels != [] {
      DropEmptyParts(labels[1..], n);
    }
  }

  lemma {:induction false} DropEmptyConcat(a: seq<bytes>, b: seq<bytes>)
    ensures DropEmpty(a + b) == DropEmpty(a) + DropEmpty(b)
  {
    if a == [] {
      assert a + b == b;
    } else {
      assert (a + b)[1..] == a[1..] + b;
      DropEmptyConcat(a[1..], b);
    }
  }

  lemma {:induction false} DropEmptyIdentity(labels: seq<bytes>)
    requires forall i :: 0 <= i < |labels| ==> labels[i] != []
    ensures DropEmpty(labels) == labels
  {
    if labels != [] {
      DropEmptyIdentity(labels[1..]);
    }
  }

  lemma {:induction false} SplitJoinBound(labels: seq<bytes>, n: nat)
    requires AtMost(labels, n)
    ensures AtMost(Split(Join(labels)), n)
  {
    if |labels| == 1 {
      SplitParts(labels[0]);
    } else if |labels| > 1 {
      SplitParts(labels[0]);
      SplitJoinBound(labels[1..], n);
      SplitConcat(labels[0], Join(labels[1..]));
    }
  }

  /**
    Whatever labels a name was joined from, rewriting it yields labels that fit the wire
    whenever the original ones did: a dot inside a label only cuts it shorter.
   */
  lemma RejoinedLabelsFit(labels: seq<bytes>)
    requires AtMost(labels, 63)
    ensures WireLabels(Labels(Join(labels)))
  {
    SplitJoinBound(labels, 63);
    DropEmptyParts(Split(Join(labels)), 63);
  }

  /** Labels that already are non-empty and dot-free survive joining and splitting. */
  lemma LabelsJoin(labels: seq<bytes>)
    requires DotFree(labels) && forall i :: 0 <= i < |labels| ==> labels[i] != []
    ensures Labels(Join(labels)) == labels
  {
    if labels != [] {
      SplitJoin(labels);
    }
    DropEmptyIdentity(labels);
  }

  /** The normal form keeps the labels, so normalising twice is normalising once. */
  lemma NormaliseKeepsLabels(name: bytes)
    ensures Labels(Normalise(name)) == Labels(name)
    ensures Normalise(Normalise(name)) == Normalise(name)
  {
    SplitParts(name);
    DropEmptyParts(Split(name), |name|);
    LabelsJoin(Labels(name));
  }

  lemma {:induction false} LowerJoin(a: seq<bytes>, b: seq<bytes>)
    requires |a| == |b| && forall i :: 0 <= i < |a| ==> Lower(a[i]) == Lower(b[i])
    ensures Lower(Join(a)) == Lower(Join(b))
  {
    if |a| == 1 {
      assert Lower(a[0]) == Lower(b[0]);
    } else if |a| > 1 {
      assert Lower(a[0]) == Lower(b[0]);
      LowerJoin(a[1..], b[1..]);
      LowerConcat(a[0], [DOT] + Join(a[1..]));
      LowerConcat(b[0], [DOT] + Join(b[1..]));
      LowerConcat([DOT], Join(a[1..]));
      LowerConcat([DOT], Join(b[1..]));
      assert Join(a) == a[0] + ([DOT] + Join(a[1..]));
      assert Join(b) == b[0] + ([DOT] + Join(b[1..]));
    }
  }

  lemma LowerConcat(a: bytes, b: bytes)
    ensures Lower(a + b) == Lower(a) + Lower(b)
  {
  }

  function LowerEach(labels: seq<bytes>): (r: seq<bytes>)
    ensures |r| == |labels| && forall i :: 0 <= i < |r| ==> r[i] == Lower(labels[i])
  {
    seq(|labels|, i requires 0 <= i < |labels| => Lower(labels[i]))
  }

  lemma {:induction false} SplitLower(s: bytes)
    ensures Split(Lower(s)) == LowerEach(Split(s))
  {
    if s != [] {
      SplitLower(s[1..]);
      assert Lower(s)[1..] == Lower(s[1..]);
      var rest := Split(s[1..]);
      assert s[0] != DOT ==> Lower([s[0]] + rest[0]) == [LowerByte(s[0])] + Lower(rest[0]);
    }
  }

  lemma {:induction false} DropEmptyLower(labels: seq<bytes>)
    ensures DropEmpty(LowerEach(labels)) == LowerEach(DropEmpty(labels))
  {
    if labels != [] {
      DropEmptyLower(labels[1..]);
      assert LowerEach(labels)[1..] == LowerEach(labels[1..]);
      assert |Lower(labels[0])| == |labels[0]|;
    }
  }

  /** Lower-casing a name lower-cases its labels. */
  lemma LabelsLower(s: bytes)
    ensures Labels(Lower(s)) == LowerEach(Labels(s))
    ensures WireLabels(Labels(s)) ==> WireLabels(Labels(Lower(s)))
  {
    SplitLower(s);
    DropEmptyLower(Split(s));
  }

  lemma LowerTwice(s: bytes)
    ensures Lower(Lower(s)) == Lower(s)
  {
  }

  lemma {:induction false} LowerJoinEach(labels: seq<bytes>)
    ensures Lower(Join(LowerEach(labels))) == Join(LowerEach(labels))
  {
    hide Lower;
    LowerDot();
    if |labels| == 1 {
      LowerTwice(labels[0]);
    } else if |labels| > 1 {
      var rest := Join(LowerEach(labels[1..]));
      assert LowerEach(labels)[1..] == LowerEach(labels[1..]);
      LowerJoinEach(labels[1..]);
      LowerTwice(labels[0]);
      LowerConcat(Lower(labels[0]), [DOT]);
      LowerConcat(Lower(labels[0]) + [DOT], rest);
    }
  }

  lemma LowerDot()
    ensures Lower([DOT]) == [DOT] && Lower([]) == []
  {
  }

  /** The canonical form of a name: lower case, without empty labels. */
  function Canonical(name: bytes): bytes {
    Normalise(Lower(name))
  }

  lemma CanonicalIsLower(name: bytes)
    ensures Lower(Canonical(name)) == Canonical(name)
  {
    LabelsLower(name);
    LowerJoinEach(Labels(name));
  }
}
