/** Case randomisation of a query before it is forwarded: `Apply0x20Encoding` (pkg/dns/handler.go). */
module CaseRewrite {
  import opened Bytes
  import opened Wire
  import opened Questions

  /** A letter takes the case that a random octet says; `|= 0x20` and `&^= 0x20` on letters. */
  function Recase(b: byte, coin: byte): byte {
    if !IsLetter(b) then b
    else if coin % 2 == 0 then LowerByte(b)
    else if b >= 0x61 then b - 0x20 else b
  }

  /** `entropy[i]` is the random octet drawn for position `i`; no position is visited twice. */
  function RecaseAll(s: bytes, entropy: bytes, off: nat): (r: bytes)
    requires off + |s| <= |entropy|
    ensures |r| == |s| && forall i :: 0 <= i < |s| ==> r[i] == Recase(s[i], entropy[off + i])
  {
    seq(|s|, i requires 0 <= i < |s| => Recase(s[i], entropy[off + i]))
  }

  /** The label content from `off` on, as far as it lies inside the query. */
  function MixLabel(query: bytes, off: nat, len: nat, entropy: bytes): (r: bytes)
    requires off <= |query| <= |entropy|
    ensures |r| == |query|
  {
    var end := if off + len <= |query| then off + len else |query|;
    query[..off] + RecaseAll(query[off..end], entropy, off) + query[end..]
  }

  datatype Mixed = Mixed(query: bytes, next: nat)

  function MixName(query: bytes, off: nat, entropy: bytes): (r: Mixed)
    requires |query| <= |entropy|
    ensures |r.query| == |query|
    decreases |query| - off
  {
    if off >= |query| then Mixed(query, off)
    else
      var len := query[off];
      if len == 0 then Mixed(query, off + 1)
      else if IsPointer(len) then Mixed(query, off + 2)
      else MixName(MixLabel(query, off + 1, len, entropy), off + 1 + len, entropy)
  }

  function AfterFixed(len: nat, off: nat): nat {
    if off + 4 <= len then off + 4 else off
  }

  function MixQuestions(query: bytes, off: nat, count: nat, entropy: bytes): (r: bytes)
    requires |query| <= |entropy|
    ensures |r| == |query|
    decreases count
  {
    if count == 0 then query
    else
      var m := MixName(query, off, entropy);
      MixQuestions(m.query, AfterFixed(|query|, m.next), count - 1, entropy)
  }

  function Mix(query: bytes, entropy: bytes): (r: bytes)
    requires |query| <= |entropy|
    ensures |r| == |query|
  {
    if |query| < HEADER then query else MixQuestions(query, HEADER, GetU16(query, 4), entropy)
  }

  method MixLabelAt(query: array<byte>, offset: nat, length: nat, entropy: bytes)
    requires offset <= query.Length <= |entropy|
    modifies query
    ensures query[..] == MixLabel(old(query[..]), offset, length, entropy)
  {
    ghost var before := query[..];
    for j := 0 to length
      invariant forall i :: 0 <= i < query.Length ==>
                  query[i] == if offset <= i < offset + j then Recase(before[i], entropy[i]) else before[i]
    {
      if offset + j >= query.Length {
        break;
      }
      var letter := query[offset + j];
      if IsLetter(letter) {
        if entropy[offset + j] % 2 == 0 {
          letter := if letter < 0x61 then letter + 0x20 else letter;
        } else {
          letter := if letter >= 0x61 then letter - 0x20 else letter;
        }
        query[offset + j] := letter;
      }
    }
  }

  method MixNameAt(query: array<byte>, start: nat, entropy: bytes) returns (offset: nat)
    requires query.Length <= |entropy|
    modifies query
    ensures Mixed(query[..], offset) == MixName(old(query[..]), start, entropy)
  {
    hide MixLabel;
    offset := start;
    while offset < query.Length
      invariant MixName(query[..], offset, entropy) == MixName(old(query[..]), start, entropy)
      decreases query.Length - offset
    {
      var length := query[offset];
      if length == 0 {
        offset := offset + 1;
        return;
      }
      if IsPointer(length) {
        offset := offset + 2;
        return;
      }
      offset := offset + 1;
      MixLabelAt(query, offset, length, entropy);
      offset := offset + length;
    }
  }

  method Apply0x20Encoding(originalQuery: bytes, entropy: bytes) returns (encoded: bytes, expectedNames: seq<bytes>)
    requires |originalQuery| <= |entropy|
    ensures encoded == Mix(originalQuery, entropy)
    ensures expectedNames == if |originalQuery| < HEADER then [] else NamesOf(encoded)
  {
    hide MixName;
    if |originalQuery| < HEADER {
      return originalQuery, [];
    }
    var query := new byte[|originalQuery|](i requires 0 <= i < |originalQuery| => originalQuery[i]);
    assert query[..] == originalQuery;
    var qdcount := GetU16(originalQuery, 4);
    var offset: nat := HEADER;
    for i := 0 to qdcount
      invariant query.Length == |originalQuery|
      invariant MixQuestions(query[..], offset, qdcount - i, entropy)
                == MixQuestions(originalQuery, HEADER, qdcount, entropy)
    {
      offset := MixNameAt(query, offset, entropy);
      if offset + 4 <= query.Length {
        offset := offset + 4;
      }
    }
    encoded := query[..];
    var questions := ExtractQuestions(encoded);
    expectedNames := seq(|questions|, i requires 0 <= i < |questions| => questions[i].name);
  }

  /** The names of the extracted questions. */
  function NamesOf(query: bytes): (r: seq<bytes>)
    ensures |r| == |QuestionsOf(query)|
    ensures forall i :: 0 <= i < |r| ==> r[i] == QuestionsOf(query)[i].name
  {
    seq(|QuestionsOf(query)|, i requires 0 <= i < |QuestionsOf(query)| => QuestionsOf(query)[i].name)
  }

  /** Equal up to the case of ASCII letters. */
  ghost predicate CaseVariant(a: bytes, b: bytes) {
    |a| == |b| && forall i :: 0 <= i < |a| ==> LowerByte(a[i]) == LowerByte(b[i])
  }

  lemma RecaseKeeps(b: byte, coin: byte)
    ensures LowerByte(Recase(b, coin)) == LowerByte(b)
  {
  }

  /** Where the walk over the name at `off` ends. */
  function NameEnd(query: bytes, off: nat): (r: nat)
    ensures off <= r
    decreases |query| - off
  {
    if off >= |query| then off
    else if query[off] == 0 then off + 1
    else if IsPointer(query[off]) then off + 2
    else NameEnd(query, off + 1 + query[off])
  }

  /** Position `p` lies in the text of a label of the name at `off`. */
  predicate InName(query: bytes, off: nat, p: nat)
    decreases |query| - off
  {
    && off < |query| && query[off] != 0 && !IsPointer(query[off])
    && (off < p <= off + query[off] || InName(query, off + 1 + query[off], p))
  }

  /** Position `p` lies in the text of a label of one of the `n` names the walk meets from `off` on. */
  predicate InQuestions(query: bytes, off: nat, n: nat, p: nat)
    decreases n
  {
    n > 0 && (InName(query, off, p) || InQuestions(query, AfterFixed(|query|, NameEnd(query, off)), n - 1, p))
  }

  /** The octets that randomisation may change, as the query alone determines them. */
  predicate Recased(query: bytes, p: nat) {
    HEADER <= |query| && p < |query| && IsLetter(query[p]) && InQuestions(query, HEADER, GetU16(query, 4), p)
  }

  lemma {:induction false} NameLocal(a: bytes, b: bytes, off: nat, p: nat)
    requires |a| == |b| && forall i :: off <= i < |a| ==> a[i] == b[i]
    ensures NameEnd(a, off) == NameEnd(b, off) && InName(a, off, p) == InName(b, off, p)
    decreases |a| - off
  {
    if off < |a| && a[off] != 0 && !IsPointer(a[off]) {
      NameLocal(a, b, off + 1 + a[off], p);
    }
  }

  lemma {:induction false} NameInside(query: bytes, off: nat, p: nat)
    ensures InName(query, off, p) ==> off < p < NameEnd(query, off)
    decreases |query| - off
  {
    if off < |query| && query[off] != 0 && !IsPointer(query[off]) {
      NameInside(query, off + 1 + query[off], p);
    }
  }

  lemma {:induction false} QuestionsLocal(a: bytes, b: bytes, off: nat, n: nat, p: nat)
    requires |a| == |b| && forall i :: off <= i < |a| ==> a[i] == b[i]
    ensures InQuestions(a, off, n, p) == InQuestions(b, off, n, p)
    decreases n
  {
    hide NameEnd, InName;
    if n > 0 {
      NameLocal(a, b, off, p);
      QuestionsLocal(a, b, AfterFixed(|a|, NameEnd(a, off)), n - 1, p);
    }
  }

  lemma {:induction false} QuestionsBeyond(query: bytes, off: nat, n: nat, p: nat)
    ensures InQuestions(query, off, n, p) ==> off < p
    decreases n
  {
    hide NameEnd, InName;
    if n > 0 {
      NameInside(query, off, p);
      QuestionsBeyond(query, AfterFixed(|query|, NameEnd(query, off)), n - 1, p);
    }
  }

  lemma MixLabelOctet(query: bytes, off: nat, len: nat, entropy: bytes, p: nat)
    requires off <= |query| <= |entropy| && p < |query|
    ensures MixLabel(query, off, len, entropy)[p]
            == if off <= p < off + len then Recase(query[p], entropy[p]) else query[p]
  {
  }

  lemma MixLabelBeyond(query: bytes, off: nat, len: nat, entropy: bytes)
    requires off <= |query| <= |entropy|
    ensures forall i :: off + len <= i < |query| ==> MixLabel(query, off, len, entropy)[i] == query[i]
  {
    forall i | off + len <= i < |query|
      ensures MixLabel(query, off, len, entropy)[i] == query[i]
    {
      MixLabelOctet(query, off, len, entropy, i);
    }
  }

  lemma {:induction false} MixNameOctet(query: bytes, off: nat, entropy: bytes, p: nat)
    requires |query| <= |entropy| && p < |query|
    ensures MixName(query, off, entropy).query[p]
            == if InName(query, off, p) then Recase(query[p], entropy[p]) else query[p]
    ensures MixName(query, off, entropy).next == NameEnd(query, off)
    decreases |query| - off
  {
    hide MixLabel, Recase;
    if off < |query| && query[off] != 0 && !IsPointer(query[off]) {
      var len := query[off];
      var mixed := MixLabel(query, off + 1, len, entropy);
      MixLabelBeyond(query, off + 1, len, entropy);
      MixLabelOctet(query, off + 1, len, entropy, p);
      NameLocal(query, mixed, off + 1 + len, p);
      NameInside(query, off + 1 + len, p);
      MixNameOctet(mixed, off + 1 + len, entropy, p);
    }
  }

  lemma MixNameBeyond(query: bytes, off: nat, entropy: bytes)
    requires |query| <= |entropy|
    ensures forall i :: NameEnd(query, off) <= i < |query| ==> MixName(query, off, entropy).query[i] == query[i]
  {
    hide MixName, NameEnd, InName;
    forall i | NameEnd(query, off) <= i < |query|
      ensures MixName(query, off, entropy).query[i] == query[i]
    {
      MixNameOctet(query, off, entropy, i);
      NameInside(query, off, i);
    }
  }

  lemma {:induction false} MixQuestionsOctet(query: bytes, off: nat, n: nat, entropy: bytes, p: nat)
    requires |query| <= |entropy| && p < |query|
    ensures MixQuestions(query, off, n, entropy)[p]
            == if InQuestions(query, off, n, p) then Recase(query[p], entropy[p]) else query[p]
    decreases n
  {
    hide MixName, NameEnd, InName, Recase;
    if n > 0 {
      var m := MixName(query, off, entropy).query;
      var next := AfterFixed(|query|, NameEnd(query, off));
      MixNameOctet(query, off, entropy, p);
      MixNameBeyond(query, off, entropy);
      NameInside(query, off, p);
      QuestionsLocal(query, m, next, n - 1, p);
      QuestionsBeyond(query, next, n - 1, p);
      MixQuestionsOctet(m, next, n - 1, entropy, p);
    }
  }

  /**
    On any input at all: an octet takes the case that its random octet says if it is a letter in
    the text of a label the walk meets behind the header, and is left alone otherwise.
   */
  lemma MixOctet(query: bytes, entropy: bytes, p: nat)
    requires |query| <= |entropy| && p < |query|
    ensures Mix(query, entropy)[p] == if Recased(query, p) then Recase(query[p], entropy[p]) else query[p]
    ensures Recased(query, p) ==> HEADER < p
  {
    hide MixQuestions, InQuestions;
    if |query| >= HEADER {
      MixQuestionsOctet(query, HEADER, GetU16(query, 4), entropy, p);
      QuestionsBeyond(query, HEADER, GetU16(query, 4), p);
    }
  }

  /** `b` is `a` but for the case of letters, and these at recased positions only. */
  ghost predicate Recasing(a: bytes, b: bytes) {
    CaseVariant(a, b) && forall p :: 0 <= p < |a| && !Recased(a, p) ==> b[p] == a[p]
  }

  /** Hence the length and the header stay, and nothing changes but the case of ASCII letters. */
  lemma MixVariant(query: bytes, entropy: bytes)
    requires |query| <= |entropy|
    ensures Recasing(query, Mix(query, entropy))
    ensures |query| >= HEADER ==> Mix(query, entropy)[..HEADER] == query[..HEADER]
  {
    hide Mix, Recased;
    var mixed := Mix(query, entropy);
    forall p | 0 <= p < |query|
      ensures LowerByte(query[p]) == LowerByte(mixed[p]) && (!Recased(query, p) || p < HEADER ==> mixed[p] == query[p])
    {
      MixOctet(query, entropy, p);
    }
  }
}
