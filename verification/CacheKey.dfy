/** `GenerateCacheKey`: the text that is hashed into a cache key, and why no two question lists share one. */
module CacheKey {
  import opened Bytes
  import opened Questions

  const COLON: byte := 0x3a
  const BAR: byte := 0x7c

  function HexDigit(n: nat): byte
    requires n < 16
  {
    if n < 10 then 0x30 + n else 0x61 + n - 10
  }

  function Hex(s: bytes): bytes {
    if s == [] then [] else [HexDigit(s[0] / 16), HexDigit(s[0] % 16)] + Hex(s[1..])
  }

  function Decimal(n: nat): bytes {
    if n < 10 then [0x30 + n] else Decimal(n / 10) + [0x30 + n % 10]
  }

  function Part(q: ParsedQuestion): bytes {
    Hex(q.name) + [COLON] + Decimal(q.qtype)
  }

  /** What is hashed: `hex(name):type` for each question, joined by bars. */
  function RawKey(qs: seq<ParsedQuestion>): bytes {
    if qs == [] then []
    else if |qs| == 1 then Part(qs[0])
    else Part(qs[0]) + [BAR] + RawKey(qs[1..])
  }

  ghost predicate Injective(hash: bytes -> bytes) {
    forall a, b :: hash(a) == hash(b) ==> a == b
  }

  ghost predicate SameQuestions(a: seq<ParsedQuestion>, b: seq<ParsedQuestion>) {
    |a| == |b| && forall i :: 0 <= i < |a| ==> a[i].name == b[i].name && a[i].qtype == b[i].qtype
  }

  /** A text is cut in one way only at the first occurrence of a separator. */
  lemma CutUnique(a: bytes, b: bytes, c: bytes, d: bytes, sep: byte)
    requires sep !in a && sep !in c && a + [sep] + b == c + [sep] + d
    ensures a == c && b == d
  {
    var s := a + [sep] + b;
    assert s[|a|] == sep && s[|c|] == sep;
    assert forall i :: 0 <= i < |a| ==> s[i] == a[i] && a[i] != sep;
    assert forall i :: 0 <= i < |c| ==> s[i] == c[i] && c[i] != sep;
    assert a == s[..|a|] && c == s[..|c|];
    assert b == s[|a| + 1..] && d == s[|c| + 1..];
  }

  lemma {:induction false} HexPlain(s: bytes)
    ensures COLON !in Hex(s) && BAR !in Hex(s)
  {
    if s != [] {
      HexPlain(s[1..]);
    }
  }

  lemma {:induction false} HexInjective(a: bytes, b: bytes)
    requires Hex(a) == Hex(b)
    ensures a == b
  {
    if a != [] && b != [] {
      var x, y := Hex(a), Hex(b);
      assert x[0] == HexDigit(a[0] / 16) && x[1] == HexDigit(a[0] % 16) && x[2..] == Hex(a[1..]);
      assert y[0] == HexDigit(b[0] / 16) && y[1] == HexDigit(b[0] % 16) && y[2..] == Hex(b[1..]);
      assert a[0] == b[0];
      HexInjective(a[1..], b[1..]);
      assert a == [a[0]] + a[1..] && b == [b[0]] + b[1..];
    }
  }

  function Value(digits: bytes): int {
    if digits == [] then 0 else Value(digits[..|digits| - 1]) * 10 + digits[|digits| - 1] as int - 0x30
  }

  lemma {:induction false} DecimalValue(n: nat)
    ensures Value(Decimal(n)) == n && BAR !in Decimal(n)
  {
    if n >= 10 {
      DecimalValue(n / 10);
      var d := Decimal(n);
      assert d[..|d| - 1] == Decimal(n / 10);
    } else {
      assert Value([]) == 0;
      assert [0x30 + n][..0] == [];
    }
  }

  lemma PartInjective(p: ParsedQuestion, q: ParsedQuestion)
    ensures BAR !in Part(p)
    ensures Part(p) == Part(q) ==> p.name == q.name && p.qtype == q.qtype
  {
    hide Hex, Decimal;
    HexPlain(p.name);
    HexPlain(q.name);
    DecimalValue(p.qtype);
    DecimalValue(q.qtype);
    if Part(p) == Part(q) {
      CutUnique(Hex(p.name), Decimal(p.qtype), Hex(q.name), Decimal(q.qtype), COLON);
      HexInjective(p.name, q.name);
    }
  }

  lemma PartNonEmpty(p: ParsedQuestion)
    ensures Part(p) != []
  {
  }

  /** Different question lists have different key texts, the empty list included. */
  lemma {:induction false} RawKeyInjective(a: seq<ParsedQuestion>, b: seq<ParsedQuestion>)
    requires RawKey(a) == RawKey(b)
    ensures SameQuestions(a, b)
  {
    hide Part, SameQuestions;
    if a == [] || b == [] {
      if a != [] { PartNonEmpty(a[0]); }
      if b != [] { PartNonEmpty(b[0]); }
      SameNone();
    } else {
      PartInjective(a[0], b[0]);
      PartInjective(b[0], a[0]);
      var x, y := RawKey(a), RawKey(b);
      if |a| > 1 {
        assert x[|Part(a[0])|] == BAR;
      }
      if |b| > 1 {
        assert y[|Part(b[0])|] == BAR;
      }
      if |a| > 1 && |b| > 1 {
        CutUnique(Part(a[0]), RawKey(a[1..]), Part(b[0]), RawKey(b[1..]), BAR);
        RawKeyInjective(a[1..], b[1..]);
      } else {
        SameNone();
      }
      SameCons(a, b);
    }
  }

  lemma SameNone()
    ensures SameQuestions([], [])
  {
  }

  lemma SameCons(a: seq<ParsedQuestion>, b: seq<ParsedQuestion>)
    requires a != [] && b != [] && a[0].name == b[0].name && a[0].qtype == b[0].qtype && SameQuestions(a[1..], b[1..])
    ensures SameQuestions(a, b)
  {
  }
}
