/** The key tag of a DNSKEY (pkg/dns/dnssec.go) for every algorithm but 1. */
module KeyTag {
  import opened Bytes

  const WORD32: nat := 0x1_0000_0000

  /** The sum of the big-endian 16-bit words of the data, the last one padded with a zero octet. */
  function WordSum(data: bytes): nat {
    if |data| == 0 then 0
    else if |data| == 1 then GetU16(data + [0], 0)
    else GetU16(data, 0) + WordSum(data[2..])
  }

  lemma {:induction false} WordSumSnoc(data: bytes, b: byte)
    ensures WordSum(data + [b]) == WordSum(data) + if |data| % 2 == 0 then 256 * b else b
  {
    if |data| == 1 {
      assert (data + [b])[2..] == [];
    } else if |data| > 1 {
      assert (data + [b])[2..] == data[2..] + [b];
      WordSumSnoc(data[2..], b);
    }
  }

  lemma {:induction false} WordSumBound(data: bytes)
    ensures WordSum(data) <= 0xFFFF * ((|data| + 1) / 2)
  {
    if |data| > 1 {
      WordSumBound(data[2..]);
    }
  }

  /** On the data of any record, which is at most 65535 octets, 32 bits are enough. */
  lemma NoOverflow(data: bytes)
    requires |data| <= 0xFFFF
    ensures WordSum(data) < WORD32 && WordSum(data) % WORD32 == WordSum(data)
  {
    WordSumBound(data);
  }

  /** The tag for a sum (appendix B of RFC 4034): the upper half is added to the lower one. */
  function Fold(s: nat): uint16 {
    (s + s / 0x1_0000) % 0x1_0000
  }

  /** Masking the upper half, and wrapping around once more, make no difference. */
  lemma FoldMod(ac: nat)
    requires ac < WORD32
    ensures (ac + ac / 0x1_0000 % 0x1_0000) % WORD32 % 0x1_0000 == Fold(ac)
  {
    assert ac / 0x1_0000 % 0x1_0000 == ac / 0x1_0000;
  }

  lemma Folded(s: nat)
    ensures Fold(s) == (s + s / 0x1_0000) % 0x1_0000
  {
  }

  lemma AddMod(sum: nat, x: nat)
    ensures (sum % WORD32 + x) % WORD32 == (sum + x) % WORD32
  {
  }

  lemma EmptySum()
    ensures WordSum([]) == 0
  {
  }

  /** The accumulator is an unsigned 32-bit integer: every addition is modulo 2^32. */
  method CalculateKeyTag(rawRdata: bytes) returns (tag: uint16)
    ensures tag == Fold(WordSum(rawRdata) % WORD32)
    ensures |rawRdata| <= 0xFFFF ==> tag == (WordSum(rawRdata) + WordSum(rawRdata) / 0x1_0000) % 0x1_0000
  {
    hide WordSum, Fold;
    EmptySum();
    var ac: nat := 0;
    for i := 0 to |rawRdata|
      invariant ac == WordSum(rawRdata[..i]) % WORD32
    {
      WordSumSnoc(rawRdata[..i], rawRdata[i]);
      assert rawRdata[..i + 1] == rawRdata[..i] + [rawRdata[i]];
      var octet: nat := rawRdata[i];
      if i % 2 != 0 {
        AddMod(WordSum(rawRdata[..i]), octet);
        ac := (ac + octet) % WORD32;
      } else {
        AddMod(WordSum(rawRdata[..i]), octet * 256);
        ac := (ac + octet * 256) % WORD32;
      }
    }
    assert rawRdata[..|rawRdata|] == rawRdata;
    FoldMod(ac);
    tag := (ac + ac / 0x1_0000 % 0x1_0000) % WORD32 % 0x1_0000;
    if |rawRdata| <= 0xFFFF {
      NoOverflow(rawRdata);
      Folded(WordSum(rawRdata));
    }
  }
}
