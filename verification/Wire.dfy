/**
  Names on the wire (sections 3.1 and 4.1.4 of RFC 1035): the encoding that
  `WriteDomainName` produces, the bounded pointer-chasing reader, and what a chain of
  labels and compression pointers spells independently of any reader.
 */
module Wire {
  import opened Bytes
  import opened Names

  const MAX_JUMPS: nat := 5

  /** A length octet announces a pointer when its two top bits are set, that is, from 0xc0 on. */
  predicate IsPointer(b: byte) {
    0xc0 <= b
  }

  /** The two mask tests of the readers, and the range test used for them here. */
  lemma PointerMask(b: bv8)
    ensures b & 0xc0 == 0xc0 <==> 0xc0 <= b
    ensures 0xc0 <= b ==> b & 0x3f == b - 0xc0
  {
  }

  function PointerTarget(hi: byte, lo: byte): nat
    requires IsPointer(hi)
  {
    (hi as int - 0xc0) * 256 + lo
  }

  /** What `WriteDomainName` writes for these labels; `uint8(len(label))` truncates. */
  function NameBytes(labels: seq<bytes>): bytes {
    if labels == [] then [0]
    else [|labels[0]| % 256] + labels[0] + NameBytes(labels[1..])
  }

  datatype NameRead = NameRead(labels: seq<bytes>, next: nat)

  /**
    `ReadDomainName` from offset `off` with `jumps` pointer hops left.  Reading past the end,
    a reserved length octet, an overlong label and one hop too many all end the name silently.
    `next` is where the caller's offset ends up: after the first pointer, if one was followed.
   */
  function DecodeName(buf: bytes, off: nat, jumps: nat): (r: NameRead)
    ensures WireLabels(r.labels)
    ensures off <= r.next
    ensures off <= |buf| ==> r.next <= |buf|
    ensures off < |buf| ==> off < r.next
    decreases jumps, |buf| - off
  {
    if off >= |buf| then NameRead([], off)
    else
      var len := buf[off];
      if len == 0 then NameRead([], off + 1)
      else if IsPointer(len) then
        if jumps == 0 || off + 1 >= |buf| then NameRead([], off + 1)
        else NameRead(DecodeName(buf, PointerTarget(len, buf[off + 1]), jumps - 1).labels, off + 2)
      else if len > 63 || off + 1 + len > |buf| then NameRead([], off + 1)
      else
        var rest := DecodeName(buf, off + 1 + len, jumps);
        NameRead([buf[off + 1..off + 1 + len]] + rest.labels, rest.next)
  }

  predicate StopsAt(buf: bytes, off: nat, jumps: nat) {
    || off >= |buf| || buf[off] == 0
    || (if IsPointer(buf[off]) then jumps == 0 || off + 1 >= |buf| else buf[off] > 63 || off + 1 + buf[off] > |buf|)
  }

  /** One step of the reader, in the three ways it can go. */
  lemma DecodeStep(buf: bytes, off: nat, jumps: nat)
    ensures StopsAt(buf, off, jumps) ==>
              DecodeName(buf, off, jumps) == NameRead([], if off >= |buf| then off else off + 1)
    ensures !StopsAt(buf, off, jumps) && IsPointer(buf[off]) ==>
              DecodeName(buf, off, jumps)
              == NameRead(DecodeName(buf, PointerTarget(buf[off], buf[off + 1]), jumps - 1).labels, off + 2)
    ensures !StopsAt(buf, off, jumps) && !IsPointer(buf[off]) ==>
              var rest := DecodeName(buf, off + 1 + buf[off], jumps);
              DecodeName(buf, off, jumps) == NameRead([buf[off + 1..off + 1 + buf[off]]] + rest.labels, rest.next)
  {
  }

  /** A fixed-width read: out of bounds it yields 0 and moves the cursor to the end. */
  function ReadU16(buf: bytes, off: nat): (uint16, nat) {
    if off + 2 > |buf| then (0, |buf|) else (GetU16(buf, off), off + 2)
  }

  function ReadU32(buf: bytes, off: nat): (uint32, nat) {
    if off + 4 > |buf| then (0, |buf|) else (GetU32(buf, off), off + 4)
  }

  function ReadName(buf: bytes, off: nat): NameRead {
    DecodeName(buf, off, MAX_JUMPS)
  }

  /** The string `ReadDomainName` returns. */
  function NameAt(buf: bytes, off: nat): bytes {
    Join(ReadName(buf, off).labels)
  }

  /**
    Section 4.1.4 of RFC 1035: from `off`, the message spells `labels` through exactly `hops`
    pointers; a name is a root octet, or a label then a name, or a pointer to a name.
   */
  ghost predicate Spells(buf: bytes, off: nat, labels: seq<bytes>, hops: nat)
    decreases hops, |labels|
  {
    off < |buf| &&
    var len := buf[off];
    if IsPointer(len) then
      hops > 0 && off + 1 < |buf| && Spells(buf, PointerTarget(len, buf[off + 1]), labels, hops - 1)
    else if len == 0 then
      labels == [] && hops == 0
    else
      && len <= 63 && off + 1 + len <= |buf|
      && labels != [] && labels[0] == buf[off + 1..off + 1 + len]
      && Spells(buf, off + 1 + len, labels[1..], hops)
  }

  /**
    The reader is the RFC's decompression: exact on every chain of at most `jumps` pointers,
    and on a longer chain it returns only a prefix of what the message spells.
   */
  lemma {:induction false} ReaderDecompresses(buf: bytes, off: nat, labels: seq<bytes>, hops: nat, jumps: nat)
    requires Spells(buf, off, labels, hops)
    ensures DecodeName(buf, off, jumps).labels <= labels
    ensures hops <= jumps ==> DecodeName(buf, off, jumps).labels == labels
    decreases hops, |labels|
  {
    var len := buf[off];
    if IsPointer(len) {
      if jumps > 0 {
        ReaderDecompresses(buf, PointerTarget(len, buf[off + 1]), labels, hops - 1, jumps - 1);
      }
    } else if len != 0 {
      ReaderDecompresses(buf, off + 1 + len, labels[1..], hops, jumps);
    }
  }

  /** A name ends properly when the reader stops at a root octet and not at a fault. */
  predicate EndsAtRoot(buf: bytes, off: nat, jumps: nat)
    decreases jumps, |buf| - off
  {
    off < |buf| &&
    var len := buf[off];
    if len == 0 then true
    else if IsPointer(len) then
      jumps > 0 && off + 1 < |buf| && EndsAtRoot(buf, PointerTarget(len, buf[off + 1]), jumps - 1)
    else
      len <= 63 && off + 1 + len <= |buf| && EndsAtRoot(buf, off + 1 + len, jumps)
  }

  /** Conversely, every read that ends at a root octet is such a chain, with few enough pointers. */
  lemma {:induction false} RootedReadSpells(buf: bytes, off: nat, jumps: nat) returns (hops: nat)
    requires EndsAtRoot(buf, off, jumps)
    ensures hops <= jumps
    ensures Spells(buf, off, DecodeName(buf, off, jumps).labels, hops)
    decreases jumps, |buf| - off
  {
    var len := buf[off];
    if len == 0 {
      hops := 0;
    } else if IsPointer(len) {
      hops := RootedReadSpells(buf, PointerTarget(len, buf[off + 1]), jumps - 1);
      hops := hops + 1;
    } else {
      hops := RootedReadSpells(buf, off + 1 + len, jumps);
      assert DecodeName(buf, off, jumps).labels[1..] == DecodeName(buf, off + 1 + len, jumps).labels;
    }
  }

  lemma AtNameHead(buf: bytes, off: nat, labels: seq<bytes>)
    requires At(buf, off, NameBytes(labels)) && labels != [] && |labels[0]| < 256
    ensures var len := |labels[0]|;
            && off + 1 + len <= |buf| && buf[off] == len && buf[off + 1..off + 1 + len] == labels[0]
            && At(buf, off + 1 + len, NameBytes(labels[1..]))
  {
    hide At;
    var len := |labels[0]|;
    AtConcat(buf, off, [len] + labels[0], NameBytes(labels[1..]));
    AtConcat(buf, off, [len], labels[0]);
    AtIndex(buf, off, [len], 0);
    AtSlice(buf, off + 1, labels[0]);
  }

  /** What was written is read back, wherever in a buffer it stands. */
  lemma {:induction false} NameRoundTrip(buf: bytes, off: nat, labels: seq<bytes>, jumps: nat)
    requires WireLabels(labels) && At(buf, off, NameBytes(labels))
    ensures DecodeName(buf, off, jumps) == NameRead(labels, off + |NameBytes(labels)|)
    decreases |labels|
  {
    hide At;
    if labels == [] {
      AtIndex(buf, off, NameBytes(labels), 0);
    } else {
      AtNameHead(buf, off, labels);
      NameRoundTrip(buf, off + 1 + |labels[0]|, labels[1..], jumps);
    }
  }

  lemma {:induction false} WrittenNameSpells(buf: bytes, off: nat, labels: seq<bytes>)
    requires WireLabels(labels) && At(buf, off, NameBytes(labels))
    ensures Spells(buf, off, labels, 0)
    decreases |labels|
  {
    hide At;
    if labels == [] {
      AtIndex(buf, off, NameBytes(labels), 0);
    } else {
      AtNameHead(buf, off, labels);
      WrittenNameSpells(buf, off + 1 + |labels[0]|, labels[1..]);
    }
  }

  /** A pointer to a written name reads as that name. */
  lemma PointerRoundTrip(buf: bytes, off: nat, target: nat, labels: seq<bytes>)
    requires WireLabels(labels) && At(buf, target, NameBytes(labels)) && target < 0x4000
    requires At(buf, off, U16(0xc000 + target))
    ensures ReadName(buf, off) == NameRead(labels, off + 2)
  {
    AtIndex(buf, off, U16(0xc000 + target), 0);
    AtIndex(buf, off, U16(0xc000 + target), 1);
    assert PointerTarget(buf[off], buf[off + 1]) == target;
    NameRoundTrip(buf, target, labels, MAX_JUMPS - 1);
  }

  /** A name takes two octets more on the wire than its dotted form has. */
  lemma {:induction false} NameLength(labels: seq<bytes>)
    requires labels != [] && WireLabels(labels)
    ensures |NameBytes(labels)| == |Join(labels)| + 2
  {
    if |labels| == 1 {
      assert NameBytes(labels[1..]) == [0];
    } else {
      NameLength(labels[1..]);
    }
  }

  /** From `off` the reader comes to `stop`, through these labels and that many pointers. */
  ghost predicate Leads(buf: bytes, off: nat, labels: seq<bytes>, hops: nat, stop: nat)
    decreases hops, |labels|
  {
    || (labels == [] && hops == 0 && stop == off)
    || (off < |buf| &&
        var len := buf[off];
        if IsPointer(len) then
          hops > 0 && off + 1 < |buf| && Leads(buf, PointerTarget(len, buf[off + 1]), labels, hops - 1, stop)
        else
          && 0 < len <= 63 && off + 1 + len <= |buf|
          && labels != [] && labels[0] == buf[off + 1..off + 1 + len]
          && Leads(buf, off + 1 + len, labels[1..], hops, stop))
  }

  /** At the end, at a root octet, at a length beyond 63 or beyond the end, at half a pointer, or at a pointer when
      none is left, there is no way on. */
  predicate Stuck(buf: bytes, off: nat, left: nat) {
    || off >= |buf| || buf[off] == 0
    || (buf[off] < 0xC0 && (buf[off] > 63 || |buf| < off + 1 + buf[off]))
    || (buf[off] >= 0xC0 && (left == 0 || |buf| < off + 2))
  }

  /** On every buffer the reader goes on until it is stuck, and returns the labels on its way. */
  lemma {:induction false} ReaderStops(buf: bytes, off: nat, jumps: nat) returns (hops: nat, stop: nat)
    ensures hops <= jumps && Leads(buf, off, DecodeName(buf, off, jumps).labels, hops, stop)
    ensures Stuck(buf, stop, jumps - hops)
    decreases jumps, |buf| - off
  {
    if Stuck(buf, off, jumps) {
      hops, stop := 0, off;
    } else if IsPointer(buf[off]) {
      hops, stop := ReaderStops(buf, PointerTarget(buf[off], buf[off + 1]), jumps - 1);
      hops := hops + 1;
    } else {
      hops, stop := ReaderStops(buf, off + 1 + buf[off], jumps);
      LeadsLabel(buf, off, DecodeName(buf, off + 1 + buf[off], jumps).labels, hops, stop);
    }
  }

  lemma LeadsLabel(buf: bytes, off: nat, labels: seq<bytes>, hops: nat, stop: nat)
    requires off < |buf| && !IsPointer(buf[off]) && 0 < buf[off] <= 63 && off + 1 + buf[off] <= |buf|
    requires Leads(buf, off + 1 + buf[off], labels, hops, stop)
    ensures Leads(buf, off, [buf[off + 1..off + 1 + buf[off]]] + labels, hops, stop)
  {
    assert ([buf[off + 1..off + 1 + buf[off]]] + labels)[1..] == labels;
  }

  /** Without a pointer the cursor ends up behind the octet that ended the name; with pointers, behind the first. */
  lemma {:induction false} ReaderCursor(buf: bytes, off: nat, jumps: nat, labels: seq<bytes>, stop: nat)
    requires Leads(buf, off, labels, 0, stop)
    ensures Stuck(buf, stop, jumps) ==> DecodeName(buf, off, jumps).next == if stop < |buf| then stop + 1 else stop
    ensures !Stuck(buf, stop, jumps) && buf[stop] >= 0xC0 ==> DecodeName(buf, off, jumps).next == stop + 2
    decreases |labels|
  {
    if labels != [] {
      ReaderCursor(buf, off + 1 + buf[off], jumps, labels[1..], stop);
    }
  }
}
