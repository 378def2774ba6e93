/**
  The growing buffer of pkg/dns/wire.go: an array, a cursor, and the reads and writes that
  move it.
 */
module WireFormat {
  import opened Bytes
  import opened Names
  import opened Wire

  class DnsWireFormat {
    var Buf: array<byte>
    var Offset: nat

    /** What has been written so far; `Finish` returns it. */
    ghost function Written(): bytes
      reads this, Buf
      requires Offset <= Buf.Length
    {
      Buf[..Offset]
    }

    /** A writer: `NewDnsWireFormat(nil)`. */
    constructor ()
      ensures fresh(Buf) && Offset == 0 && Buf.Length == 4096
    {
      Buf := new byte[4096](_ => 0);
      Offset := 0;
    }

    /** A reader over the octets of a packet. */
    constructor Over(buffer: bytes)
      ensures fresh(Buf) && Offset == 0 && Buf[..] == buffer
    {
      Buf := new byte[|buffer|](i requires 0 <= i < |buffer| => buffer[i]);
      Offset := 0;
    }

    method Grow(n: nat)
      requires Offset <= Buf.Length
      modifies this`Buf
      ensures fresh(Buf) && Offset + n <= Buf.Length && old(Buf.Length) <= Buf.Length
      ensures Buf[..old(Buf.Length)] == old(Buf[..])
    {
      var newLen := Buf.Length * 2;
      if newLen < Offset + n {
        newLen := Offset + n + 1024;
      }
      var newBuf := new byte[newLen](_ => 0);
      forall i | 0 <= i < Buf.Length {
        newBuf[i] := Buf[i];
      }
      assert newBuf[..Buf.Length] == Buf[..];
      Buf := newBuf;
    }

    method WriteBytes(data: bytes)
      requires Offset <= Buf.Length
      modifies this, Buf
      ensures Buf == old(Buf) || fresh(Buf)
      ensures Offset == old(Offset) + |data| <= Buf.Length
      ensures Written() == old(Written()) + data
    {
      if Offset + |data| > Buf.Length {
        Grow(|data|);
        assert Buf[..Offset] == Buf[..old(Buf.Length)][..Offset];
      }
      assert Buf[..Offset] == old(Written());
      var end := Offset + |data|;
      forall i | Offset <= i < end {
        Buf[i] := data[i - Offset];
      }
      assert forall i :: 0 <= i < Offset ==> Buf[i] == old(Written())[i];
      Offset := end;
    }

    method WriteUint8(val: byte)
      requires Offset <= Buf.Length
      modifies this, Buf
      ensures Buf == old(Buf) || fresh(Buf)
      ensures Offset == old(Offset) + 1 <= Buf.Length
      ensures Written() == old(Written()) + [val]
    {
      WriteBytes([val]);
    }

    method WriteUint16(val: uint16)
      requires Offset <= Buf.Length
      modifies this, Buf
      ensures Buf == old(Buf) || fresh(Buf)
      ensures Offset == old(Offset) + 2 <= Buf.Length
      ensures Written() == old(Written()) + U16(val)
    {
      WriteBytes(U16(val));
    }

    method WriteUint32(val: uint32)
      requires Offset <= Buf.Length
      modifies this, Buf
      ensures Buf == old(Buf) || fresh(Buf)
      ensures Offset == old(Offset) + 4 <= Buf.Length
      ensures Written() == old(Written()) + U32(val)
    {
      WriteBytes(U32(val));
    }

    method WriteDomainName(name: bytes)
      requires Offset <= Buf.Length
      modifies this, Buf
      ensures Buf == old(Buf) || fresh(Buf)
      ensures Offset <= Buf.Length
      ensures Written() == old(Written()) + NameBytes(Labels(name))
    {
      hide Split;
      var labels := Split(name);
      ghost var before := Written();
      ghost var all := NameBytes(DropEmpty(labels));
      assert labels[0..] == labels;
      for i := 0 to |labels|
        invariant Offset <= Buf.Length
        invariant Buf == old(Buf) || fresh(Buf)
        invariant Written() + NameBytes(DropEmpty(labels[i..])) == before + all
      {
        var part := labels[i];
        Tail(labels, i);
        ghost var rest := DropEmpty(labels[i + 1..]);
        if |part| == 0 {
          Unit(rest);
          continue;
        }
        assert ([part] + rest)[1..] == rest;
        Assoc(Written(), [|part| % 256] + part, NameBytes(rest));
        Assoc(Written(), [|part| % 256], part);
        WriteUint8(|part| % 256);
        WriteBytes(part);
      }
      WriteUint8(0);
    }

    /** `binary.BigEndian.PutUint16(dw.Buf[at:], val)` on octets already written. */
    method PutUint16(at: nat, val: uint16)
      requires at + 2 <= Offset <= Buf.Length
      modifies Buf
      ensures Written() == Patch(old(Written()), at, U16(val))
    {
      Buf[at] := val / 256;
      Buf[at + 1] := val % 256;
    }

    method ReadUint16() returns (val: uint16)
      modifies this`Offset
      ensures (val, Offset) == Wire.ReadU16(Buf[..], old(Offset))
    {
      if Offset + 2 > Buf.Length {
        Offset := Buf.Length;
        return 0;
      }
      val := Buf[Offset] as int * 256 + Buf[Offset + 1];
      Offset := Offset + 2;
    }

    method ReadUint32() returns (val: uint32)
      modifies this`Offset
      ensures (val, Offset) == Wire.ReadU32(Buf[..], old(Offset))
    {
      if Offset + 4 > Buf.Length {
        Offset := Buf.Length;
        return 0;
      }
      val := GetU32(Buf[..], Offset);
      Offset := Offset + 4;
    }

    method ReadDomainName() returns (name: bytes)
      modifies this`Offset
      ensures name == NameAt(Buf[..], old(Offset))
      ensures Offset == ReadName(Buf[..], old(Offset)).next
    {
      hide WireLabels, Join, DecodeName;
      ghost var buf := Buf[..];
      ghost var whole := ReadName(buf, Offset);
      var labels: seq<bytes> := [];
      var jumps := 0;
      var currentOffset: nat := Offset;
      var savedOffset: int := -1;
      while true
        invariant 0 <= jumps <= MAX_JUMPS && -1 <= savedOffset
        invariant whole.labels == labels + DecodeName(buf, currentOffset, MAX_JUMPS - jumps).labels
        invariant savedOffset == -1 ==> whole.next == DecodeName(buf, currentOffset, MAX_JUMPS - jumps).next
        invariant savedOffset != -1 ==> whole.next == savedOffset
        invariant savedOffset == -1 ==> jumps == 0
        decreases MAX_JUMPS - jumps, Buf.Length - currentOffset
      {
        DecodeStep(buf, currentOffset, MAX_JUMPS - jumps);
        Unit(labels);
        if currentOffset >= Buf.Length {
          break;
        }
        var length := Buf[currentOffset];
        currentOffset := currentOffset + 1;
        if length == 0 {
          break;
        }
        if IsPointer(length) {
          jumps := jumps + 1;
          if jumps > MAX_JUMPS {
            break;
          }
          if currentOffset >= Buf.Length {
            break;
          }
          var ptr := PointerTarget(length, Buf[currentOffset]);
          currentOffset := currentOffset + 1;
          if savedOffset == -1 {
            savedOffset := currentOffset;
          }
          currentOffset := ptr;
          continue;
        }
        if length > 63 || currentOffset + length > Buf.Length {
          break;
        }
        var labelBytes := Buf[currentOffset..currentOffset + length];
        currentOffset := currentOffset + length;
        Assoc(labels, [labelBytes], DecodeName(buf, currentOffset, MAX_JUMPS - jumps).labels);
        labels := labels + [labelBytes];
      }
      if savedOffset != -1 {
        Offset := savedOffset;
      } else {
        Offset := currentOffset;
      }
      name := Join(labels);
    }

    method Finish() returns (packet: bytes)
      requires Offset <= Buf.Length
      ensures packet == Written()
    {
      packet := Buf[..Offset];
    }
  }
}
