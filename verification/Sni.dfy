/** Reading the server name out of a TLS ClientHello (`extractSNI`, pkg/proxy/sni.go). */
module Sni {
  import opened Bytes

  const MAX_TLS_EXTENSIONS: nat := 50
  const HELLO_HEAD: nat := 43

  datatype SniResult =
    | Found(name: bytes)
    | NotClientHello
    | HelloOutOfBounds
    | TooManyExtensions
    | SniOutOfBounds
    | NoSni

  /** The first entry of a server_name extension; None if it is no host name. */
  function ServerName(data: bytes, offset: nat, extEnd: nat): (r: Option<SniResult>)
    requires extEnd <= |data|
  {
    if offset + 3 > extEnd then Some(SniOutOfBounds)
    else if data[offset + 2] != 0 then None
    else if offset + 5 > extEnd then Some(SniOutOfBounds)
    else
      var nameLength := GetU16(data, offset + 3);
      if offset + 5 + nameLength > extEnd then Some(SniOutOfBounds)
      else Some(Found(data[offset + 5..offset + 5 + nameLength]))
  }

  /** The extensions from `offset` on, when `count` have been read. */
  function Scan(data: bytes, offset: nat, end: nat, count: nat): SniResult
    requires end <= |data|
    decreases |data| - offset
  {
    if offset >= end || offset + 4 > |data| then NoSni
    else if count > MAX_TLS_EXTENSIONS then TooManyExtensions
    else
      var next := offset + 4 + GetU16(data, offset + 2);
      if GetU16(data, offset) != 0 then Scan(data, next, end, count + 1)
      else if next > end then SniOutOfBounds
      else
        var name := ServerName(data, offset + 4, next);
        if name.Some? then name.value else Scan(data, next, end, count + 1)
  }

  datatype Block = Block(start: nat, end: nat)

  /** Where the extensions are; None when a length runs past the data. */
  function Extensions(data: bytes): (r: Option<Block>)
    ensures r.Some? ==> r.value.start <= r.value.end <= |data|
  {
    if HELLO_HEAD >= |data| then None
    else
      var suites := HELLO_HEAD + 1 + data[HELLO_HEAD];
      if suites + 2 > |data| then None
      else
        var methods := suites + 2 + GetU16(data, suites);
        if methods >= |data| then None
        else
          var extensions := methods + 1 + data[methods];
          if extensions + 2 > |data| || extensions + 2 + GetU16(data, extensions) > |data| then None
          else Some(Block(extensions + 2, extensions + 2 + GetU16(data, extensions)))
  }

  function Sni(data: bytes): SniResult {
    if |data| < 6 || data[0] != 0x16 || data[5] != 1 then NotClientHello
    else if Extensions(data).None? then HelloOutOfBounds
    else Scan(data, Extensions(data).value.start, Extensions(data).value.end, 0)
  }

  /** The fixed part and the three vectors before the extensions. */
  method LocateExtensions(data: bytes) returns (r: Option<Block>)
    ensures r == Extensions(data)
  {
    var offset: nat := HELLO_HEAD;
    if offset >= |data| {
      return None;
    }
    var sessionIdLength: nat := data[offset];
    offset := offset + 1 + sessionIdLength;
    if offset >= |data| {
      return None;
    }
    if offset + 2 > |data| {
      return None;
    }
    var cipherSuitesLength: nat := GetU16(data, offset);
    offset := offset + 2 + cipherSuitesLength;
    if offset >= |data| {
      return None;
    }
    var compressionMethodsLength: nat := data[offset];
    offset := offset + 1 + compressionMethodsLength;
    if offset + 2 > |data| {
      return None;
    }
    var extensionsLength: nat := GetU16(data, offset);
    offset := offset + 2;
    if offset + extensionsLength > |data| {
      return None;
    }
    r := Some(Block(offset, offset + extensionsLength));
  }

  method ReadServerName(data: bytes, offset: nat, extEnd: nat) returns (r: Option<SniResult>)
    requires extEnd <= |data|
    ensures r == ServerName(data, offset, extEnd)
  {
    var sniOffset := offset;
    if sniOffset + 2 > extEnd {
      return Some(SniOutOfBounds);
    }
    sniOffset := sniOffset + 2;
    if sniOffset + 1 > extEnd {
      return Some(SniOutOfBounds);
    }
    var nameType := data[sniOffset];
    if nameType != 0 {
      return None;
    }
    sniOffset := sniOffset + 1;
    if sniOffset + 2 > extEnd {
      return Some(SniOutOfBounds);
    }
    var nameLength := GetU16(data, sniOffset);
    sniOffset := sniOffset + 2;
    if sniOffset + nameLength > extEnd {
      return Some(SniOutOfBounds);
    }
    r := Some(Found(data[sniOffset..sniOffset + nameLength]));
  }

  method ExtractSNI(data: bytes) returns (r: SniResult)
    ensures r == Sni(data)
  {
    hide ServerName, GetU16, Extensions;
    if |data| < 6 || data[0] != 0x16 || data[5] != 1 {
      return NotClientHello;
    }
    var block := LocateExtensions(data);
    if block.None? {
      return HelloOutOfBounds;
    }
    var offset, extensionsEnd := block.value.start, block.value.end;
    var extCount := 0;
    while offset < extensionsEnd && offset + 4 <= |data|
      invariant extensionsEnd <= |data|
      invariant Scan(data, offset, extensionsEnd, extCount) == Sni(data)
      decreases |data| - offset
    {
      if extCount > MAX_TLS_EXTENSIONS {
        return TooManyExtensions;
      }
      extCount := extCount + 1;
      var extType := GetU16(data, offset);
      var extLength := GetU16(data, offset + 2);
      offset := offset + 4;
      if extType == 0 {
        var extEnd := offset + extLength;
        if extEnd > extensionsEnd {
          return SniOutOfBounds;
        }
        var name := ReadServerName(data, offset, extEnd);
        if name.Some? {
          return name.value;
        }
      }
      offset := offset + extLength;
    }
    r := NoSni;
  }

  /** One extension (section 4.2 of RFC 8446). */
  datatype Extension = Extension(etype: uint16, data: bytes)

  /** A ClientHello (section 4.1.2 of RFC 8446); `head` is all up to and including the random, with
      the record and handshake headers, of which the parser reads two octets. */
  datatype ClientHello = ClientHello(
    head: bytes, sessionId: bytes, cipherSuites: bytes, compression: bytes, extensions: seq<Extension>)

  function ExtensionBytes(x: Extension): bytes
    requires |x.data| < 0x1_0000
  {
    U16(x.etype) + (U16(|x.data|) + x.data)
  }

  predicate Encodable(exts: seq<Extension>) {
    forall i :: 0 <= i < |exts| ==> |exts[i].data| < 0x1_0000
  }

  function ExtensionsBytes(exts: seq<Extension>): bytes
    requires Encodable(exts)
  {
    if exts == [] then [] else ExtensionBytes(exts[0]) + ExtensionsBytes(exts[1..])
  }

  predicate WellFormed(h: ClientHello) {
    && |h.head| == HELLO_HEAD && h.head[0] == 0x16 && h.head[5] == 1
    && |h.sessionId| < 256 && |h.cipherSuites| < 0x1_0000 && |h.compression| < 256
    && Encodable(h.extensions) && |ExtensionsBytes(h.extensions)| < 0x1_0000
  }

  function Encode(h: ClientHello): bytes
    requires WellFormed(h)
  {
    h.head
    + (([|h.sessionId|] + h.sessionId)
    + ((U16(|h.cipherSuites|) + h.cipherSuites)
    + (([|h.compression|] + h.compression)
    + (U16(|ExtensionsBytes(h.extensions)|) + ExtensionsBytes(h.extensions)))))
  }

  /** What the extensions themselves say: the first server_name extension that starts with a host
      name or is malformed, among the first 51 extensions. */
  function Selected(exts: seq<Extension>, count: nat): SniResult {
    if exts == [] then NoSni
    else if count > MAX_TLS_EXTENSIONS then TooManyExtensions
    else if exts[0].etype == 0 && ServerName(exts[0].data, 0, |exts[0].data|).Some? then
      ServerName(exts[0].data, 0, |exts[0].data|).value
    else Selected(exts[1..], count + 1)
  }

  lemma ServerNameMoved(data: bytes, off: nat, inner: bytes)
    requires At(data, off, inner)
    ensures off + |inner| <= |data|
    ensures ServerName(data, off, off + |inner|) == ServerName(inner, 0, |inner|)
  {
    assert data[off..off + |inner|] == inner;
    assert forall i :: 0 <= i < |inner| ==> data[off + i] == inner[i];
    if |inner| >= 5 && 5 + GetU16(inner, 3) <= |inner| {
      assert data[off + 5..off + 5 + GetU16(inner, 3)] == inner[5..5 + GetU16(inner, 3)];
    }
  }

  lemma ExtensionAt(data: bytes, off: nat, x: Extension)
    requires |x.data| < 0x1_0000 && At(data, off, ExtensionBytes(x))
    ensures off + 4 <= |data| && GetU16(data, off) == x.etype && GetU16(data, off + 2) == |x.data|
    ensures At(data, off + 4, x.data) && |ExtensionBytes(x)| == 4 + |x.data|
  {
    hide At, GetU16;
    AtConcat(data, off, U16(x.etype), U16(|x.data|) + x.data);
    AtConcat(data, off + 2, U16(|x.data|), x.data);
    AtU16(data, off, x.etype);
    AtU16(data, off + 2, |x.data|);
    AtEnd(data, off + 4, x.data);
  }

  lemma {:induction false} ScanEncoded(data: bytes, off: nat, exts: seq<Extension>, count: nat)
    requires Encodable(exts) && At(data, off, ExtensionsBytes(exts))
    ensures off + |ExtensionsBytes(exts)| <= |data|
    ensures Scan(data, off, off + |ExtensionsBytes(exts)|, count) == Selected(exts, count)
    decreases |exts|
  {
    hide At, GetU16, ServerName, ExtensionBytes;
    AtEnd(data, off, ExtensionsBytes(exts));
    if exts != [] {
      var x := exts[0];
      AtConcat(data, off, ExtensionBytes(x), ExtensionsBytes(exts[1..]));
      ExtensionAt(data, off, x);
      ServerNameMoved(data, off + 4, x.data);
      ScanEncoded(data, off + |ExtensionBytes(x)|, exts[1..], count + 1);
    }
  }

  lemma VectorAt8(data: bytes, off: nat, v: bytes)
    requires |v| < 256 && At(data, off, [|v|] + v)
    ensures off < |data| && data[off] == |v|
  {
    AtIndex(data, off, [|v|] + v, 0);
  }

  lemma VectorAt16(data: bytes, off: nat, v: bytes)
    requires |v| < 0x1_0000 && At(data, off, U16(|v|) + v)
    ensures off + 2 + |v| <= |data| && GetU16(data, off) == |v| && At(data, off + 2, v)
  {
    hide GetU16, At;
    AtConcat(data, off, U16(|v|), v);
    AtU16(data, off, |v|);
    AtEnd(data, off + 2, v);
  }

  /** The parser finds the extension block of an encoded hello. */
  lemma HelloLayout(data: bytes, h: ClientHello)
    requires WellFormed(h) && At(data, 0, Encode(h))
    ensures Extensions(data).Some? && |data| >= HELLO_HEAD && data[0] == 0x16 && data[5] == 1
    ensures var b := Extensions(data).value;
            && At(data, b.start, ExtensionsBytes(h.extensions))
            && b.end == b.start + |ExtensionsBytes(h.extensions)| == |Encode(h)|
  {
    hide At, GetU16, U16, ExtensionsBytes;
    var exts := ExtensionsBytes(h.extensions);
    var sid, suites := [|h.sessionId|] + h.sessionId, U16(|h.cipherSuites|) + h.cipherSuites;
    var methods, tail := [|h.compression|] + h.compression, U16(|exts|) + exts;
    var o1 := HELLO_HEAD;
    var o2 := o1 + |sid|;
    var o3 := o2 + |suites|;
    var o4 := o3 + |methods|;
    AtConcat(data, 0, h.head, sid + (suites + (methods + tail)));
    AtConcat(data, o1, sid, suites + (methods + tail));
    AtConcat(data, o2, suites, methods + tail);
    AtConcat(data, o3, methods, tail);
    AtIndex(data, 0, h.head, 0);
    AtIndex(data, 0, h.head, 5);
    VectorAt8(data, o1, h.sessionId);
    VectorAt16(data, o2, h.cipherSuites);
    VectorAt8(data, o3, h.compression);
    VectorAt16(data, o4, exts);
  }

  /** On an encoded ClientHello, whatever follows it, the parser does what the extensions say. */
  lemma EncodedHello(h: ClientHello, trailing: bytes)
    requires WellFormed(h)
    ensures Sni(Encode(h) + trailing) == Selected(h.extensions, 0)
  {
    hide At, Encode, ExtensionsBytes, Scan, Extensions, Selected;
    var data := Encode(h) + trailing;
    AtPrefix(Encode(h), trailing);
    HelloLayout(data, h);
    ScanEncoded(data, Extensions(data).value.start, h.extensions, 0);
  }

  /** A server_name extension that starts with a host_name entry (section 3 of RFC 6066). */
  function HostNameData(listLength: uint16, name: bytes, more: bytes): bytes
    requires |name| < 0x1_0000
  {
    U16(listLength) + ([0] + (U16(|name|) + (name + more)))
  }

  lemma HostNameRead(listLength: uint16, name: bytes, more: bytes)
    requires |name| < 0x1_0000
    ensures var d := HostNameData(listLength, name, more); ServerName(d, 0, |d|) == Some(Found(name))
  {
    hide At, U16, GetU16;
    var d := HostNameData(listLength, name, more);
    AtWhole(d);
    AtConcat(d, 0, U16(listLength), [0] + (U16(|name|) + (name + more)));
    AtConcat(d, 2, [0], U16(|name|) + (name + more));
    AtConcat(d, 3, U16(|name|), name + more);
    AtConcat(d, 5, name, more);
    AtIndex(d, 2, [0], 0);
    AtU16(d, 3, |name|);
    AtSlice(d, 5, name);
  }

  lemma {:induction false} SelectedFirst(exts: seq<Extension>, k: nat, count: nat, name: bytes)
    requires k < |exts| && exts[k].etype == 0 && ServerName(exts[k].data, 0, |exts[k].data|) == Some(Found(name))
    requires forall i :: 0 <= i < k ==> exts[i].etype != 0
    ensures Selected(exts, count) == if count + k <= MAX_TLS_EXTENSIONS then Found(name) else TooManyExtensions
    decreases k
  {
    hide ServerName;
    if k > 0 && count <= MAX_TLS_EXTENSIONS {
      SelectedFirst(exts[1..], k - 1, count + 1, name);
    }
  }

  /**
    For every encoded ClientHello whose first server_name extension, at position `k`, starts with a
    host name: the parser returns exactly that name if and only if it is among the first 51 extensions.
   */
  lemma FirstServerName(h: ClientHello, trailing: bytes, k: nat, listLength: uint16, name: bytes, more: bytes)
    requires WellFormed(h) && |name| < 0x1_0000 && k < |h.extensions|
    requires h.extensions[k] == Extension(0, HostNameData(listLength, name, more))
    requires forall i :: 0 <= i < k ==> h.extensions[i].etype != 0
    ensures Sni(Encode(h) + trailing) == if k <= MAX_TLS_EXTENSIONS then Found(name) else TooManyExtensions
  {
    hide Encode, Sni, ServerName, HostNameData, Selected;
    HostNameRead(listLength, name, more);
    SelectedFirst(h.extensions, k, 0, name);
    EncodedHello(h, trailing);
  }

  lemma Appended(data: bytes, more: bytes, off: nat)
    ensures off < |data| ==> (data + more)[off] == data[off]
    ensures off + 2 <= |data| ==> GetU16(data + more, off) == GetU16(data, off)
  {
  }

  lemma {:induction false} ScanAppended(data: bytes, more: bytes, off: nat, end: nat, count: nat)
    requires end <= |data| && Scan(data, off, end, count).Found?
    ensures Scan(data + more, off, end, count) == Scan(data, off, end, count)
    decreases |data| - off
  {
    hide GetU16, ServerName;
    Appended(data, more, off);
    Appended(data, more, off + 2);
    var next := off + 4 + GetU16(data, off + 2);
    if GetU16(data, off) == 0 {
      NameAppended(data, more, off + 4, next);
    }
    if GetU16(data, off) != 0 || ServerName(data, off + 4, next).None? {
      ScanAppended(data, more, next, end, count + 1);
    }
  }

  lemma NameAppended(data: bytes, more: bytes, off: nat, extEnd: nat)
    requires extEnd <= |data|
    ensures ServerName(data + more, off, extEnd) == ServerName(data, off, extEnd)
  {
    assert forall lo, hi :: 0 <= lo <= hi <= |data| ==> (data + more)[lo..hi] == data[lo..hi];
  }

  lemma ExtensionsAppended(data: bytes, more: bytes)
    requires Extensions(data).Some?
    ensures Extensions(data + more) == Extensions(data)
  {
    hide GetU16;
    var suites := HELLO_HEAD + 1 + data[HELLO_HEAD];
    var methods := suites + 2 + GetU16(data, suites);
    Appended(data, more, HELLO_HEAD);
    Appended(data, more, suites);
    Appended(data, more, methods);
    Appended(data, more, methods + 1 + data[methods]);
  }

  /** On any octets at all: a name that was found is still found when more octets have arrived. */
  lemma TrailingIgnored(data: bytes, more: bytes)
    requires Sni(data).Found?
    ensures Sni(data + more) == Sni(data)
  {
    hide Extensions, Scan;
    ExtensionsAppended(data, more);
    ScanAppended(data, more, Extensions(data).value.start, Extensions(data).value.end, 0);
  }

  /** The first entry of the list is there, and is no host name. */
  predicate OtherName(data: bytes) {
    |data| >= 3 && data[2] != 0
  }

  /** A server_name extension, unless it is passed over for its first entry. */
  predicate Decisive(x: Extension) {
    x.etype == 0 && !OtherName(x.data)
  }

  ghost predicate HoldsName(data: bytes, name: bytes) {
    |name| < 0x1_0000 && exists listLength: uint16, more :: data == HostNameData(listLength, name, more)
  }

  lemma NameParts(data: bytes)
    requires |data| >= 5 && data[2] == 0 && 5 + GetU16(data, 3) <= |data|
    ensures var n := GetU16(data, 3); HoldsName(data, data[5..5 + n])
  {
    var n := GetU16(data, 3);
    var name, more := data[5..5 + n], data[5 + n..];
    assert data == HostNameData(GetU16(data, 0), name, more);
  }

  /** A decisive extension yields the name it holds, and an error if it holds none. */
  lemma DecisiveName(data: bytes, name: bytes)
    requires !OtherName(data)
    ensures var r := ServerName(data, 0, |data|);
            && r.Some? && (r.value == Found(name) <==> HoldsName(data, name))
            && (r.value.Found? || r.value.SniOutOfBounds?)
  {
    hide HostNameData;
    if HoldsName(data, name) {
      var listLength: uint16, more :| data == HostNameData(listLength, name, more);
      HostNameRead(listLength, name, more);
    } else if |data| >= 5 && 5 + GetU16(data, 3) <= |data| {
      NameParts(data);
    }
  }

  lemma PassedOver(x: Extension)
    requires x.etype == 0 && OtherName(x.data)
    ensures ServerName(x.data, 0, |x.data|).None?
  {
  }

  /** `k` is the position of the first decisive extension, or the number of extensions. */
  ghost predicate FirstDecisive(exts: seq<Extension>, k: nat) {
    k <= |exts| && (forall i :: 0 <= i < k ==> !Decisive(exts[i])) && (k < |exts| ==> Decisive(exts[k]))
  }

  lemma {:induction false} SelectedDecisive(exts: seq<Extension>, k: nat, count: nat)
    requires FirstDecisive(exts, k)
    ensures Selected(exts, count)
            == if k < |exts| && count + k <= MAX_TLS_EXTENSIONS then ServerName(exts[k].data, 0, |exts[k].data|).value
               else if k == |exts| && (k == 0 || count + k <= MAX_TLS_EXTENSIONS + 1) then NoSni
               else TooManyExtensions
    decreases k
  {
    hide ServerName, OtherName;
    if exts != [] && count <= MAX_TLS_EXTENSIONS {
      if k == 0 {
        DecisiveName(exts[0].data, []);
      } else {
        if exts[0].etype == 0 {
          PassedOver(exts[0]);
        }
        SelectedDecisive(exts[1..], k - 1, count + 1);
      }
    }
  }

  /**
    What the parser returns for every encoded ClientHello: server_name extensions whose first entry
    is no host name are passed over.  The first other one decides, with the name it holds or an
    error, if it is among the first 51 extensions.  Without one there is no name.  And more than 51
    extensions before that are too many.
   */
  lemma SniExactly(h: ClientHello, trailing: bytes, k: nat, name: bytes)
    requires WellFormed(h) && FirstDecisive(h.extensions, k)
    ensures var r, n := Sni(Encode(h) + trailing), |h.extensions|;
            if k < n && k <= 50 then
              (r == Found(name) <==> HoldsName(h.extensions[k].data, name)) && (r.Found? || r.SniOutOfBounds?)
            else if k == n && n <= 51 then r == NoSni
            else r == TooManyExtensions
  {
    hide Encode, Sni, ServerName, Selected, HoldsName, WellFormed, OtherName;
    EncodedHello(h, trailing);
    SelectedDecisive(h.extensions, k, 0);
    if k < |h.extensions| {
      DecisiveName(h.extensions[k].data, name);
    }
  }

  /** As long as a hello has not arrived as a whole, no name is taken from it. */
  lemma Truncated(h: ClientHello, n: nat)
    requires WellFormed(h) && n < |Encode(h)|
    ensures Sni(Encode(h)[..n]) == if n < 6 then NotClientHello else HelloOutOfBounds
  {
    hide Encode, Scan, At, ExtensionsBytes, Extensions;
    var whole, part := Encode(h), Encode(h)[..n];
    AtWhole(whole);
    HelloLayout(whole, h);
    assert part + whole[n..] == whole;
    if Extensions(part).Some? {
      ExtensionsAppended(part, whole[n..]);
    }
  }
}
