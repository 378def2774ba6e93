/** DNS records of the configuration and their validation (pkg/config/types.go, validation.go). */
module Config {
  import opened Bytes
  import opened Names
  import opened Wire

  type Octets4 = s: bytes | |s| == 4 witness [0, 0, 0, 0]
  type Octets16 = s: bytes | |s| == 16 witness seq(16, _ => 0)

  /** What `net.ParseIP` makes of an address: nothing, an IPv4 address, or a proper IPv6 one. */
  datatype Address = NotAnIp | V4(four: Octets4) | V6(sixteen: Octets16)

  datatype DnsRecord = DnsRecord(
    rtype: string, address: Address, target: bytes, data: seq<bytes>,
    priority: Option<int>, exchange: bytes, weight: Option<int>, port: Option<int>)

  predicate IsAlnum(b: byte) {
    0x30 <= b <= 0x39 || IsLetter(b)
  }

  /** `^[a-zA-Z0-9_]([a-zA-Z0-9_-]{0,61}[a-zA-Z0-9])?$` */
  predicate MatchesLabel(l: bytes) {
    && 1 <= |l| <= 63
    && (IsAlnum(l[0]) || l[0] == 0x5f)
    && (|l| > 1 ==> IsAlnum(l[|l| - 1]))
    && forall i :: 1 <= i < |l| - 1 ==> IsAlnum(l[i]) || l[i] == 0x5f || l[i] == 0x2d
  }

  predicate IsValidHostname(hostname: bytes) {
    && 0 < |hostname| <= 253
    && |Split(hostname)| <= 16
    && forall i :: 0 <= i < |Split(hostname)| ==> MatchesLabel(Split(hostname)[i])
  }

  function TotalLength(data: seq<bytes>): nat {
    if data == [] then 0 else |data[0]| + TotalLength(data[1..])
  }

  predicate InWord(v: Option<int>, low: int) {
    v.Some? && low <= v.value <= 65535
  }

  /** `ValidateDnsRecord` returns no error. */
  predicate ValidRecord(r: DnsRecord) {
    match r.rtype
    case "A" => r.address.V4?
    case "AAAA" => r.address.V6?
    case "CNAME" => IsValidHostname(r.target)
    case "NS" => IsValidHostname(r.target)
    case "PTR" => IsValidHostname(r.target)
    case "TXT" =>
      && 1 <= |r.data| <= 128
      && (forall i :: 0 <= i < |r.data| ==> |r.data[i]| <= 255 && 13 !in r.data[i] && 10 !in r.data[i])
      && TotalLength(r.data) <= 2048
    case "MX" => IsValidHostname(r.exchange) && InWord(r.priority, 0)
    case "SRV" => IsValidHostname(r.target) && InWord(r.priority, 0) && InWord(r.weight, 0) && InWord(r.port, 1)
    case _ => false
  }

  /** A validated host name is its own normal form and fits the 255 octets of RFC 1035, section 2.3.4. */
  lemma ValidHostnameFits(hostname: bytes)
    requires IsValidHostname(hostname)
    ensures WireLabels(Labels(hostname)) && Normalise(hostname) == hostname
    ensures |NameBytes(Labels(hostname))| == |hostname| + 2 <= 255
  {
    var parts := Split(hostname);
    DropEmptyIdentity(parts);
    JoinSplit(hostname);
    NameLength(parts);
  }

  /** Which names are accepted, label by label. */
  lemma ValidHostnames(labels: seq<bytes>)
    requires labels != [] && DotFree(labels)
    ensures IsValidHostname(Join(labels)) <==>
              |labels| <= 16 && |Join(labels)| <= 253 && forall i :: 0 <= i < |labels| ==> MatchesLabel(labels[i])
  {
    hide MatchesLabel;
    SplitJoin(labels);
    if Join(labels) == [] {
      assert Split([]) == [[]];
      EmptyLabel();
    }
  }

  lemma EmptyLabel()
    ensures !MatchesLabel([])
  {
  }

  /** Every address, every valid name and every word can be configured. */
  lemma Configurable(r: DnsRecord, text: bytes)
    ensures r.address.V4? ==> ValidRecord(r.(rtype := "A"))
    ensures r.address.V6? ==> ValidRecord(r.(rtype := "AAAA"))
    ensures IsValidHostname(r.target) ==>
              ValidRecord(r.(rtype := "CNAME")) && ValidRecord(r.(rtype := "NS")) && ValidRecord(r.(rtype := "PTR"))
    ensures IsValidHostname(r.exchange) && InWord(r.priority, 0) ==> ValidRecord(r.(rtype := "MX"))
    ensures IsValidHostname(r.target) && InWord(r.priority, 0) && InWord(r.weight, 0) && InWord(r.port, 1) ==>
              ValidRecord(r.(rtype := "SRV"))
    ensures |text| <= 255 && 13 !in text && 10 !in text ==> ValidRecord(r.(rtype := "TXT", data := [text]))
  {
    hide IsValidHostname, InWord;
    assert TotalLength([text]) == |text|;
  }
}
