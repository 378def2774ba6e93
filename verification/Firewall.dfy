/** The rule engine of pkg/firewall/firewall.go, on parsed addresses and CIDR blocks. */
module Firewall {
  import opened Bytes
  import opened Names
  import opened Hosts

  const WIDTH4: nat := 32
  const WIDTH6: nat := 128

  type Addr4 = n: nat | n < 0x1_0000_0000
  type Addr6 = n: nat | n < 0x1_0000_0000_0000_0000_0000_0000_0000_0000
  type Prefix4 = n: nat | n <= 32
  type Prefix6 = n: nat | n <= 128

  /** A parsed address, as a number; an IPv4-mapped IPv6 address is an IPv4 one, as `To4` makes it. */
  datatype Ip = Ip4(four: Addr4) | Ip6(six: Addr6)

  /** A network and the length of its prefix. */
  datatype Cidr = Cidr4(net4: Addr4, bits4: Prefix4) | Cidr6(net6: Addr6, bits6: Prefix6)

  datatype FirewallConfig = FirewallConfig(
    defaultPolicy: string,
    allowlistDomains: seq<bytes>, blocklistDomains: seq<bytes>,
    allowlistRanges: seq<Cidr>, blocklistRanges: seq<Cidr>,
    allowlistIps: seq<Ip>, blocklistIps: seq<Ip>)

  datatype Verdict = Allow | Deny

  function Pow2(n: nat): (r: nat)
    ensures r >= 1
  {
    if n == 0 then 1 else 2 * Pow2(n - 1)
  }

  /** The address and the network agree on the leading `bits` of `width` bits. */
  predicate SharesPrefix(a: nat, net: nat, bits: nat, width: nat)
    requires bits <= width
  {
    a / Pow2(width - bits) == net / Pow2(width - bits)
  }

  /** `ipNet.Contains(ip)`: same family, and equal under the mask. */
  predicate MatchCidr(ip: Ip, cidr: Cidr) {
    match (ip, cidr)
    case (Ip4(a), Cidr4(net, bits)) => SharesPrefix(a, net, bits, WIDTH4)
    case (Ip6(a), Cidr6(net, bits)) => SharesPrefix(a, net, bits, WIDTH6)
    case _ => false
  }

  predicate IsWildcard(pattern: bytes) {
    [STAR, DOT] <= pattern
  }

  predicate HasSuffix(s: bytes, suffix: bytes) {
    |suffix| <= |s| && s[|s| - |suffix|..] == suffix
  }

  predicate MatchDomain(domain: bytes, pattern: bytes) {
    pattern == [STAR] ||
    var (d, p) := (NormalHost(domain), NormalHost(pattern));
    p == d || (IsWildcard(p) && HasSuffix(d, [DOT] + p[2..]))
  }

  predicate IsRestricted4(a: Addr4) {
    var b0, b1 := a / 0x100_0000, a / 0x1_0000 % 256;
    if b0 == 0 then true
    else if b0 == 10 then true
    else if b0 == 127 then true
    else if b0 == 100 && b1 >= 64 && b1 <= 127 then true
    else if b0 == 169 && b1 == 254 then true
    else if b0 == 172 && b1 >= 16 && b1 <= 31 then true
    else if b0 == 192 && b1 == 168 then true
    else b0 >= 224
  }

  /** `b0 & 0xfe == 0xfc` and `b1 & 0xc0 == 0x80` look at seven and at two leading bits. */
  predicate IsRestricted6(a: Addr6) {
    var b0, b1 := a / Pow2(120), a / Pow2(112) % 256;
    if a == 1 || a == 0 then true
    else if b0 / 2 == 0xfc / 2 then true
    else b0 == 0xfe && b1 / 64 == 0x80 / 64
  }

  /** An address that does not parse is restricted. */
  predicate IsRestrictedOutbound(ip: Option<Ip>) {
    match ip
    case None => true
    case Some(Ip4(a)) => IsRestricted4(a)
    case Some(Ip6(a)) => IsRestricted6(a)
  }

  predicate AnyCidr(ip: Ip, ranges: seq<Cidr>) {
    if ranges == [] then false
    else if MatchCidr(ip, ranges[0]) then true
    else AnyCidr(ip, ranges[1..])
  }

  predicate AnyDomain(domain: bytes, patterns: seq<bytes>) {
    if patterns == [] then false
    else if MatchDomain(domain, patterns[0]) then true
    else AnyDomain(domain, patterns[1..])
  }

  function EvaluateOutbound(ip: Option<Ip>, fw: Option<FirewallConfig>): Verdict {
    if ip.Some? && fw.Some? && (ip.value in fw.value.allowlistIps || AnyCidr(ip.value, fw.value.allowlistRanges))
    then Allow
    else if IsRestrictedOutbound(ip) then Deny
    else Allow
  }

  function EvaluateIp(ip: Option<Ip>, fw: Option<FirewallConfig>): Verdict {
    if fw.None? then Allow
    else if ip.None? then Deny
    else if ip.value in fw.value.blocklistIps then Deny
    else if ip.value in fw.value.allowlistIps then Allow
    else if AnyCidr(ip.value, fw.value.blocklistRanges) then Deny
    else if AnyCidr(ip.value, fw.value.allowlistRanges) then Allow
    else if fw.value.defaultPolicy == "allow" then Allow
    else Deny
  }

  function EvaluateDomain(domain: bytes, fw: Option<FirewallConfig>): Verdict {
    if fw.None? then Allow
    else if AnyDomain(domain, fw.value.blocklistDomains) then Deny
    else if AnyDomain(domain, fw.value.allowlistDomains) then Allow
    else if fw.value.defaultPolicy == "allow" then Allow
    else Deny
  }

  ghost predicate ProperSuffix(suffix: seq<bytes>, labels: seq<bytes>) {
    |suffix| < |labels| && labels[|labels| - |suffix|..] == suffix
  }

  lemma HasSuffixText(d: bytes, p: bytes, s: bytes)
    ensures HasSuffix(p + [DOT] + s, [DOT] + s)
    ensures HasSuffix(d, [DOT] + s) ==> d == d[..|d| - |s| - 1] + [DOT] + s
  {
    Assoc(p, [DOT], s);
    if HasSuffix(d, [DOT] + s) {
      Assoc(d[..|d| - |s| - 1], [DOT], s);
    }
  }

  /** Comparing text behind a dot is comparing whole labels. */
  lemma WildcardIsLabelSuffix(d: bytes, s: bytes)
    ensures HasSuffix(d, [DOT] + s) <==> ProperSuffix(Split(s), Split(d))
  {
    hide HasSuffix, Split, Join;
    if HasSuffix(d, [DOT] + s) {
      HasSuffixText(d, [], s);
      SplitConcat(d[..|d| - |s| - 1], s);
    }
    if ProperSuffix(Split(s), Split(d)) {
      var i := |Split(d)| - |Split(s)|;
      SuffixText(d, i);
      JoinSplit(s);
      HasSuffixText(d, Join(Split(d)[..i]), s);
    }
  }

  /**
    A pattern matches exactly: everything if it is `*`; its own name; and, if it is a wildcard,
    the names whose labels end in its labels and have at least one more -- all after lower-casing
    and dropping one trailing dot.
   */
  lemma MatchDomainMeaning(domain: bytes, pattern: bytes)
    ensures var (d, p) := (NormalHost(domain), NormalHost(pattern));
            MatchDomain(domain, pattern)
            <==> pattern == [STAR] || p == d || (IsWildcard(p) && ProperSuffix(Split(p[2..]), Split(d)))
  {
    var (d, p) := (NormalHost(domain), NormalHost(pattern));
    if IsWildcard(p) {
      WildcardIsLabelSuffix(d, p[2..]);
    }
  }

  lemma {:induction false} AnyCidrExists(ip: Ip, ranges: seq<Cidr>)
    ensures AnyCidr(ip, ranges) <==> exists c :: c in ranges && MatchCidr(ip, c)
  {
    hide MatchCidr;
    if ranges != [] {
      AnyCidrExists(ip, ranges[1..]);
      assert forall c :: c in ranges <==> c == ranges[0] || c in ranges[1..];
    }
  }

  lemma {:induction false} AnyDomainExists(domain: bytes, patterns: seq<bytes>)
    ensures AnyDomain(domain, patterns) <==> exists p :: p in patterns && MatchDomain(domain, p)
  {
    hide MatchDomain;
    if patterns != [] {
      AnyDomainExists(domain, patterns[1..]);
      assert forall p :: p in patterns <==> p == patterns[0] || p in patterns[1..];
    }
  }

  ghost predicate SameElements<T(!new)>(a: seq<T>, b: seq<T>) {
    forall x :: x in a <==> x in b
  }

  ghost predicate SameRules(a: FirewallConfig, b: FirewallConfig) {
    && a.defaultPolicy == b.defaultPolicy
    && SameElements(a.allowlistDomains, b.allowlistDomains) && SameElements(a.blocklistDomains, b.blocklistDomains)
    && SameElements(a.allowlistRanges, b.allowlistRanges) && SameElements(a.blocklistRanges, b.blocklistRanges)
    && SameElements(a.allowlistIps, b.allowlistIps) && SameElements(a.blocklistIps, b.blocklistIps)
  }

  /** No verdict depends on the order of a rule list or on repetitions in it. */
  lemma VerdictsIgnoreOrder(a: FirewallConfig, b: FirewallConfig, ip: Option<Ip>, domain: bytes)
    requires SameRules(a, b)
    ensures EvaluateOutbound(ip, Some(a)) == EvaluateOutbound(ip, Some(b))
    ensures EvaluateIp(ip, Some(a)) == EvaluateIp(ip, Some(b))
    ensures EvaluateDomain(domain, Some(a)) == EvaluateDomain(domain, Some(b))
  {
    hide MatchCidr, MatchDomain, AnyCidr, AnyDomain;
    AnyDomainExists(domain, a.allowlistDomains);
    AnyDomainExists(domain, b.allowlistDomains);
    AnyDomainExists(domain, a.blocklistDomains);
    AnyDomainExists(domain, b.blocklistDomains);
    if ip.Some? {
      AnyCidrExists(ip.value, a.allowlistRanges);
      AnyCidrExists(ip.value, b.allowlistRanges);
      AnyCidrExists(ip.value, a.blocklistRanges);
      AnyCidrExists(ip.value, b.blocklistRanges);
    }
  }

  /** The block `outer` contains the block `inner`: fewer fixed bits, and they agree. */
  predicate Covers(outer: Cidr, inner: Cidr) {
    match (outer, inner)
    case (Cidr4(n, bits), Cidr4(m, more)) => bits <= more && SharesPrefix(m, n, bits, WIDTH4)
    case (Cidr6(n, bits), Cidr6(m, more)) => bits <= more && SharesPrefix(m, n, bits, WIDTH6)
    case _ => false
  }

  lemma {:induction false} Pow2Add(m: nat, n: nat)
    ensures Pow2(m + n) == Pow2(m) * Pow2(n)
  {
    if m > 0 {
      Pow2Add(m - 1, n);
      assert Pow2(m + n) == 2 * (Pow2(m - 1) * Pow2(n));
    }
  }

  lemma MulMonotone(x: nat, m: nat, n: nat)
    ensures m <= n ==> x * m <= x * n
  {
  }

  lemma DivUnique(a: nat, x: nat, k: nat, r: nat)
    requires r < x && a == x * k + r
    ensures a / x == k
  {
    var q := a / x;
    MulMonotone(x, q + 1, k);
    MulMonotone(x, k + 1, q);
    assert a == x * q + a % x;
  }

  lemma MulDistributes(x: nat, y: nat, q: nat, r: nat)
    ensures x * (y * q + r) == x * y * q + x * r
  {
    assert x * (y * q) == x * y * q;
  }

  lemma MulBelow(x: nat, y: nat, r: nat, s: nat)
    requires r < y && s < x
    ensures x * r + s < x * y
  {
    assert x * (r + 1) <= x * y;
  }

  lemma DivDiv(a: nat, x: nat, y: nat)
    requires x > 0 && y > 0
    ensures x * y > 0 && a / x / y == a / (x * y)
  {
    var b, s := a / x, a % x;
    var q, r := b / y, b % y;
    Regroup(a, b, s, q, r, x, y);
    DivUnique(a, x * y, q, x * r + s);
  }

  lemma Regroup(a: nat, b: nat, s: nat, q: nat, r: nat, x: nat, y: nat)
    requires a == x * b + s && b == y * q + r && s < x && r < y
    ensures a == x * y * q + (x * r + s) && x * r + s < x * y
  {
    MulDistributes(x, y, q, r);
    MulBelow(x, y, r, s);
  }

  lemma Nested(a: nat, n: nat, m: nat, bits: nat, more: nat, width: nat)
    requires bits <= more <= width && SharesPrefix(m, n, bits, width) && SharesPrefix(a, m, more, width)
    ensures SharesPrefix(a, n, bits, width)
  {
    hide Pow2;
    var fine, extra := Pow2(width - more), Pow2(more - bits);
    Pow2Add(width - more, more - bits);
    DivDiv(a, fine, extra);
    DivDiv(m, fine, extra);
  }

  lemma CoveredMatches(ip: Ip, outer: Cidr, inner: Cidr)
    requires Covers(outer, inner) && MatchCidr(ip, inner)
    ensures MatchCidr(ip, outer)
  {
    hide SharesPrefix;
    match (ip, outer, inner) {
      case (Ip4(a), Cidr4(n, bits), Cidr4(m, more)) => Nested(a, n, m, bits, more, WIDTH4);
      case (Ip6(a), Cidr6(n, bits), Cidr6(m, more)) => Nested(a, n, m, bits, more, WIDTH6);
      case _ =>
    }
  }

  /** A range that another range of the same list covers can be deleted from either list. */
  lemma CoveredRangeRedundant(fw: FirewallConfig, ranges: seq<Cidr>, k: nat, j: nat, ip: Option<Ip>)
    requires k < |ranges| && j < |ranges| && j != k && Covers(ranges[j], ranges[k])
    ensures var fewer := ranges[..k] + ranges[k + 1..];
            && EvaluateIp(ip, Some(fw.(allowlistRanges := ranges)))
                == EvaluateIp(ip, Some(fw.(allowlistRanges := fewer)))
            && EvaluateIp(ip, Some(fw.(blocklistRanges := ranges)))
                == EvaluateIp(ip, Some(fw.(blocklistRanges := fewer)))
            && EvaluateOutbound(ip, Some(fw.(allowlistRanges := ranges)))
               == EvaluateOutbound(ip, Some(fw.(allowlistRanges := fewer)))
  {
    hide MatchCidr, Covers, AnyCidr, IsRestrictedOutbound;
    var fewer := ranges[..k] + ranges[k + 1..];
    if ip.Some? {
      AnyCidrExists(ip.value, ranges);
      AnyCidrExists(ip.value, fewer);
      assert ranges[j] in fewer by {
        assert fewer[if j < k then j else j - 1] == ranges[j];
      }
      forall c | c in ranges
        ensures c in fewer || c == ranges[k]
      {
        var i :| 0 <= i < |ranges| && ranges[i] == c;
        assert i != k ==> fewer[if i < k then i else i - 1] == c;
      }
      if MatchCidr(ip.value, ranges[k]) {
        CoveredMatches(ip.value, ranges[j], ranges[k]);
      }
    }
  }

  /** 0/8, 10/8, 127/8, 100.64/10, 169.254/16, 172.16/12, 192.168/16 and 224/3. */
  predicate InRestrictedBlock4(ip: Ip) {
    || MatchCidr(ip, Cidr4(0x00000000, 8)) || MatchCidr(ip, Cidr4(0x0a000000, 8))
    || MatchCidr(ip, Cidr4(0x7f000000, 8)) || MatchCidr(ip, Cidr4(0x64400000, 10))
    || MatchCidr(ip, Cidr4(0xa9fe0000, 16)) || MatchCidr(ip, Cidr4(0xac100000, 12))
    || MatchCidr(ip, Cidr4(0xc0a80000, 16)) || MatchCidr(ip, Cidr4(0xe0000000, 3))
  }

  const FC00: Addr6 := 0xfc00_0000_0000_0000_0000_0000_0000_0000
  const FE80: Addr6 := 0xfe80_0000_0000_0000_0000_0000_0000_0000

  /** ::1, ::, fc00::/7 and fe80::/10. */
  predicate InRestrictedBlock6(ip: Ip) {
    || MatchCidr(ip, Cidr6(1, 128)) || MatchCidr(ip, Cidr6(0, 128))
    || MatchCidr(ip, Cidr6(FC00, 7)) || MatchCidr(ip, Cidr6(FE80, 10))
  }

  lemma TinyPowers()
    ensures Pow2(0) == 1 && Pow2(1) == 2 && Pow2(2) == 4 && Pow2(4) == 16
  {
  }

  lemma SmallPowers()
    ensures Pow2(0) == 1 && Pow2(1) == 2 && Pow2(2) == 4 && Pow2(4) == 16 && Pow2(6) == 64 && Pow2(8) == 256
    ensures Pow2(16) == 0x1_0000 && Pow2(20) == 0x10_0000 && Pow2(22) == 0x40_0000 && Pow2(24) == 0x100_0000
    ensures Pow2(29) == 0x2000_0000
  {
    hide Pow2;
    TinyPowers();
    Pow2Add(4, 2);
    Pow2Add(4, 4);
    Pow2Add(8, 8);
    Pow2Add(16, 4);
    Pow2Add(20, 2);
    Pow2Add(20, 4);
    Pow2Add(24, 4);
    Pow2Add(28, 1);
  }

  lemma OctetTests4(a: Addr4)
    ensures IsRestricted4(a) <==> InRestrictedBlock4(Ip4(a))
  {
    hide Pow2;
    SmallPowers();
    assert a / 0x100_0000 == a / 0x1_0000 / 256 == a / 0x10_0000 / 16 == a / 0x40_0000 / 4
        && a / 0x2000_0000 == a / 0x100_0000 / 32;
  }

  lemma BigPowers()
    ensures Pow2(112) == 0x1_0000_0000_0000_0000_0000_0000_0000
    ensures Pow2(118) == Pow2(112) * 64 && Pow2(120) == Pow2(112) * 256 && Pow2(121) == Pow2(120) * 2
  {
    hide Pow2;
    SmallPowers();
    Pow2Add(16, 16);
    Pow2Add(32, 32);
    Pow2Add(64, 32);
    Pow2Add(96, 16);
    Pow2Add(112, 6);
    Pow2Add(112, 8);
    Pow2Add(120, 1);
  }

  lemma UniqueLocal(a: Addr6)
    ensures a / Pow2(120) / 2 == 0xfc / 2 <==> SharesPrefix(a, FC00, 7, WIDTH6)
  {
    hide Pow2;
    BigPowers();
    DivDiv(a, Pow2(120), 2);
  }

  lemma LinkLocal(a: Addr6)
    ensures a / Pow2(120) == 0xfe && a / Pow2(112) % 256 / 64 == 0x80 / 64 <==> SharesPrefix(a, FE80, 10, WIDTH6)
  {
    hide Pow2;
    BigPowers();
    DivDiv(a, Pow2(112), 256);
    DivDiv(a, Pow2(112), 64);
    LinkLocalWord(a / Pow2(112));
  }

  lemma LinkLocalWord(x: nat)
    ensures x / 256 == 0xfe && x % 256 / 64 == 2 <==> x / 64 == 0x3fa
  {
  }

  lemma OctetTests6(a: Addr6)
    ensures IsRestricted6(a) <==> InRestrictedBlock6(Ip6(a))
  {
    hide Pow2;
    SmallPowers();
    UniqueLocal(a);
    LinkLocal(a);
  }

  /** An address is restricted exactly when it lies in one of the fixed blocks. */
  lemma RestrictedBlocks(ip: Ip)
    ensures IsRestrictedOutbound(Some(ip)) <==> InRestrictedBlock4(ip) || InRestrictedBlock6(ip)
  {
    hide SharesPrefix, IsRestricted4, IsRestricted6;
    match ip {
      case Ip4(a) => OctetTests4(a);
      case Ip6(a) => OctetTests6(a);
    }
  }

  ghost predicate InRanges(ip: Ip, ranges: seq<Cidr>) {
    exists c :: c in ranges && MatchCidr(ip, c)
  }

  ghost predicate InDomains(domain: bytes, patterns: seq<bytes>) {
    exists p :: p in patterns && MatchDomain(domain, p)
  }

  /** Which rule wins: blocked address, allowed address, blocked range, allowed range or name, default. */
  lemma Verdicts(ip: Ip, domain: bytes, fw: FirewallConfig)
    ensures EvaluateIp(Some(ip), Some(fw)) == Allow <==>
              && ip !in fw.blocklistIps
              && (ip in fw.allowlistIps ||
                  (!InRanges(ip, fw.blocklistRanges)
                      && (InRanges(ip, fw.allowlistRanges) || fw.defaultPolicy == "allow")))
    ensures EvaluateDomain(domain, Some(fw)) == Allow <==>
              && !InDomains(domain, fw.blocklistDomains)
              && (InDomains(domain, fw.allowlistDomains) || fw.defaultPolicy == "allow")
    ensures EvaluateOutbound(Some(ip), Some(fw)) == Allow <==>
              || ip in fw.allowlistIps || InRanges(ip, fw.allowlistRanges)
              || !(InRestrictedBlock4(ip) || InRestrictedBlock6(ip))
  {
    hide MatchCidr, MatchDomain, AnyCidr, AnyDomain, InRestrictedBlock4, InRestrictedBlock6, IsRestrictedOutbound;
    AnyCidrExists(ip, fw.blocklistRanges);
    AnyCidrExists(ip, fw.allowlistRanges);
    AnyDomainExists(domain, fw.blocklistDomains);
    AnyDomainExists(domain, fw.allowlistDomains);
    RestrictedBlocks(ip);
  }

  /** Without a configuration nothing but the restricted blocks is denied, and an address that does not parse
      is denied wherever addresses are judged. */
  lemma VerdictsWithout(ip: Ip, domain: bytes, fw: FirewallConfig)
    ensures EvaluateIp(Some(ip), None) == Allow && EvaluateDomain(domain, None) == Allow
    ensures EvaluateOutbound(Some(ip), None) == Allow <==> !(InRestrictedBlock4(ip) || InRestrictedBlock6(ip))
    ensures EvaluateIp(None, Some(fw)) == Deny && EvaluateOutbound(None, Some(fw)) == Deny
    ensures EvaluateOutbound(None, None) == Deny && EvaluateIp(None, None) == Allow
  {
    hide MatchCidr, InRestrictedBlock4, InRestrictedBlock6, IsRestricted4, IsRestricted6;
    RestrictedBlocks(ip);
  }
}
