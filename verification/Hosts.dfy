/** Host lookup as the DNS server, the TLS proxy and the HTTP proxy each do it. */
module Hosts {
  import opened Bytes
  import opened Names

  const STAR: byte := 0x2a

  function TrimDot(name: bytes): bytes {
    if name != [] && name[|name| - 1] == DOT then name[..|name| - 1] else name
  }

  function NormalHost(name: bytes): bytes {
    Lower(TrimDot(name))
  }

  function WildcardKey(suffix: bytes): bytes {
    [STAR, DOT] + suffix
  }

  function Suffix(name: bytes, i: nat): bytes
    requires i <= |Split(name)|
  {
    Join(Split(name)[i..])
  }

  /** The first wildcard entry among the suffixes that drop `i`, `i + 1`, ... labels, before `n`. */
  function FirstWildcard<V>(hosts: map<bytes, V>, name: bytes, i: nat, n: nat): Option<V>
    requires n <= |Split(name)|
    decreases n - i
  {
    if i >= n then None
    else if WildcardKey(Suffix(name, i)) in hosts then Some(hosts[WildcardKey(Suffix(name, i))])
    else FirstWildcard(hosts, name, i + 1, n)
  }

  /** The DNS server: exact entry unless the name has a star in it, then wildcards, then `*`. */
  function DnsLookup<V>(hosts: map<bytes, V>, name: bytes): Option<V> {
    if STAR !in name && name in hosts then Some(hosts[name])
    else
      match FirstWildcard(hosts, name, 0, |Split(name)|)
      case Some(v) => Some(v)
      case None => if [STAR] in hosts then Some(hosts[[STAR]]) else None
  }

  /** The proxies: exact entry, then wildcards of at least two labels. */
  function ProxyLookup<V>(hosts: map<bytes, V>, hostname: bytes): Option<V> {
    var name := NormalHost(hostname);
    if name in hosts then Some(hosts[name]) else FirstWildcard(hosts, name, 0, |Split(name)| - 1)
  }

  method FindWildcard<V>(hosts: map<bytes, V>, name: bytes, n: nat) returns (r: Option<V>)
    requires n <= |Split(name)|
    ensures r == FirstWildcard(hosts, name, 0, n)
  {
    var labels := Split(name);
    for i := 0 to n
      invariant FirstWildcard(hosts, name, 0, n) == FirstWildcard(hosts, name, i, n)
    {
      var suffix := Join(labels[i..]);
      var wildcardKey := WildcardKey(suffix);
      if wildcardKey in hosts {
        return Some(hosts[wildcardKey]);
      }
    }
    return None;
  }

  method DnsFindHostConfig<V>(hosts: map<bytes, V>, normalizedName: bytes) returns (r: Option<V>)
    ensures r == DnsLookup(hosts, normalizedName)
  {
    if STAR !in normalizedName && normalizedName in hosts {
      return Some(hosts[normalizedName]);
    }
    r := FindWildcard(hosts, normalizedName, |Split(normalizedName)|);
    if r.None? && [STAR] in hosts {
      return Some(hosts[[STAR]]);
    }
  }

  method SniFindHostConfig<V>(hosts: map<bytes, V>, hostname: bytes) returns (r: Option<V>)
    ensures r == ProxyLookup(hosts, hostname)
  {
    var normalizedName := NormalHost(hostname);
    if normalizedName in hosts {
      return Some(hosts[normalizedName]);
    }
    r := FindWildcard(hosts, normalizedName, |Split(normalizedName)| - 1);
  }

  method HttpFindWildcardHost<V>(hosts: map<bytes, V>, hostname: bytes) returns (r: Option<V>)
    ensures r == FirstWildcard(hosts, NormalHost(hostname), 0, |Split(NormalHost(hostname))| - 1)
  {
    r := FindWildcard(hosts, NormalHost(hostname), |Split(NormalHost(hostname))| - 1);
  }

  method HttpFindHost<V>(hosts: map<bytes, V>, hostname: bytes) returns (r: Option<V>)
    ensures r == ProxyLookup(hosts, hostname)
  {
    var normalizedHost := NormalHost(hostname);
    r := if normalizedHost in hosts then Some(hosts[normalizedHost]) else None;
    if r.None? {
      r := HttpFindWildcardHost(hosts, hostname);
    }
  }

  /** `s` is `name` itself or what follows one of its dots. */
  ghost predicate LabelSuffix(s: bytes, name: bytes) {
    s == name || exists p: bytes :: name == p + [DOT] + s
  }

  /** Dropping whole labels from the front is cutting the text behind one of its dots. */
  lemma {:induction false} SuffixText(name: bytes, i: nat)
    requires i < |Split(name)|
    ensures LabelSuffix(Suffix(name, i), name)
    ensures Split(Suffix(name, i)) == Split(name)[i..]
    ensures i == 0 ==> Suffix(name, i) == name
    ensures i > 0 ==> name == Join(Split(name)[..i]) + [DOT] + Suffix(name, i)
  {
    hide Split, Join;
    var labels := Split(name);
    SplitParts(name);
    JoinSplit(name);
    SplitJoin(labels[i..]);
    if i == 0 {
      assert labels[0..] == labels;
    } else {
      JoinConcat(labels[..i], labels[i..]);
      assert labels[..i] + labels[i..] == labels;
    }
  }

  lemma {:induction false} JoinConcat(a: seq<bytes>, b: seq<bytes>)
    requires a != [] && b != []
    ensures Join(a + b) == Join(a) + [DOT] + Join(b)
  {
    assert (a + b)[1..] == a[1..] + b;
    if |a| > 1 {
      JoinConcat(a[1..], b);
    } else {
      assert a[1..] + b == b;
    }
  }

  lemma TextSuffix(name: bytes, s: bytes) returns (i: nat)
    requires LabelSuffix(s, name)
    ensures i < |Split(name)| && Suffix(name, i) == s
  {
    JoinSplit(s);
    if s == name {
      i := 0;
      assert Split(name)[0..] == Split(name);
    } else {
      var p: bytes :| name == p + [DOT] + s;
      SplitConcat(p, s);
      i := |Split(p)|;
      assert Split(name)[i..] == Split(s);
    }
  }

  lemma SuffixShorter(name: bytes, i: nat, j: nat)
    requires i < j < |Split(name)|
    ensures |Suffix(name, j)| < |Suffix(name, i)|
  {
    var labels := Split(name);
    JoinConcat(labels[i..j], labels[j..]);
    assert labels[i..j] + labels[j..] == labels[i..];
  }

  lemma {:induction false} FirstIsFirst<V>(hosts: map<bytes, V>, name: bytes, i: nat, n: nat) returns (k: nat)
    requires n <= |Split(name)|
    ensures match FirstWildcard(hosts, name, i, n)
            case None => forall j :: i <= j < n ==> WildcardKey(Suffix(name, j)) !in hosts
            case Some(v) =>
              && i <= k < n && WildcardKey(Suffix(name, k)) in hosts && v == hosts[WildcardKey(Suffix(name, k))]
              && forall j :: i <= j < k ==> WildcardKey(Suffix(name, j)) !in hosts
    decreases n - i
  {
    k := i;
    if i < n && WildcardKey(Suffix(name, i)) !in hosts {
      k := FirstIsFirst(hosts, name, i + 1, n);
    }
  }

  ghost predicate WildcardFor<V>(hosts: map<bytes, V>, name: bytes, s: bytes) {
    LabelSuffix(s, name) && WildcardKey(s) in hosts
  }

  /** The entry of that very name counts, if the name has no star. */
  predicate Exact<V>(hosts: map<bytes, V>, name: bytes) {
    STAR !in name && name in hosts
  }

  /**
    What the DNS lookup means: the exact entry, else the wildcard of the longest suffix that has
    one, else the catch-all, else nothing.
   */
  lemma DnsLookupMeaning<V>(hosts: map<bytes, V>, name: bytes)
    ensures Exact(hosts, name) ==> DnsLookup(hosts, name) == Some(hosts[name])
    ensures !Exact(hosts, name) && (exists s :: WildcardFor(hosts, name, s)) ==>
              exists s :: WildcardFor(hosts, name, s) && DnsLookup(hosts, name) == Some(hosts[WildcardKey(s)])
                       && forall t :: WildcardFor(hosts, name, t) && t != s ==> |t| < |s|
    ensures !Exact(hosts, name) && (forall s :: !WildcardFor(hosts, name, s)) ==>
              DnsLookup(hosts, name) == if [STAR] in hosts then Some(hosts[[STAR]]) else None
  {
    hide Suffix, LabelSuffix;
    var n := |Split(name)|;
    var k := FirstIsFirst(hosts, name, 0, n);
    if !Exact(hosts, name) {
      if FirstWildcard(hosts, name, 0, n).Some? {
        var s := Suffix(name, k);
        SuffixText(name, k);
        forall t | WildcardFor(hosts, name, t) && t != s
          ensures |t| < |s|
        {
          var i := TextSuffix(name, t);
          if i > k {
            SuffixShorter(name, k, i);
          }
        }
        assert WildcardFor(hosts, name, s);
      } else {
        forall s | WildcardFor(hosts, name, s)
          ensures false
        {
          var i := TextSuffix(name, s);
        }
      }
    }
  }

  lemma {:induction false} WiderSearch<V>(hosts: map<bytes, V>, name: bytes, i: nat, n: nat)
    requires i <= n < |Split(name)|
    ensures FirstWildcard(hosts, name, i, n).Some? ==>
            FirstWildcard(hosts, name, i, n + 1) == FirstWildcard(hosts, name, i, n)
    ensures FirstWildcard(hosts, name, i, n).None? ==>
              FirstWildcard(hosts, name, i, n + 1) == FirstWildcard(hosts, name, n, n + 1)
    decreases n - i
  {
    if i < n {
      WiderSearch(hosts, name, i + 1, n);
    }
  }

  /**
    Whatever host a proxy finds for a name without a star, the DNS server finds too; where the
    proxies find none, the server can only answer from the wildcard of the last label or `*`.
   */
  lemma LookupsAgree<V>(hosts: map<bytes, V>, hostname: bytes)
    requires STAR !in NormalHost(hostname)
    ensures ProxyLookup(hosts, hostname).Some? ==>
              DnsLookup(hosts, NormalHost(hostname)) == ProxyLookup(hosts, hostname)
    ensures ProxyLookup(hosts, hostname).None? ==>
              var name := NormalHost(hostname);
              var top := WildcardKey(Suffix(name, |Split(name)| - 1));
              DnsLookup(hosts, name)
              == if top in hosts then Some(hosts[top]) else if [STAR] in hosts then Some(hosts[[STAR]]) else None
  {
    var name := NormalHost(hostname);
    WiderSearch(hosts, name, 0, |Split(name)| - 1);
  }

  /** Names are compared up to ASCII case and one trailing dot, and a plain lower-case name is compared as it is. */
  lemma NormalHostMeaning(name: bytes, other: bytes)
    ensures name == [] || name[|name| - 1] != DOT ==> NormalHost(name) == Lower(name)
    ensures NormalHost(name + [DOT]) == Lower(name)
    ensures Lower(name) == Lower(other) ==> NormalHost(name) == NormalHost(other)
  {
    assert (name + [DOT])[..|name|] == name;
    if Lower(name) == Lower(other) && name != [] {
      var n := |name| - 1;
      assert |name| == |Lower(name)| == |Lower(other)| == |other|;
      assert Lower(name)[n] == Lower(other)[n];
      assert Lower(name[..n]) == Lower(name)[..n] == Lower(other)[..n] == Lower(other[..n]);
    }
  }

  lemma DotMeansLabels(s: bytes)
    ensures DOT in s <==> |Split(s)| > 1
  {
    hide Split, Join;
    SplitParts(s);
    JoinSplit(s);
    if |Split(s)| == 1 {
      SingleJoin(Split(s));
    }
    if DOT !in s {
      SplitDotFree(s);
    }
  }

  lemma SingleJoin(labels: seq<bytes>)
    requires |labels| == 1
    ensures Join(labels) == labels[0]
  {
  }

  /** A wildcard that a proxy considers: of a suffix of at least two labels. */
  ghost predicate ProxyWildcardFor<V>(hosts: map<bytes, V>, name: bytes, s: bytes) {
    WildcardFor(hosts, name, s) && DOT in s
  }

  /** What the lookup of both proxies means: the exact entry, else the wildcard of the longest suffix of at least two
      labels that has one, else nothing. */
  lemma ProxyLookupMeaning<V>(hosts: map<bytes, V>, hostname: bytes)
    ensures var name, r := NormalHost(hostname), ProxyLookup(hosts, hostname);
            && (name in hosts ==> r == Some(hosts[name]))
            && (name !in hosts && (exists s :: ProxyWildcardFor(hosts, name, s)) ==>
                  exists s :: ProxyWildcardFor(hosts, name, s) && r == Some(hosts[WildcardKey(s)])
                           && forall t :: ProxyWildcardFor(hosts, name, t) && t != s ==> |t| < |s|)
            && (name !in hosts && (forall s :: !ProxyWildcardFor(hosts, name, s)) ==> r == None)
  {
    hide Suffix, LabelSuffix, NormalHost;
    var name := NormalHost(hostname);
    var n := |Split(name)| - 1;
    var k := FirstIsFirst(hosts, name, 0, n);
    forall t | ProxyWildcardFor(hosts, name, t)
      ensures exists i :: 0 <= i < n && Suffix(name, i) == t
    {
      var i := TextSuffix(name, t);
      SuffixText(name, i);
      DotMeansLabels(t);
    }
    if name !in hosts && FirstWildcard(hosts, name, 0, n).Some? {
      var s := Suffix(name, k);
      SuffixText(name, k);
      DotMeansLabels(s);
      forall t | ProxyWildcardFor(hosts, name, t) && t != s
        ensures |t| < |s|
      {
        var i :| 0 <= i < n && Suffix(name, i) == t;
        if i > k {
          SuffixShorter(name, k, i);
        }
      }
      assert ProxyWildcardFor(hosts, name, s);
    }
  }
}
