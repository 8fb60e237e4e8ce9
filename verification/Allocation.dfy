/** Choosing the port and the tag of a new inbound. */
module Allocation {
  import opened Wrappers
  import opened Text
  import opened ClientState

  const LAST_PORT := 65535

  function UsedPorts(inbounds: seq<Inbound>): set<int> {
    set i | 0 <= i < |inbounds| :: inbounds[i].port
  }

  /** The search gives up only when the start and everything above it is taken. */
  method NextLocalPort(inbounds: seq<Inbound>, start: int) returns (r: Result<int, Error>)
    ensures r.Ok? ==> r.value !in UsedPorts(inbounds) && start <= r.value <= (if start > LAST_PORT then start else LAST_PORT)
    ensures r.Ok? ==> forall p | start <= p < r.value :: p in UsedPorts(inbounds)
    ensures r.Err? <==> start in UsedPorts(inbounds) && forall p | start <= p <= LAST_PORT :: p in UsedPorts(inbounds)
  {
    var ports := UsedPorts(inbounds);
    var port := start;
    while port in ports
      invariant start <= port && (port == start || port <= LAST_PORT)
      invariant forall p | start <= p < port :: p in ports
      decreases LAST_PORT - port
    {
      port := port + 1;
      if port > LAST_PORT {
        return Err(NoFreePort);
      }
    }
    r := Ok(port);
  }

  // ---- Tags ----

  function Digit(n: nat): char
    requires n < 10
  {
    '0' + n as char
  }

  /** The decimal numeral of a number. */
  function Decimal(n: nat): (s: string)
    ensures s != ""
  {
    if n < 10 then [Digit(n)] else Decimal(n / 10) + [Digit(n % 10)]
  }

  lemma {:induction false} DecimalInjective(m: nat, n: nat)
    requires Decimal(m) == Decimal(n)
    ensures m == n
    decreases m
  {
    var a, b := Decimal(m), Decimal(n);
    assert Digit(m % 10) == a[|a| - 1] == b[|b| - 1] == Digit(n % 10);
    assert a[..|a| - 1] == b[..|b| - 1];
    assert m < 10 <==> a[..|a| - 1] == "";
    if m >= 10 {
      assert Decimal(m / 10) == a[..|a| - 1];
      assert Decimal(n / 10) == b[..|b| - 1];
      DecimalInjective(m / 10, n / 10);
    }
  }

  /** The candidates of a tag search, in order: the plain base, then `base-2`, `base-3`, ... */
  function Candidate(base: string, index: nat): string {
    if index <= 1 then base else base + "-" + Decimal(index)
  }

  lemma CandidateInjective(base: string, i: nat, j: nat)
    requires 1 <= i && 1 <= j && Candidate(base, i) == Candidate(base, j)
    ensures i == j
  {
    assert i > 1 ==> |Candidate(base, i)| > |base|;
    assert j > 1 ==> |Candidate(base, j)| > |base|;
    if i > 1 && j > 1 {
      assert Candidate(base, i)[|base| + 1..] == Decimal(i);
      assert Candidate(base, j)[|base| + 1..] == Decimal(j);
      DecimalInjective(i, j);
    }
  }

  /** The first candidate that is not taken. */
  ghost predicate IsNextTag(base: string, existing: set<string>, tag: string) {
    exists index: nat :: index >= 1 && tag == Candidate(base, index) && tag !in existing
                         && forall i | 1 <= i < index :: Candidate(base, i) in existing
  }

  /** The unbounded search ends because every rejected candidate is another element of a finite set. */
  method NextTag(base: string, existing: set<string>) returns (tag: string)
    ensures IsNextTag(base, existing, tag)
  {
    if base !in existing {
      assert base == Candidate(base, 1);
      return base;
    }
    var index: nat := 2;
    ghost var left := existing - {Candidate(base, 1)};
    tag := Candidate(base, index);
    while tag in existing
      invariant index >= 2 && tag == Candidate(base, index)
      invariant forall i | 1 <= i < index :: Candidate(base, i) in existing
      invariant forall t | t in existing && t !in left :: exists i | 1 <= i < index :: t == Candidate(base, i)
      decreases left
    {
      if tag !in left {
        var i :| 1 <= i < index && tag == Candidate(base, i);
        CandidateInjective(base, i, index);
        assert false;
      }
      left := left - {tag};
      index := index + 1;
      tag := Candidate(base, index);
    }
  }

  lemma NextTagUnique(base: string, existing: set<string>, a: string, b: string)
    requires IsNextTag(base, existing, a) && IsNextTag(base, existing, b)
    ensures a == b
  {
    var i: nat :| i >= 1 && a == Candidate(base, i) && forall k | 1 <= k < i :: Candidate(base, k) in existing;
    var j: nat :| j >= 1 && b == Candidate(base, j) && forall k | 1 <= k < j :: Candidate(base, k) in existing;
  }

  lemma CandidatePrefix(base: string, existing: set<string>, tag: string)
    requires IsNextTag(base, existing, tag)
    ensures StartsWith(tag, base)
  {
    var index: nat :| index >= 1 && tag == Candidate(base, index);
    assert tag[..|base|] == base;
  }

  function ManagedTags(inbounds: seq<Inbound>): set<string> {
    set i | 0 <= i < |inbounds| && Managed(inbounds[i]) :: Tag(inbounds[i])
  }

  function VlessTags(inbounds: seq<Inbound>): set<string> {
    set i | 0 <= i < |inbounds| && ManagedVless(inbounds[i]) :: Tag(inbounds[i])
  }

  lemma PrefixAt(s: string, prefix: string, k: nat)
    requires StartsWith(s, prefix) && k < |prefix|
    ensures k < |s| && s[k] == prefix[k]
  {
    assert s[..|prefix|][k] == s[k];
  }

  /** The Reality search looks at VLESS tags only, yet its result is new among all managed tags. */
  lemma RealityTagIsNew(inbounds: seq<Inbound>, tag: string)
    requires IsNextTag(INBOUND_TAG, VlessTags(inbounds), tag)
    ensures tag !in ManagedTags(inbounds)
  {
    CandidatePrefix(INBOUND_TAG, VlessTags(inbounds), tag);
    PrefixAt(tag, INBOUND_TAG, 0);
    forall i | 0 <= i < |inbounds| && Managed(inbounds[i]) ensures Tag(inbounds[i]) != tag {
      if ManagedTrojan(inbounds[i]) {
        PrefixAt(Tag(inbounds[i]), TROJAN_INBOUND_TAG, 0);
      }
    }
  }

  /** A Reality tag never makes its inbound a TLS one. */
  lemma RealityTagIsNotTls(inbounds: seq<Inbound>, tag: string)
    requires IsNextTag(INBOUND_TAG, VlessTags(inbounds), tag)
    ensures !StartsWith(tag, TLS_INBOUND_TAG)
  {
    CandidatePrefix(INBOUND_TAG, VlessTags(inbounds), tag);
    PrefixAt(tag, INBOUND_TAG, 6);
    if StartsWith(tag, TLS_INBOUND_TAG) {
      PrefixAt(tag, TLS_INBOUND_TAG, 6);
    }
  }
}
