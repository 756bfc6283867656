/**
 IPAllocator: addresses are byte strings in network order, stepped by nextIP. Two
 addresses of one length print alike exactly when they are equal, so sets of printed
 addresses are modelled as sets of addresses.
 */
module IpAllocator {
  import opened Wrappers
  import opened SparseIO

  type Ip = seq<Byte>

  function Pow256(n: nat): (p: nat)
    ensures p > 0
  {
    if n == 0 then 1 else 256 * Pow256(n - 1)
  }

  /** The number a big-endian byte string stands for. */
  function Value(ip: Ip): (v: nat)
    ensures v < Pow256(|ip|)
    decreases |ip|
  {
    if ip == [] then 0 else 256 * Value(ip[..|ip| - 1]) + ip[|ip| - 1]
  }

  lemma {:induction false} ValueInjective(a: Ip, b: Ip)
    requires |a| == |b| && Value(a) == Value(b)
    ensures a == b
    decreases |a|
  {
    if a != [] {
      var n := |a| - 1;
      ValueInjective(a[..n], b[..n]);
      assert a == a[..n] + [a[n]] && b == b[..n] + [b[n]];
    }
  }

  /** The next address, carrying from the last byte towards the first. */
  function Next(ip: Ip): (r: Ip)
    ensures |r| == |ip|
    decreases |ip|
  {
    if ip == [] then []
    else
      var n := |ip| - 1;
      if ip[n] < 255 then ip[..n] + [ip[n] + 1] else Next(ip[..n]) + [0]
  }

  lemma {:induction false} NextCarries(ip: Ip)
    ensures Value(Next(ip)) == if Value(ip) + 1 == Pow256(|ip|) then 0 else Value(ip) + 1
    decreases |ip|
  {
    if ip != [] {
      var n := |ip| - 1;
      NextCarries(ip[..n]);
      var r := Next(ip);
      if ip[n] < 255 {
        assert r[..n] == ip[..n] && r[n] == ip[n] + 1;
      } else {
        assert r[..n] == Next(ip[..n]) && r[n] == 0;
      }
    }
  }

  lemma {:induction false} WrapIsModulo(v: nat, p: nat)
    requires v < p
    ensures (v + 1) % p == if v + 1 == p then 0 else v + 1
  {
  }

  /** nextIP is addition of one modulo 256^n. */
  lemma {:induction false} NextIsPlusOne(ip: Ip)
    ensures Value(Next(ip)) == (Value(ip) + 1) % Pow256(|ip|)
  {
    NextCarries(ip);
    WrapIsModulo(Value(ip), Pow256(|ip|));
  }

  function ZeroBytes(n: nat): (z: Ip)
    ensures |z| == n && forall k :: 0 <= k < n ==> z[k] == 0
  {
    seq(n, _ => 0)
  }

  /** nextIP: increments a copy in place, last byte first, until a byte does not wrap. */
  method NextIP(ip: Ip) returns (result: Ip)
    ensures result == Next(ip)
  {
    result := ip;
    var i := |ip| - 1;
    assert ip[..i + 1] == ip && ZeroBytes(|ip| - 1 - i) == [];
    while i >= 0
      invariant -1 <= i < |ip|
      invariant result == ip[..i + 1] + ZeroBytes(|ip| - 1 - i)
      invariant Next(ip) == Next(ip[..i + 1]) + ZeroBytes(|ip| - 1 - i)
    {
      ghost var head := ip[..i + 1];
      assert head[..i] == ip[..i] && head[i] == ip[i] == result[i];
      result := result[i := if result[i] == 255 then 0 else result[i] + 1];
      if result[i] != 0 {
        assert result == ip[..i] + [ip[i] + 1] + ZeroBytes(|ip| - 1 - i);
        break;
      }
      assert [0] + ZeroBytes(|ip| - 1 - i) == ZeroBytes(|ip| - i);
      assert Next(ip[..i]) + [0] + ZeroBytes(|ip| - 1 - i) == Next(ip[..i]) + ZeroBytes(|ip| - i);
      assert result == ip[..i] + ZeroBytes(|ip| - i);
      i := i - 1;
    }
  }

  // ------------------------------------------------------------------ allocation

  /** Steps of nextIP from one address to another of the same length. */
  function Distance(from: Ip, to: Ip): (d: nat)
    requires |from| == |to|
  {
    if Value(from) <= Value(to) then Value(to) - Value(from) else Value(to) + Pow256(|to|) - Value(from)
  }

  /** Reached when stepping from start, no later than end. */
  ghost predicate InRange(start: Ip, end: Ip, x: Ip) {
    |x| == |start| == |end| && Distance(start, x) <= Distance(start, end)
  }

  /** For an ordered range this is the inclusive interval, and nearer means smaller. */
  lemma {:induction false} OrderedRange(start: Ip, end: Ip, x: Ip, y: Ip)
    requires |start| == |end| == |x| == |y| && Value(start) <= Value(end)
    ensures InRange(start, end, x) <==> Value(start) <= Value(x) <= Value(end)
    ensures InRange(start, end, x) && InRange(start, end, y) ==>
              (Distance(start, x) < Distance(start, y) <==> Value(x) < Value(y))
  {
  }

  lemma {:induction false} DistanceInjective(start: Ip, x: Ip, y: Ip)
    requires |start| == |x| == |y| && Distance(start, x) == Distance(start, y)
    ensures x == y
  {
    ValueInjective(x, y);
  }

  lemma {:induction false} DistanceOfNext(start: Ip, ip: Ip, end: Ip)
    requires |start| == |ip| == |end| && ip != end && InRange(start, end, ip)
    ensures Distance(start, Next(ip)) == Distance(start, ip) + 1
    ensures InRange(start, end, Next(ip))
    ensures Distance(Next(ip), end) < Distance(ip, end)
  {
    NextCarries(ip);
    if Value(ip) == Value(end) {
      ValueInjective(ip, end);
    }
    if Distance(start, ip) == Distance(start, end) {
      DistanceInjective(start, ip, end);
    }
  }

  /**
   The first address of the range, in stepping order, that is not in use; none exactly
   when the whole range is taken. Ends also for a range whose start is above its end.
   */
  method FirstFree(start: Ip, end: Ip, inUse: set<Ip>) returns (r: Option<Ip>)
    requires |start| == |end|
    ensures r.Some? ==> InRange(start, end, r.value) && r.value !in inUse
    ensures r.Some? ==> forall y :: InRange(start, end, y) && Distance(start, y) < Distance(start, r.value) ==> y in inUse
    ensures r.None? <==> forall y :: InRange(start, end, y) ==> y in inUse
  {
    var ip := start;
    while ip != end
      invariant InRange(start, end, ip)
      invariant forall y :: InRange(start, end, y) && Distance(start, y) < Distance(start, ip) ==> y in inUse
      decreases Distance(ip, end)
    {
      if ip !in inUse { return Some(ip); }
      DistanceOfNext(start, ip, end);
      forall y | InRange(start, end, y) && Distance(start, y) < Distance(start, Next(ip))
        ensures y in inUse
      {
        if Distance(start, y) == Distance(start, ip) {
          DistanceInjective(start, y, ip);
        }
      }
      ip := NextIP(ip);
    }
    if end !in inUse { return Some(end); }
    forall y | InRange(start, end, y)
      ensures y in inUse
    {
      if Distance(start, y) == Distance(start, end) {
        DistanceInjective(start, y, end);
      }
    }
    r := None;
  }
}
