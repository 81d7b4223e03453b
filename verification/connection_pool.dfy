/** The pool of HTTP connections: what is pooled, leased and deleted, and the pool's count of them. */
module ConnectionPools {

  class HttpConnection {
    var connected: bool
    const createTime: nat
    var request: nat  // finished leases
    ghost var leases: nat  // leases begun

    constructor (createTime: nat)
      ensures connected && this.createTime == createTime && request == 0 && leases == 0
    {
      connected, this.createTime, request, leases := true, createTime, 0, 0;
    }
  }

  class HttpConnectionPool {
    const maxAliveTime: nat
    const maxRequest: nat
    var conns: seq<HttpConnection>
    var total: int

    ghost var leased: set<HttpConnection>
    ghost var deleted: set<HttpConnection>

    constructor (maxAliveTime: nat, maxRequest: nat)
      ensures Valid() && this.maxAliveTime == maxAliveTime && this.maxRequest == maxRequest
      ensures conns == [] && leased == {} && deleted == {}
    {
      this.maxAliveTime, this.maxRequest := maxAliveTime, maxRequest;
      conns, total, leased, deleted := [], 0, {}, {};
    }

    /** The most leases a connection gets: the first is not counted against a limit of zero. */
    function Limit(): nat {
      if maxRequest == 0 then 1 else maxRequest
    }

    /** No connection is in two places, and the count is that of the pooled and the leased. */
    ghost predicate Partitioned()
      reads this
    {
      && (forall i, j :: 0 <= i < j < |conns| ==> conns[i] != conns[j])
      && (forall c :: c in conns ==> c !in leased && c !in deleted)
      && leased !! deleted
      && total == |conns| + |leased|
    }

    /** No connection is leased beyond the limit. */
    ghost predicate Limited()
      reads `conns, `leased, conns, leased
    {
      && (forall c :: c in conns ==> c.leases == c.request < Limit())
      && (forall c :: c in leased ==> c.leases == c.request + 1 <= Limit())
    }

    ghost predicate Valid()
      reads this, conns, leased
    {
      Partitioned() && Limited()
    }

    /** Valid, but for one connection that is in no place yet is counted. */
    ghost predicate Loose(ptr: HttpConnection)
      reads this, conns, leased, ptr
    {
      && (forall i, j :: 0 <= i < j < |conns| ==> conns[i] != conns[j])
      && (forall c :: c in conns ==> c !in leased && c !in deleted)
      && leased !! deleted && Limited()
      && ptr !in conns && ptr !in leased && ptr !in deleted
      && total == |conns| + |leased| + 1
      && ptr.leases == ptr.request < Limit()
    }

    /** The test of `getConnection`; its age test keeps the connections that are old enough. */
    predicate Usable(c: HttpConnection, now: nat)
      reads c
    {
      c.connected && !(c.createTime + maxAliveTime > now)
    }

    /** The first pooled connection that can be leased. */
    ghost function FirstUsable(cs: seq<HttpConnection>, now: nat): (k: nat)
      reads cs
      ensures k <= |cs| && (k < |cs| ==> Usable(cs[k], now)) && forall j :: 0 <= j < k ==> !Usable(cs[j], now)
    {
      if cs == [] || Usable(cs[0], now) then 0 else 1 + FirstUsable(cs[1..], now)
    }

    /** The part of `getConnection` under the lock: drops connections until one can be leased. */
    method Take(now: nat) returns (ptr: HttpConnection?, invalid: seq<HttpConnection>)
      modifies `conns
      ensures var k := FirstUsable(old(conns), now);
        && invalid == old(conns)[..k]
        && if k < |old(conns)| then ptr == old(conns)[k] && conns == old(conns)[k + 1..] else ptr == null && conns == []
      ensures ptr != null ==> ptr.connected && ptr.createTime + maxAliveTime <= now
      ensures forall c :: c in invalid ==> !c.connected || now < c.createTime + maxAliveTime
    {
      ptr, invalid := null, [];
      ghost var all := conns;
      while conns != []
        invariant |invalid| <= |all| && invalid == all[..|invalid|] && conns == all[|invalid|..]
        invariant forall j :: 0 <= j < |invalid| ==> !Usable(all[j], now)
        decreases |conns|
      {
        var conn := conns[0];
        assert conn == all[|invalid|];
        conns := conns[1..];
        if !conn.connected {
          invalid := invalid + [conn];
          continue;
        }
        if conn.createTime + maxAliveTime > now {
          invalid := invalid + [conn];
          continue;
        }
        assert FirstUsable(all, now) == |invalid|;
        ptr := conn;
        break;
      }
    }

    /** The connections at the given places. */
    ghost function At(cs: seq<HttpConnection>, k: nat): (s: set<HttpConnection>)
      requires k <= |cs|
      ensures (forall j :: 0 <= j < k ==> cs[j] in s) && forall c :: c in s ==> c in cs[..k]
    {
      set j | 0 <= j < k :: cs[j]
    }

    /** `getConnection` up to the update of the count: what was dropped is deleted, what was found is in no place. */
    method Retire(now: nat) returns (ptr: HttpConnection?)
      requires Valid()
      modifies `conns, `total, `deleted
      ensures var k := old(FirstUsable(conns, now)); var n := |old(conns)|;
        && deleted == old(deleted) + At(old(conns), k)
        && conns == (if k < n then old(conns)[k + 1..] else [])
        && ptr == (if k < n then old(conns)[k] else null)
      ensures ptr != null ==> ptr.connected && ptr.createTime + maxAliveTime <= now
      ensures forall c :: c in deleted && c !in old(deleted) ==> !c.connected || now < c.createTime + maxAliveTime
      ensures if ptr == null then Valid() else Loose(ptr)
    {
      var invalid;
      ptr, invalid := Take(now);
      deleted := deleted + At(invalid, |invalid|);
      total := total - |invalid|;
    }

    method Lease(ptr: HttpConnection)
      requires Loose(ptr)
      modifies `leased, ptr`leases
      ensures Valid() && leased == old(leased) + {ptr} && ptr.leases == old(ptr.leases) + 1
    {
      ptr.leases := ptr.leases + 1;
      leased := leased + {ptr};
    }

    /** `getConnection`; `connects` says whether a new connection can be made, if one is needed. */
    method GetConnection(now: nat, connects: bool) returns (r: HttpConnection?)
      requires Valid()
      modifies this, conns`leases
      ensures Valid()
      ensures var k := old(FirstUsable(conns, now)); var n := |old(conns)|;
        && deleted == old(deleted) + At(old(conns), k)
        && conns == (if k < n then old(conns)[k + 1..] else [])
        && (if k < n then r == old(conns)[k] else r == null <==> !connects)
        && (k == n && connects ==> fresh(r))
        && leased == (if r == null then old(leased) else old(leased) + {r})
      ensures r != null && !fresh(r) ==> r.connected && r.createTime + maxAliveTime <= now
      ensures forall c :: c in deleted && c !in old(deleted) ==> !c.connected || now < c.createTime + maxAliveTime
    {
      hide FirstUsable, Usable, At;
      r := Retire(now);
      if r == null {
        if !connects {
          return null;
        }
        r := new HttpConnection(0);
        total := total + 1;
      }
      Lease(r);
    }

    /** `ReleasePtr`, the deleter of a leased connection. */
    method ReleasePtr(ptr: HttpConnection, now: nat)
      requires Valid() && ptr in leased
      modifies this, ptr`request
      ensures Valid() && ptr !in old(deleted)
      ensures leased == old(leased) - {ptr} && ptr.request == old(ptr.request) + 1
      ensures
        if !ptr.connected || ptr.createTime + maxAliveTime >= now || ptr.request >= maxRequest
        then deleted == old(deleted) + {ptr} && conns == old(conns)
        else deleted == old(deleted) && conns == old(conns) + [ptr]
    {
      ptr.request := ptr.request + 1;
      leased := leased - {ptr};
      if !ptr.connected || ptr.createTime + maxAliveTime >= now || ptr.request >= maxRequest {
        deleted := deleted + {ptr};
        total := total - 1;
        return;
      }
      conns := conns + [ptr];
    }
  }
}
