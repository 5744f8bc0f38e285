/** The growable array behind `soap_wsdd_add_ProbeMatch`. Its capacity is never
    stored: a bit test on the size tells when it is full. */
module MatchArray {
  import opened Bitwise
  import opened Constants
  import opened Options

  datatype Scopes = Scopes(item: Option<string>, matchBy: Option<string>)

  datatype ProbeMatch = ProbeMatch(endpoint: Option<string>, types: Option<string>, scopes: Option<Scopes>,
                                   xaddrs: Option<string>, metadataVersion: int)

  /** `soap_default_wsdd__ProbeMatchType`. */
  const DEFAULT_MATCH := ProbeMatch(None, None, None, None, 0)

  // --------------------------------------------------------------- the capacity

  /** The room made for `n` entries, in terms of `n` alone. */
  function Capacity(n: nat): (c: nat)
    ensures c >= 4 && c >= n
  {
    if n <= 4 then 4 else 2 * Capacity((n + 1) / 2)
  }

  /** The capacity is the least power of two that holds the entries and at least four. */
  lemma {:induction false} CapacityIsLeast(n: nat, p: nat)
    ensures IsPow2(Capacity(n))
    ensures IsPow2(p) && p >= 4 && p >= n ==> p >= Capacity(n)
    decreases n
  {
    if n <= 4 {
      assert Pow2(2) == 4;
    } else {
      CapacityIsLeast((n + 1) / 2, p / 2);
      Pow2Halves(Capacity((n + 1) / 2));
      if IsPow2(p) && p >= n {
        if p % 2 == 1 { OddIsNotPow2(p); }
        Pow2Halves(p / 2);
      }
    }
  }

  /** The test in the code: time to double. */
  predicate Full(k: nat) { k >= 4 && And(k, k - 1) == 0 }

  /** A non-empty array is full exactly when the bit test says so. */
  lemma FullMeansNoRoom(k: nat)
    requires k > 0
    ensures Full(k) <==> k == Capacity(k)
  {
    PowerOfTwoTest(k);
    CapacityIsLeast(k, k);
  }

  /** One more entry needs twice the room exactly when the array is full. */
  lemma CapacityGrows(k: nat)
    requires k > 0
    ensures Capacity(k + 1) == if Full(k) then 2 * k else Capacity(k)
  {
    FullMeansNoRoom(k);
    if Full(k) {
      DoubleIsNext(k);
    } else {
      CapacityIsLeast(k, Capacity(k + 1));
      CapacityIsLeast(k + 1, Capacity(k));
    }
  }

  lemma DoubleIsNext(k: nat)
    requires k >= 4 && k == Capacity(k)
    ensures Capacity(k + 1) == 2 * k
  {
    CapacityIsLeast(k, k);
    if k % 2 == 1 { OddIsNotPow2(k); }
    assert (k + 2) / 2 == k / 2 + 1;
    if k == 4 {
    } else {
      assert k / 2 == Capacity(k / 2);
      DoubleIsNext(k / 2);
    }
  }

  lemma CapacityOfOne()
    ensures Capacity(1) == 4
  {
  }

  // --------------------------------------------------------------- the container

  class ProbeMatches {
    var size: nat
    var matches: array?<ProbeMatch>
    /** Entries copied and slots requested since initialisation. */
    ghost var copied: nat
    ghost var requested: nat

    ghost predicate Valid()
      reads this
    {
      && (size > 0 ==> matches != null && matches.Length == Capacity(size))
      && copied == Copied(size) && requested == Requested(size)
    }

    ghost function Contents(): seq<ProbeMatch>
      reads this, matches
      requires Valid()
    {
      if size == 0 then [] else matches[..size]
    }

    /** `soap_wsdd_init_ProbeMatches`. */
    constructor ()
      ensures Valid() && Contents() == [] && size == 0
    {
      size, matches := 0, null;
      copied, requested := 0, 0;
    }

    /** `soap_wsdd_add_ProbeMatch`. `available` is whether the arena can provide
        the memory, should more be needed. */
    method Add(endpoint: Option<string>, types: Option<string>, scopes: Option<string>, matchBy: Option<string>,
               xaddrs: Option<string>, metadataVersion: int, available: bool) returns (code: int)
      requires Valid() && size < 0x4000_0000
      modifies this, matches
      ensures Valid()
      ensures code == if available || (old(size) > 0 && !Full(old(size))) then SOAP_OK else SOAP_EOM
      ensures code == SOAP_OK ==>
                && |Contents()| == |old(Contents())| + 1 && Contents()[..old(size)] == old(Contents())
                && var m := Contents()[old(size)];
                   && m.endpoint == endpoint && m.types == types && m.xaddrs == xaddrs
                   && m.metadataVersion == metadataVersion
                   && m.scopes == if scopes.Some? then Some(Scopes(scopes, matchBy)) else None
      ensures code != SOAP_OK ==> Contents() == old(Contents()) && size == old(size) && matches == old(matches)
      ensures matches == old(matches) || fresh(matches)
      ensures matches != old(matches) && old(matches) != null ==> old(matches)[..] == old(matches[..])
    {
      hide Capacity, Copied, Requested, Full;
      var k := size;
      var ok := Reserve(available);
      if !ok {
        return SOAP_EOM;
      }
      WriteEntry(matches, k, endpoint, types, scopes, matchBy, xaddrs, metadataVersion);
      size := size + 1;
      return SOAP_OK;
    }

    /** Room for one more entry, in a new array if the old one is full. */
    method Reserve(available: bool) returns (ok: bool)
      requires Valid()
      modifies this
      ensures ok == (available || (size > 0 && !Full(size))) && size == old(size)
      ensures ok ==>
                && matches != null && matches.Length == Capacity(size + 1) && matches[..size] == old(Contents())
                && copied == Copied(size + 1) && requested == Requested(size + 1)
      ensures !ok ==> matches == old(matches) && copied == old(copied) && requested == old(requested)
      ensures matches == old(matches) || fresh(matches)
    {
      hide And, Capacity;
      var n, k := 0, size;
      CapacityOfOne();
      if k > 0 { CapacityGrows(k); FullMeansNoRoom(k); }
      // need to increase space?
      if k == 0 {
        n := 4;
      } else if k >= 4 && And(k, k - 1) == 0 {
        n := 2 * k;
      }
      if n != 0 {
        if !available {
          return false;
        }
        matches := Moved(matches, k, n);
        copied, requested := copied + k, requested + n;
      }
      return true;
    }
  }

  /** The first `k` entries in an array with room for `n`. */
  method Moved(matches: array?<ProbeMatch>, k: nat, n: nat) returns (tmp: array<ProbeMatch>)
    requires k <= n && (k > 0 ==> matches != null && k <= matches.Length)
    ensures fresh(tmp) && tmp.Length == n && (k > 0 ==> tmp[..k] == matches[..k])
  {
    tmp := new ProbeMatch[n](_ => DEFAULT_MATCH);
    for i := 0 to k
      invariant i > 0 ==> tmp[..i] == matches[..i]
      modifies tmp
    {
      tmp[i] := matches[i];
    }
  }

  /** Filling in the new entry, member by member. */
  method WriteEntry(a: array<ProbeMatch>, k: nat, endpoint: Option<string>, types: Option<string>,
                    scopes: Option<string>, matchBy: Option<string>, xaddrs: Option<string>, metadataVersion: int)
    requires k < a.Length
    modifies a
    ensures a[..k] == old(a[..k]) && a[k + 1..] == old(a[k + 1..])
    ensures var m := a[k];
            && m.endpoint == endpoint && m.types == types && m.xaddrs == xaddrs && m.metadataVersion == metadataVersion
            && m.scopes == if scopes.Some? then Some(Scopes(scopes, matchBy)) else None
  {
    a[k] := DEFAULT_MATCH;
    a[k] := a[k].(endpoint := endpoint);
    a[k] := a[k].(types := types);
    if scopes.Some? {
      a[k] := a[k].(scopes := Some(Scopes(scopes, matchBy)));
    }
    a[k] := a[k].(xaddrs := xaddrs);
    a[k] := a[k].(metadataVersion := metadataVersion);
  }

  // ----------------------------------------------------------- the cost of growth

  /** Entries copied by the first `n` successful adds. */
  function Copied(n: nat): nat {
    if n == 0 then 0 else Copied(n - 1) + if Full(n - 1) then n - 1 else 0
  }

  /** Slots requested from the arena by the first `n` successful adds. */
  function Requested(n: nat): nat {
    if n == 0 then 0
    else Requested(n - 1) + if n == 1 then 4 else if Full(n - 1) then 2 * (n - 1) else 0
  }

  lemma {:induction false} CostIsCapacity(n: nat)
    requires n > 0
    ensures Copied(n) == Capacity(n) - 4 && Requested(n) == 2 * Capacity(n) - 4
  {
    if n > 1 {
      CostIsCapacity(n - 1);
      CapacityGrows(n - 1);
      FullMeansNoRoom(n - 1);
    } else {
      assert !Full(0);
    }
  }

  lemma {:induction false} CapacityBelowTwice(n: nat)
    requires n > 4
    ensures Capacity(n) <= 2 * n - 2
  {
    if (n + 1) / 2 <= 4 {
    } else {
      CapacityBelowTwice((n + 1) / 2);
    }
  }

  /** Growth is linear overall: n adds copy fewer than 2n old entries and request
      at most 4n slots. */
  lemma LinearCost(n: nat)
    requires n > 0
    ensures Copied(n) < 2 * n && Requested(n) <= 4 * n
  {
    CostIsCapacity(n);
    if n > 4 { CapacityBelowTwice(n); }
  }
}
