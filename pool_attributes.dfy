/**
 * Pool configuration attributes (`PoolAttributes` in PoolAttributes.cpp).
 *
 * A pool is configured either with locators or with servers, never with
 * both; each endpoint is kept as a `"host:port"` string. Two attribute sets
 * compare equal when every setting matches and, for each endpoint list, the
 * lists have the same length and every entry of the first occurs in the
 * second.
 */
module PoolConfig {

  /** The source's `int`. */
  type Int32 = x: int | -0x8000_0000 <= x < 0x8000_0000

  datatype Option<T> = None | Some(value: T)

  // The `PoolFactory::DEFAULT_*` values. Their concrete values are not part
  // of this model, so they are left unspecified.
  const DefaultThreadLocalConn: bool
  const DefaultFreeConnectionTimeout: int
  const DefaultLoadConditioningInterval: int
  const DefaultSocketBufferSize: int
  const DefaultReadTimeout: int
  const DefaultMinConnections: int
  const DefaultMaxConnections: int
  const DefaultRetryAttempts: int
  const DefaultStatisticInterval: int
  const DefaultSubscriptionRedundancy: int
  const DefaultSubscriptionMessageTrackingTimeout: int
  const DefaultSubscriptionAckInterval: int
  const DefaultIdleTimeout: int
  const DefaultPingInterval: int
  const DefaultUpdateLocatorListInterval: int
  const DefaultSubscriptionEnabled: bool
  const DefaultMultiuserSecureMode: bool
  const DefaultPrSingleHopEnabled: bool
  const DefaultServerGroup: string

  /** How `addLocator` and `addServer` end: normally, or with `IllegalArgumentException`. */
  datatype Status = Ok | IllegalArgumentException(message: string)

  const BothListsMessage := "Cannot add both locators and servers to a pool"

  // ---------------------------------------------------------------------
  // Decimal rendering of the port (`std::to_string(int)`) and its inverse

  predicate IsDigit(c: char)
  {
    '0' <= c <= '9'
  }

  predicate AllDigits(s: string)
  {
    forall i :: 0 <= i < |s| ==> IsDigit(s[i])
  }

  function DigitChar(d: int): (c: char)
    requires 0 <= d < 10
    ensures IsDigit(c) && c as int - '0' as int == d
  {
    ('0' as int + d) as char
  }

  /** The shortest decimal numeral of `n`: digits only, no leading zero. */
  function NatToDecimal(n: nat): (s: string)
    ensures 1 <= |s| && AllDigits(s)
    ensures s[0] == '0' <==> n == 0
    ensures |s| == 1 <==> n < 10
    decreases n
  {
    if n < 10 then [DigitChar(n)] else NatToDecimal(n / 10) + [DigitChar(n % 10)]
  }

  /** `std::to_string(int)`: a minus sign for negative values, then the decimal numeral. */
  function IntToDecimal(n: int): (s: string)
    ensures 1 <= |s| && ':' !in s
    ensures n < 0 <==> s[0] == '-'
  {
    if n < 0 then "-" + NatToDecimal(-n) else NatToDecimal(n)
  }

  function DigitsValue(s: string): nat
    requires AllDigits(s)
    decreases |s|
  {
    if s == [] then 0 else 10 * DigitsValue(s[..|s| - 1]) + (s[|s| - 1] as int - '0' as int)
  }

  /** Reads back an optionally signed decimal numeral. */
  function ParseDecimal(s: string): Option<int>
  {
    if 2 <= |s| && s[0] == '-' && AllDigits(s[1..]) then Some(-(DigitsValue(s[1..]) as int))
    else if 1 <= |s| && AllDigits(s) then Some(DigitsValue(s))
    else None
  }

  lemma {:induction false} NatToDecimalValue(n: nat)
    ensures DigitsValue(NatToDecimal(n)) == n
    decreases n
  {
    if n >= 10 {
      var s := NatToDecimal(n);
      NatToDecimalValue(n / 10);
      assert s[..|s| - 1] == NatToDecimal(n / 10);
    }
  }

  lemma ParseUnsigned(s: string)
    requires 1 <= |s| && AllDigits(s)
    ensures ParseDecimal(s) == Some(DigitsValue(s) as int)
  {
    assert s[0] != '-';
  }

  lemma ParseNegative(m: string)
    requires 1 <= |m| && AllDigits(m)
    ensures ParseDecimal("-" + m) == Some(-(DigitsValue(m) as int))
  {
    assert ("-" + m)[1..] == m;
  }

  lemma NegativeRoundTrip(k: nat)
    requires k > 0
    ensures ParseDecimal("-" + NatToDecimal(k)) == Some(-(k as int))
  {
    NatToDecimalValue(k);
    ParseNegative(NatToDecimal(k));
  }

  lemma NonNegativeRoundTrip(n: nat)
    ensures ParseDecimal(NatToDecimal(n)) == Some(n)
  {
    NatToDecimalValue(n);
    ParseUnsigned(NatToDecimal(n));
  }

  /** The port's rendering is read back exactly. */
  lemma DecimalRoundTrip(n: int)
    ensures ParseDecimal(IntToDecimal(n)) == Some(n)
  {
    if n < 0 {
      var k: nat := -n;
      assert IntToDecimal(n) == "-" + NatToDecimal(k);
      NegativeRoundTrip(k);
    } else {
      NonNegativeRoundTrip(n);
    }
  }

  // ---------------------------------------------------------------------
  // Endpoint strings

  /**
   * The list entry for an endpoint: `host + ":" + std::to_string(port)`.
   * The entry determines its host and port, even when the host itself holds
   * ':' characters, because the rendered port never holds one.
   */
  function Endpoint(host: string, port: Int32): (e: string)
    ensures SplitEndpoint(e) == Some((host, port))
  {
    var d := IntToDecimal(port);
    SplitsAtJoin(host, d);
    DecimalRoundTrip(port);
    host + ":" + d
  }

  /** The position of the last ':' in `s`, if any. */
  function LastColon(s: string): (r: Option<nat>)
    ensures r.None? ==> ':' !in s
    ensures r.Some? ==> r.value < |s| && s[r.value] == ':' &&
                        forall j :: r.value < j < |s| ==> s[j] != ':'
    decreases |s|
  {
    if s == [] then None
    else if s[|s| - 1] == ':' then Some(|s| - 1)
    else LastColon(s[..|s| - 1])
  }

  /** Splits an endpoint entry at its last ':' into host and port. */
  function SplitEndpoint(entry: string): Option<(string, int)>
  {
    match LastColon(entry)
    case None => None
    case Some(i) =>
      match ParseDecimal(entry[i + 1..])
      case None => None
      case Some(port) => Some((entry[..i], port))
  }

  /** Joining with ':' a tail that holds no ':' puts the last ':' right after the head. */
  lemma SplitsAtJoin(head: string, tail: string)
    requires ':' !in tail
    ensures LastColon(head + ":" + tail) == Some(|head|)
    ensures (head + ":" + tail)[..|head|] == head
    ensures (head + ":" + tail)[|head| + 1..] == tail
  {
    var e := head + ":" + tail;
    assert e[..|head|] == head;
    assert e[|head| + 1..] == tail;
    assert e[|head|] == ':';
    assert e[|head|] in e;
    forall k | |head| < k < |e|
      ensures e[k] != ':'
    {
      assert e[k] == tail[k - |head| - 1];
    }
  }

  // ---------------------------------------------------------------------
  // Comparing endpoint lists

  /** Every entry of `a` occurs somewhere in `b` (duplicates in `a` are not counted). */
  predicate AllOccurIn(a: seq<string>, b: seq<string>)
  {
    forall i :: 0 <= i < |a| ==> a[i] in b
  }

  /** How `operator==` compares one endpoint list of `this` with that of `other`. */
  predicate ListsMatch(mine: seq<string>, theirs: seq<string>)
  {
    |mine| == |theirs| && AllOccurIn(mine, theirs)
  }

  predicate NoDuplicates(s: seq<string>)
  {
    forall i, j :: 0 <= i < j < |s| ==> s[i] != s[j]
  }

  lemma {:induction false} DistinctElementsCount(s: seq<string>)
    requires NoDuplicates(s)
    ensures |set x | x in s| == |s|
    decreases |s|
  {
    if s != [] {
      var last := s[|s| - 1];
      var init := s[..|s| - 1];
      DistinctElementsCount(init);
      assert (set x | x in s) == (set x | x in init) + {last};
      assert last !in init;
    }
  }

  lemma {:induction false} ElementsCountBound(s: seq<string>)
    ensures |set x | x in s| <= |s|
    decreases |s|
  {
    if s != [] {
      var init := s[..|s| - 1];
      ElementsCountBound(init);
      assert (set x | x in s) == (set x | x in init) + {s[|s| - 1]};
    }
  }

  /** Reordering an endpoint list never changes the comparison. */
  lemma ListsMatchIgnoresOrder(mine: seq<string>, theirs: seq<string>)
    requires multiset(mine) == multiset(theirs)
    ensures ListsMatch(mine, theirs) && ListsMatch(theirs, mine)
  {
    assert |mine| == |multiset(mine)| == |theirs|;
    forall i | 0 <= i < |mine| ensures mine[i] in theirs {
      assert mine[i] in multiset(mine);
    }
    forall i | 0 <= i < |theirs| ensures theirs[i] in mine {
      assert theirs[i] in multiset(theirs);
    }
  }

  /** Duplicates make the comparison one-sided: `[a, a]` matches `[a, b]`, but not the reverse. */
  lemma ListsMatchNotSymmetric()
    ensures ListsMatch(["h:1", "h:1"], ["h:1", "h:2"])
    ensures !ListsMatch(["h:1", "h:2"], ["h:1", "h:1"])
  {
    var a := ["h:1", "h:2"];
    assert a[1] !in ["h:1", "h:1"];
  }

  /** Without duplicates on the first side, a match is a match both ways. */
  lemma ListsMatchSymmetricWithoutDuplicates(mine: seq<string>, theirs: seq<string>)
    requires NoDuplicates(mine)
    requires ListsMatch(mine, theirs)
    ensures ListsMatch(theirs, mine)
  {
    var sm := set x | x in mine;
    var st := set x | x in theirs;
    DistinctElementsCount(mine);
    ElementsCountBound(theirs);
    assert sm <= st;
    assert |st - sm| == |st| - |sm| == 0;
    assert st == sm;
    forall i | 0 <= i < |theirs| ensures theirs[i] in mine {
      assert theirs[i] in st;
    }
  }

  // ---------------------------------------------------------------------
  // The attributes

  class PoolAttributes {
    var isThreadLocalConn: bool
    var freeConnTimeout: int
    var loadCondInterval: int
    var sockBufferSize: int
    var readTimeout: int
    var minConns: int
    var maxConns: int
    var retryAttempts: int
    var statsInterval: int
    var redundancy: int
    var msgTrackTimeout: int
    var subsAckInterval: int
    var idleTimeout: int
    var pingInterval: int
    var updateLocatorListInterval: int
    var subsEnabled: bool
    var multiuserSecurityMode: bool
    var isPRSingleHopEnabled: bool
    var serverGrp: string
    var initLocList: seq<string>
    var initServList: seq<string>
    var sniProxyHost: string
    var sniProxyPort: int

    /** The pool is configured with locators or with servers, not both. */
    predicate NotBothLists()
      reads this
    {
      initLocList == [] || initServList == []
    }

    /** Every setting other than the two endpoint lists is the same. */
    predicate SameSettings(other: PoolAttributes)
      reads this, other
    {
      && isThreadLocalConn == other.isThreadLocalConn
      && freeConnTimeout == other.freeConnTimeout
      && loadCondInterval == other.loadCondInterval
      && sockBufferSize == other.sockBufferSize
      && readTimeout == other.readTimeout
      && minConns == other.minConns
      && maxConns == other.maxConns
      && retryAttempts == other.retryAttempts
      && statsInterval == other.statsInterval
      && redundancy == other.redundancy
      && msgTrackTimeout == other.msgTrackTimeout
      && subsAckInterval == other.subsAckInterval
      && idleTimeout == other.idleTimeout
      && pingInterval == other.pingInterval
      && updateLocatorListInterval == other.updateLocatorListInterval
      && subsEnabled == other.subsEnabled
      && multiuserSecurityMode == other.multiuserSecurityMode
      && isPRSingleHopEnabled == other.isPRSingleHopEnabled
      && serverGrp == other.serverGrp
      && sniProxyHost == other.sniProxyHost
      && sniProxyPort == other.sniProxyPort
    }

    /**
     * `operator==`: every setting equal, equal endpoint-list sizes, and each
     * entry of this object's lists occurs in the other's. It is reflexive, and
     * lists of different lengths never compare equal.
     */
    predicate Equals(other: PoolAttributes)
      reads this, other
      ensures other == this ==> Equals(other)
      ensures Equals(other) ==> |initLocList| == |other.initLocList| && |initServList| == |other.initServList|
    {
      && SameSettings(other)
      && ListsMatch(initLocList, other.initLocList)
      && ListsMatch(initServList, other.initServList)
    }

    /** Field-for-field the same, as after a copy. */
    ghost predicate Identical(other: PoolAttributes)
      reads this, other
    {
      SameSettings(other) && initLocList == other.initLocList && initServList == other.initServList
    }

    /** The default constructor: every setting from the factory defaults, no endpoints. */
    constructor ()
      ensures initLocList == [] && initServList == [] && NotBothLists()
      ensures sniProxyHost == "" && sniProxyPort == 0
      ensures isThreadLocalConn == DefaultThreadLocalConn
      ensures freeConnTimeout == DefaultFreeConnectionTimeout
      ensures loadCondInterval == DefaultLoadConditioningInterval
      ensures sockBufferSize == DefaultSocketBufferSize
      ensures readTimeout == DefaultReadTimeout
      ensures minConns == DefaultMinConnections
      ensures maxConns == DefaultMaxConnections
      ensures retryAttempts == DefaultRetryAttempts
      ensures statsInterval == DefaultStatisticInterval
      ensures redundancy == DefaultSubscriptionRedundancy
      ensures msgTrackTimeout == DefaultSubscriptionMessageTrackingTimeout
      ensures subsAckInterval == DefaultSubscriptionAckInterval
      ensures idleTimeout == DefaultIdleTimeout
      ensures pingInterval == DefaultPingInterval
      ensures updateLocatorListInterval == DefaultUpdateLocatorListInterval
      ensures subsEnabled == DefaultSubscriptionEnabled
      ensures multiuserSecurityMode == DefaultMultiuserSecureMode
      ensures isPRSingleHopEnabled == DefaultPrSingleHopEnabled
      ensures serverGrp == DefaultServerGroup
    {
      isThreadLocalConn := DefaultThreadLocalConn;
      freeConnTimeout := DefaultFreeConnectionTimeout;
      loadCondInterval := DefaultLoadConditioningInterval;
      sockBufferSize := DefaultSocketBufferSize;
      readTimeout := DefaultReadTimeout;
      minConns := DefaultMinConnections;
      maxConns := DefaultMaxConnections;
      retryAttempts := DefaultRetryAttempts;
      statsInterval := DefaultStatisticInterval;
      redundancy := DefaultSubscriptionRedundancy;
      msgTrackTimeout := DefaultSubscriptionMessageTrackingTimeout;
      subsAckInterval := DefaultSubscriptionAckInterval;
      idleTimeout := DefaultIdleTimeout;
      pingInterval := DefaultPingInterval;
      updateLocatorListInterval := DefaultUpdateLocatorListInterval;
      subsEnabled := DefaultSubscriptionEnabled;
      multiuserSecurityMode := DefaultMultiuserSecureMode;
      isPRSingleHopEnabled := DefaultPrSingleHopEnabled;
      serverGrp := DefaultServerGroup;
      initLocList := [];
      initServList := [];
      sniProxyHost := "";
      sniProxyPort := 0;
    }

    /** The implicit copy constructor that `clone` relies on. */
    constructor CopyOf(source: PoolAttributes)
      ensures Identical(source)
    {
      isThreadLocalConn := source.isThreadLocalConn;
      freeConnTimeout := source.freeConnTimeout;
      loadCondInterval := source.loadCondInterval;
      sockBufferSize := source.sockBufferSize;
      readTimeout := source.readTimeout;
      minConns := source.minConns;
      maxConns := source.maxConns;
      retryAttempts := source.retryAttempts;
      statsInterval := source.statsInterval;
      redundancy := source.redundancy;
      msgTrackTimeout := source.msgTrackTimeout;
      subsAckInterval := source.subsAckInterval;
      idleTimeout := source.idleTimeout;
      pingInterval := source.pingInterval;
      updateLocatorListInterval := source.updateLocatorListInterval;
      subsEnabled := source.subsEnabled;
      multiuserSecurityMode := source.multiuserSecurityMode;
      isPRSingleHopEnabled := source.isPRSingleHopEnabled;
      serverGrp := source.serverGrp;
      initLocList := source.initLocList;
      initServList := source.initServList;
      sniProxyHost := source.sniProxyHost;
      sniProxyPort := source.sniProxyPort;
    }

    /** `clone`: a new, separate object that compares equal to this one, in both directions. */
    method Clone() returns (copy: PoolAttributes)
      ensures fresh(copy) && copy.Identical(this)
      ensures copy.Equals(this) && this.Equals(copy)
    {
      copy := new PoolAttributes.CopyOf(this);
    }

    /**
     * `compareVectorOfStrings`: for each entry of `thisVector`, scans
     * `otherVector` until a match is found; fails as soon as an entry has none.
     */
    static method CompareVectorOfStrings(thisVector: seq<string>, otherVector: seq<string>)
      returns (result: bool)
      ensures result <==> AllOccurIn(thisVector, otherVector)
    {
      for i := 0 to |thisVector|
        invariant AllOccurIn(thisVector[..i], otherVector)
      {
        var found := false;
        var j := 0;
        while j < |otherVector|
          invariant 0 <= j <= |otherVector|
          invariant !found ==> thisVector[i] !in otherVector[..j]
          invariant found ==> thisVector[i] in otherVector
        {
          if thisVector[i] == otherVector[j] {
            found := true;
            break;
          }
          j := j + 1;
        }
        if !found {
          assert otherVector[..j] == otherVector;
          return false;
        }
        assert thisVector[..i + 1] == thisVector[..i] + [thisVector[i]];
      }
      assert thisVector[..|thisVector|] == thisVector;
      return true;
    }

    /** `addLocator`: appends `host:port` to the locators, refused once servers are configured. */
    method AddLocator(host: string, port: Int32) returns (status: Status)
      modifies this`initLocList
      ensures old(initServList) != [] ==>
                status == IllegalArgumentException(BothListsMessage) && initLocList == old(initLocList)
      ensures old(initServList) == [] ==>
                status == Ok && initLocList == old(initLocList) + [Endpoint(host, port)]
      ensures old(NotBothLists()) ==> NotBothLists()
    {
      if initServList != [] {
        return IllegalArgumentException(BothListsMessage);
      }
      initLocList := initLocList + [host + ":" + IntToDecimal(port)];
      return Ok;
    }

    /** `addServer`: appends `host:port` to the servers, refused once locators are configured. */
    method AddServer(host: string, port: Int32) returns (status: Status)
      modifies this`initServList
      ensures old(initLocList) != [] ==>
                status == IllegalArgumentException(BothListsMessage) && initServList == old(initServList)
      ensures old(initLocList) == [] ==>
                status == Ok && initServList == old(initServList) + [Endpoint(host, port)]
      ensures old(NotBothLists()) ==> NotBothLists()
    {
      if initLocList != [] {
        return IllegalArgumentException(BothListsMessage);
      }
      initServList := initServList + [host + ":" + IntToDecimal(port)];
      return Ok;
    }
  }

  // ---------------------------------------------------------------------
  // Properties of `operator==`

  /** Objects that differ only in the order of their endpoint lists compare equal. */
  lemma EqualsIgnoresOrder(p: PoolAttributes, q: PoolAttributes)
    requires p.SameSettings(q)
    requires multiset(p.initLocList) == multiset(q.initLocList)
    requires multiset(p.initServList) == multiset(q.initServList)
    ensures p.Equals(q) && q.Equals(p)
  {
    ListsMatchIgnoresOrder(p.initLocList, q.initLocList);
    ListsMatchIgnoresOrder(p.initServList, q.initServList);
  }

  /** With a duplicated locator, `operator==` holds one way only. */
  lemma EqualsNotSymmetric(p: PoolAttributes, q: PoolAttributes)
    requires p.SameSettings(q)
    requires p.initLocList == ["h:1", "h:1"] && q.initLocList == ["h:1", "h:2"]
    requires p.initServList == [] && q.initServList == []
    ensures p.Equals(q) && !q.Equals(p)
  {
    ListsMatchNotSymmetric();
  }

  /** When `p` has no duplicate endpoints, `p == q` implies `q == p`. */
  lemma EqualsSymmetricWithoutDuplicates(p: PoolAttributes, q: PoolAttributes)
    requires NoDuplicates(p.initLocList) && NoDuplicates(p.initServList)
    requires p.Equals(q)
    ensures q.Equals(p)
  {
    ListsMatchSymmetricWithoutDuplicates(p.initLocList, q.initLocList);
    ListsMatchSymmetricWithoutDuplicates(p.initServList, q.initServList);
  }
}
