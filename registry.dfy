/**
 * The package-identifier registry of the client: the in-flight messages
 * it has sent and received, keyed by packet identifier, and the list of
 * identifiers freed for reuse.
 *
 * `getIdentifier()` scans the identifiers in use with a loop that, after
 * a hit, starts over at index 1 rather than 0. Both that loop and a loop
 * that starts over at index 0 are modelled; the registry uses the second,
 * and `AsWrittenAgrees` and `AsWrittenOneFirst` show the two agree
 * whenever the listing of the identifiers in use starts with its smallest
 * one, or lists identifier 1, when in use, first.
 */
module Registry {
  import opened Messages

  /** An upper bound of the integers listed, so that every scan terminates. */
  function MaxKey(keys: seq<int>): (m: int)
    ensures m >= 0
    ensures forall k :: k in keys ==> k <= m
  {
    if |keys| == 0 then 0
    else
      assert forall k :: k in keys ==> k == keys[0] || k in keys[1..];
      if keys[0] > MaxKey(keys[1..]) then keys[0] else MaxKey(keys[1..])
  }

  /**
   * The identifier scan as written: on a hit at index `i`, the identifier
   * goes up by one and `i` is set to 0 and then incremented by the loop,
   * so the scan resumes at index 1.
   */
  function ScanAsWritten(keys: seq<int>, identifier: int, i: nat): int
    requires i <= |keys|
    decreases MaxKey(keys) + 1 - identifier, |keys| - i
  {
    if i == |keys| then identifier
    else if identifier == keys[i] then
      assert keys[i] in keys;
      ScanAsWritten(keys, identifier + 1, 1)
    else ScanAsWritten(keys, identifier, i + 1)
  }

  /** The scan that starts over at index 0 after every hit. */
  function ScanFrom(keys: seq<int>, identifier: int, i: nat): int
    requires i <= |keys|
    decreases MaxKey(keys) + 1 - identifier, |keys| - i
  {
    if i == |keys| then identifier
    else if identifier == keys[i] then
      assert keys[i] in keys;
      ScanFrom(keys, identifier + 1, 0)
    else ScanFrom(keys, identifier, i + 1)
  }

  /** The loop of `getIdentifier()` exactly as it stands. */
  method NextIdentifierAsWritten(keys: seq<int>) returns (identifier: int)
    ensures identifier == ScanAsWritten(keys, 1, 0)
  {
    identifier := 1;
    var i := 0;
    while i < |keys|
      invariant 0 <= i <= |keys|
      invariant identifier <= MaxKey(keys) + 1
      invariant ScanAsWritten(keys, identifier, i) == ScanAsWritten(keys, 1, 0)
      decreases MaxKey(keys) + 1 - identifier, |keys| - i
    {
      if identifier == keys[i] {
        assert keys[i] in keys;
        identifier := identifier + 1;
        i := 0;
      }
      i := i + 1;
    }
  }

  /** The same loop, starting over at index 0 after a hit. */
  method NextFreeIdentifier(keys: seq<int>) returns (identifier: int)
    ensures identifier == ScanFrom(keys, 1, 0)
  {
    identifier := 1;
    var i := 0;
    while i < |keys|
      invariant 0 <= i <= |keys|
      invariant identifier <= MaxKey(keys) + 1
      invariant ScanFrom(keys, identifier, i) == ScanFrom(keys, 1, 0)
      decreases MaxKey(keys) + 1 - identifier, |keys| - i
    {
      if identifier == keys[i] {
        assert keys[i] in keys;
        identifier := identifier + 1;
        i := 0;
      } else {
        i := i + 1;
      }
    }
  }

  /**
   * What the scan as written returns: every identifier it stepped over is
   * in use, and the result is not at any index it scanned after its last
   * hit (from index 1 once it has had one).
   */
  lemma {:induction false} ScanAsWrittenFacts(keys: seq<int>, identifier: int, i: nat)
    requires i <= |keys|
    ensures ScanAsWritten(keys, identifier, i) >= identifier
    ensures forall v :: identifier <= v < ScanAsWritten(keys, identifier, i) ==> v in keys
    ensures ScanAsWritten(keys, identifier, i) == identifier ==>
              forall j :: i <= j < |keys| ==> keys[j] != identifier
    ensures ScanAsWritten(keys, identifier, i) > identifier ==>
              forall j :: 1 <= j < |keys| ==> keys[j] != ScanAsWritten(keys, identifier, i)
    decreases MaxKey(keys) + 1 - identifier, |keys| - i
  {
    if i == |keys| {
    } else if identifier == keys[i] {
      assert keys[i] in keys;
      ScanAsWrittenFacts(keys, identifier + 1, 1);
    } else {
      ScanAsWrittenFacts(keys, identifier, i + 1);
    }
  }

  /** What the corrected scan returns: every identifier it stepped over is in use, and the result is not. */
  lemma {:induction false} ScanFromFacts(keys: seq<int>, identifier: int, i: nat)
    requires i <= |keys|
    ensures ScanFrom(keys, identifier, i) >= identifier
    ensures forall v :: identifier <= v < ScanFrom(keys, identifier, i) ==> v in keys
    ensures ScanFrom(keys, identifier, i) == identifier ==>
              forall j :: i <= j < |keys| ==> keys[j] != identifier
    ensures ScanFrom(keys, identifier, i) > identifier ==> ScanFrom(keys, identifier, i) !in keys
    decreases MaxKey(keys) + 1 - identifier, |keys| - i
  {
    if i == |keys| {
    } else if identifier == keys[i] {
      assert keys[i] in keys;
      ScanFromFacts(keys, identifier + 1, 0);
    } else {
      ScanFromFacts(keys, identifier, i + 1);
    }
  }

  /** The corrected scan returns the least positive identifier not in use, whatever the listing order. */
  lemma LeastFreeIdentifier(keys: seq<int>)
    ensures ScanFrom(keys, 1, 0) >= 1
    ensures ScanFrom(keys, 1, 0) !in keys
    ensures forall v :: 1 <= v < ScanFrom(keys, 1, 0) ==> v in keys
  {
    ScanFromFacts(keys, 1, 0);
  }

  /**
   * The scan as written never returns an identifier listed after the
   * first position; it returns one in use only when that is the first
   * listed, and never when the first listed is the smallest.
   */
  lemma AsWrittenFacts(keys: seq<int>)
    ensures ScanAsWritten(keys, 1, 0) >= 1
    ensures forall v :: 1 <= v < ScanAsWritten(keys, 1, 0) ==> v in keys
    ensures forall j :: 1 <= j < |keys| ==> keys[j] != ScanAsWritten(keys, 1, 0)
    ensures ScanAsWritten(keys, 1, 0) in keys ==> keys[0] == ScanAsWritten(keys, 1, 0) > 1
    ensures |keys| > 0 && (forall k :: k in keys ==> keys[0] <= k) ==> ScanAsWritten(keys, 1, 0) !in keys
  {
    ScanAsWrittenFacts(keys, 1, 0);
    var r := ScanAsWritten(keys, 1, 0);
    if r in keys && r == keys[0] && r > 1 {
      assert 1 in keys;
    }
  }

  /** When the first identifier listed is the smallest, the loop as written finds the least free identifier too. */
  lemma AsWrittenAgrees(keys: seq<int>)
    requires |keys| > 0 ==> forall k :: k in keys ==> keys[0] <= k
    ensures ScanAsWritten(keys, 1, 0) == ScanFrom(keys, 1, 0)
  {
    AsWrittenFacts(keys);
    LeastFreeIdentifier(keys);
  }

  /**
   * The loop as written goes wrong only when identifier 1 is in use and is
   * not the first listed: whenever 1, if in use, comes first, it finds the
   * least free identifier too.
   */
  lemma AsWrittenOneFirst(keys: seq<int>)
    requires 1 in keys ==> keys[0] == 1
    ensures ScanAsWritten(keys, 1, 0) == ScanFrom(keys, 1, 0)
  {
    AsWrittenFacts(keys);
    LeastFreeIdentifier(keys);
    var r, s := ScanAsWritten(keys, 1, 0), ScanFrom(keys, 1, 0);
    if r > 1 {
      assert 1 in keys;
    }
    assert r !in keys;
  }

  /** The identifiers 1..r. */
  function Upto(r: nat): (s: set<int>)
    ensures |s| == r
    ensures forall v :: v in s <==> 1 <= v <= r
  {
    if r == 0 then {} else Upto(r - 1) + {r}
  }

  /** A set holding all of 1..r has at least `r` members. */
  lemma {:induction false} UptoSize(r: nat, s: set<int>)
    requires Upto(r) <= s
    ensures |s| >= r
  {
    if r > 0 {
      UptoSize(r - 1, s - {r});
    }
  }

  /**
   * The scan as written hands out an identifier `r` already in use only
   * when at least `r` distinct identifiers are in use: it stepped over all
   * of 1..r-1, and `r` itself is listed.
   */
  lemma AsWrittenWrongNeedsKeys(keys: seq<int>)
    ensures ScanAsWritten(keys, 1, 0) in keys ==> |set k | k in keys| >= ScanAsWritten(keys, 1, 0)
  {
    AsWrittenFacts(keys);
    var r := ScanAsWritten(keys, 1, 0);
    if r in keys {
      UptoSize(r, set k | k in keys);
    }
  }

  /** Identifiers 2 and 1 in use, listed in that order: the loop as written hands out 2 again. */
  lemma KeysOutOfOrder()
    ensures ScanAsWritten([2, 1], 1, 0) == 2
    ensures ScanFrom([2, 1], 1, 0) == 3
  {
  }

  class IdentifierRegistry {
    var sentPackages: map<int, Message>
    var receivedPackages: map<int, Message>
    var availablePackageIdentifiers: seq<int>

    /** An empty registry. */
    constructor ()
      ensures sentPackages == map[] && receivedPackages == map[] && availablePackageIdentifiers == []
    {
      sentPackages := map[];
      receivedPackages := map[];
      availablePackageIdentifiers := [];
    }

    /** `addSentPackage`: files the message under its identifier, replacing any message filed there. */
    method AddSentPackage(msg: Message)
      modifies this
      ensures sentPackages == old(sentPackages)[msg.packageIdentifier := msg]
      ensures receivedPackages == old(receivedPackages)
      ensures availablePackageIdentifiers == old(availablePackageIdentifiers)
    {
      sentPackages := sentPackages[msg.packageIdentifier := msg];
    }

    /**
     * `removeSentPackage`: drops the message's identifier and appends it to
     * the reusable identifiers, whether or not it was filed.
     */
    method RemoveSentPackage(msg: Message)
      modifies this
      ensures sentPackages == old(sentPackages) - {msg.packageIdentifier}
      ensures receivedPackages == old(receivedPackages)
      ensures availablePackageIdentifiers == old(availablePackageIdentifiers) + [msg.packageIdentifier]
    {
      sentPackages := sentPackages - {msg.packageIdentifier};
      availablePackageIdentifiers := availablePackageIdentifiers + [msg.packageIdentifier];
    }

    /** `addReceivedPackage`: files the message under its identifier. */
    method AddReceivedPackage(msg: Message)
      modifies this
      ensures receivedPackages == old(receivedPackages)[msg.packageIdentifier := msg]
      ensures sentPackages == old(sentPackages)
      ensures availablePackageIdentifiers == old(availablePackageIdentifiers)
    {
      receivedPackages := receivedPackages[msg.packageIdentifier := msg];
    }

    /** `removeReceivedPackage`: drops the message's identifier; nothing is freed for reuse. */
    method RemoveReceivedPackage(msg: Message)
      modifies this
      ensures receivedPackages == old(receivedPackages) - {msg.packageIdentifier}
      ensures sentPackages == old(sentPackages)
      ensures availablePackageIdentifiers == old(availablePackageIdentifiers)
    {
      receivedPackages := receivedPackages - {msg.packageIdentifier};
    }

    /**
     * `getIdentifier()`: the oldest reusable identifier when there is one,
     * removed from the list; otherwise the least positive identifier not
     * in use among the sent messages. `keys` is the map's listing of its
     * identifiers, in whatever order the map gives them.
     */
    method GetIdentifier(keys: seq<int>) returns (identifier: int)
      requires forall k :: k in keys <==> k in sentPackages
      modifies this
      ensures |old(availablePackageIdentifiers)| > 0 ==>
                identifier == old(availablePackageIdentifiers)[0]
                && availablePackageIdentifiers == old(availablePackageIdentifiers)[1..]
      ensures |old(availablePackageIdentifiers)| == 0 ==>
                availablePackageIdentifiers == []
                && identifier >= 1 && identifier !in sentPackages
                && forall v :: 1 <= v < identifier ==> v in sentPackages
      ensures sentPackages == old(sentPackages) && receivedPackages == old(receivedPackages)
    {
      identifier := 1;
      if |availablePackageIdentifiers| > 0 {
        identifier := availablePackageIdentifiers[0];
        availablePackageIdentifiers := availablePackageIdentifiers[1..];
      } else if |sentPackages| > 0 {
        identifier := NextFreeIdentifier(keys);
        LeastFreeIdentifier(keys);
      } else {
        identifier := 1;
      }
    }
  }
}
