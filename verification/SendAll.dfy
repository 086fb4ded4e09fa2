/** `send_all` of `src/psp/main.c` over a channel that takes what it likes, when it likes. */
module SendAll {
  import opened Bytes

  const MAX_SPINS := 2000

  class Channel {
    /** What the far side has been given so far. */
    var accepted: bytes
    /** What every write returned. */
    ghost var results: seq<int>

    constructor ()
      ensures accepted == [] && results == []
    {
      accepted, results := [], [];
    }

    /** `pspssh_write`: some of the bytes, none for now, or an error. */
    method Write(chunk: bytes) returns (n: int)
      requires chunk != []
      modifies this
      ensures n <= |chunk|
      ensures accepted == old(accepted) + chunk[..Max(n, 0)]
      ensures results == old(results) + [n]
    {
      n := *;
      if n > |chunk| {
        n := |chunk|;
      }
      accepted := accepted + chunk[..Max(n, 0)];
      results := results + [n];
    }
  }

  /** The last `k` writes all took nothing. */
  predicate Stalled(results: seq<int>, k: nat) {
    k <= |results| && forall i :: |results| - k <= i < |results| ==> results[i] == 0
  }

  /** Sum of what the writes took. */
  function Taken(results: seq<int>): nat {
    if results == [] then 0 else Taken(results[..|results| - 1]) + Max(results[|results| - 1], 0)
  }

  /** After these writes there is more to send and the channel is not given up. */
  predicate GoesOn(mine: seq<int>, text: bytes) {
    Taken(mine) < |text| && !Stalled(mine, 2000)
  }

  /** The writes of one call so far: `sent` bytes of the text taken in order, none of the
    * writes failed, and the last `spins` took nothing. */
  ghost predicate Progress(mine: seq<int>, text: bytes, given: bytes, sent: int, spins: int) {
    && 0 <= sent <= |text| && 0 <= spins <= MAX_SPINS
    && sent == Taken(mine) && Stalled(mine, spins)
    && given == text[..sent]
    && (forall i :: 0 <= i < |mine| ==> mine[i] >= 0)
    && (forall k :: 0 <= k < |mine| ==> GoesOn(mine[..k], text))
    && (spins < |mine| ==> mine[|mine| - spins - 1] != 0)
  }

  /** The bytes given in the writes of one call, and what the call then returns: a prefix of
    * the text, all of it exactly when the result is 0; giving up takes an error or 2000
    * empty writes in a row, and no write comes after there was reason to stop. */
  ghost predicate Outcome(mine: seq<int>, text: bytes, given: bytes, result: int) {
    && Taken(mine) <= |text|
    && given == text[..Taken(mine)]
    && (result == 0 || result == -1)
    && (result == 0 <==> Taken(mine) == |text|)
    && (result == -1 ==> (mine != [] && mine[|mine| - 1] < 0) || Stalled(mine, 2000))
    && (forall i :: 0 <= i < |mine| - 1 ==> mine[i] >= 0)
    && (forall k :: 0 <= k < |mine| ==> GoesOn(mine[..k], text))
  }

  lemma TakenMore(mine: seq<int>, n: int)
    ensures Taken(mine + [n]) == Taken(mine) + Max(n, 0)
  {
    assert (mine + [n])[..|mine|] == mine;
  }

  lemma StillGoing(mine: seq<int>, text: bytes, given: bytes, sent: int, spins: int, n: int)
    requires Progress(mine, text, given, sent, spins) && sent < |text| && spins < MAX_SPINS
    ensures forall k :: 0 <= k < |mine + [n]| ==> GoesOn((mine + [n])[..k], text)
  {
    assert !Stalled(mine, 2000) by {
      assert spins < |mine| ==> mine[|mine| - spins - 1] != 0;
    }
    forall k | 0 <= k <= |mine|
      ensures GoesOn((mine + [n])[..k], text)
    {
      assert (mine + [n])[..k] == mine[..k];
      assert mine[..|mine|] == mine;
    }
  }

  lemma WriteProgress(mine: seq<int>, text: bytes, given: bytes, sent: int, spins: int, n: int)
    requires Progress(mine, text, given, sent, spins) && 0 <= n <= |text| - sent
    requires sent < |text| && spins < MAX_SPINS
    ensures Progress(mine + [n], text, given + text[sent..][..n], sent + n, if n == 0 then spins + 1 else 0)
  {
    TakenMore(mine, n);
    StillGoing(mine, text, given, sent, spins, n);
    assert text[..sent] + text[sent..][..n] == text[..sent + n];
  }

  lemma WriteFails(mine: seq<int>, text: bytes, given: bytes, sent: int, spins: int, n: int)
    requires Progress(mine, text, given, sent, spins) && n < 0 && sent < |text| && spins < MAX_SPINS
    ensures Outcome(mine + [n], text, given, -1)
  {
    TakenMore(mine, n);
    StillGoing(mine, text, given, sent, spins, n);
  }

  /** The channel after a call is what it was before and then the call's own writes. */
  twostate predicate Wrote(channel: Channel, mine: seq<int>, given: bytes)
    reads channel
  {
    channel.results == old(channel.results) + mine && channel.accepted == old(channel.accepted) + given
  }

  method SendAll(channel: Channel, text: bytes) returns (result: int, ghost mine: seq<int>, ghost given: bytes)
    modifies channel
    ensures Wrote(channel, mine, given) && Outcome(mine, text, given, result)
  {
    var sent, spins, failed := 0, 0, false;
    mine, given := [], [];
    while sent < |text| && spins < MAX_SPINS && !failed
      invariant Wrote(channel, mine, given)
      invariant failed ==> sent < |text| && Outcome(mine, text, given, -1)
      invariant !failed ==> Progress(mine, text, given, sent, spins)
      decreases !failed, |text| - sent, MAX_SPINS - spins
    {
      var n := channel.Write(text[sent..]);
      if n < 0 {
        WriteFails(mine, text, given, sent, spins, n);
        failed := true;
      } else {
        WriteProgress(mine, text, given, sent, spins, n);
        given := given + text[sent..][..n];
        spins := if n == 0 then spins + 1 else 0;
        sent := sent + n;
      }
      mine := mine + [n];
    }
    result := if sent == |text| then 0 else -1;
  }
}
