/** The remembered keys as a finite map from address and port to fingerprint. */
module KnownMap {
  import opened Bytes
  import opened Text
  import opened KnownHosts

  predicate Unique(ks: seq<Known>) {
    forall i, j :: 0 <= i < j < |ks| ==> !(ks[i].address == ks[j].address && ks[i].port == ks[j].port)
  }

  /** First entry wins, as it does for `find`. */
  function ToMap(ks: seq<Known>): map<(bytes, int), bytes> {
    if ks == [] then map[] else ToMap(ks[1..])[(ks[0].address, ks[0].port) := ks[0].fingerprint]
  }

  lemma {:induction false} FindDefinesMap(ks: seq<Known>, address: bytes, port: int)
    ensures (address, port) in ToMap(ks) <==> Find(ks, address, port) < |ks|
    ensures Lookup(ks, address, port)
      == if (address, port) in ToMap(ks) then Some(ToMap(ks)[(address, port)]) else None
  {
    if ks != [] {
      FindDefinesMap(ks[1..], address, port);
    }
  }

  lemma {:induction false} UpdateMap(ks: seq<Known>, at: nat, k: Known)
    requires at < |ks| && ks[at].address == k.address && ks[at].port == k.port
    requires forall i :: 0 <= i < at ==> !(ks[i].address == k.address && ks[i].port == k.port)
    ensures ToMap(ks[at := k]) == ToMap(ks)[(k.address, k.port) := k.fingerprint]
    decreases at
  {
    if at > 0 {
      UpdateMap(ks[1..], at - 1, k);
      assert ks[at := k][1..] == ks[1..][at - 1 := k];
    } else {
      assert ks[at := k][1..] == ks[1..];
    }
  }

  lemma {:induction false} AppendMap(ks: seq<Known>, k: Known)
    requires Find(ks, k.address, k.port) == |ks|
    ensures ToMap(ks + [k]) == ToMap(ks)[(k.address, k.port) := k.fingerprint]
    decreases |ks|
  {
    if ks == [] {
      assert [k][1..] == [] && ToMap([k]) == map[][(k.address, k.port) := k.fingerprint];
    } else {
      assert (ks + [k])[1..] == ks[1..] + [k];
      AppendMap(ks[1..], k);
    }
  }

  lemma HeadOfMap(k: Known, rest: seq<Known>)
    ensures ToMap([k] + rest) == ToMap(rest)[(k.address, k.port) := k.fingerprint]
  {
    assert ([k] + rest)[1..] == rest;
  }

  lemma UpdateAndRemove<K, V>(m: map<K, V>, k: K, v: V, other: K)
    ensures k != other ==> (m - {other})[k := v] == m[k := v] - {other}
    ensures k !in m ==> m[k := v] - {k} == m
  {
  }

  lemma RemoveHead(k: Known, rest: seq<Known>)
    requires Find(rest, k.address, k.port) == |rest|
    ensures ToMap([k] + rest) - {(k.address, k.port)} == ToMap(rest)
  {
    var key := (k.address, k.port);
    FindDefinesMap(rest, k.address, k.port);
    HeadOfMap(k, rest);
    UpdateAndRemove(ToMap(rest), key, k.fingerprint, key);
  }

  predicate SameKey(a: Known, b: Known) {
    a.address == b.address && a.port == b.port
  }

  lemma {:induction false} RemoveBetween(front: seq<Known>, k: Known, back: seq<Known>)
    requires forall i :: 0 <= i < |front| ==> !SameKey(front[i], k)
    requires Find(back, k.address, k.port) == |back|
    ensures ToMap(front + back) == ToMap(front + [k] + back) - {(k.address, k.port)}
    decreases |front|
  {
    if front == [] {
      RemoveHead(k, back);
      assert front + back == back && front + [k] + back == [k] + back;
    } else {
      var head, tail := front[0], front[1..];
      RemoveBetween(tail, k, back);
      var left, whole := tail + back, tail + [k] + back;
      HeadOfMap(head, left);
      HeadOfMap(head, whole);
      UpdateAndRemove(ToMap(whole), (head.address, head.port), head.fingerprint, (k.address, k.port));
      assert front + back == [head] + left && front + [k] + back == [head] + whole;
    }
  }

  lemma RemoveFromMap(ks: seq<Known>, at: nat)
    requires Unique(ks) && at < |ks|
    ensures ToMap(ks[..at] + ks[at + 1..]) == ToMap(ks) - {(ks[at].address, ks[at].port)}
  {
    NoneLikeIt(ks, at);
    RemoveBetween(ks[..at], ks[at], ks[at + 1..]);
    assert ks == ks[..at] + [ks[at]] + ks[at + 1..];
  }

  lemma NoneLikeIt(ks: seq<Known>, at: nat)
    requires Unique(ks) && at < |ks|
    ensures forall i :: 0 <= i < at ==> !SameKey(ks[..at][i], ks[at])
    ensures Find(ks[at + 1..], ks[at].address, ks[at].port) == |ks[at + 1..]|
  {
    var back := ks[at + 1..];
    assert forall j :: 0 <= j < |back| ==> back[j] == ks[at + 1 + j];
  }

  /** Within the field sizes, remembering is updating the map, and keeps keys unique. */
  lemma RememberUpdates(ks: seq<Known>, address: bytes, port: int, fingerprint: bytes)
    requires Unique(ks) && |address| < ADDRESS_LEN && |fingerprint| < FINGERPRINT_LEN
    requires Remember(ks, address, port, fingerprint).Some?
    ensures var ks' := Remember(ks, address, port, fingerprint).value;
      Unique(ks') && ToMap(ks') == ToMap(ks)[(address, port) := fingerprint]
  {
    var at, k := Find(ks, address, port), Known(address, port, fingerprint);
    assert CopyField(address, ADDRESS_LEN) == address && CopyField(fingerprint, FINGERPRINT_LEN) == fingerprint;
    if at < |ks| {
      UpdateMap(ks, at, k);
    } else {
      AppendMap(ks, k);
    }
  }

  /** When remembering is refused: an empty or unstorable part, or a full list and a new key. */
  lemma RememberRefusals(ks: seq<Known>, address: bytes, port: int, fingerprint: bytes)
    ensures Remember(ks, address, port, fingerprint).None? <==>
      || address == [] || fingerprint == [] || !Storable(address) || !Storable(fingerprint)
      || ((address, port) !in ToMap(ks) && |ks| >= KNOWN_MAX)
  {
    FindDefinesMap(ks, address, port);
  }

  /** Remembering is found again exactly when both parts fit their fields. */
  lemma RememberedIsFound(ks: seq<Known>, address: bytes, port: int, fingerprint: bytes)
    requires AllKept(ks) && Remember(ks, address, port, fingerprint).Some?
    ensures Lookup(Remember(ks, address, port, fingerprint).value, address, port) == Some(fingerprint)
      <==> |address| < ADDRESS_LEN && |fingerprint| < FINGERPRINT_LEN
  {
    var at := Find(ks, address, port);
    var ks' := Remember(ks, address, port, fingerprint).value;
    var at' := Find(ks', address, port);
    if |address| < ADDRESS_LEN {
      assert CopyField(address, ADDRESS_LEN) == address;
      assert at < |ks'| && (at < |ks| ==> ks' == ks[at := ks'[at]]) && (at == |ks| ==> ks' == ks + [ks'[at]]);
      assert |fingerprint| < FINGERPRINT_LEN ==> CopyField(fingerprint, FINGERPRINT_LEN) == fingerprint;
      assert forall i :: 0 <= i < at ==> ks'[i] == ks[i];
      assert at' == at && ks'[at].fingerprint == CopyField(fingerprint, FINGERPRINT_LEN);
    } else {
      assert forall i :: 0 <= i < |ks| ==> ks[i] in ks && ks[i].Kept();
      assert forall i :: 0 <= i < |ks'| ==> |ks'[i].address| < ADDRESS_LEN;
    }
  }

  lemma RemoveKeepsUnique(ks: seq<Known>, at: nat)
    requires Unique(ks) && at < |ks|
    ensures Unique(ks[..at] + ks[at + 1..])
  {
  }

  /** Forgetting is removing from the map, and keeps keys unique. */
  lemma ForgetRemoves(ks: seq<Known>, address: bytes, port: int)
    requires Unique(ks)
    ensures Unique(Forget(ks, address, port))
    ensures ToMap(Forget(ks, address, port)) == ToMap(ks) - {(address, port)}
  {
    var at := Find(ks, address, port);
    FindDefinesMap(ks, address, port);
    if at < |ks| {
      RemoveFromMap(ks, at);
      RemoveKeepsUnique(ks, at);
    } else {
      assert ToMap(ks) - {(address, port)} == ToMap(ks);
    }
  }

  predicate OnlyOnce(ks: seq<Known>, address: bytes, port: int) {
    forall i, j :: 0 <= i < j < |ks| ==>
      !(ks[i].address == address == ks[j].address && ks[i].port == port == ks[j].port)
  }

  /** Forgotten means unknown exactly when the key was there at most once: a second record,
    * which only a file edited elsewhere can hold, comes back to light. */
  lemma ForgottenIsUnknown(ks: seq<Known>, address: bytes, port: int)
    ensures Lookup(Forget(ks, address, port), address, port).None? <==> OnlyOnce(ks, address, port)
  {
    var at, ks' := Find(ks, address, port), Forget(ks, address, port);
    var at' := Find(ks', address, port);
    if at < |ks| {
      if at' < |ks'| {
        assert at' >= at && ks'[at'] == ks[at' + 1];
      } else {
        assert forall j :: at < j < |ks| ==> ks[j] == ks'[j - 1];
      }
    }
  }

  lemma {:induction false} LastingIsUnique(ks: seq<Known>)
    requires Unique(ks)
    ensures Unique(LastingOnly(ks)) && forall k :: k in LastingOnly(ks) ==> k in ks
  {
    if ks != [] {
      LastingIsUnique(ks[1..]);
      assert forall k :: k in ks[1..] ==> !(k.address == ks[0].address && k.port == ks[0].port);
    }
  }

  /** A save and a reload is the map with the keys that do not last taken out. */
  lemma ReloadRestricts(ks: seq<Known>)
    requires AllKept(ks) && Unique(ks)
    ensures Unique(Parse(Print(ks)))
    ensures ToMap(Parse(Print(ks))) == map key | key in ToMap(ks) && Lasting(key.0, key.1) :: ToMap(ks)[key]
  {
    ListRoundTrip(ks);
    LastingIsUnique(ks);
    var after, goal := ToMap(LastingOnly(ks)), map key | key in ToMap(ks) && Lasting(key.0, key.1) :: ToMap(ks)[key];
    forall address, port
      ensures (address, port) in after <==> (address, port) in goal
      ensures (address, port) in goal ==> after[(address, port)] == goal[(address, port)]
    {
      FindDefinesMap(ks, address, port);
      FindDefinesMap(LastingOnly(ks), address, port);
      ReloadKeepsAnswers(ks, address, port);
    }
    forall key
      ensures key in after <==> key in goal
      ensures key in goal ==> after[key] == goal[key]
    {
      assert key == (key.0, key.1);
    }
  }
}
