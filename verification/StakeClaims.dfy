/** The claim hashes in the two stores: what is added, what is shown, and what is conserved. */
module StakeClaims {
  import opened Common
  import opened StakeHashes

  // ----- Adding -----

  /**
   An add changes one entry of the temporary store, and of it only the hash or only the claim hash; a new entry
   gets the given amount and duration and nothing else.
   */
  lemma AddedEntry(s: Stores, hash: Hash, amount: nat, duration: nat, end: Option<nat>, isClaim: bool)
    ensures var key := Key(duration, amount, if end == Some(0) then None else end);
            var s' := Added(s, hash, amount, duration, end, isClaim);
            && s'.resilient == s.resilient && s'.temporary.Keys == s.temporary.Keys + {key}
            && (forall k :: k in s.temporary && k != key ==> s'.temporary[k] == s.temporary[k])
            && var before := if key in s.temporary then s.temporary[key] else Entry(amount, duration, None, None);
               var e := s'.temporary[key];
               && e.amount == before.amount && e.duration == before.duration
               && e.hash == (if isClaim then before.hash else Some(hash))
               && e.claimHash == (if isClaim then Some(hash) else before.claimHash)
  {
  }

  /** One stake moves its waiting entry as it is, or a claim, and touches no other entry. */
  lemma OtherEntriesStay(s: Stores, stake: Stake)
    ensures var key, waiting, s' := StakeKey(stake), WaitingKey(stake), DecorateOne(s, stake);
            && (forall k :: k != key && k != waiting ==>
                  && (k in s'.temporary <==> k in s.temporary) && (k in s'.resilient <==> k in s.resilient)
                  && (k in s.temporary ==> s'.temporary[k] == s.temporary[k])
                  && (k in s.resilient ==> s'.resilient[k] == s.resilient[k]))
            && (key !in s.resilient && waiting in s.temporary ==>
                  key in s'.resilient && s'.resilient[key] == s.temporary[waiting] && waiting !in s'.temporary)
            && (key in s.resilient && waiting in s.temporary ==>
                  waiting in s'.temporary && s'.temporary[waiting] == s.temporary[waiting])
  {
  }

  // ----- Showing -----

  lemma {:induction false} DecorateKeepsClaim(s: Stores, stakes: seq<Stake>, key: Key)
    requires key in s.resilient && key.end.Some?
    ensures var s' := DecorateAll(s, stakes);
            && key in s'.resilient
            && (if (exists k :: k in stakes && StakeKey(k) == key) && key in s.temporary
                then key !in s'.temporary && s'.resilient[key].claimHash == s.temporary[key].claimHash
                else (s'.resilient[key].claimHash == s.resilient[key].claimHash
                      && (key in s'.temporary <==> key in s.temporary)))
    decreases |stakes|
  {
    if stakes != [] {
      var s1, rest := DecorateOne(s, stakes[0]), stakes[1..];
      assert stakes[0] in stakes && forall k :: k in rest ==> k in stakes;
      assert forall k :: k in stakes && k != stakes[0] ==> k in rest;
      DecorateKeepsClaim(s1, rest, key);
      if StakeKey(stakes[0]) != key {
        assert key in s1.temporary <==> key in s.temporary;
        assert key in s.temporary ==> s1.temporary[key] == s.temporary[key];
        assert s1.resilient[key] == s.resilient[key];
      }
    }
  }

  /** A claim that waits for a known stake is remembered after the decoration, waits no longer, and is shown. */
  lemma ClaimIsTaken(s: Stores, stakes: seq<Stake>, i: nat)
    requires i < |stakes| && StakeKey(stakes[i]) in s.resilient && StakeKey(stakes[i]) in s.temporary
    ensures var key, s' := StakeKey(stakes[i]), DecorateAll(s, stakes);
            && key in s'.resilient && s'.resilient[key].claimHash == s.temporary[key].claimHash && key !in s'.temporary
            && |ShownAll(s, stakes)| == |stakes| && ShownAll(s, stakes)[i].claimHash == s.temporary[key].claimHash
  {
    assert stakes[i] in stakes;
    DecorateKeepsClaim(s, stakes, StakeKey(stakes[i]));
    ShownClaim(s, stakes, i);
  }

  /** What a known stake is shown with: the claim that waits for it, or else the one remembered. */
  lemma {:induction false} ShownClaim(s: Stores, stakes: seq<Stake>, i: nat)
    requires i < |stakes| && StakeKey(stakes[i]) in s.resilient
    ensures |ShownAll(s, stakes)| == |stakes|
    ensures var key := StakeKey(stakes[i]);
            ShownAll(s, stakes)[i].claimHash ==
            if key in s.temporary then s.temporary[key].claimHash else s.resilient[key].claimHash
    decreases |stakes|
  {
    ShownLength(s, stakes);
    if i > 0 {
      ShownClaim(DecorateOne(s, stakes[0]), stakes[1..], i - 1);
    }
  }

  /** A stake that is not known yet is shown without a claim at its first place. */
  lemma {:induction false} NoClaimYet(s: Stores, stakes: seq<Stake>, i: nat)
    requires i < |stakes| && StakeKey(stakes[i]) !in s.resilient && forall j :: 0 <= j < i ==> stakes[j] != stakes[i]
    ensures |ShownAll(s, stakes)| == |stakes| && ShownAll(s, stakes)[i].claimHash == None
    decreases |stakes|
  {
    ShownLength(s, stakes);
    if i > 0 {
      var rest := stakes[1..];
      assert stakes[0] != stakes[i] && StakeKey(stakes[0]) != StakeKey(stakes[i]);
      assert forall j :: 0 <= j < i - 1 ==> rest[j] == stakes[j + 1];
      NoClaimYet(DecorateOne(s, stakes[0]), rest, i - 1);
    }
  }

  /** No add is for this key. */
  predicate Leaves(op: Op, key: Key) {
    op.Add? ==> Key(op.duration, op.amount, if op.end == Some(0) then None else op.end) != key
  }

  lemma {:induction false} ClaimRemembered(s: Stores, ops: seq<Op>, key: Key)
    requires key in s.resilient && key !in s.temporary && key.end.Some?
    requires forall op :: op in ops ==> Leaves(op, key)
    ensures var s' := Run(s, ops);
            key in s'.resilient && key !in s'.temporary && s'.resilient[key].claimHash == s.resilient[key].claimHash
    decreases |ops|
  {
    if ops != [] {
      assert Leaves(ops[0], key);
      if ops[0].Decorate? {
        DecorateKeepsClaim(s, ops[0].stakes, key);
      }
      ClaimRemembered(Apply(s, ops[0]), ops[1..], key);
    }
  }

  /**
   A claim that was once shown for a stake is shown for it in every later decoration, whatever is added or
   decorated in between, until something is added under the stake's own key.
   */
  lemma ShownClaimStays(s: Stores, before: seq<Stake>, i: nat, ops: seq<Op>, after: seq<Stake>, j: nat)
    requires i < |before| && j < |after| && before[i] == after[j]
    requires |ShownAll(s, before)| == |before| && ShownAll(s, before)[i].claimHash.Some?
    requires forall op :: op in ops ==> Leaves(op, StakeKey(before[i]))
    ensures var later := Run(DecorateAll(s, before), ops);
            && |ShownAll(later, after)| == |after|
            && ShownAll(later, after)[j].claimHash == ShownAll(s, before)[i].claimHash
  {
    var key, decorated := StakeKey(before[i]), DecorateAll(s, before);
    ShownClaimKept(s, before, i);
    ClaimRemembered(decorated, ops, key);
    ShownClaim(Run(decorated, ops), after, j);
  }

  /** A claim that is shown is remembered after the decoration, and none waits for the stake. */
  lemma {:induction false} ShownClaimKept(s: Stores, stakes: seq<Stake>, i: nat)
    requires i < |stakes| && |ShownAll(s, stakes)| == |stakes| && ShownAll(s, stakes)[i].claimHash.Some?
    ensures var key, s' := StakeKey(stakes[i]), DecorateAll(s, stakes);
            && key in s'.resilient && key !in s'.temporary
            && s'.resilient[key].claimHash == ShownAll(s, stakes)[i].claimHash
    decreases |stakes|
  {
    var key, s1, rest := StakeKey(stakes[i]), DecorateOne(s, stakes[0]), stakes[1..];
    ShownLength(s1, rest);
    if i > 0 {
      ShownClaimKept(s1, rest, i - 1);
    } else {
      assert key in s1.resilient && key !in s1.temporary;
      DecorateKeepsClaim(s1, rest, key);
    }
  }

  // ----- Conservation -----

  /** Where a store holds a claim hash. */
  function ClaimHolding(m: Store, h: Hash): set<Key> {
    set k | k in m && m[k].claimHash == Some(h)
  }

  /** How often a claim hash is held, in both stores together. */
  function ClaimCopies(s: Stores, h: Hash): nat {
    |ClaimHolding(s.temporary, h)| + |ClaimHolding(s.resilient, h)|
  }

  /** Whether decorating this stake discards a claim hash: one is remembered, and an entry waits that replaces it. */
  predicate DiscardsClaim(s: Stores, stake: Stake) {
    StakeKey(stake) in s.resilient && StakeKey(stake) in s.temporary && s.resilient[StakeKey(stake)].claimHash.Some?
  }

  lemma ClaimAfterRemove(m: Store, k: Key, h: Hash)
    requires k in m
    ensures |ClaimHolding(Remove(m, k), h)| == |ClaimHolding(m, h)| - if m[k].claimHash == Some(h) then 1 else 0
  {
    assert ClaimHolding(Remove(m, k), h) == ClaimHolding(m, h) - {k};
    if m[k].claimHash == Some(h) {
      assert k in ClaimHolding(m, h);
    } else {
      assert ClaimHolding(m, h) - {k} == ClaimHolding(m, h);
    }
  }

  lemma ClaimAfterSet(m: Store, k: Key, e: Entry, h: Hash)
    ensures |ClaimHolding(m[k := e], h)| ==
            |ClaimHolding(m, h)| - (if k in m && m[k].claimHash == Some(h) then 1 else 0)
            + if e.claimHash == Some(h) then 1 else 0
  {
    var rest := ClaimHolding(m, h) - {k};
    assert ClaimHolding(m[k := e], h) == if e.claimHash == Some(h) then rest + {k} else rest;
    assert k in m && m[k].claimHash == Some(h) <==> k in ClaimHolding(m, h);
    assert k !in ClaimHolding(m, h) ==> rest == ClaimHolding(m, h);
  }

  lemma DecorateOneClaims(s: Stores, stake: Stake, h: Hash)
    ensures ClaimCopies(DecorateOne(s, stake), h) ==
            ClaimCopies(s, h)
            - if DiscardsClaim(s, stake) && s.resilient[StakeKey(stake)].claimHash == Some(h) then 1 else 0
  {
    var key, waiting := StakeKey(stake), WaitingKey(stake);
    if key in s.resilient {
      if key in s.temporary {
        ClaimAfterRemove(s.temporary, key, h);
        ClaimAfterSet(s.resilient, key, s.resilient[key].(claimHash := s.temporary[key].claimHash), h);
      }
    } else if waiting in s.temporary {
      ClaimAfterRemove(s.temporary, waiting, h);
      ClaimAfterSet(s.resilient, key, s.temporary[waiting], h);
    }
  }

  predicate NeverDiscardsClaim(s: Stores, stakes: seq<Stake>)
    decreases |stakes|
  {
    stakes == [] || (!DiscardsClaim(s, stakes[0]) && NeverDiscardsClaim(DecorateOne(s, stakes[0]), stakes[1..]))
  }

  lemma {:induction false} ClaimsNeverGrow(s: Stores, stakes: seq<Stake>, h: Hash)
    ensures ClaimCopies(DecorateAll(s, stakes), h) <= ClaimCopies(s, h)
    decreases |stakes|
  {
    if stakes != [] {
      DecorateOneClaims(s, stakes[0], h);
      ClaimsNeverGrow(DecorateOne(s, stakes[0]), stakes[1..], h);
    }
  }

  lemma {:induction false} ConservedUnlessReplaced(s: Stores, stakes: seq<Stake>)
    ensures (forall h :: ClaimCopies(DecorateAll(s, stakes), h) == ClaimCopies(s, h)) <==> NeverDiscardsClaim(s, stakes)
    decreases |stakes|
  {
    if stakes != [] {
      var s1 := DecorateOne(s, stakes[0]);
      ConservedUnlessReplaced(s1, stakes[1..]);
      if DiscardsClaim(s, stakes[0]) {
        var h := s.resilient[StakeKey(stakes[0])].claimHash.value;
        DecorateOneClaims(s, stakes[0], h);
        ClaimsNeverGrow(s1, stakes[1..], h);
        assert ClaimCopies(DecorateAll(s, stakes), h) != ClaimCopies(s, h);
      } else {
        forall h
          ensures ClaimCopies(s1, h) == ClaimCopies(s, h)
        {
          DecorateOneClaims(s, stakes[0], h);
        }
        assert DecorateAll(s, stakes) == DecorateAll(s1, stakes[1..]);
        if NeverDiscardsClaim(s1, stakes[1..]) {
          assert forall h :: ClaimCopies(DecorateAll(s, stakes), h) == ClaimCopies(s, h);
        } else {
          var h :| ClaimCopies(DecorateAll(s1, stakes[1..]), h) != ClaimCopies(s1, h);
          assert ClaimCopies(DecorateAll(s, stakes), h) != ClaimCopies(s, h);
        }
      }
    }
  }

  /**
   The stake at this place makes the decoration lose a claim hash: an entry waits under its key, and the stake is
   known with a claim, or the same stake takes a waiting entry with a claim earlier in the list.
   */
  predicate LosesClaimAt(s: Stores, stakes: seq<Stake>, j: nat) {
    && j < |stakes| && StakeKey(stakes[j]) in s.temporary
    && if StakeKey(stakes[j]) in s.resilient then s.resilient[StakeKey(stakes[j])].claimHash.Some?
       else exists i :: 0 <= i < j && stakes[i] == stakes[j] && Takes(s, stakes, i)
                        && s.temporary[WaitingKey(stakes[i])].claimHash.Some?
  }

  lemma LosesClaimNextSame(s: Stores, stakes: seq<Stake>, j: nat)
    requires 0 < j < |stakes| && !DiscardsClaim(s, stakes[0]) && stakes[j] == stakes[0]
    ensures LosesClaimAt(s, stakes, j) <==> LosesClaimAt(DecorateOne(s, stakes[0]), stakes[1..], j - 1)
  {
    var s1, rest := DecorateOne(s, stakes[0]), stakes[1..];
    assert rest[j - 1] == stakes[j];
    assert LosesClaimAt(s, stakes, j) ==> Takes(s, stakes, 0) && s.temporary[WaitingKey(stakes[0])].claimHash.Some?;
    if Takes(s, stakes, 0) {
      assert StakeKey(stakes[0]) in s1.resilient;
      assert s1.temporary == Remove(s.temporary, WaitingKey(stakes[0]));
    } else {
      assert forall i :: 0 <= i < j - 1 && rest[i] == stakes[j] ==> !Takes(s1, rest, i);
    }
  }

  lemma LosesClaimNextOther(s: Stores, stakes: seq<Stake>, j: nat)
    requires 0 < j < |stakes| && stakes[j] != stakes[0]
    ensures LosesClaimAt(s, stakes, j) <==> LosesClaimAt(DecorateOne(s, stakes[0]), stakes[1..], j - 1)
  {
    var s1, rest := DecorateOne(s, stakes[0]), stakes[1..];
    assert StakeKey(stakes[j]) != StakeKey(stakes[0]) && rest[j - 1] == stakes[j];
    forall i | 0 < i < j && stakes[i] == stakes[j]
      ensures rest[i - 1] == stakes[j] && (Takes(s, stakes, i) <==> Takes(s1, rest, i - 1))
      ensures Takes(s, stakes, i) ==> s1.temporary[WaitingKey(stakes[i])] == s.temporary[WaitingKey(stakes[i])]
    {
      TakesNext(s, stakes, i);
    }
    if i :| 0 <= i < j - 1 && rest[i] == rest[j - 1] && Takes(s1, rest, i) {
      assert stakes[i + 1] == rest[i];
      assert Takes(s, stakes, i + 1);
    }
  }

  lemma {:induction false} NeverLosesClaim(s: Stores, stakes: seq<Stake>)
    ensures NeverDiscardsClaim(s, stakes) <==> forall j :: 0 <= j < |stakes| ==> !LosesClaimAt(s, stakes, j)
    decreases |stakes|
  {
    if stakes != [] {
      var s1, rest := DecorateOne(s, stakes[0]), stakes[1..];
      assert LosesClaimAt(s, stakes, 0) <==> DiscardsClaim(s, stakes[0]);
      if !DiscardsClaim(s, stakes[0]) {
        NeverLosesClaim(s1, rest);
        forall j | 0 < j < |stakes|
          ensures LosesClaimAt(s, stakes, j) <==> LosesClaimAt(s1, rest, j - 1)
        {
          if stakes[j] == stakes[0] {
            LosesClaimNextSame(s, stakes, j);
          } else {
            LosesClaimNextOther(s, stakes, j);
          }
        }
        assert forall j :: 0 <= j < |rest| ==> LosesClaimAt(s1, rest, j) == LosesClaimAt(s, stakes, j + 1);
      }
    }
  }

  /**
   A decoration neither loses nor duplicates a claim hash exactly when it replaces none, which is told from the
   stores and the list before the decoration.
   */
  lemma ClaimsConserved(s: Stores, stakes: seq<Stake>)
    ensures (forall h :: ClaimCopies(DecorateAll(s, stakes), h) == ClaimCopies(s, h)) <==>
            forall j :: 0 <= j < |stakes| ==> !LosesClaimAt(s, stakes, j)
  {
    ConservedUnlessReplaced(s, stakes);
    NeverLosesClaim(s, stakes);
  }
}
