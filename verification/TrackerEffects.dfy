/** What the steps of the tracker do to each entry, in every state that a run can reach. */
module TrackerEffects {
  import opened Common
  import opened TrackerModel
  import opened TrackerSafety

  /** The hashes still waited for in a list. */
  function PendingHashes(l: seq<Tx>): set<Hash> {
    set t | t in l && !t.mined :: t.hash
  }

  /**
   A receipt of the selected account puts exactly one mined entry with its hash, block and outcome
   in the list, touches no other entry, and saves the list; under another account it changes nothing
   that is shown or stored.
   */
  lemma ReceiptConfirms(w: World, b: nat, i: nat, from: Account, block: nat, failed: bool)
    requires Inv(w) && Possible(w, ReceiptArrived(b, i, from, block, failed))
    ensures var tx := w.s.batches[b].waiting[i];
            var s' := Receipt(w.s, b, i, from, block, failed);
            if w.s.account == Some(from) then
              && (forall t :: t in s'.txs && t.hash == tx.hash ==>
                    t == Tx(tx.hash, tx.from, tx.nonce, tx.details, true, failed, false, Some(block)))
              && (exists t :: t in s'.txs && t.hash == tx.hash)
              && (forall t: Tx :: t.hash != tx.hash ==> (t in s'.txs <==> t in w.s.txs))
              && PendingHashes(s'.txs) == PendingHashes(w.s.txs) - {tx.hash}
              && Stored(s', from) == s'.txs
            else s'.txs == w.s.txs && s'.storage == w.s.storage
  {
    var tx := w.s.batches[b].waiting[i];
    ConfirmOne(w.s.txs, tx.(mined := true, block := Some(block), observed := false, isError := failed));
  }

  lemma ConfirmOne(l: seq<Tx>, newTx: Tx)
    requires newTx.mined
    ensures var r := Upsert(l, [newTx]);
            && newTx in r && (forall t :: t in r && t.hash == newTx.hash ==> t == newTx)
            && (forall t: Tx :: t.hash != newTx.hash ==> (t in r <==> t in l))
            && PendingHashes(r) == PendingHashes(l) - {newTx.hash}
  {
    var r := Upsert(l, [newTx]);
    assert [newTx][0] == newTx;
    assert Hashes([newTx]) == {newTx.hash};
    forall h
      ensures h in PendingHashes(r) <==> h in PendingHashes(l) && h != newTx.hash
    {
    }
  }

  lemma {:induction false} KeepNone(p: Tx -> bool, l: seq<Tx>)
    requires forall t :: t in l ==> !p(t)
    ensures Keep(p, l) == []
  {
    if l != [] {
      assert l[0] in l;
      KeepNone(p, l[1..]);
    }
  }

  lemma {:induction false} KeepAtMostOne(p: Tx -> bool, l: seq<Tx>)
    requires DistinctHashes(l) && forall x, y :: x in l && y in l && p(x) && p(y) ==> x.hash == y.hash
    ensures |Keep(p, l)| <= 1
  {
    if l != [] {
      var rest := l[1..];
      assert l[0] in l && forall t :: t in rest ==> t in l;
      if p(l[0]) {
        forall t | t in rest
          ensures t.hash != l[0].hash
        {
          var j :| 0 <= j < |rest| && rest[j] == t;
          assert l[j + 1] == t;
        }
        KeepNone(p, rest);
      } else {
        KeepAtMostOne(p, rest);
      }
    }
  }

  /** At most one entry is pending with a given nonce, so the last match is the only one. */
  lemma OneMatch(w: World, nonce: nat)
    requires Inv(w) && w.s.account.Some?
    ensures |Replaced(w.s.txs, nonce)| <= 1
  {
    ShownOk(w);
    assert forall x, y :: x in w.s.txs && y in w.s.txs && SameNonce(x, y) ==> x.hash == y.hash;
    KeepAtMostOne((t: Tx) => !t.mined && t.nonce == Some(nonce) && nonce != 0, w.s.txs);
  }

  /**
   An event of the selected account replaces exactly the pending entry with its nonzero nonce by
   the same entry, mined, under the event's hash; it touches no other entry.
   */
  lemma ReplacementSwaps(w: World, hash: Hash, from: Account, nonce: nat, block: nat, tx: Tx)
    requires Inv(w) && w.s.account == Some(from)
    requires tx in w.s.txs && !tx.mined && tx.nonce == Some(nonce) && nonce != 0
    ensures var s' := ChainEvent(w.s, hash, from, nonce, block);
            && (forall t :: t in s'.txs <==>
                  || t == Tx(hash, tx.from, tx.nonce, tx.details, true, false, false, Some(block))
                  || (t in w.s.txs && t != tx))
            && Stored(s', from) == s'.txs
  {
    OneMatch(w, nonce);
    assert tx in Replaced(w.s.txs, nonce);
    OnlyMatch(w.s, hash, from, nonce, block, tx);
    ShownOk(w);
    SwapOne(w.s.txs, tx, Replacement(tx, hash, block));
  }

  lemma OnlyMatch(s: State, hash: Hash, from: Account, nonce: nat, block: nat, tx: Tx)
    requires s.account == Some(from) && tx in Replaced(s.txs, nonce) && |Replaced(s.txs, nonce)| <= 1
    ensures ChainEvent(s, hash, from, nonce, block) ==
            Put(s, Without(s.txs, {tx.hash}) + [Replacement(tx, hash, block)])
  {
    assert Replaced(s.txs, nonce) == [tx];
  }

  lemma SwapOne(l: seq<Tx>, tx: Tx, newTx: Tx)
    requires DistinctHashes(l) && tx in l
    ensures forall t :: t in Without(l, {tx.hash}) + [newTx] <==> t == newTx || (t in l && t != tx)
  {
    forall t | t in l && t.hash == tx.hash
      ensures t == tx
    {
      SameHashSame(l, l, t, tx);
    }
    assert newTx in [newTx];
  }

  /** Without a pending entry of its nonce, or with nonce zero, an event changes nothing. */
  lemma NoReplacement(s: State, hash: Hash, from: Account, nonce: nat, block: nat)
    requires nonce == 0 || forall t :: t in s.txs && !t.mined ==> t.nonce != Some(nonce)
    ensures ChainEvent(s, hash, from, nonce, block) == s
  {
    var matches := Replaced(s.txs, nonce);
    KeepNone((t: Tx) => !t.mined && t.nonce == Some(nonce) && nonce != 0, s.txs);
  }

  /**
   Dismissing removes exactly the requested hashes, from what is shown and what is stored, once nothing
   else is queued.
   */
  lemma DismissRemoves(s: State)
    requires s.account.Some? && s.dirty == []
    ensures var s' := DidUpdate(s, false);
            && (forall t :: t in s'.txs <==> t in s.txs && t.hash !in s.dismissed)
            && s'.dismissed == []
            && (s.dismissed != [] ==> Stored(s', s.account.value) == s'.txs)
  {
    if s.dismissed == [] {
      assert forall t: Tx :: t.hash !in s.dismissed;
    }
  }

  /** Observing waits for every entry that is pending and not observed yet, in one new batch. */
  lemma ObserveWaits(s: State, base: seq<Tx>, txs: seq<Tx>, t: Tx)
    requires t in txs && !t.mined && !t.observed
    ensures var s' := Observe(s, base, txs);
            && |s'.batches| == |s.batches| + 1 && s'.batches[..|s.batches|] == s.batches
            && s'.batches[|s.batches|].owner == s.account.GetOr("")
            && t.(observed := true) in s'.batches[|s.batches|].waiting && t.(observed := true) in s'.txs
  {
    var kept := Keep((t: Tx) => !t.mined && !t.observed, txs);
    assert t in kept;
    var i :| 0 <= i < |kept| && kept[i] == t;
    assert Unobserved(txs)[i] == t.(observed := true);
    assert Unobserved(txs)[i] in Unobserved(txs);
  }

  /** The new batch waits for those entries and no others, and its tail are the error entries. */
  lemma ObserveExactly(s: State, base: seq<Tx>, txs: seq<Tx>)
    ensures var s' := Observe(s, base, txs);
            if exists x :: x in txs && !x.mined && !x.observed then
              && |s'.batches| == |s.batches| + 1 && s'.batches[..|s.batches|] == s.batches
              && var b := s'.batches[|s.batches|];
                 && (forall t :: t in b.waiting <==>
                       exists x :: x in txs && !x.mined && !x.observed && IsObserved(t, x))
                 && (forall t :: t in b.tail <==> t in txs && t.isError)
            else s'.batches == s.batches
  {
    var kept, unobserved := Keep((t: Tx) => !t.mined && !t.observed, txs), Unobserved(txs);
    forall t
      ensures t in unobserved <==> exists x :: x in txs && !x.mined && !x.observed && IsObserved(t, x)
    {
      if t in unobserved {
        var i :| 0 <= i < |kept| && unobserved[i] == t;
        assert kept[i] in kept && IsObserved(t, kept[i]);
      }
      if x :| x in txs && !x.mined && !x.observed && IsObserved(t, x) {
        assert x in kept;
        var i :| 0 <= i < |kept| && kept[i] == x;
        assert unobserved[i] == t;
      }
    }
    assert kept != [] ==> kept[0] in kept;
    if x :| x in txs && !x.mined && !x.observed {
      assert x in kept;
    }
  }

  predicate IsObserved(t: Tx, x: Tx) {
    t == x.(observed := true)
  }

  /**
   Taking over the queue loses nothing: the list keeps its entries, and every queued one is shown or
   waits to be.
   */
  lemma QueueTakenOver(w: World)
    requires Inv(w) && w.s.account.Some? && w.s.dirty != []
    ensures var s' := DidUpdate(w.s, false);
            && s'.dirty == [] && s'.dismissed == w.s.dismissed
            && (forall t :: t in w.s.txs ==> t in s'.txs)
            && (forall d :: d in w.s.dirty && !d.mined ==> d.(observed := true) in s'.txs)
            && (forall d :: d in w.s.dirty && !d.mined ==>
                  exists b :: b in s'.batches && b.owner == w.s.account.value && d.(observed := true) in b.waiting)
            && (forall d :: d in w.s.dirty && d.mined ==>
                  d in s'.txs || exists b :: b in s'.batches && b.owner == w.s.account.value && d in b.tail)
  {
    QueueListKept(w);
    forall d | d in w.s.dirty && !d.mined
      ensures d.(observed := true) in DidUpdate(w.s, false).txs
      ensures exists b :: b in DidUpdate(w.s, false).batches && b.owner == w.s.account.value
                          && d.(observed := true) in b.waiting
    {
      QueuedPending(w, d);
    }
    forall d | d in w.s.dirty && d.mined
      ensures d in DidUpdate(w.s, false).txs
              || exists b :: b in DidUpdate(w.s, false).batches && b.owner == w.s.account.value && d in b.tail
    {
      QueuedError(w, d);
    }
  }

  lemma QueueListKept(w: World)
    requires Inv(w) && w.s.account.Some? && w.s.dirty != []
    ensures var s' := DidUpdate(w.s, false);
            s'.dirty == [] && s'.dismissed == w.s.dismissed && forall t :: t in w.s.txs ==> t in s'.txs
  {
    var unobserved, errors := Unobserved(w.s.dirty), Errors(w.s.dirty);
    var kept := Keep((t: Tx) => !t.mined && !t.observed, w.s.dirty);
    forall t | t in unobserved
      ensures exists d :: d in w.s.dirty && d.hash == t.hash
    {
      var i :| 0 <= i < |kept| && unobserved[i] == t;
      assert kept[i] in kept;
    }
    forall t | t in w.s.txs
      ensures t.hash !in Hashes(unobserved) && t.hash !in Hashes(errors)
    {
      if t.hash in Hashes(unobserved) || t.hash in Hashes(errors) {
        var d :| d in w.s.dirty && d.hash == t.hash;
        ShownNew(w.s, d);
        assert false;
      }
    }
  }

  lemma QueuedPending(w: World, d: Tx)
    requires Inv(w) && w.s.account.Some? && d in w.s.dirty && !d.mined
    ensures var s' := DidUpdate(w.s, false);
            && d.(observed := true) in s'.txs
            && exists b :: b in s'.batches && b.owner == w.s.account.value && d.(observed := true) in b.waiting
  {
    assert Owned(w.c, w.s.account.value, d);
    ObserveWaits(w.s.(dirty := []), w.s.txs, w.s.dirty, d);
    var s' := DidUpdate(w.s, false);
    assert s'.batches[|w.s.batches|] in s'.batches;
  }

  lemma QueuedError(w: World, d: Tx)
    requires Inv(w) && w.s.account.Some? && d in w.s.dirty && d.mined
    ensures var s' := DidUpdate(w.s, false);
            d in s'.txs || exists b :: b in s'.batches && b.owner == w.s.account.value && d in b.tail
  {
    var unobserved, errors := Unobserved(w.s.dirty), Errors(w.s.dirty);
    assert d in errors;
    if unobserved != [] {
      var s' := DidUpdate(w.s, false);
      assert s'.batches[|w.s.batches|] == Batch(w.s.account.value, unobserved, errors);
      assert s'.batches[|w.s.batches|] in s'.batches;
    }
  }

  // ----- Lists in order -----

  lemma KeepOne(p: Tx -> bool, t: Tx)
    ensures Keep(p, [t]) == if p(t) then [t] else []
  {
    assert [t][1..] == [];
  }

  /** Entries are kept in their order. */
  lemma {:induction false} KeepInOrder(p: Tx -> bool, l: seq<Tx>, m: seq<Tx>)
    ensures Keep(p, l + m) == Keep(p, l) + Keep(p, m)
  {
    if l == [] {
      assert l + m == m;
    } else {
      assert (l + m)[1..] == l[1..] + m;
      KeepInOrder(p, l[1..], m);
    }
  }

  /**
   An upsert puts the given entries behind the others, each part in its order: so it does for no entries, and for
   each further entry of the list.
   */
  lemma UpsertInOrder(l: seq<Tx>, t: Tx, txs: seq<Tx>)
    ensures Upsert([], txs) == txs
    ensures |Upsert(l, txs)| >= |txs| && Upsert(l, txs)[|Upsert(l, txs)| - |txs|..] == txs
    ensures var others := Upsert(l, txs)[..|Upsert(l, txs)| - |txs|];
            Upsert(l + [t], txs) == others + (if exists x :: x in txs && x.hash == t.hash then [] else [t]) + txs
  {
    var keys := Hashes(txs);
    WithoutInOrder(l, t, keys);
    assert Without([], keys) == [];
    Halves(Without(l, keys), txs);
    assert t.hash in keys <==> exists x :: x in txs && x.hash == t.hash;
  }

  lemma Halves(a: seq<Tx>, b: seq<Tx>)
    ensures var all := a + b; all[..|all| - |b|] == a && all[|all| - |b|..] == b
  {
  }

  lemma WithoutInOrder(l: seq<Tx>, t: Tx, hashes: set<Hash>)
    ensures Without(l + [t], hashes) == Without(l, hashes) + if t.hash in hashes then [] else [t]
  {
    KeepInOrder((t: Tx) => t.hash !in hashes, l, [t]);
    KeepOne((t: Tx) => t.hash !in hashes, t);
  }

  // ----- Renderings, dismissals and batches -----

  /**
   A rendering with empty queues sets the listener, which runs exactly while something shown is pending, and
   changes nothing else; without an account nothing is shown.
   */
  lemma QuietRendering(s: State)
    ensures s.account.None? ==> DidUpdate(s, false) == s.(txs := [])
    ensures s.account.Some? && s.dirty == [] && s.dismissed == [] ==>
              DidUpdate(s, false) == s.(listening := exists t :: t in s.txs && !t.mined)
    ensures s.account.Some? ==> (DidUpdate(s, false).listening <==> exists t :: t in s.txs && !t.mined)
  {
    UnminedSome(s.txs);
  }

  lemma UnminedSome(l: seq<Tx>)
    ensures Unmined(l) != [] <==> exists t :: t in l && !t.mined
  {
    if Unmined(l) != [] {
      assert Unmined(l)[0] in Unmined(l);
    }
  }

  /** Asking for the dismissal of a hash, and rendering, takes exactly its entries off the list. */
  lemma RequestedDismissal(s: State, h: Hash)
    requires s.account.Some? && s.dirty == []
    ensures var s' := DidUpdate(Step(s, RequestDismiss(h)), false);
            && (forall t :: t in s'.txs <==> t in s.txs && t.hash != h)
            && Stored(s', s.account.value) == s'.txs && s'.dismissed == [] && s'.batches == s.batches
  {
    DismissRemoves(Step(s, RequestDismiss(h)));
  }

  /** When the waits of a batch are over, all its error entries are shown and stored, if its account is selected. */
  lemma TailShown(s: State, b: nat)
    requires IsDone(s, b) && s.account == Some(s.batches[b].owner) && s.batches[b].tail != []
    ensures var s', tail := BatchDone(s, b), s.batches[b].tail;
            && (forall t :: t in tail ==> t in s'.txs) && Stored(s', s.batches[b].owner) == s'.txs
            && (forall t :: t in s.txs && (forall x :: x in tail ==> x.hash != t.hash) ==> t in s'.txs)
            && (forall t :: t in s'.txs ==> t in s.txs || t in tail)
  {
  }

  /** Its batch is gone then, and only that one; without error entries nothing else changes. */
  lemma BatchGone(s: State, b: nat)
    requires IsDone(s, b)
    ensures BatchDone(s, b).batches == s.batches[..b] + s.batches[b + 1..]
    ensures s.batches[b].tail == [] ==> BatchDone(s, b).(batches := s.batches) == s
  {
  }

  /** A wait that ends is taken off its batch, and no other wait. */
  lemma WaitEnds(s: State, b: nat, i: nat)
    requires IsWait(s, b, i)
    ensures var s' := Settle(s, b, i);
            && |s'.batches| == |s.batches| && s'.(batches := s.batches) == s
            && (forall j :: 0 <= j < |s.batches| && j != b ==> s'.batches[j] == s.batches[j])
            && s'.batches[b].owner == s.batches[b].owner && s'.batches[b].tail == s.batches[b].tail
            && multiset(s'.batches[b].waiting) == multiset(s.batches[b].waiting) - multiset{s.batches[b].waiting[i]}
  {
    var w := s.batches[b].waiting;
    assert w == w[..i] + [w[i]] + w[i + 1..];
  }

  /** Of several pending entries with the event's nonce the last one listed is replaced; every list will do. */
  lemma LastMatchStands(s: State, hash: Hash, from: Account, nonce: nat, block: nat, i: nat)
    requires s.account == Some(from) && nonce != 0 && i < |s.txs| && !s.txs[i].mined && s.txs[i].nonce == Some(nonce)
    requires forall j :: i < j < |s.txs| ==> s.txs[j].mined || s.txs[j].nonce != Some(nonce)
    ensures var tx, s' := s.txs[i], ChainEvent(s, hash, from, nonce, block);
            && s'.txs == Without(s.txs, {tx.hash})
                         + [Tx(hash, tx.from, tx.nonce, tx.details, true, false, false, Some(block))]
            && Stored(s', from) == s'.txs && s'.batches == s.batches && s'.dirty == s.dirty
  {
    var front, tx, back := s.txs[..i], s.txs[i], s.txs[i + 1..];
    assert s.txs == front + [tx] + back;
    ReplacedParts(front + [tx], back, nonce);
    ReplacedParts(front, [tx], nonce);
    ReplacedNone(back, nonce);
    assert tx in [tx];
    assert tx in Replaced([tx], nonce);
    ReplacedOne(tx, nonce);
    assert Replaced(s.txs, nonce) == Replaced(front, nonce) + [tx];
  }

  lemma ReplacedParts(l: seq<Tx>, m: seq<Tx>, nonce: nat)
    ensures Replaced(l + m, nonce) == Replaced(l, nonce) + Replaced(m, nonce)
  {
    KeepInOrder((t: Tx) => !t.mined && t.nonce == Some(nonce) && nonce != 0, l, m);
  }

  lemma ReplacedOne(t: Tx, nonce: nat)
    requires t in Replaced([t], nonce)
    ensures Replaced([t], nonce) == [t]
  {
    KeepOne((t: Tx) => !t.mined && t.nonce == Some(nonce) && nonce != 0, t);
  }

  lemma ReplacedNone(l: seq<Tx>, nonce: nat)
    requires forall t :: t in l ==> t.mined || t.nonce != Some(nonce)
    ensures Replaced(l, nonce) == []
  {
    KeepNone((t: Tx) => !t.mined && t.nonce == Some(nonce) && nonce != 0, l);
  }
}
