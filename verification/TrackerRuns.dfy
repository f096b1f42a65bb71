/** What holds over whole runs of the tracker. */
module TrackerRuns {
  import opened Common
  import opened TrackerEffects
  import opened TrackerModel
  import opened TrackerSafety
  import opened TrackerSwitches

  predicate CanRun(w: World, es: seq<Event>)
    decreases |es|
  {
    es == [] || (Possible(w, es[0]) && CanRun(Next(w, es[0]), es[1..]))
  }

  function Run(w: World, es: seq<Event>): World
    requires CanRun(w, es)
    decreases |es|
  {
    if es == [] then w else Run(Next(w, es[0]), es[1..])
  }

  /** No step of the run mixes up the lists of two accounts. */
  predicate CarefulRun(w: World, es: seq<Event>)
    requires CanRun(w, es)
    decreases |es|
  {
    es == [] || (Careful(w, es[0]) && CarefulRun(Next(w, es[0]), es[1..]))
  }

  /** The component before an account is known, over whatever good lists earlier visits left behind. */
  predicate Initial(w: World) {
    && w.s.account == None && w.s.txs == [] && w.s.dirty == [] && w.s.batches == []
    && StorageOk(w.c, w.s.storage)
  }

  /**
   What is shown and what is stored for each account has pairwise distinct hashes and no nonce twice, every
   stored entry belongs to the account it is stored for, and what is shown is what is stored, up to the
   `observed` flag.
   */
  predicate Consistent(w: World) {
    && DistinctHashes(w.s.txs) && Persisted(w.s)
    && forall a :: a in w.s.storage ==>
         DistinctHashes(w.s.storage[a]) && DistinctNonces(w.s.storage[a]) && OwnedBy(w.c, a, w.s.storage[a])
  }

  predicate DistinctNonces(l: seq<Tx>) {
    forall x, y :: x in l && y in l && SameNonce(x, y) ==> x == y
  }

  /** It is so before the run and after each of its steps. */
  predicate ConsistentThroughout(w: World, es: seq<Event>)
    requires CanRun(w, es)
    decreases |es|
  {
    Consistent(w) && (es == [] || ConsistentThroughout(Next(w, es[0]), es[1..]))
  }

  lemma InvIsConsistent(w: World)
    requires Inv(w)
    ensures Consistent(w)
  {
    if w.s.account.Some? {
      ShownOk(w);
    }
    forall a | a in w.s.storage
      ensures DistinctNonces(w.s.storage[a]) && OwnedBy(w.c, a, w.s.storage[a])
    {
      var l := w.s.storage[a];
      assert ListOk(w.c, a, l);
      forall x, y | x in l && y in l && SameNonce(x, y)
        ensures x == y
      {
        SameHashSame(l, l, x, y);
      }
      forall t | t in l
        ensures t.hash in w.c.origin && w.c.origin[t.hash].Owner() == a
      {
        assert Owned(w.c, a, t);
      }
    }
  }

  lemma {:induction false} RunKeepsInv(w: World, es: seq<Event>)
    requires Inv(w) && CanRun(w, es) && CarefulRun(w, es)
    ensures Inv(Run(w, es))
    decreases |es|
  {
    if es != [] {
      StepKeepsInv(w, es[0]);
      RunKeepsInv(Next(w, es[0]), es[1..]);
    }
  }

  lemma InitialInv(w: World)
    requires Initial(w)
    ensures Inv(w)
  {
    assert QueueOf(w.c, w.s.dirty, w.s.storage, "");
  }

  // ----- Mined stays mined -----

  predicate MinedWherever(h: Hash, l: seq<Tx>) {
    forall t :: t in l && t.hash == h ==> t.mined
  }

  /** Nowhere is the hash pending: in no stored list, nor among what is shown, queued or still to be shown. */
  predicate SettledHash(w: World, h: Hash) {
    && h in w.c.origin
    && (forall a :: a in w.s.storage ==> MinedWherever(h, w.s.storage[a]))
    && MinedWherever(h, w.s.txs) && MinedWherever(h, w.s.dirty)
    && forall b :: b in w.s.batches ==> MinedWherever(h, b.tail)
  }

  /** In consistent lists a mined entry is pending nowhere. */
  lemma MinedEntrySettles(w: World, a: Account, t: Tx)
    requires Inv(w) && t in Stored(w.s, a) && t.mined
    ensures SettledHash(w, t.hash)
  {
    assert ListOk(w.c, a, Stored(w.s, a)) && Owned(w.c, a, t);
    forall b, x | b in w.s.storage && x in w.s.storage[b] && x.hash == t.hash
      ensures x.mined
    {
      assert Owned(w.c, b, x);
      OwnersApart(w.c, a, b, t, x);
      SameHashSame(w.s.storage[a], w.s.storage[b], t, x);
    }
    forall d | d in w.s.dirty
      ensures d.hash != t.hash
    {
      assert w.s.account == Some(a) ==> NewTo(d, ListOf(w.s.storage, a));
      if w.s.account != Some(a) {
        QueueApartFrom(w, a);
      }
    }
    ShownSettled(w, t.hash);
    forall b | b in w.s.batches
      ensures MinedWherever(t.hash, b.tail)
    {
      assert BatchOk(w.c, w.s, b);
    }
  }

  lemma ShownSettled(w: World, h: Hash)
    requires Inv(w) && forall a :: a in w.s.storage ==> MinedWherever(h, w.s.storage[a])
    ensures MinedWherever(h, w.s.txs)
  {
    if w.s.account.Some? {
      var a := w.s.account.value;
      forall t | t in w.s.txs && t.hash == h
        ensures t.mined
      {
        CleanMember(Stored(w.s, a), w.s.txs, t);
      }
    }
  }

  lemma ObserveSettled(w: World, base: seq<Tx>, txs: seq<Tx>, h: Hash)
    requires SettledHash(w, h) && MinedWherever(h, base) && MinedWherever(h, txs)
    ensures SettledHash(w.(s := Observe(w.s, base, txs)), h)
  {
    var kept := Keep((t: Tx) => !t.mined && !t.observed, txs);
    forall t | t in Unobserved(txs)
      ensures t.hash != h
    {
      var i :| 0 <= i < |kept| && Unobserved(txs)[i] == t;
      assert kept[i] in kept;
    }
  }

  lemma CleanSettled(l: seq<Tx>, h: Hash)
    requires MinedWherever(h, l)
    ensures MinedWherever(h, Clean(l))
  {
    forall t | t in Clean(l) && t.hash == h
      ensures t.mined
    {
      var i :| 0 <= i < |l| && Clean(l)[i] == t;
      assert l[i] in l;
    }
  }

  lemma QueuedSettled(w: World, rendered: State, h: Hash)
    requires SettledHash(w, h) && MinedWherever(h, rendered.txs) && MinedWherever(h, rendered.dirty)
    ensures SettledHash(w.(s := Queued(w.s, rendered)), h)
  {
    if rendered.dirty != [] {
      ObserveSettled(w.(s := w.s.(dirty := [])), rendered.txs, rendered.dirty, h);
    }
  }

  lemma UpdateSettled(w: World, h: Hash, switched: bool)
    requires SettledHash(w, h)
    ensures SettledHash(w.(s := DidUpdate(w.s, switched)), h)
  {
    if w.s.account.Some? {
      CleanSettled(Stored(w.s, w.s.account.value), h);
      var loaded := if switched then Loaded(w.s) else w.s;
      QueuedSettled(w.(s := loaded), w.s, h);
      var settled := Queued(loaded, w.s).(listening := Unmined(w.s.txs) != []);
      if switched {
        ObserveSettled(w.(s := settled), settled.txs, loaded.txs, h);
      }
    }
  }

  /** No step makes a hash pending that is pending nowhere, not even one that mixes up lists. */
  lemma StepSettled(w: World, e: Event, h: Hash)
    requires Possible(w, e) && SettledHash(w, h)
    ensures SettledHash(Next(w, e), h)
  {
    match e
    case StoreTransaction(hash, from, nonce, details) =>
    case StoreError(hash, details, block) =>
    case RequestDismiss(hash) =>
    case Rendered => UpdateSettled(w, h, false);
    case AccountSwitched(account) => UpdateSettled(w.(s := w.s.(account := account)), h, true);
    case ReceiptArrived(b, i, from, block, failed) => ReceiptSettled(w, b, i, from, block, failed, h);
    case WaitFailed(b, i) => SettleSettled(w, b, i, h);
    case WaitsOver(b) =>
      assert w.s.batches[b] in w.s.batches;
    case VaultEvent(hash, from, nonce, block) =>
  }

  lemma SettleSettled(w: World, b: nat, i: nat, h: Hash)
    requires SettledHash(w, h) && IsWait(w.s, b, i)
    ensures SettledHash(w.(s := Settle(w.s, b, i)), h)
  {
    var s' := Settle(w.s, b, i);
    forall x | x in s'.batches
      ensures MinedWherever(h, x.tail)
    {
      assert w.s.batches[b] in w.s.batches;
      assert x in w.s.batches || x.tail == w.s.batches[b].tail;
    }
  }

  lemma ReceiptSettled(w: World, b: nat, i: nat, from: Account, block: nat, failed: bool, h: Hash)
    requires SettledHash(w, h) && IsWait(w.s, b, i)
    ensures SettledHash(w.(s := Receipt(w.s, b, i, from, block, failed)), h)
  {
    SettleSettled(w, b, i, h);
  }

  /** Over every run whatever, a hash that is pending nowhere never is again. */
  lemma {:induction false} RunSettled(w: World, es: seq<Event>, h: Hash)
    requires CanRun(w, es) && SettledHash(w, h)
    ensures SettledHash(Run(w, es), h)
    decreases |es|
  {
    if es != [] {
      StepSettled(w, es[0], h);
      RunSettled(Next(w, es[0]), es[1..], h);
    }
  }

  /**
   A transaction that is stored as mined while the lists are consistent is never again stored, shown, queued
   or about to be shown as pending, under any account, whatever happens later.
   */
  lemma MinedStaysMined(w: World, before: seq<Event>, es: seq<Event>, a: Account, t: Tx)
    requires Initial(w) && CanRun(w, before) && CarefulRun(w, before)
    requires t in Stored(Run(w, before).s, a) && t.mined && CanRun(Run(w, before), es)
    ensures SettledHash(Run(Run(w, before), es), t.hash)
  {
    InitialInv(w);
    RunKeepsInv(w, before);
    MinedEntrySettles(Run(w, before), a, t);
    RunSettled(Run(w, before), es, t.hash);
  }

  // ----- Exactly the careful steps keep the lists consistent -----

  lemma MixingQueue(w: World, a: Account)
    requires Inv(w) && w.s.account != Some(a) && w.s.dirty != [] && !OwnedBy(w.c, a, w.s.dirty)
    ensures !OwnedBy(w.c, a, Stored(SwitchAccount(w.s, Some(a)), a))
  {
    var q := QueueOwner(w);
    var d, x := QueuedIsWritten(w, a);
    assert forall t :: t in w.s.dirty ==> Owned(w.c, q, t);
    ForeignEntry(w.c, q, a, Stored(SwitchAccount(w.s, Some(a)), a), x, d);
  }

  /** A switch that is not careful stores entries of another account. */
  lemma MixingSwitch(w: World, a: Account)
    requires Inv(w) && w.s.account != Some(a) && !CanSwitch(w, Some(a))
    ensures !Consistent(w.(s := SwitchAccount(w.s, Some(a))))
    ensures !OwnedBy(w.c, a, Stored(SwitchAccount(w.s, Some(a)), a))
  {
    if w.s.dirty != [] {
      MixingQueue(w, a);
    } else {
      var x := RemainingIsWritten(w, a);
      ForeignEntry(w.c, w.s.account.value, a, Stored(SwitchAccount(w.s, Some(a)), a), x, x);
    }
  }

  /** Error entries whose batch ends while another account is selected are all stored for that account. */
  lemma StrayTail(w: World, b: nat)
    requires Inv(w) && IsDone(w.s, b) && !TailAtHome(w.s, b)
    ensures !Consistent(w.(s := BatchDone(w.s, b)))
    ensures w.s.account.Some? ==>
              var l := Stored(BatchDone(w.s, b), w.s.account.value);
              (forall t :: t in w.s.batches[b].tail ==> t in l) && !OwnedBy(w.c, w.s.account.value, l)
  {
    var batch, s' := w.s.batches[b], BatchDone(w.s, b);
    var t := batch.tail[0];
    assert BatchOk(w.c, w.s, batch) && t in batch.tail && t in s'.txs;
    if w.s.account.Some? {
      var a := w.s.account.value;
      assert t in Stored(s', a);
      ForeignEntry(w.c, batch.owner, a, Stored(s', a), t, t);
    }
  }

  /** A step keeps the lists consistent, and whatever follows from that, exactly when it is careful. */
  lemma StepExactly(w: World, e: Event)
    requires Inv(w) && Possible(w, e)
    ensures Consistent(Next(w, e)) <==> Careful(w, e)
    ensures Careful(w, e) ==> Inv(Next(w, e))
  {
    if Careful(w, e) {
      StepKeepsInv(w, e);
      InvIsConsistent(Next(w, e));
    } else if e.AccountSwitched? {
      MixingSwitch(w, e.account.value);
    } else {
      StrayTail(w, e.batch);
    }
  }

  lemma {:induction false} RunExactly(w: World, es: seq<Event>)
    requires Inv(w) && CanRun(w, es)
    ensures ConsistentThroughout(w, es) <==> CarefulRun(w, es)
    decreases |es|
  {
    InvIsConsistent(w);
    if es != [] {
      StepExactly(w, es[0]);
      if Careful(w, es[0]) {
        RunExactly(Next(w, es[0]), es[1..]);
      }
    }
  }

  /** The lists stay consistent throughout a run exactly when all its steps are careful. */
  lemma EveryRunIsConsistent(w: World, es: seq<Event>)
    requires Initial(w) && CanRun(w, es)
    ensures ConsistentThroughout(w, es) <==> CarefulRun(w, es)
  {
    InitialInv(w);
    RunExactly(w, es);
  }

  // ----- Nothing is lost -----

  /** The entry is still in the list, or one that was mined with its nonce; what was mined is mined. */
  predicate Stays(t: Tx, l: seq<Tx>) {
    exists x :: x in l && Succeeds(x, t)
  }

  predicate Succeeds(x: Tx, t: Tx) {
    || (x.hash == t.hash && x.nonce == t.nonce && (t.mined ==> x.mined))
    || (x.mined && SameNonce(x, t))
  }

  /** No dismissal is asked for, and no account is selected while a transaction is queued. */
  predicate Undisturbed(w: World, es: seq<Event>)
    requires CanRun(w, es)
    decreases |es|
  {
    es == [] ||
    (&& !es[0].RequestDismiss? && (es[0].AccountSwitched? && es[0].account.Some? ==> w.s.dirty == [])
     && Undisturbed(Next(w, es[0]), es[1..]))
  }

  lemma SameHashSameNonce(c: Chain, a: Account, x: Tx, t: Tx)
    requires Owned(c, a, x) && Owned(c, a, t) && x.hash == t.hash
    ensures x.nonce == t.nonce
  {
  }

  /** Entries that join a list replace only entries with their own hash. */
  lemma UpsertStays(c: Chain, a: Account, l: seq<Tx>, txs: seq<Tx>, t: Tx)
    requires t in l && Owned(c, a, t) && forall x :: x in txs ==> Owned(c, a, x) && x.mined
    ensures Stays(t, Upsert(l, txs))
  {
    if x :| x in txs && x.hash == t.hash {
      SameHashSameNonce(c, a, x, t);
      assert x in Upsert(l, txs) && Succeeds(x, t);
    } else {
      assert t !in txs ==> t.hash !in Hashes(txs);
      assert t in Upsert(l, txs) && Succeeds(t, t);
    }
  }

  /** What is shown stands for what is stored. */
  lemma ShownStays(w: World, a: Account, t: Tx) returns (y: Tx)
    requires Inv(w) && w.s.account == Some(a) && t in Stored(w.s, a)
    ensures y in w.s.txs && Owned(w.c, a, y) && y.(observed := t.observed) == t
  {
    ShownOk(w);
    CleanMember(w.s.txs, Stored(w.s, a), t);
    y :| y in w.s.txs && y.(observed := false) == t.(observed := false);
  }

  lemma StaysUpTo(y: Tx, t: Tx, l: seq<Tx>)
    requires y.(observed := t.observed) == t && Stays(y, l)
    ensures Stays(t, l)
  {
    var x :| x in l && Succeeds(x, y);
    assert Succeeds(x, t);
  }

  lemma StaysOn(t: Tx, l: seq<Tx>, m: seq<Tx>)
    requires Stays(t, l) && forall x :: x in l ==> Stays(x, m)
    ensures Stays(t, m)
  {
    var x :| x in l && Succeeds(x, t);
    var y :| y in m && Succeeds(y, x);
    assert Succeeds(y, t);
  }

  /** What a step does to an entry that is shown, while its account stays selected. */
  lemma ShownEntryStays(w: World, e: Event, a: Account, y: Tx)
    requires Inv(w) && Possible(w, e) && Careful(w, e) && Inv(Next(w, e))
    requires w.s.dismissed == [] && !e.AccountSwitched?
    requires w.s.account == Some(a) && Next(w, e).s.account == Some(a) && y in w.s.txs
    ensures Stays(y, Next(w, e).s.txs)
  {
    var c', after := Learn(w, e), Next(w, e).s.txs;
    ShownOk(w);
    LearnExtends(w, e);
    ListGrows(w.c, c', a, w.s.txs);
    ShownOk(Next(w, e));
    assert Owned(c', a, y) && Succeeds(y, y);
    match e
    case Rendered =>
      if w.s.dirty != [] {
        QueueTakenOver(w);
      }
    case ReceiptArrived(b, i, from, block, failed) =>
      ReceiptStays(w, b, i, from, block, failed, a, y);
    case WaitsOver(b) =>
      TailStays(w, b, a, y);
    case VaultEvent(hash, from, nonce, block) =>
      EventStays(w.s, c', hash, from, nonce, block, a, y);
    case _ =>
  }

  lemma ReceiptStays(w: World, b: nat, i: nat, from: Account, block: nat, failed: bool, a: Account, y: Tx)
    requires IsWait(w.s, b, i) && w.s.account == Some(a) && y in w.s.txs
    requires Possible(w, ReceiptArrived(b, i, from, block, failed))
    requires var c' := Learn(w, ReceiptArrived(b, i, from, block, failed));
             Owned(c', a, y) && ListOk(c', a, Receipt(w.s, b, i, from, block, failed).txs)
    ensures Stays(y, Receipt(w.s, b, i, from, block, failed).txs)
  {
    var s' := Receipt(w.s, b, i, from, block, failed);
    var c' := Learn(w, ReceiptArrived(b, i, from, block, failed));
    if w.s.account == Some(from) {
      var tx := w.s.batches[b].waiting[i];
      var newTx := tx.(mined := true, block := Some(block), observed := false, isError := failed);
      assert s'.txs == Upsert(w.s.txs, [newTx]);
      assert [newTx][0] in s'.txs;
      UpsertStays(c', a, w.s.txs, [newTx], y);
    } else {
      assert Succeeds(y, y);
    }
  }

  lemma TailStays(w: World, b: nat, a: Account, y: Tx)
    requires IsDone(w.s, b) && w.s.account == Some(a) && y in w.s.txs && Owned(w.c, a, y)
    requires BatchOk(w.c, w.s, w.s.batches[b]) && ListOk(w.c, a, BatchDone(w.s, b).txs)
    ensures Stays(y, BatchDone(w.s, b).txs)
  {
    var tail := w.s.batches[b].tail;
    assert Succeeds(y, y);
    if tail != [] {
      forall x | x in tail
        ensures Owned(w.c, a, x) && x.mined
      {
        assert x in BatchDone(w.s, b).txs;
      }
      UpsertStays(w.c, a, w.s.txs, tail, y);
    }
  }

  lemma EventStays(s: State, c: Chain, hash: Hash, from: Account, nonce: nat, block: nat, a: Account, y: Tx)
    requires s.account == Some(a) && y in s.txs && DistinctHashes(s.txs)
    ensures Stays(y, ChainEvent(s, hash, from, nonce, block).txs)
  {
    var matches := Replaced(s.txs, nonce);
    assert Succeeds(y, y);
    if s.account == Some(from) && matches != [] {
      var tx := matches[|matches| - 1];
      assert tx in matches;
      if y.hash == tx.hash {
        SameHashSame(s.txs, s.txs, y, tx);
        var newTx := Replacement(tx, hash, block);
        assert Succeeds(newTx, y) && newTx in Without(s.txs, {tx.hash}) + [newTx];
      } else {
        assert y in Without(s.txs, {tx.hash});
      }
    }
  }

  lemma StepStays(w: World, e: Event, a: Account, t: Tx)
    requires Inv(w) && Possible(w, e) && Careful(w, e) && t in Stored(w.s, a)
    requires w.s.dismissed == [] && !e.RequestDismiss?
    requires e.AccountSwitched? && e.account.Some? ==> w.s.dirty == []
    ensures Stays(t, Stored(Next(w, e).s, a)) && Next(w, e).s.dismissed == []
  {
    var after := Next(w, e).s;
    assert Succeeds(t, t);
    StepKeepsInv(w, e);
    StepDismisses(w.s, e);
    if after.account != Some(a) {
      if w.s.account == Some(a) {
        OnlySwitchesLeave(w.s, e, a);
      } else {
        StepElsewhere(w.s, e, a);
      }
    } else if w.s.account != Some(a) {
      StepSelects(w.s, e, a);
      assert ListOk(w.c, a, Stored(w.s, a));
      QuietSwitchKeeps(w.s, a);
      SameEntries(Stored(w.s, a), Stored(after, a), t);
    } else {
      StepSelects(w.s, e, a);
      var y := ShownStays(w, a, t);
      ShownEntryStays(w, e, a, y);
      StaysUpTo(y, t, after.txs);
      forall x | x in after.txs
        ensures Stays(x, Stored(after, a))
      {
        CleanMember(Stored(after, a), after.txs, x);
        var z :| z in Stored(after, a) && z.(observed := false) == x.(observed := false);
        assert Succeeds(z, x);
      }
      StaysOn(t, after.txs, Stored(after, a));
    }
  }

  /** Only a switch selects an account, and only a request queues a dismissal. */
  lemma StepSelects(s: State, e: Event, a: Account)
    requires Enabled(s, e) && Step(s, e).account == Some(a)
    ensures e.AccountSwitched? ==> e.account == Some(a)
    ensures !e.AccountSwitched? ==> s.account == Some(a)
  {
    match e
    case Rendered => ObserveSelects(s.(dirty := []), s.txs, s.dirty);
    case AccountSwitched(account) => SwitchSelects(s, account);
    case _ =>
  }

  lemma StepDismisses(s: State, e: Event)
    requires Enabled(s, e) && s.dismissed == [] && !e.RequestDismiss?
    ensures Step(s, e).dismissed == []
  {
    match e
    case Rendered => UpdateDismisses(s, false);
    case AccountSwitched(account) => UpdateDismisses(s.(account := account), true);
    case _ =>
  }

  lemma UpdateDismisses(s: State, switched: bool)
    requires s.dismissed == []
    ensures DidUpdate(s, switched).dismissed == []
  {
    if s.account.Some? {
      var loaded := if switched then Loaded(s) else s;
      ObserveDismisses(loaded.(dirty := []), s.txs, s.dirty);
      var queued := Queued(loaded, s);
      assert queued.dismissed == [];
      var settled := queued.(listening := Unmined(s.txs) != []);
      ObserveDismisses(settled, settled.txs, Loaded(s).txs);
    }
  }

  lemma ObserveDismisses(s: State, base: seq<Tx>, txs: seq<Tx>)
    ensures Observe(s, base, txs).dismissed == s.dismissed
  {
  }

  lemma SameEntries(l: seq<Tx>, m: seq<Tx>, t: Tx)
    requires t in l && multiset(Clean(l)) == multiset(Clean(m))
    ensures Stays(t, m)
  {
    var i :| 0 <= i < |l| && l[i] == t;
    assert Clean(l)[i] in multiset(Clean(l));
    var j :| 0 <= j < |m| && Clean(m)[j] == Clean(l)[i];
    assert m[j] in m && Succeeds(m[j], t);
  }

  /**
   Over every careful run in which nothing is dismissed and no account is selected while a transaction is
   queued, every entry stored for any account stays, or the transaction that was mined with its nonce takes its
   place; what was mined stays mined.
   */
  lemma {:induction false} NothingIsLost(w: World, es: seq<Event>, a: Account, t: Tx)
    requires Inv(w) && CanRun(w, es) && CarefulRun(w, es) && Undisturbed(w, es)
    requires w.s.dismissed == [] && t in Stored(w.s, a)
    ensures Stays(t, Stored(Run(w, es).s, a))
    decreases |es|
  {
    if es == [] {
      assert Succeeds(t, t);
    } else {
      var w1 := Next(w, es[0]);
      StepStays(w, es[0], a, t);
      StepKeepsInv(w, es[0]);
      forall x | x in Stored(w1.s, a)
        ensures Stays(x, Stored(Run(w1, es[1..]).s, a))
      {
        NothingIsLost(w1, es[1..], a, x);
      }
      StaysOn(t, Stored(w1.s, a), Stored(Run(w1, es[1..]).s, a));
    }
  }

  // ----- Switching away and back -----

  /** The account is not selected at any point of the run. */
  predicate Away(w: World, es: seq<Event>, a: Account)
    requires CanRun(w, es)
    decreases |es|
  {
    w.s.account != Some(a) && (es != [] ==> Away(Next(w, es[0]), es[1..], a))
  }

  lemma StepElsewhere(s: State, e: Event, a: Account)
    requires Enabled(s, e) && s.account != Some(a) && Step(s, e).account != Some(a)
    ensures Stored(Step(s, e), a) == Stored(s, a)
  {
    match e
    case Rendered => ObserveElsewhere(s.(dirty := []), s.txs, s.dirty, a);
    case AccountSwitched(account) =>
      SwitchSelects(s, account);
      LeavingKeepsStored(s, a, account);
    case _ =>
  }

  lemma {:induction false} AwayKeepsStored(w: World, es: seq<Event>, a: Account)
    requires CanRun(w, es) && Away(w, es, a)
    ensures Stored(Run(w, es).s, a) == Stored(w.s, a)
    decreases |es|
  {
    if es != [] {
      assert Away(Next(w, es[0]), es[1..], a);
      StepElsewhere(w.s, es[0], a);
      AwayKeepsStored(Next(w, es[0]), es[1..], a);
    }
  }

  lemma {:induction false} AwayAtTheEnd(w: World, es: seq<Event>, a: Account)
    requires CanRun(w, es) && Away(w, es, a)
    ensures Run(w, es).s.account != Some(a)
    decreases |es|
  {
    if es != [] {
      AwayAtTheEnd(Next(w, es[0]), es[1..], a);
    }
  }

  /**
   Leaving an account and coming back after a careful run shows the entries that were there, whatever
   arrives in the meantime, exactly when the switch back keeps what is stored: then nothing is lost, added
   or changed except for the `observed` flags and the order.
   */
  lemma SwitchAwayAndBack(w: World, a: Account, es: seq<Event>)
    requires Inv(w) && w.s.account == Some(a)
    requires CanRun(w, es) && CarefulRun(w, es) && es != [] && Away(Next(w, es[0]), es[1..], a)
    ensures var away := Run(w, es).s;
            var back := SwitchAccount(away, Some(a));
            multiset(Clean(back.txs)) == multiset(Clean(w.s.txs)) <==> KeepsStored(away, a)
  {
    var out := Next(w, es[0]);
    RunKeepsInv(w, es);
    OnlySwitchesLeave(w.s, es[0], a);
    AwayKeepsStored(out, es[1..], a);
    AwayAtTheEnd(out, es[1..], a);
    SwitchKeepsExactly(Run(w, es), a);
    SelectedIsShown(Run(w, es).s, a);
  }

  lemma OnlySwitchesLeave(s: State, e: Event, a: Account)
    requires Enabled(s, e) && s.account == Some(a) && Step(s, e).account != Some(a)
    ensures Stored(Step(s, e), a) == Stored(s, a)
  {
    match e
    case Rendered => ObserveSelects(s.(dirty := []), s.txs, s.dirty);
    case AccountSwitched(account) =>
      SwitchSelects(s, account);
      LeavingKeepsStored(s, a, account);
    case _ =>
  }
}
