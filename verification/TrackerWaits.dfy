/** What is waited for: everything that is shown as pending, until its own wait is over. */
module TrackerWaits {
  import opened Common
  import opened TrackerEffects
  import opened TrackerModel
  import opened TrackerRuns
  import opened TrackerSafety
  import opened TrackerSwitches

  predicate IsWaitedFor(s: State, h: Hash) {
    exists b, t :: b in s.batches && t in b.waiting && t.hash == h
  }

  /** Observing takes no wait away. */
  lemma ObserveKeepsWaits(s: State, base: seq<Tx>, txs: seq<Tx>, h: Hash)
    requires IsWaitedFor(s, h)
    ensures IsWaitedFor(Observe(s, base, txs), h)
  {
    var b, t :| b in s.batches && t in b.waiting && t.hash == h;
    assert b in Observe(s, base, txs).batches;
  }

  /** Every pending entry stored for an account is waited for once the account is selected. */
  lemma LoadedAreWaited(s: State, a: Account, t: Tx)
    requires t in Stored(s, a) && !t.mined
    ensures var s' := SwitchAccount(s, Some(a));
            && t.(observed := true) in s'.txs
            && exists b :: b in s'.batches && b.owner == a && t.(observed := true) in b.waiting
  {
    var s1 := s.(account := Some(a));
    var loaded := Loaded(s1);
    ObserveSelects(loaded.(dirty := []), s.txs, s.dirty);
    var settled := Queued(loaded, s1).(listening := Unmined(s.txs) != []);
    var i :| 0 <= i < |Stored(s, a)| && Stored(s, a)[i] == t;
    assert loaded.txs[i] == t.(observed := false);
    assert loaded.txs[i] in loaded.txs;
    ObserveWaits(settled, settled.txs, loaded.txs, t.(observed := false));
    var s' := SwitchAccount(s, Some(a));
    assert s'.batches[|settled.batches|] in s'.batches;
  }

  /** So it is when the component is mounted. */
  lemma MountedAreWaited(s: State, a: Account, t: Tx)
    requires s.account == Some(a) && t in Stored(s, a) && !t.mined
    ensures var s' := Mounted(s);
            && t.(observed := true) in s'.txs
            && exists b :: b in s'.batches && b.owner == a && t.(observed := true) in b.waiting
  {
    var loaded := Loaded(s);
    var i :| 0 <= i < |Stored(s, a)| && Stored(s, a)[i] == t;
    assert loaded.txs[i] == t.(observed := false);
    assert loaded.txs[i] in loaded.txs;
    ObserveWaits(loaded, loaded.txs, loaded.txs, t.(observed := false));
    assert Mounted(s).batches[|loaded.batches|] in Mounted(s).batches;
  }

  /** A selected account has empty queues, and its entries are observed exactly while they are pending. */
  lemma SelectedState(s: State, a: Account)
    requires s.dirty == [] && s.dismissed == [] && DistinctHashes(Stored(s, a))
    ensures var s' := SwitchAccount(s, Some(a));
            && s'.account == Some(a) && s'.dirty == [] && s'.dismissed == []
            && (s'.listening <==> exists t :: t in s.txs && !t.mined)
            && forall t :: t in s'.txs ==> (t.observed <==> !t.mined)
  {
    var l := Clean(Stored(s, a));
    UnminedSome(s.txs);
    assert forall i :: 0 <= i < |l| ==> !l[i].observed;
    var kept := Keep((t: Tx) => !t.mined && !t.observed, l);
    forall i | 0 <= i < |Unobserved(l)|
      ensures Unobserved(l)[i].observed && !Unobserved(l)[i].mined
    {
      assert kept[i] in kept;
    }
    forall t | t in l && !t.mined
      ensures t.hash in Hashes(Unobserved(l))
    {
      assert t in kept;
      var i :| 0 <= i < |kept| && kept[i] == t;
      assert Unobserved(l)[i] in Unobserved(l) && Unobserved(l)[i].hash == t.hash;
    }
  }

  // ----- One step -----

  /** The wait for this hash ends with this step. */
  predicate EndsWait(s: State, e: Event, h: Hash)
    requires Enabled(s, e)
  {
    match e
    case ReceiptArrived(b, i, _, _, _) => s.batches[b].waiting[i].hash == h
    case WaitFailed(b, i) => s.batches[b].waiting[i].hash == h
    case _ => false
  }

  lemma SettleKeepsWaits(s: State, b: nat, i: nat, h: Hash)
    requires IsWait(s, b, i) && IsWaitedFor(s, h) && s.batches[b].waiting[i].hash != h
    ensures IsWaitedFor(Settle(s, b, i), h)
  {
    var s' := Settle(s, b, i);
    var x, t :| x in s.batches && t in x.waiting && t.hash == h;
    var k :| 0 <= k < |s.batches| && s.batches[k] == x;
    if k == b {
      var w := x.waiting;
      var j :| 0 <= j < |w| && w[j] == t;
      assert RemoveAt(w, i)[if j < i then j else j - 1] == t;
      assert t in s'.batches[b].waiting && s'.batches[b] in s'.batches;
    } else {
      assert s'.batches[k] == x && s'.batches[k] in s'.batches;
    }
  }

  lemma UpdateKeepsWaits(s: State, switched: bool, h: Hash)
    requires IsWaitedFor(s, h)
    ensures IsWaitedFor(DidUpdate(s, switched), h)
  {
    if s.account.Some? {
      var loaded := if switched then Loaded(s) else s;
      assert loaded.batches == s.batches;
      ObserveKeepsWaits(loaded.(dirty := []), s.txs, s.dirty, h);
      var queued := Queued(loaded, s);
      assert IsWaitedFor(queued, h);
      var settled := queued.(listening := Unmined(s.txs) != []);
      ObserveKeepsWaits(settled, settled.txs, Loaded(s).txs, h);
    }
  }

  /** Only its own receipt and the failure of its own wait end the wait for a hash. */
  lemma WaitsStay(s: State, e: Event, h: Hash)
    requires Enabled(s, e) && IsWaitedFor(s, h) && !EndsWait(s, e, h)
    ensures IsWaitedFor(Step(s, e), h)
  {
    match e
    case Rendered => UpdateKeepsWaits(s, false, h);
    case AccountSwitched(account) => UpdateKeepsWaits(s.(account := account), true, h);
    case ReceiptArrived(b, i, from, block, failed) => SettleKeepsWaits(s, b, i, h);
    case WaitFailed(b, i) => SettleKeepsWaits(s, b, i, h);
    case WaitsOver(b) =>
      var x, t :| x in s.batches && t in x.waiting && t.hash == h;
      var k :| 0 <= k < |s.batches| && s.batches[k] == x;
      assert RemoveAt(s.batches, b)[if k < b then k else k - 1] == x;
    case _ =>
  }

  /** What is shown as pending under this hash is waited for. */
  predicate Tended(s: State, h: Hash) {
    (exists t :: t in s.txs && t.hash == h && !t.mined) ==> IsWaitedFor(s, h)
  }

  /** Observing tends to what it observes and leaves what it does not observe as it was. */
  lemma ObserveTends(s: State, base: seq<Tx>, txs: seq<Tx>, h: Hash)
    requires Tended(s, h) && Tended(s.(txs := base), h)
    requires forall t :: t in txs && t.isError ==> t.mined
    ensures Tended(Observe(s, base, txs), h)
  {
    var s' := Observe(s, base, txs);
    if t :| t in s'.txs && t.hash == h && !t.mined {
      if t in Unobserved(txs) {
        assert s'.batches[|s.batches|].waiting == Unobserved(txs);
        assert s'.batches[|s.batches|] in s'.batches;
      } else {
        assert t in s.txs || t in base;
        assert t in s.(txs := base).txs ==> IsWaitedFor(s.(txs := base), h);
        assert IsWaitedFor(s.(txs := base), h) ==> IsWaitedFor(s, h) by {
          assert s.(txs := base).batches == s.batches;
        }
        ObserveKeepsWaits(s, base, txs, h);
      }
    }
  }

  lemma QueueErrorsMined(w: World)
    requires Inv(w)
    ensures forall t :: t in w.s.dirty && t.isError ==> t.mined
    ensures forall t :: t in w.s.dirty && !t.mined ==> !t.observed
  {
    var q := QueueOwner(w);
    forall t | t in w.s.dirty
      ensures t.isError ==> t.mined
    {
      assert Owned(w.c, q, t);
    }
  }

  lemma RenderingTends(w: World, h: Hash)
    requires Inv(w) && Tended(w.s, h)
    ensures Tended(DidUpdate(w.s, false), h)
  {
    if w.s.account.Some? {
      var s := w.s;
      var queued := Queued(s, s);
      if s.dirty != [] {
        QueueErrorsMined(w);
        assert s.(dirty := []).batches == s.batches && s.(dirty := []).txs == s.txs;
        assert IsWaitedFor(s, h) ==> IsWaitedFor(s.(dirty := []), h);
        assert s.(dirty := []).(txs := s.txs) == s.(dirty := []);
        ObserveTends(s.(dirty := []), s.txs, s.dirty, h);
      } else {
        assert IsWaitedFor(s, h) ==> IsWaitedFor(queued, h);
      }
      var s' := DidUpdate(s, false);
      assert s' == queued.(listening := s'.listening);
      assert IsWaitedFor(queued, h) ==> IsWaitedFor(s', h);
    }
  }

  /** What is shown as pending after a switch was stored as pending, or was queued. */
  lemma PendingFrom(w: World, a: Account, t: Tx)
    requires Inv(w) && w.s.account != Some(a) && CanSwitch(w, Some(a))
    requires t in SwitchAccount(w.s, Some(a)).txs && !t.mined
    ensures exists y :: (y in Stored(w.s, a) || y in w.s.dirty) && y.hash == t.hash && !y.mined
  {
    var s1 := w.s.(account := Some(a));
    var loaded := Loaded(s1);
    var settled := Queued(loaded, s1).(listening := Unmined(w.s.txs) != []);
    ListedFrom(settled, loaded.txs, t);
    if t !in settled.txs {
      LoadedFrom(Stored(w.s, a), t);
    } else if w.s.dirty != [] {
      TakenFrom(w, a, t);
    } else {
      KeptFrom(w.s, a, t);
      LoadedFrom(Stored(w.s, a), t);
    }
  }

  lemma TakenFrom(w: World, a: Account, t: Tx)
    requires Inv(w) && w.s.account != Some(a) && CanSwitch(w, Some(a)) && w.s.dirty != []
    requires var s1 := w.s.(account := Some(a)); t in Queued(Loaded(s1), s1).txs && !t.mined
    ensures exists y :: y in w.s.dirty && y.hash == t.hash && !y.mined
  {
    var q := QueueOwner(w);
    assert w.s.dirty[0] in w.s.dirty && Owned(w.c, q, w.s.dirty[0]);
    assert w.s.account == None && w.s.txs == [];
    QueueErrorsMined(w);
    QueuedFrom(Loaded(w.s.(account := Some(a))).(dirty := []), w.s.dirty, a, t);
  }

  lemma KeptFrom(s: State, a: Account, t: Tx)
    requires s.dirty == [] && (s.dismissed == [] || Remaining(s) == [])
    ensures var s1 := s.(account := Some(a)); t in Queued(Loaded(s1), s1).txs ==> t in Clean(Stored(s, a))
  {
  }

  lemma QueuedFrom(s: State, queue: seq<Tx>, a: Account, t: Tx)
    requires queue != [] && forall d :: d in queue ==> (!d.mined && !d.observed) || d.isError
    requires s.account == Some(a) && t in Observe(s, [], queue).txs && !t.mined
    ensures exists y :: y in queue && y.hash == t.hash && !y.mined
  {
    ObserveSelects(s, [], queue);
    var bare := s.(txs := [], storage := s.storage[a := []]);
    QueueIsWritten(s, bare, queue, a);
    QueueShown(bare, queue, t);
  }

  lemma ListedFrom(s: State, l: seq<Tx>, t: Tx)
    requires t in Observe(s, s.txs, l).txs
    ensures t in s.txs || t in Unobserved(l) || t in Errors(l)
  {
  }

  lemma LoadedFrom(l: seq<Tx>, t: Tx)
    requires !t.mined && (t in Clean(l) || t in Unobserved(Clean(l)) || t in Errors(Clean(l)))
    ensures exists y :: y in l && y.hash == t.hash && !y.mined
  {
    var kept := Keep((t: Tx) => !t.mined && !t.observed, Clean(l));
    var x := t;
    if t in Unobserved(Clean(l)) {
      var i :| 0 <= i < |kept| && Unobserved(Clean(l))[i] == t;
      x := kept[i];
      assert x in kept;
    }
    var j :| 0 <= j < |l| && Clean(l)[j] == x;
    assert l[j] in l && l[j].hash == t.hash && !l[j].mined;
  }

  /** A queue that is taken over by a switch is waited for. */
  lemma QueueIsWaited(w: World, a: Account, d: Tx)
    requires Inv(w) && d in w.s.dirty && !d.mined
    ensures IsWaitedFor(SwitchAccount(w.s, Some(a)), d.hash)
  {
    QueueErrorsMined(w);
    var s1 := w.s.(account := Some(a));
    var loaded := Loaded(s1);
    var queued := Observe(loaded.(dirty := []), w.s.txs, w.s.dirty);
    ObserveWaits(loaded.(dirty := []), w.s.txs, w.s.dirty, d);
    assert queued.batches[|loaded.batches|] in queued.batches;
    assert queued == Queued(loaded, s1) && IsWaitedFor(queued, d.hash);
    var settled := queued.(listening := Unmined(w.s.txs) != []);
    assert IsWaitedFor(settled, d.hash);
    ObserveKeepsWaits(settled, settled.txs, loaded.txs, d.hash);
  }

  lemma SwitchTends(w: World, account: Option<Account>, h: Hash)
    requires Inv(w) && w.s.account != account && CanSwitch(w, account)
    ensures Tended(SwitchAccount(w.s, account), h)
  {
    var s' := SwitchAccount(w.s, account);
    if t :| t in s'.txs && t.hash == h && !t.mined {
      var a := account.value;
      PendingFrom(w, a, t);
      var y :| (y in Stored(w.s, a) || y in w.s.dirty) && y.hash == t.hash && !y.mined;
      if y in Stored(w.s, a) {
        LoadedAreWaited(w.s, a, y);
        var b :| b in s'.batches && y.(observed := true) in b.waiting;
        assert y.(observed := true).hash == h;
      } else {
        QueueIsWaited(w, a, y);
      }
    }
  }

  /** A receipt that is not for the selected account is for none of its entries. */
  lemma ForeignReceipt(w: World, b: nat, i: nat, from: Account, block: nat, failed: bool, t: Tx)
    requires Inv(w) && Possible(w, ReceiptArrived(b, i, from, block, failed))
    requires w.s.account != Some(from) && t in w.s.txs
    ensures t.hash != w.s.batches[b].waiting[i].hash
  {
    var tx := w.s.batches[b].waiting[i];
    assert BatchOk(w.c, w.s, w.s.batches[b]) && tx in w.s.batches[b].waiting;
    ShownOk(w);
    assert Owned(w.c, w.s.account.value, t) && Owned(w.c, w.s.batches[b].owner, tx);
    if t.hash == tx.hash {
      OwnersApart(w.c, w.s.account.value, w.s.batches[b].owner, t, tx);
      assert false;
    }
  }

  lemma ReceiptTends(w: World, b: nat, i: nat, from: Account, block: nat, failed: bool, h: Hash)
    requires Inv(w) && Possible(w, ReceiptArrived(b, i, from, block, failed)) && Tended(w.s, h)
    ensures Tended(Receipt(w.s, b, i, from, block, failed), h)
  {
    var tx, s' := w.s.batches[b].waiting[i], Receipt(w.s, b, i, from, block, failed);
    if t :| t in s'.txs && t.hash == h && !t.mined {
      assert t in w.s.txs;
      if w.s.account == Some(from) {
        var newTx := tx.(mined := true, block := Some(block), observed := false, isError := failed);
        assert [newTx][0] == newTx;
        assert newTx.hash in Hashes([newTx]);
      } else {
        ForeignReceipt(w, b, i, from, block, failed, t);
      }
      SettleKeepsWaits(w.s, b, i, h);
      assert s'.batches == Settle(w.s, b, i).batches;
    }
  }

  /** A step leaves everything that is shown as pending waited for, unless its wait fails. */
  lemma StepTends(w: World, e: Event, h: Hash)
    requires Inv(w) && Possible(w, e) && Careful(w, e) && Tended(w.s, h)
    requires !(e.WaitFailed? && EndsWait(w.s, e, h))
    ensures Tended(Next(w, e).s, h)
  {
    var s' := Next(w, e).s;
    match e
    case Rendered => RenderingTends(w, h);
    case AccountSwitched(account) => SwitchTends(w, account, h);
    case ReceiptArrived(b, i, from, block, failed) => ReceiptTends(w, b, i, from, block, failed, h);
    case WaitFailed(b, i) =>
      if IsWaitedFor(w.s, h) {
        SettleKeepsWaits(w.s, b, i, h);
      }
    case WaitsOver(b) =>
      assert BatchOk(w.c, w.s, w.s.batches[b]);
      assert forall t :: t in s'.txs && !t.mined ==> t in w.s.txs;
      if IsWaitedFor(w.s, h) {
        WaitsStay(w.s, e, h);
      }
    case VaultEvent(hash, from, nonce, block) =>
      assert forall t :: t in s'.txs && !t.mined ==> t in w.s.txs;
      assert s'.batches == w.s.batches;
    case _ =>
      assert s'.batches == w.s.batches && s'.txs == w.s.txs;
  }

  /** The wait for this hash fails at some step of the run. */
  predicate FailsIn(w: World, es: seq<Event>, h: Hash)
    requires CanRun(w, es)
    decreases |es|
  {
    es != [] && ((es[0].WaitFailed? && EndsWait(w.s, es[0], h)) || FailsIn(Next(w, es[0]), es[1..], h))
  }

  lemma {:induction false} RunTends(w: World, es: seq<Event>, h: Hash)
    requires Inv(w) && CanRun(w, es) && CarefulRun(w, es) && Tended(w.s, h)
    ensures FailsIn(w, es, h) || Tended(Run(w, es).s, h)
    decreases |es|
  {
    if es != [] && !(es[0].WaitFailed? && EndsWait(w.s, es[0], h)) {
      StepTends(w, es[0], h);
      StepKeepsInv(w, es[0]);
      RunTends(Next(w, es[0]), es[1..], h);
    }
  }

  /**
   After every careful run each entry that is shown as pending is waited for, unless a wait for its hash has
   failed.
   */
  lemma PendingIsWaitedFor(w: World, es: seq<Event>, t: Tx)
    requires Initial(w) && CanRun(w, es) && CarefulRun(w, es)
    requires t in Run(w, es).s.txs && !t.mined
    ensures IsWaitedFor(Run(w, es).s, t.hash) || FailsIn(w, es, t.hash)
  {
    InitialInv(w);
    RunTends(w, es, t.hash);
  }
}
