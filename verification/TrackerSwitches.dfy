/** What selecting another account does to the list stored for it, and to the one that is left. */
module TrackerSwitches {
  import opened Common
  import opened TrackerModel
  import opened TrackerSafety

  /** Mounting with an account is selecting it in a store that was not used yet. */
  lemma MountIsSwitch(s: State)
    requires s.account.Some? && s.txs == [] && s.dirty == [] && s.dismissed == [] && !s.listening
    ensures Mounted(s) == DidUpdate(s, true)
  {
    assert Loaded(s).(listening := false) == Loaded(s);
  }

  // ----- The account that is left -----

  lemma ObserveElsewhere(s: State, base: seq<Tx>, txs: seq<Tx>, a: Account)
    requires s.account != Some(a)
    ensures var s' := Observe(s, base, txs); s'.account == s.account && Stored(s', a) == Stored(s, a)
  {
  }

  lemma LeavingKeepsStored(s: State, a: Account, other: Option<Account>)
    requires other != Some(a)
    ensures Stored(SwitchAccount(s, other), a) == Stored(s, a)
  {
    if other.Some? {
      var s1 := s.(account := other);
      var s2 := Loaded(s1);
      ObserveElsewhere(s2.(dirty := []), s.txs, s.dirty, a);
      var s3 := Queued(s2, s1);
      assert s3.account == other && Stored(s3, a) == Stored(s, a);
      var s4 := s3.(listening := Unmined(s.txs) != []);
      ObserveElsewhere(s4, s4.txs, s2.txs, a);
    }
  }

  lemma ObserveSelects(s: State, base: seq<Tx>, txs: seq<Tx>)
    ensures Observe(s, base, txs).account == s.account
  {
  }

  lemma SwitchSelects(s: State, account: Option<Account>)
    ensures SwitchAccount(s, account).account == account
  {
    if account.Some? {
      var s1 := s.(account := account);
      var loaded := Loaded(s1);
      ObserveSelects(loaded.(dirty := []), s.txs, s.dirty);
      var queued := Queued(loaded, s1);
      assert queued.account == account;
      var settled := queued.(listening := Unmined(s.txs) != []);
      ObserveSelects(settled, settled.txs, loaded.txs);
    }
  }

  // ----- Accounts keep apart -----

  /** The queue is new to what is stored for any account that is not selected. */
  lemma QueueApartFrom(w: World, a: Account)
    requires Inv(w) && w.s.account != Some(a)
    ensures forall x, d :: x in Stored(w.s, a) && d in w.s.dirty ==> x.hash != d.hash
  {
    var q := QueueOwner(w);
    forall x, d | x in Stored(w.s, a) && d in w.s.dirty
      ensures x.hash != d.hash
    {
      assert Owned(w.c, q, d) && Owned(w.c, a, x) && NewTo(d, ListOf(w.s.storage, q));
      if x.hash == d.hash {
        OwnersApart(w.c, q, a, d, x);
        assert false;
      }
    }
  }

  /** What is shown is new to what is stored for any other account. */
  lemma ShownApartFrom(w: World, a: Account, l: seq<Tx>)
    requires Inv(w) && w.s.account != Some(a) && forall d :: d in l ==> d in w.s.txs
    ensures w.s.account.Some? || l == []
    ensures w.s.account.Some? ==> forall d :: d in l ==> Owned(w.c, w.s.account.value, d)
    ensures forall x, d :: x in Stored(w.s, a) && d in l ==> x.hash != d.hash
  {
    assert l != [] ==> l[0] in l;
    if w.s.account.Some? {
      ShownOk(w);
      forall x, d | x in Stored(w.s, a) && d in l
        ensures x.hash != d.hash
      {
        assert Owned(w.c, w.s.account.value, d) && Owned(w.c, a, x);
        if x.hash == d.hash {
          OwnersApart(w.c, w.s.account.value, a, d, x);
          assert false;
        }
      }
    }
  }

  // ----- The account that is selected -----

  lemma {:induction false} KeepSame(p: Tx -> bool, q: Tx -> bool, l: seq<Tx>)
    requires forall t :: t in l ==> p(t) == q(t)
    ensures Keep(p, l) == Keep(q, l)
  {
    if l != [] {
      assert l[0] in l;
      KeepSame(p, q, l[1..]);
    }
  }

  /** Keeping some entries and keeping the others loses none. */
  lemma {:induction false} KeepSplits(q: Tx -> bool, l: seq<Tx>)
    ensures multiset(Clean(l)) == multiset(Clean(Keep((t: Tx) => !q(t), l))) + multiset(Clean(Keep(q, l)))
  {
    if l != [] {
      var x, rest := l[0], l[1..];
      var not := (t: Tx) => !q(t);
      KeepSplits(q, rest);
      assert l == [x] + rest;
      CleanCons(x, rest);
      if q(x) {
        assert Keep(q, l) == [x] + Keep(q, rest) && Keep(not, l) == Keep(not, rest);
        CleanCons(x, Keep(q, rest));
      } else {
        assert Keep(not, l) == [x] + Keep(not, rest) && Keep(q, l) == Keep(q, rest);
        CleanCons(x, Keep(not, rest));
      }
    }
  }

  lemma CleanCons(t: Tx, l: seq<Tx>)
    ensures multiset(Clean([t] + l)) == multiset{t.(observed := false)} + multiset(Clean(l))
  {
    var x, all := t.(observed := false), Clean([t] + l);
    assert all[0] == x;
    assert all[1..] == Clean(l);
    assert all == [x] + Clean(l);
  }

  /** In a list with distinct hashes, the hashes of the kept entries tell the kept entries. */
  lemma KeptByHash(l: seq<Tx>, q: Tx -> bool, txs: seq<Tx>, t: Tx)
    requires DistinctHashes(l) && Clean(txs) == Clean(Keep(q, l)) && t in l
    ensures t.hash in Hashes(txs) <==> q(t)
  {
    var moved := Keep(q, l);
    if q(t) {
      CleanMember(txs, moved, t);
    }
    if t.hash in Hashes(txs) {
      var x :| x in txs && x.hash == t.hash;
      CleanMember(moved, txs, x);
      var y :| y in moved && y.(observed := false) == x.(observed := false);
      SameHashSame(l, l, t, y);
    }
  }

  /** Moving some entries of a list to its end keeps all its entries. */
  lemma MovedToEnd(l: seq<Tx>, q: Tx -> bool, txs: seq<Tx>)
    requires DistinctHashes(l) && Clean(txs) == Clean(Keep(q, l))
    ensures multiset(Clean(Upsert(l, txs))) == multiset(Clean(l))
  {
    forall t | t in l
      ensures t.hash in Hashes(txs) <==> q(t)
    {
      KeptByHash(l, q, txs, t);
    }
    OthersKept(l, q, Hashes(txs));
    KeepSplits(q, l);
    CleanConcat(Keep((t: Tx) => !q(t), l), txs);
  }

  lemma OthersKept(l: seq<Tx>, q: Tx -> bool, hashes: set<Hash>)
    requires forall t :: t in l ==> (t.hash in hashes <==> q(t))
    ensures Without(l, hashes) == Keep((t: Tx) => !q(t), l)
  {
    KeepSame((t: Tx) => t.hash !in hashes, (t: Tx) => !q(t), l);
  }

  lemma CleanConcat(l: seq<Tx>, m: seq<Tx>)
    ensures Clean(l + m) == Clean(l) + Clean(m)
  {
  }

  /** Selecting an account with nothing queued keeps every entry stored for it, in memory and in storage. */
  lemma QuietSwitchKeeps(s: State, a: Account)
    requires s.dirty == [] && s.dismissed == [] && DistinctHashes(Stored(s, a))
    ensures var s' := SwitchAccount(s, Some(a));
            && multiset(Clean(s'.txs)) == multiset(Clean(Stored(s, a)))
            && multiset(Clean(Stored(s', a))) == multiset(Clean(Stored(s, a)))
  {
    var l := Clean(Stored(s, a));
    assert Clean(l) == l && DistinctHashes(l);
    var waits := (t: Tx) => !t.mined && !t.observed;
    assert Clean(Unobserved(l)) == Clean(Keep(waits, l));
    if Unobserved(l) != [] {
      MovedToEnd(l, waits, Unobserved(l));
    } else if Errors(l) != [] {
      MovedToEnd(l, (t: Tx) => t.isError, Errors(l));
    }
  }

  /** Selecting an account shows what is then stored for it. */
  lemma SelectedIsShown(s: State, a: Account)
    ensures var s' := SwitchAccount(s, Some(a)); Clean(s'.txs) == Clean(Stored(s', a))
  {
    var s1 := s.(account := Some(a));
    var loaded := Loaded(s1);
    assert Clean(loaded.txs) == Clean(Stored(loaded, a));
    ObserveShows(loaded.(dirty := []), s.txs, s.dirty, a);
    var queued := Queued(loaded, s1);
    assert queued.account == Some(a) && Clean(queued.txs) == Clean(Stored(queued, a));
    var settled := queued.(listening := Unmined(s.txs) != []);
    ObserveShows(settled, settled.txs, loaded.txs, a);
  }

  lemma ObserveShows(s: State, base: seq<Tx>, txs: seq<Tx>, a: Account)
    requires s.account == Some(a) && Clean(s.txs) == Clean(Stored(s, a))
    ensures var s' := Observe(s, base, txs); s'.account == s.account && Clean(s'.txs) == Clean(Stored(s', a))
  {
  }

  /**
   What selecting an account needs to keep what is stored for it: nothing queued and nothing to dismiss,
   or a dismissal that leaves nothing and entries that are all waited for again, or all shown as errors.
   */
  predicate KeepsStored(s: State, a: Account) {
    && s.dirty == []
    && (s.dismissed == [] || (Remaining(s) == [] && (AllPending(Stored(s, a)) || AllErrors(Stored(s, a)))))
  }

  predicate AllPending(l: seq<Tx>) {
    forall t :: t in l ==> !t.mined
  }

  predicate AllErrors(l: seq<Tx>) {
    forall t :: t in l ==> t.isError
  }

  /** The store after a switch that carries out a dismissal, before the loaded entries are observed. */
  function Dismissed(s: State, a: Account): State {
    var loaded := Loaded(s.(account := Some(a)));
    Put(loaded, Remaining(s)).(listening := Unmined(s.txs) != [])
  }

  lemma DismissedSwitch(s: State, a: Account)
    requires s.dirty == [] && s.dismissed != []
    ensures SwitchAccount(s, Some(a)) == Observe(Dismissed(s, a), Remaining(s), Clean(Stored(s, a)))
  {
  }

  lemma RemainingIsWritten(w: World, a: Account) returns (x: Tx)
    requires Inv(w) && w.s.account != Some(a) && w.s.dirty == [] && w.s.dismissed != [] && Remaining(w.s) != []
    ensures x in Stored(SwitchAccount(w.s, Some(a)), a)
    ensures w.s.account.Some? && Owned(w.c, w.s.account.value, x)
    ensures forall y :: y in Stored(w.s, a) ==> y.hash != x.hash
  {
    x := Remaining(w.s)[0];
    assert x in Remaining(w.s);
    ShownApartFrom(w, a, Remaining(w.s));
    DismissedSwitch(w.s, a);
    LoadedApart(Dismissed(w.s, a), Clean(Stored(w.s, a)), x, Stored(w.s, a));
  }

  lemma {:induction false} KeepFull(p: Tx -> bool, l: seq<Tx>)
    ensures |Keep(p, l)| <= |l|
    ensures |Keep(p, l)| == |l| <==> forall t :: t in l ==> p(t)
    ensures |Keep(p, l)| == |l| ==> Keep(p, l) == l
  {
    if l != [] {
      KeepFull(p, l[1..]);
      assert l[0] in l;
      assert forall t :: t in l[1..] ==> t in l;
      assert l == [l[0]] + l[1..];
    }
  }

  /** What is written when loaded entries are observed over an empty list: the pending ones, or else the errors. */
  function ObservedOf(l: seq<Tx>): seq<Tx> {
    if Unobserved(l) != [] then Unobserved(l) else Errors(l)
  }

  lemma ObservedAlone(s: State, a: Account, l: seq<Tx>)
    requires s.account == Some(a) && s.txs == [] && Stored(s, a) == []
    ensures Stored(Observe(s, [], l), a) == ObservedOf(l)
  {
    UpsertNothing(Unobserved(l));
    UpsertNothing(Errors(l));
  }

  lemma ObservedAll(l: seq<Tx>)
    requires Clean(l) == l && forall t :: t in l ==> t.isError ==> t.mined
    ensures multiset(Clean(ObservedOf(l))) == multiset(l) <==> AllPending(l) || AllErrors(l)
  {
    var waits, fails := (t: Tx) => !t.mined && !t.observed, (t: Tx) => t.isError;
    assert forall i :: 0 <= i < |l| ==> l[i] == Clean(l)[i] && !l[i].observed;
    KeepFull(waits, l);
    KeepFull(fails, l);
    assert Clean(Unobserved(l)) == Clean(Keep(waits, l));
    SameSize(Clean(ObservedOf(l)), l);
    if Unobserved(l) != [] {
      assert Keep(waits, l)[0] in Keep(waits, l);
    }
  }

  lemma UpsertNothing(txs: seq<Tx>)
    ensures Upsert([], txs) == txs
  {
  }

  lemma SameSize(l: seq<Tx>, m: seq<Tx>)
    ensures multiset(l) == multiset(m) ==> |l| == |m|
  {
    assert |multiset(l)| == |l| && |multiset(m)| == |m|;
  }

  lemma CleanShape(m: seq<Tx>)
    ensures AllPending(Clean(m)) <==> AllPending(m)
    ensures AllErrors(Clean(m)) <==> AllErrors(m)
    ensures (forall t :: t in m ==> t.isError ==> t.mined) ==> forall t :: t in Clean(m) ==> t.isError ==> t.mined
  {
    forall i | 0 <= i < |m|
      ensures Clean(m)[i] in Clean(m) && m[i] in m
    {
    }
  }

  /**
   Selecting an account keeps what is stored for it in exactly these cases. Otherwise the list of the
   account that was left, with what is queued or without what is dismissed, takes its place.
   */
  lemma SwitchKeepsExactly(w: World, a: Account)
    requires Inv(w) && w.s.account != Some(a)
    ensures var s' := SwitchAccount(w.s, Some(a));
            multiset(Clean(Stored(s', a))) == multiset(Clean(Stored(w.s, a))) <==> KeepsStored(w.s, a)
  {
    if w.s.dirty != [] {
      var d, x := QueuedIsWritten(w, a);
      ExtraEntry(Stored(SwitchAccount(w.s, Some(a)), a), Stored(w.s, a), x);
    } else if w.s.dismissed == [] {
      assert ListOk(w.c, a, Stored(w.s, a));
      QuietSwitchKeeps(w.s, a);
    } else if Remaining(w.s) != [] {
      var x := RemainingIsWritten(w, a);
      ExtraEntry(Stored(SwitchAccount(w.s, Some(a)), a), Stored(w.s, a), x);
    } else {
      AllDismissed(w, a);
    }
  }

  lemma AllDismissed(w: World, a: Account)
    requires Inv(w) && w.s.dirty == [] && w.s.dismissed != [] && Remaining(w.s) == []
    ensures var s' := SwitchAccount(w.s, Some(a));
            multiset(Clean(Stored(s', a))) == multiset(Clean(Stored(w.s, a))) <==>
            AllPending(Stored(w.s, a)) || AllErrors(Stored(w.s, a))
  {
    var l := Clean(Stored(w.s, a));
    assert ListOk(w.c, a, Stored(w.s, a));
    assert Clean(l) == l;
    DismissedSwitch(w.s, a);
    CleanShape(Stored(w.s, a));
    ObservedAlone(Dismissed(w.s, a), a, l);
    ObservedAll(l);
  }

  lemma ExtraEntry(l: seq<Tx>, m: seq<Tx>, x: Tx)
    requires x in l && forall y :: y in m ==> y.hash != x.hash
    ensures multiset(Clean(l)) != multiset(Clean(m))
  {
    var i :| 0 <= i < |l| && l[i] == x;
    var cleaned := Clean(l)[i];
    assert cleaned in multiset(Clean(l));
    forall j | 0 <= j < |m|
      ensures Clean(m)[j] != cleaned
    {
      assert m[j] in m;
    }
    assert cleaned !in multiset(Clean(m));
  }

  lemma QueuedIsWritten(w: World, a: Account) returns (d: Tx, x: Tx)
    requires Inv(w) && w.s.account != Some(a) && w.s.dirty != []
    ensures d in w.s.dirty && x in Stored(SwitchAccount(w.s, Some(a)), a) && x.hash == d.hash
    ensures forall y :: y in Stored(w.s, a) ==> y.hash != x.hash
  {
    var s := w.s.(account := Some(a));
    var loaded := Loaded(s);
    var queued := Observe(loaded.(dirty := []), s.txs, s.dirty);
    var q := QueueOwner(w);
    QueueApartFrom(w, a);
    d := QueuedIsShown(loaded.(dirty := []), s.txs, s.dirty);
    x :| x in queued.txs && x.hash == d.hash;
    assert queued == Queued(loaded, s);
    var settled := queued.(listening := Unmined(s.txs) != []);
    LoadedApart(settled, loaded.txs, x, Stored(s, a));
  }

  lemma QueuedIsShown(s: State, base: seq<Tx>, dirty: seq<Tx>) returns (d: Tx)
    requires s.account.Some? && dirty != []
    requires forall t :: t in dirty ==> (!t.mined && !t.observed) || t.isError
    ensures d in dirty && exists x :: x in Observe(s, base, dirty).txs && x.hash == d.hash
    ensures var s' := Observe(s, base, dirty); s'.account == s.account && Stored(s', s.account.value) == s'.txs
  {
    var waits := Keep((t: Tx) => !t.mined && !t.observed, dirty);
    d := dirty[0];
    if waits != [] {
      d := waits[0];
      assert d in waits;
      assert Unobserved(dirty)[0].hash == d.hash;
      assert Unobserved(dirty)[0] in Observe(s, base, dirty).txs;
    } else {
      assert d in dirty && d !in waits;
      assert d in Errors(dirty);
      assert d in Observe(s, base, dirty).txs;
    }
  }

  /** Observing a loaded list keeps an entry whose hash is not in it. */
  lemma LoadedApart(s: State, l: seq<Tx>, x: Tx, m: seq<Tx>)
    requires s.account.Some? && x in s.txs && Stored(s, s.account.value) == s.txs
    requires l == Clean(m) && forall y :: y in m ==> y.hash != x.hash
    ensures x in Stored(Observe(s, s.txs, l), s.account.value)
  {
    forall y | y in l
      ensures y.hash != x.hash
    {
      var i :| 0 <= i < |l| && l[i] == y;
      assert m[i] in m;
    }
    var kept := Keep((t: Tx) => !t.mined && !t.observed, l);
    forall y | y in Unobserved(l)
      ensures y.hash != x.hash
    {
      var i :| 0 <= i < |kept| && Unobserved(l)[i] == y;
      assert kept[i] in kept;
    }
  }

  /**
   A queue that waited while no account was selected takes the place of the list of whatever account is
   selected next, also of its own: it is written, and no mined transaction is left.
   */
  lemma QueueTakesOver(w: World, a: Account)
    requires Inv(w) && w.s.account == None && w.s.dirty != []
    ensures var l := Stored(SwitchAccount(w.s, Some(a)), a);
            && (exists d, x :: d in w.s.dirty && x in l && x.hash == d.hash)
            && forall t, x :: t in Stored(w.s, a) && t.mined && !t.isError && x in l ==> x.hash != t.hash
  {
    var d, x := QueuedIsWritten(w, a);
    var s := w.s.(account := Some(a));
    var loaded := Loaded(s);
    var q := QueueOwner(w);
    var queued := Observe(loaded.(dirty := []), [], s.dirty);
    QueueIsWritten(loaded.(dirty := []), loaded.(dirty := [], txs := [], storage := s.storage[a := []]), s.dirty, a);
    assert queued == Queued(loaded, s);
    var settled := queued.(listening := Unmined(s.txs) != []);
    assert ListOk(w.c, a, Stored(w.s, a));
    var l := Stored(Observe(settled, settled.txs, loaded.txs), a);
    forall t, x | t in Stored(w.s, a) && t.mined && !t.isError && x in l
      ensures x.hash != t.hash
    {
      assert Stored(settled, a) == settled.txs;
      if x in settled.txs {
        QueueShown(loaded.(dirty := [], txs := [], storage := s.storage[a := []]), s.dirty, x);
        QueueApartFrom(w, a);
      } else {
        AgainShown(Stored(w.s, a), x, t);
      }
    }
  }

  /** Of a loaded list only pending and error entries are shown again. */
  lemma AgainShown(l: seq<Tx>, x: Tx, t: Tx)
    requires DistinctHashes(l) && t in l && t.mined && !t.isError
    requires x in Unobserved(Clean(l)) || x in Errors(Clean(l))
    ensures x.hash != t.hash
  {
    var kept := Keep((t: Tx) => !t.mined && !t.observed, Clean(l));
    if x in Unobserved(Clean(l)) {
      var i :| 0 <= i < |kept| && Unobserved(Clean(l))[i] == x;
      assert kept[i] in kept;
      CleanedEntry(l, kept[i], t);
    } else {
      CleanedEntry(l, x, t);
    }
  }

  lemma CleanedEntry(l: seq<Tx>, y: Tx, t: Tx)
    requires DistinctHashes(l) && y in Clean(l) && t in l
    ensures y.hash == t.hash ==> y == t.(observed := false)
  {
    var i :| 0 <= i < |l| && Clean(l)[i] == y;
    assert l[i] in l;
    if y.hash == t.hash {
      SameHashSame(l, l, l[i], t);
    }
  }
}
