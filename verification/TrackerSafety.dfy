/**
 What the steps of the tracker keep, given what the chain guarantees: a hash belongs to one sender and
 nonce, a sender's nonce is used by one mined transaction, and submissions are fresh. Two kinds of steps can
 mix up the lists of two accounts; `TrackerRuns.StepExactly` shows that they do exactly when not `Careful`.
 */
module TrackerSafety {
  import opened Common
  import opened TrackerModel

  type Slot = (Account, nat)

  /** Where a hash comes from: it was sent to the chain, or made up for a failed submission of an account. */
  datatype Origin = Sent(slot: Slot) | MadeUp(account: Account) {
    function Owner(): Account {
      match this
      case Sent(slot) => slot.0
      case MadeUp(a) => a
    }
  }

  /**
   The outside world so far: for every hash seen, where it comes from; for every slot, the hash
   submitted through the dapp and the hash that was mined.
   */
  datatype Chain = Chain(origin: map<Hash, Origin>, submitted: map<Slot, Hash>, mined: map<Slot, Hash>)

  datatype World = World(s: State, c: Chain)

  predicate Agrees<K(==), V(==)>(m: map<K, V>, k: K, v: V) {
    k in m ==> m[k] == v
  }

  /** The list that a waiting dismissal leaves of what is shown. */
  function Remaining(s: State): seq<Tx> {
    Without(s.txs, set h | h in s.dismissed)
  }

  /** The entries belong to this account. */
  predicate OwnedBy(c: Chain, a: Account, l: seq<Tx>) {
    forall t :: t in l ==> t.hash in c.origin && c.origin[t.hash].Owner() == a
  }

  /** What may happen next. */
  predicate Possible(w: World, e: Event) {
    && Enabled(w.s, e)
    && match e
       case StoreTransaction(hash, from, nonce, _) =>
         hash !in w.c.origin && w.s.account == Some(from) && (from, nonce) !in w.c.submitted
       case StoreError(hash, _, _) => hash !in w.c.origin && w.s.account.Some?
       case AccountSwitched(account) => account != w.s.account
       case ReceiptArrived(b, i, from, _, _) =>
         var tx := w.s.batches[b].waiting[i];
         tx.from == Some(from) && tx.nonce.Some? && Agrees(w.c.mined, (from, tx.nonce.value), tx.hash)
       case VaultEvent(hash, from, nonce, _) =>
         Agrees(w.c.origin, hash, Sent((from, nonce))) && Agrees(w.c.mined, (from, nonce), hash)
       case _ => true
  }

  /**
   Selecting this account writes nothing of another account under it: whatever is queued is its own, and a
   dismissal that is carried out by the switch leaves nothing of the list that was shown.
   */
  predicate CanSwitch(w: World, account: Option<Account>) {
    account.Some? ==>
      && OwnedBy(w.c, account.value, w.s.dirty)
      && (w.s.dirty != [] || w.s.dismissed == [] || Remaining(w.s) == [])
  }

  /** The error entries of this batch are shown only to the account they belong to. */
  predicate TailAtHome(s: State, batch: nat)
    requires batch < |s.batches|
  {
    s.batches[batch].tail == [] || s.account == Some(s.batches[batch].owner)
  }

  /** The step mixes up no lists. */
  predicate Careful(w: World, e: Event)
    requires Possible(w, e)
  {
    match e
    case AccountSwitched(account) => CanSwitch(w, account)
    case WaitsOver(b) => TailAtHome(w.s, b)
    case _ => true
  }

  /** What the step reveals about the world. */
  function Learn(w: World, e: Event): Chain
    requires Possible(w, e)
  {
    match e
    case StoreTransaction(hash, from, nonce, _) =>
      w.c.(origin := w.c.origin[hash := Sent((from, nonce))], submitted := w.c.submitted[(from, nonce) := hash])
    case StoreError(hash, _, _) => w.c.(origin := w.c.origin[hash := MadeUp(w.s.account.value)])
    case ReceiptArrived(b, i, from, _, _) =>
      var tx := w.s.batches[b].waiting[i];
      w.c.(mined := w.c.mined[(from, tx.nonce.value) := tx.hash])
    case VaultEvent(hash, from, nonce, _) =>
      w.c.(origin := w.c.origin[hash := Sent((from, nonce))], mined := w.c.mined[(from, nonce) := hash])
    case _ => w.c
  }

  function Next(w: World, e: Event): World
    requires Possible(w, e)
  {
    World(Step(w.s, e), Learn(w, e))
  }

  // ----- The invariant -----

  /** An entry of account `a` is what the chain says it is. */
  predicate Owned(c: Chain, a: Account, t: Tx) {
    && t.hash in c.origin
    && (t.isError ==> t.mined)
    && match t.nonce
       case None => c.origin[t.hash] == MadeUp(a) && t.isError
       case Some(n) =>
         && c.origin[t.hash] == Sent((a, n)) && (a, n) in c.submitted
         && (t.mined ==> (a, n) in c.mined && c.mined[(a, n)] == t.hash)
         && (!t.mined || t.isError ==> c.submitted[(a, n)] == t.hash)
         && (!t.mined ==> t.from == Some(a))
  }

  predicate DistinctHashes(l: seq<Tx>) {
    forall i, j :: 0 <= i < j < |l| ==> l[i].hash != l[j].hash
  }

  predicate SameNonce(x: Tx, y: Tx) {
    x.nonce.Some? && x.nonce == y.nonce
  }

  /** The list of an account: its own entries, with pairwise distinct hashes and no nonce twice. */
  predicate ListOk(c: Chain, a: Account, l: seq<Tx>) {
    && (forall t :: t in l ==> Owned(c, a, t))
    && DistinctHashes(l)
    && (forall x, y :: x in l && y in l && SameNonce(x, y) ==> x.hash == y.hash)
  }

  predicate StorageOk(c: Chain, storage: map<Account, seq<Tx>>) {
    forall a :: a in storage ==> ListOk(c, a, storage[a])
  }

  function Clean(l: seq<Tx>): (r: seq<Tx>)
    ensures |r| == |l|
  {
    SetObserved(l, false)
  }

  /** What is shown is what is stored for the selected account, up to the `observed` flag. */
  predicate Persisted(s: State) {
    match s.account
    case None => s.txs == []
    case Some(a) => Clean(s.txs) == Clean(Stored(s, a))
  }

  /** A queued entry is new to a list: neither its hash nor its nonce is there. */
  predicate NewTo(d: Tx, l: seq<Tx>) {
    forall x :: x in l ==> x.hash != d.hash && !SameNonce(x, d)
  }

  /** A queue of entries of account `q`, none of which is stored for it. */
  predicate QueueOf(c: Chain, dirty: seq<Tx>, storage: map<Account, seq<Tx>>, q: Account) {
    && ListOk(c, q, dirty)
    && forall d :: d in dirty ==> ((!d.mined && !d.observed) || d.isError) && NewTo(d, ListOf(storage, q))
  }

  /** The queue belongs to the selected account, or to the one that was selected last. */
  ghost predicate DirtyOk(c: Chain, s: State) {
    match s.account
    case Some(a) => QueueOf(c, s.dirty, s.storage, a)
    case None => exists q :: QueueOf(c, s.dirty, s.storage, q)
  }

  predicate BatchOk(c: Chain, s: State, b: Batch) {
    && (forall t :: t in b.waiting ==> Owned(c, b.owner, t) && !t.mined && t.hash !in Hashes(s.dirty))
    && (forall t :: t in b.tail ==> Owned(c, b.owner, t) && t.isError && t.hash !in Hashes(s.dirty))
    && DistinctHashes(b.tail)
  }

  predicate BatchesOk(c: Chain, s: State) {
    forall b :: b in s.batches ==> BatchOk(c, s, b)
  }

  ghost predicate Inv(w: World) {
    && StorageOk(w.c, w.s.storage) && Persisted(w.s)
    && DirtyOk(w.c, w.s) && BatchesOk(w.c, w.s)
  }

  // ----- Lists -----

  lemma {:induction false} KeepDistinct(p: Tx -> bool, l: seq<Tx>)
    requires DistinctHashes(l)
    ensures DistinctHashes(Keep(p, l))
  {
    if l != [] {
      KeepDistinct(p, l[1..]);
      forall t | t in Keep(p, l[1..])
        ensures t.hash != l[0].hash
      {
        var j :| 0 <= j < |l[1..]| && l[1..][j] == t;
        assert l[j + 1] == t;
      }
    }
  }

  lemma SameHashSame(l: seq<Tx>, m: seq<Tx>, x: Tx, y: Tx)
    requires x in l && y in m && x.hash == y.hash
    ensures l == m && DistinctHashes(l) ==> x == y
  {
    var i :| 0 <= i < |l| && l[i] == x;
    var j :| 0 <= j < |m| && m[j] == y;
    assert l == m && DistinctHashes(l) ==> i == j;
  }

  lemma WithoutDistinct(l: seq<Tx>, hashes: set<Hash>)
    requires DistinctHashes(l)
    ensures DistinctHashes(Without(l, hashes))
  {
    KeepDistinct((t: Tx) => t.hash !in hashes, l);
  }

  lemma UpsertDistinct(l: seq<Tx>, txs: seq<Tx>)
    requires DistinctHashes(l) && DistinctHashes(txs)
    ensures DistinctHashes(Upsert(l, txs))
  {
    var kept := Without(l, Hashes(txs));
    WithoutDistinct(l, Hashes(txs));
    forall i, j | 0 <= i < |kept| && 0 <= j < |txs|
      ensures kept[i].hash != txs[j].hash
    {
      assert kept[i] in kept && txs[j] in txs;
    }
  }

  /** New entries may join a list when they clash with no nonce of it. */
  lemma UpsertOk(c: Chain, a: Account, l: seq<Tx>, txs: seq<Tx>)
    requires ListOk(c, a, l) && ListOk(c, a, txs)
    requires forall x, t :: x in l && t in txs && SameNonce(x, t) ==> x.hash == t.hash
    ensures ListOk(c, a, Upsert(l, txs))
  {
    UpsertDistinct(l, txs);
  }

  lemma AppendOk(c: Chain, a: Account, l: seq<Tx>, t: Tx)
    requires ListOk(c, a, l) && Owned(c, a, t) && NewTo(t, l)
    ensures ListOk(c, a, l + [t])
  {
    forall i | 0 <= i < |l|
      ensures l[i].hash != t.hash
    {
      assert l[i] in l;
    }
  }

  lemma CleanMember(l: seq<Tx>, m: seq<Tx>, t: Tx)
    requires Clean(l) == Clean(m) && t in m
    ensures exists x :: x in l && x.(observed := false) == t.(observed := false)
  {
    var i :| 0 <= i < |m| && m[i] == t;
    assert Clean(l)[i] == Clean(m)[i];
    assert l[i] in l;
  }

  /** The invariant of a list does not depend on the `observed` flag. */
  lemma ObservedOk(c: Chain, a: Account, l: seq<Tx>, m: seq<Tx>)
    requires ListOk(c, a, l) && Clean(l) == Clean(m)
    ensures ListOk(c, a, m)
  {
    forall i | 0 <= i < |m|
      ensures m[i].(observed := false) == l[i].(observed := false)
    {
      assert Clean(l)[i] == Clean(m)[i];
    }
    forall x, y | x in m && y in m && SameNonce(x, y)
      ensures x.hash == y.hash
    {
      CleanMember(l, m, x);
      CleanMember(l, m, y);
    }
    forall t | t in m
      ensures Owned(c, a, t)
    {
      CleanMember(l, m, t);
    }
  }

  predicate Extends(c: Chain, d: Chain) {
    && (forall h :: h in c.origin ==> h in d.origin && d.origin[h] == c.origin[h])
    && (forall k :: k in c.submitted ==> k in d.submitted && d.submitted[k] == c.submitted[k])
    && (forall k :: k in c.mined ==> k in d.mined && d.mined[k] == c.mined[k])
  }

  lemma ListGrows(c: Chain, d: Chain, a: Account, l: seq<Tx>)
    requires Extends(c, d) && ListOk(c, a, l)
    ensures ListOk(d, a, l)
  {
    forall t | t in l
      ensures Owned(d, a, t)
    {
      assert Owned(c, a, t);
    }
  }

  lemma QueueOwner(w: World) returns (q: Account)
    requires Inv(w)
    ensures QueueOf(w.c, w.s.dirty, w.s.storage, q) && (w.s.account.Some? ==> q == w.s.account.value)
  {
    if w.s.account.Some? {
      q := w.s.account.value;
    } else {
      q :| QueueOf(w.c, w.s.dirty, w.s.storage, q);
    }
  }

  lemma InvGrows(w: World, d: Chain)
    requires Inv(w) && Extends(w.c, d)
    ensures Inv(w.(c := d))
  {
    forall a | a in w.s.storage
      ensures ListOk(d, a, w.s.storage[a])
    {
      ListGrows(w.c, d, a, w.s.storage[a]);
    }
    var q := QueueOwner(w);
    ListGrows(w.c, d, q, w.s.dirty);
    assert QueueOf(d, w.s.dirty, w.s.storage, q);
    forall b | b in w.s.batches
      ensures BatchOk(d, w.s, b)
    {
      assert BatchOk(w.c, w.s, b);
    }
  }

  lemma LearnExtends(w: World, e: Event)
    requires Possible(w, e)
    ensures Extends(w.c, Learn(w, e))
  {
  }

  /** The list shown for an account obeys the same rules as the stored one. */
  lemma ShownOk(w: World)
    requires Inv(w) && w.s.account.Some?
    ensures ListOk(w.c, w.s.account.value, w.s.txs)
  {
    var a := w.s.account.value;
    assert ListOk(w.c, a, Stored(w.s, a));
    ObservedOk(w.c, a, Stored(w.s, a), w.s.txs);
  }

  lemma ShownNew(s: State, d: Tx)
    requires s.account.Some? && Persisted(s) && NewTo(d, Stored(s, s.account.value))
    ensures NewTo(d, s.txs)
  {
    forall x | x in s.txs
      ensures x.hash != d.hash && !SameNonce(x, d)
    {
      CleanMember(Stored(s, s.account.value), s.txs, x);
    }
  }

  // ----- Every step -----

  /** Saving a good list keeps the invariant, when the queue is still new to it. */
  lemma PutKeeps(w: World, l: seq<Tx>)
    requires Inv(w) && w.s.account.Some? && ListOk(w.c, w.s.account.value, l)
    requires forall d :: d in w.s.dirty ==> NewTo(d, l)
    ensures Inv(w.(s := Put(w.s, l)))
  {
    var s' := Put(w.s, l);
    forall b | b in s'.batches
      ensures BatchOk(w.c, s', b)
    {
      assert BatchOk(w.c, w.s, b);
    }
  }

  lemma RestKeeps(w: World, batches: seq<Batch>)
    requires Inv(w) && forall b :: b in batches ==> BatchOk(w.c, w.s, b)
    ensures Inv(w.(s := w.s.(batches := batches)))
  {
    var s' := w.s.(batches := batches);
    forall b | b in batches
      ensures BatchOk(w.c, s', b)
    {
    }
  }

  lemma StoreKeeps(w: World, t: Tx, d: Chain)
    requires Inv(w) && w.s.account.Some? && t.hash !in w.c.origin && Extends(w.c, d)
    requires Owned(d, w.s.account.value, t) && ((!t.mined && !t.observed) || t.isError)
    requires t.nonce.Some? ==> (w.s.account.value, t.nonce.value) !in w.c.submitted
    ensures Inv(World(w.s.(dirty := w.s.dirty + [t]), d))
  {
    var a := w.s.account.value;
    var s' := w.s.(dirty := w.s.dirty + [t]);
    InvGrows(w, d);
    forall x | x in w.s.dirty || x in Stored(w.s, a)
      ensures x.hash != t.hash && !SameNonce(x, t)
    {
      assert Owned(w.c, a, x);
    }
    AppendOk(d, a, w.s.dirty, t);
    forall b | b in s'.batches
      ensures BatchOk(d, s', b)
    {
      QueueMore(w, d, t, b);
    }
  }

  lemma QueueMore(w: World, d: Chain, t: Tx, b: Batch)
    requires BatchOk(w.c, w.s, b) && BatchOk(d, w.s, b) && t.hash !in w.c.origin
    ensures BatchOk(d, w.s.(dirty := w.s.dirty + [t]), b)
  {
    assert forall x :: x in b.waiting || x in b.tail ==> x.hash in w.c.origin;
    assert Hashes(w.s.dirty + [t]) == Hashes(w.s.dirty) + {t.hash};
  }

  /** Observing entries of the selected account, with nothing queued. */
  lemma ObserveKeeps(w: World, txs: seq<Tx>)
    requires Inv(w) && w.s.account.Some? && w.s.dirty == []
    requires ListOk(w.c, w.s.account.value, txs)
    requires forall x, t :: x in w.s.txs && t in txs && SameNonce(x, t) ==> x.hash == t.hash
    ensures Inv(w.(s := Observe(w.s, w.s.txs, txs)))
  {
    var a := w.s.account.value;
    var unobserved, errors := Unobserved(txs), Errors(txs);
    UnobservedOk(w.c, a, txs);
    ErrorsOk(w.c, a, txs);
    if unobserved != [] {
      UnobservedClash(w.s.txs, txs);
      ShowKeeps(w, unobserved);
      var shown := w.(s := Put(w.s, Upsert(w.s.txs, unobserved)));
      AddBatchKeeps(shown, Batch(a, unobserved, errors));
    } else if errors != [] {
      ShowKeeps(w, errors);
    }
  }

  lemma UnobservedClash(l: seq<Tx>, txs: seq<Tx>)
    requires forall x, t :: x in l && t in txs && SameNonce(x, t) ==> x.hash == t.hash
    ensures forall x, t :: x in l && t in Unobserved(txs) && SameNonce(x, t) ==> x.hash == t.hash
  {
    var kept := Keep((t: Tx) => !t.mined && !t.observed, txs);
    forall x, t | x in l && t in Unobserved(txs) && SameNonce(x, t)
      ensures x.hash == t.hash
    {
      var i :| 0 <= i < |kept| && Unobserved(txs)[i] == t;
      assert kept[i] in kept && SameNonce(x, kept[i]);
    }
  }

  lemma ShowKeeps(w: World, txs: seq<Tx>)
    requires Inv(w) && w.s.account.Some? && w.s.dirty == []
    requires ListOk(w.c, w.s.account.value, txs)
    requires forall x, t :: x in w.s.txs && t in txs && SameNonce(x, t) ==> x.hash == t.hash
    ensures Inv(w.(s := Put(w.s, Upsert(w.s.txs, txs))))
  {
    ShownOk(w);
    UpsertOk(w.c, w.s.account.value, w.s.txs, txs);
    PutKeeps(w, Upsert(w.s.txs, txs));
  }

  lemma AddBatchKeeps(w: World, b: Batch)
    requires Inv(w) && w.s.dirty == [] && w.s.account == Some(b.owner)
    requires ListOk(w.c, b.owner, b.waiting) && forall t :: t in b.waiting ==> !t.mined
    requires ListOk(w.c, b.owner, b.tail) && forall t :: t in b.tail ==> t.isError
    ensures Inv(w.(s := w.s.(batches := w.s.batches + [b])))
  {
    assert BatchOk(w.c, w.s, b);
    RestKeeps(w, w.s.batches + [b]);
  }

  lemma ErrorsOk(c: Chain, a: Account, txs: seq<Tx>)
    requires ListOk(c, a, txs)
    ensures ListOk(c, a, Errors(txs))
  {
    KeepDistinct((t: Tx) => t.isError, txs);
  }

  lemma UnobservedOk(c: Chain, a: Account, txs: seq<Tx>)
    requires ListOk(c, a, txs)
    ensures ListOk(c, a, Unobserved(txs))
    ensures forall t :: t in Unobserved(txs) ==> !t.mined && exists x :: x in txs && x.(observed := true) == t
  {
    var kept := Keep((t: Tx) => !t.mined && !t.observed, txs);
    KeepDistinct((t: Tx) => !t.mined && !t.observed, txs);
    forall t | t in Unobserved(txs)
      ensures !t.mined && exists x :: x in kept && x.(observed := true) == t
    {
      var i :| 0 <= i < |kept| && Unobserved(txs)[i] == t;
      assert kept[i] in kept;
    }
  }

  lemma TakeOverKeeps(w: World)
    requires Inv(w) && w.s.account.Some?
    ensures Inv(w.(s := Observe(w.s.(dirty := []), w.s.txs, w.s.dirty)))
  {
    forall x, t | x in w.s.txs && t in w.s.dirty
      ensures !SameNonce(x, t)
    {
      ShownNew(w.s, t);
    }
    var w' := w.(s := w.s.(dirty := []));
    forall b | b in w.s.batches
      ensures BatchOk(w.c, w'.s, b)
    {
      assert BatchOk(w.c, w.s, b);
    }
    ObserveKeeps(w', w.s.dirty);
  }

  lemma DismissKeeps(w: World, gone: set<Hash>)
    requires Inv(w) && w.s.account.Some?
    ensures Inv(w.(s := Put(w.s, Without(w.s.txs, gone))))
  {
    ShownOk(w);
    WithoutDistinct(w.s.txs, gone);
    forall d | d in w.s.dirty
      ensures NewTo(d, Without(w.s.txs, gone))
    {
      ShownNew(w.s, d);
    }
    PutKeeps(w, Without(w.s.txs, gone));
  }

  /** The two fields that the invariant does not look at. */
  lemma FlagsKeep(w: World, dismissed: seq<Hash>, listening: bool)
    requires Inv(w)
    ensures Inv(w.(s := w.s.(dismissed := dismissed, listening := listening)))
  {
    var s' := w.s.(dismissed := dismissed, listening := listening);
    forall b | b in s'.batches
      ensures BatchOk(w.c, s', b)
    {
      assert BatchOk(w.c, w.s, b);
    }
  }

  lemma RenderedKeeps(w: World)
    requires Inv(w)
    ensures Inv(w.(s := DidUpdate(w.s, false)))
  {
    if w.s.account.Some? {
      var queued := Queued(w.s, w.s);
      if w.s.dirty != [] {
        TakeOverKeeps(w);
      } else if w.s.dismissed != [] {
        FlagsKeep(w, [], w.s.listening);
        DismissKeeps(w.(s := w.s.(dismissed := [])), set h | h in w.s.dismissed);
      }
      FlagsKeep(w.(s := queued), queued.dismissed, Unmined(w.s.txs) != []);
    }
  }

  /** No hash belongs to two accounts. */
  lemma OwnersApart(c: Chain, a: Account, b: Account, x: Tx, y: Tx)
    requires Owned(c, a, x) && Owned(c, b, y) && x.hash == y.hash
    ensures a == b
  {
    assert c.origin[x.hash].Owner() == a && c.origin[y.hash].Owner() == b;
  }

  lemma SwitchIsSafe(w: World, account: Option<Account>)
    requires Inv(w) && account != w.s.account && CanSwitch(w, account)
    ensures Inv(w.(s := SwitchAccount(w.s, account)))
  {
    var q := QueueOwner(w);
    if account.None? {
      assert QueueOf(w.c, w.s.dirty, w.s.storage, q);
      SameBatches(w, w.s.(account := None, txs := []));
    } else if w.s.dirty == [] {
      QuietSwitchIsSafe(w, account.value);
    } else {
      var d := w.s.dirty[0];
      assert d in w.s.dirty && Owned(w.c, q, d);
      OwnQueueIsSafe(w, account.value);
    }
  }

  /** The batches stay good when the queue shrinks. */
  lemma SameBatches(w: World, s': State)
    requires BatchesOk(w.c, w.s) && s'.batches == w.s.batches && (s'.dirty == w.s.dirty || s'.dirty == [])
    ensures BatchesOk(w.c, s')
  {
    forall b | b in s'.batches
      ensures BatchOk(w.c, s', b)
    {
      assert BatchOk(w.c, w.s, b);
    }
  }

  /** A switch with nothing queued. */
  lemma QuietSwitchIsSafe(w: World, a: Account)
    requires Inv(w) && w.s.dirty == [] && (w.s.dismissed == [] || Remaining(w.s) == [])
    ensures Inv(w.(s := SwitchAccount(w.s, Some(a))))
  {
    var s := w.s.(account := Some(a));
    var l := Clean(Stored(s, a));
    ObservedOk(w.c, a, Stored(s, a), l);
    assert Clean(l) == l;
    var settled := Queued(Loaded(s), s).(listening := Unmined(s.txs) != []);
    assert settled.txs == (if s.dismissed == [] then l else []);
    SameBatches(w, settled);
    assert Inv(w.(s := settled));
    ObserveKeeps(w.(s := settled), l);
  }

  /** Coming back to an account whose own queue waited while no account was selected. */
  lemma OwnQueueIsSafe(w: World, a: Account)
    requires Inv(w) && w.s.account == None && w.s.dirty != [] && QueueOf(w.c, w.s.dirty, w.s.storage, a)
    ensures Inv(w.(s := SwitchAccount(w.s, Some(a))))
  {
    var s := w.s.(account := Some(a));
    var l, loaded := Clean(Stored(s, a)), Loaded(s);
    var bare := loaded.(dirty := [], txs := [], storage := s.storage[a := []]);
    ObservedOk(w.c, a, Stored(s, a), l);
    SameBatches(w, bare);
    ObserveKeeps(w.(s := bare), w.s.dirty);
    QueueIsWritten(loaded.(dirty := []), bare, w.s.dirty, a);
    var queued := Observe(bare, [], w.s.dirty);
    var settled := queued.(listening := Unmined(s.txs) != []);
    FlagsKeep(w.(s := queued), queued.dismissed, settled.listening);
    forall x, t | x in settled.txs && t in l
      ensures !SameNonce(x, t)
    {
      assert Clean(l) == l;
      CleanMember(Stored(s, a), l, t);
      QueueShown(bare, w.s.dirty, x);
    }
    ObserveKeeps(w.(s := settled), l);
  }

  /** What is written from a queue does not depend on what was loaded. */
  lemma QueueIsWritten(s: State, bare: State, dirty: seq<Tx>, a: Account)
    requires s.account == Some(a) && bare == s.(txs := [], storage := s.storage[a := []])
    requires dirty != [] && forall d :: d in dirty ==> (!d.mined && !d.observed) || d.isError
    ensures Observe(s, [], dirty) == Observe(bare, [], dirty)
  {
    assert dirty[0] in dirty;
    assert Unobserved(dirty) == [] ==> dirty[0] in Errors(dirty) by {
      var kept := Keep((t: Tx) => !t.mined && !t.observed, dirty);
      assert |Unobserved(dirty)| == |kept|;
      assert dirty[0] in kept || dirty[0].isError;
    }
    forall l: seq<Tx>
      ensures Put(s, l) == Put(bare, l)
    {
      assert s.storage[a := l] == bare.storage[a := l];
    }
  }

  lemma QueueShown(bare: State, dirty: seq<Tx>, x: Tx)
    requires bare.txs == [] && x in Observe(bare, [], dirty).txs
    ensures exists d :: d in dirty && d.(observed := x.observed) == x
  {
    var kept := Keep((t: Tx) => !t.mined && !t.observed, dirty);
    if x in Unobserved(dirty) {
      var i :| 0 <= i < |kept| && Unobserved(dirty)[i] == x;
      assert kept[i] in kept && kept[i].(observed := x.observed) == x;
    } else {
      assert x in Errors(dirty);
      assert x.(observed := x.observed) == x;
    }
  }

  /** Nothing of another account is in a list that is all the account's own. */
  lemma ForeignEntry(c: Chain, a: Account, b: Account, l: seq<Tx>, x: Tx, d: Tx)
    requires Owned(c, a, d) && x in l && x.hash == d.hash && a != b
    ensures !OwnedBy(c, b, l)
  {
    assert c.origin[x.hash].Owner() == a;
  }

  lemma RemovedIsSubset<T>(a: seq<T>, i: nat)
    requires i < |a|
    ensures forall x :: x in RemoveAt(a, i) ==> x in a
  {
  }

  lemma SettleKeeps(w: World, b: nat, i: nat)
    requires Inv(w) && IsWait(w.s, b, i)
    ensures Inv(w.(s := Settle(w.s, b, i)))
  {
    RemovedIsSubset(w.s.batches[b].waiting, i);
    assert BatchOk(w.c, w.s, w.s.batches[b]);
    RestKeeps(w, Settle(w.s, b, i).batches);
  }

  /** The entry was submitted through the dapp, if it has a nonce. */
  predicate Submitter(c: Chain, a: Account, t: Tx) {
    t.nonce.Some? ==> (a, t.nonce.value) in c.submitted && c.submitted[(a, t.nonce.value)] == t.hash
  }

  /** An entry that the chain vouches for joins the selected account's list. */
  lemma JoinKeeps(w: World, txs: seq<Tx>)
    requires Inv(w) && w.s.account.Some? && DistinctHashes(txs)
    requires forall t :: t in txs ==> Owned(w.c, w.s.account.value, t) && t.mined && t.hash !in Hashes(w.s.dirty)
    requires forall t :: t in txs ==> Submitter(w.c, w.s.account.value, t)
    ensures Inv(w.(s := Put(w.s, Upsert(w.s.txs, txs))))
  {
    var a := w.s.account.value;
    ShownOk(w);
    forall x, t | (x in w.s.txs || x in txs) && t in txs && SameNonce(x, t)
      ensures x.hash == t.hash
    {
      assert Owned(w.c, a, x) && Owned(w.c, a, t);
    }
    UpsertOk(w.c, a, w.s.txs, txs);
    forall d | d in w.s.dirty
      ensures NewTo(d, Upsert(w.s.txs, txs))
    {
      ShownNew(w.s, d);
      QueueApart(w, d, txs);
    }
    PutKeeps(w, Upsert(w.s.txs, txs));
  }

  /** A queued submission holds its slot, so no vouched entry has its nonce. */
  lemma QueueApart(w: World, d: Tx, txs: seq<Tx>)
    requires Inv(w) && w.s.account.Some? && d in w.s.dirty
    requires forall t :: t in txs ==> Owned(w.c, w.s.account.value, t) && t.hash !in Hashes(w.s.dirty)
    requires forall t :: t in txs ==> Submitter(w.c, w.s.account.value, t)
    ensures NewTo(d, txs)
  {
    assert Owned(w.c, w.s.account.value, d);
    assert d.hash in Hashes(w.s.dirty);
  }

  lemma ReceiptKeeps(w: World, b: nat, i: nat, from: Account, block: nat, failed: bool)
    requires Inv(w) && Possible(w, ReceiptArrived(b, i, from, block, failed))
    ensures Inv(Next(w, ReceiptArrived(b, i, from, block, failed)))
  {
    var e := ReceiptArrived(b, i, from, block, failed);
    var tx := w.s.batches[b].waiting[i];
    var newTx := tx.(mined := true, block := Some(block), observed := false, isError := failed);
    var c' := Learn(w, e);
    assert BatchOk(w.c, w.s, w.s.batches[b]);
    assert tx in w.s.batches[b].waiting;
    LearnExtends(w, e);
    InvGrows(w, c');
    var w' := w.(c := c');
    SettleKeeps(w', b, i);
    if w.s.account == Some(from) {
      assert Owned(w.c, w.s.batches[b].owner, tx);
      assert [newTx][0] == newTx;
      JoinKeeps(w'.(s := Settle(w'.s, b, i)), [newTx]);
    }
  }

  lemma BatchDoneKeeps(w: World, b: nat)
    requires Inv(w) && IsDone(w.s, b) && TailAtHome(w.s, b)
    ensures Inv(w.(s := BatchDone(w.s, b)))
  {
    var batch := w.s.batches[b];
    var rest := RemoveAt(w.s.batches, b);
    assert BatchOk(w.c, w.s, batch);
    RemovedIsSubset(w.s.batches, b);
    RestKeeps(w, rest);
    if batch.tail != [] {
      forall t | t in batch.tail
        ensures Owned(w.c, batch.owner, t) && t.mined && Submitter(w.c, batch.owner, t)
      {
      }
      JoinKeeps(w.(s := w.s.(batches := rest)), batch.tail);
    }
  }

  /** The chain says that `hash` was sent from this slot and mined. */
  predicate MinedFrom(c: Chain, k: Slot, hash: Hash) {
    && hash in c.origin && c.origin[hash] == Sent(k)
    && k in c.mined && c.mined[k] == hash
  }

  lemma ReplacementListOk(c: Chain, a: Account, l: seq<Tx>, tx: Tx, newTx: Tx)
    requires ListOk(c, a, l) && tx in l && tx.nonce.Some? && newTx.nonce == tx.nonce
    requires newTx.mined && !newTx.isError && MinedFrom(c, (a, tx.nonce.value), newTx.hash)
    ensures ListOk(c, a, Without(l, {tx.hash}) + [newTx])
  {
    var kept := Without(l, {tx.hash});
    WithoutDistinct(l, {tx.hash});
    assert Owned(c, a, tx);
    forall x | x in kept
      ensures x.hash != newTx.hash && !SameNonce(x, newTx)
    {
      assert Owned(c, a, x);
      assert SameNonce(x, tx) ==> x.hash == tx.hash;
    }
    AppendOk(c, a, kept, newTx);
  }

  /** A replacement takes the place of the one pending entry that had its nonce. */
  lemma ReplacementKeeps(w: World, tx: Tx, hash: Hash, block: nat)
    requires Inv(w) && w.s.account.Some? && tx in w.s.txs && tx.nonce.Some?
    requires MinedFrom(w.c, (w.s.account.value, tx.nonce.value), hash)
    ensures Inv(w.(s := Put(w.s, Without(w.s.txs, {tx.hash}) + [Replacement(tx, hash, block)])))
  {
    var newTx := Replacement(tx, hash, block);
    ShownOk(w);
    ReplacementListOk(w.c, w.s.account.value, w.s.txs, tx, newTx);
    ReplacementApart(w, tx, newTx, Without(w.s.txs, {tx.hash}) + [newTx]);
    PutKeeps(w, Without(w.s.txs, {tx.hash}) + [newTx]);
  }

  lemma ReplacementApart(w: World, tx: Tx, newTx: Tx, l: seq<Tx>)
    requires Inv(w) && w.s.account.Some? && tx in w.s.txs && tx.nonce.Some? && newTx.nonce == tx.nonce
    requires newTx.hash in w.c.origin && w.c.origin[newTx.hash] == Sent((w.s.account.value, tx.nonce.value))
    requires forall x :: x in l ==> x in w.s.txs || x == newTx
    ensures forall d :: d in w.s.dirty ==> NewTo(d, l)
  {
    forall d | d in w.s.dirty
      ensures NewTo(d, l)
    {
      ShownNew(w.s, d);
      assert Owned(w.c, w.s.account.value, d);
      assert !SameNonce(tx, d);
    }
  }

  lemma VaultEventKeeps(w: World, hash: Hash, from: Account, nonce: nat, block: nat)
    requires Inv(w) && Possible(w, VaultEvent(hash, from, nonce, block))
    ensures Inv(Next(w, VaultEvent(hash, from, nonce, block)))
  {
    var e := VaultEvent(hash, from, nonce, block);
    var w' := w.(c := Learn(w, e));
    LearnExtends(w, e);
    InvGrows(w, w'.c);
    assert MinedFrom(w'.c, (from, nonce), hash);
    EventKeeps(w', hash, from, nonce, block);
  }

  lemma EventKeeps(w: World, hash: Hash, from: Account, nonce: nat, block: nat)
    requires Inv(w) && MinedFrom(w.c, (from, nonce), hash)
    ensures Inv(w.(s := ChainEvent(w.s, hash, from, nonce, block)))
  {
    var matches := Replaced(w.s.txs, nonce);
    if w.s.account == Some(from) && matches != [] {
      var tx := matches[|matches| - 1];
      assert tx in matches;
      ReplacementKeeps(w, tx, hash, block);
    }
  }

  /** Every step that mixes up no lists keeps the invariant. */
  lemma StepKeepsInv(w: World, e: Event)
    requires Inv(w) && Possible(w, e) && Careful(w, e)
    ensures Inv(Next(w, e))
  {
    LearnExtends(w, e);
    match e
    case StoreTransaction(hash, from, nonce, details) =>
      StoreKeeps(w, Submitted(hash, from, nonce, details), Learn(w, e));
    case StoreError(hash, details, block) =>
      StoreKeeps(w, Failed(hash, details, block), Learn(w, e));
    case RequestDismiss(hash) => FlagsKeep(w, [hash], w.s.listening);
    case Rendered => RenderedKeeps(w);
    case AccountSwitched(account) => SwitchIsSafe(w, account);
    case ReceiptArrived(b, i, from, block, failed) => ReceiptKeeps(w, b, i, from, block, failed);
    case WaitFailed(b, i) => SettleKeeps(w, b, i);
    case WaitsOver(b) => BatchDoneKeeps(w, b);
    case VaultEvent(hash, from, nonce, block) => VaultEventKeeps(w, hash, from, nonce, block);
  }
}
