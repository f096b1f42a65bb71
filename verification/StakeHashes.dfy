/**
 The two-tier store that connects stakes read from the contract with the transactions that made
 them: hashes wait under duration and amount, and move to a store keyed also by the stake's end.
 */
module StakeHashes {
  import opened Common

  type Hash = string

  /** A storage key: `end` is missing from the keys under which stake hashes wait. */
  datatype Key = Key(duration: nat, amount: nat, end: Option<nat>)
  datatype Entry = Entry(amount: nat, duration: nat, hash: Option<Hash>, claimHash: Option<Hash>)
  type Store = map<Key, Entry>
  datatype Stores = Stores(temporary: Store, resilient: Store)

  datatype Stake = Stake(duration: nat, amount: nat, end: nat)
  datatype Decorated = Decorated(stake: Stake, hash: Option<Hash>, claimHash: Option<Hash>)

  function WaitingKey(stake: Stake): Key {
    Key(stake.duration, stake.amount, None)
  }

  /** The key of a stake in the resilient store, and of its claim in the temporary one. */
  function StakeKey(stake: Stake): Key {
    Key(stake.duration, stake.amount, Some(stake.end))
  }

  /** Adding a transaction; a missing or zero `end` is left out of the key. */
  function Added(s: Stores, hash: Hash, amount: nat, duration: nat, end: Option<nat>, isClaim: bool): Stores {
    var key := Key(duration, amount, if end == Some(0) then None else end);
    var entry := if key in s.temporary then s.temporary[key] else Entry(amount, duration, None, None);
    s.(temporary := s.temporary[key := if isClaim then entry.(claimHash := Some(hash)) else entry.(hash := Some(hash))])
  }

  function Remove(m: Store, k: Key): Store {
    map x | x in m && x != k :: m[x]
  }

  /** What one stake of the list does to the stores. */
  function DecorateOne(s: Stores, stake: Stake): Stores {
    var key := StakeKey(stake);
    if key in s.resilient then
      if key in s.temporary then
        Stores(Remove(s.temporary, key), s.resilient[key := s.resilient[key].(claimHash := s.temporary[key].claimHash)])
      else s
    else if WaitingKey(stake) in s.temporary then
      Stores(Remove(s.temporary, WaitingKey(stake)), s.resilient[key := s.temporary[WaitingKey(stake)]])
    else s
  }

  /** What is shown with a stake, taken from the stores before the stake changes them. */
  function Shown(s: Stores, stake: Stake): Decorated {
    var key := StakeKey(stake);
    if key in s.resilient then
      Decorated(stake, s.resilient[key].hash,
                if key in s.temporary then s.temporary[key].claimHash else s.resilient[key].claimHash)
    else if WaitingKey(stake) in s.temporary then Decorated(stake, s.temporary[WaitingKey(stake)].hash, None)
    else Decorated(stake, None, None)
  }

  function DecorateAll(s: Stores, stakes: seq<Stake>): Stores
    decreases |stakes|
  {
    if stakes == [] then s else DecorateAll(DecorateOne(s, stakes[0]), stakes[1..])
  }

  function ShownAll(s: Stores, stakes: seq<Stake>): seq<Decorated>
    decreases |stakes|
  {
    if stakes == [] then [] else [Shown(s, stakes[0])] + ShownAll(DecorateOne(s, stakes[0]), stakes[1..])
  }

  // ----- The module's variables -----

  /** The two module variables with their copies in local storage. A variable is `None` until it is first read. */
  class HashStorage {
    var temporaryHashStorage: Option<Store>
    var resilientHashStorage: Option<Store>
    var savedTemporary: Option<Store>
    var savedResilient: Option<Store>

    /** What has been read is what is saved. */
    ghost predicate Valid()
      reads this
    {
      && (temporaryHashStorage.Some? ==> temporaryHashStorage.value == savedTemporary.GetOr(map[]))
      && (resilientHashStorage.Some? ==> resilientHashStorage.value == savedResilient.GetOr(map[]))
    }

    ghost function Contents(): Stores
      reads this
    {
      Stores(savedTemporary.GetOr(map[]), savedResilient.GetOr(map[]))
    }

    /** A page load over what earlier visits saved. */
    constructor (savedTemporary: Option<Store>, savedResilient: Option<Store>)
      ensures Valid()
      ensures Contents() == Stores(savedTemporary.GetOr(map[]), savedResilient.GetOr(map[]))
    {
      this.savedTemporary, this.savedResilient := savedTemporary, savedResilient;
      temporaryHashStorage, resilientHashStorage := None, None;
    }

    method GetTempHashStorage() returns (m: Store)
      requires Valid()
      modifies this`temporaryHashStorage
      ensures Valid() && m == Contents().temporary
    {
      if temporaryHashStorage.None? {
        temporaryHashStorage := savedTemporary;
      }
      m := temporaryHashStorage.GetOr(map[]);
    }

    method GetResilientHashStorage() returns (m: Store)
      requires Valid()
      modifies this`resilientHashStorage
      ensures Valid() && m == Contents().resilient
    {
      if resilientHashStorage.None? {
        resilientHashStorage := savedResilient;
      }
      m := resilientHashStorage.GetOr(map[]);
    }

    method AddStakeTxHashToWaitingBuffer(hash: Hash, amount: nat, duration: nat, end: Option<nat>, isClaimHash: bool)
      requires Valid()
      modifies this
      ensures Valid()
      ensures Contents() == Added(old(Contents()), hash, amount, duration, end, isClaimHash)
    {
      var temporary := GetTempHashStorage();
      var key := Key(duration, amount, None);
      if end.Some? && end.value != 0 {
        key := Key(duration, amount, end);
      }
      var obj := Entry(amount, duration, None, None);
      if key in temporary {
        obj := temporary[key];
      }
      if isClaimHash {
        obj := obj.(claimHash := Some(hash));
      } else {
        obj := obj.(hash := Some(hash));
      }
      temporaryHashStorage := Some(temporary[key := obj]);
      savedTemporary := temporaryHashStorage;
    }

    method DecorateContractStakeInfoWithTxHashes(stakes: seq<Stake>) returns (decorated: seq<Decorated>)
      requires Valid()
      modifies this
      ensures Valid()
      ensures Contents() == DecorateAll(old(Contents()), stakes)
      ensures decorated == ShownAll(old(Contents()), stakes)
    {
      var temporary := GetTempHashStorage();
      var resilient := GetResilientHashStorage();
      temporary, resilient, decorated := MapStakes(temporary, resilient, stakes);
      temporaryHashStorage, resilientHashStorage := Some(temporary), Some(resilient);
      savedTemporary, savedResilient := temporaryHashStorage, resilientHashStorage;
    }
  }

  /** The mapping over the stakes, each of which finds the stores as the one before left them. */
  method MapStakes(temporaryStore: Store, resilientStore: Store, stakes: seq<Stake>)
    returns (temporary: Store, resilient: Store, decorated: seq<Decorated>)
    ensures Stores(temporary, resilient) == DecorateAll(Stores(temporaryStore, resilientStore), stakes)
    ensures decorated == ShownAll(Stores(temporaryStore, resilientStore), stakes)
  {
    temporary, resilient, decorated := temporaryStore, resilientStore, [];
    ghost var before := Stores(temporary, resilient);
    for i := 0 to |stakes|
      invariant DecorateAll(Stores(temporary, resilient), stakes[i..]) == DecorateAll(before, stakes)
      invariant decorated + ShownAll(Stores(temporary, resilient), stakes[i..]) == ShownAll(before, stakes)
    {
      assert stakes[i..][0] == stakes[i] && stakes[i..][1..] == stakes[i + 1..];
      ghost var now, rest := Stores(temporary, resilient), stakes[i + 1..];
      var one;
      temporary, resilient, one := DecorateStake(temporary, resilient, stakes[i]);
      assert decorated + ([one] + ShownAll(DecorateOne(now, stakes[i]), rest))
          == (decorated + [one]) + ShownAll(DecorateOne(now, stakes[i]), rest);
      decorated := decorated + [one];
    }
    assert decorated + [] == decorated;
  }

  /** What is mapped over the stakes. */
  method DecorateStake(temporaryStore: Store, resilientStore: Store, stake: Stake)
    returns (temporary: Store, resilient: Store, decorated: Decorated)
    ensures Stores(temporary, resilient) == DecorateOne(Stores(temporaryStore, resilientStore), stake)
    ensures decorated == Shown(Stores(temporaryStore, resilientStore), stake)
  {
    temporary, resilient := temporaryStore, resilientStore;
    var key, waiting := StakeKey(stake), WaitingKey(stake);
    var hash, claimHash: Option<Hash> := None, None;
    if key in resilient {
      var entry := resilient[key];
      hash, claimHash := entry.hash, entry.claimHash;
      if key in temporary {
        claimHash := temporary[key].claimHash;
        entry := entry.(claimHash := claimHash);
        temporary := Remove(temporary, key);
        resilient := resilient[key := entry];
      }
    } else if waiting in temporary {
      var entry := temporary[waiting];
      hash := entry.hash;
      temporary := Remove(temporary, waiting);
      resilient := resilient[key := entry];
    }
    decorated := Decorated(stake, hash, claimHash);
  }

  // ----- Hashes are kept -----

  datatype Op =
    | Add(hash: Hash, amount: nat, duration: nat, end: Option<nat>, isClaim: bool)
    | Decorate(stakes: seq<Stake>)

  function Apply(s: Stores, op: Op): Stores {
    match op
    case Add(hash, amount, duration, end, isClaim) => Added(s, hash, amount, duration, end, isClaim)
    case Decorate(stakes) => DecorateAll(s, stakes)
  }

  function Run(s: Stores, ops: seq<Op>): Stores
    decreases |ops|
  {
    if ops == [] then s else Run(Apply(s, ops[0]), ops[1..])
  }

  lemma {:induction false} DecorateAllKeeps(s: Stores, stakes: seq<Stake>, key: Key)
    requires key in s.resilient
    ensures key in DecorateAll(s, stakes).resilient
    ensures DecorateAll(s, stakes).resilient[key].hash == s.resilient[key].hash
    decreases |stakes|
  {
    if stakes != [] {
      DecorateAllKeeps(DecorateOne(s, stakes[0]), stakes[1..], key);
    }
  }

  /**
   A stake that was once given a transaction hash keeps exactly that hash over every run of adds and
   decorations.
   */
  lemma {:induction false} AssignedHashStays(s: Stores, ops: seq<Op>, key: Key)
    requires key in s.resilient
    ensures key in Run(s, ops).resilient && Run(s, ops).resilient[key].hash == s.resilient[key].hash
    decreases |ops|
  {
    if ops != [] {
      if ops[0].Decorate? {
        DecorateAllKeeps(s, ops[0].stakes, key);
      }
      AssignedHashStays(Apply(s, ops[0]), ops[1..], key);
    }
  }

  // ----- Conservation -----

  /** Where a store holds a stake hash. */
  function Holding(m: Store, h: Hash): set<Key> {
    set k | k in m && m[k].hash == Some(h)
  }

  /** How often a stake hash is held, in both stores together. */
  function Copies(s: Stores, h: Hash): nat {
    |Holding(s.temporary, h)| + |Holding(s.resilient, h)|
  }

  /** Whether decorating this stake discards a stake hash: one was added together with an `end`. */
  predicate Discards(s: Stores, stake: Stake) {
    StakeKey(stake) in s.resilient && StakeKey(stake) in s.temporary && s.temporary[StakeKey(stake)].hash.Some?
  }

  lemma HoldingAfterRemove(m: Store, k: Key, h: Hash)
    requires k in m
    ensures |Holding(Remove(m, k), h)| == |Holding(m, h)| - if m[k].hash == Some(h) then 1 else 0
  {
    assert Holding(Remove(m, k), h) == Holding(m, h) - {k};
    if m[k].hash == Some(h) {
      assert k in Holding(m, h);
    } else {
      assert Holding(m, h) - {k} == Holding(m, h);
    }
  }

  lemma HoldingAfterAdd(m: Store, k: Key, e: Entry, h: Hash)
    requires k in m ==> m[k].hash == e.hash
    ensures |Holding(m[k := e], h)| == |Holding(m, h)| + if k !in m && e.hash == Some(h) then 1 else 0
  {
    if k !in m && e.hash == Some(h) {
      assert Holding(m[k := e], h) == Holding(m, h) + {k};
    } else {
      assert Holding(m[k := e], h) == Holding(m, h);
    }
  }

  lemma DecorateOneCopies(s: Stores, stake: Stake, h: Hash)
    ensures Copies(DecorateOne(s, stake), h) ==
            Copies(s, h) - if Discards(s, stake) && s.temporary[StakeKey(stake)].hash == Some(h) then 1 else 0
  {
    var key, waiting := StakeKey(stake), WaitingKey(stake);
    if key in s.resilient {
      if key in s.temporary {
        HoldingAfterRemove(s.temporary, key, h);
        HoldingAfterAdd(s.resilient, key, s.resilient[key].(claimHash := s.temporary[key].claimHash), h);
      }
    } else if waiting in s.temporary {
      HoldingAfterRemove(s.temporary, waiting, h);
      HoldingAfterAdd(s.resilient, key, s.temporary[waiting], h);
    }
  }

  predicate NeverDiscards(s: Stores, stakes: seq<Stake>)
    decreases |stakes|
  {
    stakes == [] || (!Discards(s, stakes[0]) && NeverDiscards(DecorateOne(s, stakes[0]), stakes[1..]))
  }

  lemma {:induction false} CopiesNeverGrow(s: Stores, stakes: seq<Stake>, h: Hash)
    ensures Copies(DecorateAll(s, stakes), h) <= Copies(s, h)
    decreases |stakes|
  {
    if stakes != [] {
      DecorateOneCopies(s, stakes[0], h);
      CopiesNeverGrow(DecorateOne(s, stakes[0]), stakes[1..], h);
    }
  }

  lemma {:induction false} ConservedUnlessDiscarded(s: Stores, stakes: seq<Stake>)
    ensures (forall h :: Copies(DecorateAll(s, stakes), h) == Copies(s, h)) <==> NeverDiscards(s, stakes)
    decreases |stakes|
  {
    if stakes != [] {
      var s1 := DecorateOne(s, stakes[0]);
      ConservedUnlessDiscarded(s1, stakes[1..]);
      if Discards(s, stakes[0]) {
        var h := s.temporary[StakeKey(stakes[0])].hash.value;
        DecorateOneCopies(s, stakes[0], h);
        CopiesNeverGrow(s1, stakes[1..], h);
        assert Copies(DecorateAll(s, stakes), h) != Copies(s, h);
      } else {
        forall h
          ensures Copies(s1, h) == Copies(s, h)
        {
          DecorateOneCopies(s, stakes[0], h);
        }
        assert DecorateAll(s, stakes) == DecorateAll(s1, stakes[1..]);
        if NeverDiscards(s1, stakes[1..]) {
          assert forall h :: Copies(DecorateAll(s, stakes), h) == Copies(s, h);
        } else {
          var h :| Copies(DecorateAll(s1, stakes[1..]), h) != Copies(s1, h);
          assert Copies(DecorateAll(s, stakes), h) != Copies(s, h);
        }
      }
    }
  }

  // ----- What can be told before a decoration -----

  /** The stake at this place takes the hash that waits under its duration and amount. */
  predicate Takes(s: Stores, stakes: seq<Stake>, i: nat) {
    && i < |stakes| && WaitingKey(stakes[i]) in s.temporary && StakeKey(stakes[i]) !in s.resilient
    && forall j :: 0 <= j < i && WaitingKey(stakes[j]) == WaitingKey(stakes[i]) ==> StakeKey(stakes[j]) in s.resilient
  }

  /**
   The stake at this place makes the decoration lose a stake hash: one waits under a key with its end, and
   the stake is known already, or the same stake takes another hash earlier in the list.
   */
  predicate LosesAt(s: Stores, stakes: seq<Stake>, j: nat) {
    && j < |stakes| && StakeKey(stakes[j]) in s.temporary && s.temporary[StakeKey(stakes[j])].hash.Some?
    && (StakeKey(stakes[j]) in s.resilient || exists i :: 0 <= i < j && stakes[i] == stakes[j] && Takes(s, stakes, i))
  }

  lemma TakesNext(s: Stores, stakes: seq<Stake>, i: nat)
    requires 0 < i < |stakes| && stakes[i] != stakes[0]
    ensures Takes(s, stakes, i) <==> Takes(DecorateOne(s, stakes[0]), stakes[1..], i - 1)
  {
    var s1, rest := DecorateOne(s, stakes[0]), stakes[1..];
    assert StakeKey(stakes[i]) != StakeKey(stakes[0]);
    if Takes(s1, rest, i - 1) {
      forall j | 0 <= j < i && WaitingKey(stakes[j]) == WaitingKey(stakes[i])
        ensures StakeKey(stakes[j]) in s.resilient
      {
        assert j > 0 ==> stakes[j] == rest[j - 1];
      }
    }
    if Takes(s, stakes, i) {
      forall j | 0 <= j < i - 1 && WaitingKey(rest[j]) == WaitingKey(rest[i - 1])
        ensures StakeKey(rest[j]) in s1.resilient
      {
        assert rest[j] == stakes[j + 1];
      }
    }
  }

  lemma LosesFirst(s: Stores, stakes: seq<Stake>)
    requires stakes != []
    ensures LosesAt(s, stakes, 0) <==> Discards(s, stakes[0])
  {
  }

  lemma LosesNextSame(s: Stores, stakes: seq<Stake>, j: nat)
    requires 0 < j < |stakes| && !Discards(s, stakes[0]) && stakes[j] == stakes[0]
    ensures LosesAt(s, stakes, j) <==> LosesAt(DecorateOne(s, stakes[0]), stakes[1..], j - 1)
  {
    var s1, rest := DecorateOne(s, stakes[0]), stakes[1..];
    assert rest[j - 1] == stakes[j];
    assert LosesAt(s, stakes, j) ==> Takes(s, stakes, 0);
    if Takes(s, stakes, 0) {
      assert StakeKey(stakes[0]) in s1.resilient;
      assert s1.temporary == Remove(s.temporary, WaitingKey(stakes[0]));
    } else {
      assert forall i :: 0 <= i < j - 1 && rest[i] == stakes[j] ==> !Takes(s1, rest, i);
    }
  }

  lemma LosesNextOther(s: Stores, stakes: seq<Stake>, j: nat)
    requires 0 < j < |stakes| && stakes[j] != stakes[0]
    ensures LosesAt(s, stakes, j) <==> LosesAt(DecorateOne(s, stakes[0]), stakes[1..], j - 1)
  {
    var s1, rest := DecorateOne(s, stakes[0]), stakes[1..];
    assert StakeKey(stakes[j]) != StakeKey(stakes[0]) && rest[j - 1] == stakes[j];
    forall i | 0 < i < j && stakes[i] == stakes[j]
      ensures rest[i - 1] == stakes[j] && (Takes(s, stakes, i) <==> Takes(s1, rest, i - 1))
    {
      TakesNext(s, stakes, i);
    }
    if i :| 0 <= i < j - 1 && rest[i] == rest[j - 1] && Takes(s1, rest, i) {
      assert stakes[i + 1] == rest[i];
      assert Takes(s, stakes, i + 1);
    }
  }

  /** Whether a decoration discards a hash can be told from the stores and the stakes before it. */
  lemma {:induction false} NeverLoses(s: Stores, stakes: seq<Stake>)
    ensures NeverDiscards(s, stakes) <==> forall j :: 0 <= j < |stakes| ==> !LosesAt(s, stakes, j)
    decreases |stakes|
  {
    if stakes != [] {
      var s1, rest := DecorateOne(s, stakes[0]), stakes[1..];
      LosesFirst(s, stakes);
      if !Discards(s, stakes[0]) {
        NeverLoses(s1, rest);
        forall j | 0 < j < |stakes|
          ensures LosesAt(s, stakes, j) <==> LosesAt(s1, rest, j - 1)
        {
          if stakes[j] == stakes[0] {
            LosesNextSame(s, stakes, j);
          } else {
            LosesNextOther(s, stakes, j);
          }
        }
        assert forall j :: 0 <= j < |rest| ==> LosesAt(s1, rest, j) == LosesAt(s, stakes, j + 1);
      }
    }
  }

  /**
   A decoration neither loses nor duplicates a stake hash exactly when no stake of the list makes it lose
   one, which is told from the stores and the list before the decoration.
   */
  lemma HashesConserved(s: Stores, stakes: seq<Stake>)
    ensures (forall h :: Copies(DecorateAll(s, stakes), h) == Copies(s, h)) <==>
            forall j :: 0 <= j < |stakes| ==> !LosesAt(s, stakes, j)
  {
    ConservedUnlessDiscarded(s, stakes);
    NeverLoses(s, stakes);
  }

  /** When no stake is listed twice, only stakes that are known already can lose a hash. */
  lemma DistinctConserved(s: Stores, stakes: seq<Stake>)
    requires forall i, j :: 0 <= i < j < |stakes| ==> stakes[i] != stakes[j]
    ensures (forall h :: Copies(DecorateAll(s, stakes), h) == Copies(s, h)) <==>
            forall stake :: stake in stakes ==> !Discards(s, stake)
  {
    HashesConserved(s, stakes);
    forall j | 0 <= j < |stakes|
      ensures LosesAt(s, stakes, j) <==> Discards(s, stakes[j])
    {
    }
  }

  /** A hash that is added with an end, but not as a claim, is lost in the second decoration. */
  lemma EndLosesHash(stake: Stake, first: Hash, second: Hash)
    requires stake.end != 0 && first != second
    ensures var s := Added(Added(Stores(map[], map[]), first, stake.amount, stake.duration, None, false),
                           second, stake.amount, stake.duration, Some(stake.end), false);
            var once := DecorateAll(s, [stake]);
            Copies(once, second) == 1 && Copies(DecorateAll(once, [stake]), second) == 0
  {
    var waiting, key := WaitingKey(stake), StakeKey(stake);
    var e1 := Entry(stake.amount, stake.duration, Some(first), None);
    var e2 := Entry(stake.amount, stake.duration, Some(second), None);
    var s := Stores(map[waiting := e1, key := e2], map[]);
    var once, twice := DecorateOne(s, stake), DecorateOne(DecorateOne(s, stake), stake);
    assert once.temporary == map[key := e2] && once.resilient == map[key := e1];
    assert twice.temporary == map[] && twice.resilient == map[key := e1];
    assert Holding(once.temporary, second) == {key} && Holding(once.resilient, second) == {};
    assert Holding(twice.temporary, second) == {} && Holding(twice.resilient, second) == {};
    assert [stake][1..] == [];
  }

  /** Keys with an end hold claims only. */
  predicate ClaimsApart(s: Stores) {
    forall k :: k in s.temporary && k.end.Some? ==> s.temporary[k].hash.None?
  }

  /** An add gives an end only for a claim. */
  predicate Disciplined(op: Op) {
    op.Add? && op.end.Some? && op.end.value != 0 ==> op.isClaim
  }

  lemma {:induction false} DecorationKeepsApart(s: Stores, stakes: seq<Stake>)
    requires ClaimsApart(s)
    ensures ClaimsApart(DecorateAll(s, stakes)) && NeverDiscards(s, stakes)
    decreases |stakes|
  {
    if stakes != [] {
      DecorationKeepsApart(DecorateOne(s, stakes[0]), stakes[1..]);
    }
  }

  /** When adds give an end only for claims, every decoration of every run conserves every stake hash. */
  lemma {:induction false} RunConserves(s: Stores, ops: seq<Op>, stakes: seq<Stake>, h: Hash)
    requires ClaimsApart(s) && forall op :: op in ops ==> Disciplined(op)
    ensures Copies(DecorateAll(Run(s, ops), stakes), h) == Copies(Run(s, ops), h)
    decreases |ops|
  {
    if ops == [] {
      DecorationKeepsApart(s, stakes);
      ConservedUnlessDiscarded(s, stakes);
      assert Run(s, ops) == s;
    } else {
      if ops[0].Decorate? {
        DecorationKeepsApart(s, ops[0].stakes);
      } else {
        assert Disciplined(ops[0]);
      }
      RunConserves(Apply(s, ops[0]), ops[1..], stakes, h);
      assert Run(s, ops) == Run(Apply(s, ops[0]), ops[1..]);
    }
  }

  // ----- Two decorations settle -----

  /** A decoration would move no stake hash for this stake. */
  predicate StakeSettled(s: Stores, stake: Stake) {
    StakeKey(stake) in s.resilient || WaitingKey(stake) !in s.temporary
  }

  /** A decoration would change nothing for this stake. */
  predicate Settled(s: Stores, stake: Stake) {
    StakeSettled(s, stake) && (StakeKey(stake) in s.resilient ==> StakeKey(stake) !in s.temporary)
  }

  /**
   Decorating only shrinks what waits and only grows what is resilient; it makes no new resilient key
   for a stake without a waiting hash.
   */
  lemma {:induction false} DecorateMonotone(s: Stores, stakes: seq<Stake>)
    ensures DecorateAll(s, stakes).temporary.Keys <= s.temporary.Keys
    ensures s.resilient.Keys <= DecorateAll(s, stakes).resilient.Keys
    ensures forall k :: k in DecorateAll(s, stakes).resilient && k !in s.resilient ==>
              Key(k.duration, k.amount, None) in s.temporary
    decreases |stakes|
  {
    if stakes != [] {
      DecorateMonotone(DecorateOne(s, stakes[0]), stakes[1..]);
    }
  }

  lemma {:induction false} OnceSettlesStakes(s: Stores, stakes: seq<Stake>)
    ensures forall k :: k in stakes ==> StakeSettled(DecorateAll(s, stakes), k)
    decreases |stakes|
  {
    if stakes != [] {
      var s1 := DecorateOne(s, stakes[0]);
      OnceSettlesStakes(s1, stakes[1..]);
      DecorateMonotone(s1, stakes[1..]);
      assert StakeSettled(s1, stakes[0]);
    }
  }

  lemma {:induction false} TwiceSettles(s: Stores, stakes: seq<Stake>)
    requires forall k :: k in stakes ==> StakeSettled(s, k)
    ensures forall k :: k in stakes ==> Settled(DecorateAll(s, stakes), k)
    decreases |stakes|
  {
    if stakes != [] {
      var s1 := DecorateOne(s, stakes[0]);
      assert stakes[0] in stakes;
      forall k | k in stakes[1..]
        ensures StakeSettled(s1, k)
      {
        assert k in stakes;
      }
      TwiceSettles(s1, stakes[1..]);
      DecorateMonotone(s1, stakes[1..]);
    }
  }

  lemma {:induction false} SettledStays(s: Stores, stakes: seq<Stake>)
    requires forall k :: k in stakes ==> Settled(s, k)
    ensures DecorateAll(s, stakes) == s
    decreases |stakes|
  {
    if stakes != [] {
      assert stakes[0] in stakes;
      SettledStays(s, stakes[1..]);
    }
  }

  /**
   With the same stakes, what two decorations leave behind is changed by no further one; a claim may
   need the second.
   */
  lemma TwoDecorationsSettle(s: Stores, stakes: seq<Stake>)
    ensures var twice := DecorateAll(DecorateAll(s, stakes), stakes);
            DecorateAll(twice, stakes) == twice
  {
    OnceSettlesStakes(s, stakes);
    TwiceSettles(DecorateAll(s, stakes), stakes);
    SettledStays(DecorateAll(DecorateAll(s, stakes), stakes), stakes);
  }

  /** One decoration is not enough when the stake's hash and its claim wait together. */
  lemma OnceIsNotEnough(stake: Stake, h: Hash, claim: Hash)
    ensures var s := Added(Added(Stores(map[], map[]), h, stake.amount, stake.duration, None, false),
                           claim, stake.amount, stake.duration, Some(stake.end), true);
            var once := DecorateAll(s, [stake]);
            stake.end != 0 ==> DecorateAll(once, [stake]) != once
  {
    var s := Added(Added(Stores(map[], map[]), h, stake.amount, stake.duration, None, false),
                   claim, stake.amount, stake.duration, Some(stake.end), true);
    if stake.end != 0 {
      assert DecorateAll(s, [stake]) == DecorateOne(s, stake);
      var once := DecorateOne(s, stake);
      assert StakeKey(stake) in once.resilient && StakeKey(stake) in once.temporary;
      assert StakeKey(stake) !in DecorateOne(once, stake).temporary;
      assert DecorateAll(once, [stake]) == DecorateOne(once, stake);
    }
  }

  // ----- What is shown -----

  function Remembered(s: Stores, stake: Stake): Option<Hash> {
    if StakeKey(stake) in s.resilient then s.resilient[StakeKey(stake)].hash else None
  }

  /** Each stake is shown with the hash that the resilient store remembers for it after the decoration. */
  lemma {:induction false} ShownIsRemembered(s: Stores, stakes: seq<Stake>, i: nat)
    requires i < |stakes|
    ensures |ShownAll(s, stakes)| == |stakes|
    ensures ShownAll(s, stakes)[i].stake == stakes[i]
    ensures ShownAll(s, stakes)[i].hash == Remembered(DecorateAll(s, stakes), stakes[i])
    decreases |stakes|
  {
    var s1, rest := DecorateOne(s, stakes[0]), stakes[1..];
    if i > 0 {
      ShownIsRemembered(s1, rest, i - 1);
    } else {
      if rest != [] {
        ShownIsRemembered(s1, rest, 0);
      }
      DecorateMonotone(s1, rest);
      if StakeKey(stakes[0]) in s1.resilient {
        DecorateAllKeeps(s1, rest, StakeKey(stakes[0]));
      }
    }
  }

  /**
   A stake that was once shown with a hash is shown with it in every later decoration, whatever is
   added in between.
   */
  lemma ShownHashStays(s: Stores, before: seq<Stake>, i: nat, ops: seq<Op>, after: seq<Stake>, j: nat)
    requires i < |before| && j < |after| && before[i] == after[j]
    requires |ShownAll(s, before)| == |before| && ShownAll(s, before)[i].hash.Some?
    ensures var later := Run(DecorateAll(s, before), ops);
            |ShownAll(later, after)| == |after| && ShownAll(later, after)[j].hash == ShownAll(s, before)[i].hash
  {
    var key, decorated := StakeKey(before[i]), DecorateAll(s, before);
    ShownIsRemembered(s, before, i);
    AssignedHashStays(decorated, ops, key);
    var later := Run(decorated, ops);
    DecorateAllKeeps(later, after, key);
    ShownIsRemembered(later, after, j);
  }

  // ----- Which stake gets a hash -----

  /**
   A stake without a resilient entry is shown, at its first place in the list, with the hash that waits
   under its duration and amount exactly when it takes it; otherwise it is shown with none.
   */
  lemma {:induction false} AssignedExactly(s: Stores, stakes: seq<Stake>, i: nat)
    requires i < |stakes| && StakeKey(stakes[i]) !in s.resilient && forall j :: 0 <= j < i ==> stakes[j] != stakes[i]
    ensures |ShownAll(s, stakes)| == |stakes|
    ensures ShownAll(s, stakes)[i].hash ==
            if Takes(s, stakes, i) then s.temporary[WaitingKey(stakes[i])].hash else None
    decreases |stakes|
  {
    var s1, rest := DecorateOne(s, stakes[0]), stakes[1..];
    ShownLength(s1, rest);
    if i > 0 {
      assert stakes[0] != stakes[i];
      assert StakeKey(stakes[0]) != StakeKey(stakes[i]);
      forall j | 0 <= j < i - 1
        ensures rest[j] != rest[i - 1]
      {
        assert rest[j] == stakes[j + 1];
      }
      TakesNext(s, stakes, i);
      AssignedExactly(s1, rest, i - 1);
    }
  }

  lemma {:induction false} ShownLength(s: Stores, stakes: seq<Stake>)
    ensures |ShownAll(s, stakes)| == |stakes|
    decreases |stakes|
  {
    if stakes != [] {
      ShownLength(DecorateOne(s, stakes[0]), stakes[1..]);
    }
  }

  /** A second transaction of the same duration and amount, added before the next decoration, displaces the first. */
  lemma SecondAddDisplaces(s: Stores, first: Hash, second: Hash, amount: nat, duration: nat, end: Option<nat>)
    requires first != second
    ensures var once := Added(s, first, amount, duration, end, false);
            var twice := Added(once, second, amount, duration, end, false);
            Copies(twice, first) == Copies(once, first) - 1 && Copies(twice, second) == Copies(once, second) + 1
  {
    var once := Added(s, first, amount, duration, end, false);
    var twice := Added(once, second, amount, duration, end, false);
    var key := Key(duration, amount, if end == Some(0) then None else end);
    assert key in Holding(once.temporary, first) && key !in Holding(once.temporary, second);
    assert Holding(twice.temporary, first) == Holding(once.temporary, first) - {key};
    assert Holding(twice.temporary, second) == Holding(once.temporary, second) + {key};
  }
}
