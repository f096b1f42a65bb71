/**
 Runs in which the steps that are not `Careful`, or that switch accounts at the wrong time, lose or mix up what is
 stored. Each starts before an account is known and takes only steps that the world allows.
 */
module TrackerMixups {
  import opened Common
  import opened TrackerEffects
  import opened TrackerModel
  import opened TrackerRuns
  import opened TrackerSafety
  import opened TrackerSwitches

  /** The run is possible and ends there. */
  predicate Leads(w: World, es: seq<Event>, end: World) {
    CanRun(w, es) && Run(w, es) == end
  }

  lemma {:induction false} LeadsOn(w: World, es: seq<Event>, mid: World, e: Event)
    requires Leads(w, es, mid) && Possible(mid, e)
    ensures Leads(w, es + [e], Next(mid, e))
    ensures CarefulRun(w, es + [e]) <==> CarefulRun(w, es) && Careful(mid, e)
    decreases |es|
  {
    var all := es + [e];
    if es == [] {
      assert all == [e] && all[1..] == [];
      assert CanRun(Next(w, e), all[1..]);
    } else {
      assert all[0] == es[0] && all[1..] == es[1..] + [e];
      LeadsOn(Next(w, es[0]), es[1..], mid, e);
    }
  }

  lemma FirstStep(w: World, e: Event)
    requires Possible(w, e)
    ensures Leads(w, [e], Next(w, e)) && (CarefulRun(w, [e]) <==> Careful(w, e))
  {
    assert Leads(w, [], w) && [] + [e] == [e];
    LeadsOn(w, [], w, e);
  }

  // ----- Short lists -----

  lemma NothingBefore<T>(x: T)
    ensures [] + [x] == [x]
  {
  }

  lemma OneEntry(t: Tx)
    ensures Unobserved([t]) == if !t.mined && !t.observed then [t.(observed := true)] else []
    ensures Errors([t]) == if t.isError then [t] else []
  {
    KeepOne((t: Tx) => !t.mined && !t.observed, t);
    KeepOne((t: Tx) => t.isError, t);
  }

  lemma KeepTwo(p: Tx -> bool, x: Tx, y: Tx)
    ensures Keep(p, [x, y]) ==
            if p(x) && p(y) then [x, y] else if p(x) then [x] else if p(y) then [y] else []
  {
    assert [x, y][1..] == [y];
    KeepOne(p, y);
    assert [x] + [y] == [x, y];
  }

  lemma WithoutOne(t: Tx, hashes: set<Hash>)
    ensures Without([t], hashes) == if t.hash !in hashes then [t] else []
  {
    KeepOne((t: Tx) => t.hash !in hashes, t);
  }

  lemma WithoutTwo(x: Tx, y: Tx, hashes: set<Hash>)
    ensures Without([x, y], hashes) ==
            if x.hash !in hashes && y.hash !in hashes then [x, y]
            else if x.hash !in hashes then [x] else if y.hash !in hashes then [y] else []
  {
    KeepTwo((t: Tx) => t.hash !in hashes, x, y);
  }

  lemma HashOfOne(t: Tx)
    ensures Hashes([t]) == {t.hash}
  {
    assert [t][0] == t;
  }

  lemma UpsertOne(x: Tx, t: Tx)
    ensures Upsert([x], [t]) == if x.hash == t.hash then [t] else [x, t]
  {
    HashOfOne(t);
    WithoutOne(x, {t.hash});
  }

  lemma ReplacedTwo(x: Tx, y: Tx, nonce: nat)
    requires nonce != 0 && !x.mined && x.nonce == Some(nonce) && y.nonce == Some(nonce)
    ensures Replaced([x, y], nonce) == if y.mined then [x] else [x, y]
  {
    KeepTwo((t: Tx) => !t.mined && t.nonce == Some(nonce) && nonce != 0, x, y);
  }

  lemma UnminedOne(t: Tx)
    ensures Unmined([t]) == if t.mined then [] else [t]
  {
    KeepOne((t: Tx) => !t.mined, t);
  }

  // ----- Steps on short lists -----

  /** A loaded list in which nothing is waited for and nothing is shown again. */
  predicate IsQuiet(l: seq<Tx>) {
    Unobserved(Clean(l)) == [] && Errors(Clean(l)) == []
  }

  lemma QuietLists(t: Tx)
    ensures IsQuiet([]) && Clean([]) == [] && Unmined([]) == []
    ensures t.mined && !t.isError && !t.observed ==> IsQuiet([t]) && Clean([t]) == [t]
  {
    assert Clean([t]) == [t.(observed := false)];
    OneEntry(t.(observed := false));
  }

  lemma SelectQuiet(s: State, a: Account)
    requires s.dirty == [] && s.dismissed == [] && IsQuiet(Stored(s, a))
    ensures SwitchAccount(s, Some(a)) ==
            s.(account := Some(a), txs := Clean(Stored(s, a)), listening := Unmined(s.txs) != [])
  {
  }

  /** The list that a queued transaction joins. */
  predicate MayJoin(l: seq<Tx>, d: Tx) {
    !d.mined && !d.observed && !d.isError && (l == [] || (|l| == 1 && l[0].hash != d.hash))
  }

  lemma JoinOne(l: seq<Tx>, d: Tx)
    requires MayJoin(l, d)
    ensures Unobserved([d]) == [d.(observed := true)] && Errors([d]) == []
    ensures Upsert(l, [d.(observed := true)]) == l + [d.(observed := true)]
  {
    OneEntry(d);
    if l == [] {
      UpsertNothing([d.(observed := true)]);
    } else {
      assert l == [l[0]];
      UpsertOne(l[0], d.(observed := true));
    }
  }

  /** The store after a queued transaction joined the list that was shown, under the selected account. */
  function Joined(s: State, a: Account, d: Tx, listening: bool): State {
    var l := s.txs + [d.(observed := true)];
    State(Some(a), l, [], [], s.storage[a := l], s.batches + [Batch(a, [d.(observed := true)], [])], listening)
  }

  lemma SelectWithQueue(s: State, a: Account, d: Tx)
    requires s.dirty == [d] && MayJoin(s.txs, d) && IsQuiet(Stored(s, a))
    ensures SwitchAccount(s, Some(a)) == Joined(s, a, d, Unmined(s.txs) != [])
  {
    JoinOne(s.txs, d);
    var s1 := s.(account := Some(a));
    assert Queued(Loaded(s1), s1).(listening := Unmined(s.txs) != []) == Joined(s, a, d, Unmined(s.txs) != []);
  }

  lemma RenderWithQueue(s: State, a: Account, d: Tx)
    requires s.account == Some(a) && s.dirty == [d] && s.dismissed == [] && MayJoin(s.txs, d)
    ensures DidUpdate(s, false) == Joined(s, a, d, Unmined(s.txs) != [])
  {
    JoinOne(s.txs, d);
  }

  // ----- One hash twice -----

  /** The component at its first visit. */
  function FirstVisit(): World {
    World(State(None, [], [], [], map[], [], false), Chain(map[], map[], map[]))
  }

  /** A transaction of one account that is queued while the other is selected. */
  function MisplacedRun(a: Account, b: Account, h: Hash, n: nat): seq<Event> {
    [AccountSwitched(Some(a))] + [Event.StoreTransaction(h, a, n, "")] + [AccountSwitched(Some(b))]
  }

  function Misplaced(a: Account, b: Account, h: Hash, n: nat): World {
    var d := Submitted(h, a, n, "").(observed := true);
    World(State(Some(b), [d], [], [], map[b := [d]], [Batch(b, [d], [])], false),
          Chain(map[h := Sent((a, n))], map[(a, n) := h], map[]))
  }

  /** The transaction is queued, and its account still selected. */
  function QueuedOnly(a: Account, h: Hash, n: nat): World {
    World(State(Some(a), [], [Submitted(h, a, n, "")], [], map[], [], false),
          Chain(map[h := Sent((a, n))], map[(a, n) := h], map[]))
  }

  lemma QueuedLeads(a: Account, h: Hash, n: nat)
    ensures Leads(FirstVisit(), [AccountSwitched(Some(a))] + [Event.StoreTransaction(h, a, n, "")], QueuedOnly(a, h, n))
  {
    var w0, e1, e2 := FirstVisit(), AccountSwitched(Some(a)), Event.StoreTransaction(h, a, n, "");
    QuietLists(Submitted(h, a, n, ""));
    SelectQuiet(w0.s, a);
    var w1 := World(State(Some(a), [], [], [], map[], [], false), w0.c);
    assert Next(w0, e1) == w1;
    FirstStep(w0, e1);
    LeadsOn(w0, [e1], w1, e2);
    NothingBefore(Submitted(h, a, n, ""));
    assert Next(w1, e2) == QueuedOnly(a, h, n);
  }

  lemma MisplacedLeads(a: Account, b: Account, h: Hash, n: nat)
    requires a != b
    ensures Initial(FirstVisit()) && Leads(FirstVisit(), MisplacedRun(a, b, h, n), Misplaced(a, b, h, n))
  {
    var w0, w2, e3 := FirstVisit(), QueuedOnly(a, h, n), AccountSwitched(Some(b));
    QueuedLeads(a, h, n);
    QuietLists(Submitted(h, a, n, ""));
    SelectWithQueue(w2.s, b, Submitted(h, a, n, ""));
    NothingBefore(Submitted(h, a, n, "").(observed := true));
    NothingBefore(Batch(b, [Submitted(h, a, n, "").(observed := true)], []));
    assert Next(w2, e3) == Misplaced(a, b, h, n);
    LeadsOn(w0, [AccountSwitched(Some(a))] + [Event.StoreTransaction(h, a, n, "")], w2, e3);
  }

  /** Both entries are pending with the same nonce in the list of `b`. */
  function TwoPending(a: Account, b: Account, h: Hash, k: Hash, n: nat): State {
    var d, e := Submitted(h, a, n, "").(observed := true), Submitted(k, b, n, "").(observed := true);
    State(Some(b), [d, e], [], [], map[b := [d, e]], [Batch(b, [d], []), Batch(b, [e], [])], true)
  }

  lemma FirstEvent(s: State, b: Account, d: Tx, e: Tx, n: nat, block: nat)
    requires s.account == Some(b) && s.txs == [d, e] && n != 0 && d.hash != e.hash
    requires !d.mined && !e.mined && d.nonce == Some(n) && e.nonce == Some(n)
    ensures ChainEvent(s, e.hash, b, n, block) == Put(s, [d, Replacement(e, e.hash, block)])
  {
    ReplacedTwo(d, e, n);
    WithoutTwo(d, e, {e.hash});
    assert Without(s.txs, {e.hash}) == [d] && Replaced(s.txs, n) == [d, e];
    assert [d] + [Replacement(e, e.hash, block)] == [d, Replacement(e, e.hash, block)];
  }

  lemma SecondEvent(s: State, b: Account, d: Tx, m: Tx, n: nat, block: nat)
    requires s.account == Some(b) && s.txs == [d, m] && n != 0 && d.hash != m.hash
    requires !d.mined && m.mined && d.nonce == Some(n) && m.nonce == Some(n)
    ensures ChainEvent(s, m.hash, b, n, block) == Put(s, [m, Replacement(d, m.hash, block)])
  {
    ReplacedTwo(d, m, n);
    WithoutTwo(d, m, {d.hash});
    assert Without(s.txs, {d.hash}) == [m] && Replaced(s.txs, n) == [d];
    assert [m] + [Replacement(d, m.hash, block)] == [m, Replacement(d, m.hash, block)];
  }

  function BothPending(a: Account, b: Account, h: Hash, k: Hash, n: nat): World {
    World(TwoPending(a, b, h, k, n),
          Chain(map[h := Sent((a, n)), k := Sent((b, n))], map[(a, n) := h, (b, n) := k], map[]))
  }

  function PendingRun(a: Account, b: Account, h: Hash, k: Hash, n: nat): seq<Event> {
    MisplacedRun(a, b, h, n) + [Event.StoreTransaction(k, b, n, "")] + [Rendered]
  }

  lemma SecondQueued(a: Account, b: Account, h: Hash, k: Hash, n: nat)
    requires a != b && h != k
    ensures var w, submitted := Misplaced(a, b, h, n), Event.StoreTransaction(k, b, n, "");
            && Possible(w, submitted)
            && Next(w, submitted) == World(w.s.(dirty := [Submitted(k, b, n, "")]), BothPending(a, b, h, k, n).c)
  {
    NothingBefore(Submitted(k, b, n, ""));
  }

  lemma PendingLeads(a: Account, b: Account, h: Hash, k: Hash, n: nat)
    requires a != b && h != k
    ensures Initial(FirstVisit()) && Leads(FirstVisit(), PendingRun(a, b, h, k, n), BothPending(a, b, h, k, n))
  {
    var w0, es, w3 := FirstVisit(), MisplacedRun(a, b, h, n), Misplaced(a, b, h, n);
    var submitted := Event.StoreTransaction(k, b, n, "");
    var d, e := Submitted(h, a, n, "").(observed := true), Submitted(k, b, n, "");
    MisplacedLeads(a, b, h, n);
    var w4 := World(w3.s.(dirty := [e]), BothPending(a, b, h, k, n).c);
    SecondQueued(a, b, h, k, n);
    LeadsOn(w0, es, w3, submitted);
    LeadsOn(w0, es + [submitted], w4, Rendered);
    RenderWithQueue(w4.s, b, e);
    UnminedOne(d);
    assert w3.s.txs + [e.(observed := true)] == TwoPending(a, b, h, k, n).txs;
    assert w3.s.batches + [Batch(b, [e.(observed := true)], [])] == TwoPending(a, b, h, k, n).batches;
  }

  function DuplicateRun(a: Account, b: Account, h: Hash, k: Hash, n: nat, block: nat): seq<Event> {
    PendingRun(a, b, h, k, n) + [VaultEvent(k, b, n, block)] + [VaultEvent(k, b, n, block)]
  }

  /** Two events of one transaction leave its hash twice in a list that holds another account's entry with its nonce. */
  lemma DuplicateHash(a: Account, b: Account, h: Hash, k: Hash, n: nat, block: nat)
    requires a != b && h != k && n != 0
    ensures var es := DuplicateRun(a, b, h, k, n, block);
            && Initial(FirstVisit()) && CanRun(FirstVisit(), es)
            && var s := Run(FirstVisit(), es).s;
               |s.txs| == 2 && s.txs[0].hash == k && s.txs[1].hash == k && Stored(s, b) == s.txs
  {
    var w0, es, w5 := FirstVisit(), PendingRun(a, b, h, k, n), BothPending(a, b, h, k, n);
    var d, e := Submitted(h, a, n, "").(observed := true), Submitted(k, b, n, "").(observed := true);
    var event := VaultEvent(k, b, n, block);
    PendingLeads(a, b, h, k, n);
    var w6 := Next(w5, event);
    LeadsOn(w0, es, w5, event);
    FirstEvent(w5.s, b, d, e, n, block);
    LeadsOn(w0, es + [event], w6, event);
    SecondEvent(w6.s, b, d, Replacement(e, k, block), n, block);
  }

  // ----- Mined, and pending again -----

  lemma SelectPending(s: State, b: Account, d: Tx)
    requires s.dirty == [] && s.dismissed == [] && Stored(s, b) == [d] && !d.mined && d.observed && !d.isError
    ensures SwitchAccount(s, Some(b)) ==
            s.(account := Some(b), txs := [d], storage := s.storage[b := [d]],
               batches := s.batches + [Batch(b, [d], [])], listening := Unmined(s.txs) != [])
  {
    var l := [d.(observed := false)];
    assert Clean([d]) == l;
    OneEntry(l[0]);
    UpsertOne(l[0], d);
    assert Unobserved(l) == [d] && Upsert(l, [d]) == [d];
  }

  lemma ReceiptOfOne(s: State, a: Account, d: Tx, owner: Account, block: nat)
    requires s.account == Some(a) && s.txs == [] && s.batches == [Batch(owner, [d], [])]
    ensures Receipt(s, 0, 0, a, block, false) ==
            Put(s.(batches := [Batch(owner, [], [])]),
                [d.(mined := true, block := Some(block), observed := false, isError := false)])
  {
    UpsertNothing([d.(mined := true, block := Some(block), observed := false, isError := false)]);
    assert RemoveAt([d], 0) == [];
  }

  function ConfirmedRun(a: Account, b: Account, h: Hash, n: nat, block: nat): seq<Event> {
    MisplacedRun(a, b, h, n) + [AccountSwitched(Some(a))] + [ReceiptArrived(0, 0, a, block, false)]
  }

  /** The transaction is mined for `a`, and pending for `b`. */
  function Confirmed(a: Account, b: Account, h: Hash, n: nat, block: nat): World {
    var d := Submitted(h, a, n, "").(observed := true);
    var m := d.(mined := true, block := Some(block), observed := false);
    World(State(Some(a), [m], [], [], map[b := [d], a := [m]], [Batch(b, [], [])], true),
          Chain(map[h := Sent((a, n))], map[(a, n) := h], map[(a, n) := h]))
  }

  lemma ConfirmedLeads(a: Account, b: Account, h: Hash, n: nat, block: nat)
    requires a != b
    ensures Leads(FirstVisit(), ConfirmedRun(a, b, h, n, block), Confirmed(a, b, h, n, block))
  {
    var w0, w3, es := FirstVisit(), Misplaced(a, b, h, n), MisplacedRun(a, b, h, n);
    var d := Submitted(h, a, n, "").(observed := true);
    var e4, e5 := AccountSwitched(Some(a)), ReceiptArrived(0, 0, a, block, false);
    MisplacedLeads(a, b, h, n);
    LeadsOn(w0, es, w3, e4);
    var w4 := Next(w3, e4);
    QuietLists(d);
    SelectQuiet(w3.s, a);
    UnminedOne(d);
    assert w4.s == State(Some(a), [], [], [], map[b := [d]], [Batch(b, [d], [])], true);
    LeadsOn(w0, es + [e4], w4, e5);
    ReceiptOfOne(w4.s, a, d, b, block);
    assert Next(w4, e5) == Confirmed(a, b, h, n, block);
  }

  function PendingAgainRun(a: Account, b: Account, h: Hash, k: Hash, n: nat, block: nat): seq<Event> {
    ConfirmedRun(a, b, h, n, block) + [AccountSwitched(Some(b))] + [Event.StoreTransaction(k, b, n, "")]
    + [AccountSwitched(Some(a))]
  }

  /** A transaction that was stored as mined is stored as pending, for the same account, four steps later. */
  lemma PendingAgain(a: Account, b: Account, h: Hash, k: Hash, n: nat, block: nat)
    requires a != b && h != k
    ensures var before, after := ConfirmedRun(a, b, h, n, block), PendingAgainRun(a, b, h, k, n, block);
            && Initial(FirstVisit()) && CanRun(FirstVisit(), before) && CanRun(FirstVisit(), after)
            && (exists t :: t in Stored(Run(FirstVisit(), before).s, a) && t.hash == h && t.mined)
            && (exists t :: t in Stored(Run(FirstVisit(), after).s, a) && t.hash == h && !t.mined)
  {
    var w0, w5, es := FirstVisit(), Confirmed(a, b, h, n, block), ConfirmedRun(a, b, h, n, block);
    var d, e := Submitted(h, a, n, "").(observed := true), Submitted(k, b, n, "");
    var m := d.(mined := true, block := Some(block), observed := false);
    var e6, e7, e8 := AccountSwitched(Some(b)), Event.StoreTransaction(k, b, n, ""), AccountSwitched(Some(a));
    ConfirmedLeads(a, b, h, n, block);
    assert m in Stored(w5.s, a);
    LeadsOn(w0, es, w5, e6);
    var w6 := Next(w5, e6);
    SelectPending(w5.s, b, d);
    LeadsOn(w0, es + [e6], w6, e7);
    var w7 := Next(w6, e7);
    LeadsOn(w0, es + [e6] + [e7], w7, e8);
    assert w7.s.dirty == [e] && w7.s.txs == [d] && Stored(w7.s, a) == [m];
    QuietLists(m);
    SelectWithQueue(w7.s, a, e);
    assert Stored(Next(w7, e8).s, a) == [d] + [e.(observed := true)];
    assert ([d] + [e.(observed := true)])[0] == d;
  }

  // ----- Lists that are overwritten -----

  /** A mined transaction of one account is stored from an earlier visit. */
  function LaterVisit(b: Account, h: Hash, n: nat, block: nat): World {
    World(State(None, [], [], [], map[b := [EarlierTx(b, h, n, block)]], [], false),
          Chain(map[h := Sent((b, n))], map[(b, n) := h], map[(b, n) := h]))
  }

  function EarlierTx(b: Account, h: Hash, n: nat, block: nat): Tx {
    Tx(h, Some(b), Some(n), "", true, false, false, Some(block))
  }

  lemma LaterVisitIsInitial(b: Account, h: Hash, n: nat, block: nat)
    ensures Initial(LaterVisit(b, h, n, block)) && IsQuiet(Stored(LaterVisit(b, h, n, block).s, b))
    ensures Clean([EarlierTx(b, h, n, block)]) == [EarlierTx(b, h, n, block)]
  {
    QuietLists(EarlierTx(b, h, n, block));
  }

  /** A transaction that is queued during a switch takes the place of the list of the selected account. */
  lemma QueueOverwrites(a: Account, b: Account, h: Hash, k: Hash, n: nat, m: nat, block: nat)
    requires a != b && h != k
    ensures var w := LaterVisit(b, h, n, block);
            var es := [AccountSwitched(Some(a))] + [Event.StoreTransaction(k, a, m, "")] + [AccountSwitched(Some(b))];
            && Initial(w) && CanRun(w, es)
            && Stored(Run(w, es).s, b) == [Submitted(k, a, m, "").(observed := true)]
  {
    var w, d := LaterVisit(b, h, n, block), Submitted(k, a, m, "");
    var e1, e2, e3 := AccountSwitched(Some(a)), Event.StoreTransaction(k, a, m, ""), AccountSwitched(Some(b));
    LaterVisitIsInitial(b, h, n, block);
    FirstStep(w, e1);
    QuietLists(d);
    SelectQuiet(w.s, a);
    var w1 := Next(w, e1);
    LeadsOn(w, [e1], w1, e2);
    var w2 := Next(w1, e2);
    LeadsOn(w, [e1] + [e2], w2, e3);
    assert w2.s.dirty == [d] && w2.s.txs == [];
    SelectWithQueue(w2.s, b, d);
    NothingBefore(d.(observed := true));
  }

  /** A dismissal that waits during a switch clears the list of the selected account. */
  lemma DismissalClears(a: Account, b: Account, h: Hash, k: Hash, n: nat, block: nat)
    requires a != b
    ensures var w := LaterVisit(b, h, n, block);
            var es := [AccountSwitched(Some(a))] + [RequestDismiss(k)] + [AccountSwitched(Some(b))];
            Initial(w) && CanRun(w, es) && Stored(w.s, b) != [] && Stored(Run(w, es).s, b) == []
  {
    var w, t := LaterVisit(b, h, n, block), EarlierTx(b, h, n, block);
    var e1, e2, e3 := AccountSwitched(Some(a)), RequestDismiss(k), AccountSwitched(Some(b));
    LaterVisitIsInitial(b, h, n, block);
    FirstStep(w, e1);
    QuietLists(t);
    SelectQuiet(w.s, a);
    var w1 := Next(w, e1);
    LeadsOn(w, [e1], w1, e2);
    var w2 := Next(w1, e2);
    LeadsOn(w, [e1] + [e2], w2, e3);
    assert w2.s.txs == [] && w2.s.dismissed == [k] && Remaining(w2.s) == [];
    DismissedSwitch(w2.s, b);
  }

  /** A transaction is queued, and the account disconnects before it is taken over. */
  function DisconnectRun(a: Account, k: Hash, m: nat): seq<Event> {
    [AccountSwitched(Some(a))] + [Event.StoreTransaction(k, a, m, "")] + [AccountSwitched(None)]
  }

  function Disconnected(a: Account, h: Hash, k: Hash, n: nat, m: nat, block: nat): World {
    var w := LaterVisit(a, h, n, block);
    World(w.s.(dirty := [Submitted(k, a, m, "")]),
          w.c.(origin := w.c.origin[k := Sent((a, m))], submitted := w.c.submitted[(a, m) := k]))
  }

  lemma DisconnectLeads(a: Account, h: Hash, k: Hash, n: nat, m: nat, block: nat)
    requires h != k && n != m
    ensures var w := LaterVisit(a, h, n, block);
            && Leads(w, DisconnectRun(a, k, m), Disconnected(a, h, k, n, m, block))
            && CarefulRun(w, DisconnectRun(a, k, m))
  {
    var w := LaterVisit(a, h, n, block);
    var e1, e2, e3 := AccountSwitched(Some(a)), Event.StoreTransaction(k, a, m, ""), AccountSwitched(None);
    LaterVisitIsInitial(a, h, n, block);
    FirstStep(w, e1);
    QuietLists(EarlierTx(a, h, n, block));
    SelectQuiet(w.s, a);
    var w1 := Next(w, e1);
    assert w1 == w.(s := w.s.(account := Some(a), txs := [EarlierTx(a, h, n, block)]));
    LeadsOn(w, [e1], w1, e2);
    var w2 := Next(w1, e2);
    LeadsOn(w, [e1] + [e2], w2, e3);
    assert Next(w2, e3) == Disconnected(a, h, k, n, m, block);
  }

  /** A transaction that waits while no account is selected takes the place of the list of its own account. */
  lemma ReconnectOverwrites(a: Account, h: Hash, k: Hash, n: nat, m: nat, block: nat)
    requires h != k && n != m
    ensures var w, es := LaterVisit(a, h, n, block), DisconnectRun(a, k, m) + [AccountSwitched(Some(a))];
            && Initial(w) && CanRun(w, es) && CarefulRun(w, es)
            && Stored(Run(w, es).s, a) == [Submitted(k, a, m, "").(observed := true)]
  {
    var w, w3, d := LaterVisit(a, h, n, block), Disconnected(a, h, k, n, m, block), Submitted(k, a, m, "");
    LaterVisitIsInitial(a, h, n, block);
    DisconnectLeads(a, h, k, n, m, block);
    LeadsOn(w, DisconnectRun(a, k, m), w3, AccountSwitched(Some(a)));
    SelectWithQueue(w3.s, a, d);
    NothingBefore(d.(observed := true));
    assert [d][0] == d;
  }

  /** A failed submission waits behind a pending transaction. */
  function TailRun(a: Account, h: Hash, k: Hash, n: nat, block: nat): seq<Event> {
    [AccountSwitched(Some(a))] + [Event.StoreTransaction(h, a, n, "")] + [StoreError(k, "", block)] + [Rendered]
  }

  function WithTail(a: Account, h: Hash, k: Hash, n: nat, block: nat): World {
    var l := [Submitted(h, a, n, "").(observed := true)];
    World(State(Some(a), l, [], [], map[a := l], [Batch(a, l, [Failed(k, "", block)])], false),
          Chain(map[h := Sent((a, n)), k := MadeUp(a)], map[(a, n) := h], map[]))
  }

  lemma TailLeads(a: Account, h: Hash, k: Hash, n: nat, block: nat)
    requires h != k
    ensures Leads(FirstVisit(), TailRun(a, h, k, n, block), WithTail(a, h, k, n, block))
  {
    var w, d, f := FirstVisit(), Submitted(h, a, n, ""), Failed(k, "", block);
    var e1, e2, e3 := AccountSwitched(Some(a)), Event.StoreTransaction(h, a, n, ""), StoreError(k, "", block);
    FirstStep(w, e1);
    QuietLists(d);
    SelectQuiet(w.s, a);
    var w1 := Next(w, e1);
    LeadsOn(w, [e1], w1, e2);
    var w2 := Next(w1, e2);
    LeadsOn(w, [e1] + [e2], w2, e3);
    var w3 := Next(w2, e3);
    LeadsOn(w, [e1] + [e2] + [e3], w3, Rendered);
    assert w3.s == State(Some(a), [], [d, f], [], map[], [], false);
    RenderBoth(w3.s, a, d, f);
    assert Next(w3, Rendered) == WithTail(a, h, k, n, block);
  }

  /** Error entries that wait for their batch while another account is selected are stored for that account. */
  lemma TailMisplaced(a: Account, b: Account, h: Hash, k: Hash, n: nat, block: nat)
    requires a != b && h != k
    ensures var es := TailRun(a, h, k, n, block) + [AccountSwitched(Some(b))] + [WaitFailed(0, 0)] + [WaitsOver(0)];
            CanRun(FirstVisit(), es) && Stored(Run(FirstVisit(), es).s, b) == [Failed(k, "", block)]
  {
    var w, w4, es := FirstVisit(), WithTail(a, h, k, n, block), TailRun(a, h, k, n, block);
    var e5, e6, e7 := AccountSwitched(Some(b)), WaitFailed(0, 0), WaitsOver(0);
    var f := Failed(k, "", block);
    TailLeads(a, h, k, n, block);
    LeadsOn(w, es, w4, e5);
    QuietLists(f);
    SelectQuiet(w4.s, b);
    var w5 := Next(w4, e5);
    LeadsOn(w, es + [e5], w5, e6);
    var w6 := Next(w5, e6);
    SettleOne(w5.s);
    assert w6.s.batches == [Batch(a, [], [f])] && w6.s.txs == [] && w6.s.account == Some(b);
    LeadsOn(w, es + [e5] + [e6], w6, e7);
    UpsertNothing([f]);
  }

  lemma RenderBoth(s: State, a: Account, d: Tx, f: Tx)
    requires s == State(Some(a), [], [d, f], [], map[], [], false)
    requires !d.mined && !d.observed && !d.isError && f.mined && f.isError
    ensures var l := [d.(observed := true)];
            DidUpdate(s, false) == State(Some(a), l, [], [], map[a := l], [Batch(a, l, [f])], false)
  {
    ObserveBoth(s.(dirty := []), a, d, f);
  }

  lemma ObserveBoth(s: State, a: Account, d: Tx, f: Tx)
    requires s == State(Some(a), [], [], [], map[], [], false)
    requires !d.mined && !d.observed && !d.isError && f.mined && f.isError
    ensures var l := [d.(observed := true)];
            Observe(s, [], [d, f]) == s.(txs := l, storage := map[a := l], batches := [Batch(a, l, [f])])
  {
    var l := [d.(observed := true)];
    BothEntries(d, f);
    UpsertNothing(l);
    NothingBefore(Batch(a, l, [f]));
    assert map[][a := l] == map[a := l];
  }

  lemma BothEntries(d: Tx, f: Tx)
    requires !d.mined && !d.observed && !d.isError && f.mined && f.isError
    ensures Unobserved([d, f]) == [d.(observed := true)] && Errors([d, f]) == [f]
  {
    KeepTwo((t: Tx) => !t.mined && !t.observed, d, f);
    KeepTwo((t: Tx) => t.isError, d, f);
  }

  lemma SettleOne(s: State)
    requires |s.batches| == 1 && |s.batches[0].waiting| == 1
    ensures Settle(s, 0, 0) == s.(batches := [s.batches[0].(waiting := [])])
  {
    assert RemoveAt(s.batches[0].waiting, 0) == [];
    assert s.batches == [s.batches[0]];
  }
}
