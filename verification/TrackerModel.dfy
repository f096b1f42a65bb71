/**
 The transaction tracker as values: the shared store, what is persisted per account, the waits in
 flight, and one function per step of the component. `TransactionListener` runs these steps in place.
 */
module TrackerModel {
  import opened Common

  type Account = string
  type Hash = string

  /** `nonce` and `from` are missing on an entry that reports a failed submission. */
  datatype Tx = Tx(
    hash: Hash, from: Option<Account>, nonce: Option<nat>, details: string,
    mined: bool, isError: bool, observed: bool, block: Option<nat>)

  /**
   A group of waits started together, for the account selected then; `tail` holds the error entries
   that are shown when all waits are over.
   */
  datatype Batch = Batch(owner: Account, waiting: seq<Tx>, tail: seq<Tx>)

  datatype State = State(
    account: Option<Account>, txs: seq<Tx>, dirty: seq<Tx>, dismissed: seq<Hash>,
    storage: map<Account, seq<Tx>>, batches: seq<Batch>, listening: bool)

  // ----- Lists -----

  function Hashes(txs: seq<Tx>): set<Hash> {
    set t | t in txs :: t.hash
  }

  function Keep(p: Tx -> bool, txs: seq<Tx>): (r: seq<Tx>)
    ensures forall t :: t in r <==> t in txs && p(t)
  {
    if txs == [] then [] else (if p(txs[0]) then [txs[0]] else []) + Keep(p, txs[1..])
  }

  function Without(txs: seq<Tx>, hashes: set<Hash>): (r: seq<Tx>)
    ensures forall t :: t in r <==> t in txs && t.hash !in hashes
  {
    Keep((t: Tx) => t.hash !in hashes, txs)
  }

  /** Entries with a known hash are replaced; all given entries end up last. */
  function Upsert(list: seq<Tx>, txs: seq<Tx>): (r: seq<Tx>)
    ensures forall t :: t in r <==> t in txs || (t in list && t.hash !in Hashes(txs))
  {
    Without(list, Hashes(txs)) + txs
  }

  function SetObserved(txs: seq<Tx>, observed: bool): (r: seq<Tx>)
    ensures |r| == |txs| && forall i :: 0 <= i < |r| ==> r[i] == txs[i].(observed := observed)
  {
    seq(|txs|, i requires 0 <= i < |txs| => txs[i].(observed := observed))
  }

  /** The entries that are waited for from now on. */
  function Unobserved(txs: seq<Tx>): seq<Tx> {
    SetObserved(Keep((t: Tx) => !t.mined && !t.observed, txs), true)
  }

  function Errors(txs: seq<Tx>): seq<Tx> {
    Keep((t: Tx) => t.isError, txs)
  }

  function Unmined(txs: seq<Tx>): seq<Tx> {
    Keep((t: Tx) => !t.mined, txs)
  }

  // ----- Steps -----

  function ListOf(storage: map<Account, seq<Tx>>, a: Account): seq<Tx> {
    if a in storage then storage[a] else []
  }

  function Stored(s: State, a: Account): seq<Tx> {
    ListOf(s.storage, a)
  }

  /** Shows a list and saves it under the selected account. */
  function Put(s: State, list: seq<Tx>): State {
    if s.account.Some? then s.(txs := list, storage := s.storage[s.account.value := list]) else s.(txs := list)
  }

  /** Starts waiting for entries; `base` is the list that the component was last rendered with. */
  function Observe(s: State, base: seq<Tx>, txs: seq<Tx>): State {
    var unobserved, errors := Unobserved(txs), Errors(txs);
    if unobserved != [] then
      Put(s, Upsert(base, unobserved)).(batches := s.batches + [Batch(s.account.GetOr(""), unobserved, errors)])
    else if errors != [] then Put(s, Upsert(base, errors))
    else s
  }

  /** The store right after an account was selected, before its entries are observed. */
  function Loaded(s: State): State {
    s.(txs := SetObserved(Stored(s, s.account.GetOr("")), false), dirty := [], dismissed := [])
  }

  /** Takes over queued transactions, or else dismissals; `rendered` is what the component was last rendered with. */
  function Queued(s: State, rendered: State): State {
    if rendered.dirty != [] then Observe(s.(dirty := []), rendered.txs, rendered.dirty)
    else if rendered.dismissed != [] then
      Put(s.(dismissed := []), Without(rendered.txs, set h | h in rendered.dismissed))
    else s
  }

  /** `componentDidUpdate` on the store `s`, which is also what the component was last rendered with. */
  function DidUpdate(s: State, switched: bool): State {
    if s.account.None? then s.(txs := [])
    else
      var queued := Queued(if switched then Loaded(s) else s, s);
      var settled := queued.(listening := Unmined(s.txs) != []);
      if switched then Observe(settled, settled.txs, Loaded(s).txs) else settled
  }

  function SwitchAccount(s: State, account: Option<Account>): State {
    DidUpdate(s.(account := account), true)
  }

  /** `componentDidMount`: clearing and loading, without the queues and the listener. */
  function Mounted(s: State): State {
    if s.account.None? then s else Observe(Loaded(s), Loaded(s).txs, Loaded(s).txs)
  }

  function RemoveAt<T>(a: seq<T>, i: nat): seq<T>
    requires i < |a|
  {
    a[..i] + a[i + 1..]
  }

  predicate IsWait(s: State, batch: nat, index: nat) {
    batch < |s.batches| && index < |s.batches[batch].waiting|
  }

  /** The wait is over, whatever its outcome. */
  function Settle(s: State, batch: nat, index: nat): State
    requires IsWait(s, batch, index)
  {
    s.(batches := s.batches[batch := s.batches[batch].(waiting := RemoveAt(s.batches[batch].waiting, index))])
  }

  /** A receipt counts only while the account it belongs to is selected. */
  function Receipt(s: State, batch: nat, index: nat, from: Account, block: nat, failed: bool): State
    requires IsWait(s, batch, index)
  {
    var tx := s.batches[batch].waiting[index];
    var rest := Settle(s, batch, index);
    if s.account != Some(from) then rest
    else Put(rest, Upsert(s.txs, [tx.(mined := true, block := Some(block), observed := false, isError := failed)]))
  }

  predicate IsDone(s: State, batch: nat) {
    batch < |s.batches| && s.batches[batch].waiting == []
  }

  function BatchDone(s: State, batch: nat): State
    requires IsDone(s, batch)
  {
    var tail := s.batches[batch].tail;
    var rest := s.(batches := RemoveAt(s.batches, batch));
    if tail == [] then rest else Put(rest, Upsert(s.txs, tail))
  }

  /** The pending entries that an event with this nonce replaces. A zero nonce is taken for a missing one. */
  function Replaced(txs: seq<Tx>, nonce: nat): (r: seq<Tx>)
    ensures forall t :: t in r <==> t in txs && !t.mined && t.nonce == Some(nonce) && nonce != 0
  {
    Keep((t: Tx) => !t.mined && t.nonce == Some(nonce) && nonce != 0, txs)
  }

  function Replacement(tx: Tx, hash: Hash, block: nat): Tx {
    tx.(hash := hash, isError := false, mined := true, observed := false, block := Some(block))
  }

  /** Every match writes over the same rendered list, so the last one stands. */
  function ChainEvent(s: State, hash: Hash, from: Account, nonce: nat, block: nat): State {
    var matches := Replaced(s.txs, nonce);
    if s.account != Some(from) || matches == [] then s
    else
      var tx := matches[|matches| - 1];
      Put(s, Without(s.txs, {tx.hash}) + [Replacement(tx, hash, block)])
  }

  datatype Event =
    | StoreTransaction(hash: Hash, from: Account, nonce: nat, details: string)
    | StoreError(hash: Hash, details: string, block: nat)
    | RequestDismiss(hash: Hash)
    | Rendered
    | AccountSwitched(account: Option<Account>)
    | ReceiptArrived(batch: nat, index: nat, from: Account, block: nat, failed: bool)
    | WaitFailed(batch: nat, index: nat)
    | WaitsOver(batch: nat)
    | VaultEvent(hash: Hash, from: Account, nonce: nat, block: nat)

  function Submitted(hash: Hash, from: Account, nonce: nat, details: string): Tx {
    Tx(hash, Some(from), Some(nonce), details, false, false, false, None)
  }

  function Failed(hash: Hash, details: string, block: nat): Tx {
    Tx(hash, None, None, details, true, true, false, Some(block))
  }

  predicate Enabled(s: State, e: Event) {
    match e
    case ReceiptArrived(b, i, _, _, _) => IsWait(s, b, i)
    case WaitFailed(b, i) => IsWait(s, b, i)
    case WaitsOver(b) => IsDone(s, b)
    case _ => true
  }

  function Step(s: State, e: Event): State
    requires Enabled(s, e)
  {
    match e
    case StoreTransaction(hash, from, nonce, details) => s.(dirty := s.dirty + [Submitted(hash, from, nonce, details)])
    case StoreError(hash, details, block) => s.(dirty := s.dirty + [Failed(hash, details, block)])
    case RequestDismiss(hash) => s.(dismissed := [hash])
    case Rendered => DidUpdate(s, false)
    case AccountSwitched(account) => SwitchAccount(s, account)
    case ReceiptArrived(b, i, from, block, failed) => Receipt(s, b, i, from, block, failed)
    case WaitFailed(b, i) => Settle(s, b, i)
    case WaitsOver(b) => BatchDone(s, b)
    case VaultEvent(hash, from, nonce, block) => ChainEvent(s, hash, from, nonce, block)
  }
}
