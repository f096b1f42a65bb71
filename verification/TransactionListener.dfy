/** The component itself: the fields it changes, and its methods, each tied to a step of `TrackerModel`. */
module TransactionListenerComponent {
  import opened Common
  import opened TrackerModel

  class TransactionListener {
    var account: Option<Account>
    var transactions: seq<Tx>
    var dirtyTransactions: seq<Tx>
    var transactionHashesToDismiss: seq<Hash>
    var localStorage: map<Account, seq<Tx>>
    var batches: seq<Batch>
    var wsProvider: bool

    ghost function View(): State
      reads this
    {
      State(account, transactions, dirtyTransactions, transactionHashesToDismiss, localStorage, batches, wsProvider)
    }

    constructor (storage: map<Account, seq<Tx>>)
      ensures View() == State(None, [], [], [], storage, [], false)
    {
      account, transactions, dirtyTransactions, transactionHashesToDismiss := None, [], [], [];
      localStorage, batches, wsProvider := storage, [], false;
    }

    method StoreTransaction(hash: Hash, from: Account, nonce: nat, details: string)
      modifies this`dirtyTransactions
      ensures View() == Step(old(View()), Event.StoreTransaction(hash, from, nonce, details))
      ensures dirtyTransactions == old(dirtyTransactions) +
              [Tx(hash, Some(from), Some(nonce), details, false, false, false, None)]
    {
      dirtyTransactions := dirtyTransactions + [Submitted(hash, from, nonce, details)];
    }

    method StoreTransactionError(hash: Hash, details: string, block: nat)
      modifies this`dirtyTransactions
      ensures View() == Step(old(View()), StoreError(hash, details, block))
      ensures dirtyTransactions == old(dirtyTransactions) +
              [Tx(hash, None, None, details, true, true, false, Some(block))]
    {
      dirtyTransactions := dirtyTransactions + [Failed(hash, details, block)];
    }

    method Save(txs: seq<Tx>)
      modifies this`localStorage
      ensures localStorage == if account.Some? then old(localStorage)[account.value := txs] else old(localStorage)
    {
      if account.Some? {
        localStorage := localStorage[account.value := txs];
      }
    }

    /** `props` is the list the component was last rendered with. */
    method UpdateTransactions(props: seq<Tx>, txs: seq<Tx>)
      modifies this`transactions, this`localStorage
      ensures View() == Put(old(View()), Upsert(props, txs))
    {
      var newTransactions := Upsert(props, txs);
      transactions := newTransactions;
      Save(newTransactions);
    }

    method ClearStore()
      modifies this`transactions, this`dirtyTransactions, this`transactionHashesToDismiss
      ensures View() == old(View()).(txs := [], dirty := [], dismissed := [])
    {
      transactions, dirtyTransactions, transactionHashesToDismiss := [], [], [];
    }

    /** The synchronous part of observing: the waits are recorded, and their end is `FinishBatch`. */
    method ObserveTransactions(props: seq<Tx>, txs: seq<Tx>)
      modifies this`transactions, this`localStorage, this`batches
      ensures View() == Observe(old(View()), props, txs)
    {
      var nonMined := Unobserved(txs);
      var errorTx := Errors(txs);
      if |nonMined| > 0 {
        UpdateTransactions(props, nonMined);
        batches := batches + [Batch(account.GetOr(""), nonMined, errorTx)];
        return;
      }
      if |errorTx| > 0 {
        UpdateTransactions(props, errorTx);
      }
    }

    /** The store part of loading; the loaded entries are observed once the component is rendered with them. */
    method Load() returns (storageTransactions: seq<Tx>)
      requires account.Some?
      modifies this`transactions, this`dirtyTransactions, this`transactionHashesToDismiss
      ensures View() == Loaded(old(View())) && storageTransactions == transactions
    {
      ClearStore();
      var saved := if account.value in localStorage then localStorage[account.value] else [];
      storageTransactions := SetObserved(saved, false);
      transactions := storageTransactions;
    }

    method ConsumeQueues(props: seq<Tx>, dirty: seq<Tx>, dismiss: seq<Hash>)
      modifies this
      ensures View() == Queued(old(View()), old(View()).(txs := props, dirty := dirty, dismissed := dismiss))
    {
      if |dirty| > 0 {
        dirtyTransactions := [];
        ObserveTransactions(props, dirty);
      } else if |dismiss| > 0 {
        var newTransactions := Without(props, set h | h in dismiss);
        transactionHashesToDismiss := [];
        transactions := newTransactions;
        Save(newTransactions);
      }
    }

    method ComponentDidUpdate(switched: bool)
      modifies this
      ensures View() == DidUpdate(old(View()), switched)
    {
      if account.None? {
        transactions := [];
        return;
      }
      var props, dirty, dismiss := transactions, dirtyTransactions, transactionHashesToDismiss;
      var stored := [];
      if switched {
        stored := Load();
      }
      ConsumeQueues(props, dirty, dismiss);
      var nonMinedTx := Unmined(props);
      if |nonMinedTx| > 0 && !wsProvider {
        wsProvider := true;
      } else if |nonMinedTx| == 0 && wsProvider {
        wsProvider := false;
      }
      if switched {
        ObserveTransactions(transactions, stored);
      }
    }

    method ComponentDidMount()
      modifies this
      ensures View() == Mounted(old(View()))
    {
      if account.Some? {
        var stored := Load();
        ObserveTransactions(transactions, stored);
      }
    }

    method SelectAccount(selected: Option<Account>)
      modifies this
      ensures View() == SwitchAccount(old(View()), selected)
    {
      account := selected;
      ComponentDidUpdate(true);
    }

    /** The rest of observing one transaction, once its receipt is there. */
    method OnReceipt(batch: nat, index: nat, from: Account, block: nat, failed: bool)
      requires IsWait(View(), batch, index)
      modifies this
      ensures View() == Receipt(old(View()), batch, index, from, block, failed)
    {
      var tx := batches[batch].waiting[index];
      batches := batches[batch := batches[batch].(waiting := RemoveAt(batches[batch].waiting, index))];
      if account != Some(from) {
        return;
      }
      var newTx := tx.(mined := true, block := Some(block), observed := false, isError := failed);
      assert Hashes([newTx]) == {newTx.hash};
      UpdateTransactions(transactions, [newTx]);
    }

    method OnWaitFailed(batch: nat, index: nat)
      requires IsWait(View(), batch, index)
      modifies this`batches
      ensures View() == Settle(old(View()), batch, index)
    {
      batches := batches[batch := batches[batch].(waiting := RemoveAt(batches[batch].waiting, index))];
    }

    method FinishBatch(batch: nat)
      requires IsDone(View(), batch)
      modifies this
      ensures View() == BatchDone(old(View()), batch)
    {
      var errorTx := batches[batch].tail;
      batches := RemoveAt(batches, batch);
      if |errorTx| > 0 {
        UpdateTransactions(transactions, errorTx);
      }
    }

    method HandlePossibleReplacedTransaction(hash: Hash, from: Account, nonce: nat, block: nat)
      modifies this`transactions, this`localStorage
      ensures View() == ChainEvent(old(View()), hash, from, nonce, block)
    {
      if account != Some(from) {
        return;
      }
      var props := transactions;
      var matches := Replaced(props, nonce);
      ghost var before := View();
      for i := 0 to |matches|
        invariant account == before.account
        invariant i == 0 ==> View() == before
        invariant i > 0 ==>
                    var tx := matches[i - 1];
                    View() == Put(before, Without(props, {tx.hash}) + [Replacement(tx, hash, block)])
      {
        ReplaceEntry(props, matches[i], hash, block);
      }
    }

    /** What is done for each pending entry with the event's nonce. */
    method ReplaceEntry(props: seq<Tx>, tx: Tx, hash: Hash, block: nat)
      modifies this`transactions, this`localStorage
      ensures View() == Put(old(View()), Without(props, {tx.hash}) + [Replacement(tx, hash, block)])
    {
      var otherTransactions := Without(props, {tx.hash});
      var newTransactions := otherTransactions + [Replacement(tx, hash, block)];
      transactions := newTransactions;
      Save(newTransactions);
    }
  }
}
