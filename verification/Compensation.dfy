/** Reconciling the claims contract with the payout file: verify, upload what is wrong in batches, verify again. */
module Compensation {
  import opened Common

  type Address = string
  datatype Account = Account(address: Address, amount: nat)

  const BATCH_SIZE: nat := 100

  datatype Error = NoBatch

  // ----- Totals and batches -----

  function Total(accounts: seq<Account>): nat {
    if accounts == [] then 0 else accounts[0].amount + Total(accounts[1..])
  }

  lemma {:induction false} TotalConcat(a: seq<Account>, b: seq<Account>)
    ensures Total(a + b) == Total(a) + Total(b)
  {
    if a == [] {
      assert a + b == b;
    } else {
      assert (a + b)[1..] == a[1..] + b;
      TotalConcat(a[1..], b);
    }
  }

  method ComputeTotal(accounts: seq<Account>) returns (t: nat)
    ensures t == Total(accounts)
  {
    t := 0;
    for i := 0 to |accounts|
      invariant t == Total(accounts[..i])
    {
      assert accounts[..i + 1] == accounts[..i] + [accounts[i]];
      TotalConcat(accounts[..i], [accounts[i]]);
      t := t + accounts[i].amount;
    }
    assert accounts[..|accounts|] == accounts;
  }

  function Concat(batches: seq<seq<Account>>): seq<Account> {
    if batches == [] then [] else Concat(batches[..|batches| - 1]) + batches[|batches| - 1]
  }

  function Totals(batches: seq<seq<Account>>): nat {
    if batches == [] then 0 else Totals(batches[..|batches| - 1]) + Total(batches[|batches| - 1])
  }

  /** The totals that are reported per batch add up to the total of all accounts. */
  lemma {:induction false} BatchTotals(batches: seq<seq<Account>>)
    ensures Totals(batches) == Total(Concat(batches))
  {
    if batches != [] {
      BatchTotals(batches[..|batches| - 1]);
      TotalConcat(Concat(batches[..|batches| - 1]), batches[|batches| - 1]);
    }
  }

  /** Batches are joined in their order. */
  lemma {:induction false} ConcatJoins(a: seq<seq<Account>>, b: seq<seq<Account>>)
    ensures Concat(a + b) == Concat(a) + Concat(b)
    decreases |b|
  {
    if b == [] {
      assert a + b == a;
    } else {
      var all := a + b;
      assert all[..|all| - 1] == a + b[..|b| - 1] && all[|all| - 1] == b[|b| - 1];
      ConcatJoins(a, b[..|b| - 1]);
    }
  }

  /** A batch that stands alone is joined to itself, and an account alone has its own amount as its total. */
  lemma Alone(batch: seq<Account>, account: Account)
    ensures Concat([batch]) == batch && Total([account]) == account.amount
  {
    assert [batch][..0] == [] && [account][1..] == [];
  }

  /** All batches but the last are full, and none is empty or too large. */
  predicate WellBatched(batches: seq<seq<Account>>, size: nat) {
    && (forall i :: 0 <= i < |batches| ==> 1 <= |batches[i]| <= size)
    && (forall i :: 0 <= i < |batches| - 1 ==> |batches[i]| == size)
  }

  /** A zero batch size never starts a batch, and pushing to none throws. */
  method SplitIntoBatches(accounts: seq<Account>, batchSize: nat) returns (r: Result<seq<seq<Account>>, Error>)
    ensures r.Err? <==> batchSize == 0 && accounts != []
    ensures r.Ok? ==> Concat(r.value) == accounts && WellBatched(r.value, batchSize)
  {
    var batches: seq<seq<Account>> := [];
    var batch: Option<seq<Account>> := None;
    for i := 0 to |accounts|
      invariant batchSize == 0 ==> i == 0
      invariant batch.None? <==> i == 0
      invariant batch.None? ==> batches == []
      invariant batch.Some? ==> 1 <= |batch.value| <= batchSize
      invariant batchSize > 0 && i > 0 ==> i == |batches| * batchSize + |batch.value|
      invariant Concat(batches) + batch.GetOr([]) == accounts[..i]
      invariant forall k :: 0 <= k < |batches| ==> |batches[k]| == batchSize
    {
      ghost var done := batches;
      if batchSize > 0 {
        NextBatch(i, |batches|, |batch.GetOr([])|, batchSize);
        if i % batchSize == 0 {
          if batch.Some? {
            batches := batches + [batch.value];
            assert batches[..|done|] == done;
          }
          batch := Some([]);
        }
      }
      if batch.None? {
        return Err(NoBatch);
      }
      assert accounts[..i + 1] == accounts[..i] + [accounts[i]];
      batch := Some(batch.value + [accounts[i]]);
    }
    if batch.Some? {
      ghost var done := batches;
      batches := batches + [batch.value];
      assert batches[..|done|] == done;
    }
    assert accounts[..|accounts|] == accounts;
    r := Ok(batches);
  }

  /** The position is a multiple of the batch size exactly when the current batch is full or none has begun. */
  lemma NextBatch(i: nat, full: nat, current: nat, size: nat)
    requires size > 0 && current <= size && i == full * size + current
    ensures i % size == 0 <==> current == 0 || current == size
    ensures current == size ==> i == (full + 1) * size
  {
    if current == size {
      assert i == (full + 1) * size;
      Multiple(full + 1, size, 0);
    } else {
      Multiple(full, size, current);
    }
  }

  lemma Multiple(q: nat, size: nat, m: nat)
    requires m < size
    ensures (q * size + m) % size == m
  {
    var n := q * size + m;
    var d := n / size;
    assert n == size * d + n % size;
    assert d < q ==> size * (d + 1) <= size * q;
    assert q < d ==> size * (q + 1) <= size * d;
  }

  // ----- The contract -----

  /** The claims of a deployment, and their total as the contract keeps it. */
  datatype Claims = Claims(balances: map<Address, nat>, total: int)

  function BalanceOf(c: Claims, a: Address): nat {
    if a in c.balances then c.balances[a] else 0
  }

  /** `setClaims` for one account of a batch. */
  function SetClaim(c: Claims, account: Account): Claims {
    Claims(c.balances[account.address := account.amount], c.total + account.amount - BalanceOf(c, account.address))
  }

  function SetClaims(c: Claims, accounts: seq<Account>): Claims
    decreases |accounts|
  {
    if accounts == [] then c else SetClaims(SetClaim(c, accounts[0]), accounts[1..])
  }

  /** Rows with one address name one amount. */
  predicate Agreeing(accounts: seq<Account>) {
    forall a, b :: a in accounts && b in accounts && a.address == b.address ==> a.amount == b.amount
  }

  predicate Distinct(accounts: seq<Account>) {
    forall i, j :: 0 <= i < j < |accounts| ==> accounts[i].address != accounts[j].address
  }

  function Addresses(accounts: seq<Account>): set<Address> {
    set a | a in accounts :: a.address
  }

  predicate Correct(c: Claims, account: Account) {
    BalanceOf(c, account.address) == account.amount
  }

  function Wrong(c: Claims, accounts: seq<Account>): (r: seq<Account>)
    ensures forall a :: a in r <==> a in accounts && !Correct(c, a)
  {
    if accounts == [] then []
    else (if Correct(c, accounts[0]) then [] else [accounts[0]]) + Wrong(c, accounts[1..])
  }

  function Right(c: Claims, accounts: seq<Account>): (r: seq<Account>)
    ensures forall a :: a in r <==> a in accounts && Correct(c, a)
  {
    if accounts == [] then []
    else (if Correct(c, accounts[0]) then [accounts[0]] else []) + Right(c, accounts[1..])
  }

  datatype Verification = Verification(
    isCorrect: bool, actualTotal: int, incorrect: seq<Account>, correct: seq<Account>)

  // ----- The script -----

  /** The loop of the verification. */
  method CheckAccounts(c: Claims, expected: seq<Account>)
    returns (isCorrect: bool, correct: seq<Account>, incorrect: seq<Account>)
    ensures incorrect == Wrong(c, expected) && correct == Right(c, expected)
    ensures isCorrect <==> forall a :: a in expected ==> Correct(c, a)
  {
    isCorrect, correct, incorrect := true, [], [];
    for i := 0 to |expected|
      invariant incorrect + Wrong(c, expected[i..]) == Wrong(c, expected)
      invariant correct + Right(c, expected[i..]) == Right(c, expected)
      invariant isCorrect <==> incorrect == []
    {
      var account := expected[i];
      ghost var rest := expected[i + 1..];
      assert expected[i..] == [account] + rest;
      SortFirst(c, account, rest);
      if Correct(c, account) {
        Regroup(correct, account, Right(c, rest));
        correct := correct + [account];
      } else {
        Regroup(incorrect, account, Wrong(c, rest));
        isCorrect := false;
        incorrect := incorrect + [account];
      }
    }
    assert incorrect == Wrong(c, expected);
    NoneWrong(c, expected);
  }

  datatype Outcome = NothingToDo | DryRun | TotalOff | TotalsDoNotMatch | Uploaded

  /** The script's connection to the contract. */
  class Sync {
    var claims: Claims
    var uploads: seq<seq<Account>>  // the accounts of each confirmed `setClaims` transaction

    constructor (claims: Claims)
      ensures this.claims == claims && uploads == []
    {
      this.claims, uploads := claims, [];
    }

    method Verify(expected: seq<Account>) returns (v: Verification)
      ensures v.incorrect == Wrong(claims, expected) && v.correct == Right(claims, expected)
      ensures v.actualTotal == claims.total
      ensures v.isCorrect <==> (forall a :: a in expected ==> Correct(claims, a)) && Total(expected) == claims.total
      ensures forall a :: a in v.incorrect <==> a in expected && BalanceOf(claims, a.address) != a.amount
      ensures forall a :: a in v.correct <==> a in expected && BalanceOf(claims, a.address) == a.amount
    {
      var isCorrect, correct, incorrect := CheckAccounts(claims, expected);
      var expectedTotal := ComputeTotal(expected);
      if expectedTotal != claims.total {
        isCorrect := false;
      }
      v := Verification(isCorrect, claims.total, incorrect, correct);
    }

    method UploadAccounts(accounts: seq<Account>)
      modifies this
      ensures claims == SetClaims(old(claims), accounts) && uploads == old(uploads) + [accounts]
    {
      claims, uploads := SetClaims(claims, accounts), uploads + [accounts];
    }

    /** The loop of the uploads. */
    method UploadBatches(batches: seq<seq<Account>>)
      modifies this
      ensures claims == SetClaims(old(claims), Concat(batches)) && uploads == old(uploads) + batches
    {
      ghost var before := claims;
      for i := 0 to |batches|
        invariant claims == SetClaims(before, Concat(batches[..i])) && uploads == old(uploads) + batches[..i]
      {
        assert batches[..i + 1][..i] == batches[..i];
        UploadConcat(before, Concat(batches[..i]), batches[i]);
        UploadAccounts(batches[i]);
      }
      assert batches[..|batches|] == batches;
    }

    method CompensationSync(expected: seq<Account>, doIt: bool) returns (r: Outcome)
      modifies this
      ensures claims == if r == TotalsDoNotMatch || r == Uploaded
                        then SetClaims(old(claims), Wrong(old(claims), expected)) else old(claims)
      ensures |uploads| >= |old(uploads)| && uploads[..|old(uploads)|] == old(uploads)
      ensures WellBatched(uploads[|old(uploads)|..], 100)
      ensures Concat(uploads[|old(uploads)|..]) ==
              if r == TotalsDoNotMatch || r == Uploaded then Wrong(old(claims), expected) else []
      ensures r == NothingToDo <==> Wrong(old(claims), expected) == [] && Total(expected) == old(claims).total
      ensures r == DryRun <==> !doIt && !(Wrong(old(claims), expected) == [] && Total(expected) == old(claims).total)
      ensures r == TotalOff <==> doIt && Wrong(old(claims), expected) == [] && Total(expected) != old(claims).total
      ensures r == Uploaded || r == TotalsDoNotMatch ==>
                (r == Uploaded <==>
                  (forall a :: a in expected ==> Correct(claims, a)) && Total(expected) == claims.total)
    {
      var results := Verify(expected);
      NoneWrong(claims, expected);
      assert uploads[|uploads|..] == [];
      if results.isCorrect {
        return NothingToDo;
      }
      if !doIt {
        return DryRun;
      }
      if |results.incorrect| == 0 {
        return TotalOff;
      }
      var split := SplitIntoBatches(results.incorrect, BATCH_SIZE);
      var batches := split.value;
      UploadBatches(batches);
      assert uploads[|old(uploads)|..] == batches;
      var afterResults := Verify(expected);
      if !afterResults.isCorrect {
        return TotalsDoNotMatch;
      }
      r := Uploaded;
    }
  }

  /** Sorting starts with the first account. */
  lemma SortFirst(c: Claims, a: Account, rest: seq<Account>)
    ensures Wrong(c, [a] + rest) == if Correct(c, a) then Wrong(c, rest) else [a] + Wrong(c, rest)
    ensures Right(c, [a] + rest) == if Correct(c, a) then [a] + Right(c, rest) else Right(c, rest)
  {
    assert ([a] + rest)[1..] == rest;
  }

  lemma Regroup(before: seq<Account>, a: Account, after: seq<Account>)
    ensures before + ([a] + after) == (before + [a]) + after
  {
  }

  lemma NoneWrong(c: Claims, accounts: seq<Account>)
    ensures Wrong(c, accounts) == [] <==> forall a :: a in accounts ==> Correct(c, a)
  {
    if Wrong(c, accounts) != [] {
      assert Wrong(c, accounts)[0] in Wrong(c, accounts);
    }
  }

  /** Uploading batch after batch is uploading all at once. */
  lemma {:induction false} UploadConcat(c: Claims, a: seq<Account>, b: seq<Account>)
    ensures SetClaims(c, a + b) == SetClaims(SetClaims(c, a), b)
    decreases |a|
  {
    if a == [] {
      assert a + b == b;
    } else {
      assert (a + b)[1..] == a[1..] + b;
      UploadConcat(SetClaim(c, a[0]), a[1..], b);
    }
  }

  /** What one more row does to the claims of every account and to their total: the last row of an account counts. */
  lemma OneMoreRow(c: Claims, accounts: seq<Account>, a: Account, x: Address)
    ensures var before, after := SetClaims(c, accounts), SetClaims(c, accounts + [a]);
            && BalanceOf(after, x) == (if x == a.address then a.amount else BalanceOf(before, x))
            && after.total == before.total + a.amount - BalanceOf(before, a.address)
    ensures SetClaims(c, []) == c
  {
    UploadConcat(c, accounts, [a]);
    var before := SetClaims(c, accounts);
    assert [a][1..] == [];
    assert SetClaims(before, [a]) == SetClaims(SetClaim(before, a), []);
  }

  // ----- Convergence -----

  lemma {:induction false} UploadSets(c: Claims, accounts: seq<Account>, x: Address)
    requires Agreeing(accounts)
    ensures x !in Addresses(accounts) ==> BalanceOf(SetClaims(c, accounts), x) == BalanceOf(c, x)
    ensures forall a :: a in accounts && a.address == x ==> BalanceOf(SetClaims(c, accounts), x) == a.amount
    decreases |accounts|
  {
    if accounts != [] {
      var first, rest := accounts[0], accounts[1..];
      assert accounts == [first] + rest && first in accounts;
      UploadSets(SetClaim(c, first), rest, x);
      assert x !in Addresses(accounts) ==> first.address != x && x !in Addresses(rest);
      if first.address == x && x in Addresses(rest) {
        var b :| b in rest && b.address == x;
        assert b in accounts;
      }
    }
  }

  /**
   One upload of the wrong accounts makes every expected account correct exactly when no two rows with one
   address disagree on the amount; it touches no other account.
   */
  lemma OneUploadCorrects(c: Claims, expected: seq<Account>)
    ensures var after := SetClaims(c, Wrong(c, expected));
            && ((forall a :: a in expected ==> Correct(after, a)) <==> Agreeing(expected))
            && (forall x :: x !in Addresses(expected) ==> BalanceOf(after, x) == BalanceOf(c, x))
  {
    var wrong := Wrong(c, expected);
    if Agreeing(expected) {
      forall a | a in expected
        ensures Correct(SetClaims(c, wrong), a)
      {
        UploadSets(c, wrong, a.address);
        if a.address in Addresses(wrong) {
          var b :| b in wrong && b.address == a.address;
          assert b in expected;
        } else {
          assert a !in wrong;
        }
      }
    }
    forall x | x !in Addresses(expected)
      ensures BalanceOf(SetClaims(c, wrong), x) == BalanceOf(c, x)
    {
      OthersUntouched(c, wrong, x);
    }
  }

  lemma {:induction false} OthersUntouched(c: Claims, accounts: seq<Account>, x: Address)
    requires x !in Addresses(accounts)
    ensures BalanceOf(SetClaims(c, accounts), x) == BalanceOf(c, x)
    decreases |accounts|
  {
    if accounts != [] {
      assert accounts[0] in accounts && accounts[0].address in Addresses(accounts);
      assert forall a :: a in accounts[1..] ==> a in accounts;
      OthersUntouched(SetClaim(c, accounts[0]), accounts[1..], x);
    }
  }

  lemma DistinctAgree(accounts: seq<Account>)
    requires Distinct(accounts)
    ensures Agreeing(accounts)
  {
    forall a, b | a in accounts && b in accounts && a.address == b.address
      ensures a == b
    {
      var i :| 0 <= i < |accounts| && accounts[i] == a;
      var j :| 0 <= j < |accounts| && accounts[j] == b;
    }
  }

  function Actual(c: Claims, accounts: seq<Account>): nat {
    if accounts == [] then 0 else BalanceOf(c, accounts[0].address) + Actual(c, accounts[1..])
  }

  /** What the contract's total holds beyond the expected accounts. */
  function Surplus(c: Claims, expected: seq<Account>): int {
    c.total - Actual(c, expected)
  }

  lemma {:induction false} ActualAfterOne(c: Claims, accounts: seq<Account>, a: Account)
    requires Distinct(accounts)
    ensures Actual(SetClaim(c, a), accounts) ==
            Actual(c, accounts) + if a.address in Addresses(accounts) then a.amount - BalanceOf(c, a.address) else 0
  {
    if accounts != [] {
      var first, rest := accounts[0], accounts[1..];
      assert accounts == [first] + rest;
      ActualAfterOne(c, rest, a);
      if a.address == first.address {
        forall b | b in rest
          ensures b.address != a.address
        {
          var i :| 0 <= i < |rest| && rest[i] == b;
          assert accounts[i + 1] == b;
        }
      }
    }
  }

  /** Uploading expected accounts leaves the surplus as it is. */
  lemma {:induction false} UploadKeepsSurplus(c: Claims, accounts: seq<Account>, expected: seq<Account>)
    requires Distinct(expected) && Addresses(accounts) <= Addresses(expected)
    ensures Surplus(SetClaims(c, accounts), expected) == Surplus(c, expected)
    decreases |accounts|
  {
    if accounts != [] {
      assert accounts[0] in accounts;
      assert accounts[0].address in Addresses(accounts);
      ActualAfterOne(c, expected, accounts[0]);
      UploadKeepsSurplus(SetClaim(c, accounts[0]), accounts[1..], expected);
    }
  }

  lemma {:induction false} ActualWhenCorrect(c: Claims, accounts: seq<Account>)
    requires forall a :: a in accounts ==> Correct(c, a)
    ensures Actual(c, accounts) == Total(accounts)
  {
    if accounts != [] {
      assert accounts[0] in accounts;
      ActualWhenCorrect(c, accounts[1..]);
    }
  }

  /**
   After one upload every account is correct, and the total matches exactly when the contract held
   nothing beyond the expected accounts before.
   */
  lemma Converges(c: Claims, expected: seq<Account>)
    requires Distinct(expected)
    ensures var after := SetClaims(c, Wrong(c, expected));
            && Wrong(after, expected) == []
            && (Total(expected) == after.total <==> Surplus(c, expected) == 0)
  {
    var wrong := Wrong(c, expected);
    DistinctAgree(expected);
    OneUploadCorrects(c, expected);
    NoneWrong(SetClaims(c, wrong), expected);
    UploadKeepsSurplus(c, wrong, expected);
    ActualWhenCorrect(SetClaims(c, wrong), expected);
  }
}
