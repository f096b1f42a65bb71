/**
 The airdrop scripts: root, proofs and verification over a payout list, and the object of proofs
 that is written out. The loops are those of the scripts; each is tied to the tree in `MerkleTree`.
 */
module Airdrop {
  import opened Common
  import opened Packing
  import opened MerkleTree

  /** A JavaScript array that is passed by reference and changed by its receiver. */
  class JsArray<T> {
    var items: seq<T>

    constructor (items: seq<T>)
      ensures this.items == items
    {
      this.items := items;
    }

    /** Removes and returns the first element; `None` when there is none. */
    method Shift() returns (first: Option<T>)
      modifies this
      ensures first == At(old(items), 0)
      ensures items == if old(items) == [] then [] else old(items)[1..]
    {
      first := At(items, 0);
      if items != [] {
        items := items[1..];
      }
    }

    method Push(x: T)
      modifies this
      ensures items == old(items) + [x]
    {
      items := items + [x];
    }
  }

  datatype Payout = Payout(account: Address, amount: nat)
  datatype PayoutList = PayoutList(stakeType: nat, duration: nat, rate: nat, payouts: seq<Payout>)
  datatype Error =
    | ValueOutOfRange
    | AddressNotFound
    | UserStakeType
    | InvalidIndex
    | WrongProofLength
    | MissingProofElement

  /** What leaf `i` of the tree commits to. */
  function PayoutLeaf(contractAddress: Address, list: PayoutList, i: nat): Leaf
    requires i < |list.payouts|
  {
    Leaf(i, list.stakeType, contractAddress, list.payouts[i].account, list.duration, list.rate, list.payouts[i].amount)
  }

  /** No field of any leaf makes ethers throw while packing. */
  predicate Packable(contractAddress: Address, list: PayoutList) {
    forall i :: 0 <= i < |list.payouts| ==> Fits(PayoutLeaf(contractAddress, list, i))
  }

  function Leaves(keccak: Keccak, contractAddress: Address, list: PayoutList): (leaves: seq<Digest>)
    requires Packable(contractAddress, list)
    ensures |leaves| == |list.payouts|
  {
    seq<Digest>(|list.payouts|,
      i requires 0 <= i < |list.payouts| && Fits(PayoutLeaf(contractAddress, list, i))
      => keccak(Pack(PayoutLeaf(contractAddress, list, i))))
  }

  /** The published root: `None` is the undefined root of an empty list. */
  function RootHash(keccak: Keccak, contractAddress: Address, list: PayoutList): Option<Digest>
    requires Packable(contractAddress, list)
  {
    var leaves := Leaves(keccak, contractAddress, list);
    if leaves == [] then None else Some(Root(keccak, leaves))
  }

  /** The type, the index and the length of the proof pass the verifier's first three checks. */
  predicate InOrder(claim: Leaf, proof: seq<Option<Bytes>>, depth: nat) {
    claim.stakeType != 0 && claim.index < Pow2(|proof|) && |proof| == depth
  }

  predicate IsWhole(proof: seq<Option<Bytes>>) {
    forall i :: 0 <= i < |proof| ==> proof[i].Some?
  }

  /** The answer of the verifier, with its errors in the order in which they are thrown. */
  function Verification(keccak: Keccak, root: Option<Digest>, depth: nat, claim: Leaf, proof: seq<Option<Bytes>>)
    : Result<bool, Error>
  {
    if claim.stakeType == 0 then Err(UserStakeType)
    else if claim.index >= Pow2(|proof|) then Err(InvalidIndex)
    else if |proof| != depth then Err(WrongProofLength)
    else if !Fits(claim) then Err(ValueOutOfRange)
    else
      match Fold(keccak, keccak(Pack(claim)), claim.index, proof)
      case None => Err(MissingProofElement)
      case Some(node) => Ok(Some(node) == root)
  }

  /** Verification against the published root and depth of a payout list. */
  function VerifyAgainst(keccak: Keccak, contractAddress: Address, list: PayoutList, claim: Leaf,
                         proof: seq<Option<Bytes>>)
    : Result<bool, Error>
    requires Packable(contractAddress, list)
  {
    Verification(keccak, RootHash(keccak, contractAddress, list), Depth(|list.payouts|), claim, proof)
  }

  // ----- The scripts' loops -----

  /** Replaces the nodes of a level by their parents, in place. */
  method ReduceMerkleBranches(keccak: Keccak, leaves: JsArray<Digest>)
    modifies leaves
    ensures leaves.items == Reduce(keccak, old(leaves.items))
  {
    ghost var level := leaves.items;
    var output: seq<Digest> := [];
    while |leaves.items| != 0
      invariant |output| <= (|level| + 1) / 2
      invariant leaves.items == if 2 * |output| <= |level| then level[2 * |output|..] else []
      invariant output == Reduce(keccak, level)[..|output|]
      decreases |leaves.items|
    {
      ghost var j := |output|;
      var left := leaves.Shift();
      var right := left;
      if |leaves.items| != 0 {
        right := leaves.Shift();
      }
      assert left == Some(level[2 * j]) && right == Some(level[RightChild(|level|, j)]);
      assert Reduce(keccak, level)[..j + 1] == Reduce(keccak, level)[..j] + [keccak(ParentPreimage(level, j))];
      output := output + [keccak(Concat(left.value, right.value))];
    }
    for i := 0 to |output|
      invariant leaves.items == output[..i]
    {
      leaves.Push(output[i]);
    }
  }

  method GetLeaves(keccak: Keccak, contractAddress: Address, list: PayoutList)
    returns (leaves: Result<JsArray<Digest>, Error>)
    ensures if Packable(contractAddress, list)
            then leaves.Ok? && fresh(leaves.value) && leaves.value.items == Leaves(keccak, contractAddress, list)
            else leaves == Err(ValueOutOfRange)
  {
    if !Packable(contractAddress, list) {
      return Err(ValueOutOfRange);
    }
    var created := new JsArray(Leaves(keccak, contractAddress, list));
    leaves := Ok(created);
  }

  method ComputeRootHash(keccak: Keccak, contractAddress: Address, list: PayoutList)
    returns (r: Result<(Option<Digest>, nat), Error>)
    ensures r == if Packable(contractAddress, list)
                 then Ok((RootHash(keccak, contractAddress, list), Depth(|list.payouts|)))
                 else Err(ValueOutOfRange)
  {
    var got := GetLeaves(keccak, contractAddress, list);
    if got.Err? {
      return Err(got.error);
    }
    var leaves := got.value;
    var depth: nat := 0;
    while |leaves.items| > 1
      invariant leaves.items == [] <==> list.payouts == []
      invariant leaves.items != [] ==> Some(Root(keccak, leaves.items)) == RootHash(keccak, contractAddress, list)
      invariant depth + Depth(|leaves.items|) == Depth(|list.payouts|)
      decreases |leaves.items|
    {
      ReduceMerkleBranches(keccak, leaves);
      depth := depth + 1;
    }
    r := Ok((At(leaves.items, 0), depth));
  }

  /** An index past the list does not throw: the proof then holds missing elements or another leaf's siblings. */
  method ComputeMerkleProof(keccak: Keccak, contractAddress: Address, list: PayoutList, index: Option<nat>)
    returns (r: Result<seq<Option<Digest>>, Error>)
    ensures r == if !Packable(contractAddress, list) then Err(ValueOutOfRange)
                 else if index.None? then Err(AddressNotFound)
                 else Ok(Proof(keccak, Leaves(keccak, contractAddress, list), index.value))
  {
    var got := GetLeaves(keccak, contractAddress, list);
    if got.Err? {
      return Err(got.error);
    }
    if index.None? {
      return Err(AddressNotFound);
    }
    var leaves, proof := got.value, [];
    var path: nat := index.value;
    while |leaves.items| > 1
      invariant proof + Proof(keccak, leaves.items, path)
             == Proof(keccak, Leaves(keccak, contractAddress, list), index.value)
      decreases |leaves.items|
    {
      ghost var level, before := leaves.items, proof;
      if path % 2 == 1 {
        proof := proof + [At(leaves.items, path - 1)];
      } else {
        proof := proof + [At(leaves.items, if path + 1 < |leaves.items| then path + 1 else path)];
      }
      ReduceMerkleBranches(keccak, leaves);
      assert before + Proof(keccak, level, path) == proof + Proof(keccak, leaves.items, path / 2);
      path := path / 2;
    }
    assert proof == Proof(keccak, Leaves(keccak, contractAddress, list), index.value);
    r := Ok(proof);
  }

  /** `path` is a JavaScript number: it is halved without rounding and only truncated where its lowest bit is read. */
  method VerifyMerkleSignature(keccak: Keccak, root: Option<Digest>, depth: nat, claim: Leaf, proof: seq<Option<Bytes>>)
    returns (r: Result<bool, Error>)
    ensures r == Verification(keccak, root, depth, claim, proof)
    ensures r == Err(UserStakeType) <==> claim.stakeType == 0
    ensures r == Err(InvalidIndex) <==> claim.stakeType != 0 && claim.index >= Pow2(|proof|)
    ensures r == Err(WrongProofLength) <==> claim.stakeType != 0 && claim.index < Pow2(|proof|) && |proof| != depth
    ensures r == Err(ValueOutOfRange) <==> InOrder(claim, proof, depth) && !Fits(claim)
    ensures r == Err(MissingProofElement) <==> InOrder(claim, proof, depth) && Fits(claim) && !IsWhole(proof)
    ensures r.Ok? <==> InOrder(claim, proof, depth) && Fits(claim) && IsWhole(proof)
  {
    FoldFailsHere(keccak, claim, proof);
    if claim.stakeType == 0 {
      return Err(UserStakeType);
    }
    if claim.index >= Pow2(|proof|) {
      return Err(InvalidIndex);
    }
    if |proof| != depth {
      return Err(WrongProofLength);
    }
    if !Fits(claim) {
      return Err(ValueOutOfRange);
    }
    var node := keccak(Pack(claim));
    var path := claim.index as real;
    for i := 0 to |proof|
      invariant path >= 0.0
      invariant Fold(keccak, node, path.Floor, proof[i..]) == Fold(keccak, keccak(Pack(claim)), claim.index, proof)
    {
      assert proof[i..][1..] == proof[i + 1..];
      if proof[i].None? {
        return Err(MissingProofElement);
      }
      if path.Floor % 2 == 1 {
        node := keccak(Concat(proof[i].value, node));
      } else {
        node := keccak(Concat(node, proof[i].value));
      }
      HalvingReals(path);
      path := path / 2.0;
    }
    r := Ok(Some(node) == root);
  }

  lemma FoldFailsHere(keccak: Keccak, claim: Leaf, proof: seq<Option<Bytes>>)
    ensures Fits(claim) ==> (Fold(keccak, keccak(Pack(claim)), claim.index, proof).None? <==> !IsWhole(proof))
  {
    if Fits(claim) {
      FoldFails(keccak, keccak(Pack(claim)), claim.index, proof);
    }
  }

  /**
   The answer for a claim that raises no error: whether the last of the nodes that the proof leads through, from the
   digest of the claim on, is the root.
   */
  lemma Answer(keccak: Keccak, root: Option<Digest>, depth: nat, claim: Leaf, proof: seq<Option<Bytes>>,
               nodes: seq<Digest>)
    requires InOrder(claim, proof, depth) && Fits(claim)
    requires IsFold(keccak, claim.index, proof, nodes) && nodes[0] == keccak(Pack(claim))
    ensures Verification(keccak, root, depth, claim, proof) == Ok(Some(nodes[|proof|]) == root)
  {
    FoldIsChain(keccak, claim.index, proof, nodes);
  }

  /** There are such nodes for every proof without a missing element. */
  lemma {:induction false} NodesOf(keccak: Keccak, node: Digest, index: nat, proof: seq<Option<Bytes>>)
    returns (nodes: seq<Digest>)
    requires IsWhole(proof)
    ensures IsFold(keccak, index, proof, nodes) && nodes[0] == node
    decreases |proof|
  {
    if proof == [] {
      nodes := [node];
    } else {
      var front := proof[..|proof| - 1];
      var last := proof[|proof| - 1].value;
      var before := NodesOf(keccak, node, index, front);
      var n := before[|front|];
      nodes := before + [if index / Pow2(|front|) % 2 == 1 then keccak(last + n) else keccak(n + last)];
      forall i | 0 <= i < |front|
        ensures proof[i] == front[i]
      {
      }
    }
  }

  // ----- What is published -----

  /** The leaf digests are those of the payouts in order, each with its position and the list's terms. */
  lemma LeafDigests(keccak: Keccak, contractAddress: Address, list: PayoutList, i: nat)
    requires Packable(contractAddress, list) && i < |list.payouts|
    ensures var leaf := Leaf(i, list.stakeType, contractAddress, list.payouts[i].account, list.duration, list.rate,
                             list.payouts[i].amount);
            Fits(leaf) && Leaves(keccak, contractAddress, list)[i] == keccak(Pack(leaf))
  {
    assert Fits(PayoutLeaf(contractAddress, list, i));
  }

  /** The published root is that of the full tree over the leaf digests, and missing for an empty list. */
  lemma PublishedRoot(keccak: Keccak, contractAddress: Address, list: PayoutList)
    requires Packable(contractAddress, list)
    ensures var leaves := Leaves(keccak, contractAddress, list);
            RootHash(keccak, contractAddress, list) ==
            if list.payouts == [] then None else Some(PerfectRoot(keccak, Padded(leaves), Depth(|leaves|)))
  {
    if list.payouts != [] {
      RootIsPerfectRoot(keccak, Leaves(keccak, contractAddress, list));
    }
  }

  // ----- Who is accepted -----

  /**
   Computes from a claim and its proof the pair of preimages that a false acceptance would have to
   share a digest.
   */
  function AirdropCollision(keccak: Keccak, contractAddress: Address, list: PayoutList, claim: Leaf,
                            proof: seq<Option<Bytes>>)
    : Pair
    requires Packable(contractAddress, list)
  {
    var n := |list.payouts|;
    if n == 0 || !Fits(claim) || claim.index >= Pow2(Depth(n)) then Pair([], [])
    else
      var leaves := Leaves(keccak, contractAddress, list);
      var inTree := TreeCollision(keccak, leaves, keccak(Pack(claim)), claim.index, proof);
      if IsCollision(keccak, inTree) then inTree
      else Pair(Pack(PayoutLeaf(contractAddress, list, Resolve(n, claim.index))), Pack(claim))
  }

  /** Every payout's own proof is accepted, at every position of a list of any length. */
  lemma ProofAccepted(keccak: Keccak, contractAddress: Address, list: PayoutList, i: nat)
    requires Packable(contractAddress, list) && list.stakeType != 0 && i < |list.payouts|
    ensures var proof := Proof(keccak, Leaves(keccak, contractAddress, list), i);
            && |proof| == Depth(|list.payouts|)
            && VerifyAgainst(keccak, contractAddress, list, PayoutLeaf(contractAddress, list, i), proof) == Ok(true)
  {
    var leaves := Leaves(keccak, contractAddress, list);
    ProofLength(keccak, leaves, i);
    ProofFolds(keccak, leaves, i);
    ResolveInRange(|leaves|, i);
  }

  /** The claim is a listed payout, in every field. */
  predicate IsListed(contractAddress: Address, list: PayoutList, claim: Leaf) {
    && claim.index < |list.payouts| && claim.stakeType == list.stakeType && claim.contractAddress == contractAddress
    && claim.account == list.payouts[claim.index].account && claim.amount == list.payouts[claim.index].amount
    && claim.duration == list.duration && claim.rate == list.rate
  }

  /**
   A claim is accepted exactly when it is a listed payout, in every field, with that payout's own
   proof; the only way out is a collision, which `AirdropCollision` then exhibits. It is refused, without an error,
   exactly when it passes the checks and is not that.
   */
  lemma AcceptedExactly(keccak: Keccak, contractAddress: Address, list: PayoutList, claim: Leaf,
                        proof: seq<Option<Bytes>>)
    requires Packable(contractAddress, list)
    requires !IsCollision(keccak, AirdropCollision(keccak, contractAddress, list, claim, proof))
    ensures VerifyAgainst(keccak, contractAddress, list, claim, proof) == Ok(true) <==>
            && IsListed(contractAddress, list, claim) && claim.stakeType != 0
            && proof == Proof(keccak, Leaves(keccak, contractAddress, list), claim.index)
    ensures VerifyAgainst(keccak, contractAddress, list, claim, proof) == Ok(false) <==>
            && InOrder(claim, proof, Depth(|list.payouts|)) && Fits(claim) && IsWhole(proof)
            && !(&& IsListed(contractAddress, list, claim)
                 && proof == Proof(keccak, Leaves(keccak, contractAddress, list), claim.index))
  {
    AnswerKinds(keccak, contractAddress, list, claim, proof);
    if VerifyAgainst(keccak, contractAddress, list, claim, proof) == Ok(true) {
      OnlyListed(keccak, contractAddress, list, claim, proof);
    }
    if IsListed(contractAddress, list, claim) && claim.stakeType != 0 {
      assert claim == PayoutLeaf(contractAddress, list, claim.index);
      ProofAccepted(keccak, contractAddress, list, claim.index);
    }
  }

  lemma AnswerKinds(keccak: Keccak, contractAddress: Address, list: PayoutList, claim: Leaf,
                    proof: seq<Option<Bytes>>)
    requires Packable(contractAddress, list)
    ensures VerifyAgainst(keccak, contractAddress, list, claim, proof).Ok? <==>
            InOrder(claim, proof, Depth(|list.payouts|)) && Fits(claim) && IsWhole(proof)
  {
    FoldFailsHere(keccak, claim, proof);
  }

  lemma OnlyListed(keccak: Keccak, contractAddress: Address, list: PayoutList, claim: Leaf, proof: seq<Option<Bytes>>)
    requires Packable(contractAddress, list)
    requires !IsCollision(keccak, AirdropCollision(keccak, contractAddress, list, claim, proof))
    requires VerifyAgainst(keccak, contractAddress, list, claim, proof) == Ok(true)
    ensures IsListed(contractAddress, list, claim) && claim.stakeType != 0
    ensures proof == Proof(keccak, Leaves(keccak, contractAddress, list), claim.index)
  {
    var leaves := Leaves(keccak, contractAddress, list);
    FoldSound(keccak, leaves, keccak(Pack(claim)), claim.index, proof);
    var member := PayoutLeaf(contractAddress, list, Resolve(|leaves|, claim.index));
    assert keccak(Pack(member)) == keccak(Pack(claim));
    PackInjective(member, claim);
  }

  // ----- airDrop.js -----

  /**
   A row of the payout file: the columns that are used, and the rest. `account` is what the text in
   `address` denotes; an account can be spelled in several ways.
   */
  datatype PayoutRecord = PayoutRecord(address: string, account: Address, ognCompensation: nat, others: string)
  datatype RecordList = RecordList(stakeType: nat, duration: nat, rate: nat, payouts: seq<PayoutRecord>)
  datatype AirdropEntry = AirdropEntry(
    payout: PayoutRecord, index: nat, stakeType: nat, duration: nat, rate: nat, proof: seq<Option<Digest>>)

  function ExtractOGNAmount(list: RecordList): (extracted: PayoutList)
    ensures |extracted.payouts| == |list.payouts|
  {
    PayoutList(list.stakeType, list.duration, list.rate,
               seq(|list.payouts|, i requires 0 <= i < |list.payouts| =>
                 Payout(list.payouts[i].account, list.payouts[i].ognCompensation)))
  }

  /** Only the account and the compensation of each row go into the tree. */
  lemma ExtractedRows(list: RecordList, i: nat)
    requires i < |list.payouts|
    ensures var x := ExtractOGNAmount(list);
            && x.stakeType == list.stakeType && x.duration == list.duration && x.rate == list.rate
            && x.payouts[i].account == list.payouts[i].account && x.payouts[i].amount == list.payouts[i].ognCompensation
  {
  }

  /** The entry stands for the last row with its address. */
  predicate IsLastRowOf(rows: seq<PayoutRecord>, address: string, e: AirdropEntry) {
    && e.index < |rows| && e.payout == rows[e.index] && e.payout.address == address
    && forall j :: e.index < j < |rows| ==> rows[j].address != address
  }

  function Addresses(rows: seq<PayoutRecord>): set<string> {
    set i | 0 <= i < |rows| :: rows[i].address
  }

  /** The entry's own data and proof pass the verifier against the published root and depth. */
  predicate EntryAccepted(keccak: Keccak, contractAddress: Address, list: PayoutList, e: AirdropEntry) {
    && Packable(contractAddress, list)
    && var claim := Leaf(e.index, e.stakeType, contractAddress, e.payout.account, e.duration, e.rate,
                         e.payout.ognCompensation);
       VerifyAgainst(keccak, contractAddress, list, claim, e.proof) == Ok(true)
  }

  /** The entry carries the list's terms and the proof of its own row. */
  predicate CarriesProof(keccak: Keccak, contractAddress: Address, list: PayoutList, e: AirdropEntry) {
    && e.stakeType == list.stakeType && e.duration == list.duration && e.rate == list.rate
    && Packable(contractAddress, list) && e.proof == Proof(keccak, Leaves(keccak, contractAddress, list), e.index)
  }

  method AirDropPayouts(keccak: Keccak, contractAddress: Address, list: RecordList)
    returns (r: Result<map<string, AirdropEntry>, Error>)
    ensures r.Ok? <==> Packable(contractAddress, ExtractOGNAmount(list))
    ensures r.Err? ==> r.error == ValueOutOfRange
    ensures r.Ok? ==> r.value.Keys == Addresses(list.payouts)
    ensures r.Ok? ==> forall a :: a in r.value ==> IsLastRowOf(list.payouts, a, r.value[a])
    ensures r.Ok? ==>
              forall a :: a in r.value ==> CarriesProof(keccak, contractAddress, ExtractOGNAmount(list), r.value[a])
    ensures r.Ok? && list.stakeType != 0 ==>
              forall a :: a in r.value ==> EntryAccepted(keccak, contractAddress, ExtractOGNAmount(list), r.value[a])
  {
    var extracted := ExtractOGNAmount(list);
    var o: map<string, AirdropEntry> := map[];
    for index := 0 to |list.payouts|
      invariant index > 0 ==> Packable(contractAddress, extracted)
      invariant o.Keys == Addresses(list.payouts[..index])
      invariant forall a :: a in o ==> IsLastRowOf(list.payouts[..index], a, o[a])
      invariant forall a :: a in o ==> CarriesProof(keccak, contractAddress, extracted, o[a])
      invariant list.stakeType != 0 ==>
                  forall a :: a in o ==> EntryAccepted(keccak, contractAddress, extracted, o[a])
    {
      var payout := list.payouts[index];
      var proof := ComputeMerkleProof(keccak, contractAddress, extracted, Some(index));
      if proof.Err? {
        return Err(proof.error);
      }
      var e := AirdropEntry(payout, index, list.stakeType, list.duration, list.rate, proof.value);
      if list.stakeType != 0 {
        ProofAccepted(keccak, contractAddress, extracted, index);
        assert EntryAccepted(keccak, contractAddress, extracted, e);
      }
      AddedRow(list.payouts, index, o, e);
      o := o[payout.address := e];
    }
    assert list.payouts[..|list.payouts|] == list.payouts;
    r := Ok(o);
  }

  lemma AddedRow(rows: seq<PayoutRecord>, index: nat, o: map<string, AirdropEntry>, e: AirdropEntry)
    requires index < |rows| && e.index == index && e.payout == rows[index]
    requires o.Keys == Addresses(rows[..index])
    requires forall a :: a in o ==> IsLastRowOf(rows[..index], a, o[a])
    ensures var o' := o[rows[index].address := e];
            && o'.Keys == Addresses(rows[..index + 1])
            && forall a :: a in o' ==> IsLastRowOf(rows[..index + 1], a, o'[a])
  {
    var before, after := rows[..index], rows[..index + 1];
    assert after == before + [rows[index]];
    forall a
      ensures a in Addresses(after) <==> a in Addresses(before) || a == rows[index].address
    {
      if a in Addresses(before) {
        var i :| 0 <= i < |before| && before[i].address == a;
        assert after[i].address == a;
      }
      assert after[index].address == rows[index].address;
    }
  }

  /** Every row keeps an entry of its own exactly when no address is listed twice, letter for letter. */
  lemma EveryRowHasItsEntry(rows: seq<PayoutRecord>, o: map<string, AirdropEntry>)
    requires o.Keys == Addresses(rows)
    requires forall a :: a in o ==> IsLastRowOf(rows, a, o[a])
    ensures (forall i :: 0 <= i < |rows| ==> o[rows[i].address].index == i) <==>
            (forall i, j :: 0 <= i < j < |rows| ==> rows[i].address != rows[j].address)
  {
    if forall i, j :: 0 <= i < j < |rows| ==> rows[i].address != rows[j].address {
      forall i | 0 <= i < |rows|
        ensures o[rows[i].address].index == i
      {
        var e := o[rows[i].address];
        assert e.index < i || e.index == i || e.index > i;
      }
    }
  }

  // ----- getTotals -----

  const SCALE: nat := 1_000_000_000_000_000_000

  /** The interest on one amount, rounded down. */
  function Interest(amount: nat, rate: nat): nat {
    amount * rate / SCALE
  }

  function TotalOf(payouts: seq<Payout>): nat {
    if payouts == [] then 0 else payouts[0].amount + TotalOf(payouts[1..])
  }

  function RewardOf(payouts: seq<Payout>, rate: nat): nat {
    if payouts == [] then 0 else Interest(payouts[0].amount, rate) + RewardOf(payouts[1..], rate)
  }

  method GetTotals(rate: nat, payouts: seq<Payout>) returns (total: nat, reward: nat)
    ensures total == TotalOf(payouts) && reward == RewardOf(payouts, rate)
  {
    total, reward := 0, 0;
    for i := 0 to |payouts|
      invariant total + TotalOf(payouts[i..]) == TotalOf(payouts)
      invariant reward + RewardOf(payouts[i..], rate) == RewardOf(payouts, rate)
    {
      assert payouts[i..][0] == payouts[i] && payouts[i..][1..] == payouts[i + 1..];
      var payout := payouts[i];
      total := total + payout.amount;
      var calReward := payout.amount * rate / SCALE;
      reward := reward + calReward;
    }
  }

  /** Both sums add up over parts of the list, and this is what one payout contributes. */
  lemma {:induction false} TotalsAddUp(a: seq<Payout>, b: seq<Payout>, rate: nat)
    ensures TotalOf(a + b) == TotalOf(a) + TotalOf(b)
    ensures RewardOf(a + b, rate) == RewardOf(a, rate) + RewardOf(b, rate)
    ensures |a| == 1 ==> TotalOf(a) == a[0].amount
    ensures |a| == 1 ==> RewardOf(a, rate) == a[0].amount * rate / 1_000_000_000_000_000_000
  {
    if a == [] {
      assert a + b == b;
    } else {
      assert (a + b)[1..] == a[1..] + b;
      TotalsAddUp(a[1..], b, rate);
    }
  }

  /** What rounding each payout down has cut off altogether, in units of 1/SCALE. */
  function Dust(payouts: seq<Payout>, rate: nat): nat {
    if payouts == [] then 0 else payouts[0].amount * rate % SCALE + Dust(payouts[1..], rate)
  }

  lemma {:induction false} DustBound(payouts: seq<Payout>, rate: nat)
    ensures TotalOf(payouts) * rate == RewardOf(payouts, rate) * SCALE + Dust(payouts, rate)
    ensures Dust(payouts, rate) <= |payouts| * (SCALE - 1)
  {
    if payouts != [] {
      DustBound(payouts[1..], rate);
      var amount := payouts[0].amount;
      assert (amount + TotalOf(payouts[1..])) * rate == amount * rate + TotalOf(payouts[1..]) * rate;
    }
  }

  /**
   The summed rewards never exceed the interest on the total, and fall short of it by less than one
   unit a payout.
   */
  lemma RewardRounding(payouts: seq<Payout>, rate: nat)
    requires payouts != []
    ensures var all := TotalOf(payouts) * rate / 1_000_000_000_000_000_000;
            RewardOf(payouts, rate) <= all <= RewardOf(payouts, rate) + |payouts| - 1
  {
    DustBound(payouts, rate);
    FlooredDust(TotalOf(payouts) * rate, RewardOf(payouts, rate), Dust(payouts, rate), |payouts|);
  }

  lemma FlooredDust(scaled: nat, reward: nat, dust: nat, n: nat)
    requires n > 0 && scaled == reward * SCALE + dust && dust <= n * (SCALE - 1)
    ensures reward <= scaled / SCALE <= reward + n - 1
  {
    assert scaled / SCALE == reward + dust / SCALE;
  }
}
