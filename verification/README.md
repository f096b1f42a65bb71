# Verified model of the off-chain logic around OUSD and OGN staking

The JavaScript of this repository holds several small cores whose mistakes would be silent: the
airdrop Merkle tree, the codec that carries messages to translators and back, the tracker of a
user's transactions, the store that links stakes to transactions, the deep merge of settings, the
reconciler of the compensation contract, and the arithmetic of supply, rewards and vesting. This
project models each of them in Dafny and proves what it is relied on for.

`dafny verify dfyconfig.toml` checks everything.

## How it is laid out

| files | component |
|---|---|
| `Packing.dfy`, `MerkleTree.dfy`, `Airdrop.dfy` | `contracts/utils/stake.js` and `contracts/scripts/staking/airDrop.js` |
| `Texts.dfy`, `Utf8.dfy`, `Base64.dfy`, `Escape.dfy`, `EscapePatterns.dfy`, `FirstDifference.dfy`, `NameCodec.dfy`, `ReadableName.dfy`, `MessageCodec.dfy`, `Translation.dfy` | `dapp/scripts/fbtToCrowdin.js` and `dapp/scripts/crowdinToFbt.js` |
| `TrackerModel.dfy`, `TransactionListener.dfy`, `TrackerSafety.dfy`, `TrackerEffects.dfy`, `TrackerSwitches.dfy`, `TrackerRuns.dfy`, `TrackerMixups.dfy`, `TrackerWaits.dfy` | `dapp/src/components/TransactionListener.js` and `dapp/src/hoc/withRpcProvider.js` |
| `StakeHashes.dfy`, `StakeClaims.dfy`, `Vesting.dfy` | `dapp/src/utils/stake.js` |
| `MergeSpec.dfy`, `DeepMerge.dfy` | `dapp/src/utils/utils.js` |
| `Compensation.dfy` | `contracts/scripts/compensation/compensationSync.js` |
| `Supply.dfy` | `spec/math.spec` |

Code that changes things in place is modelled by methods and classes that do the same, each proved
to compute a function of the old state; the properties are proved about those functions.

## What is assumed

- Keccak is a parameter of everything that hashes. Nothing is assumed of it. Soundness therefore
  reads: an accepted claim is a listed payout, or `Airdrop.AirdropCollision` computes two different
  byte strings with the same digest.
- A JavaScript string without lone surrogates is a sequence of Unicode scalar values. UTF-8 is
  section 3 of RFC 3629; ill-formed input decodes to U+FFFD, one for each maximal ill-formed piece.
- Base64 is section 4 of RFC 4648. Node's reader takes `-` and `_` for `+` and `/`, skips any other
  foreign character and needs no padding.
- The tracker reads everything that it was last rendered with from the store at the start of a
  step, and loading an account and starting to observe its entries is one step. Account names are
  compared in one letter case. The chain guarantees that a hash has one sender and nonce, and that
  one transaction is mined per sender and nonce; submissions through the dapp come from the selected
  account and have fresh hashes and nonces. Nothing is assumed of when accounts are switched.
- The keys of the stake-hash store are tuples of duration, amount and optional end.
- `mergeDeep` gets finite acyclic objects; the target is a tree that shares nothing with a source.
  Objects inherit the functions of `Object.prototype` and nothing else, and none has an own property
  called `__proto__`: the type of the keys excludes it.
- Rows of the payout file carry the text of an address and the account that it denotes.
- `setClaims` assigns claims one after the other and keeps their total.

## What turned out not to hold

- A variable whose readable form ends in `_B64` is read back behind three characters that it does not
  have, and one whose readable form contains `_B64_` makes the parser throw (`NameCodec.EarlyName`,
  `NameCodec.NameThrows`, `Translation.BrokenName`).
- The SLASH/PLUS escape cannot be undone on text that contains `SLASH`, `PLUS` or `+LASH`
  (`Escape.EscapeExact`). Base64 text of a string never contains `PLUS`, and one of the others only
  where five bytes of the string have one shape, with U+0001 and an exclamation mark among them
  (`EscapePatterns.NoPlus`, `EscapePatterns.EscapableExactly`); `Translation.LostName` is such a
  variable. A message without U+0001, or without an exclamation mark, survives unless the readable
  form of one of its names hides the delimiter (`Translation.OrdinaryMessage`).
- The comment at `dapp/scripts/fbtToCrowdin.js:61-69` describes the whole-message case as one for
  messages that are nothing but variables. The code takes it for every message that starts with
  `{=` and ends with `}`, whatever stands between the variables (`Translation.WholeShape`,
  `Translation.HiddenWithText`), and the model follows the code.
- Consistent lists get mixed up when another account is selected while a transaction is queued or a
  dismissal waits that leaves entries, and when a batch of waits with error entries ends while
  another account, or none, is selected; no other step does it (`TrackerRuns.StepExactly`,
  `TrackerRuns.EveryRunIsConsistent`, `TrackerMixups.TailMisplaced`). After such a switch a hash can
  come to be listed twice, and a transaction that was stored as mined can become pending again for the
  same account (`TrackerMixups.DuplicateHash`, `TrackerMixups.PendingAgain`).
- Such a switch also takes away what was stored for the selected account, and so does selecting any
  account, its own included, when a transaction was queued at a disconnect
  (`TrackerMixups.QueueOverwrites`, `TrackerMixups.DismissalClears`,
  `TrackerMixups.ReconnectOverwrites`, `TrackerSwitches.QueueTakesOver`);
  `TrackerSwitches.SwitchKeepsExactly` says when nothing is lost.
- A pending transaction with nonce zero is never recognised as replaced, because zero counts as
  missing at `dapp/src/components/TransactionListener.js:96` (`TrackerEffects.NoReplacement`).
- A stake hash that is added together with an end, but not as a claim, is lost once its stake is known
  by another hash (`StakeHashes.EndLosesHash`, `StakeHashes.HashesConserved`).
- A stake transaction that is added while another of the same duration and amount waits displaces its
  hash (`StakeHashes.SecondAddDisplaces`).
- A source object at a name that every object inherits, such as `constructor`, is not merged: the
  inherited function counts as the target's value (`MergeSpec.InheritedBlocks`). By the same test an
  own `__proto__` property that holds an object would be merged into `Object.prototype`; such keys are
  outside the model.
- Both goals in `spec/math.spec` can be missed (`Supply.GoalExactly`, `Supply.BoundExactly`,
  `Supply.GoalsCanFail`).
- The shown share of vested interest falls back to nothing at the instant at which a stake begins, and
  by three minutes' worth two hours later, if it is longer (`Vesting.FallsAtTheStart`, `Vesting.FallsAfterTwoHours`);
  `Vesting.FallsExactly` says between which instants it falls, and `Vesting.FallsOnlyThen` that there
  are no others.
- When two rows of the compensation file give one address different amounts, no upload makes both
  correct (`Compensation.OneUploadCorrects`).
- If an address is listed twice, letter for letter, only its last row gets an entry
  (`Airdrop.EveryRowHasItsEntry`).

## Model

| member | source | states |
|---|---|---|
| Packing.BigEndianValue | contracts/utils/stake.js:29-32 | A number that fits its width is packed as its bytes, the most significant first |
| Packing.PackSlices | contracts/utils/stake.js:28-33 | Which bytes of the leaf preimage hold which field, in the packed order |
| Packing.PackInjective | contracts/utils/stake.js:28-33 | No two leaves whose fields fit their widths are packed to the same bytes, so a leaf digest commits to all seven fields |
| Packing.FitsExactly | contracts/utils/stake.js:28-33 | Packing throws unless every number is below 2^256 and the type below 2^8 |
| MerkleTree.DepthIsLeast | contracts/utils/stake.js:57-66 | The depth that is counted is the least d with n <= 2^d |
| MerkleTree.HalvingReals | contracts/utils/stake.js:104-112 | Halving a nonnegative real and truncating it agrees with integer halving, so the verifier reads the bits that the builder wrote |
| MerkleTree.ReduceConcat | contracts/utils/stake.js:43-55 | Reducing a level whose left part is even reduces the parts separately |
| MerkleTree.PerfectRootReduces | contracts/utils/stake.js:43-66 | Hashing the lowest level of a full tree first leaves its top-down root unchanged |
| MerkleTree.PaddedReduces | contracts/utils/stake.js:43-55 | Duplicating the last node of odd levels commutes with filling the leaf row up to a power of two |
| MerkleTree.RootIsPerfectRoot | contracts/utils/stake.js:57-66 | The level-by-level root equals the root of the full binary tree over the padded leaf row |
| MerkleTree.ResolveInRange | contracts/utils/stake.js:117-142 | Every position below the number of leaves fits the depth and stands for its own leaf |
| MerkleTree.ProofLength | contracts/utils/stake.js:117-142 | A proof is as long as the tree is deep |
| MerkleTree.ProofFolds | contracts/utils/stake.js:104-142 | The proof of a position folds its leaf to the root, through every odd level |
| MerkleTree.ProofElement | contracts/utils/stake.js:117-142 | Which node of which level each element of a proof is, for every index, in the list or not |
| MerkleTree.FoldIsChain | contracts/utils/stake.js:104-112 | The fold ends at the last of the nodes that start at the leaf and hash each element on the side that the index's bit says |
| MerkleTree.FoldFails | contracts/utils/stake.js:104-112 | The fold throws if and only if an element is missing |
| MerkleTree.SmallTrees | contracts/utils/stake.js:43-66 | Roots and proofs of one, two and three leaves, written out |
| MerkleTree.FoldSound | contracts/utils/stake.js:68-142 | A fold that reaches the root began at the leaf its position stands for and used exactly that leaf's siblings, unless the computed pair is a hash collision |
| Airdrop.ReduceMerkleBranches | contracts/utils/stake.js:43-55 | The shift and push loops replace the array's contents by the level above, the last node of an odd level paired with itself |
| Airdrop.GetLeaves | contracts/utils/stake.js:35-41 | A fresh array of leaf digests, or an error exactly when a field does not fit its width |
| Airdrop.ComputeRootHash | contracts/utils/stake.js:57-66 | The loop ends with the root, undefined for an empty list, and its depth |
| Airdrop.ComputeMerkleProof | contracts/utils/stake.js:117-142 | The loop collects the siblings on the way up, for any index, with its two errors |
| Airdrop.VerifyMerkleSignature | contracts/utils/stake.js:68-116 | The loop, which halves a real number; each error is thrown under exactly its own condition, in the source's order, and an answer is given in every other case |
| Airdrop.Answer | contracts/utils/stake.js:90-115 | The answer says whether the last node that the proof leads to is the root, whatever root, claim and proof |
| Airdrop.LeafDigests | contracts/utils/stake.js:35-41 | Each leaf digest is that of its position, the list's terms and the payout's account and amount |
| Airdrop.PublishedRoot | contracts/utils/stake.js:57-66 | The root is that of the full tree over the leaf digests, and missing for an empty list |
| Airdrop.ProofAccepted | contracts/utils/stake.js:68-142 | Every payout of every list with a nonzero type verifies with the proof computed for it, whose length is the depth |
| Airdrop.AcceptedExactly | contracts/utils/stake.js:28-142 | Barring the computed collision, a claim is accepted if and only if its index is in the list, all its fields are those of that payout and its proof is the one computed for it; in every other case without an error it is refused |
| Airdrop.AirDropPayouts | contracts/scripts/staking/airDrop.js:32-51 | The object has an entry for exactly the listed addresses, each for the address's last row with the list's terms and that row's proof, and every entry verifies |
| Airdrop.EveryRowHasItsEntry | contracts/scripts/staking/airDrop.js:35-48 | Every row keeps its own entry if and only if no address is listed twice, letter for letter |
| Airdrop.GetTotals | contracts/utils/stake.js:13-26 | The loop sums the amounts and the rewards, each rounded down |
| Airdrop.TotalsAddUp | contracts/utils/stake.js:13-26 | Totals and rewards add up over parts of the list, and one payout's reward is amount * rate / 10^18, rounded down |
| Airdrop.RewardRounding | contracts/utils/stake.js:13-26 | The summed rewards are at most the interest on the total and fall short of it by at most n-1 units |
| Utf8.RoundTrip | dapp/scripts/fbtToCrowdin.js:33 | Every text survives being written to a buffer and read from it |
| Utf8.DecodedEncodes | dapp/scripts/crowdinToFbt.js:25 | Bytes that are read without a replacement character are the encoding of what was read |
| Utf8.BytesShape | dapp/scripts/fbtToCrowdin.js:33 | In encoded text every continuation byte follows a byte that is not ASCII, every lead byte has one behind it, and every ASCII byte is a character of the text |
| Utf8.CharValue | dapp/scripts/fbtToCrowdin.js:33 | How many bytes a character takes, and where they hold its bits |
| Utf8.IllFormed | dapp/scripts/crowdinToFbt.js:25 | Where no character starts, one U+FFFD is read for the longest piece that begins one |
| Base64.PaddingStripped | dapp/scripts/fbtToCrowdin.js:33-34 | Stripping every = leaves exactly the base64 digits |
| Base64.GroupBits | dapp/scripts/fbtToCrowdin.js:33 | Every four digits have the bits of the three bytes at their place, most significant first, filled up with zero bits at the end |
| Base64.TextRoundTrip | dapp/scripts/crowdinToFbt.js:25 | Unpadded base64 gives back every byte sequence, in all three length classes |
| Base64.Alphabet | dapp/scripts/fbtToCrowdin.js:33 | The characters of the 64 digits |
| Base64.FromDigitsAt | dapp/scripts/crowdinToFbt.js:25 | How many bytes any digits are read as, and which bits each byte has |
| Base64.Lenient | dapp/scripts/crowdinToFbt.js:25 | Foreign characters are skipped, and - and _ are read like + and / |
| Escape.ReadBack | dapp/scripts/crowdinToFbt.js:22-23 | What undoing SLASH makes of an escaped text, from its first character on, in all five cases |
| Escape.ReadBackLength | dapp/scripts/crowdinToFbt.js:19-24 | Escaping and undoing never lengthens a text, and shortens every text that holds SLASH, +LASH or PLUS |
| Escape.EscapeExact | dapp/scripts/crowdinToFbt.js:19-24 | Undoing the escape is the identity if and only if the text holds none of SLASH, +LASH and PLUS |
| Escape.B64EncodeAlphanumeric | dapp/scripts/fbtToCrowdin.js:32-37 | Encoded text is letters and digits only, so it holds no underscore and no brace |
| Escape.B64RoundTrip | dapp/scripts/crowdinToFbt.js:19-26 | Decoding undoes encoding for every string whose base64 text is escapable |
| EscapePatterns.NoPlus | dapp/scripts/fbtToCrowdin.js:32-37 | The base64 text of a string never contains PLUS |
| EscapePatterns.FakeSlashAt | dapp/scripts/fbtToCrowdin.js:32-37 | SLASH or +LASH stands in the base64 text exactly two digits into a group, over bytes xxxx0100 or xxxx1111, 8B, 01, 21 and a lead byte |
| EscapePatterns.EscapableExactly | dapp/scripts/crowdinToFbt.js:19-26 | The base64 text of a string is escapable if and only if its bytes hold these five nowhere |
| EscapePatterns.OrdinaryText | dapp/scripts/crowdinToFbt.js:19-26 | The base64 text of a string without U+0001, or without an exclamation mark, is escapable |
| FirstDifference.FirstLoss | dapp/scripts/crowdinToFbt.js:19-24 | Escaped text is read back as it was up to its first SLASH or +LASH, where it shows another digit |
| FirstDifference.LostParts | dapp/scripts/crowdinToFbt.js:19-26 | A string whose base64 text is not escapable is not even the beginning of what is read back |
| FirstDifference.B64Exact | dapp/scripts/crowdinToFbt.js:19-26 | Decoding undoes encoding if and only if the base64 text is escapable |
| NameCodec.EncodedNameShape | dapp/scripts/fbtToCrowdin.js:39-58 | An encoded name holds the delimiter and no brace |
| ReadableName.PrintedName | dapp/scripts/fbtToCrowdin.js:39-58 | An encoded name is E_ for a leading =, VAR_, the readable form, _B64_, and the name in escaped base64 |
| ReadableName.DocumentedExample | dapp/scripts/fbtToCrowdin.js:23-24 | =Apple and banana becomes E_VAR_APPLE_AND_BANANA_B64_QXBwbGUgYW5kIGJhbmFuYQ |
| ReadableName.SanitizedIsReadable | dapp/scripts/fbtToCrowdin.js:48-51 | The three replacements come to one of each character: spaces become underscores, letters are upper case, other characters are dropped |
| ReadableName.ReadableIdempotent | dapp/scripts/fbtToCrowdin.js:48-51 | Sanitizing a readable form again changes nothing |
| NameCodec.FoundParts | dapp/scripts/crowdinToFbt.js:42-49 | What the split at the delimiter finds: too many parts, an early second part, or the base64 text |
| NameCodec.NameRoundTrip | dapp/scripts/crowdinToFbt.js:28-53 | A name that leaves the delimiter recognisable and is escapable is read back, the leading = included |
| NameCodec.NameThrows | dapp/scripts/crowdinToFbt.js:42-46 | The reader throws on an encoded name if and only if its readable form contains the delimiter |
| NameCodec.ReaderThrows | dapp/scripts/crowdinToFbt.js:28-46 | Over any text, when the reader throws and with which of its two errors |
| NameCodec.ReaderTakes | dapp/scripts/crowdinToFbt.js:42-52 | Over any text with one delimiter, the reader decodes what follows it |
| NameCodec.ReadsBase64 | dapp/scripts/crowdinToFbt.js:19-26 | Over any text, SLASH is undone first and PLUS second |
| NameCodec.EarlyName | dapp/scripts/crowdinToFbt.js:42-50 | A name whose readable form ends in _B64 comes back behind U+0007, U+FFFD and a question mark |
| NameCodec.NameDiffers | dapp/scripts/crowdinToFbt.js:28-53 | A name that breaks a condition makes the reader throw, or is not even the beginning of what is shown |
| NameCodec.NameExact | dapp/scripts/crowdinToFbt.js:28-53 | A name is read back if and only if it meets the two conditions |
| MessageCodec.Encode | dapp/scripts/fbtToCrowdin.js:60-97 | The character loop computes the shared bracket scan, or hides the whole message |
| MessageCodec.Decode | dapp/scripts/crowdinToFbt.js:56-86 | The character loop computes the shared bracket scan with its first error, or restores a hidden message |
| MessageCodec.ReadText | dapp/scripts/crowdinToFbt.js:56-63 | Which texts are taken for hidden messages, and what becomes of them |
| MessageCodec.ScanText | dapp/scripts/crowdinToFbt.js:64-85 | Text in front of the first bracket is copied |
| MessageCodec.ScanVariable | dapp/scripts/crowdinToFbt.js:64-85 | A variable reaches from its bracket to the next closing one, without the brackets that open inside; its own error comes before those of the rest |
| MessageCodec.ScanUnclosed | dapp/scripts/crowdinToFbt.js:64-85 | A bracket that never closes is dropped with all that follows |
| MessageCodec.ScanStray | dapp/scripts/crowdinToFbt.js:64-85 | A closing bracket without an opening one is a variable without a name |
| MessageCodec.ParseRenders | dapp/scripts/fbtToCrowdin.js:75-96 | A message with balanced, un-nested brackets is what its text characters and variables show |
| MessageCodec.ScanIsRenamed | dapp/scripts/crowdinToFbt.js:64-85 | The scan distributes over the text characters and variables of a message |
| Translation.BlobIffWhole | dapp/scripts/crowdinToFbt.js:57-62 | The parser takes for hidden exactly the messages that the printer hid |
| Translation.RoundTrip | dapp/scripts/crowdinToFbt.js:56-86 | Parsing what was printed gives the message back, without throwing, when every base64 text is escapable and every name leaves the delimiter recognisable |
| Translation.RoundTripExact | dapp/scripts/crowdinToFbt.js:56-86 | A message is given back if and only if every base64 text is escapable and every name leaves the delimiter recognisable |
| Translation.OrdinaryMessage | dapp/scripts/crowdinToFbt.js:56-86 | A message without U+0001, or without an exclamation mark, is given back if and only if it was hidden whole or every name leaves the delimiter recognisable |
| Translation.WholeShape | dapp/scripts/fbtToCrowdin.js:61-73 | A balanced message is hidden whole if and only if it starts with a variable with a leading = and ends in a variable |
| Translation.HiddenAs | dapp/scripts/fbtToCrowdin.js:60-73 | A hidden message is one variable, VAR_ and everything between the outer brackets in escaped base64 |
| Translation.HiddenWithText | dapp/scripts/fbtToCrowdin.js:61-73 | Any text between two such variables is hidden with them, as in {=a} and {=b} |
| Translation.EncodedBalanced | dapp/scripts/fbtToCrowdin.js:75-96 | The printed message has balanced brackets around exactly the encoded variables, in order, and the text of the message around them |
| Translation.TranslatorFreedom | dapp/scripts/crowdinToFbt.js:64-85 | After any reordering of the encoded variables and any rewriting of the text around them, the parser shows the new text with the original variables in the new order |
| Translation.OneVariable | dapp/scripts/fbtToCrowdin.js:60-97 | A message that is one variable survives if and only if its name can be read back, or, with a leading =, if and only if its base64 text is escapable |
| Translation.BrokenName | dapp/scripts/crowdinToFbt.js:42-50 | The message {_B64} does not survive |
| Translation.LostName | dapp/scripts/crowdinToFbt.js:19-26 | A variable named a, U+010B, U+0001, exclamation mark, U+00E9 does not survive |
| TransactionListenerComponent.TransactionListener.constructor | dapp/src/components/TransactionListener.js:20-26 | A component without an account, over the lists stored by earlier visits |
| TransactionListenerComponent.TransactionListener.StoreTransaction | dapp/src/hoc/withRpcProvider.js:37-54 | A submitted transaction is queued as pending |
| TransactionListenerComponent.TransactionListener.StoreTransactionError | dapp/src/hoc/withRpcProvider.js:19-35 | A failed submission is queued as a mined error without sender and nonce |
| TransactionListenerComponent.TransactionListener.UpdateTransactions | dapp/src/components/TransactionListener.js:152-164 | Entries replace those with the same hash, end up last, and the list is saved for the selected account |
| TransactionListenerComponent.TransactionListener.Load | dapp/src/components/TransactionListener.js:170-189 | The stored list is shown with the observed flags cleared and the queues emptied |
| TransactionListenerComponent.TransactionListener.ObserveTransactions | dapp/src/components/TransactionListener.js:247-268 | Pending entries are marked, saved and waited for; error entries follow at once or when the waits are over |
| TransactionListenerComponent.TransactionListener.ConsumeQueues | dapp/src/components/TransactionListener.js:50-64 | Queued transactions go before dismissals, which wait for the next rendering |
| TransactionListenerComponent.TransactionListener.ComponentDidUpdate | dapp/src/components/TransactionListener.js:35-72 | One rendering: loading on an account switch, then the queues, then the listener for replacements |
| TransactionListenerComponent.TransactionListener.ComponentDidMount | dapp/src/components/TransactionListener.js:28-33 | Mounting with an account clears the store, loads and observes what was loaded |
| TransactionListenerComponent.TransactionListener.SelectAccount | dapp/src/components/TransactionListener.js:35-48 | Every change of the account is one rendering that loads |
| TransactionListenerComponent.TransactionListener.OnWaitFailed | dapp/src/components/TransactionListener.js:237-244 | A wait that fails ends without changing any entry |
| TransactionListenerComponent.TransactionListener.OnReceipt | dapp/src/components/TransactionListener.js:204-236 | A receipt of the selected account marks its entry mined; any other is ignored |
| TransactionListenerComponent.TransactionListener.FinishBatch | dapp/src/components/TransactionListener.js:258-267 | When all waits of a batch are over, its error entries are shown |
| TransactionListenerComponent.TransactionListener.HandlePossibleReplacedTransaction | dapp/src/components/TransactionListener.js:89-122 | A pending entry with the event's nonce is replaced by a mined one with the event's hash |
| TrackerEffects.ReceiptConfirms | dapp/src/components/TransactionListener.js:204-236 | A receipt of the selected account leaves one mined entry with its hash, block and outcome, takes exactly that hash off the pending ones and touches no other entry; under another account nothing changes |
| TrackerEffects.ReplacementSwaps | dapp/src/components/TransactionListener.js:95-119 | An event replaces exactly the one pending entry with its nonzero nonce, and no other entry |
| TrackerEffects.NoReplacement | dapp/src/components/TransactionListener.js:92-99 | Without a pending entry of its nonce, or with nonce zero, an event changes nothing |
| TrackerEffects.DismissRemoves | dapp/src/components/TransactionListener.js:55-64 | Exactly the requested hashes leave the shown and the stored list |
| TrackerEffects.QueueTakenOver | dapp/src/components/TransactionListener.js:50-54 | Every queued entry is shown, or held back as an error for its batch, every pending one is waited for, and the list loses nothing |
| TrackerEffects.ObserveExactly | dapp/src/components/TransactionListener.js:247-268 | Observing starts one batch that waits for exactly the pending entries not observed yet and holds exactly the error entries back, or none |
| TrackerEffects.QuietRendering | dapp/src/components/TransactionListener.js:35-72 | A rendering with empty queues only sets the listener, which runs if and only if something shown is pending |
| TrackerEffects.RequestedDismissal | dapp/src/components/TransactionListener.js:55-64 | A requested dismissal takes exactly the entries with its hash off |
| TrackerEffects.TailShown | dapp/src/components/TransactionListener.js:258-267 | When the waits of a batch are over while its account is selected, all its error entries are shown and stored |
| TrackerEffects.WaitEnds | dapp/src/components/TransactionListener.js:197-245 | A wait that ends is taken off its batch, and no other |
| TrackerEffects.UpsertInOrder | dapp/src/components/TransactionListener.js:152-164 | The given entries end up last, and all others keep their order |
| TrackerEffects.LastMatchStands | dapp/src/components/TransactionListener.js:92-119 | Of several pending entries with an event's nonce, in whatever list, the last one is replaced |
| TrackerWaits.LoadedAreWaited | dapp/src/components/TransactionListener.js:170-189 | Once an account is selected, every pending entry stored for it is shown and waited for |
| TrackerWaits.MountedAreWaited | dapp/src/components/TransactionListener.js:28-33 | So it is when the component is mounted |
| TrackerWaits.SelectedState | dapp/src/components/TransactionListener.js:45-72 | After a switch with empty queues, the queues are empty and entries are observed if and only if they are pending |
| TrackerWaits.WaitsStay | dapp/src/components/TransactionListener.js:197-245 | Only its own receipt and the failure of its own wait end the wait for a hash |
| TrackerWaits.PendingIsWaitedFor | dapp/src/components/TransactionListener.js:35-268 | After every run that mixes up no lists, everything shown as pending is waited for, unless a wait for its hash has failed |
| TrackerSafety.StepKeepsInv | dapp/src/components/TransactionListener.js:35-268 | Every step that mixes up no lists keeps the lists of all accounts consistent with the chain, with distinct hashes and nonces, and what is shown equal to what is stored |
| TrackerSafety.ReplacementKeeps | dapp/src/components/TransactionListener.js:95-119 | A replacement event keeps hashes and nonces distinct |
| TrackerRuns.StepExactly | dapp/src/components/TransactionListener.js:35-268 | From a consistent state a step leaves every list with distinct hashes and nonces and with entries of its own account only, and what is shown equal to what is stored, if and only if it is no switch that writes another account's entries and shows no error entries to another account |
| TrackerRuns.EveryRunIsConsistent | dapp/src/components/TransactionListener.js:35-268 | From the first step on, the lists of all accounts stay so throughout a run if and only if all its steps are such |
| TrackerRuns.StrayTail | dapp/src/components/TransactionListener.js:258-267 | Error entries whose batch ends while another account is selected are all stored for that account |
| TrackerRuns.RunSettled | dapp/src/components/TransactionListener.js:35-268 | A hash that is pending in no list, queue or tail never is again, over every run, whatever is switched when |
| TrackerRuns.MinedStaysMined | dapp/src/components/TransactionListener.js:89-268 | A transaction that is stored as mined while the lists are consistent is never again shown, stored or queued as pending, over any later run and under any account |
| TrackerRuns.NothingIsLost | dapp/src/components/TransactionListener.js:35-268 | Over a run that mixes up nothing, dismisses nothing and selects accounts with an empty queue, every stored entry stays, mined if it was, or the transaction mined with its nonce takes its place |
| TrackerRuns.AwayKeepsStored | dapp/src/components/TransactionListener.js:197-216 | While an account is not selected nothing changes what is stored for it, whatever arrives |
| TrackerSwitches.MountIsSwitch | dapp/src/components/TransactionListener.js:28-48 | Mounting with an account is selecting it in an unused store |
| TrackerSwitches.QuietSwitchKeeps | dapp/src/components/TransactionListener.js:178-195 | Loading an account keeps every entry stored for it, in memory and in storage |
| TrackerRuns.SwitchAwayAndBack | dapp/src/components/TransactionListener.js:35-64 | Leaving an account and coming back shows the same entries, whatever happened in between, up to order and the observed flag, if and only if the switch back meets the condition of SwitchKeepsExactly |
| TrackerSwitches.SwitchKeepsExactly | dapp/src/components/TransactionListener.js:45-64 | A switch keeps what is stored for the selected account if and only if nothing is queued and nothing is to be dismissed, or the dismissal leaves nothing and the entries are all pending or all errors |
| TrackerSwitches.QueueTakesOver | dapp/src/components/TransactionListener.js:45-54 | A queue that waited while no account was selected is written over the list of whatever account is selected next, of which no mined transaction is left |
| TrackerMixups.DuplicateHash | dapp/src/components/TransactionListener.js:45-135 | After a transaction was stored for the wrong account, two events of one transaction leave its hash twice |
| TrackerMixups.PendingAgain | dapp/src/components/TransactionListener.js:45-64 | A transaction stored as mined is stored as pending for the same account after two more switches |
| TrackerMixups.DismissalClears | dapp/src/components/TransactionListener.js:55-64 | A dismissal that waits during a switch clears the stored list of the selected account |
| TrackerMixups.QueueOverwrites | dapp/src/components/TransactionListener.js:50-54 | A transaction that is queued during a switch takes the place of the stored list of the selected account |
| TrackerMixups.ReconnectOverwrites | dapp/src/components/TransactionListener.js:38-54 | A transaction that is queued during a disconnect takes the place of the stored list of its own account |
| TrackerMixups.TailMisplaced | dapp/src/components/TransactionListener.js:258-267 | A failed submission that waits behind a pending transaction is stored for the account that is selected when the wait ends |
| StakeHashes.HashStorage.GetTempHashStorage | dapp/src/utils/stake.js:48-54 | The temporary store as it was last saved, also after a page load |
| StakeHashes.HashStorage.AddStakeTxHashToWaitingBuffer | dapp/src/utils/stake.js:59-94 | The hash joins the entry of its key in the temporary store, which is saved |
| StakeHashes.HashStorage.DecorateContractStakeInfoWithTxHashes | dapp/src/utils/stake.js:96-142 | The loop moves hashes between the stores stake by stake, returns what each stake is shown with, and saves both stores |
| StakeHashes.AssignedExactly | dapp/src/utils/stake.js:109-130 | A stake that is not known yet is shown with the hash waiting under its duration and amount if and only if no unknown stake of the same duration and amount comes before it |
| StakeHashes.SecondAddDisplaces | dapp/src/utils/stake.js:76-89 | A second hash added under one key displaces the first |
| StakeClaims.AddedEntry | dapp/src/utils/stake.js:59-94 | An add changes only the hash or only the claim hash of one entry |
| StakeClaims.ClaimIsTaken | dapp/src/utils/stake.js:109-130 | A claim that waits for a known stake is shown, remembered, and waits no longer |
| StakeClaims.ShownClaim | dapp/src/utils/stake.js:101-137 | A known stake is shown with the claim that waits for it, or else the one remembered |
| StakeClaims.NoClaimYet | dapp/src/utils/stake.js:101-137 | A stake that is not known is shown without a claim |
| StakeClaims.ShownClaimStays | dapp/src/utils/stake.js:96-142 | A claim once shown is shown in every later decoration, until something is added under the stake's own key |
| StakeClaims.ClaimsConserved | dapp/src/utils/stake.js:109-130 | A decoration neither loses nor duplicates a claim hash, if and only if it replaces none, told beforehand |
| StakeHashes.AssignedHashStays | dapp/src/utils/stake.js:109-130 | Over every run of adds and decorations a stake that was given a hash keeps it |
| StakeHashes.HashesConserved | dapp/src/utils/stake.js:109-130 | A decoration neither loses nor duplicates a stake hash, if and only if no stake whose key with an end holds one is known already or takes another hash earlier in the list |
| StakeHashes.DistinctConserved | dapp/src/utils/stake.js:109-130 | When no stake is listed twice, that is if and only if no listed stake is known and has one waiting with its end |
| StakeHashes.EndLosesHash | dapp/src/utils/stake.js:59-130 | A hash added with an end but not as a claim is lost in the second decoration |
| StakeHashes.RunConserves | dapp/src/utils/stake.js:59-150 | When adds give an end only for claims, every decoration of every run conserves every stake hash |
| StakeHashes.TwoDecorationsSettle | dapp/src/utils/stake.js:96-150 | With the same stakes, what two decorations leave is changed by no further one |
| StakeHashes.OnceIsNotEnough | dapp/src/utils/stake.js:117-130 | One decoration is not enough when a stake's hash and its claim wait together |
| StakeHashes.ShownIsRemembered | dapp/src/utils/stake.js:101-137 | Each stake is shown with the hash that the resilient store remembers for it after the decoration |
| StakeHashes.ShownHashStays | dapp/src/utils/stake.js:96-142 | A stake that was once shown with a hash is shown with it in every later decoration, whatever is added in between |
| MergeSpec.MergeIdempotent | dapp/src/utils/utils.js:15-35 | Merging a source a second time changes nothing |
| MergeSpec.LastSourceIdempotent | dapp/src/utils/utils.js:15-35 | Naming the last of several sources twice makes no difference |
| MergeSpec.MergePath | dapp/src/utils/utils.js:21-32 | What the merge holds at every path: below a truthy non-object, own or inherited, a source object leaves the target alone, else source values that are no objects win, source objects make objects, and the target stays where the source has nothing |
| MergeSpec.InheritedBlocks | dapp/src/utils/utils.js:23-27 | A source object at an inherited name that the target lacks is not merged |
| MergeSpec.MergedUnlessInherited | dapp/src/utils/utils.js:23-27 | Where the target has nothing, a source object is merged under every name but eleven |
| MergeSpec.NothingToMerge | dapp/src/utils/utils.js:21 | A source that is no object changes nothing, and neither does any source of a target that is none |
| MergeSpec.SourcesInOrder | dapp/src/utils/utils.js:15-20 | Sources are merged one by one from the left |
| DeepMerge.EnsureObject | dapp/src/utils/utils.js:24-26 | Where nothing truthy is seen, own or inherited, there is room for a new empty object |
| DeepMerge.MergeInto | dapp/src/utils/utils.js:21-32 | The loop over the keys of a source, in any order, writes the merge into the target and nothing else |
| DeepMerge.MergeDeep | dapp/src/utils/utils.js:15-35 | Terminates; the target becomes the fold of its sources from left to right, the sources stay as they were, and no object of a source becomes reachable from the target |
| Supply.RecomputedExactly | spec/math.spec:38-46 | The recomputed supply is T + floor(((RC * 1e18) mod (T - NR)) / RCPT) |
| Supply.Overshoot | spec/math.spec:3-15 | The supply never shrinks and overshoots by at most (T - NR - 1) / RCPT |
| Supply.GoalExactly | spec/math.spec:38-49 | The goal T2 <= T or T2 == NR is met if and only if the remainder is below RCPT |
| Supply.BoundExactly | spec/math.spec:24-35 | The goal T2 <= MAX_SUPPLY is met if and only if the remainder is below (MAX_SUPPLY - T + 1) * RCPT |
| Supply.GoalsCanFail | spec/math.spec:24-49 | Concrete supplies at which either goal is missed |
| Supply.InNumbers | spec/math.spec:15-22 | The formulas with 18 decimal places and a largest supply of 2^128 - 1 |
| Vesting.EnrichStakeData | dapp/src/utils/stake.js:208-266 | The shown end, the share as the elapsed share up to that end, and accrued and remaining interest as the share and the rest of it, amounts below 0.000001 being shown as nothing |
| Vesting.ElapsedExactly | dapp/src/utils/stake.js:238-243 | The elapsed share is the time passed over the duration, clamped |
| Vesting.FallsExactly | dapp/src/utils/stake.js:226-252 | The shown share falls from one instant to a later one if and only if the shift ends in between, less than three minutes apart and before the stake ends |
| Vesting.FallsAtTheStart | dapp/src/utils/stake.js:226-235 | For every duration the share falls to zero at the start from what it was at any instant of the three minutes before |
| Vesting.FallsAfterTwoHours | dapp/src/utils/stake.js:226-235 | For every duration above two hours the share falls when two hours are over |
| Vesting.FallsOnlyThen | dapp/src/utils/stake.js:226-252 | The share is less than before only at the start, and within three minutes after two hours of a longer stake |
| Compensation.ComputeTotal | contracts/scripts/compensation/compensationSync.js:131-137 | The loop sums the amounts |
| Compensation.SplitIntoBatches | contracts/scripts/compensation/compensationSync.js:113-129 | The batches joined are the accounts, all but the last are full, none is empty, and only a zero batch size fails |
| Compensation.BatchTotals | contracts/scripts/compensation/compensationSync.js:139-145 | The totals reported per batch add up to the total of all accounts |
| Compensation.CheckAccounts | contracts/scripts/compensation/compensationSync.js:28-64 | The accounts are sorted, in order, into those whose claim is as expected and the others |
| Compensation.Sync.Verify | contracts/scripts/compensation/compensationSync.js:19-96 | The verification succeeds if and only if every claim and the total are as expected |
| Compensation.Sync.CompensationSync | contracts/scripts/compensation/compensationSync.js:176-220 | Which outcome is reported when, and that exactly the wrong accounts are uploaded, in order, in transactions of 100 but for the last |
| Compensation.UploadConcat | contracts/scripts/compensation/compensationSync.js:205-211 | Uploading batch after batch is uploading all at once |
| Compensation.OneMoreRow | contracts/scripts/compensation/compensationSync.js:147-156 | What one more uploaded row does to every claim and to the total: the last row of an account counts |
| Compensation.OneUploadCorrects | contracts/scripts/compensation/compensationSync.js:187-213 | One upload makes every expected account correct if and only if no two rows with one address disagree on the amount, and touches no other account |
| Compensation.Converges | contracts/scripts/compensation/compensationSync.js:200-219 | After one upload no account is wrong, and the total matches if and only if the contract held nothing beyond the expected accounts before |

## Left out

- The token, vault, governor and strategy contracts and the rules over them: outside the scripts and components modelled here.
- Keccak itself, and widths other than those that ethers packs; amounts are unbounded nonnegative integers, and the uint256 overflow checks of `setClaims` are not modelled.
- Index and depth are exact numbers; JavaScript's loss of precision above 2^53 is not modelled.
- Digests are compared as bytes; the letter case of hexadecimal text is not modelled. `contracts/scripts/staking/airDropVerification.js` passes the type as a BigNumber object, for which the check against 0 never fires.
- Reading and writing of files, CSV and JSON, and console output.
- Lone surrogates in messages, and the round trip of messages with unbalanced or nested brackets; the scan itself is modelled for them.
- React rendering, wallet connections, web sockets and the waiting itself; the simulated delay in development mode; `expandedTransaction`.
- The write under the key of a missing account when error entries are shown after a disconnect; they are shown without being stored.
- TrackerRuns.MinedStaysMined: the run up to the mined entry mixes up nothing, which `TrackerMixups.PendingAgain` shows to be needed; of the runs after it nothing is required.
- TrackerRuns.SwitchAwayAndBack: leaving the account, and what follows until the switch back, mixes up nothing.
- DeepMerge.MergeInto: own properties called `__proto__` are excluded by the key type, because their merge writes into the prototype that all objects share.
- DeepMerge.MergeDeep: the same keys are excluded.
- The catch branch of the decoration, which returns the stakes unchanged after a storage error.
- Number formatting, rates, dates and status texts of `enrichStakeData`.
- Inherited enumerable properties, own properties called `__proto__`, getters and cyclic objects in `mergeDeep`; arrays and functions are opaque values there.
- The wallet balances that `verify` only prints, and transactions that fail to confirm.
