# A verified model of the wallet's Bitcoin core, its ledgers and its signer

The project models three parts of the repository in Dafny and proves what they promise.

**Bitcoin codecs, transactions and coin selection.** `Bech32Checksum`, `BitRegroup` and `Bech32` are
the BIP 173 address codec: the checksum as a linear map over GF(2), the two bit-regrouping loops
against a reading of the stream as plain bits, and the address functions on top. `Base58` and
`ExtendedKeys` are Base58Check and BIP 32 serialisation and derivation. `TxFormat`, `Hex`, `Der` and
`TxBuild` are the transaction builder with an independent parser for what it writes, and `Sighash` says
from the broadcast bytes what each signature signs. `CoinSelect` is
the greedy coin selector with its size estimate, and `Payment` puts selection, outputs and serialised
size together. Hashes, HMAC, signing and the curve are function-valued parameters; the laws a lemma
needs are predicates over them, and a two-point group shows the curve laws can hold
(`ExtendedKeys.ToyLaws`).

**Ledgers.** `UtxoStore` is the UTXO table with its UPDATE statements, `SendProtocol` interleaves
single statements of any number of sends, scans and confirmation trackers, `SendPaths` follows
single sends to their ends, and `SendNetwork` says exactly which answers of the provider keep
transactions on the network apart. `NfcLedger` is the NFC
ledger as a database value with one function per SQL transaction (a reported error is a rollback);
`NfcConservation`, `NfcReconciliation`, `NfcExposure`, `NfcLifecycle`, `NfcIdempotency` and `NfcTokens`
prove what every reachable database satisfies, `NfcRequests` what single requests do; `NfcDatabase` changes the tables in place, statement by statement,
and is proved to end where the ledger's functions say.

**Signer.** `SignerStore` is the mutex-protected store as an object; `SignerNonces` follows its nonces
over whole runs, in memory and in Postgres; `SignerProtocol` interleaves concurrent requests.
`RpcEndpoint` and `RpcFleet` are the sliding-window load, the catch-up decay and the choice of
endpoints.

`Common`, `Radix`, `Text` and `Rows` hold shared vocabulary: powers, positional notation, ASCII
strings, sums and look-ups over table rows. An imperative method is proved against the function that
specifies it; the other results are lemmas about those functions. `dafny verify dfyconfig.toml` checks
everything.

## Where the code does less than one would expect

Each of these is stated exactly, with its condition and a concrete run or input.

- `SelectUTXOs` can keep a change output while charging for one output
  (`CoinSelect.DecideBalances` says exactly when, `CoinSelect.UnderpaidExample` is an instance); the
  fee then falls short of the rate by at most one output (`Payment.SendPays`).
- `SelectUTXOs` may report insufficient funds although a transaction without change could be paid for,
  exactly when the dust limit is below the price of a change output (`CoinSelect.OneOutputCompleteIff`).
- `EstimateVSize` bounds the real size exactly up to 252 inputs and 252 outputs (`TxBuild.EstimateSoundIff`).
- `segwitAddrEncode` accepts an empty prefix and version-0 programs of any length, which
  `segwitAddrDecode` refuses (`Bech32.SegwitRoundTrip` gives the exact condition).
- Private and public derivation of a child agree if and only if the parent scalar is not zero modulo
  the order or the point at infinity survives compression (`ExtendedKeys.CommutingSquare`);
  `ExtendedKeys.ZeroParentDisagrees` shows a zero key for which the public side is refused or gives
  another key.
- The provider wraps `ErrBroadcastUnknown` and `Send` compares it with `==`, so a connection lost
  after delivery releases the coins, and a second transaction with the same input can reach the
  network (`SendProtocol.LostReplyDoubleSpends`). Transactions on the network stay disjoint if and only
  if every delivered one is answered with acceptance or the bare sentinel (`SendNetwork.NetworkSafeIff`):
  not with the comparison as written (`SendNetwork.WrittenComparisonUnsafe`), and with an unwrapping
  comparison exactly if refused posts are never delivered (`SendNetwork.UnwrappedComparisonSafeIff`).
  Transactions recorded as broadcast are disjoint in any case (`SendProtocol.NoDoubleSpend`).
- A failed reservation leaves the rows it did reserve: the table is unchanged exactly if no requested
  coin was confirmed (`UtxoStore.ReserveUnchangedIff`, `UtxoStore.FailedReserveKeepsRow`).
- A retry of an NFC authorisation is refused as a different payload exactly when its wallet was written
  with surrounding blanks (`NfcIdempotency.RetryRecognised`).
- Without the liquidity policy a capture raises the exposure by the whole amount
  (`NfcExposure.CaptureExposure`).
- The Postgres chain nonces are never handed out twice but need not increase: a run's nonces increase
  if and only if at every reservation the failed ones are behind the pending value or an active nonce
  (`SignerNonces.HandedIncreaseIff`, per call `SignerNonces.ReserveAboveAllIff`), so always when nothing
  is marked failed (`SignerNonces.IncreaseWithoutFailures`); `SignerNonces.FailedRowForgotten` is a run
  that does not increase. A failed nonce also blocks reservations at its own value
  (`SignerNonces.ReserveRowExactly`). The in-memory nonces increase if and only if nothing is asked for
  after the last 64-bit value (`SignerNonces.IncreasingIff`, `SignerNonces.WrapRepeats`).
- Requests are protected from executing side by side if and only if their idempotency key is not empty
  (`SignerProtocol.ProtectedIff`).

## Model

| member | source | states |
|---|---|---|
| Bech32Checksum.ComputePolymod | internal/bitcoin/bech32.go:68-80 | the nested loops compute the fold of one linear step over the symbols |
| Bech32Checksum.StepLinear | internal/bitcoin/bech32.go:68-80 | the step distributes over exclusive or, for all states and symbols |
| Bech32Checksum.StepInjective | internal/bitcoin/bech32.go:68-80 | no two 30-bit states merge on the same symbol |
| Bech32Checksum.BurstDetected | internal/bitcoin/bech32.go:68-80 | sequences differing only inside a window of at most six symbols never have the same checksum |
| Bech32Checksum.KnownChecksum | internal/bitcoin/bech32.go:68-80 | the polymod of BIP 173's first test vector, which goes through all five generators, is one |
| Bech32Checksum.ComputeChecksum | internal/bitcoin/bech32.go:119-135 | the encoder's loop produces the six checksum symbols |
| Bech32Checksum.ChecksumUnique | internal/bitcoin/bech32.go:119-160 | a six-symbol suffix verifies if and only if it is the one the encoder appends |
| BitRegroup.ConvertBits | internal/bitcoin/bech32.go:92-117 | the masked accumulator loop, errors included, equals regrouping the stream read as plain bits |
| BitRegroup.PaddedStream | internal/bitcoin/bech32.go:92-117 | padding only appends fewer than one group of zero bits to the stream |
| BitRegroup.RegroupRoundTrip | internal/bitcoin/bech32.go:92-117 | padded regrouping to narrower symbols is undone by strict regrouping, for all widths |
| BitRegroup.RegroupCanonical | internal/bitcoin/bech32.go:92-117 | strict regrouping accepts only what padded regrouping produces |
| Bech32.ExpandHrp | internal/bitcoin/bech32.go:82-90 | the loops build the expanded prefix: high bits, zero, low bits |
| Bech32.EncodeString | internal/bitcoin/bech32.go:119-135 | the encoder writes the lower-case prefix, the separator, the data and its checksum |
| Bech32.DecodeString | internal/bitcoin/bech32.go:137-160 | the decoder, with its order of errors, equals the specification Decode |
| Bech32.EncodeDecode | internal/bitcoin/bech32.go:119-160 | decoding an encoding gives prefix and data back, except that an empty prefix is refused |
| Bech32.DecodeEncode | internal/bitcoin/bech32.go:119-160 | every accepted string is, in lower case, the encoding of what it decodes to |
| Bech32.KnownString | internal/bitcoin/bech32.go:137-160 | BIP 173's first test vector decodes to its prefix and an empty data part |
| Bech32.AcceptedBurst | internal/bitcoin/bech32.go:137-160 | under one prefix, at most one of the data parts that differ inside a six-symbol window is accepted |
| Bech32.SegwitRoundTrip | internal/bitcoin/bech32.go:162-203 | encode then decode returns version and program if and only if the prefix is non-empty and a version-0 program has 20 or 32 bytes |
| Bech32.SegwitCanonical | internal/bitcoin/bech32.go:162-203 | re-encoding what an accepted address decodes to gives its lower-case form |
| Bech32.SegwitAcceptsIff | internal/bitcoin/bech32.go:162-203 | an address is accepted with a version and program if and only if it is not in mixed case and is, in lower case, their encoding under a non-empty prefix |
| Bech32.SegwitEncodes | internal/bitcoin/bech32.go:162-175 | the encoder accepts exactly versions 0 to 16 and programs of 2 to 40 bytes |
| Bech32.SegwitSpellings | internal/bitcoin/bech32.go:177-203 | two accepted spellings of one program differ only in case |
| Bech32.AddressScript | internal/bitcoin/bech32.go:18-59 | the address of a key decodes to its hash, and paying to it uses that key's own script |
| Bech32.ScriptFromAddress | internal/bitcoin/tx.go:270-281 | a script built from an address is 22 bytes and starts as a P2WPKH program |
| Base58.EncodeBytes | internal/bitcoin/base58.go:83-109 | repeated division, leading ones and in-place reversal compute the base-58 spelling |
| Base58.Reverse | internal/bitcoin/base58.go:104-108 | swapping from both ends reverses the array in place |
| Base58.SpellDigits | internal/bitcoin/base58.go:83-109 | the division loop leaves the base-58 digits, least significant first |
| Base58.DecodeString | internal/bitcoin/base58.go:15-49 | the multiply-and-add loop and the leading-one count compute the specified bytes or the bad-character error |
| Base58.DecodeEncode | internal/bitcoin/base58.go:15-109 | decoding undoes encoding on every byte string, leading zeros and all zeros included |
| Base58.EncodeDecode | internal/bitcoin/base58.go:15-109 | encoding undoes decoding on every accepted string |
| Base58.AlphabetSpelled | internal/bitcoin/base58.go:8-13 | the digits are the 58 letters of the alphabet in order |
| Base58.CheckAccepts | internal/bitcoin/base58.go:51-68 | a string is accepted exactly if it decodes to a payload followed by the first four bytes of the payload's hash |
| Base58.CheckDecodeEncode | internal/bitcoin/base58.go:51-81 | Base58Check returns every payload |
| Base58.CheckEncodeDecode | internal/bitcoin/base58.go:51-81 | every accepted Base58Check string is the encoding of its payload |
| ExtendedKeys.Render | internal/bitcoin/key_export.go:73-82 | filling the 78-byte buffer field by field gives the specified string |
| ExtendedKeys.XPubRoundTrip | internal/bitcoin/bip32.go:36-63 | parsing a serialised key gives every field back, and returns the same key if and only if version, network and key kind agree |
| ExtendedKeys.XPrivRoundTrip | internal/bitcoin/service.go:614-646 | the same for private keys, with the exact error otherwise |
| ExtendedKeys.AcceptedVersions | internal/bitcoin/bip32.go:36-63 | exactly four public and two private versions are accepted, and which network each stands for |
| ExtendedKeys.ParsedStringsCanonical | internal/bitcoin/bip32.go:36-63 | an accepted key string is the serialisation of what it parses to |
| ExtendedKeys.PrivateChildScalar | internal/bitcoin/bip32.go:159-216 | a private child holds the left half of the HMAC of parent and big-endian index plus the parent scalar, modulo the order and non-zero; chain code is the right half; every other field is stated |
| ExtendedKeys.PublicChildPoint | internal/bitcoin/bip32.go:97-155 | a public child is the parent point plus the left half of the HMAC of parent key and big-endian index times the generator; every other field is stated |
| ExtendedKeys.ChildrenDiffer | internal/bitcoin/bip32.go:116-121 | where the HMAC tells messages apart, two indices never give one chain code |
| ExtendedKeys.CommutingSquare | internal/bitcoin/bip32.go:97-216 | for every private parent, neutering a private child equals the public child of the neutered parent in every field if and only if the parent scalar is non-zero or infinity survives compression, and the failures correspond |
| ExtendedKeys.NonzeroParent | internal/bitcoin/bip32.go:97-216 | the square commutes for every parent scalar that is not zero modulo the order |
| ExtendedKeys.ZeroParent | internal/bitcoin/bip32.go:97-216 | for a parent scalar zero modulo the order the square commutes exactly when infinity survives compression |
| ExtendedKeys.ZeroParentDisagrees | internal/bitcoin/bip32.go:97-216 | with a zero key private derivation succeeds while the public one is refused, gives another key or agrees, according to how infinity is read back |
| ExtendedKeys.PublicChildOfPrivate | internal/bitcoin/bip32.go:97-155 | deriving publicly from a private key differs from neutering first only in the version bytes |
| ExtendedKeys.NeuterParses | internal/bitcoin/key_export.go:62-70 | a neutered key serialises to a string that parses back to it, Testnet standing for all test networks |
| ExtendedKeys.SigningKeyMatchesAddress | internal/bitcoin/addr.go:10-65 | for every account whose square commutes, the key derived to spend at an index is the key behind the address handed out for that index |
| TxFormat.ReadVarintWrites | internal/bitcoin/util.go:22-38 | the variable-length integer reads back, whatever follows, for all 64-bit values |
| TxFormat.SegwitParses | internal/bitcoin/tx.go:162-203 | the broadcast bytes parse back to the same outpoints, outputs and witnesses |
| TxFormat.LegacyParses | internal/bitcoin/tx.go:206-235 | the bytes hashed for the txid parse back to outpoints and outputs |
| TxFormat.LegacyDetermines | internal/bitcoin/tx.go:206-235 | the hashed bytes determine what is spent and what is paid |
| TxFormat.StripWitness | internal/bitcoin/tx.go:162-235 | removing marker, flag and witnesses from the broadcast bytes gives exactly the hashed bytes |
| Hex.ComputeReverseTxid | internal/bitcoin/util.go:54-68 | the loop fills the reversed 32 bytes or reports a bad id |
| Hex.NibbleExactly | internal/bitcoin/util.go:70-80 | exactly the sixteen digits in either case are accepted, with their values |
| Hex.TxidOrder | internal/bitcoin/util.go:54-80 | the first two digits of an id are the last byte on the wire, both ways |
| Hex.TxidRoundTrip | internal/bitcoin/util.go:54-80 | transaction ids and wire hashes determine each other up to case |
| Der.EncodeLength | internal/bitcoin/tx.go:238-258 | a low-S signature takes at most 71 bytes, 72 with the hash type |
| Der.DecodeEncode | internal/bitcoin/tx.go:238-258 | the DER encoding reads back to the same two integers |
| Der.OrderIs | internal/bitcoin/tx.go:147-151 | the order of the curve, by its distance from 2^256 |
| Der.LowSRange | internal/bitcoin/tx.go:147-151 | normalising gives an S between 1 and half the order |
| TxBuild.BuildAndSign | internal/bitcoin/tx.go:37-203 | the buffers appended in the loops are the specified bytes and id, or the first error in the code's order |
| TxBuild.BuiltExactly | internal/bitcoin/tx.go:37-203 | with a signer that answers, a transaction is built if and only if it has inputs and outputs and every input has a 64-digit id, a P2WPKH script and a compressed key |
| TxBuild.CollectOutPoints | internal/bitcoin/tx.go:53-63 | the input loop collects all outpoints and their concatenation, or fails on a bad id |
| TxBuild.SignAll | internal/bitcoin/tx.go:37-203 | the signing loop gives each input's witness or stops at the first error |
| TxBuild.ComputeTxid | internal/bitcoin/tx.go:206-235 | the id is the reversed double hash of the bytes without witnesses |
| TxBuild.BuiltTransaction | internal/bitcoin/tx.go:37-235 | whatever is built parses back to the requested inputs and outputs, one low-S witness per input, and its id hashes the stripped bytes |
| TxBuild.SignedWitnesses | internal/bitcoin/tx.go:141-158 | every witness is a readable low-S signature with SIGHASH_ALL and the input's public key |
| Sighash.SignedDigest | internal/bitcoin/tx.go:85-160 | each witness in the broadcast bytes holds the signer's own r and the smaller equivalent s for the BIP 143 digest read off those bytes, the coin's value and the key hash in its script |
| Sighash.PreimageFits | internal/bitcoin/tx.go:110-122 | the 182 bytes hashed are, position by position, the fields BIP 143 names, cut from the broadcast bytes |
| Sighash.Located | internal/bitcoin/tx.go:162-203 | a reader finds the input and output sections where they were written |
| TxBuild.SizeBound | internal/bitcoin/coin_select.go:28-33 | the size of the serialised transaction is at most the estimate plus the extra count bytes, and reaches it with 72-byte signatures |
| TxBuild.EstimateSoundIff | internal/bitcoin/coin_select.go:28-33 | the estimate bounds every transaction with these counts if and only if both are at most 252 |
| CoinSelect.SelectUtxos | internal/bitcoin/coin_select.go:42-105 | selection uses each coin once, balances, returns change exactly when the remainder is not dust and exceeds the price of a change output, charges exactly the one- or two-output fee then and less than dust above it otherwise, uses the fewest coins that can cover the two-output cost, and fails only if no choice can |
| CoinSelect.Accumulate | internal/bitcoin/coin_select.go:59-97 | the accumulation loop stops at the first prefix the branch analysis accepts |
| CoinSelect.GreedyDominates | internal/bitcoin/coin_select.go:52-65 | no k coins are worth more than the first k in descending order |
| CoinSelect.SelectionOptimal | internal/bitcoin/coin_select.go:52-105 | for any descending order, no smaller choice (on failure: no choice at all) covers its own two-output total |
| CoinSelect.DecideBalances | internal/bitcoin/coin_select.go:66-96 | inputs = amount + change + fee, change is zero or at least dust, fee covers one output, covers the built outputs except exactly in the underpaying branch, and change and fee are given exactly by the remainder |
| CoinSelect.SelectAccounted | internal/bitcoin/coin_select.go:42-105 | the same accounting for the coins selected out of those offered |
| CoinSelect.OneOutputCompleteIff | internal/bitcoin/coin_select.go:66-96 | selection finds every one-output payment if and only if dust is at least the price of a change output |
| CoinSelect.OneOutputMissed | internal/bitcoin/coin_select.go:66-96 | for every smaller dust limit some payable request is reported as insufficient |
| CoinSelect.UnderpaidExample | internal/bitcoin/coin_select.go:82-93 | the underpaying branch is reachable |
| Payment.SendPays | internal/bitcoin/service.go:344-406 | the broadcast bytes spend exactly the chosen coins in order and pay exactly the amount to the destination script, then exactly the change to the own one, and nothing to any other; outputs total inputs minus the recorded fee, and the fee pays the rate for the bytes really built, up to the count bytes beyond 252 inputs, outside the underpaying branch and at most one output short inside it |
| Payment.BuildTxInputs | internal/bitcoin/service.go:527-558 | one input per coin with its outpoint, value, script and the key of its user's first active address, or failure exactly if some coin has no key |
| Payment.KeyFitsCoin | internal/bitcoin/service.go:544-555 | the key of an index fits a coin received at the address handed out for the same index |
| Payment.BuildPayment | internal/bitcoin/service.go:366-394 | the outputs collected from the requested and the own address are what the broadcast bytes pay, with the exact condition of each error |
| Payment.BuiltSize | internal/bitcoin/coin_select.go:28-33 | every transaction really built has at most the estimated virtual size plus the count bytes left out, which are none exactly up to 252 inputs and outputs |
| UtxoStore.Repository.ReserveUtxos | internal/bitcoin/repository.go:180-207 | moves exactly the confirmed ones of the ids, and succeeds if and only if the ids are distinct and all were confirmed |
| UtxoStore.Repository.ReleaseUtxos | internal/bitcoin/repository.go:211-229 | moves exactly the reserved ones of the ids back |
| UtxoStore.Repository.MarkUtxosSpent | internal/bitcoin/repository.go:233-253 | marks the ids spent whatever their status |
| UtxoStore.Repository.MarkUtxoOrphaned | internal/bitcoin/repository.go:448-456 | orphans a coin that is neither spent nor reserved |
| UtxoStore.Repository.UpsertUtxo | internal/bitcoin/repository.go:94-119 | inserts or merges by outpoint and keeps outpoints unique |
| UtxoStore.AffectedAll | internal/bitcoin/repository.go:195-206 | the affected-row count reaches the number of ids exactly when they are distinct and all in the required status |
| UtxoStore.UpsertUnique | internal/bitcoin/repository.go:94-119 | an upsert never duplicates or renames an outpoint |
| UtxoStore.UpsertMerges | internal/bitcoin/repository.go:94-119 | a scan takes the larger count of confirmations, confirms at one confirmation unless spent or reserved, and touches no other row |
| UtxoStore.UpsertInserts | internal/bitcoin/repository.go:94-119 | a new outpoint is inserted as seen |
| UtxoStore.UpsertKeeps | internal/bitcoin/repository.go:94-119 | a scan leaves the status of spent and reserved coins alone |
| UtxoStore.ReserveUnchangedIff | internal/bitcoin/repository.go:180-207 | a reservation leaves the table unchanged exactly if no requested coin was confirmed |
| UtxoStore.FailedReserveKeepsRow | internal/bitcoin/repository.go:195-206 | a failed reservation of two coins that leaves one of them reserved |
| SendProtocol.StepKeeps | internal/bitcoin/service.go:350-440 | every single statement, in any order, keeps the coins of distinct holders apart and held |
| SendPaths.OrdinarySend | internal/bitcoin/service.go:350-456 | an accepted send ends recorded and confirmed, with its coin spent by it |
| SendPaths.Tracks | internal/bitcoin/service.go:464-495 | the tracker takes a broadcast or pending row to pending or confirmed |
| SendPaths.UnclearSend | internal/bitcoin/service.go:421-428 | the sentinel leaves the row broadcast and the coin reserved |
| SendPaths.RefusedSend | internal/bitcoin/service.go:429-432 | any other error gives the coin back and marks the row failed |
| SendPaths.UnbuiltSend | internal/bitcoin/service.go:359-394 | a send that cannot be built gives the coin back and writes no row |
| SendPaths.UnsavedSend | internal/bitcoin/service.go:415-418 | a send that cannot be saved gives the coin back and is not broadcast |
| SendProtocol.NoDoubleSpend | internal/bitcoin/service.go:350-440 | under any interleaving, sends recorded as broadcast have disjoint inputs |
| SendProtocol.SpentForever | internal/bitcoin/repository.go:94-253 | a spent coin stays spent in every run |
| SendProtocol.DeliveredDisjoint | internal/bitcoin/service.go:417-433 | transactions that reached the network share an input only if one was answered with an error and released |
| SendProtocol.LostReplyDoubleSpends | internal/bitcoin/provider.go:85-107 | a concrete run in which a lost reply leads to two delivered transactions with one input |
| SendNetwork.NetworkSafeIff | internal/bitcoin/service.go:417-433 | for any set of answers: under every interleaving transactions on the network share no input if and only if every delivered one is answered with acceptance or the bare sentinel |
| SendNetwork.WrittenComparisonUnsafe | internal/bitcoin/service.go:421-431 | with the wrapped error compared by == the provider's answers are not safe |
| SendNetwork.UnwrappedComparisonSafeIff | internal/bitcoin/provider.go:94-106 | with an unwrapping comparison they are safe exactly if refused posts are never delivered |
| NfcConservation.Conservation | internal/database/nfc.go:322-463 | in every reachable state funded = available + locked + captured, and locked is the sum of approved holds, for every wallet, network and asset |
| NfcConservation.LockedAlwaysMatches | internal/database/nfc.go:520-746 | the missing-locked-balance errors of capture, reversal and expiry are unreachable |
| NfcConservation.AuthorizeKeeps | internal/database/nfc.go:351-463 | every verdict of an authorisation keeps the books balanced |
| NfcConservation.CaptureKeeps | internal/database/nfc.go:671-746 | so does a capture, which never lacks its lock |
| NfcConservation.ReverseKeeps | internal/database/nfc.go:591-669 | so does a reversal, which never lacks its lock |
| NfcConservation.ExpireKeeps | internal/database/nfc.go:520-589 | an expiry batch never fails and keeps the books balanced |
| NfcReconciliation.ReconciliationNeverFires | internal/database/nfc.go:1183-1243 | no reachable state has an unsettled capture, an uncaptured settlement, a duplicate, a merchant mismatch or a confirmation without reference |
| NfcReconciliation.LinkedHasNoIssues | internal/database/nfc.go:1183-1243 | settlements that match captures one to one trigger none of the five detectors |
| NfcReconciliation.CleanMeansMatched | internal/database/nfc.go:1183-1243 | a database without issues matches captures and settlements one to one, with merchants and proofs |
| NfcReconciliation.LostRowDetected | internal/database/nfc.go:1183-1203 | losing any settlement row is reported |
| NfcReconciliation.CaptureKeeps | internal/database/nfc.go:671-786 | a capture creates its settlement once, with the authorisation's merchant, amount and fee |
| NfcReconciliation.SettleKeeps | internal/database/nfc.go:833-1039 | settlement statements never change whom a settlement is for, and never confirm one without a reference |
| NfcLedger.NewestFound | internal/database/nfc.go:1322-1330 | the snapshot used is the provider's latest observation, of several at one time the last stored, and there is one unless the provider has none |
| NfcExposure.LiquidityExactly | internal/database/nfc.go:1307-1357 | liquidity is available exactly if the amount is positive, the lock is free, and the newest snapshot is fresh and leaves the amount above reservations, open settlements and buffer |
| NfcExposure.ApprovalWithinSnapshot | internal/database/nfc.go:1307-1357 | after each approval the exposure is at most available minus buffer of the row that is newest, which is no older than allowed |
| NfcExposure.WithinLastGrant | internal/database/nfc.go:419-462 | with the policy on, the exposure of every reachable state is at most what the newest snapshot left above its buffer at the last approval |
| NfcExposure.ExposureBounded | internal/database/nfc.go:419-462 | with the policy on, only an authorisation can raise the exposure of a reachable state, a capture leaves it unchanged, every approved hold is reserved, and the exposure is within the largest snapshot |
| NfcExposure.CaptureExposure | internal/database/nfc.go:671-786 | a capture leaves the exposure unchanged exactly when the amount was reserved, and otherwise raises it by the amount |
| NfcExposure.GiveBackKeeps | internal/database/nfc.go:591-669 | reversal and expiry lower the exposure by exactly what was reserved |
| NfcExposure.SettleKeeps | internal/database/nfc.go:833-1039 | no settlement statement raises the exposure |
| NfcExposure.AuthorizeExposure | internal/database/nfc.go:351-463 | an authorisation with the policy changes the exposure only by approving, then by its amount and within the newest snapshot |
| NfcLifecycle.Transitions | internal/database/nfc.go:833-1039 | from which statuses each statement moves a settlement, to which, and when it is due again |
| NfcLifecycle.SubmittedReference | internal/database/nfc.go:877-895 | the reference of a submission is the end-to-end id or else the sending id |
| NfcLifecycle.EventColumns | internal/database/nfc.go:974-1030 | which provider ids and reference an event leaves |
| NfcLifecycle.ProviderWords | internal/database/nfc.go:1041-1050 | exactly which words of the provider confirm and reject |
| NfcLifecycle.OpenUnlessFinal | internal/database/nfc.go:1343-1347 | the statuses counted as outflow are exactly the ones that are not final |
| NfcLifecycle.FinalForever | internal/database/nfc.go:866-1050 | confirmed, rejected and manual-review settlements keep status and retry count over every run, and no run changes whom a settlement is for |
| NfcLifecycle.RetryableCount | internal/database/nfc.go:912-929 | in every reachable state a retryable settlement has a retry count from 1 to 5 |
| NfcLifecycle.MarkingsBounded | internal/database/nfc.go:912-929 | retry markings of one settlement over any run plus the remaining measure never exceed the initial measure, at most 6 |
| NfcLifecycle.MarkingsAttained | internal/database/nfc.go:912-929 | the bound is reached, and the last marking goes to manual review |
| NfcIdempotency.OnePaymentPerKey | internal/database/nfc.go:358-366 | no reachable state holds two authorisations for one terminal and idempotency key |
| NfcIdempotency.RetryRecognised | internal/database/nfc.go:358-366 | a repeated request, after any run, changes nothing and is answered with the first authorisation, exactly when its wallet has no surrounding blanks |
| NfcIdempotency.OwnPayload | internal/database/nfc.go:1472-1486 | the payload comparison recognises the row a request wrote exactly when its wallet has no surrounding blanks |
| NfcRequests.VerdictExactly | internal/database/nfc.go:368-428 | approval exactly for a good token, a funded wallet and, with the policy on, room in the treasury; request for funding exactly if only the wallet is short; a good token is always used up |
| NfcRequests.LockedExactly | internal/database/nfc.go:404-440 | only an approval moves money, the required amount from available to locked in the row of lower-case wallet, normal network and USDT |
| NfcRequests.RowWritten | internal/database/nfc.go:1430-1454 | the authorisation row, column by column |
| NfcRequests.RejectedExactly | internal/database/nfc.go:1430-1454 | the insert fails exactly by the constraints on amounts and the primary key, and then nothing changes |
| NfcRequests.FundedWalletPays | internal/database/nfc.go:301-463 | a wallet that was funded and given a token can pay, however wallet and network are written |
| NfcRequests.TokenStored | internal/database/nfc.go:301-320 | a stored token is usable under its trimmed id, for the lower-case wallet and the normal network, and no other token changes |
| NfcRequests.NetworkNames | internal/database/nfc.go:1537-1543 | networks are compared without case and surrounding blanks, and a blank one is BSC |
| NfcRequests.CaptureWrites | internal/database/nfc.go:748-786 | a first capture writes a pending settlement, due at once and never tried, with the authorisation's merchant, amount and fee |
| NfcRequests.SelectableExactly | internal/database/nfc.go:520-545 | which batches may expire: distinct approved rows whose hold is over, within the limit or 100 |
| NfcRequests.ExpireAllExactly | internal/database/nfc.go:548-585 | expiry changes exactly the rows of the batch, to expired |
| NfcTokens.ApprovalUsesToken | internal/database/nfc.go:373-402 | an approval needs a live token of the same hash, wallet and network, and uses it up |
| NfcTokens.SingleUse | internal/database/nfc.go:373-402 | after an approval no other request with the token is approved, over any run that does not store it anew |
| NfcDatabase.Database.AuthorizePayment | internal/database/nfc.go:351-463 | the in-place statements end in the specified state and answer, rolling back on a rejected insert |
| NfcDatabase.Database.CapturePayment | internal/database/nfc.go:671-746 | the same for a capture, which never reports a missing lock |
| NfcDatabase.Database.ReversePayment | internal/database/nfc.go:591-669 | the same for a reversal |
| NfcDatabase.Database.ExpireHolds | internal/database/nfc.go:520-589 | the loop expires the whole selected batch |
| NfcDatabase.Database.AddBalance | internal/database/nfc.go:322-337 | a positive delta is added to the normalised wallet's available balance, any other is refused |
| NfcDatabase.Database.UpdateSettlement | internal/database/nfc.go:833-1039 | a guarded update changes at most the named settlement and keeps all invariants |
| NfcDatabase.Database.StoreTreasurySnapshot | internal/database/nfc.go:1066-1098 | the recorded effective amount is available minus exposure minus buffer |
| NfcDatabase.Total | internal/database/nfc.go:1070-1082 | a table sum is the sum over its rows |
| SignerStore.MemoryStore.Accept | signer/store.go:440-454 | prunes expired nonces and accepts exactly a nonce that is not alive |
| SignerStore.MemoryStore.Claim | signer/store.go:463-477 | the claim answers saved, busy or claimed, and locks only when claimed |
| SignerStore.MemoryStore.Save | signer/store.go:479-488 | saving stores the response and drops the claim, except for the empty key |
| SignerStore.MemoryStore.Release | signer/store.go:490-498 | releasing drops the claim and nothing else |
| SignerStore.NonceKeysDiffer | signer/store.go:535 | keys of wallets without the separator tell wallet and network apart |
| SignerStore.MemoryStore.ReserveNonce | signer/store.go:532-542 | hands out the larger of the pending value and the wrapped successor, and stores it |
| SignerNonces.ReplayOnlyAfterExpiry | signer/store.go:440-454 | with a forward clock a nonce is accepted again only after its life is over |
| SignerNonces.StrictlyIncreasing | signer/store.go:532-542 | in any run later nonces of one wallet and network are larger, until the last 64-bit nonce was handed out |
| SignerNonces.IncreasingIff | signer/store.go:532-542 | a run's nonces are past the stored and the earlier ones if and only if nothing is asked for after the last 64-bit nonce |
| SignerNonces.IncreasingWithRoom | signer/store.go:532-542 | that holds whenever stored and pending values leave room for the number of calls |
| SignerNonces.NextAdvances | signer/store.go:532-542 | one call goes past the stored nonce if and only if that is not the last one |
| SignerNonces.NeverBelowPending | signer/store.go:532-542 | no nonce is below the chain's pending value |
| SignerNonces.WrapRepeats | signer/store.go:532-542 | after the last 64-bit nonce the pending value is handed out as it is |
| SignerNonces.NeverTwice | signer/store.go:291-334 | in Postgres no run hands out a nonce twice for one wallet and network, whatever is marked in between |
| SignerNonces.ReserveRowExactly | signer/store.go:291-318 | a reservation is at least the pending value and above all active rows, and fails exactly on a failed row in its way or out of range |
| SignerNonces.ReserveAboveAllIff | signer/store.go:300-318 | a reservation is above every earlier nonce if and only if each failed one is behind the pending value or an active nonce |
| SignerNonces.HandedIncreaseIff | signer/store.go:291-334 | over every run the nonces of each wallet and network increase strictly if and only if the failed ones are behind at every reservation |
| SignerNonces.IncreaseWithoutFailures | signer/store.go:291-334 | they increase in every run that marks nothing failed, whatever the table held |
| SignerNonces.FailedRowForgotten | signer/store.go:300-318 | a concrete run whose nonces do not increase, and a failed nonce that blocks |
| SignerProtocol.AtMostOnce | signer/main.go:266-298 | per non-empty key at most one request executes, at most one ever completes, and all answers agree |
| SignerProtocol.ClaimHasHolder | signer/main.go:266-298 | a locked key always has a request at work that will save or release it |
| SignerProtocol.SavedForever | signer/store.go:463-498 | a saved response never changes and answers every later claim |
| SignerProtocol.ProtectedIff | signer/main.go:266-298 | no two requests ever execute side by side under a key if and only if the key is not empty |
| SignerProtocol.EmptyKeyUnprotected | signer/store.go:463-466 | two requests without a key execute side by side |
| RpcEndpoint.PruneList | signer/rpc_fleet.go:306-314 | the filter loop keeps exactly the reservations inside the window, in order |
| RpcEndpoint.BurstLoad | signer/rpc_fleet.go:331-339 | the loop adds up the units inside the window in uint32 arithmetic |
| RpcEndpoint.LoadAgrees | signer/rpc_fleet.go:306-339 | after any run with a forward clock the load over the pruned list is the load over every reservation ever made |
| RpcEndpoint.DecayOnce | signer/rpc_fleet.go:316-329 | decaying at any sequence of forward times equals decaying once at the last |
| RpcEndpoint.DecayComposes | signer/rpc_fleet.go:316-329 | decaying on the way changes neither counters nor reference time |
| RpcEndpoint.StepsExact | signer/rpc_fleet.go:316-329 | with a forward clock the uint32 step arithmetic never wraps |
| RpcEndpoint.FreshEndpoint | signer/rpc_fleet.go:64-86 | a new endpoint may be used at once and scores 120 |
| RpcEndpoint.ScoreSteps | signer/rpc_fleet.go:154-183 | what a failure, a rate limit, a recent selection and a burst add to the score |
| RpcEndpoint.WindowEdge | signer/rpc_fleet.go:56-62 | a reservation counts for exactly 1.2 seconds |
| RpcEndpoint.DecayRate | signer/rpc_fleet.go:316-329 | every full 20 seconds take two failures, two timeouts and four rate limits off, and nothing happens before |
| RpcEndpoint.SixthPauses | signer/rpc_fleet.go:185-194 | a selection weighs seven units, and the sixth in a burst starts a pause of 0.9 seconds |
| RpcEndpoint.IdleScore | signer/rpc_fleet.go:154-183 | an idle endpoint without failures scores its latency in whole milliseconds |
| RpcEndpoint.FailurePauses | signer/rpc_fleet.go:225-257 | after a failure an endpoint may be used exactly from the end of a tabulated pause on, unless disabled or pausing for longer |
| RpcEndpoint.PauseIs | signer/rpc_fleet.go:233-250 | the capped pauses are those of a table in nanoseconds |
| RpcEndpoint.SuccessTakesBack | signer/rpc_fleet.go:196-223 | a success right after a failure restores the counters |
| RpcEndpoint.SaturatedLoses | signer/rpc_fleet.go:154-183 | an endpoint at capacity never outscores one below it that has no failures and at most 22 seconds of latency |
| RpcEndpoint.DisabledExactly | signer/rpc_fleet.go:225-257 | after any run an endpoint is disabled exactly if its capacity was ever exhausted, and cooldowns end within 45 seconds of the last event |
| RpcFleet.SortCandidates | signer/rpc_fleet.go:128-134 | the exchange sort leaves a sorted permutation |
| RpcFleet.Fleet.constructor | signer/rpc_fleet.go:64-86 | endpoints have distinct addresses, cover every non-blank one, and there is at least one |
| RpcFleet.Fleet.SendCandidates | signer/rpc_fleet.go:106-152 | picks distinct usable endpoints among the best two by score, alternating their order, and charges exactly those |
| RpcFleet.PickedUsable | signer/rpc_fleet.go:106-152 | no disabled endpoint is picked, at most two are, and none only if all are disabled |
| RpcFleet.Fleet.Collect | signer/rpc_fleet.go:112-127 | one pass prunes and decays every endpoint and lists exactly the usable ones |
| RpcFleet.Endpoint.ScoreAt | signer/rpc_fleet.go:154-183 | scoring prunes and decays, and refuses disabled and cooling endpoints |
| RpcFleet.Endpoint.ReserveAt | signer/rpc_fleet.go:185-194 | reserving charges seven units and cools an endpoint at twice its capacity |
| RpcFleet.Endpoint.RecordSuccess | signer/rpc_fleet.go:196-223 | the in-place updates after a success equal the specification |
| RpcFleet.Endpoint.RecordFailure | signer/rpc_fleet.go:225-257 | the in-place updates after a failure equal the specification |

## Left out

- Hash functions, HMAC, ECDSA signing, AES-GCM and curve arithmetic: parameters with the algebra a lemma needs; a signature's validity is not modelled.
- ExtendedKeys.SigningKeyMatchesAddress: one way only, for accounts whose square commutes; without that, equal addresses would be a coincidence of hashes the abstract primitives do not decide.
- ExtendedKeys.NonzeroParent: only non-zero parent scalars; ExtendedKeys.CommutingSquare covers all.
- ExtendedKeys: the curve library's ScalarBaseMult and Add are assumed to form a group also for scalars that are zero or at least the order (Additive, Periodic); only reading back the point at infinity is left open.
- `NewMasterKey`, `NewMasterKeyForNetwork` and `DeriveAccountXPriv`: chains of the modelled derivation with fixed indices.
- Bech32 and Text: non-ASCII strings, whose case folding differs from the ASCII one.
- CoinSelect and Payment: integers are unbounded, so int64 overflow beyond the total supply is not modelled; `sort.Slice` is some descending order.
- Payment.SendPays: addresses are P2WPKH, the only kind the code accepts.
- SendProtocol.DeliveredDisjoint: one way, in terms of the phase reached; the exact condition on the provider's answers is SendNetwork.NetworkSafeIff.
- SendProtocol: the daily limit and the idempotency key of `Send` are check-then-act across statements and promise nothing under concurrency; a process that stops half-way is a run that takes no further step of that send.
- SendProtocol: `SyncAddressUTXOsWithEvents` appears as its single statements, upserts and orphan marks in any order, not as its event list.
- NfcLedger: identifiers are opaque (not trimmed), timestamps other than expiry and observation, `usdt_rate`, response codes, terminal columns of reservations, settlement target keys and the provider-event table are omitted, and integers are unbounded.
- NfcLedger: the insert of an authorisation names nineteen columns but lists twenty placeholders; the intended write by column name is modelled.
- NfcLedger: `finishNFCAuthorization` with the captured status has no caller and is not modelled.
- NfcLedger: a provider event is applied to any settlement, which covers whatever row its look-up by reference would find; the claim's worker name and the queue order are omitted.
- NfcLedger.Expire: the batch is any set of due rows within the limit, which covers `SKIP LOCKED` and the ordering by expiry.
- NfcReconciliation: the age-based warnings and the amount comparison with provider payloads depend on clocks and on the omitted event table.
- RpcEndpoint.DecayComposes: a clock that runs backwards, or a pause of more than 292 years, is excluded.
- RpcEndpoint: scores and averages are real numbers; rounding of floats is not modelled, and neither are the names of endpoints and the texts `classifyRPCFailure` matches.
- RpcFleet: one call of `sendCandidates` runs without interleaving with another; the turn counter is unbounded, the code's wraps after 2^64 calls.
- SignerProtocol: the Postgres claim, a look-up followed by a separate insert, is not covered; neither are custody incidents, transaction records and the mixed handlers' HTTP answers.
- SignerNonces: the Postgres reservation is one atomic step, as its advisory lock and transaction make it.
- Payment.KeyFitsCoin: `buildTxInputs` signs with the key of the user's first active address; that a coin received at another address of the same user is then signed with a key that does not fit it depends on hashes the abstract primitives do not decide.
- HTTP handlers, RPC and payment-provider clients, dashboards, reports, configuration and the other `internal/database` stores.
