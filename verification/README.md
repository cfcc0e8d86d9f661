# The core of a light wallet, modelled in Dafny

This project models the C core of a light cryptocurrency wallet (`Modules/core`) and proves what that code is for. Check it
with `dafny verify dfyconfig.toml`.

The core keeps a wallet in step with a chain of blocks that it only sees headers and partial Merkle trees of. Its parts,
and the modules that model them:

- **Hash table** (`ProbeTable`, `HashSet`): open addressing with linear probing, a clean-up that re-inserts the rest of a
  cluster after a removal, and growth by rebuilding. Proved to be a finite map keyed by its equality.
- **Cryptographic arithmetic** (`Words`, `MachineWords`, `Poly1305`, `ChaCha20`, `Aead`, `Aes256`): limb arithmetic with delayed
  carries, authenticated encryption, and AES-256 on one set of key words that is expanded and unwound in place. Proved
  against direct definitions of RFC 7539 and FIPS 197, and against their published vectors, round by round
  (`ChaCha20Vector`, `Aes256Vector`).
- **Codecs** (`Base58`, `Bip38`, `Script`, `Transactions`): round trips, and exactly when they hold.
- **256-bit numbers** (`Int256`): arithmetic on words, with the one-byte bit length that limits it.
- **Blocks** (`Blocks`, `Merkle`, `Permutation`, `DarkGravity`): the partial Merkle tree walks, the permutation of hash
  functions, and the difficulty retarget.
- **Wallet** (`WalletData`, `Ledgers`, `WalletOrder`, `Wallets`, `CoinSelection`): the ledger that is recomputed from the
  list of transactions, the list that stays sorted under a comparison that is not a total order, and the transactions that
  are built from unspent outputs.
- **Chain** (`Chains`): the state machine that extends, forks and reorganises the chain while the wallet follows it.

How the model is made: a C function that updates memory is a method, on a class where it updates a struct and on an array
where it writes a buffer, and is proved to compute a function of its inputs or of the old state. What the code is for is
then proved of that function. Words are natural numbers with explicit bounds and explicit wrapping (`byte`, `u32`, `u64`),
except in AES, which uses 8-bit vectors; `MachineWords` relates 32-bit vectors to numbers. SHA-256, scrypt, address and key derivation are parameters; where a property needs
more of them than that they are functions, its `requires` says so. A null pointer is a nullable array, and a result of 0
or NULL is stated as such. Hashes and addresses are numbers in the wallet, the Merkle trees and the chain, where only their
equality matters. The host is little-endian, as the unions of `BRInt.h` assume.

The `ghost` parameter `rank` in the wallet orders transactions so that inputs come before the transactions that spend them;
it stands for the input graph being acyclic. `TheLedger` is the ledger in the fields, `Replay` is what recomputing it from
a list gives, `UpToDate` says that this has just been done, and `Balanced` that no transaction turned away then has been
confirmed since. In the chain, `Tree` says which parent, height and transactions a block
hash commits to; `Follows` says that every confirmed transaction of the wallet is in the block at its height on a branch.

Findings, where the code falls short of what one might expect of it:

- The load limit of table size 45887 is one short of a capacity of 30593, so a table made for 30593 items grows once
  (`HashSet.BRSet.constructor`).
- `divide` is the quotient exactly for dividends below 2^255; above it returns 0 (`Int256.Divide`).
- A pending transaction can leave a spent output among the unspent ones (`Ledgers.StaysDisjoint`,
  `Ledgers.PendingLeavesSpent`).
- A serialized signed input whose signature script looks like an address script does not parse back
  (`Transactions.ParseSerialized`, `Transactions.NotAllComeBack`).
- Marking a transaction as seen raises the wallet's own block height to that of unconfirmed transactions, after which no lock
  height is in the future any more (`Chains.PeerManager.MarkTx`, `Ledgers.MarkKeepsLocks`, `Ledgers.MarkUnlocks`).
- A payment to an address that the wallet only gets by registering it is not among the unspent outputs until the balance is
  computed again (`Wallets.Wallet.ConfirmedBalance`, `Wallets.MissedPayment`).
- Serializing into a buffer that is too short can return a nonzero length (`Transactions.ShortBufferCounts`).
- Encoding a decoded text gives back only its part before the first invalid character (`Base58.EncodeDecoded`).

## Model

| member | source | states |
|---|---|---|
| HashSet.LimitLeavesRoom | Modules/core/BRSet.c:32-37 | At every table size the load limit of two thirds leaves an empty bucket, and what overfills one size fits below the limit of the next, so that re-adding during a growth never makes the table grow again. |
| HashSet.PickedSizeFits | Modules/core/BRSet.c:54-57 | The size picked for a requested capacity is the next larger prime of the list, and its load limit holds that capacity in all cases but one. |
| HashSet.BRSet.constructor | Modules/core/BRSet.c:49-69 | A new table is empty and valid; its size is a listed prime above the capacity. The capacity is within the load limit unless it is 30593, the one value for which it is not. |
| ProbeTable.StopExists | Modules/core/BRSet.c:104-111 | From every start the probe comes to an empty bucket or an equal item, since one bucket is empty. |
| ProbeTable.StopUnique | Modules/core/BRSet.c:104-111 | There is only one bucket where the probe for an item can stop. |
| ProbeTable.EmptyStopMeansAbsent | Modules/core/BRSet.c:193-208 | With no hole on any item's probe path, a probe that stops at an empty bucket shows that no equal item is in the table. |
| ProbeTable.PutKeepsTable | Modules/core/BRSet.c:99-117 | Putting an item where its probe stops keeps the table free of holes and of equal items, and replaces exactly the items equal to it. |
| ProbeTable.CleaningStep | Modules/core/BRSet.c:139-146 | One round of the clean-up after a removal: taking out the item of bucket i and re-adding it finds an empty bucket, loses nothing, and moves the hole in the cluster one bucket on. |
| ProbeTable.CleaningEnds | Modules/core/BRSet.c:139-146 | When the clean-up comes to an empty bucket it is the end of the cluster, and no probe path has a hole any more. |
| ProbeTable.SlideStep | Modules/core/BRSet.c:139-146 | Re-added items only ever move back towards the removed bucket; this is why deleting while iterating from the end misses none. |
| ProbeTable.CountIsCardinality | Modules/core/BRSet.c:162-167 | The number of occupied buckets of a table without equal items is the number of its items. |
| HashSet.BRSet.Probe | Modules/core/BRSet.c:104-111 | The probe loop ends, at the bucket where a probe for the item stops. |
| HashSet.BRSet.Add | Modules/core/BRSet.c:99-117 | Adding replaces the items equal to the new one and keeps all others; it returns the replaced item, or nothing exactly if there was none; the table grows when it passes its load limit. Below the limit exactly one bucket changes. |
| HashSet.BRSet.Grow | Modules/core/BRSet.c:86-96 | The rebuilt table is valid and holds exactly the same items, and its re-adds do not grow it again. |
| HashSet.BRSet.Remove | Modules/core/BRSet.c:120-150 | Removing takes out exactly the items equal to the given one and returns it, or nothing exactly if there was none. Every other item can still be found; the rest of the cluster has only slid back. |
| HashSet.BRSet.CleanUp | Modules/core/BRSet.c:139-146 | The re-insertion of the rest of a cluster ends in a valid table with the same items, without growing. |
| HashSet.BRSet.Get | Modules/core/BRSet.c:193-208 | Returns an item of the table equal to the given one, and nothing exactly if there is none. |
| HashSet.BRSet.Contains | Modules/core/BRSet.c:170-173 | Tells exactly whether an equal item is in the table. |
| HashSet.BRSet.ItemCount | Modules/core/BRSet.c:162-167 | The stored count is the number of items. |
| HashSet.BRSet.Clear | Modules/core/BRSet.c:153-159 | Leaves an empty valid table of the same size. |
| HashSet.BRSet.Intersects | Modules/core/BRSet.c:176-190 | Tells exactly whether an item of the other table equals one of this one. |
| HashSet.BRSet.All | Modules/core/BRSet.c:236-251 | Lists items of the table, each at most once, as many as asked for; all of them if that many are asked for. |
| HashSet.BRSet.Union | Modules/core/BRSet.c:269-281 | The items afterwards are those of the other table and those of this one that equal none of them; without growing if all of them fit below the load limit. |
| HashSet.BRSet.Minus | Modules/core/BRSet.c:284-296 | The items afterwards are those that equal no item of the other table. |
| HashSet.BRSet.Intersect | Modules/core/BRSet.c:299-315 | The items afterwards are exactly those that equal some item of the other table, although the loop removes while it iterates. |
| Poly1305.AbsorbAppend | Modules/core/BRCrypto.c:748-784 | Absorbing whole blocks and then more data is absorbing both in one pass: split calls equal one call. |
| Poly1305.AbsorbReduces | Modules/core/BRCrypto.c:759-784 | The accumulator stays below 2^130-5, and depends on its start only modulo that prime. |
| Poly1305.KeyLimbsAreClamped | Modules/core/BRCrypto.c:753-757 | The five masked limbs hold the clamped r of section 2.5 of RFC 7539. |
| Poly1305.LoadedValue | Modules/core/BRCrypto.c:760-771 | A block with its high bit, and a short last block with its padding byte, load as the number section 2.5 of RFC 7539 assigns to them. |
| Poly1305.AddBlock | Modules/core/BRCrypto.c:759-771 | Adding a block to the limbs adds the number of the block, with no 32-bit overflow. |
| Poly1305.ColumnsCongruent | Modules/core/BRCrypto.c:773-778 | The five column sums are the product of the limbs modulo 2^130-5. |
| Poly1305.ColumnBounds | Modules/core/BRCrypto.c:773-778 | No column sum overflows 64 bits. |
| Poly1305.PartialCarry | Modules/core/BRCrypto.c:780-783 | The partial carry keeps the value modulo 2^130-5 and leaves limbs small enough for the next block, with no 32- or 64-bit overflow. |
| Poly1305.Multiply | Modules/core/BRCrypto.c:773-783 | The limbs are multiplied by r modulo 2^130-5. |
| Poly1305.FullCarry | Modules/core/BRCrypto.c:787-789 | The full carry leaves 26-bit limbs of the same value modulo 2^130-5. |
| Poly1305.SubtractP | Modules/core/BRCrypto.c:791-797 | The masked selection leaves exactly the remainder modulo 2^130-5. |
| Poly1305.Pack | Modules/core/BRCrypto.c:799-801 | The limbs become four 32-bit words of the value modulo 2^128. |
| Poly1305.AddPad | Modules/core/BRCrypto.c:803-807 | Adding the pad word by word is one addition modulo 2^128. |
| Poly1305.Compress | Modules/core/BRCrypto.c:748-813 | A call absorbs all of its data, whatever its length, and a final call leaves the tag. |
| Poly1305.Poly1305 | Modules/core/BRCrypto.c:817-828 | The result is the tag of section 2.5 of RFC 7539, for every key and message. |
| ChaCha20.CounterStep | Modules/core/BRCrypto.c:868-869 | The two-word counter of the code steps as one 64-bit counter, carrying into the second word. |
| ChaCha20.NextBlock | Modules/core/BRCrypto.c:854-870 | One block of key stream for the current 64-bit counter, and the state for the next one. |
| ChaCha20.Encrypt | Modules/core/BRCrypto.c:835-878 | The output is the data combined with the key stream, byte for byte, and nothing behind it is written, also in place. |
| ChaCha20.CoveredTwice | Modules/core/BRCrypto.c:835-878 | Covering twice under the same key, nonce and counter gives back the data. |
| Aead.CounterStaysInItsWord | Modules/core/BRCrypto.c:889-901 | Up to the length guard, the 64-bit counter of the code does not carry out of its low word, so that it is the state of section 2.3 of RFC 7539 with the 96-bit nonce. |
| Aead.CoveredIsEncrypted | Modules/core/BRCrypto.c:896-901 | The 64-bit counter form computes the encryption of section 2.8 of RFC 7539. |
| Aead.OpenSealed | Modules/core/BRCrypto.c:914-947 | Decrypting what was encrypted, under the same key, nonce and associated data, gives back the data. |
| Aead.OnlySealedOpens | Modules/core/BRCrypto.c:914-947 | A message decrypts to some data exactly if it is what that data encrypts to. |
| Aead.AbsorbThree | Modules/core/BRCrypto.c:898-908 | The separate authenticator calls equal one pass over the padded input of section 2.8 of RFC 7539. |
| Aead.Authenticate | Modules/core/BRCrypto.c:898-908 | The limbs end with the Poly1305 tag of the padded associated data, the padded ciphertext and the two lengths. |
| Aead.AeadEncrypt | Modules/core/BRCrypto.c:881-912 | The output is the ciphertext and its tag; too small a buffer or too long a message gives length 0 with nothing written; without a buffer the length is returned. |
| Aead.TagsDifferMeans | Modules/core/BRCrypto.c:943-944 | The comparison that accumulates the differences is zero exactly for equal tags. |
| Aead.AeadDecrypt | Modules/core/BRCrypto.c:914-947 | A correct tag gives the data; a wrong tag or a bad length gives length 0 with nothing written. |
| Aes256.TablesInverse | Modules/core/BRBIP38Key.c:50-86 | The inverse table undoes the substitution table. |
| Aes256.SboxIsStandard | Modules/core/BRBIP38Key.c:50-67 | Every entry of the table is the affine transform of the multiplicative inverse, as section 5.1.1 of FIPS 197 defines it. |
| Aes256.CodeIsStandard | Modules/core/BRBIP38Key.c:108-111 | The column mixing of the code, forward and backward, is the matrix of products in the field that sections 5.1.3 and 5.3.3 of FIPS 197 give. |
| Aes256.MixColumnUndone | Modules/core/BRBIP38Key.c:147-151 | The inverse column mix undoes the column mix. |
| Aes256.ShiftRowsUndone | Modules/core/BRBIP38Key.c:153-155 | The inverse row shift undoes the row shift. |
| Aes256.NextKeysUndone | Modules/core/BRBIP38Key.c:159-165 | Unwinding a step of the key schedule gives back the key words before it. |
| Aes256.KeysAreScheduleWords | Modules/core/BRBIP38Key.c:113-118 | The eight key words held in place after n steps are words 8n to 8n+7 of the schedule of section 5.2 of FIPS 197. |
| Aes256.ExpandKey | Modules/core/BRBIP38Key.c:113-118 | The in-place expansion computes the next eight schedule words. |
| Aes256.UnexpandKey | Modules/core/BRBIP38Key.c:159-165 | The in-place unwinding computes the previous eight schedule words. |
| Aes256.ExpandFully | Modules/core/BRBIP38Key.c:137-142 | Seven expansions lead to the last key words, with the round constant that belongs to them. |
| Aes256.Unwind | Modules/core/BRBIP38Key.c:159-165 | A step back gives the key words and the round constant of the step before. |
| Aes256.EncryptRound | Modules/core/BRBIP38Key.c:99-119 | Each round leaves the state of the standard cipher after that round. |
| Aes256.DecryptRound | Modules/core/BRBIP38Key.c:144-166 | Each round leaves the state of the standard inverse cipher after that round, and so meets the same key words. |
| Aes256.Encrypt | Modules/core/BRBIP38Key.c:90-126 | The block is replaced by its encryption with the cipher of section 5.1 of FIPS 197. |
| Aes256.Decrypt | Modules/core/BRBIP38Key.c:128-173 | The block is replaced by its decryption with the inverse cipher of section 5.3 of FIPS 197. |
| Aes256.InverseCipherUndoes | Modules/core/BRBIP38Key.c:128-173 | The inverse cipher undoes the cipher, for every state and key. |
| Aes256.DecryptedEncrypted | Modules/core/BRBIP38Key.c:128-173 | Decryption undoes encryption, for every 32-byte key and 16-byte block. |
| Base58.DecodeEncoded | Modules/core/BRBase58.c:76-143 | Decoding an encoding is the identity on all byte strings. |
| Base58.EncodeDecoded | Modules/core/BRBase58.c:38-73 | Encoding a decoding gives back the valid prefix, so it is the identity exactly on the texts that are all Base58 digits. |
| Base58.EncoderRoom | Modules/core/BRBase58.c:45-45 | 138/100 digits for a byte, rounded down, and one more are always enough. |
| Base58.DecoderRoom | Modules/core/BRBase58.c:83-83 | 733/1000 bytes for a digit, rounded down, and one more are always enough. |
| Base58.DigitsOfChars | Modules/core/BRBase58.c:90-120 | The switch over characters gives every digit back for its character. |
| Base58.MultiplyAdd | Modules/core/BRBase58.c:49-59 | One pass over the buffer multiplies its number and adds a digit; the last carry is zero. |
| Base58.ToBase58 | Modules/core/BRBase58.c:45-59 | The buffer ends with the base-58 digits of the number of the bytes. |
| Base58.FromBase58 | Modules/core/BRBase58.c:83-131 | The buffer ends with the base-256 digits of the number of the digits up to the first invalid character. |
| Base58.Encode | Modules/core/BRBase58.c:38-73 | Writes the text and a zero if they fit, else nothing; returns the length, or 0 if they do not fit. |
| Base58.Decode | Modules/core/BRBase58.c:76-143 | Writes the bytes if they fit, else nothing; returns their number, or 0 if they do not fit. |
| Base58.TextFits | Modules/core/BRBase58.c:45-45 | A text is no longer than the buffer size that the code reckons for it. |
| Base58.CheckDecodeEncoded | Modules/core/BRBase58.c:146-186 | Decoding with checksum undoes encoding with checksum. |
| Base58.CheckDecodedOnly | Modules/core/BRBase58.c:166-186 | A valid text decodes to nonempty data exactly if it is the encoding of that data with its checksum. |
| Base58.CheckEncode | Modules/core/BRBase58.c:146-163 | Writes the text of data and checksum if it fits, and returns its length, or 0. |
| Base58.CheckDecode | Modules/core/BRBase58.c:166-186 | Writes the checked payload if it fits, and nothing for a wrong checksum or too small a buffer. |
| Bip38.UnlockPayload | Modules/core/BRBIP38Key.c:253-271 | The unlocked payload has the secret, the compression flag and the address hash that it was locked with. |
| Bip38.UnlockLockedText | Modules/core/BRBIP38Key.c:234-312 | The text that a key is locked into decodes, with the same passphrase, to the same secret and compression flag and matches its address hash. |
| Bip38.AnnouncedLengthSuffices | Modules/core/BRBIP38Key.c:345-392 | The length announced when no buffer is given is always enough. |
| Bip38.BRKey.Bip38Key | Modules/core/BRBIP38Key.c:345-392 | Writes the locked text of the key if it fits, else nothing, and returns its length, or 0. |
| Bip38.BRKey.SetBip38Key | Modules/core/BRBIP38Key.c:234-312 | A payload of another length leaves the key as it was; otherwise the key gets the unlocked secret and the compression flag, and success is reported exactly if the address hash matches. |
| Int256.ViewsAgree | Modules/core/BRInt.h:316-325 | The views as eight 32-bit and as four 64-bit words are the same number. |
| Int256.Add | Modules/core/BRInt.h:316-325 | Addition modulo 2^256. |
| Int256.Neg | Modules/core/BRInt.h:330-336 | The one's complement, 2^256 - 1 - a. |
| Int256.Subtract | Modules/core/BRInt.h:337-339 | Subtraction modulo 2^256. |
| Int256.SupEqCompares | Modules/core/BRInt.h:80-84 | The word by word comparison is the comparison of the numbers. |
| Int256.ShiftLeft | Modules/core/BRInt.h:340-351 | Multiplication by a power of two modulo 2^256, for shifts of 0 to 255 across word borders. |
| Int256.ShiftRight | Modules/core/BRInt.h:352-363 | Division by a power of two, for shifts of 0 to 255 across word borders. |
| Int256.Bits | Modules/core/BRInt.h:303-315 | The bit length, cut to eight bits by the return type: 0 for numbers of 256 bits. |
| Int256.BitTaken | Modules/core/BRInt.h:376-383 | Taking a bit into the quotient keeps dividend = quotient * divisor + remainder, with a smaller remainder. |
| Int256.Divide | Modules/core/BRInt.h:364-386 | The floor quotient for every dividend below 2^255 and for no other: from there on the result is 0, because the bit length is cut. |
| Int256.MultiplyThis32 | Modules/core/BRInt.h:387-396 | Multiplication by a 32-bit word modulo 2^256. |
| Int256.SetCompact | Modules/core/BRInt.h:397-408 | The number of a compact target, for every 32-bit value, negative ones included. |
| Int256.GetCompact | Modules/core/BRInt.h:409-429 | The compact target of every number below 2^255; above, what the cut bit length leads to. |
| Int256.ExpandCompacted | Modules/core/BRInt.h:397-429 | Expanding a compacted number gives at most that number, short of it by less than 256^(size-3), and exactly it for sizes up to 3; the sign bit stays clear. |
| Int256.CompactedMonotone | Modules/core/BRInt.h:409-429 | A larger number never has a smaller compact form. |
| DarkGravity.MeanFits | Modules/core/BRMerkleBlock.c:461-492 | With targets below 2^240 the sum of up to 181 of them does not wrap and their mean is at most 2^240. |
| DarkGravity.ScalingIsLimited | Modules/core/BRMerkleBlock.c:494-505 | The new target is between a third of the mean and three times the mean. |
| DarkGravity.Gather | Modules/core/BRMerkleBlock.c:456-488 | The loop sums the newest target twice and the others once, and the time differences add up to newest minus oldest. |
| DarkGravity.MeanTarget | Modules/core/BRMerkleBlock.c:490-492 | The 256-bit division is the mean, without wrapping. |
| DarkGravity.ScaledTarget | Modules/core/BRMerkleBlock.c:494-505 | The 256-bit multiplication and division scale the mean by the limited time span, without wrapping. |
| DarkGravity.DarkGravityWaveTarget | Modules/core/BRMerkleBlock.c:441-515 | The retarget from height 338778 on, over up to 180 blocks: the compact form of three times the mean, of a third of it, or of the mean scaled by the span over 60n, never above 0x1e00ffff; without a known block from that height on it is 0x1e00ffff. |
| Permutation.RankOrders | Modules/core/BRMerkleBlock.c:69-88 | Ranks of arrangements of the same distinct elements are ordered as the arrangements are lexicographically, and equal only for equal arrangements. |
| Permutation.RankBound | Modules/core/BRMerkleBlock.c:69-88 | The rank of n distinct elements is below n!. |
| Permutation.NextRank | Modules/core/BRMerkleBlock.c:69-88 | Exchanging the pivot with the last element above it and reversing the tail raises the rank by exactly one. |
| Permutation.NextPerm | Modules/core/BRMerkleBlock.c:69-88 | The array becomes the next arrangement of the same elements, and the first one after the last, which is reported. |
| Permutation.InitPerm | Modules/core/BRMerkleBlock.c:63-67 | The array becomes the arrangement of 0 to n-1 with rank 0. |
| Permutation.StartsWithTwo | Modules/core/BRMerkleBlock.c:90-110 | An arrangement of ten elements with a rank below 8! starts with 0 and 1. |
| Permutation.GetAlgoString | Modules/core/BRMerkleBlock.c:90-110 | The string spells the arrangement of rank seq, modulo 10!; for seq below 8! its first two digits are 0 and 1. |
| Permutation.GetTravelOrder | Modules/core/BRMerkleBlock.c:122-126 | Every block time gives a string of ten digits that starts with 0 and 1, and spells the arrangement whose rank is the time less 1492973331 in 32 bits, modulo 40320. |
| Merkle.CeilLog2 | Modules/core/BRMerkleBlock.c:49-55 | The depth of the tree: the least power of two that is not below x. |
| Merkle.TreeRoot | Modules/core/BRMerkleBlock.c:320-343 | The node of full height over all leaves is the Merkle root of pairing up row by row, the last hash with itself in odd rows. |
| Merkle.NodesDiffer | Modules/core/BRMerkleBlock.c:329-337 | Under an injective hash that is never zero, subtrees over different leaves have different hashes, so that the defence against equal branches does not strike genuine blocks. |
| Merkle.TxWalkDecodes | Modules/core/BRMerkleBlock.c:264-288 | The walk over the encoding of any subtree finds its matched leaves in order and consumes exactly that encoding; a right child is missing only when all hashes are consumed. |
| Merkle.RootWalkDecodes | Modules/core/BRMerkleBlock.c:320-343 | The walk over the encoding of any subtree computes its hash and consumes exactly that encoding. |
| Merkle.PackedFlag | Modules/core/BRMerkleBlock.c:269-271 | The flag bits, packed into bytes from the lowest bit on, are read back one by one. |
| Merkle.EncodedBlock | Modules/core/BRMerkleBlock.c:264-288 | Every block of at least one transaction, with every set of matches, has such an encoding. |
| Merkle.WalksDecode | Modules/core/BRMerkleBlock.c:320-343 | For every block of distinct nonzero hashes and every set of matches, the two walks over its BIP37 encoding give exactly the matched hashes in order and the true Merkle root. |
| Merkle.TxHashesR | Modules/core/BRMerkleBlock.c:264-288 | The recursive method with its shared cursors delivers what the walk finds, as far as the buffer goes, and leaves the cursors where the walk ends. |
| Merkle.TxHashes | Modules/core/BRMerkleBlock.c:292-299 | Writes the found hashes as far as the buffer goes, and returns their number. |
| Merkle.RootR | Modules/core/BRMerkleBlock.c:320-343 | The recursive method with its shared cursors computes what the walk gives. |
| Merkle.FewFound | Modules/core/BRMerkleBlock.c:264-288 | A walk finds no more hashes than it consumes, for every block, genuine or not. |
| Script.ReadWrittenVarInt | Modules/core/BRAddress.c:38-66 | Reading a written variable-length number gives the number and its length. |
| Script.ShortestVarInt | Modules/core/BRAddress.c:69-103 | The written form is never longer than any form that reads as the same number. |
| Script.VarIntSet | Modules/core/BRAddress.c:69-103 | Writes the number if it fits, else nothing; returns its length, or 0. |
| Script.ScriptElements | Modules/core/BRAddress.c:113-152 | Finds where the elements of a script start, and none at all if the script ends inside an element. |
| Script.ShapesByElements | Modules/core/BRAddress.c:238-277 | The four address shapes, read element by element, are exactly four byte patterns. |
| Script.DataOfShapes | Modules/core/BRAddress.c:155-187 | In each shape the data element is the hash or key at its fixed place. |
| Script.AddressFromScriptPubKey | Modules/core/BRAddress.c:238-277 | A script has address data exactly if it has one of the four shapes, and which data that is. |
| Transactions.TxInputData | Modules/core/BRTransaction.c:112-132 | Writes outpoint, signature script, amount if there is one, and sequence of an input if they fit; returns what is counted, or 0 if that exceeds the buffer. |
| Transactions.TransactionOutputData | Modules/core/BRTransaction.c:168-184 | Writes amounts and scripts of all outputs if they fit; returns what is counted, or 0 if that exceeds the buffer. |
| Transactions.EmitInputs | Modules/core/BRTransaction.c:268-286 | Writes the inputs as long as they fit: signed ones with their signature script, others with their script, their amount in front of the sequence; an input for which there is no room counts as nothing. |
| Transactions.Serialize | Modules/core/BRTransaction.c:256-323 | Writes exactly the serialization if it fits, and returns its length; otherwise what is counted: parts for which there is no room count as nothing, and 0 is returned exactly if the count still exceeds the buffer. |
| Transactions.ShortBufferCounts | Modules/core/BRTransaction.c:256-323 | A transaction and a buffer too short for it, for which a nonzero length is returned that is too small. |
| Transactions.ReadInputs | Modules/core/BRTransaction.c:384-404 | Reads the inputs one after the other; those with an address-shaped script and room for an amount are unsigned. |
| Transactions.Parse | Modules/core/BRTransaction.c:367-431 | The parser with its running offset computes the parse of the whole buffer, and fails on the same buffers. |
| Transactions.ParseWrittenInput | Modules/core/BRTransaction.c:384-404 | A written input parses back: a signed one without amount and script, an unsigned one as it was. |
| Transactions.ParseWrittenTx | Modules/core/BRTransaction.c:367-431 | A written transaction parses back to its version, inputs, outputs and lock time; a hash is set exactly for fully signed ones. |
| Transactions.ParseSerialized | Modules/core/BRTransaction.c:367-431 | A serialization parses back to what can be recovered of the transaction exactly if there is an input and every input is recognizable: signed with a script not shaped like an address script, or unsigned with one so shaped and a nonzero amount. |
| Transactions.NotAllComeBack | Modules/core/BRTransaction.c:367-431 | A signed transaction whose signature script is shaped like an address script does not come back. |
| Transactions.Size | Modules/core/BRTransaction.c:494-516 | The estimated size; for a fully signed transaction the exact length of its serialization. |
| Transactions.SizeOfSigned | Modules/core/BRTransaction.c:494-516 | For fully signed transactions the estimate is the serialized length. |
| Ledgers.BalanceAddsUp | Modules/core/BRWallet.c:151-245 | In every history the balance is the sum of the unspent outputs and received minus sent, modulo 2^64, and the history of the balance has one entry for each transaction, the last one being the balance. |
| Ledgers.HistoryOfPrefix | Modules/core/BRWallet.c:151-245 | The history of the balance of a prefix is the prefix of the history. |
| Ledgers.BalanceIsExact | Modules/core/BRWallet.c:151-245 | The balance does not wrap as long as the payments to the wallet sum to less than 2^64. |
| Ledgers.HistorySettles | Modules/core/BRWallet.c:214-235 | In every history the unspent outputs are wallet outputs of accepted transactions, each once, and contain all of those that are not spent; none of them is spent if the last transaction was accepted. |
| Ledgers.StaysDisjoint | Modules/core/BRWallet.c:185-212 | A spent output comes to stay among the unspent ones exactly if a pending transaction spends one of them. |
| Ledgers.PendingLeavesSpent | Modules/core/BRWallet.c:185-212 | A history that leaves a spent output among the unspent ones. |
| Ledgers.MarkKeepsLocks | Modules/core/BRWallet.c:943-943 | Marking a transaction leaves the test for lock heights as it was exactly if the transaction is unknown or confirmed, or the wallet is so high already that no lock height is to come; otherwise no lock height is to come any more. |
| Ledgers.MarkUnlocks | Modules/core/BRWallet.c:198-201 | A transaction with a lock height to come, pending before it is marked and accepted afterwards. |
| Ledgers.InvalidExactly | Modules/core/BRWallet.c:171-188 | A transaction is invalid exactly if it is unconfirmed and spends what an earlier one that is not invalid spends, or an output of an earlier invalid one. |
| Ledgers.ConfirmedUtxos | Modules/core/BRWallet.c:151-245 | If all transactions are confirmed, the unspent outputs are exactly the wallet outputs minus every spent input, each once, and the balance is their sum. |
| Ledgers.TakenUtxos | Modules/core/BRWallet.c:151-245 | The same holds whenever no transaction of the history has been turned away as invalid or pending. |
| Ledgers.LeftSince | Modules/core/BRWallet.c:151-245 | What was left of past transactions, none of them turned away, is what is left of them at other heights and in another order now; with addresses added since, exactly if no unspent output pays to one of these. |
| Ledgers.OrderDoesNotMatter | Modules/core/BRWallet.c:229-235 | If all transactions are confirmed, every order of the list gives the same unspent outputs and balance. |
| Wallets.Wallet.CheckInvalid | Modules/core/BRWallet.c:171-183 | Tells exactly whether an input is spent already or comes from an invalid transaction. |
| Wallets.Wallet.CheckPending | Modules/core/BRWallet.c:190-206 | Tells exactly whether the transaction is pending: unconfirmed, and larger than 100000, with an output below 5460, or with an input that is replaceable, locked, or of a pending transaction. |
| Wallets.Wallet.AddOutputs | Modules/core/BRWallet.c:218-227 | Adds the outputs that pay to the wallet, and marks all their addresses as used. |
| Wallets.Wallet.Sweep | Modules/core/BRWallet.c:229-235 | Removes exactly the spent outputs, in place from the end, keeping the order and the running balance; the transaction looked up for each is known. |
| Wallets.Wallet.UpdateBalance | Modules/core/BRWallet.c:151-245 | The recomputation in place leaves the ledger that replaying the list gives, and the balance is up to date. |
| Wallets.Wallet.ConfirmedBalance | Modules/core/BRWallet.c:151-245 | In every state of a wallet whose operations started from a balanced one: when everything is confirmed, the unspent outputs are exactly the unspent ones that pay to an address of the last computation, and the balance is their sum. They are all outputs of the wallet exactly if none that is unspent pays to an address added since. |
| Wallets.MissedPayment | Modules/core/BRWallet.c:732-750 | A wallet that registers a payment to an address just beyond its known ones: the address becomes its own, but the output is not among the unspent ones. |
| WalletOrder.PlaceKeepsSorted | Modules/core/BRWallet.c:107-119 | Inserting at the place that the comparison finds keeps the list sorted by height and free of duplicates. |
| Wallets.Wallet.InsertTx | Modules/core/BRWallet.c:107-119 | Insertion sort in place: the list with the transaction inserted below the tail of transactions that compare above it. |
| Wallets.Wallet.ContainsTx | Modules/core/BRWallet.c:122-138 | Tells exactly whether an output, or the output that an input spends, pays to an address of the wallet. |
| Wallets.Wallet.constructor | Modules/core/BRWallet.c:248-292 | A new wallet knows and lists exactly the signed transactions it is given, one for each hash, sorted, with an up-to-date balance; without transactions the chains are as long as their gaps; if all transactions touch the wallet, everything else that the operations keep holds too. |
| Wallets.Wallet.ExtendChain | Modules/core/BRWallet.c:335-349 | The chain is only extended, by derived addresses, until gapLimit unused ones end it or the derivation fails; this ends, since every used address starts the gap at most once. |
| Wallets.Wallet.UnusedAddrs | Modules/core/BRWallet.c:323-379 | gapLimit unused addresses directly behind the last used one, or none if the derivation fails, and no more derived than needed for that; the set of all addresses stays that of both chains, whether or not the chain moved in memory. |
| Wallets.Wallet.RegisterTransaction | Modules/core/BRWallet.c:715-756 | A new signed transaction that touches the wallet is listed, the balance is recomputed for the addresses so far, and then both gaps of unused addresses are filled up; another one is known only while unconfirmed; a known one changes nothing. The list stays sorted, and the wallet balanced. |
| Wallets.Wallet.UpdateTransactions | Modules/core/BRWallet.c:932-971 | The listed transactions among the given ones get the height and time, all others stay exactly as they were, the same transactions are listed, sorted; every changed one is reported, and the balance is recomputed if one of them was pending or invalid. |
| Wallets.Wallet.Reinsert | Modules/core/BRWallet.c:949-954 | Taking a transaction out and inserting it again restores the order after its height has changed. |
| Wallets.TailIsAbove | Modules/core/BRWallet.c:981-983 | In a sorted list the longest tail above a height holds every transaction above it. |
| Wallets.Wallet.SetTxUnconfirmedAfter | Modules/core/BRWallet.c:974-995 | Exactly the listed transactions above the height become unconfirmed; those up to the height are unchanged; the list stays as it was, and sorted. |
| Wallets.UnconfirmedSorted | Modules/core/BRWallet.c:988-991 | Resetting the heights of the tail keeps the list sorted without moving anything. |
| Wallets.Wallet.FindDependents | Modules/core/BRWallet.c:773-783 | Finds listed transactions that spend the given one; if it finds none, nothing left spends it except at a lower height. |
| Wallets.Wallet.RemoveTransaction | Modules/core/BRWallet.c:759-823 | Removes the transaction from the list with descendants only, so that nothing left spends a removed one except at a lower height, keeps the order of the rest, and recomputes the balance; the recursion ends. All of them stay known. |
| WalletOrder.LeftMore | Modules/core/BRWallet.c:785-793 | Removing more transactions, for a descendant and then for the transaction itself, adds up. |
| CoinSelection.FeeIsExact | Modules/core/BRWallet.c:52-58 | For fee rates below 2^32 and sizes below 2^21, the 64-bit fee is exact, and positive for positive sizes. |
| CoinSelection.FeeMonotone | Modules/core/BRWallet.c:52-58 | A larger transaction never has a smaller fee. |
| CoinSelection.SelectInputs | Modules/core/BRWallet.c:586-639 | The selected inputs are the first unspent outputs that still exist, and no fewer of them were enough; the fee amount is that of their number rounded up; the loop ends because of size, of enough, or of the end of the list. |
| CoinSelection.ShuffleOutputs | Modules/core/BRTransaction.c:477-491 | The shuffle permutes the outputs. |
| CoinSelection.CreateTxForOutputs | Modules/core/BRWallet.c:566-658 | What is selected, and what is built of it: the requested outputs and worthwhile change to an unused address of the wallet, or to the empty address if none can be derived; nothing is built exactly if there are no outputs or too little, or too little for a transaction of all outputs when the size limit is hit. |
| CoinSelection.ValueIsConserved | Modules/core/BRWallet.c:566-658 | Of a built transaction, inputs minus outputs is a fee between feeAmount and feeAmount + minAmount, feeAmount is at least the fee for the size with a change output and less than 100 above it, all requested outputs are there, and any change exceeds minAmount and leaves exactly feeAmount. |
| CoinSelection.MinimumIsSmall | Modules/core/BRWallet.c:1122-1131 | The least worthwhile amount is at least the fixed minimum, and far below 64 bits. |
| CoinSelection.TotalOfSame | Modules/core/BRTransaction.c:477-491 | The total does not depend on the order of the outputs. |
| CoinSelection.MaxOutputAmount | Modules/core/BRWallet.c:1134-1162 | The worth of all unspent outputs that exist, less the fee for spending all of them to two outputs, or 0. |
| CoinSelection.MaxCanBeSent | Modules/core/BRWallet.c:1134-1162 | When the balance is the worth of the unspent outputs and all of them fit into one transaction, sending the positive maximum to one output with a script of at most 25 bytes always succeeds, despite rounding and early exit. |
| Chains.FollowsFurther | Modules/core/BRPeerManager.c:1289-1310 | A wallet that follows a chain follows its extensions. |
| Chains.FollowsOther | Modules/core/BRPeerManager.c:1344-1361 | With everything above a common ancestor unconfirmed, the wallet follows the other branch as well. |
| Chains.WalkOn | Modules/core/BRPeerManager.c:1352-1355 | One step of the join walk keeps both positions on their branches, with no common block above them. |
| Chains.ForkBelow | Modules/core/BRPeerManager.c:1352-1355 | While the walk has not met, a stored fork point is still below it, so the walk does not leave the stored blocks. |
| Chains.PeerManager.Prune | Modules/core/BRPeerManager.c:1164-1172 | The walk below the previous transition frees exactly the reachable stored ancestors that are not at a transition. |
| Chains.PeerManager.VerifyBlock | Modules/core/BRPeerManager.c:1140-1192 | At a difficulty transition a block is valid only if the blocks back to the previous transition are stored, and then what is older is freed, whether or not the block passes the other checks. |
| Chains.PrunesOnlyOld | Modules/core/BRPeerManager.c:1146-1173 | Only blocks that are not at a transition and more than an interval below the height from which every block has its own difficulty are ever freed; never the parent of the block, nor the block. |
| Chains.PeerManager.FindJoin | Modules/core/BRPeerManager.c:1348-1355 | The walk ends, at the highest common ancestor; it finds it whenever a common ancestor is stored with both branches above it. |
| Chains.SettledLowest | Modules/core/BRPeerManager.c:1361-1378 | The walk down the new branch leaves a transaction with the height and time of the lowest block above the join that lists it. |
| Chains.HeightsAfterReorganizing | Modules/core/BRPeerManager.c:1344-1387 | After a reorganisation a transaction has the height of a block above the join exactly if that block lists it; one listed in none of them is unchanged up to the join and unconfirmed above, if no transaction is in two blocks of the branch. |
| Chains.PeerManager.constructor | Modules/core/BRPeerManager.c:1554-1608 | A peer manager starts from one block, with a wallet that follows the chain up to it. |
| Chains.PeerManager.UpdateTx | Modules/core/BRPeerManager.c:479-502 | The transactions of a main chain block get its height and time, no other transaction changes, and the wallet keeps following the chain. |
| Chains.PeerManager.Extend | Modules/core/BRPeerManager.c:1289-1310 | The block becomes the end of the main chain, and its transactions get its height. |
| Chains.PeerManager.MainBlockAt | Modules/core/BRPeerManager.c:1316-1317 | Walks down to the main chain block at a height, as long as the blocks are stored. |
| Chains.PeerManager.Existing | Modules/core/BRPeerManager.c:1311-1331 | A known block replaces the stored one; its transactions get its height exactly if it is on the main chain. |
| Chains.PeerManager.SetHeights | Modules/core/BRPeerManager.c:1361-1378 | The loop down the new branch settles every listed transaction at its block. |
| Chains.PeerManager.Reorganize | Modules/core/BRPeerManager.c:1344-1387 | The longer fork becomes the main chain, its transactions are settled from the highest common ancestor on, and the wallet follows it; this succeeds whenever the fork point is still stored. |
| Chains.PeerManager.PlaceBlock | Modules/core/BRPeerManager.c:1244-1387 | The whole new state case by case, by what is stored: an ignored block, an orphan, one that is not valid, one on top of the main chain, one that is stored already, one ahead of a chain that is still downloaded, and a fork, which is kept exactly above the last checkpoint and becomes the main chain if it is higher and its fork point is stored; with the old blocks freed that its verification frees. |
| Chains.PeerManager.RelayedBlock | Modules/core/BRPeerManager.c:1197-1419 | Whatever blocks come, in whatever order, the wallet stays balanced, every confirmed transaction of it is in the main chain block at its height, the main chain only changes to a higher one, and no stored block is lost but what can be pruned. Ignored, too old and invalid blocks and forks up to the last checkpoint change nothing else; a fork above it is stored, and the main chain is at least as high as it if its fork point is stored; a block that extends the main chain takes along all acceptable orphans waiting above it; this ends. |
| Chains.PeerManager.TakeOrphan | Modules/core/BRPeerManager.c:1391-1397 | The orphan that waits for a block is taken out, and is one above it. |
| Chains.PeerManager.RelayedTx | Modules/core/BRPeerManager.c:996-998 | Registering a relayed transaction keeps the wallet following the main chain. |
| Chains.PeerManager.MarkTx | Modules/core/BRPeerManager.c:1041-1044 | Marking an unconfirmed transaction as seen changes only its time, and the wallet keeps following the main chain; the height of the wallet becomes that of unconfirmed transactions, and with it the test for lock heights changes, exactly under the stated condition. |
| Chains.PeerManager.RemoveUnrelayed | Modules/core/BRPeerManager.c:540-543 | Removing a transaction that no peer relays keeps the wallet following the main chain. |
| Chains.PeerManager.BlockLocators | Modules/core/BRPeerManager.c:271-289 | The locators are main chain blocks at the depths 0 to 9, 11, 15, 23 and so on, and the first block at last, as far as the buffer goes; all of them are counted if the chain is stored. |
| Chains.PeerManager.LocateNext | Modules/core/BRPeerManager.c:278-285 | One walk to the next locator, whose length is at most the height of the chain and so below 2^31. |
| Chains.LocatorDepthIs | Modules/core/BRPeerManager.c:280-284 | The i-th locator is 2^(i-8) + 7 blocks below the end, from the tenth on. |
| MachineWords.SumBits | Modules/core/BRCrypto.c:831-832 | The bits of a sum of two 32-bit words and a carry are those of the sum of their numbers, modulo the power of two. |
| MachineWords.XorBits | Modules/core/BRCrypto.c:831-832 | The bits of the exclusive or of two 32-bit words are the exclusive or of their numbers, which the other modules use. |
| MachineWords.Rotated | Modules/core/BRCrypto.c:70-70 | A word with the upper k bits of another one below its other bits is that word rotated left by k. |
| MachineWords.Rotated16 | Modules/core/BRCrypto.c:831-831 | The two shifts by 16 are the rotation by 16. |
| MachineWords.Rotated12 | Modules/core/BRCrypto.c:831-831 | The shifts by 12 and 20 are the rotation by 12. |
| MachineWords.Rotated8 | Modules/core/BRCrypto.c:832-832 | The shifts by 8 and 24 are the rotation by 8. |
| MachineWords.Rotated7 | Modules/core/BRCrypto.c:832-832 | The shifts by 7 and 25 are the rotation by 7. |
| ChaCha20.QuarterRoundIs | Modules/core/BRCrypto.c:830-832 | On every state the quarter round is its eight equations on 32-bit machine words, with rotations as shifts by 16, 12, 8 and 7; the other twelve words stay. |
| ChaCha20.QuarterRoundVector | Modules/core/BRCrypto.c:830-832 | The quarter round of section 2.1.1 of RFC 7539, at any four places of any state. |
| ChaCha20.DoubleRoundIs | Modules/core/BRCrypto.c:858-861 | A double round is a quarter round on each of the four columns and then on each of the four diagonals. |
| ChaCha20.WordsOfIs | Modules/core/BRCrypto.c:846-851 | Words are read with their lowest byte first. |
| ChaCha20.BytesIs | Modules/core/BRCrypto.c:863-866 | The block is written with the lowest byte of each word first. |
| ChaCha20.CoveredAt | Modules/core/BRCrypto.c:835-878 | Byte i of the data meets byte i modulo 64 of the block that is i / 64 further on, with the counter in words 12 and 13 and the nonce behind it. |
| ChaCha20.CoverIs | Modules/core/BRCrypto.c:872-872 | Data and key stream are combined by exclusive or of their bits. |
| ChaCha20Vector.BlockVector | Modules/core/BRCrypto.c:835-870 | The key stream block of section 2.3.2 of RFC 7539, byte for byte, through all ten double rounds. |
| Aead.SealedByte | Modules/core/BRCrypto.c:889-901 | Byte i of a box is byte i of the data under byte i modulo 64 of block 1 + i / 64. |
| Aead.SealedTag | Modules/core/BRCrypto.c:889-908 | The tag is under the first 32 bytes of block 0, and over associated data and ciphertext, both padded with zeros to whole blocks, and their lengths in eight bytes each. |
| Poly1305.ClampIs | Modules/core/BRCrypto.c:753-757 | Clamping clears the top four bits of bytes 3, 7, 11 and 15 of the key and the lowest two of bytes 4, 8 and 12, and nothing else. |
| Aes256.RotColumnIs | Modules/core/BRBIP38Key.c:114-114 | The word that goes through the table is turned left by 8 bits, as a 32-bit number with its first byte highest and as bytes a1 a2 a3 a0. |
| Aes256.ShiftRowsIs | Modules/core/BRBIP38Key.c:105-106 | Byte r of column c after the row shift is byte r of column (c + r) modulo 4 before it, as section 5.1.2 of FIPS 197 says. |
| Aes256.MixColumnIs | Modules/core/BRBIP38Key.c:108-111 | The column mix is the matrix of section 5.1.3 of FIPS 197 with multiplication in the field. |
| Aes256Vector.ScheduleVector | Modules/core/BRBIP38Key.c:113-118 | Words 8 to 15 of the key schedule of appendix A.3 of FIPS 197: 9ba35411 8e6925af a51a8b5f 2067fcde a8b09c1a 93d194cd be49846e b75d5b9a. |
| Aes256Vector.CipherVector | Modules/core/BRBIP38Key.c:90-126 | The ciphertext of appendix C.3 of FIPS 197, through all fourteen rounds. |
| Base58.KnownText | Modules/core/BRBase58.c:35-67 | The bytes 00 62 62 62 are written 1a3gV. |
| Bip38.PayloadIs | Modules/core/BRBIP38Key.c:345-391 | The 39 bytes that are encoded: 01 42, then e0 or c0, the first four bytes of the hash of the address, and the two halves of the secret, each masked with its half of the derived key and encrypted under the second half of all that is derived. |
| Int256.CompactForm | Modules/core/BRInt.h:397-429 | For sizes 3 to 32 and mantissas of 16 to 23 bits, a compact target is the mantissa times 256^(size-3), and it is the compact form of every number up to the next mantissa. |
| DarkGravity.WindowIs | Modules/core/BRMerkleBlock.c:454-488 | The window is the given block and its ancestors, up to 180 of them, and ends early only where one is missing or at height zero. |
| DarkGravity.MeanIs | Modules/core/BRMerkleBlock.c:490-492 | The mean is that of all targets and once more the newest, rounded down. |
| DarkGravity.RetargetIs | Modules/core/BRMerkleBlock.c:494-512 | From a span of 180n seconds on the new target is three times the mean, up to 20n a third of it, and in between the mean times the span over 60n; never above 0x1e00ffff. |
| DarkGravity.SlowerIsEasier | Modules/core/BRMerkleBlock.c:494-512 | Of two windows with the same targets, the one that took longer never gets the smaller target. |
| DarkGravity.SlowWindow | Modules/core/BRMerkleBlock.c:494-512 | 180 blocks of target 0x1a00ffff, 200 seconds apart, get 0x1a02fffd. |
| Script.VarIntIs | Modules/core/BRAddress.c:69-103 | One byte below fd; above, fd, fe or ff and two, four or eight bytes. |
| Script.ElementEndIs | Modules/core/BRAddress.c:113-152 | Where an element ends: pushes up to 4b, the pushes 4c, 4d and 4e with a length of one, two and four bytes, and all other opcodes. |
| Script.ShapesAre | Modules/core/BRAddress.c:238-277 | The four shapes in bytes: 76 a9 14 .. 88 ac, a9 14 .. 87, 41 .. ac and 21 .. ac, and the data is what is between. |
| Transactions.FieldsInOrder | Modules/core/BRTransaction.c:256-323 | The order and widths of all fields of a serialized transaction. |
| Ledgers.TurnExactly | Modules/core/BRWallet.c:168-243 | What the turn of any transaction at the end of any history does, by its own fields and the sets that came before it: invalid, pending or accepted, and every field of the new ledger. |
| Ledgers.PendingExactly | Modules/core/BRWallet.c:190-212 | An unconfirmed transaction that is not invalid leaves unspent outputs and balance alone exactly if it is larger than 100000, has an output below 5460, has an input of a sequence below fffffffe, has a lock height or a lock time to come, or spends a pending one; otherwise all its wallet outputs that are not spent become unspent outputs. |
| Ledgers.SumIs | Modules/core/BRWallet.c:214-235 | The sum of outputs grows by the amount of each output. |
| WalletOrder.SpenderIsHigher | Modules/core/BRWallet.c:72-105 | Of two transactions of one height the one that spends the other compares as higher, whichever comes first. |
| WalletOrder.CompareByChain | Modules/core/BRWallet.c:60-105 | Transactions that heights and inputs do not order go by the last address of a chain that each pays to. |
| WalletOrder.PlaceAfterSpent | Modules/core/BRWallet.c:107-119 | An inserted transaction comes after everything of its height that it spends, wherever that stands in the list. |
| WalletOrder.PlaceBeforeSpenders | Modules/core/BRWallet.c:107-119 | It comes before a tail of the list in which everything is of its height and spends it. |
| CoinSelection.FeeIs | Modules/core/BRWallet.c:52-58 | The fee is ten a byte, or what the rate asks for rounded up to a multiple of 100, whichever is more. |
| CoinSelection.MinimumIs | Modules/core/BRWallet.c:1122-1131 | The least worthwhile amount is 5460 up to the default relay fee rate, and above it 5460 times the rate over 52357, rounded up. |
| CoinSelection.SizesAre | Modules/core/BRTransaction.c:494-516 | The estimated sizes: 148 for an input, nine and the script for an output, and ten. |
| Chains.TransitionIs | Modules/core/BRPeerManager.c:1146-1158 | A block at a multiple of 2016 below height 338778 needs the 2016 blocks below it, from height 338778 on a block needs its parent only, and other blocks need nothing. |
| Chains.PrunedIs | Modules/core/BRPeerManager.c:1164-1172 | What is freed at such a multiple: ancestors more than 2016 below it that are at no multiple of 2016 and from which all blocks up to it are stored. |
| Chains.PeerManager.Connect | Modules/core/BRPeerManager.c:1389-1418 | The orphan that waits for the block is placed in its turn, and so on; a block at the end of the main chain takes all acceptable orphans above it along. |
| Merkle.SmallTrees | Modules/core/BRMerkleBlock.c:315-343 | The roots of one, two, three and five transactions written out: left before right, and a last one without a neighbour paired with itself in every row. |
| Merkle.SmallEncoding | Modules/core/BRMerkleBlock.c:264-288 | The partial tree of three transactions with a match of the second one: hashes a, b and that of c with itself, and the flag byte 0b. |

## Left out

- Floating point: false positive rates of the bloom filter, and currency conversion.
- Threads, locks, timers, sockets, logging, callbacks and notifications; messages arrive as single steps.
- Freeing and wiping of memory, and who owns a transaction or block that is freed.
- `BRSetIterate` and `BRSetApply`: `All` lists the same items.
- HashSet.BRSet.constructor: does not cover capacities above the last but one listed size, for which the code makes no table.
- HashSet.BRSet.Grow: does not cover growth beyond the largest of the listed table sizes, for which the code makes no table.
- HashSet.BRSet.Union: is stated for two different tables, as the code is meant for.
- HashSet.BRSet.Minus: is stated for two different tables, as the code is meant for.
- HashSet.BRSet.Intersect: is stated for two different tables, as the code is meant for.
- Bip38.BRKey.SetBip38Key: does not model keys locked with EC multiplication, whose secret is the parameter `other`; nor the
  intermediate codes.
- `BRBIP38KeyIsValid`, BIP39 phrases, Bech32, BIP32 derivation and secp256k1: foreign code behind thin wrappers, or easier members.
- Script.AddressFromScriptPubKey: gives the hash or key in the script; version byte, hashing of keys and the text of the address are
  left out.
- Transactions.Serialize: does not say what is left in a buffer that is too small, nor do `TxInputData`, `TransactionOutputData` and
  `EmitInputs`.
- Transactions.Parse: does not model a length field so close to 2^64 that offset plus length wraps around, where the code goes on to
  read outside of the buffer; nor does `ReadInputs`.
- Witness and signature-hash serialization, and signing; only the serialization of all inputs is modelled.
- Merkle: blocks that are no genuine BIP37 encoding have walks too, but no property beyond `FewFound` is stated of them.
- `BRMerkleBlockIsValid`: its proof-of-work part and time check, and the parsing of block headers.
- DarkGravity.DarkGravityWaveTarget: does not say what the target is when targets reach 2^240, times are zero or differences
  reach 2^31; it is then only known not to exceed the largest allowed target.
- DarkGravity.Gather: gives sum and time span under the same conditions, as `MeanTarget` and `ScaledTarget` do.
- `BRMerkleBlockVerifyDifficulty` and the checkpoints: whether they accept a block is part of the parameter `Judgement`.
- Chains.PeerManager.Reorganize: does not model the cases where a walk leaves the stored blocks, which the code does not
  handle; the method then reports this and changes nothing.
- Chains.PeerManager.RelayedBlock: does not model rescans, saving blocks, the estimated height, the choice of peers, or the lists of
  published and relayed transactions.
- Chains.PeerManager.constructor: stands for the code that loads stored blocks, of which it takes the last one only; stored
  checkpoints, which name no parent, are not part of the model.
- Wallets.Wallet.UpdateTransactions: recomputes the balance only where the code does, so `UpToDate` may cease to hold when the height
  of an accepted transaction changes; `Balanced` holds on, and `ConfirmedBalance` says what that means.
- Wallets.Wallet.RemoveTransaction: leaves the removed transactions known, as the code does.
- Wallets.Wallet.UnusedAddrs: whether the array of addresses has moved in memory is a parameter.
- CoinSelection.CreateTxForOutputs: does not model the branch that starts over with smaller outputs when the size limit is hit; the
  outcome is `TooLarge` there.
- CoinSelection.ValueIsConserved: is stated for amounts below 2^62 in all and fee rates below 2^32 per kilobyte, where 64 bits do not
  wrap.
- CoinSelection.ShuffleOutputs: does not say that the order is random.
- The queries of the wallet for amounts, validity and confirmations of single transactions: easier members.
- `BRPaymentProtocol.c`, `BRBloomFilter.c`, `BRPeer.c` and everything outside `Modules/core`.
