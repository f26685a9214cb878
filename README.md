# Batch validator deposits: a Dafny model

`batchDeposit.js` reads a JSON array of validator deposit records and sends
each one to the staking deposit contract. Before it sends a record, it
computes the record's SSZ `DepositData` root. It keeps one lock file per
pubkey in a `<file>-locks` directory, so that a record already sent is
skipped when the script runs again. This project models the two parts of
that file that carry invariants and proves properties of the model:

- **The deposit root** (`Bytes`, `Hex`, `Ssz`, `SszProperties`). It covers
  `buf2hex`, Node's `Buffer.from(s, "hex")`, and the SSZ `hash_tree_root`
  of the container declared at `batchDeposit.js:32-39`. That root follows
  the Merkleization section of the SimpleSerialize specification of the
  Ethereum consensus specs: byte vectors are packed into 32-byte chunks with
  the last chunk zero-padded, the chunk list is padded with zero chunks up
  to a power of two and merkleized, and the uint64 amount is serialised
  little-endian. SHA-256 is not modelled. Every definition takes the
  two-chunk compression `h: (Chunk, Chunk) -> Chunk` as a parameter, so
  every result holds for any hash. Since a compression of two chunks into
  one cannot be injective, "the root binds every field" is stated as a
  reduction: two different well-formed deposits with equal roots give two
  different inputs on which `h` collides (`RootBinding`).
- **The idempotent batch loop** (`Batch`, `BatchProperties`).
  - `LockManager` is the lock directory, a set of pubkey strings.
  - `DepositContract` is the ethers contract. Its `Deposit` returns or
    throws as the environment decides, and it records the calls that
    returned.
  - `ProcessDepositJson` is the `for` loop. It is proved to end in exactly
    the state that the specification fold `RunPass` gives. One iteration is
    `VisitRecord`, and the `try` block inside it is `SendRecord`.
  - `RunPass` lists the records whose send returned. The calls the contract
    receives are `Submissions` of that list: each record's decoded fields
    and its root string.
  - What the environment does with each record is a `Fate`. The preparation
    of the record may throw, outside the `try`, which ends the whole pass.
    Otherwise `contract.deposit` may throw, or it returns and then
    `createLock` may throw, or both succeed. Ranging over every sequence of
    fates covers every behaviour of one sequential pass.

What the proofs establish:

- A record whose pubkey is locked is skipped: nothing is sent and no lock is
  written for it.
- A lock is written only after `contract.deposit` returned for that record.
  After a pass, the lock set is the initial set plus the pubkeys reported
  `Sent`.
- A failed send is reported and the loop goes on. A throw while preparing a
  record ends the pass at the first unlocked record that throws.
- The calls that returned are exactly those of the records reported as
  sent, in input order. Each call carries the record's decoded fields and
  its `0x`-prefixed, 64-digit root.
- Over any number of passes that share one lock directory, the sends that
  returned for a pubkey string number at most one more than the lock writes
  for it that threw. When no lock write throws, every pubkey string is sent
  at most once, duplicates within one file included.
- A lock write that throws after a successful send leaves the key unlocked.
  The source catches that error with the same handler as a failed send. The
  model keeps the state visible as a `SentUnlocked` entry, and
  `LostLockResends` shows that the next pass sends the record again.
- The guarantee is per pubkey **string**, as in the source: the lock file is
  named after `data.pubkey` as written in the JSON. `FromHexIgnoresCase`
  shows that two spellings that differ only in the case of their letter
  digits decode to the same key bytes. The model keeps them as two
  different locks. That holds on a case-sensitive filesystem. On a
  case-insensitive one (the macOS and Windows defaults), the lock paths
  built at `batchDeposit.js:60` and `:64` name the same file, so there the
  two spellings share one lock.

The tree the root is computed over follows SSZ as the code uses it through
`@chainsafe/ssz`:

- The 96-byte signature packs into three 32-byte chunks, padded to four
  leaves with a zero chunk (`MerkleizeThree`, `PackSignature`).
- The amount is 8 little-endian bytes padded to one chunk
  (`AmountChunkInjective`).

## Model

| member | source | states |
|---|---|---|
| `Hex.Digit` | batchDeposit.js:44 | the digit written for a nibble is a lower-case hex digit whose value is the nibble |
| `Hex.DigitValue` | batchDeposit.js:90-93 | a hex digit of either case stands for the nibble whose lower-case digit is that digit with its letter lower-cased, so 'A'..'F' read as 'a'..'f' |
| `Hex.ToBase16` | batchDeposit.js:44 | `x.toString(16)` is at least one lower-case digit, one digit exactly when x < 16, has no leading zero, and denotes x |
| `Hex.ByteToHex` | batchDeposit.js:44 | `` `00${x.toString(16)}`.slice(-2) `` is the byte's high and low nibble as two digits, zero-padded |
| `Hex.Buf2Hex` | batchDeposit.js:42-46 | `buf2hex` of n bytes has exactly 2n characters |
| `Hex.Buf2HexJoin` | batchDeposit.js:43-45 | `buf2hex` is `ByteToHex` mapped over the bytes and joined without separator |
| `Hex.Buf2HexAt` | batchDeposit.js:42-46 | byte i appears at positions 2i and 2i+1 as its two nibble digits, in input order |
| `Hex.Buf2HexLowerCase` | batchDeposit.js:42-46 | every character `buf2hex` writes is a lower-case hex digit |
| `Hex.FromHex` | batchDeposit.js:90-93 | `Buffer.from(s, "hex")` yields at most half as many bytes as s has characters |
| `Hex.FromHexAt` | batchDeposit.js:90-93 | each decoded byte is the value of its digit pair, and decoding stops early only at a pair that is not two hex digits |
| `Hex.FromHexBuf2Hex` | batchDeposit.js:42-46 | decoding the output of `buf2hex` gives back the input bytes |
| `Hex.Buf2HexFromHex` | batchDeposit.js:42-46 | an even-length lower-case hex string is exactly `buf2hex` of its decoding |
| `Hex.SameDigitOfLower` | batchDeposit.js:90-93 | two characters that differ at most in the case of a letter digit are read as the same digit |
| `Hex.FromHexIgnoresCase` | batchDeposit.js:80-90 | pubkey spellings that differ only in the case of their letter digits decode to the same bytes |
| `Ssz.Pack` | batchDeposit.js:34-37 | packing yields ceil(n/32) chunks holding the bytes in order, followed by zeros |
| `Ssz.NextPowerOfTwo` | batchDeposit.js:32-39 | the merkleization width is the least power of two that is at least the chunk count |
| `Ssz.LittleEndianRoundTrip` | batchDeposit.js:36 | the 8-byte little-endian serialisation of the amount loses nothing |
| `Ssz.DepositRootStringForm` | batchDeposit.js:105 | the root string is "0x" plus 64 lower-case hex digits that decode to the container root |
| `SszProperties.MerkleizeOne` | batchDeposit.js:35-36 | a single chunk, the withdrawal credentials or the amount, is its own root |
| `SszProperties.MerkleizeTwo` | batchDeposit.js:34 | two chunks, the pubkey, hash once |
| `SszProperties.MerkleizeThree` | batchDeposit.js:37 | three chunks, the signature, get one zero chunk and form a two-level tree |
| `SszProperties.MerkleizeFour` | batchDeposit.js:32-39 | the four field roots form a two-level tree in declaration order |
| `SszProperties.PackPubkey` | batchDeposit.js:34 | a 48-byte pubkey packs into a full chunk and 16 bytes plus 16 zeros |
| `SszProperties.PackSignature` | batchDeposit.js:37 | a 96-byte signature packs into three full chunks |
| `SszProperties.HashTreeRootShape` | batchDeposit.js:32-39 | the container root equals the fixed tree over pubkey, withdrawal credentials, amount and signature, in that order |
| `SszProperties.AmountChunkInjective` | batchDeposit.js:36 | different uint64 amounts give different amount chunks |
| `SszProperties.LeavesDiffer` | batchDeposit.js:32-39 | two different well-formed deposits differ in at least one leaf of the tree |
| `SszProperties.RootBinding` | batchDeposit.js:105 | equal roots for two different well-formed deposits yield two different inputs on which the hash collides |
| `Batch.Outcome` | batchDeposit.js:103-118 | the `try` block yields a returned send exactly when the fields have the declared lengths and `contract.deposit` returns, whether or not the lock write then throws; it never yields `Skipped` |
| `Batch.RunPassStep` | batchDeposit.js:79-119 | the pass over one more record is one more iteration, unless the pass has already thrown |
| `Batch.AbortedPassIsFinal` | batchDeposit.js:89-101 | once a record's preparation throws, the records after it change nothing |
| `Batch.LockManager.constructor` | batchDeposit.js:51-57 | an existing lock directory keeps its locks |
| `Batch.LockManager.CheckLock` | batchDeposit.js:59-61 | a record is locked exactly when its pubkey string has a lock |
| `Batch.LockManager.CreateLock` | batchDeposit.js:63-65 | a write adds exactly that pubkey's lock; a failed write throws and adds nothing |
| `Batch.DepositContract.Deposit` | batchDeposit.js:106-112 | a returned call is recorded with its arguments; a thrown one records nothing |
| `Batch.SendRecord` | batchDeposit.js:103-118 | the `try` block returns the entry `Outcome` gives, adds the lock only for `Sent`, and records one call carrying the record's decoded fields and root exactly when the send returned |
| `Batch.VisitRecord` | batchDeposit.js:79-118 | one iteration ends in the state `Visit` gives: skip a locked record, throw out of the loop when preparation throws, otherwise the `try` block |
| `Batch.ProcessDepositJson` | batchDeposit.js:68-120 | the loop ends with the lock set, the report and the thrown flag that `RunPass` gives from the old lock set; the calls added are those of the records `RunPass` lists as sent, each with its decoded fields and root |
| `BatchProperties.VisitStep` | batchDeposit.js:79-118 | one iteration either throws, changing nothing, or appends one entry that fits, adding a lock only for `Sent` and a sent record only for a returned send |
| `BatchProperties.PassLocks` | batchDeposit.js:63-65 | after a pass the lock set is the initial set plus the pubkeys reported `Sent` |
| `BatchProperties.PassProgress` | batchDeposit.js:89-101 | a pass reaches every record, or it stops at an unlocked record whose preparation threw and attempts nothing after it |
| `BatchProperties.PassEntry` | batchDeposit.js:79-118 | every reached record's entry fits its fate and the locks in place when it was reached, including locks written earlier in the pass |
| `BatchProperties.LockedRecordSkipped` | batchDeposit.js:83-86 | a record locked before the pass is reported `Skipped` |
| `BatchProperties.ContinueOnError` | batchDeposit.js:103-118 | when no preparation throws, every record is reached, whatever the sends do |
| `BatchProperties.ReturnedWellFormed` | batchDeposit.js:103-112 | a send returns only for records whose fields have the declared lengths |
| `BatchProperties.PassSent` | batchDeposit.js:103-112 | the records whose send returned are exactly those reported `Sent` or `SentUnlocked`, in input order |
| `BatchProperties.AtMostOnceStep` | batchDeposit.js:83-115 | one entry keeps the at-most-once invariant when a returned send is only ever for an unlocked key and `Sent` adds its lock |
| `BatchProperties.PassKeepsAtMostOnce` | batchDeposit.js:83-115 | a pass preserves "sends for a key are at most one more than its lost locks, and a key at that bound is locked" |
| `BatchProperties.PassesKeepAtMostOnce` | batchDeposit.js:83-115 | the same invariant holds after any number of passes over one lock directory |
| `BatchProperties.AtMostOneDepositPerKey` | batchDeposit.js:83-115 | across passes, sends that returned for a pubkey string are at most one plus its lost locks |
| `BatchProperties.LostLockResends` | batchDeposit.js:106-118 | a lock write that throws after a send leaves the key unlocked, and the next pass sends it again |

## Left out

- SHA-256 is a parameter `h`. No concrete root value is computed, so a golden test vector cannot be stated.
- The ethers provider, wallet and contract construction, and the network send are left out. `contract.deposit` returns or throws as the record's `Fate` says. A call that throws after the transaction reached the network counts as not sent.
- The transaction parameters are left out: `parseEther(String(amount / 1e9))`, `gasLimit` and `parseUnits(gasPrice, "gwei")`. They use JavaScript floating point and library parsing. Whether they throw is the `PrepareThrows` fate. The intended relation, wei = gwei × 10^9, is not modelled.
- The filesystem is a set of pubkey strings: lock paths, `mkdirSync`, `writeFileSync` and reading the JSON file. A failed lock write is the `LockWriteThrows` fate. `fs.existsSync` answering false on a read error is not modelled: `CheckLock` reads the set exactly.
- What `@chainsafe/ssz` does with a byte field of the wrong length or an amount outside uint64 is not part of this model. Such a record is treated as an error thrown inside the `try`, which is caught and reported `Failed`. JSON amounts that are not integers, or above 2^53, are not modelled.
- JSON parsing, dotenv configuration, `main`, argument checks and `process.exit` are left out. Console logging is reduced to the per-record `Entry` report.
- Cross-process races on the lock directory (check-then-create) are left out, and so is async scheduling. Passes are strictly sequential.
