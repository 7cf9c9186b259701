# Formal model of the node core

This project models the parts of the node that everything else depends on, and proves what they
promise, in Dafny 4.11:

- **RLP** (`Rlp*.dfy`, `CommonRlp.dfy`): the encoder with deferred list headers, the stream decoder with
  its stack of open lists and the sizes at which it panics, and the older codec used for trie nodes, all
  against the recursive definition of Appendix B of the Yellow Paper.
- **Merkle Patricia trie** (`Trie*.dfy`, `HexPrefix.dfy`): insert, get and delete as map operations with
  one shape per map, loading on access, dirty flags, hashing, commit and reload, also over the compressing
  database, copies that share nodes, and the ordered iterator (Appendices C and D of the Yellow Paper).
- **Virtual machine and state transition** (`World*.dfy`, `Effects.dfy`, `Evm*.dfy`, `Transition.dfy`,
  `StateDb.dfy`, `HeapExec.dfy`): 256-bit arithmetic, gas as a measure across nested calls, the invariants
  of a run, rollback on values and on the heap, and the sum of all balances, which falls by exactly what
  contracts destroy. `EvmRun.dfy` says what a run is, as a tree of states and nested calls; the machine
  returns the run it made, `EvmLaws.dfy` and `EvmUnique.dfy` prove what such runs do: what every opcode
  leaves, that a slot holds what was stored, that calls touch no account they do not enter, that nonces
  count creations, and that no second run is possible.
- **Chain manager** (`Chain.dfy`, `ChainQueue.dfy`): fork choice, reorganisation of the number index, and
  the bounded queue of blocks that wait.
- **Transaction pool** (`TxPool.dfy`): the two-stage queue, its nonce tracking, and what one pass moves.
- **Sponge and wNAF** (`Sponge.dfy`, `LaneBits.dfy`, `Wnaf.dfy`): fast forms against simple ones.
- **Storage** (`Rle.dfy`, `Store.dfy`): the run-length codec and the write-back database.

Objects the program changes in place are classes here; their methods are proved against functions on
values, and what the program promises is proved about those. `dafny verify dfyconfig.toml` checks
everything. `Bytes.dfy`, `Division.dfy` and `Powers.dfy` hold shared arithmetic.

## What is assumed

- Hash functions are arbitrary functions with 32-byte results. Where a result needs freedom from
  collisions it is asked only of the finitely many encodings at hand (`TrieStore.Clashless`).
- A created contract's address is neither its creator's nor the coinbase's (`Evm.Env.Valid`).
- A message that is applied raises its sender's nonce if no contract can be created at the sender's address
  (`EvmLaws.Unborn`), which would set it to zero (`Transition.BornAtZero`), and, where the message creates a
  contract itself, if it does not start beyond the call depth. What the nonces are without this is exact as well
  (`Transition.StateTransition.TransitionState`).
- The gas pool of a block, hence the gas of any execution, is below 2^64.
- The block values a contract can look up, and the hash functions behind SHA3 and BLOCKHASH, are
  parameters (`EvmLook.Block`); precompiled contracts, the Keccak permutation and signatures are arbitrary
  functions.
- The longest slice a machine can make is a parameter of the RLP stream, below 2^63 (`RlpPanic.SliceLen`).
- The block processor is behind an interface: it reports known blocks and missing parents, and accepts,
  puts off or rejects the rest as it likes; what it accepts has the number after its parent's.
- Deletion, reload and iteration are stated for keys of one length, as the secure trie uses them.

## Where the code and its documentation disagree

The model follows the code. Each of these comes with the exact condition under which the documented
property holds, and with an input at which it does not.

- The one-byte canonicality check of the RLP decoder compares with 56 where the standard has 128
  (rlp/decode.go:598): `RlpParse.CanonicalIffNotWide`, `RlpParse.WideExample`.
- `Raw` rebuilds a long string's header from tag 0xB8 (rlp/decode.go:625), so it is not the bytes read:
  `RlpParse.RawExactIff`, `RlpParse.RawExample`.
- On a stream without a limit a header may announce more than a slice can hold. `Bytes` panics while making
  its buffer exactly when a string header does (rlp/decode.go:594), `Raw` exactly when header and content
  together do, whether or not their sum wraps around (rlp/decode.go:620); it wraps for the nine largest
  sizes. An input limit that fits a slice excludes both: `RlpDecode.Stream.Bytes`, `RlpDecode.Stream.Raw`,
  `RlpPanic.WrapsIff`, `RlpPanic.NoneHuge`; 0xBF and eight bytes 0xFF do it: `RlpDecode.HugeHeader`.
- A trie whose root encodes to fewer than 32 bytes is hashed but never stored (model/trie/trie.go:72-83),
  so its root hash cannot be opened: `TrieHash.ReloadIff`, `TrieRoot.SmallRoot`.
- Runs of 251, 252 or 253 zeros do not survive the run-length codec: `Rle.RoundTrip`, `Rle.UnluckyExample`.
  A trie stored below it can be opened again exactly when none of its stored encodings holds one:
  `TrieDisk.ReopenIff`, `TrieDisk.LostExample`.
- A copied trie shares its nodes below the first full one, and a shared node stores itself in the cache of
  the original (model/trie/fullnode.go:22-32); the copied cache starts with an empty batch
  (model/trie/cache.go:54-60). A committed copy can be opened exactly when all it shares was stored before,
  in the database, or else in the original's cache if the database does not take the batch:
  `TrieCopy.CommitCopy`. That is so for every trie hashed since its last change if the database does not take
  the batch: `TrieCopy.Copy`. A trie of two keys that was never hashed: `TrieCopy.LostCopy`. The copy also
  forgets the root hash (model/trie/trie.go:59-61).
- The stack limit is compared with the length of the backing slice, which never shrinks
  (model/vm/gas.go:41). The comparison goes wrong exactly for an opcode that only pushes, when the slice is
  full and the stack is not: `EvmGas.SliceLimitIff`, `EvmGas.RefusedWhenEmpty`,
  `EvmMachine.FullThenEmpty`. Once a call has held 1025 items it refuses every such opcode to its end:
  `Evm.Env.Step`. The table lets CALLDATACOPY push one item (model/vm/gas.go:79), which never causes a
  refusal: `EvmGas.CallDataCopyFits`.
- `UseGas` adds its argument to the used gas after it has taken it from the gas left, and the machine calls
  it with the gas counter itself (model/vm/context.go:74-80, model/vm/vm.go:85). The two counters then do
  not add up, exactly when there was gas left: `EvmMachine.Context.UseGas`, `EvmMachine.LostGas`.
- Paying the refund multiplies the refund counter in place when it is the smaller amount
  (model/kbpool/state_transition.go:240-242): `Transition.CounterKeptIff`, `Transition.CounterLost`.
- Signed division has no word for the quotient of the least number by -1: `EvmArith.SdivIff`.
- The split status of a reorganisation is always overwritten (chain_manager/manager.go:497-508):
  `Chain.ChainManager.WriteBlock` returns one of the two others.
- Blocks put off are kept in a cache of 256 (chain_manager/manager.go:34, 110). One of them is lost exactly
  when a block is put off that does not wait yet and 256 do: `ChainQueue.LosesIff`. 257 early blocks are
  inserted without an error and the first is gone: `Chain.PushedOut`.
- MSTORE cuts what does not fit a word: MLOAD gives back exactly what is below 2^256: `EvmLook.LoadStored`.
- After a reset the pool guesses the highest pending nonce, not one more (model/kbpool/kbpool.go:115), and
  one pass over the queue never goes beyond the nonce guessed at its start. A queued transaction becomes
  pending in a pass exactly when its nonce is at most the guess and it is among the first 65:
  `TxPool.MovesIff`. So after a reset the nonce that comes next stays queued: `TxPool.NextStays`,
  `TxPool.NextNonceStays`. Promoting a transaction with a lower nonce lowers the guess: `TxPool.Pool.Promote`.
- Taking a transaction out of the pool opens a gap exactly when something depends on it:
  `TxPool.Pool.RemoveTx`.
- The wNAF routine documents the number of set digits as its result; it returns one past the last set
  digit. The two agree exactly for zero and for odd numbers below half the window: `Wnaf.EcmultWnaf`,
  `Wnaf.CountIff`, `Wnaf.CountExample`.

## Model

| member | source | states |
|---|---|---|
| RlpEncode.SpliceIsEncode | rlp/encode.go:250-266 | for every tree, splicing the deferred list headers into the flat string data gives the recursive RLP encoding |
| RlpEncode.SpliceSize | rlp/encode.go:246-248 | the size counted while encoding is the length of the spliced bytes |
| RlpEncode.HeadSizes | rlp/encode.go:165-178 | every deferred header is smaller than the whole encoding, so its size fits the length field |
| RlpEncode.PutIntIsMinimal | rlp/encode.go:579-635 | the eight-way shift cascade writes the minimal big-endian form of every 64-bit number, one zero byte for zero |
| RlpEncode.IntSize | rlp/encode.go:637-644 | the shift loop counts the bytes of the minimal big-endian form |
| RlpEncode.PutHead | rlp/encode.go:180-189 | the header written is the header of the RLP definition |
| RlpSpec.StringForms | rlp/encode.go:180-229 | the bytes of a string by its size: itself below 0x80, tag 0x80 up to 55 bytes, 0xB8 and 0xB9 with the size behind |
| RlpSpec.ListForms | rlp/encode.go:180-189 | the bytes of a list by the size of what it holds: tag 0xC0 up to 55 bytes, 0xF8 and 0xF9 with the size behind |
| RlpEncode.EncBuf.EncodeStringData | rlp/encode.go:221-229 | a string is appended with its header, single small bytes without |
| RlpEncode.EncBuf.ListEnd | rlp/encode.go:237-244 | closing a list records its payload size and adds its header to the pending header bytes |
| RlpEncode.EncBuf.EncodeItem | rlp/encode.go:501-518 | encoding a tree appends its flat data and its list heads, and size() grows by the length of its encoding |
| RlpEncode.EncBuf.ToBytes | rlp/encode.go:250-266 | the copy loop produces the spliced bytes |
| RlpEncode.EncBuf.ToWriter | rlp/encode.go:268-292 | the writer receives the spliced bytes, or a prefix of them exactly when it runs out of room |
| RlpEncode.EncBuf.EncodeToBytes | rlp/encode.go:130-140 | the bytes of a tree are its recursive RLP encoding |
| RlpEncode.EncReader.Next | rlp/encode.go:320-349 | the next piece of the encoding, none exactly at the end |
| RlpEncode.EncReader.Read | rlp/encode.go:301-318 | a read of any size returns the next bytes, as many as asked for or as are left, and reports the end exactly at the end |
| RlpEncode.EncReader.ReadInPieces | rlp/encode.go:301-318 | any sequence of read sizes yields the encoding and nothing else |
| RlpParse.ReadKindIsCanonical | rlp/decode.go:820-880 | an accepted header is the one canonical header of its kind and size |
| RlpParse.ReadKindOfHead | rlp/decode.go:820-880 | every canonical header is accepted with its kind and size |
| RlpParse.ParseSound | rlp/decode.go:428-450 | whatever is accepted is the wire form of the tree returned |
| RlpParse.ParseComplete | rlp/decode.go:428-450 | every legal wire form is accepted, whatever follows it |
| RlpParse.ParseEncode | rlp/decode.go:428-450 | the encoding of every tree followed by any bytes parses to that tree and stops at its end |
| RlpParse.CanonicalIffNotWide | rlp/decode.go:598-600 | an accepted prefix is the canonical encoding of its result exactly when it holds no two-byte form of a byte from 56 to 127 |
| RlpParse.WideExample | rlp/decode.go:598-600 | 0x81 0x40 is accepted for the byte 0x40, whose encoding is another |
| RlpParse.UintRoundTrip | rlp/decode.go:639-672 | every 64-bit number decodes from its encoding |
| RlpParse.UintSound | rlp/decode.go:639-672 | an accepted number has its minimal encoding, or is a byte from 56 to 127 in two-byte form |
| RlpParse.RawExactIff | rlp/decode.go:608-632 | Raw returns the bytes consumed exactly when the value is not a string of 56 bytes or more |
| RlpParse.RawExample | rlp/decode.go:608-632 | every string of 56 bytes comes back from Raw under another tag |
| RlpDecode.Stream.WillRead | rlp/decode.go:934-952 | a read is granted exactly when it fits the innermost list and the input limit; list position and limit advance by it; no subtraction wraps |
| RlpDecode.Stream.ReadFull | rlp/decode.go:908-921 | succeeds exactly when the window holds enough bytes, returns them and moves past them |
| RlpDecode.Stream.ReadUintBytes | rlp/decode.go:882-906 | big-endian bytes without a leading zero, anything else refused |
| RlpDecode.Stream.ReadHead | rlp/decode.go:820-880 | the head of the window, accepted exactly when it is canonical |
| RlpDecode.Stream.NextKind | rlp/decode.go:787-818 | the head is read once and remembered; the end of a list is reported exactly at its end; a value larger than what its list has left is refused |
| RlpDecode.Stream.Bytes | rlp/decode.go:584-605 | from a fresh header it succeeds exactly when a string is next that a slice can hold, after a header was read exactly when that announces one; returns its content and moves exactly past it; panics exactly when a string header announces more than a slice can hold, never under an input limit that fits one; an error met before is repeated |
| RlpDecode.Stream.OpenList | rlp/decode.go:675-688 | succeeds exactly on the header of a list, fresh or read before; the list is pushed, and fits what its parent has left |
| RlpDecode.Stream.ListEnd | rlp/decode.go:691-706 | succeeds exactly at the end of the innermost list, and charges its size to the parent |
| RlpDecode.Stream.Uint | rlp/decode.go:635-672 | succeeds exactly on a valid number, from a fresh header or one read before; returns it and moves exactly past it |
| RlpDecode.Stream.Raw | rlp/decode.go:608-632 | succeeds exactly when a value is next, from a fresh header or one read before, and a slice can hold it; moves exactly past it; panics exactly when header and content are longer than any slice, their sum wrapped around or not, never under an input limit that fits one |
| RlpDecode.Stream.Decode | rlp/decode.go:428-450 | decoding succeeds exactly when the window starts with a legal tree, or continues the header read before to one, and no string of it is too long for a slice; returns it, moves exactly past it and restores the list stack; panics exactly when a string header announces too much before anything else fails |
| RlpDecode.Stream.DecodeList | rlp/decode.go:245-281 | the elements of a list up to exactly its end |
| RlpDecode.HeldIsParsed | rlp/decode.go:787-818 | asking for the kind first changes nothing: behind the header is the tree found from the start |
| RlpDecode.HeldIsUint | rlp/decode.go:635-672 | the same for numbers |
| RlpDecode.HeldIsRaw | rlp/decode.go:608-632 | the same for raw values |
| RlpDecode.HeldIsString | rlp/decode.go:584-605 | the same for strings |
| RlpPanic.HugeIff | rlp/decode.go:590-597 | where a whole value is there, a header announces too much exactly when one of its strings is longer than a slice |
| RlpPanic.NoneHuge | rlp/decode.go:787-818 | where no more than a slice can hold may be taken, no header announces more |
| RlpPanic.WrapsIff | rlp/decode.go:617-620 | the length Raw asks for wraps around exactly for the nine largest sizes, and is then less than its header |
| RlpPanic.LongestHead | rlp/decode.go:848-859 | 0xBF and eight bytes 0xFF announce 2^64 - 1 bytes, too many for any slice |
| RlpDecode.HugeHeader | rlp/decode.go:584-632 | on that header, whatever follows it, Bytes and Raw of an unlimited stream panic |
| RlpDecode.WindowSkip | rlp/decode.go:934-952 | moving by n drops n bytes of the window, through every open list |
| RlpDecode.PopSkip | rlp/decode.go:691-706 | opening, consuming and closing a list is moving past it |
| RlpDecode.DecodeEncoded | rlp/decode.go:565-570 | round trip through Stream for every tree, trailing bytes and input limit: the tree comes back, the reader stands at the trailing bytes, no list is left open; it panics instead exactly when a string of the tree is longer than any slice |
| CommonRlp.DecodeEncode | common/rlp.go:182-242 | decoding at any position where an encoding stands gives the value and the position behind it |
| CommonRlp.EncodeValue | common/rlp.go:100-180 | the buffer written is the recursive RLP encoding |
| CommonRlp.DecodeValue | common/rlp.go:182-242 | the position loop computes the decoding function |
| Trie.MatchingNibbleLength | model/trie/slice.go:22-33 | the loop counts the nibbles two keys share |
| Trie.FindOnlyKid | model/trie/trie.go:280-289 | the counting loop tells no child, the only child and several apart |
| TrieCanon.GetIsSafe | model/trie/trie.go:217-241 | a lookup never panics on a canonical trie, whatever the key |
| TrieCanon.InsertCanon | model/trie/trie.go:162-215 | insertion never panics and keeps every full node at two children or more and every extension above a full node |
| TrieCanon.GetInsert | model/trie/trie.go:162-241 | after an insertion the key holds the new value and every other key what it held, for all terminated keys |
| TrieUnique.Unique | model/trie/trie.go:162-317 | two canonical tries that answer every lookup alike are the same tree |
| TrieDelete.InsertGood | model/trie/trie.go:162-215 | insertion keeps all keys of one length |
| TrieDelete.DeleteGood | model/trie/trie.go:243-317 | for keys of one length deletion never panics and gives a canonical trie again |
| TrieDelete.GetDelete | model/trie/trie.go:243-317 | after a deletion the key is gone and every other key holds what it held |
| TrieRuns.ApplyDenotes | model/trie/trie.go:120-160 | every Update and Delete acts on the trie as it acts on the map, an empty value deletes |
| TrieRuns.RunDenotes | model/trie/trie.go:120-160 | after any run of updates and deletes over keys of one length the trie is the map the run leaves |
| TrieRuns.HistoryIndependence | model/trie/trie.go:120-317 | two runs leave the same tree exactly when they leave the same map |
| TrieLazy.GetRep | model/trie/trie.go:350-358 | a lookup on a partly loaded trie gives what it gives on the loaded one |
| TrieLazy.InsertRep | model/trie/trie.go:162-215 | insertion into a partly loaded trie stands for insertion into the loaded one |
| TrieLazy.DeleteRep | model/trie/trie.go:243-317 | deletion from a partly loaded trie stands for deletion from the loaded one |
| HexPrefix.CompactRoundTrip | model/trie/encoding.go:14-53 | every key survives the compact form, terminator and parity included |
| HexPrefix.CompactForm | model/trie/encoding.go:14-38 | the compact form of every key, byte by byte, from the key alone |
| HexPrefix.PackAt | model/trie/encoding.go:30-36 | byte i holds nibbles 2i and 2i + 1, the first one on top |
| HexPrefix.ToKeyInjective | model/trie/encoding.go:55-66 | different byte keys have different trie keys |
| HexPrefix.CompactEncode | model/trie/encoding.go:14-38 | the loop computes the compact form, which is that of Appendix C in terms of the key alone: the number of bytes, the first byte from terminator, parity and first nibble, and each further byte from the two nibbles it joins |
| HexPrefix.CompactDecode | model/trie/encoding.go:40-53 | the slices compute its inverse |
| HexPrefix.CompactHexDecode | model/trie/encoding.go:55-66 | the loop unpacks bytes to nibbles, nibbles 2i and 2i + 1 from byte i, and appends the terminator |
| HexPrefix.DecodeCompact | model/trie/encoding.go:68-81 | the nibbles without terminators are packed to bytes |
| TrieStore.MkNodeRep | model/trie/trie.go:320-348 | the node built from RLP data stands for the whole subtree, embedded and hashed children alike |
| TrieStore.RefRep | model/trie/trie.go:320-358 | so does the node built from a reference to it |
| TrieStore.NodeOfEncode | model/trie/trie.go:350-358 | data stored for a node loads to the node of its RLP data |
| TrieRoot.EncFixesTree | model/trie/trie.go:360-374 | without hash collisions equal encodings mean equal trees |
| TrieRoot.RootIsBig | model/trie/trie.go:360-374 | with keys of 30 bytes or more every nonempty trie is large enough to be stored under its root hash |
| TrieRoot.SmallRoot | model/trie/trie.go:72-83 | a trie with one two-byte key is hashed but not stored |
| TrieHash.RootHashIsContents | model/trie/trie.go:72-91 | without collisions two tries have the same root hash exactly when they hold the same contents |
| TrieHash.RepItem | model/trie/trie.go:72-91 | a partly loaded trie has the RLP data, hence the hash, of the loaded one |
| TrieHash.RepEncs | model/trie/trie.go:360-374 | what Hash could write plus what was stored before is all that is needed to load the trie |
| TrieHash.RepGrow | model/trie/trie.go:350-374 | writing more nodes disturbs no loaded trie |
| TrieHash.RepFlushed | model/trie/trie.go:72-100 | writing only what is not stored already leaves the whole tree loadable |
| TrieHash.StepRep | model/trie/trie.go:120-160 | an update of the loaded part is an update of tree and contents |
| TrieHash.ReloadIff | model/trie/trie.go:72-91 | a store holding what Hash wrote gives the trie back under its root hash exactly when the trie is empty or its root has 32 bytes or more |
| TrieObject.MerkleTrie.Empty | model/trie/trie.go:38-52 | a new trie is empty |
| TrieObject.MerkleTrie.Open | model/trie/trie.go:38-52 | a trie opened at the root hash of a stored trie holds its contents |
| TrieObject.MerkleTrie.Update | model/trie/trie.go:120-135 | the contents change by exactly this key; an empty value removes it |
| TrieObject.MerkleTrie.Delete | model/trie/trie.go:152-160 | the key, and only it, is removed |
| TrieObject.MerkleTrie.Get | model/trie/trie.go:138-149 | the value held, for a key of any length |
| TrieObject.MerkleTrie.StoreNode | model/trie/trie.go:360-374 | returns the reference to a node and writes exactly the large dirty nodes of its loaded part under their hashes |
| TrieObject.MerkleTrie.StoreFull | model/trie/fullnode.go:49-60 | the same for a full node, child by child |
| TrieObject.MerkleTrie.Keep | model/trie/trie.go:360-374 | by size and flag: embedded, named by its hash, or named and written |
| TrieObject.MerkleTrie.Hash | model/trie/trie.go:72-91 | the root hash of the contents; everything needed to load them is now stored |
| TrieObject.MerkleTrie.Commit | model/trie/trie.go:92-100 | after the flush the backend alone can load the trie |
| TrieObject.CommitAndOpen | model/trie/trie.go:38-100 | commit and reload: a trie opened at the committed root hash has the same contents, tree and root |
| TrieCopy.StripCopy | model/trie/fullnode.go:22-32 | a copied node stands for what the original does |
| TrieCopy.DirtyCopy | model/trie/shortnode.go:21-26 | what a copy writes itself is its root and, below a short root, its first full node |
| TrieCopy.Copy | model/trie/trie.go:58-68 | the copy of a trie hashed since its last change is a trie with the same contents, to which all else that is proved applies; it has no root hash |
| TrieCopy.CopyOpensIff | model/trie/cache.go:42-60 | a store that gains what a copy writes can load its tree exactly when it held the rest before |
| TrieCopy.StoreShared | model/trie/fullnode.go:45-60 | hashing a copy writes exactly the large dirty nodes it shares to the original's cache |
| TrieCopy.CommitCopy | model/trie/cache.go:42-60 | a committed copy can be opened at its root hash exactly when every large node it shares was stored before: in the database if it takes the batch, in the database or the original's cache if not; the original stays as it was |
| TrieCopy.SharesKids | model/trie/fullnode.go:22-32 | a full root over keys of 31 bytes or more shares a node that is stored on its own |
| TrieCopy.LostCopy | model/trie/trie.go:58-68 | a trie of two keys that was never hashed: the committed copy cannot be opened |
| TrieDirty.StripInsert | model/trie/trie.go:162-215 | insertion with flags is insertion |
| TrieDirty.StripDelete | model/trie/trie.go:243-317 | deletion with flags is deletion |
| TrieDirty.RepClean | model/trie/trie.go:320-358 | a node read from the store has nothing to write, whatever its flags |
| TrieDirty.InsertClean | model/trie/trie.go:162-215 | insertion keeps every large clean node stored |
| TrieDirty.DeleteClean | model/trie/trie.go:243-317 | so does deletion, which stitches clean nodes together |
| TrieDirty.CleanLosesNothing | model/trie/trie.go:360-374 | the large dirty nodes and what is stored already are all large nodes: skipping clean ones loses nothing |
| TrieDisk.Shrinks | compression/rle/read_write.go:19-83 | what does not come back from the codec as it was comes back at least 219 bytes shorter |
| TrieDisk.ReadSize | model/trie/trie.go:320-348 | data read as a node that stands for a tree is at most 25 bytes shorter than the encoding of the tree, for any data the lenient decoder takes |
| TrieDisk.ComesIff | model/trie/trie.go:38-52 | a tree can be opened at its root hash exactly when all that is stored of it on its own is there |
| TrieDisk.ReopenIff | model/kdb/database.go:46-70 | a trie put into the compressing database can be opened at its root hash exactly when each of its encodings is still queued or survives the codec |
| TrieDisk.LostExample | model/kdb/database.go:54-109 | a trie with 251 zeros under one key cannot be opened once it is on disk |
| TrieDisk.Look | model/kdb/database.go:54-70 | Get returns what is queued, or what the codec makes of what was put |
| TrieOrder.BestExt | model/trie/iterator.go:81-93 | the least key below an extension within a bound |
| TrieOrder.BestLater | model/trie/iterator.go:55-65 | the first later child with a key gives the least key |
| TrieIterator.Iterator.First | model/trie/iterator.go:100-129 | the least key below a node with its value, none exactly for an empty one |
| TrieIterator.Iterator.NextAfter | model/trie/iterator.go:41-98 | the least key past the given one, or from it on at the start |
| TrieIterator.Iterator.Next | model/trie/iterator.go:23-39 | the least key of the contents past the current one with its value; false exactly when there is none |
| TrieIterator.UnpackOrder | model/trie/iterator.go:33-36 | the order of nibble keys is the order of byte keys |
| TrieIterator.Copy | model/trie/trie.go:18-25 | the walk visits every key of the contents once, in ascending order, and copies all of them |
| TrieIterator.ParanoiaCheck | model/trie/trie.go:18-27 | the check always answers true |
| World.TotalUpdate | model/state/state_object.go:175-190 | changing one account moves the sum of balances by its change |
| World.KeepsTransfer | model/vm/environment.go:60-69 | a transfer keeps the sum, also from an account to itself |
| World.KeepsSuicide | model/vm/vm.go:616-622 | a self-destruct keeps the sum, except that naming itself as receiver destroys exactly its balance |
| World.KeepsCreate | model/state/statedb.go:240-252 | creating an account keeps the sum |
| Effects.WeiOf | model/vm/vm.go:616-622 | the sum of balances falls by exactly what was destroyed in what is not rolled back, nested calls at any depth included |
| EvmCode.JumpDests | model/vm/analysis.go:34-47 | the sweep finds exactly the JUMPDEST bytes that are instructions and not PUSH data |
| EvmArith.WordIsSigned | common/big.go:67-84 | a word is its signed value wrapped to 256 bits |
| EvmArith.SumMeans | model/vm/vm.go:129-146 | ADD, SUB and NOT are exact modulo 2^256 |
| EvmArith.ProductMeans | model/vm/vm.go:147-155 | MUL is the product modulo 2^256 |
| EvmArith.DivMeans | model/vm/vm.go:156-197 | DIV and MOD give quotient and remainder, and zero for a zero divisor |
| EvmArith.CompareMeans | model/vm/vm.go:245-311 | comparisons, signed and unsigned, give one or zero; AND, OR and XOR are right in every bit |
| EvmArith.SdivIff | model/vm/vm.go:167-216 | SDIV and SMOD round toward zero, the quotient fits exactly unless the least number is divided by -1 |
| EvmArith.SignExtendIs | model/vm/vm.go:226-242 | SIGNEXTEND reads the low bytes as a signed number of that size |
| EvmArith.ByteAtIs | model/vm/vm.go:312-323 | BYTE is the byte at that place of the word, counted from the left |
| EvmArith.BitsAdd | model/vm/vm.go:300-311 | AND and OR add up to the sum, XOR is OR without AND |
| EvmArith.ModIsExact | model/vm/vm.go:324-349 | ADDMOD and MULMOD take the remainder of the full sum and product |
| EvmArith.Inverses | model/vm/vm.go:129-146 | SUB undoes ADD, NOT undoes itself |
| EvmArith.WordsStayWords | model/vm/vm.go:129-349 | words in, words out, for every arithmetic opcode |
| EvmLook.ResultIsWord | model/vm/vm.go:129-500 | words in, words out, also for MLOAD and CALLDATALOAD; only other lookups can push more |
| EvmLook.LoadStored | model/vm/vm.go:494-503 | MLOAD after MSTORE gives the value back exactly when it is a word |
| EvmLook.HereMeans | model/vm/vm.go:357-463 | what each opcode without operands pushes: of the message, the block and the machine |
| EvmLook.ThereMeans | model/vm/vm.go:351-512 | what each lookup with operands pushes: of accounts, storage, input, memory, old blocks and hashes |
| EvmLook.GetDataAt | model/vm/common.go:73-79 | byte i of a slice is byte start + i of the data, or zero past its end |
| EvmRun.NestFacts | execution/execution.go:52-103 | which account is entered, exactly when an execution is refused, and what the world is then |
| EvmLaws.StoreTurn | model/vm/vm.go:514-518 | SSTORE: the slot named holds the value named, every other slot, balance, nonce and code and the logs stay, two items go; the price and the refund |
| EvmLaws.LoadTurn | model/vm/vm.go:509-512 | SLOAD pushes what the slot of the running account holds, for 50 gas, and changes nothing else |
| EvmLaws.SlotHeld | model/vm/vm.go:509-518 | in every run an SLOAD pushes the value of the last SSTORE to its slot, whatever is called in between, unless the account is entered again |
| EvmLaws.PureTurn | model/vm/vm.go:129-463 | an opcode that computes replaces its operands by the result; world and memory contents stay |
| EvmLaws.OperandOrder | model/vm/vm.go:138-253 | SUB, DIV and LT take the top item as left operand |
| EvmLaws.StackTurn | model/vm/vm.go:465-480 | POP, PUSH, DUP and SWAP item by item; PUSH1 pushes the byte behind it and all pushes skip their data |
| EvmLaws.MemoryTurn | model/vm/vm.go:386-508 | a memory opcode writes its bytes at its offset; every other byte stays, what is new is zero |
| EvmLaws.WordTurn | model/vm/vm.go:494-503 | MLOAD after MSTORE at the same offset pushes the word stored |
| EvmLaws.LogTurn | model/vm/vm.go:482-492 | LOG appends one entry: the running account, the topics in the order of the stack, the bytes of the range; no account changes |
| EvmLaws.JumpTurn | model/vm/vm.go:520-535 | a jump that goes on is at a JUMPDEST instruction named by the top item, or past a JUMPI whose condition is zero |
| EvmLaws.RunEnds | model/vm/vm.go:611-627 | a run that ends well ends at STOP, RETURN or SUICIDE, and returns exactly the bytes its RETURN names |
| EvmLaws.CallTurn | model/vm/vm.go:573-609 | whom a CALL and a CALLCODE enter, with which code, value and input; the flag pushed and the gas that comes back |
| EvmLaws.CallDelivers | model/vm/vm.go:602-609 | the bytes a call returns are in memory at the offset named, as many as fit the size named; after a failure, and elsewhere, memory is as before |
| EvmLaws.CallPays | model/vm/vm.go:573-609 | for an account without code: CALL moves the value to it and changes no other balance, CALLCODE changes no balance at all |
| EvmLaws.CreateTurn | model/vm/vm.go:545-571 | what a CREATE runs, the address pushed, and the code stored there, exactly when the gas that came back pays for it |
| EvmLaws.PlainNest | execution/execution.go:52-103 | an execution of no code moves the value and nothing else, and fails exactly for depth or funds |
| EvmLaws.NestKeeps | execution/execution.go:52-103 | for every account and every execution: the nonce afterwards counts the creations kept, and code and storage are as before where neither it nor a call below it enters the account |
| EvmLaws.NonceNeverFalls | execution/execution.go:63-72 | the nonce of an account at whose address nothing is created never falls, and rises when the account creates |
| EvmUnique.OneNest | execution/execution.go:52-103 | two executions of the same call in the same world have the same outcome, to the last account and unit of gas |
| EvmUnique.OneTree | model/vm/vm.go:39-635 | two runs of the same code pass through the same states |
| EvmUnique.StoresOne | model/vm/vm.go:102-635 | every run of PUSH1 1, PUSH1 0, SSTORE, STOP with 20006 gas on an empty slot sets the slot to one and nothing else |
| WorldLaws.BegunLaw | execution/execution.go:61-85 | the world a call begins in, account by account: paid, and where it creates, emptied but for the balance |
| WorldLaws.SuicideLaw | model/vm/vm.go:616-622 | a self-destruct account by account: where the balance goes and what is marked |
| EvmNarrow.ResultIsNarrow | model/vm/vm.go:129-500 | where the block, the message, the code and the state hold only words, every opcode that pushes a value pushes a word |
| EvmNarrow.MeaningSlots | model/vm/vm.go:494-518 | what executions do keeps every storage slot and code size a word, nested calls and rolled back ones included |
| EvmMachine.Stack.Push | model/vm/stack.go:21-30 | the item is on top; the backing slice grows only when the stack outgrows it; all items are words until a wider one is pushed |
| EvmMachine.Stack.Pop | model/vm/stack.go:32-36 | the top item is removed |
| EvmMachine.Stack.Swap | model/vm/stack.go:42-44 | the top item and the n-th trade places |
| EvmMachine.Stack.Dup | model/vm/stack.go:46-48 | the n-th item is pushed again |
| EvmMachine.FeeBoundsSize | model/vm/vm.go:766-780 | memory that fewer than 2^64 gas can buy has a size far below 2^64 |
| EvmMachine.Memory.Resize | model/vm/memory.go:27-31 | memory is what it was with zeros behind, in whole words, for which exactly 3w + w*w/512 gas was charged |
| EvmMachine.Memory.Set | model/vm/memory.go:13-25 | only the bytes of the range change |
| EvmMachine.Context.UseGas | model/vm/context.go:74-80 | gas is used exactly when there is enough; gas left and gas used add up to what they did exactly when the amount is not the gas counter or that was empty |
| EvmMachine.Context.UseAllGas | model/vm/vm.go:83-88 | called with the gas counter, UseGas empties it and counts nothing as used |
| EvmMachine.Take | model/vm/common.go:81-88 | taken exactly when there is enough, also when the amount is the counter itself |
| EvmMachine.LostGas | model/vm/vm.go:83-88 | a context with five gas that uses its own counter ends with none left and none used |
| EvmMachine.FullThenEmpty | model/vm/stack.go:21-36 | after 1025 pushes and 1025 pops the stack is empty and its slice full |
| EvmGas.PriceIsPositive | model/vm/gas.go:63-126 | every opcode that goes on costs gas, and a call costs more than it hands on |
| EvmGas.Tiers | model/vm/gas.go:63-126 | the fee of every opcode whose fee is fixed |
| EvmGas.Metered | model/vm/vm.go:666-760 | the fee of every opcode whose fee depends on its operands: words hashed or copied, bytes of an exponent, topics, slots and calls |
| EvmGas.SliceLimitIff | model/vm/gas.go:35-43 | measuring the slice instead of the stack decides otherwise exactly for an opcode that only pushes, on a full slice under a stack that is not full |
| EvmGas.RefusedWhenEmpty | model/vm/gas.go:35-43 | PUSH1 is refused on an empty stack whose slice is full |
| EvmGas.CallDataCopyFits | model/vm/gas.go:79 | the item CALLDATACOPY is said to push never causes a refusal |
| Evm.Env.BaseCheck | model/vm/gas.go:24-48 | refuses exactly on too few items or a full backing slice, so on a full slice every opcode that only pushes; else the table price |
| Evm.Env.MemoryNeed | model/vm/vm.go:651-760 | the least memory that covers every range the opcode touches |
| Evm.Env.CalculateGasAndSize | model/vm/vm.go:640-784 | error exactly on stack shortage; price, growth fee, refund and the least whole number of words that covers every range otherwise |
| Evm.Env.Compute | model/vm/vm.go:129-463 | operands are replaced by the one result, for arithmetic, hashing and every lookup; items stay words exactly unless a lookup gives more |
| Evm.Env.Shuffle | model/vm/vm.go:465-480 | PUSH, POP, DUP and SWAP on the items |
| Evm.Env.WriteMemory | model/vm/vm.go:386-426 | exactly the bytes of the range named by the operands are written |
| Evm.Env.WriteWorld | model/vm/vm.go:482-518 | SSTORE changes one slot, LOG appends one log |
| Evm.Env.Jump | model/vm/vm.go:520-535 | a jump lands on a JUMPDEST instruction or fails; a zero condition falls through |
| Evm.Env.Halt | model/vm/vm.go:611-627 | RETURN gives the memory range, SUICIDE moves the balance and marks the contract; the sum falls by what it destroys |
| Evm.Env.OpCreate | model/vm/vm.go:545-571 | what is run, the exact gas left, the address pushed, the code stored and the world afterwards, from the execution that it returns |
| Evm.Env.OpCall | model/vm/vm.go:573-609 | whom it enters, whose code runs, the value and the input, each from its operand: CALL enters the account named, CALLCODE the caller itself; the flag pushed, the gas left and the return data in memory, from the execution that it returns; without code the value moves and no other balance changes; code and storage of the caller stay where nothing below enters it |
| Evm.Env.Pay | model/vm/vm.go:107-124 | the machine once the opcode is paid for: exact gas, memory and refund, or the exact reason why not; price, gas left and gas paid for memory add up to what they were |
| Evm.Env.Step | model/vm/vm.go:102-635 | one turn: the next state follows from the one before by what the opcode there does, or the run ends as it must; an SSTORE that goes on has stored; no underflow, at most 1025 items, program counter at an instruction, memory paid for, strictly less gas when the loop goes on; the slice never shrinks, and once full refuses every opcode that only pushes; items stay words when all that can be looked up is one, and else only a lookup or CREATE pushes more |
| Evm.Env.Run | model/vm/vm.go:39-100 | ends for all code, and returns the whole run, state by state with all calls below, of which each follows from the one before; what it returns is the range named by the RETURN reached; leaves at most the gas given and none after an error; restores the call depth; the sum of balances falls by exactly what was destroyed; when all that can be looked up is a word, so is every item of every stack, here and in all calls below |
| Evm.Env.Exec | execution/execution.go:52-103 | the execution, returned as a value, is one that the rules allow, and they allow no other; a failed transfer or too deep a call changes nothing and returns all gas; an error in the code undoes everything but the creator's nonce; gas returned never exceeds gas given; the world is what the recorded effects make of the one before, and the sum falls by exactly what they destroy |
| Transition.IntrinsicGas | model/kbpool/state_transition.go:70-87 | 21000 plus 68 for each nonzero and 4 for each zero data byte |
| Transition.StateTransition.BuyGas | model/kbpool/state_transition.go:142-160 | fails exactly when the sender or the pool cannot pay; else only the sender's balance and the pool fall, and no nonce, code, storage or log changes |
| Transition.StateTransition.PreCheck | model/kbpool/state_transition.go:162-196 | each error exactly when its check is the first to fail: sender, nonce, funds, gas pool, intrinsic gas; else what is bought and charged |
| Transition.StateTransition.Execute | model/kbpool/state_transition.go:198-216 | what is run: the receiver's code on the data, or the data as new code, with the message's value and gas; every nonce afterwards, the sender's higher than before where nothing can be created at its address; code and storage untouched where no call enters; the code of a new contract; gas never grows, the sum of balances falls by exactly what was destroyed; a plain payment moves exactly the value and raises exactly the sender's nonce, by one; every stack of the whole transaction holds words when message, block and state do |
| Transition.CallCounts | model/kbpool/state_transition.go:212-216 | a message that calls: the nonce of every account, one more for the sender even where the code fails |
| Transition.CreateCounts | model/kbpool/state_transition.go:200-211 | a message that creates: the nonce of every account, higher for the sender whenever the code was run |
| Transition.PlainPays | model/kbpool/state_transition.go:212-216 | a payment to an account without code: the sender's nonce is one more, all other nonces, all code and storage and the logs stay, the value moves |
| Transition.BornAtZero | execution/execution.go:61-97 | a creation without code, account by account: the new account has nonce zero, no code and no storage, whatever it was before, and keeps its balance; the creator pays and its nonce is one more |
| Transition.StateTransition.RefundGas | model/kbpool/state_transition.go:232-245 | the sender is paid for gas left and refund, the pool gets that gas back; the refund counter afterwards; no nonce, code, storage or log changes |
| Transition.StateTransition.Settle | model/kbpool/state_transition.go:226-227 | refund and coinbase payment add up to the price of the gas bought; the refund counter afterwards; no nonce, code, storage or log changes |
| Transition.CounterKeptIff | model/kbpool/state_transition.go:239-242 | the refund counter survives the payment exactly when half the gas spent is not more than it, it is zero, or gas costs one wei |
| Transition.CounterLost | model/kbpool/state_transition.go:239-242 | a counter of 15000 becomes 30000 at a price of two |
| Transition.StateTransition.TransitionState | model/kbpool/state_transition.go:185-230 | whenever a used-gas amount is returned: the sender's nonce was the message's and is higher now where nothing can be created at its address, every nonce counts the creations of its account; code and storage changed only where a call entered; what was run is what the message says; sum of balances down by exactly what contracts destroyed, pool down by exactly the gas used, gas used between half of what was spent and the gas bought; for a plain payment the exact balances and nonces |
| Transition.ApplyTwice | model/kbpool/state_transition.go:89-91 | a message that was applied is refused for its nonce when it is applied again |
| StateDb.StateObject.Copy | model/state/state_object.go:228-242 | a new object with the same value |
| StateDb.StateDB.GetStateObject | model/state/statedb.go:197-213 | loading an account changes nothing observable |
| StateDb.StateDB.CreateAccount | model/state/statedb.go:240-252 | a fresh account with only the old balance |
| StateDb.StateDB.GetOrNewStateObject | model/state/statedb.go:220-227 | the account, created if missing |
| StateDb.StateDB.AddBalance | model/state/statedb.go:132-137 | this account alone changes, by the amount |
| StateDb.StateDB.SetNonce | model/state/statedb.go:139-144 | this account alone changes |
| StateDb.StateDB.SetCode | model/state/statedb.go:146-151 | this account alone changes |
| StateDb.StateDB.SetState | model/state/statedb.go:153-158 | this slot alone changes |
| StateDb.StateDB.Delete | model/state/statedb.go:160-170 | the account is marked and emptied |
| StateDb.StateDB.Suicide | model/vm/vm.go:616-622 | the balance goes to the receiver, then the account is marked and emptied, also when both are one |
| StateDb.StateDB.Transfer | model/vm/environment.go:60-69 | exactly when the balance suffices; right also when both accounts are one |
| StateDb.StateDB.Copy | model/state/statedb.go:262-277 | an equal world that shares no object with the original |
| StateDb.StateDB.Set | model/state/statedb.go:279-285 | the world of the snapshot |
| StateDb.Perform | execution/execution.go:61-100 | whatever an execution does to the objects in the heap is what it means for the world, nested calls at any depth included |
| StateDb.PerformCall | execution/execution.go:52-103 | the protocol of two copies: one before the nonce is raised, one after; a failed transfer sets back the first, failed code the second, so that only the nonce stays |
| HeapExec.Replay | execution/execution.go:52-103 | all that the machine did to its world, done to the objects by way of their copies, leaves them in that world |
| Chain.AncestorGrows | chain_manager/manager.go:652-699 | storing more blocks changes no ancestor |
| Chain.ChainManager.Insert | chain_manager/manager.go:318-336 | the block is head, last block and indexed; every 201st becomes the checkpoint |
| Chain.ChainManager.Diff | chain_manager/manager.go:652-699 | ends, and returns exactly the new branch above the last common ancestor |
| Chain.ChainManager.Merge | chain_manager/manager.go:702-716 | the index then names the ancestors of the new head |
| Chain.ChainManager.WriteBlock | chain_manager/manager.go:481-518 | the head is the new block exactly when it is heavier; every index entry up to the head is its ancestor; no stored block is heavier than the head; the block no longer waits |
| Chain.ChainManager.Defer | chain_manager/manager.go:593-599 | the block is the newest of those that wait, all others wait in the same order; the oldest goes when there are more than 256 |
| ChainQueue.QueueAdd | chain_manager/manager.go:110 | the cache of waiting blocks stays within 256 and apart from stored and bad blocks |
| ChainQueue.PutOffIsLast | chain_manager/manager.go:590-602 | who waits after a block is put off, in which order, and which one goes when 256 others wait |
| ChainQueue.LosesIff | chain_manager/manager.go:590-602 | one waiting block is lost exactly when a block is put off that does not wait yet and 256 do |
| Chain.ChainManager.InsertOne | chain_manager/manager.go:566-620 | every outcome from the block, its parent and the processor's opinion: a bad hash is refused, a known block changes nothing; without its parent a block is invalid, unless the parent waits, then it waits as the newest; with it, a number not one more and a rejection are invalid, too far ahead is refused, ahead waits as the newest, accepted is stored with its total difficulty and is the head exactly when that is greater; a refusal changes nothing |
| Chain.AwaitNonce | chain_manager/manager.go:555-564 | answers are taken as they come until the block is answered for; a bad one for any block ends it |
| Chain.ChainManager.InsertChain | chain_manager/manager.go:522-648 | the same for any batch of blocks, until it is interrupted or a block is refused; the chain stays canonical; all that was stored stays, what waited and what was given is stored, waits, or was pushed out of the cache of 256; of what is new, a stored block has a stored parent one number below, and the parent of a waiting block is stored, waits or was pushed out; nothing is pushed out when there is room for the whole batch; no bad hash gets in; an error names its block |
| ChainQueue.RunHolds | chain_manager/manager.go:547-635 | no block that was not refused disappears from a batch without being pushed out |
| ChainQueue.RunParented | chain_manager/manager.go:547-635 | whatever the batch, no block is stored without its parent, and none is put off without one that is stored, waits or was pushed out |
| ChainQueue.RoomForAll | chain_manager/manager.go:590-602 | a batch for which the cache has room pushes nothing out |
| ChainQueue.WaitingAlready | chain_manager/manager.go:459-470 | trying waiting blocks again pushes nothing out, whatever becomes of them |
| ChainQueue.RipeIsStored | chain_manager/manager.go:547-635 | a batch in which every block follows a stored or an earlier one is stored to its last block |
| ChainQueue.SortByNumber | types/block.go:392-411 | the same blocks in order of number |
| ChainQueue.SortedIsRipe | chain_manager/manager.go:466-468 | in order of number, waiting blocks that follow stored or waiting ones can be stored one after the other |
| Chain.ChainManager.ProcFutureBlocks | chain_manager/manager.go:459-470 | the retry loses no waiting block; when each follows a stored or a waiting one and all are now accepted, none is left waiting |
| Chain.PushedOut | chain_manager/manager.go:590-594 | 257 early blocks in one batch: no error, and the first is neither stored nor waiting |
| TxPool.ManagedState.GetNonce | model/state/manage.go:75-85 | reading a nonce changes none |
| TxPool.ManagedState.SetNonce | model/state/manage.go:88-96 | one nonce changes |
| TxPool.Collect | model/kbpool/kbpool.go:378-391 | the transactions that are not stale, sorted by nonce |
| TxPool.Pool.AddTx | model/kbpool/kbpool.go:245-257 | a transaction up to whose nonce all is pending leaves no gap; a new one sets the guess to one more than its nonce |
| TxPool.Pool.Promote | model/kbpool/kbpool.go:392-410 | exactly the first 65 nonces up to the guess become pending, the next 64 stay queued unless 65 moved, the rest is dropped; the guess becomes one more than the last nonce moved |
| TxPool.Pool.CheckQueue | model/kbpool/kbpool.go:369-416 | every sender has one such pass with the nonce guessed before; pending and queue stay apart, pending nonces without gaps, at most 64 queued for every sender; nothing else changes |
| TxPool.Pool.ValidatePool | model/kbpool/kbpool.go:419-429 | exactly the used nonces are dropped; no gap opens |
| TxPool.Pool.GuessNonces | model/kbpool/kbpool.go:108-118 | the guessed nonce becomes the highest pending nonce, or that of the account |
| TxPool.Pool.ResetState | model/kbpool/kbpool.go:99-123 | used nonces leave, every sender's guess is its highest pending nonce, and every queue has a pass with it |
| TxPool.Pool.ValidateTx | model/kbpool/kbpool.go:151-205 | accepted exactly when price, sender, account, nonce, gas limit, value, funds and intrinsic gas are all right; an error names a check that fails |
| TxPool.Pool.Add | model/kbpool/kbpool.go:208-271 | accepted exactly when new and acceptable; then it is queued and every queue has a pass; else nothing changes |
| TxPool.Pool.RemoveTx | model/kbpool/kbpool.go:351-366 | takes the transaction out of pending and queue and nothing else; opens a gap exactly when its nonce is not used, no other pending one has it, and a higher one or the guess needs it |
| TxPool.Pool.RemoveTransactions | model/kbpool/kbpool.go:343-349 | takes exactly these out; removing included transactions opens no gap |
| TxPool.Pool.Advance | model/kbpool/kbpool.go:86-96 | when account nonces rise nothing is violated |
| TxPool.MovesIff | model/kbpool/kbpool.go:392-410 | a queued transaction that is not stale becomes pending in a pass exactly when its nonce is at most the guess and its rank at most 64; when it stays queued |
| TxPool.NextStays | model/kbpool/kbpool.go:108-123 | after a reset the nonce after the highest pending one stays queued |
| TxPool.NextNonceStays | model/kbpool/kbpool.go:99-271 | a run: nonce 0 is pending, the chain has a new head, nonce 1 is added and stays queued, also after the next head |
| Wnaf.EcmultWnaf | crypto/secp256k1/libsecp256k1/src/ecmult_impl.h:235-284 | the digits sum to the scalar or the scalar minus the group order, nonzero digits are odd, below half the window and at least w apart; the result is one past the last, at most one more than the number of bits, and the number of set digits exactly for zero and odd numbers below half the window |
| Wnaf.AlwaysFits | crypto/secp256k1/libsecp256k1/src/ecmult_impl.h:249-252 | for 256 digits every scalar meets the precondition |
| Wnaf.LastCarry | crypto/secp256k1/libsecp256k1/src/ecmult_impl.h:262-273 | the last window leaves no carry |
| Wnaf.Unique | crypto/secp256k1/libsecp256k1/src/ecmult_impl.h:228-231 | a number has only one such form |
| Wnaf.CountIff | crypto/secp256k1/libsecp256k1/src/ecmult_impl.h:232-233 | the set digits are as many as the result says only if there is at most one |
| Wnaf.CountExample | crypto/secp256k1/libsecp256k1/src/ecmult_impl.h:232-233 | 2 has one set digit, and the result is 2 |
| Wnaf.SizeBound | crypto/secp256k1/libsecp256k1/src/ecmult_impl.h:232-233 | the result is at most one more than the number of bits |
| Wnaf.DigitBound | crypto/secp256k1/libsecp256k1/src/ecmult_impl.h:267-270 | a digit is odd and less than half the window |
| Sponge.WithinLane | crypto/sha3/sha3.go:85-95 | bytes within a lane are absorbed by one exclusive or, at any position |
| Sponge.PaddingAbsorbed | crypto/sha3/sha3.go:154-168 | setting the two pad bits is absorbing the bytes of pad10*1 |
| Sponge.Digest.UnalignedAbsorb | crypto/sha3/sha3.go:85-95 | the bytes gathered and shifted into place |
| Sponge.Digest.AbsorbHead | crypto/sha3/sha3.go:104-118 | the first lane agrees with absorbing byte by byte |
| Sponge.Digest.AbsorbLanes | crypto/sha3/sha3.go:122-138 | whole lanes agree with absorbing byte by byte |
| Sponge.Digest.Write | crypto/sha3/sha3.go:102-148 | the state is that of absorbing all bytes ever written one at a time, for every split into writes |
| Sponge.Digest.Sum | crypto/sha3/sha3.go:199-204 | the output of the padded message; the digest itself is left as it was |
| Sponge.Squeeze | crypto/sha3/sha3.go:175-196 | lanes written whole and cut to size are the output stream |
| Rle.RoundTrip | compression/rle/read_write.go:19-83 | the round trip never errs and returns the data exactly when no zero chunk is 251, 252 or 253 bytes long |
| Rle.UnluckyExample | compression/rle/read_write.go:51-59 | 251 zeros come back as a hash |
| Rle.CompressChunk | compression/rle/read_write.go:47-70 | the first chunk and its length |
| Rle.Compress | compression/rle/read_write.go:72-83 | the loop computes the compressed form |
| Rle.Decompress | compression/rle/read_write.go:19-45 | the loop computes its inverse, an error exactly for a trailing token |
| Store.Database.Put | model/kdb/database.go:46-52 | the contents change at this key |
| Store.Database.Get | model/kdb/database.go:54-70 | the last value put and not deleted, exactly when it is still queued or survives the codec; else what the codec makes of it |
| Store.Database.Delete | model/kdb/database.go:72-80 | the key is gone from queue and disk |
| Store.Database.Flush | model/kdb/database.go:96-109 | the contents stay |

## Left out

- Reflection in the RLP package: trees of byte strings and lists stand for Go values; typed decoding would add easy members.
- Writing loaded children back into their parent: nodes are values, so only the meaning of loading is modelled, not the sharing of nodes.
- TrieCopy.Copy: the copy is a trie of its own whose commit writes its cache entry by entry; that nodes loaded below shared ones are written to the original's cache once more, and the batch after later changes, are not modelled.
- Revisions and Reset, the key preimages of the secure trie, and the string forms of trie operations.
- The cache of jump destinations, struct logs, the just-in-time machine and the skipTransfer and vmTest switches.
- Evm.Env.Valid: excludes that a created address is the creator's own or the coinbase's.
- Storage tries of accounts: storage is a map; syncing accounts into the state trie is not modelled.
- StateDb.StateDB.AddLog: logs are one list, not one list per transaction.
- Proof of work, block validation and uncles: a block is its hash, parent, number and difficulty, and the block processor is not part of this model.
- Block caches, the timer of the retry, events, locks and difficulty and gas limit formulas.
- Chain.ChainManager.ProcFutureBlocks: the cache lists its keys from the one put off longest ago on, so that reading them all leaves their order as it was.
- Adding transactions in batches and listing them: the same steps in loops.
- TxPool.ManagedState.GetAccount: nonces reserved by NewNonce and released by RemoveNonce are not modelled.
- Wnaf.EcmultWnaf: does not model limbs or 32-bit overflow of the shift for a window of 31 bits.
- The Keccak permutation itself, signatures, key stores, networking, RPC, filters and configuration.
