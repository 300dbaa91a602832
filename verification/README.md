# Trusted computing stack: models and proofs

A Dafny model of the algorithmic core of a trusted-computing stack: the kernel side (`tsb`) with its access rules,
notices, hash functions and intercept hooks, and the user and driver side (`tss-main`) with its whitelist, policy
buffers, shared memory and command protocol. `dafny verify dfyconfig.toml` checks everything.

| files | what they model |
|---|---|
| `Regex*.dfy` | The regular expressions of wildcard access rules: parser and meaning (`RegexSyntax`), the grammar it is proved against (`RegexGrammar`), the node program and its relocation and patching (`RegexCode`, `RegexEmit`, `RegexNodes`), the two-pass compiler (`RegexCompile`), the meaning of the rest of a match (`RegexCont`, `RegexStep`), the backtracking matcher (`RegexMatch`), hints and search (`RegexExec`). |
| `Integrity*.dfy` | The file-integrity whitelist: the packed file (`IntegrityFile`), the in-memory index kept beside it (`IntegrityIndex`), runs of updates (`IntegrityRuns`), packing an update (`IntegrityPrepare`). |
| `Notify*.dfy` | The notice ring with per-slot reader bitmaps, and all runs of its readers and writers. |
| `HashFold.dfy`, `Sm3.dfy`, `Sha1.dfy` | Streaming SM3 and SHA-1 against GB/T 32905-2016 and FIPS 180-1. |
| `HashExample.dfy`, `Sm3Example.dfy`, `Sha1Example.dfy` | The examples published with the two standards, word by word and round by round. |
| `Shm*.dfy` | The shared-memory allocator: free lists, size classes, and all runs as its clients see them. |
| `Tdd*.dfy` | Concurrent command senders and completion notices: steps and invariant (`TddProtocol`), which runs use stale pointers (`TddSafety`), what holds of results, notices and headers (`TddResults`). |
| `Intercept.dfy` | Reference-counted intercept modules: hooks, registration, unregistration. |
| `Lists.dfy`, `Bytes.dfy` | What several of these share. |
| `RecordLayout.dfy`, `Policy*.dfy` | Packed policy buffers: process roles, process identities, file protection items. |

How the pieces are modelled:

- Regular expressions: a pattern denotes a relation between start and end positions in a string. The compiler and the
  matcher are imperative, over the byte program; `Code(c, p, r, t)` says that the bytes at `p` encode tree `r` with exit
  `t`. The matcher is followed by a list of what is left to match, with a measure that falls whenever a node is passed
  without consuming input; HASWIDTH is what makes it fall at BACK.
- The index invariant says that list, offsets, `total` and `valid` equal those of parsing the file again, and that the
  chains partition the listed nodes. The trusted module's verdict on an update is a parameter.
- The notice ring, the allocator and the hash contexts are classes whose methods are proved against the queue, the set
  of live blocks and the message they stand for.
- Protocols are state machines; a run is an arbitrary sequence of events, so every interleaving is covered. In the command
  protocol list operations are split into reading and writing of pointers, and walks into single nodes, because the error
  path of a failed send works on the lists without the lock.
- The code and its comments disagree in places, and the model follows the code: a flag comment of `regexp.c` gives SPSTART
  as "starts with * or +", while the compiler sets it for `*` and `?`; `sha1.h` says the digest is little endian, while
  the words are stored most significant byte first.

Where a property one would expect is false of the code, the model keeps the code, shows an input or a run, and states when
the property holds: memory safety of the command protocol (`TddSafety.BadExactly`, `TddSafety.NeverBad`), the headers of
over-long requests (`TddResults.Quiescent`), the readers' counters (`NotifyRuns.StepKeepsSumExact`,
`NotifyRuns.RunsKeepSumExact`), the check of freed headers (`ShmAlloc.HeaderIndexMeaning`), repeated registration
(`Intercept.ReturnQuiet`, `Intercept.ReturnAtOnce`), field widths (`PolicyIds.RoundTrip`, `PolicyProtect.RoundTrip`), the bound
of the member loop (`PolicyRoles.ExtractMembers`), extensions of different sizes (`IntegrityIndex.MatchMeaning`), and sizes without
buffers (`IntegrityPrepare.PreparedParses`).

## Model

| member | source | states |
|---|---|---|
| `RegexExec.RegComp` | `tsb/kernel/accessctl/policy/regexp.c:226-309` | A pattern compiles if and only if the grammar, stated apart from the parser, has a tree for it whose code, counted with the magic byte and END, stays below 32767 bytes; the program then encodes that tree, and its three hints are true of every match. Both passes agree: the emitting pass never runs out of the room the sizing pass asked for. |
| `RegexExec.RegExec` | `tsb/kernel/accessctl/policy/regexp.c:725-782` | The answer is 1 if and only if some stretch of the string is in the denotation of the pattern; start and end then delimit such a stretch, and it starts as far left as any. |
| `RegexExec.WildcardMatches` | `tsb/kernel/accessctl/policy/regexp.c:226-782` | Compile, then match, as the wildcard test of an access rule does (`mac_wildcard_cmp`): it holds exactly when the grammar has a small enough tree for the rule and that tree matches a part of the object name. |
| `RegexExec.CompileParsed` | `tsb/kernel/accessctl/policy/regexp.c:226-309` | The two passes: null exactly when the parser refuses or the code is too long. |
| `RegexExec.CompiledRules` | `tsb/kernel/accessctl/policy/regexp.c:226-309` | The condition of the compiler is that of the grammar, tree included. |
| `RegexGrammar.ParseIsGrammar` | `tsb/kernel/accessctl/policy/regexp.c:321-598` | The recursive descent accepts exactly the patterns of a declarative grammar (alternatives of branches of pieces; an operator on one byte, escape, bracket or group; literal runs as long as they can be), with the same tree and the same number of groups. |
| `RegexGrammar.AcceptedIffDerived` | `tsb/kernel/accessctl/policy/regexp.c:321-598` | A pattern is accepted if and only if the grammar has a tree for it, and that tree is the only one. |
| `RegexGrammar.OperatorTakesOneByte` | `tsb/kernel/accessctl/policy/regexp.c:565-585` | Behind a run of ordinary bytes, `*`, `+` or `?` applies to the last byte only. |
| `RegexGrammar.SetSound` | `tsb/kernel/accessctl/policy/regexp.c:508-548` | The list of a bracket expression is that of the grammar: single bytes and ranges in the order written. |
| `RegexGrammar.SetComplete` | `tsb/kernel/accessctl/policy/regexp.c:508-548` | And every bracket expression of the grammar is read, with that list. |
| `RegexExec.RegTry` | `tsb/kernel/accessctl/policy/regexp.c:788-809` | An attempt at one place succeeds if and only if a match starts there, and group 0 is set to one. |
| `RegexExec.SearchAll` | `tsb/kernel/accessctl/policy/regexp.c:774-781` | Trying every place from the left, the end included, decides whether there is a match. |
| `RegexExec.SearchByte` | `tsb/kernel/accessctl/policy/regexp.c:763-770` | Skipping to the next occurrence of the first byte gives the same decision as trying every place. |
| `RegexExec.MustAppear` | `tsb/kernel/accessctl/policy/regexp.c:742-752` | The search for the mandatory string finds it if and only if it occurs. |
| `RegexExec.RegExp.SetHints` | `tsb/kernel/accessctl/policy/regexp.c:271-307` | First byte, anchor and mandatory string are hints every match satisfies. |
| `RegexExec.StartHint` | `tsb/kernel/accessctl/policy/regexp.c:276-282` | If the only branch starts with EXACTLY, every match begins with its first byte. |
| `RegexExec.AnchorHint` | `tsb/kernel/accessctl/policy/regexp.c:284-285` | If the only branch starts with BOL, every match begins at the start of the string. |
| `RegexExec.ChainExactly` | `tsb/kernel/accessctl/policy/regexp.c:298-303` | Any EXACTLY node on the top-level chain belongs to a mandatory part of the tree. |
| `RegexExec.SpineMandatory` | `tsb/kernel/accessctl/policy/regexp.c:287-305` | A literal on that spine occurs inside every match. |
| `RegexSyntax.StarIsClosure` | `tsb/kernel/accessctl/policy/regexp.c:449-456` | The meaning given to `x*` is the textbook one: cut points of any number of matches of `x`, empty ones included. |
| `RegexSyntax.HasWidthSound` | `tsb/kernel/accessctl/policy/regexp.c:350-362` | A tree flagged HASWIDTH never matches the empty string. |
| `RegexSyntax.HasWidthExact` | `tsb/kernel/accessctl/policy/regexp.c:350-362` | And it is exact: among the trees of the grammar the flag is missing only where the tree does match the empty string. |
| `RegexCompile.Compiler.RegNode` | `tsb/kernel/accessctl/policy/regexp.c:604-620` | Emits one node with a null next pointer, or counts three bytes. |
| `RegexCompile.Compiler.RegC` | `tsb/kernel/accessctl/policy/regexp.c:626-633` | Emits one byte, or counts one. |
| `RegexCompile.Compiler.RegInsert` | `tsb/kernel/accessctl/policy/regexp.c:641-659` | The in-place shift leaves the emitted operand three bytes further up and a fresh node in front of it. |
| `RegexCompile.Compiler.RegTail` | `tsb/kernel/accessctl/policy/regexp.c:665-688` | Walking the chain finds its last node; only that node changes, and it then points at the target. |
| `RegexCompile.Compiler.RegOpTail` | `tsb/kernel/accessctl/policy/regexp.c:694-701` | The same on the operand of a BRANCH; other nodes are left alone. |
| `RegexCompile.Compiler.RegAtom` | `tsb/kernel/accessctl/policy/regexp.c:492-598` | Accepts what the grammar accepts; emits code for that tree, or counts its size; the flags describe the tree. |
| `RegexCompile.Compiler.RegExactly` | `tsb/kernel/accessctl/policy/regexp.c:565-594` | A literal run becomes one EXACTLY node with a terminated operand. |
| `RegexCompile.Compiler.RegSet` | `tsb/kernel/accessctl/policy/regexp.c:508-548` | A bracket expression becomes one ANYOF or ANYBUT node listing exactly its bytes; bad ranges and missing brackets are refused. |
| `RegexCompile.Compiler.RegRange` | `tsb/kernel/accessctl/policy/regexp.c:525-538` | A range adds its bytes in ascending order, each once. |
| `RegexCompile.Compiler.RegPiece` | `tsb/kernel/accessctl/policy/regexp.c:429-481` | Refuses `*` and `+` on an operand that could be empty and nested operators; otherwise the code is that of the repeated tree. |
| `RegexCompile.Compiler.ApplySimple` | `tsb/kernel/accessctl/policy/regexp.c:446-458` | STAR or PLUS in front of a one-byte operand. |
| `RegexCompile.Compiler.ApplyStar` | `tsb/kernel/accessctl/policy/regexp.c:449-456` | The BRANCH, BACK, BRANCH, NOTHING structure built by insertions and patches is the code of `x*`. |
| `RegexCompile.Compiler.ApplyPlus` | `tsb/kernel/accessctl/policy/regexp.c:460-467` | The same for `x+`. |
| `RegexCompile.Compiler.ApplyOpt` | `tsb/kernel/accessctl/policy/regexp.c:468-476` | The same for `x?`. |
| `RegexCompile.Compiler.RegBranch` | `tsb/kernel/accessctl/policy/regexp.c:392-417` | The pieces of a branch are chained into the code of their concatenation. |
| `RegexCompile.Compiler.Reg` | `tsb/kernel/accessctl/policy/regexp.c:321-384` | The branches are chained and hooked to the closing node; the result is the code of the alternation, for a group or a whole pattern. Size counted and bytes emitted are the same function of the tree. |
| `RegexCompile.Compiler.RegNextBranch` | `tsb/kernel/accessctl/policy/regexp.c:353-362` | One more alternative is linked behind those before it. |
| `RegexCompile.Compiler.RegHook` | `tsb/kernel/accessctl/policy/regexp.c:364-370` | After the hooking loop the tail of every branch points at the closing node. |
| `RegexCode.PatchNode` | `tsb/kernel/accessctl/policy/regexp.c:665-688` | A two-byte offset below 65536 reads back as the pointer stored; only BACK counts backwards. |
| `RegexCode.Relocate` | `tsb/kernel/accessctl/policy/regexp.c:636-659` | Code is position independent: moved code, with its exit moved along, encodes the same tree. |
| `RegexCode.CodeFrame` | `tsb/kernel/accessctl/policy/regexp.c:641-659` | Code depends on its own bytes only. |
| `RegexCode.CodeChain` | `tsb/kernel/accessctl/policy/regexp.c:1056-1072` | From the first node of some code the next pointers lead, forward, to its last node, whose pointer is the exit. |
| `RegexCode.AltsChain` | `tsb/kernel/accessctl/policy/regexp.c:103-112` | The BRANCH nodes of a choice form a chain that ends behind the choice. |
| `RegexCode.SetTail` | `tsb/kernel/accessctl/policy/regexp.c:665-688` | Patching the last node of dangling code aims every open exit of that code at the target and changes nothing else. |
| `RegexCode.SetAltsTail` | `tsb/kernel/accessctl/policy/regexp.c:345-366` | Patching the last BRANCH chains a whole choice on. |
| `RegexCode.HookArm` | `tsb/kernel/accessctl/policy/regexp.c:368-370` | One round of the hooking loop hooks exactly one more branch. |
| `RegexNodes.NodesLand` | `tsb/kernel/accessctl/policy/regexp.c:641-701` | Every node of some code, STAR and PLUS operands apart, has a next pointer that leads to a node of that code or to its exit, forward unless the node is BACK. |
| `RegexNodes.ProgramLeads` | `tsb/kernel/accessctl/policy/regexp.c:321-481` | In a finished program every node but END leads to a node of the program; only BACK leads backward, and END leads nowhere. |
| `RegexEmit.NextPiece` | `tsb/kernel/accessctl/policy/regexp.c:403-412` | Linking a piece to the chain gives the code of the longer concatenation. |
| `RegexEmit.NextBranch` | `tsb/kernel/accessctl/policy/regexp.c:353-358` | Linking a branch gives the open code of the longer alternation. |
| `RegexEmit.CloseBranches` | `tsb/kernel/accessctl/policy/regexp.c:364-366` | With the closing node in place, all branches chain to it. |
| `RegexEmit.FinishGroup` | `tsb/kernel/accessctl/policy/regexp.c:364-383` | Once all branches are hooked the code is that of the group. |
| `RegexCont.PlusIsCat` | `tsb/kernel/accessctl/policy/regexp.c:460-467` | `x+` means `x` followed by `x*`. |
| `RegexCont.StarIsPlusOrEmpty` | `tsb/kernel/accessctl/policy/regexp.c:449-456` | `x*` means nothing or `x+`, when `x` has width. |
| `RegexCont.ExpandSound` | `tsb/kernel/accessctl/policy/regexp.c:822-841` | Looking at the node control is at changes neither what is left to match nor, upward, the termination measure. |
| `RegexStep.HeadShape` | `tsb/kernel/accessctl/policy/regexp.c:841-1000` | The opcode at a reachable node tells which construct is running; no other opcode occurs, so the "memory corruption" case is never taken. |
| `RegexStep.PassLeaf` | `tsb/kernel/accessctl/policy/regexp.c:842-884` | Passing a one-node item consumes what it matches, or shows that nothing can match. |
| `RegexStep.PassOpen` | `tsb/kernel/accessctl/policy/regexp.c:885-911` | Passing OPEN leaves the same ends and a smaller measure. |
| `RegexStep.PassShut` | `tsb/kernel/accessctl/policy/regexp.c:912-939` | The same for CLOSE. |
| `RegexStep.PassBack` | `tsb/kernel/accessctl/policy/regexp.c:882-884` | At BACK the input has advanced since its loop was entered, so control may return to the loop. |
| `RegexStep.PassChoice` | `tsb/kernel/accessctl/policy/regexp.c:940-960` | The alternatives on a BRANCH chain together mean exactly the choice, and each is below it in the measure. |
| `RegexStep.PassSimple` | `tsb/kernel/accessctl/policy/regexp.c:961-992` | A simple repetition means the rest after some count between the minimum and the longest run. |
| `RegexStep.Lookahead` | `tsb/kernel/accessctl/policy/regexp.c:968-985` | Skipping counts whose next byte differs from a following literal loses no match. |
| `RegexMatch.Matcher.RegMatch` | `tsb/kernel/accessctl/policy/regexp.c:822-1010` | Terminates; success leaves the input at an end of what was pending, failure means there is none; the "corrupted pointers" exit is not reached. |
| `RegexMatch.Matcher.TryBranches` | `tsb/kernel/accessctl/policy/regexp.c:945-958` | The loop over alternatives succeeds exactly when one of them leads to an end, restoring the input in between. |
| `RegexMatch.Matcher.TryRepeat` | `tsb/kernel/accessctl/policy/regexp.c:961-991` | Backing off from the longest run finds an end whenever there is one; the end reported belongs to the largest count after which the rest matches at all, and for a repetition with nothing behind it that is the longest run. |
| `RegexMatch.Matcher.RegRepeat` | `tsb/kernel/accessctl/policy/regexp.c:1016-1053` | Counts exactly the longest run of bytes the operand matches. |
| `RegexMatch.Matcher.MatchLeaf` | `tsb/kernel/accessctl/policy/regexp.c:842-884` | One-node items: succeeds when the item matches here, and advances the input to its end. |
| `IntegrityFile.AppendLaw` | `tss-main/tcf/src/file_integrity.c:196-238` | Parsing padded old bytes followed by new bytes gives the old records, then the new ones shifted by the padded length, and fails exactly when one of the two parses fails. |
| `IntegrityFile.Offsets` | `tss-main/tcf/src/file_integrity.c:196-238` | Every parsed record stands in the file where its offset says; records lie in order on 4-byte boundaries without overlap. |
| `IntegrityFile.Consecutive` | `tss-main/tcf/src/file_integrity.c:211-229` | Each record starts where the padding of the one before ends. |
| `IntegrityFile.BuryLaw` | `tss-main/tcf/src/tcf_file_integrity.c:491-546` | Overwriting the payload of one record keeps all framing: every other record keeps its bytes and offset. |
| `IntegrityFile.BuryOneMore` | `tss-main/tcf/src/tcf_file_integrity.c:491-546` | The same for one more of several overwritten records. |
| `IntegrityFile.LiveAfterBury` | `tss-main/tcf/src/tcf_file_integrity.c:491-546` | Exactly the overwritten records stop being live; the survivors keep bytes, offsets and order. |
| `IntegrityIndex.MatchMeaning` | `tss-main/tcf/src/file_integrity.c:35-76` | Matching means same hash, same path length, and the path of the node standing in the request where the extension of the node ends; with extensions of the same size, or without a path, that is same hash and same path. |
| `IntegrityIndex.ShiftedPath` | `tss-main/tcf/src/file_integrity.c:49-52` | A request with the same hash and path but another extension size that does not match. |
| `IntegrityIndex.BucketComplete` | `tss-main/tcf/src/file_integrity.c:35-76` | A bucket lookup sees every node a scan of the list would find. |
| `IntegrityIndex.RollbackExact` | `tss-main/tcf/src/file_integrity.c:467-478` | Taking a failed batch out of the chains restores the hash table exactly. |
| `IntegrityIndex.OffsetsInjective` | `tss-main/tcf/src/file_integrity.c:116-143` | Listed nodes have different file offsets. |
| `IntegrityIndex.Index.AddToTable` | `tss-main/tcf/src/file_integrity.c:77-99` | Adds a node at the front of its chain; the chains still partition the nodes by the first two hash bytes. |
| `IntegrityIndex.Index.DeleteFromTable` | `tss-main/tcf/src/file_integrity.c:100-115` | Unlinks exactly that node. |
| `IntegrityIndex.Index.BufferToItems` | `tss-main/tcf/src/file_integrity.c:196-238` | The parsing loop computes the parse of the buffer, or fails exactly when it does. |
| `IntegrityIndex.Index.HashItems` | `tss-main/tcf/src/file_integrity.c:116-143` | Live records, in order, become nodes with their offsets; tombstones are skipped. |
| `IntegrityIndex.Index.HashPolicyData` | `tss-main/tcf/src/file_integrity.c:240-300` | Parse and hash: fails without any change, or adds the live records. |
| `IntegrityIndex.Index.AppendHashed` | `tss-main/tcf/src/file_integrity.c:479-498` | The batch joins the list with offsets based on the length so far; counters follow. |
| `IntegrityIndex.Index.RemoveBatch` | `tss-main/tcf/src/file_integrity.c:467-478` | Takes the batch out of the chains and frees its nodes. |
| `IntegrityIndex.Index.Reset` | `tss-main/tcf/src/file_integrity.c:449-466` | Nothing is left on the list or in the chains. |
| `IntegrityIndex.Index.MatchFrom` | `tss-main/tcf/src/file_integrity.c:35-76` | Finds the first match on a chain from a given place on, or none. |
| `IntegrityIndex.Index.SelectOne` | `tss-main/tcf/src/file_integrity.c:331-373` | One request selects every matching listed node, none twice. |
| `IntegrityIndex.Index.Select` | `tss-main/tcf/src/file_integrity.c:331-373` | The selection is exactly the listed nodes some request matches, each once. |
| `IntegrityIndex.Index.DeletePolicyData` | `tss-main/tcf/src/file_integrity.c:310-330` | The list keeps the other nodes in order, and the live counter is their number. |
| `IntegrityIndex.Index.WriteSections` | `tss-main/httcutils/src/file.c:47-66` | After the writes the file parses to the same records with the selected ones overwritten. |
| `IntegrityIndex.Index.Build` | `tss-main/tcf/src/tcf_file_integrity.c:39-97` | Rebuilding succeeds exactly when the file parses; list, offsets and counters are then those of the file. |
| `IntegrityIndex.Index.Set` | `tss-main/tcf/src/tcf_file_integrity.c:315-384` | SET replaces the file and leaves memory in step with it; a refusal leaves the file alone. |
| `IntegrityIndex.Index.Add` | `tss-main/tcf/src/tcf_file_integrity.c:385-441` | ADD appends behind the padding and leaves memory in step with the new file; a refused ADD is rolled back. |
| `IntegrityIndex.Index.Delete` | `tss-main/tcf/src/tcf_file_integrity.c:492-549` | DELETE leaves exactly the live records no request matches, total unchanged, live counter and memory in step with the file. |
| `IntegrityRuns.StepRefines` | `tss-main/tcf/src/tcf_file_integrity.c:315-549` | Whatever an operation does to the file, its live records change like a plain list that is replaced, extended or filtered. |
| `IntegrityRuns.RunRefines` | `tss-main/tcf/src/tcf_file_integrity.c:315-549` | The same over every sequence of files that operations lead through. |
| `IntegrityRuns.Perform` | `tss-main/tcf/src/tcf_file_integrity.c:315-549` | A request succeeds if and only if its data parses and the verdict is favourable; it then makes the step of its operation on the file and leaves memory in step, and otherwise leaves the file alone. |
| `IntegrityRuns.Execute` | `tss-main/tcf/src/tcf_file_integrity.c:315-549` | Any sequence of requests carried out on the index: the live records of the resulting file are the plain list after the operations that succeeded, and memory is in step with the file whenever the last one did. |
| `IntegrityPrepare.Prepare` | `tss-main/tcf/src/tcf_file_integrity.c:205-305` | Packing refuses exactly the items that fail a check; otherwise the data holds every record at its padded offset. |
| `IntegrityPrepare.ClaimedSize` | `tss-main/tcf/src/tcf_file_integrity.c:278-294` | The size fields of a packed record give its size if and only if no size is set without its buffer. |
| `IntegrityPrepare.PreparedParses` | `tss-main/tcf/src/tcf_file_integrity.c:205-305` | The parser finds exactly the prepared records if and only if no item gives a size without its buffer. |
| `IntegrityPrepare.FieldsReadBack` | `tss-main/tcf/src/tcf_file_integrity.c:272-294` | Reading hash, extension, path and the three flag bits of a packed record where the lookup and the parser read them gives the fields of the item, if and only if no size is set without its buffer. |
| `IntegrityPrepare.PreparedWhitelist` | `tss-main/tcf/src/tcf_file_integrity.c:205-305` | The live records of prepared data are those of the items, in order, except the items whose hash is zero. |
| `IntegrityPrepare.PrepareAndSet` | `tss-main/tcf/src/tcf_file_integrity.c:205-364` | Preparing items and setting the whitelist to them: it succeeds exactly with legal items and a favourable verdict, the whitelist is then exactly their records, and every item reads back from its record; otherwise the file is unchanged. |
| `IntegrityPrepare.SizelessRefused` | `tss-main/tcf/src/tcf_file_integrity.c:242-289` | An item with an extension size and no extension: it is packed, and the parser refuses the data. |
| `NotifyRing.RingQueue.constructor` | `tsb/kernel/platform/notify/ring_array.c:7-31` | A new ring is empty; lengths out of range are replaced by the default. |
| `NotifyRing.RingQueue.IsFull` | `tsb/kernel/platform/notify/ring_array.c:75-84` | Full means one place short of the length. |
| `NotifyRing.RingQueue.IsEmpty` | `tsb/kernel/platform/notify/ring_array.c:86-95` | Empty means no slot is queued. |
| `NotifyRing.RingQueue.Put` | `tsb/kernel/platform/notify/ring_array.c:44-73` | Refused on a full ring; else the queue grows by one slot owed to every open reader. |
| `NotifyRing.RingQueue.Get` | `tsb/kernel/platform/notify/ring_array.c:229-247` | Drops the oldest slot; fails on an empty ring. |
| `NotifyRing.RingQueue.Retrieve` | `tsb/kernel/platform/notify/ring_array.c:97-129` | Hands out the oldest slot owed to the reader, clears its bit, and drops the head if nobody is owed that slot any more. |
| `NotifyRing.RingQueue.ClearBit` | `tsb/kernel/platform/notify/ring_array.c:131-160` | Clears the reader in every queued slot and nothing else. |
| `NotifyRing.RingQueue.ChannelNum` | `tsb/kernel/platform/notify/ring_array.c:199-227` | Counts exactly the queued notices owed to the channel. |
| `NotifyRing.RingQueue.CopyTo` | `tsb/kernel/platform/notify/ring_array.c:162-197` | The new ring holds the newest slots that fit, one less than its length at most, in order and with their bitmaps. |
| `NotifyRing.RingQueue.Post` | `tsb/kernel/platform/notify/notify.c:303-342` | With a reader open, a notice is always queued, displacing the oldest of a full ring. |
| `NotifyRing.RingQueue.Push` | `tsb/kernel/platform/notify/ring_array.c:187-194` | One round of copying keeps the newest slots. |
| `NotifyRuns.RunsKeepInv` | `tsb/kernel/platform/notify/notify.c:37-342` | In every run of open, close, post, take and resize, what each reader is owed is a suffix of the queue, and everything posted since it opened was received, lost in order, or is still queued. |
| `NotifyRuns.NoOwedSlotPopped` | `tsb/kernel/platform/notify/ring_array.c:120-125` | No retrieval of any run drops a slot that is still owed to somebody. |
| `NotifyRuns.PoppedHeadUnowed` | `tsb/kernel/platform/notify/ring_array.c:120-125` | When the slot just read has no readers left, neither has the head. |
| `NotifyRuns.RetrieveEffect` | `tsb/kernel/platform/notify/ring_array.c:97-129` | A retrieval takes the oldest owed notice from its reader and nothing from anyone else. |
| `NotifyRuns.ExactDelivery` | `tsb/kernel/platform/notify/notify.c:206-342` | Without drops an open reader has received everything posted since it opened, once and in order, except what is still queued for it. |
| `NotifyRuns.DrainIsPending` | `tsb/kernel/platform/notify/ring_array.c:199-227` | The channel count is exactly the number of retrievals that will still succeed, in queue order. |
| `NotifyRuns.ResizeKeeps` | `tsb/kernel/platform/notify/notify.c:37-89` | Changing the queue length keeps the invariant. |
| `NotifyRuns.StepItems` | `tsb/kernel/platform/notify/notify.c:37-341` | Every step changes the queue as the contracts of the ring operations say: a resize keeps the newest len - 1 slots, a post displaces the oldest of a full queue, a retrieval and a close clear their bits. |
| `NotifyRuns.PostKeepsSumExact` | `tsb/kernel/platform/notify/notify.c:303-342` | Posting keeps an exact counter exact if and only if what the reader took without having subtracted it yet does not, together with what is queued, reach the capacity. |
| `NotifyRuns.ResizeKeepsSumExact` | `tsb/kernel/platform/notify/notify.c:58-83` | A change of the length keeps an exact counter exact if and only if the reader has nothing taken and not subtracted; asking for the length in force changes nothing. |
| `NotifyRuns.StepKeepsSumExact` | `tsb/kernel/platform/notify/notify.c:37-342` | Of all steps of all readers and writers, exactly those in these two windows break an exact counter. |
| `NotifyRuns.RunsKeepSumExact` | `tsb/kernel/platform/notify/notify.c:37-342` | After every run that meets no window, the counter of an open reader is what is queued for it plus what it has taken and not subtracted yet. |
| `NotifyRuns.SumWindowReachable` | `tsb/kernel/platform/notify/notify.c:229-238` | A run, from the initial state, that takes one notice of a full queue and posts before the subtraction: the counter ends one short of what is owed. |
| `NotifyRuns.ResizeWindowReachable` | `tsb/kernel/platform/notify/notify.c:79-83` | A run that changes the length between taking and subtracting, with the same end. |
| `Sm3.Context.constructor` | `tsb/kernel/encryption/sm3/sm3.c:90-111` | A fresh context stands for the empty message. |
| `Sm3.Context.CF` | `tsb/kernel/encryption/sm3/sm3.c:123-250` | The two round loops compute the compression function of GB/T 32905-2016, section 5.3.3. |
| `Sm3.ExpandWords` | `tsb/kernel/encryption/sm3/sm3.c:135-173` | The 68 words are those of the message expansion, section 5.3.2. |
| `Sm3.EarlyRound` | `tsb/kernel/encryption/sm3/sm3.c:187-208` | One of the first sixteen rounds. |
| `Sm3.LateRound` | `tsb/kernel/encryption/sm3/sm3.c:214-236` | One of the other rounds. |
| `Sm3.RolMacro` | `tsb/kernel/encryption/sm3/sm3.c:8` | The rotation macro rotates by the count modulo 32. |
| `Sm3.Context.Update` | `tsb/kernel/encryption/sm3/sm3.c:252-293` | After any chunk the vector covers the whole blocks, the buffer holds the unprocessed tail and the counter pair is the exact length; an empty chunk is refused without change. |
| `Sm3.Context.Finish` | `tsb/kernel/encryption/sm3/sm3.c:295-330` | The output is the SM3 hash of the message: padding ends on a block boundary and carries the length in bits. |
| `Sm3.HashChunks` | `tsb/kernel/encryption/sm3/sm3.c:90-330` | However a message of less than 2^61 bytes is cut into chunks, the output is the hash of the whole. |
| `Sm3Example.HashOfAbc` | `tsb/kernel/encryption/sm3/sm3.c:90-330` | The hash function so defined gives the published value of Appendix A of GB/T 32905-2016 for "abc", through all expanded words and rounds. |
| `HashExample.BlockBytes` | `tsb/kernel/encryption/sm3/sm3.c:295-318` | The padded block of "abc". |
| `HashFold.CounterAdd` | `tsb/kernel/encryption/sm3/sm3.c:264-269` | The carry detected by wrap-around keeps the counter pair exact. |
| `HashFold.LengthFieldExact` | `tsb/kernel/encryption/sm3/sm3.c:306-309` | The two shifted words are the 64-bit length in bits. |
| `HashFold.FoldAppend` | `tsb/kernel/encryption/sha1/sha1.c:244-338` | Compressing block by block is associative at block boundaries. |
| `Sha1.Context.constructor` | `tsb/kernel/encryption/sha1/sha1.c:55-65` | A fresh context stands for the empty message. |
| `Sha1.F1IsChoose` | `tsb/kernel/encryption/sha1/sha1.c:203` | The three-operation form is the function of FIPS 180-1, section 5, for the first twenty steps. |
| `Sha1.F3IsMajority` | `tsb/kernel/encryption/sha1/sha1.c:205` | The four-operation form is the function for steps 40 to 59. |
| `Sha1.R` | `tsb/kernel/encryption/sha1/sha1.c:237-242` | The step that updates two registers in place is the standard step with all five registers renamed. |
| `Sha1.Schedule` | `tsb/kernel/encryption/sha1/sha1.c:233-235` | The ring of sixteen words yields word t of the 80-word schedule of section 7 and keeps the last sixteen. |
| `Sha1.Five` | `tsb/kernel/encryption/sha1/sha1.c:252-331` | Five consecutive lines are five standard steps, after which the names stand where they stood. |
| `Sha1.Context.OneBlock` | `tsb/kernel/encryption/sha1/sha1.c:244-338` | One block: the eighty lines and the final additions are the compression of section 7. |
| `Sha1.Context.ProcessBlock` | `tsb/kernel/encryption/sha1/sha1.c:212-339` | Any number of whole blocks is folded in and counted. |
| `Sha1.Context.ProcessBytes` | `tsb/kernel/encryption/sha1/sha1.c:133-192` | After any chunk the registers cover whole blocks, the counter holds their length and the buffer the rest, at most one full block. |
| `Sha1.Context.TakeBuffered` | `tsb/kernel/encryption/sha1/sha1.c:137-156` | Topping up a buffer in use, to at most 128 bytes, keeps the order of the message; nothing is left of the chunk unless the buffer was emptied. |
| `Sha1.Context.TakeWhole` | `tsb/kernel/encryption/sha1/sha1.c:158-177` | Whole blocks are taken straight from the chunk. |
| `Sha1.Context.TakeTail` | `tsb/kernel/encryption/sha1/sha1.c:179-191` | What remains goes to the buffer, a full block being processed first. |
| `Sha1.Context.Finish` | `tsb/kernel/encryption/sha1/sha1.c:91-113` | The output is the digest of FIPS 180-1, whether the padding takes one block or two, also when a full block was still buffered. |
| `Sha1.FinalBlocks` | `tsb/kernel/encryption/sha1/sha1.c:95-110` | The one or two blocks built at the end are the end of the padded message of section 4. |
| `Sha1.DigestChunks` | `tsb/kernel/encryption/sha1/sha1.c:55-192` | However a message of less than 2^61 bytes is cut into chunks, the output is the digest of the whole. |
| `Sha1.DigestBuffer` | `tsb/kernel/encryption/sha1/sha1.c:119-131` | The digest of a single buffer. |
| `Sha1Example.DigestOfAbc` | `tsb/kernel/encryption/sha1/sha1.c:55-192` | The digest so defined gives the published value of Appendix A of FIPS 180-1 for "abc", through all schedule words and steps. |
| `Sha1Example.ConstantsAreRoots` | `tsb/kernel/encryption/sha1/sha1.c:197-200` | The constants are the square roots of 2, 3, 5 and 10, rounded down, with thirty binary places. |
| `ShmPool.Pool.constructor` | `tss-main/tcs/tdd/cmd_man.c:79-95` | All slots are free, listed from the last to the first. |
| `ShmPool.Pool.Take` | `tss-main/tcs/tdd/cmd_man.c:145-153` | Takes the first free slot; none is left exactly when all are in use. |
| `ShmPool.Pool.Give` | `tss-main/tcs/tdd/cmd_man.c:124-137` | A slot in use becomes the first free one; any other slot is refused without change. |
| `ShmPool.ChainUnique` | `tss-main/tcs/tdd/cmd_man.c:43-53` | Following the links can visit only one sequence of slots. |
| `ShmPool.PopThreaded` | `tss-main/tcs/tdd/cmd_man.c:145-148` | After taking a slot the list is still acyclic and visits exactly the entries not marked as used. |
| `ShmPool.PushThreaded` | `tss-main/tcs/tdd/cmd_man.c:133-134` | The same after giving one back. |
| `ShmAlloc.GetArea` | `tss-main/tcs/tdd/cmd_man.c:219-227` | Finds the smallest class that is large enough. |
| `ShmAlloc.GetAreaPoint` | `tss-main/tcs/tdd/cmd_man.c:172-181` | Finds the area an address of the region lies in. |
| `ShmAlloc.BlockInRegion` | `tss-main/tcs/tdd/cmd_man.c:23-37` | Blocks lie inside the data region. |
| `ShmAlloc.BlocksDisjoint` | `tss-main/tcs/tdd/cmd_man.c:23-34` | Different blocks do not overlap. |
| `ShmAlloc.AddrInjective` | `tss-main/tcs/tdd/cmd_man.c:250-251` | A block is known by its address. |
| `ShmAlloc.SharedMemory.constructor` | `tss-main/tcs/tdd/cmd_man.c:58-97` | Initially nothing is live. |
| `ShmAlloc.SharedMemory.AllocData` | `tss-main/tcs/tdd/cmd_man.c:231-260` | Returns a block that was free, is large enough and of the smallest class with a free block; null only for size 0 or when every sufficient class is exhausted. |
| `ShmAlloc.SharedMemory.FreeData` | `tss-main/tcs/tdd/cmd_man.c:183-216` | Succeeds if and only if the address is the base of a live block, which is then free; any other address changes nothing. |
| `ShmAlloc.SharedMemory.AllocHeader` | `tss-main/tcs/tdd/cmd_man.c:141-156` | Returns a header that was free; null only when all are in use. |
| `ShmAlloc.SharedMemory.FreeHeader` | `tss-main/tcs/tdd/cmd_man.c:116-138` | Frees the header the address is mapped to, if it is in use. |
| `ShmAlloc.HeaderIndexMeaning` | `tss-main/tcs/tdd/cmd_man.c:119-123` | Exactly the addresses that fall into a header modulo 2^37 are mapped to it. |
| `ShmAlloc.HeaderRoundTrip` | `tss-main/tcs/tdd/cmd_man.c:119-152` | The address handed out is mapped back to its header. |
| `ShmAlloc.HeaderFreeUnchecked` | `tss-main/tcs/tdd/cmd_man.c:119-123` | A misaligned and a far address that are mapped to header 0. |
| `ShmRuns.Serve` | `tss-main/tcs/tdd/cmd_man.c:116-260` | One request: the answer is right for what the clients hold, and their view stays accurate. |
| `ShmRuns.Run` | `tss-main/tcs/tdd/cmd_man.c:116-260` | Over every run, computed from requests and answers alone: held buffers are disjoint, inside the region and large enough, held headers are whole headers, and a request fails only for a reason the clients can see. |
| `ShmRuns.AgreesSafe` | `tss-main/tcs/tdd/cmd_man.c:23-37` | An accurate view is a safe one. |
| `TddProtocol.ApplyInv` | `tss-main/tcs/tdd/tdd.c:251-461` | Every step of every call and notice keeps the protocol invariant while fewer than 2^64 numbers were drawn, and goes bad exactly by a stale pointer: never by freeing a node that is linked or freed, or a header twice. |
| `TddProtocol.RunInv` | `tss-main/tcs/tdd/tdd.c:251-461` | The invariant over every interleaving, up to the first use of a stale pointer. |
| `TddSafety.BadExactly` | `tss-main/tcs/tdd/tdd.c:345-452` | A run goes bad if and only if some step completes an insertion or removal whose neighbours have changed since it read them, or looks at a freed node, or follows the pointer of an unlinked one. |
| `TddSafety.NeverBad` | `tss-main/tcs/tdd/tdd.c:345-452` | No run is bad in which no two list operations on one bucket overlap; until then each node is unlinked exactly once before it is freed, and no header is freed twice. |
| `TddSafety.ClashNeedsFailure` | `tss-main/tcs/tdd/tdd.c:350-399` | If list operations on one bucket overlap, one of them is the error path of a failed send, which takes no lock. |
| `TddSafety.SafeWithoutFailure` | `tss-main/tcs/tdd/tdd.c:356-371` | No run is bad in which no asynchronous send fails. |
| `TddSafety.WalkerCaught` | `tss-main/tcs/tdd/tdd.c:357-369` | From every state in which a notice stands on the node of a failed send, the error path unlinks and frees the node and the next look at it goes bad. |
| `TddSafety.InsertionCaught` | `tss-main/tcs/tdd/tdd.c:357-369` | From every state in which an insertion has read the node of a failed send as head of the bucket, the error path unlinks it and the insertion goes bad. |
| `TddSafety.RaceReachable` | `tss-main/tcs/tdd/tdd.c:357-452` | A run from the initial state in which a notice looks at a node that the error path has freed. |
| `TddResults.BucketsDistinct` | `tss-main/tcs/tdd/tdd.c:350-355` | Bucketed nodes have pairwise different sequence numbers, congruent to their bucket. |
| `TddResults.ResultNeedsNotice` | `tss-main/tcs/tdd/tdd.c:372-421` | A call succeeds only after a notice with its own number, and times out only if none marked its node. |
| `TddResults.ResultIsAnswer` | `tss-main/tcs/tdd/tdd.c:321-420` | Success, an error of the device, and a reply too long for a request within the limits are reported only if the device gave exactly that answer to this call; a failed send or a refusal only if the sending of this call came to that. |
| `TddResults.AnswerIsResult` | `tss-main/tcs/tdd/tdd.c:336-420` | The answer read while no error is known is what the call returns, whatever else happens in the run. |
| `TddResults.FailureIsResult` | `tss-main/tcs/tdd/tdd.c:321-370` | A call whose send fails returns SEND_FAIL, and one the device refuses at once returns the refusal, on both paths and whatever comes later. |
| `TddResults.ResultStep` | `tss-main/tcs/tdd/tdd.c:280-421` | No step changes a decided result; an open one is decided only by the failed node allocation, the failed or refused send, the timeout or the answer of this very call. |
| `TddResults.ResultFinal` | `tss-main/tcs/tdd/tdd.c:280-421` | A decided result is final over every continuation of a run. |
| `TddResults.NoticeReaches` | `tss-main/tcs/tdd/tdd.c:443-451` | A notice that has come to the end of its walk has marked the node with its number, or no linked call has that number, whatever was unlinked meanwhile. |
| `TddResults.HitsAreNotices` | `tss-main/tcs/tdd/tdd.c:444-450` | A node is only ever marked by a notice of the run. |
| `TddResults.HeadersExact` | `tss-main/tcs/tdd/tdd.c:270-306` | Headers in use correspond one to one to the calls between taking and giving back a header. |
| `TddResults.Quiescent` | `tss-main/tcs/tdd/tdd.c:270-289` | When all calls have returned no node is left anywhere, and no header is in use if and only if no request over a length limit was given one. |
| `TddResults.CallsAreStarted` | `tss-main/tcs/tdd/tdd.c:251-280` | What a call records of its request, the length limit included, is what it was started with. |
| `TddResults.LeakReachable` | `tss-main/tcs/tdd/tdd.c:272-280` | One request over the limit: it returns, and its header stays in use. |
| `TddProtocol.StartKeeps` | `tss-main/tcs/tdd/tdd.c:270-289` | Taking a header and the length checks. |
| `TddProtocol.MakeNodeKeeps` | `tss-main/tcs/tdd/tdd.c:290-298` | Allocating the node, or giving up. |
| `TddProtocol.NumberKeeps` | `tss-main/tcs/tdd/tdd.c:306` | Drawing a sequence number. |
| `TddProtocol.LinkBeginKeeps` | `tss-main/tcs/tdd/tdd.c:350-354` | Taking the lock, stamping the node and reading the head of its bucket. |
| `TddProtocol.LinkEndKeeps` | `tss-main/tcs/tdd/tdd.c:354-355` | Writing the new head goes bad exactly if the head that was read has changed. |
| `TddProtocol.SendKeeps` | `tss-main/tcs/tdd/tdd.c:320-370` | Sending, with each of its outcomes: accepted, failed, refused by the device. |
| `TddProtocol.CheckKeeps` | `tss-main/tcs/tdd/tdd.c:372-390` | One turn of the wait loop, up to reading the neighbours of a node that is handled. |
| `TddProtocol.LastCheckKeeps` | `tss-main/tcs/tdd/tdd.c:391-397` | The section after the last wait, up to the same point. |
| `TddProtocol.DelEndKeeps` | `tss-main/tcs/tdd/tdd.c:384-398` | A removal under the lock goes bad exactly if its neighbours have changed. |
| `TddProtocol.FinishKeeps` | `tss-main/tcs/tdd/tdd.c:402-417` | Reading the answer and giving the header back. |
| `TddProtocol.FreeHeaderLateKeeps` | `tss-main/tcs/tdd/tdd.c:357-366` | The error path gives the header back first. |
| `TddProtocol.UnlinkBeginKeeps` | `tss-main/tcs/tdd/tdd.c:360-367` | The error path reads its neighbours without the lock. |
| `TddProtocol.UnlinkEndKeeps` | `tss-main/tcs/tdd/tdd.c:360-367` | Its removal goes bad exactly if the neighbours have changed. |
| `TddProtocol.FreeNodeKeeps` | `tss-main/tcs/tdd/tdd.c:361-418` | Freeing the node, on either path. |
| `TddProtocol.NoticeLockKeeps` | `tss-main/tcs/tdd/tdd.c:441-443` | A completion notice takes the lock. |
| `TddProtocol.WalkKeeps` | `tss-main/tcs/tdd/tdd.c:444-450` | One node of its walk: goes bad exactly at a freed node, or at an unlinked one with another number. |
| `TddProtocol.WalkLock` | `tss-main/tcs/tdd/tdd.c:444-450` | A notice that goes on has not passed the call it looks for. |
| `TddProtocol.UnlinkEndLock` | `tss-main/tcs/tdd/tdd.c:360-367` | An unlocked removal does not move a notice past the call it looks for. |
| `Intercept.ApplyInv` | `tsb/kernel/platform/intercept/intercept_module.c:19-58` | Every registration, snapshot, callback and unregistration step keeps the invariant. |
| `Intercept.RunInv` | `tsb/kernel/platform/intercept/intercept_module.c:19-58` | The invariant over every interleaving of hooks and unregistrations. |
| `Intercept.CountExact` | `tsb/kernel/platform/intercept/intercept_impl.h:20-35` | A node counts one plus its holders for as long as it is allocated, and a held node is allocated. |
| `Intercept.NeverBad` | `tsb/kernel/platform/intercept/intercept_impl.h:20-35` | No run uses a freed node or frees one twice. |
| `Intercept.PostKeeps` | `tsb/kernel/platform/intercept/intercept_impl.h:28-35` | A hook never drops the last reference: its release frees nothing. |
| `Intercept.SnapshotKeeps` | `tsb/kernel/platform/intercept/intercept.c:18-43` | Copying the list takes one reference per copied node. |
| `Intercept.HookOrder` | `tsb/kernel/platform/intercept/intercept.c:44-49` | A hook calls exactly the nodes it copied, each once, in list order; the combined result is zero if and only if every callback returned zero. |
| `Intercept.SnapshotExact` | `tsb/kernel/platform/intercept/intercept.c:18-43` | In every reachable state a new hook copies exactly the listed nodes that are enabled: by index, each once, in list order, nothing else. |
| `Intercept.HookCopied` | `tsb/kernel/platform/intercept/intercept.c:18-49` | What any hook of any run works on is the part of the list picked at its own copying, and it never changes. |
| `Intercept.ListInOrder` | `tsb/kernel/platform/intercept/intercept_module.c:19-58` | In every run the list holds its nodes in the order of registration: new nodes go behind all others. |
| `Intercept.OrAllZero` | `tsb/kernel/platform/intercept/intercept.c:44-49` | Or-ing the verdicts gives zero if and only if all are zero. |
| `Intercept.ReturnQuiet` | `tsb/kernel/platform/intercept/intercept_module.c:45-52` | When a waiting unregister returns, nobody holds its node, which is freed; the module can run afterwards if and only if it is on the list once more or another unregister of it is waiting for a hook. |
| `Intercept.ReturnAtOnce` | `tsb/kernel/platform/intercept/intercept_module.c:40-56` | The same for an unregister that returns at once; if it found nothing, the module can still run exactly when another unregister of it is waiting for a hook. |
| `Intercept.OnlyRegistrationGone` | `tsb/kernel/platform/intercept/intercept_module.c:36-57` | After an unregister that found a module registered only once, no hook runs it. |
| `Intercept.ReturnWhileRunning` | `tsb/kernel/platform/intercept/intercept_module.c:36-57` | A run in which a second unregister of the same module returns while its callback is running. |
| `RecordLayout.EncodedLaid` | `tss-main/tcf/src/tcf_process.c:63-79` | Records written at padded offsets are found there by a reader, whatever lies behind the buffer. |
| `PolicyRoles.Serialize` | `tss-main/tcf/src/tcf_process.c:19-83` | Refuses exactly the roles with a name over 64 bytes; otherwise the buffer, as long as computed beforehand, holds every role at its padded offset. |
| `PolicyRoles.MeasureAll` | `tss-main/tcf/src/tcf_process.c:30-56` | The length computed in the first pass is the offset behind the last record. |
| `PolicyRoles.Extract` | `tss-main/tcf/src/tcf_process.c:195-264` | Succeeds with given roles if and only if memory holds exactly these within the length. |
| `PolicyRoles.ExtractMembers` | `tss-main/tcf/src/tcf_process.c:232-252` | The member loop yields given members if and only if they stand there, fit the length of all members, and end at most one byte behind the buffer, the 12 header bytes not counted. |
| `PolicyRoles.MembersBeyond` | `tss-main/tcf/src/tcf_process.c:240-251` | A member that passes these checks although it is read from behind an empty buffer. |
| `PolicyRoles.RoundTrip` | `tss-main/tcf/src/tcf_process.c:19-264` | Extracting what was serialized gives the roles back. |
| `PolicyIds.Serialize` | `tss-main/tcf/src/tcf_process.c:88-138` | Refuses long names and more than 255 specific libraries; otherwise the buffer holds every identity, its hashes cut to the 16-bit length. |
| `PolicyIds.MeasureAll` | `tss-main/tcf/src/tcf_process.c:97-109` | The length computed in the first pass is the offset behind the last record. |
| `PolicyIds.Extract` | `tss-main/tcf/src/tcf_process.c:140-193` | Succeeds with given identities if and only if memory holds exactly these within the length. |
| `PolicyIds.RoundTrip` | `tss-main/tcf/src/tcf_process.c:88-193` | Extracting what was serialized gives the identities back if and only if all their fields fit their widths. |
| `PolicyIds.CutsShorter` | `tss-main/tcf/src/tcf_process.c:107-131` | Hashes beyond 16 bits of length make the buffer shorter than its reader needs. |
| `PolicyIds.HashesLost` | `tss-main/tcf/src/tcf_process.c:107-131` | An identity with 2047 libraries: it is written without any hash, and no reader gets it back. |
| `PolicyProtect.Serialize` | `tss-main/tcf/src/tcf_file_protect.c:91-184` | Refuses exactly the items with a path over 255 bytes; otherwise the buffer, as long as computed beforehand, holds every item. |
| `PolicyProtect.Extract` | `tss-main/tcf/src/tcf_file_protect.c:187-264` | Succeeds with given items if and only if memory holds exactly these within the length; paths end at the first NUL, wherever that is. |
| `PolicyProtect.ItemUnique` | `tss-main/tcf/src/tcf_file_protect.c:204-251` | Memory holds one item at an offset, not two. |
| `PolicyProtect.DataLength` | `tss-main/tcf/src/tcf_file_protect.c:22-36` | The length walk ends behind any items whose numbers of processes memory holds. |
| `PolicyProtect.RoundTrip` | `tss-main/tcf/src/tcf_file_protect.c:91-264` | Extracting what was serialized gives the items back if and only if all fields fit their widths; as long as the numbers of processes do, it gives the items with flags and types cut to a byte, and the length walk agrees with the length computed when writing. |
| `PolicyProtect.FlagLost` | `tss-main/tcf/src/tcf_file_protect.c:117-118` | An item whose flag is accepted and lost. |
| `PolicyProtect.RoundTripOne` | `tss-main/tcf/src/tcf_file_protect.c:22-36` | Of a single item, with any number of processes, the item cut to its fields comes back, and the length walk agrees with the length computed when writing if and only if the number fits 16 bits. |

## Left out

- Capture groups other than group 0, and the debug printing of the matcher.
- Null pointers, failed memory allocations and failed file writes, except where a result type shows them; semaphores and
  authentication of updates (a verdict parameter stands for the trusted module's answer).
- Version counters and digests of the whitelist.
- The in-memory `length` after DELETE: it is recomputed when the index is built again. The index iterator.
- IntegrityIndex.Index.Delete: records longer than the 1024-byte zero block are overwritten from whatever memory follows it,
  which is a parameter of at least 65536 bytes; framing and agreement with the file hold all the same.
- IntegrityIndex.Index.HashItems: memory does not run out, so the loop that undoes a half-hashed batch is not modelled.
- IntegrityIndex.Index.Build: the file exists; fetching its contents from the trusted module is not modelled.
- IntegrityIndex.Bucket: the host is little endian.
- The copy of a notice to its reader after the lock is released, timers and blocking of readers.
- Sm3.HashChunks and Sha1.DigestChunks: chunks below 2^32 bytes, the width of the length parameter of the former and of the
  counter words of the latter.
- Sha1.Context.OneBlock: the 80 unrolled lines are a loop over groups of five.
- TddSafety.NeverBad: the pointers of a list are modelled by the sequence they form; a run ends where a stale one is used, and
  what the machine does then is not modelled. States are values. The mailbox and the proxy check are part of the environment.
- TddProtocol.RunInv: runs that draw fewer than 2^64 sequence numbers.
- Intercept.RunInv: critical sections are modelled on values; which modules are enabled, and whether a backup node could be
  allocated, is an arbitrary choice.
- PolicyRoles.Extract and PolicyIds.Extract: lengths are unbounded numbers, so overflow of C integers by malformed buffers of
  2^31 bytes and more is not modelled.
- PolicyProtect.Extract: every string in memory ends somewhere, as `strlen` demands.
- PolicyProtect.RoundTrip: if a number of processes does not fit 16 bits, what the reader makes of a longer list is not stated,
  only that it is not the list; for a single item see PolicyProtect.RoundTripOne.
- RecordLayout.Put: copying is written as one loop; the headers of update messages (action, counter, identifier) are not
  modelled.
- Other policies with serializers of the same shape (measurement, devices, network), key, store and licence calls, ioctl and
  netlink plumbing, the kernel measurement glue: nothing but forwarding, or easier instances of what is here.
