# Kernels of the Ninth Edition commands

A Dafny model of nine algorithms from `v9/cmd`, with proofs of what they promise. Each program keeps its own
form: global variables that a program updates are the fields of a class, arrays that it changes in place are
arrays, and its loops are loops with invariants. Input and output are sequences; answers, hashes and comparisons
that come from outside are parameters.

Verify everything with `dafny verify dfyconfig.toml`.

## What is modelled

**compress** (`Bits`, `Lzw*`). `LzwCodes` says what a sequence of codes means (`Step`, `StringOf`) and where each
code lies in the file (`Wire`, `Tape`). The writer packs codes of 9 to 16 bits into a 16-byte buffer and widens them
as its table grows; the reader does the same one entry later. The dictionary is the open hash table of 69001 slots.
`LzwDecompress.RoundTrip` runs one after the other: for every input, every width limit from 9 to 16, both block modes
and every choice of when the ratio has fallen, what comes out is what went in. The hash need only be sound: the
probe passes over positive keys only, so the entry with key 0 may be overwritten, which costs compression and no
correctness. Any other key is found again, so a code is never sent where the dictionary had the longer string
(`LzwGreedy.Greedy`).

**diff** (`Diff*`). Lines are hashed, sorted, put into classes; `DiffStone` computes a longest common subsequence by
k-candidates, proved against the textbook recurrence `DiffLcs.L`; `check` breaks matches of lines that only hash alike;
`output` reports hunks. `DiffRun.Diff`: applying the hunks to the first file gives the second one, for the ordinary
listing from the top down and for the editor script from the bottom up. The hunks touch the lines without a mate and no
others; unless different lines hash alike that is as few as any matching leaves (`DiffRun.Fewest`).

**egrep** (`Egrep*`). From a syntax tree to the selected lines: position sets, the automaton built state by state, the
cache of fewer than 128 states that is emptied in the middle of a line when it is full. `EgrepMatcher.Egrep`: in every
sequence of files a line is selected exactly when some part of it, with the marks for its ends, is a word of the
expression, whatever the files before it have left in the cache.

**fsck** (`Fsck*`, `FiniteSets`). `FsckBlocks` follows the claims on blocks through phases 1, 1b and 4; `FsckFree`
builds a free list and walks it; `FsckPool` is the pool of buffers behind the block map, the inode states and the
link counts, whose bits and bytes are in `FsckBytes` and `FsckCounts`. `FsckLimits` says by the claims alone when phase
1 has to stop.

**sort** (`Sort*`). The three-way quicksort, the row of sources kept in order by binary insertion, the merge of blocks
and of files, and the schedule of merges. `compare` is any total preorder; in the row it is positive when its first
argument is written first, as the source has it.

**dc** (`Dc*`). Numbers in base 100, lowest digit first, negative when the top digit is -1; sum, change of sign,
product, and the stack operations `+` and `-` and the six comparisons on decimal fractions.

**btoa and atob** (`Base85*`). Words in base 85 by signed 32-bit arithmetic, padding, three checksums, and back.

**ed** (`Ed*`). The line store in a paged file behind two buffers; patterns compiled into `expbuf` and matched by
backtracking; lines moved by three reversals, or copied through the line store first; marked lines deleted in one pass.

## What was found

- btoa and atob: the count of bytes is a signed 32-bit variable. A file comes back exactly when it is at most 2^31
  bytes long (`Base85Atob.RoundTrip`). At 2^31 bytes the count is negative, but so small that the first step down of
  the copying loop wraps it round to 2^31 - 1; any longer file loses its end.
- dc: `-` with one number on the stack says that the stack is empty and leaves the number with its sign changed
  (`DcStack.Calculator.Subt`).
- dc: `add` leaves -1 as the digits 99 and -1 (`DcNumber.MinusOne`), because its loop stops at the lowest digit, while
  `chsign` leaves it as -1 alone (`DcBlock.Chsign`). Every other number has the same form in both.
- ed: the count of a bracketed set is kept in a `char`. Where that is signed it is right exactly for sets of fewer than
  127 members (`EdCompile.CountKept`); `EdCompile.LongSet` shows a short pattern with more, for which `cclass` would
  start from a negative count.
- ed: `gdelete` looks at the place before the first line as well. `v/x/d` in an empty buffer marks it, and then the last
  line is left one before the beginning (`EdLines.NothingKept`).
- compress: with a limit of 9 bits the codes become 10 bits wide once the table is full, because the width is compared
  with the limit only after it has grown. The reader does the same, so nothing is lost.
- ed: `ichanged` is never set, so what `getblock` would do for a changed input buffer never happens.

## Model

| member | source | states |
|---|---|---|
| LzwDecompress.RoundTrip | v9/cmd/compress/compress.c:711-801 | Decompressing what compress wrote gives back the input: every input, maxbits 9 to 16, block mode on or off, and any choice of when the ratio has fallen. |
| LzwCompress.Compress | v9/cmd/compress/compress.c:711-801 | The file is the three-byte header and a stored code stream; read from the start, the codes stand for just the input. The parse is greedy: once a code and the byte after it have become an entry, that code is not sent with that byte after it until CLEAR; only code 0 before a byte 0 may be. |
| LzwCompress.Compressor.Encode | v9/cmd/compress/compress.c:746-801 | After the first byte each input byte extends the pending string or sends it off; at the end the stored codes stand for the whole input. |
| LzwCompress.Compressor.Next | v9/cmd/compress/compress.c:746-784 | One byte keeps the encoder one table entry ahead of a decoder that has read the codes so far; written codes and pending string together stand for the text read. If a slot has the positive key of pending code and byte nothing is sent; if none has the key the pending code is. |
| LzwCompress.Compressor.Miss | v9/cmd/compress/compress.c:772-784 | What is sent on a miss: the pending code, and CLEAR after it exactly when the table is full, block mode is on, the checkpoint is reached and the ratio has fallen. |
| LzwGreedy.SendMore | v9/cmd/compress/compress.c:762-777 | A code whose key with the next byte is not among the keys entered since CLEAR keeps the parse greedy. |
| LzwCompress.Compressor.ClBlock | v9/cmd/compress/compress.c:1348-1388 | CLEAR is sent if and only if the ratio has fallen. It leaves the text unchanged: encoder and decoder both start again from an empty table, at 9 bits. |
| LzwCompress.Compressor.Insert | v9/cmd/compress/compress.c:777-781 | The new entry is the pending string and the byte; the hash table stays sound, every positive key stays where a probe finds it, and the new key is found as well, although the slot may have held key 0. |
| LzwCompress.AheadHit | v9/cmd/compress/compress.c:762-767 | A hit keeps the encoder one entry ahead: its pending string has become one byte longer. |
| LzwCompress.AheadMiss | v9/cmd/compress/compress.c:770-784 | A miss keeps it one entry ahead: the pending code is legal for the decoder, who makes the same entry one code later. |
| LzwCompress.AheadClear | v9/cmd/compress/compress.c:1379-1382 | CLEAR is legal where it is sent, and the tables agree again after it. |
| LzwCodes.Pending | v9/cmd/compress/compress.c:1010-1050 | Whatever code the encoder sends is one the decoder can expand, also when it is the entry about to be made (KwKwK), and both expand it to the same string. |
| LzwCodes.StepSane | v9/cmd/compress/compress.c:1000-1051 | Every legal code, CLEAR and the dummy entry after it included, keeps the decoder's table well formed, and stands for a nonempty string. |
| LzwCodes.CodeFits | v9/cmd/compress/compress.c:851-906 | Every legal code fits the width in force where it stands. |
| LzwCodes.StepTape | v9/cmd/compress/compress.c:906-951 | Placing one more code keeps groups of eight codes within the buffer, and the next place lies beyond it. |
| LzwWriter.Writer.Output | v9/cmd/compress/compress.c:851-951 | Appends exactly one code to the stored stream, wherever it falls in its group and whether or not the width changes or the table was cleared. |
| LzwWriter.Writer.OutputEof | v9/cmd/compress/compress.c:952-960 | After the last bytes are written the file stores exactly the codes: none missing, no byte left over. |
| LzwWriter.Writer.PutBits | v9/cmd/compress/compress.c:883-904 | The bits of the code are at its offset, and every bit below is what it was. |
| LzwWriter.Writer.PutCode | v9/cmd/compress/compress.c:906-915 | Placing a code and writing a full group out changes nothing stored before. |
| LzwWriter.Writer.Widen | v9/cmd/compress/compress.c:921-951 | The width changes by the rule both sides share, and a group begun is written whole. |
| LzwReader.Reader.GetCode | v9/cmd/compress/compress.c:1068-1137 | Returns the next stored code, or -1 exactly at the end, across full groups, groups cut short by a width change, and the tail. |
| LzwReader.Reader.Refill | v9/cmd/compress/compress.c:1079-1102 | A group is loaded just when the next code lies in it, at the width the writer used there. |
| LzwReader.Reader.GetBits | v9/cmd/compress/compress.c:1103-1132 | The bits taken from one to three bytes spell the code at the offset. |
| LzwReader.Geometry | v9/cmd/compress/compress.c:1079-1102 | In a stored stream code k lies within the bytes of its group, and the file ends just after the last code. |
| LzwDecompress.Decompressor.DecodeAll | v9/cmd/compress/compress.c:977-1055 | Writes just what the stored codes stand for. |
| LzwDecompress.Decompressor.Decode | v9/cmd/compress/compress.c:1000-1051 | One code, or CLEAR and the code after it, extends the output by the string it stands for. |
| LzwDecompress.Decompressor.Expand | v9/cmd/compress/compress.c:1010-1037 | Following prefixes and emptying the stack writes the string of the code forwards; KwKwK included. |
| LzwDecompress.Decompressor.Unwind | v9/cmd/compress/compress.c:1025-1030 | The stack holds the string backwards and ends with its first byte, and never outgrows it. |
| LzwDecompress.Decompressor.Enter | v9/cmd/compress/compress.c:1042-1046 | Makes the entry the encoder made one code earlier. |
| LzwDecompress.Decompressor.AfterClear | v9/cmd/compress/compress.c:1002-1009 | After CLEAR the single bytes are known and the next code is read at 9 bits, or the stream ends. |
| LzwDecompress.Decompress | v9/cmd/compress/compress.c:977-1055 | Refuses a wrong magic number and more than 16 bits; otherwise gives what the codes stand for. |
| LzwHash.Dictionary.Lookup | v9/cmd/compress/compress.c:749-770 | A hit is the key sought; after a miss no slot has the key, unless it is 0, and the probe has ended in a slot that may be taken; it stays inside the table and ends. |
| LzwHash.Dictionary.Probe | v9/cmd/compress/compress.c:760-770 | The same from the second slot on. Fewer than 69000 slots are taken and the step is not zero, so the probe meets an end before it returns to a slot. |
| LzwHash.NotThere | v9/cmd/compress/compress.c:760-770 | When every positive key stands on its own path behind slots that do not stop a probe, a probe that stops without finding the key shows that it is nowhere. |
| LzwHash.FilledFindable | v9/cmd/compress/compress.c:772-781 | Filling the slot where a probe ended keeps every key on its path, because slots never become empty again before CLEAR. |
| LzwHash.Dictionary.ClHash | v9/cmd/compress/compress.c:1390-1440 | Exactly the 69001 slots are emptied, sixteen at a time and the rest one by one. |
| LzwHash.TableSizePrime | v9/cmd/compress/compress.c:745-772 | The table size has no divisor but 1 and itself, which is why every step visits all slots. |
| LzwHash.NewSlot | v9/cmd/compress/compress.c:767-772 | Each step of a probe reaches a slot not seen before. |
| DiffRun.Diff | v9/cmd/diff/diffreg.c:98-155 | Applying what is reported to the first file gives the second: the ordinary hunks at once, the editor script command by command in the order it is written. Reported are exactly the lines without a mate, in hunks that are not empty and of which no two could be one; if no two different lines hash alike, the lines removed and inserted are those of the two files less a longest common subsequence. |
| DiffRun.Fewest | v9/cmd/diff/diffreg.c:478-503 | With a longest matching the lines removed are |a| - LCS and those inserted |b| - LCS, which no matching undercuts. |
| DiffRun.Align | v9/cmd/diff/diffreg.c:122-149 | After check the matches are of equal lines, in order; if no two different lines hash alike they are a longest matching. |
| DiffMatch.MatchVector | v9/cmd/diff/diffreg.c:124-143 | J is a longest matching of the two hash sequences, pruned prefix and suffix included. |
| DiffMatch.LongestIsLongest | v9/cmd/diff/diffreg.c:269-308 | No common subsequence has more pairs than the recurrence says, which is what stone reaches. |
| DiffLcs.UpperBound | v9/cmd/diff/diffreg.c:269-308 | The recurrence bounds every common subsequence, as an independent definition of the result. |
| DiffLcs.Pruned | v9/cmd/diff/diffreg.c:224-239 | A common prefix and suffix belong to some longest common subsequence. |
| DiffMatch.Prune | v9/cmd/diff/diffreg.c:224-239 | The prefix and suffix cut off are common and do not overlap. |
| DiffMatch.Unravel | v9/cmd/diff/diffreg.c:342-352 | J holds the chain of candidates, shifted by the prefix, with the pruned lines matched, and 0 elsewhere. |
| DiffStone.Stone.Run | v9/cmd/diff/diffreg.c:269-308 | k is the length of a longest common subsequence, and entry k of klist starts a chain of that length. |
| DiffStone.Stone.Row | v9/cmd/diff/diffreg.c:280-306 | After line i, entry l of klist has the least line of the second file that ends a common subsequence of length l. |
| DiffStone.Stone.Mate | v9/cmd/diff/diffreg.c:287-305 | One matching line lowers at most one entry, or adds one at the end, as the row demands. |
| DiffStone.Stone.Search | v9/cmd/diff/diffreg.c:321-340 | Binary search finds the entry with this y, or the first one beyond it. |
| DiffStone.Levels | v9/cmd/diff/diffreg.c:288-299 | Entry oldl tells whether a match lengthens: this is why the scan of one line need not start again. |
| DiffStone.RowLower | v9/cmd/diff/diffreg.c:293-299 | A match that lengthens moves exactly one threshold. |
| DiffStone.RowFull | v9/cmd/diff/diffreg.c:300-304 | Once the row has grown no later match of the line matters, so stopping early is right. |
| DiffStone.CandAdded | v9/cmd/diff/diffreg.c:310-319 | Chains go strictly down in both files and their length is what the entry stands for. |
| DiffClasses.Equiv | v9/cmd/diff/diffreg.c:241-267 | Each line of the first file gets the place of its class in the second, or 0; the classes follow one another, their first members negated. |
| DiffClasses.Unsort | v9/cmd/diff/diffreg.c:454-466 | Each line's class is put at its place in the file. |
| DiffClasses.ClassMates | v9/cmd/diff/diffreg.c:241-267 | The class of a line lists exactly the lines that match it, in order. |
| DiffSort.Sort | v9/cmd/diff/diffreg.c:422-452 | Shellsort leaves an ordered rearrangement, by value and then by serial number. |
| DiffCheck.Check | v9/cmd/diff/diffreg.c:359-420 | A match survives exactly when the two lines are equal, and both offset tables hold where the lines end. |
| DiffCheck.CompareLines | v9/cmd/diff/diffreg.c:380-406 | Reading both lines to their ends finds out whether they are equal. |
| DiffOutput.OutputNormal | v9/cmd/diff/diffreg.c:478-503 | The hunks, applied together, turn the first file into the second; they remove exactly the lines that J leaves without a mate and insert exactly the lines that are no mates; between two hunks there is a pair of mates. |
| DiffOutput.OutputEdit | v9/cmd/diff/diffreg.c:478-503 | The commands come from the bottom up, so running them one after the other gives the second file; they too touch exactly the lines without a mate, with a pair of mates between any two. |
| DiffOutput.Report | v9/cmd/diff/diffreg.c:487-492 | One hunk: J was 0 on all its lines i0 to i1, and the next line, if there is one, is the mate of the line after the gap in the second file. |
| DiffHunks.ToldHunk | v9/cmd/diff/diffreg.c:487-492 | A hunk over lines without mates adds just these to what has been told, on both sides. |
| DiffHunks.MateTold | v9/cmd/diff/diffreg.c:494-495 | Seen from the bottom: a pair of mates that no hunk touches leaves what is told exact. |
| EgrepMatcher.Egrep | v9/cmd/egrep/main.c:123-134 | From the tree through every sequence of files, with clearg before a file when the cache was dropped in the one before: selected are exactly those lines of which some part, with the marks for their ends, is a word of the expression, or with -v the others. It gives up only when the blocks in the array, all for sets met in these files, and one more that is called for do not fit into MAXPOS cells; with few enough nodes it never does. |
| EgrepMatcher.Matcher.Execute | v9/cmd/egrep/egrep.c:202-283 | The same over all lines of one file, from whatever state the files before have left; it leaves one from which the next file can start. When it fails the account of the array shows that there was no room. |
| EgrepMatcher.Matcher.Scan | v9/cmd/egrep/egrep.c:229-276 | Running the automaton over one line finds an end of a match exactly when the line contains one, through any number of overflows. |
| EgrepMatcher.Matcher.NxtSt | v9/cmd/egrep/egrep.c:25-78 | The state returned stands for the set that the uncached transition computes; only an overflow forgets states; it fails only for lack of room. |
| EgrepMatcher.Matcher.Advance | v9/cmd/egrep/egrep.c:232-235 | A cached transition leads to the same set as an uncached one. |
| EgrepMatcher.Matcher.Gather | v9/cmd/egrep/egrep.c:32-63 | tmpstat holds the fresh start and what may follow each position that takes the character. |
| EgrepMatcher.Matcher.Overflow | v9/cmd/egrep/egrep.c:65-71 | The cache starts again with the present set as state 1, and what it holds is still right. |
| EgrepMatcher.Matcher.Clearg | v9/cmd/egrep/egrep.c:191-200 | After it state 1 is the beginning again and istat the state after LEFT. |
| EgrepMatcher.Matcher.Cgotofn | v9/cmd/egrep/egrep.c:4-22 | State 1 stands for where a match may begin, without the leading DOT. |
| EgrepMatcher.Matcher.First | v9/cmd/egrep/egrep.c:80-103 | Marks just the positions a word may begin with; zero exactly when the node can match the empty word. |
| EgrepMatcher.Matcher.Follow | v9/cmd/egrep/egrep.c:161-189 | Marks just the positions that may come next. |
| EgrepMatcher.Matcher.NotIn | v9/cmd/egrep/egrep.c:114-127 | Finds a state with the same set exactly when there is one. |
| EgrepMatcher.Matcher.AddState | v9/cmd/egrep/egrep.c:129-146 | Writes the block of the set and clears its transitions; refuses exactly when the two ends of the array meet. |
| EgrepMatcher.Matcher.AddFoll | v9/cmd/egrep/egrep.c:148-159 | The same from the other end for a follow set. |
| EgrepMatcher.Matcher.Member | v9/cmd/egrep/egrep.c:105-112 | Membership in a class, or its negation. |
| EgrepPositions.FirstMeans | v9/cmd/egrep/egrep.c:80-103 | Read from First of a node, the automaton reads just the nonempty words of the node followed by what may come after it. |
| EgrepPositions.NullableMeans | v9/cmd/egrep/egrep.c:80-103 | first returns zero exactly when the empty word belongs to the node. |
| EgrepPositions.BeginMeans | v9/cmd/egrep/egrep.c:11-18 | Read from the beginning, it reads the words of the user's expression and no others. |
| EgrepPositions.StepMeans | v9/cmd/egrep/egrep.c:32-63 | A step reads one character from the set or starts afresh. |
| EgrepPositions.ReachMeans | v9/cmd/egrep/egrep.c:24-78 | The set after a text is what can be reached from any starting point in it. |
| EgrepPositions.ReachLast | v9/cmd/egrep/egrep.c:142-145 | The last position is in it exactly when a word of the expression ends here. |
| EgrepPositions.HitMeans | v9/cmd/egrep/egrep.c:229-276 | Some prefix of the line hits the last position exactly when the line contains a word. |
| EgrepTables.ArcPut | v9/cmd/egrep/egrep.c:73-76 | Remembering a transition keeps every cached transition right. |
| EgrepTables.StateAdded | v9/cmd/egrep/egrep.c:129-146 | Adding a state keeps the blocks of all states, the follow sets and the transitions as they should be. |
| EgrepTables.FollAdded | v9/cmd/egrep/egrep.c:148-159 | Adding a follow block disturbs no state. |
| EgrepRoom.StateWritten | v9/cmd/egrep/egrep.c:129-146 | addstate fails exactly when the blocks of states, those of follow sets and the new one do not leave a cell. |
| EgrepRoom.FollWritten | v9/cmd/egrep/egrep.c:148-159 | addfoll fails exactly when they do not, and the account of the array stays exact. |
| EgrepRoom.ListedMore | v9/cmd/egrep/egrep.c:64-74 | A state that was not found adds a block for a set that no state in use has. |
| EgrepRoom.ListedOver | v9/cmd/egrep/egrep.c:65-70 | An overflow leaves the block of the beginning and that of the present set. |
| EgrepRoom.ListedClear | v9/cmd/egrep/egrep.c:191-200 | A fresh start drops the states and leaves their blocks in the array. |
| EgrepRoom.NotSmall | v9/cmd/egrep/egrep.c:129-151 | With line * (line + 256) below the array size no run can fill it. |
| FsckBlocks.Fsck.Check | v9/cmd/fsck.c:437-605 | It stops if and only if a visit goes beyond a limit: a tenth bad block or a tenth duplicate in one inode, or a duplicate when the claims beyond the first ones are as many as the table holds. Otherwise: marked are exactly the inodes with a bad or shared block, all others have their kind recorded; the map and the table of duplicates account for every claim; files and blocks are counted right; if every marked inode is cleared, no claim is left twice and the map is exactly the blocks in use. |
| FsckBlocks.Fsck.Phase1 | v9/cmd/fsck.c:440-492 | After the first pass claims(b) is the map bit of b and its occurrences in the table, for every block; it stops if and only if the claims of some inode go beyond a limit. |
| FsckBlocks.Fsck.Phase1b | v9/cmd/fsck.c:495-505 | After the second pass exactly the guilty inodes are marked, those that claimed a shared block first included. |
| FsckBlocks.Fsck.Phase4 | v9/cmd/fsck.c:585-605 | Clears exactly the marked, orphaned or unlinked inodes for which the answer is yes, and gives their blocks back. |
| FsckBlocks.Fsck.DoPass1 | v9/cmd/fsck.c:816-862 | One visit adds one claim, a bit or an entry in the table; it stops exactly when the block is one too many for the limits, told by the claims alone. |
| FsckLimits.ExtraEntries | v9/cmd/fsck.c:830-854 | The table has as many entries as there are claims beyond the first one of each block. |
| FsckLimits.WithinMore | v9/cmd/fsck.c:816-846 | A block within the limits keeps the visit within them, one beyond does not. |
| FsckLimits.FilesZap | v9/cmd/fsck.c:1117 | Clearing a counted inode leaves one file less. |
| FsckBlocks.Fsck.AddDup | v9/cmd/fsck.c:845-854 | A block already among the first entries goes to the end; a new one is put in front of the others. |
| FsckBlocks.Fsck.DoPass1b | v9/cmd/fsck.c:865-881 | A block found is struck off and its inode marked; the pass stops exactly when none is left. |
| FsckBlocks.Fsck.DoPass4 | v9/cmd/fsck.c:932-949 | One visit takes one claim away: an entry of the table if there is one, the bit otherwise. |
| FsckBlocks.Fsck.Iblock | v9/cmd/fsck.c:779-813 | An indirect block is visited in the order of its entries, to any depth. |
| FsckBlocks.Fsck.CkInode | v9/cmd/fsck.c:753-776 | Ten direct addresses and then one, two and three levels of indirection, in this order. |
| FsckBlocks.Fsck.Clri | v9/cmd/fsck.c:1103-1123 | Clearing gives back the claims of this inode and no other. |
| FsckBlocks.NoSharing | v9/cmd/fsck.c:585-605 | If every marked inode is gone, the table of duplicates is empty and the claims are the map. |
| FsckBlocks.EmptyTable | v9/cmd/fsck.c:495-505 | The table is empty if and only if no block is claimed twice. |
| FsckBlocks.Unshared | v9/cmd/fsck.c:585-605 | With an empty table no two inodes share a block, none has one twice, and the map shows just the blocks in use. |
| FsckDups.Counts | v9/cmd/fsck.c:816-862 | claims(b) is one for the bit and one for each entry; b is in the table exactly when it is claimed twice. |
| FsckDups.NewDup | v9/cmd/fsck.c:851-854 | Moving an entry to the end to make room in front loses none. |
| FsckDups.Found | v9/cmd/fsck.c:872-878 | Swapping a found block behind the others keeps the rest pending. |
| FsckDups.DropDup | v9/cmd/fsck.c:940-944 | The last entry takes the place of the one dropped. |
| FsckOwners.PendingOwner | v9/cmd/fsck.c:865-881 | A shared block met for the first time in phase 1b is met in the inode that claimed it first. |
| FsckOwners.Marked1b | v9/cmd/fsck.c:495-505 | When nothing is pending every inode that claims a shared block is marked. |
| FsckVolume.TotalZap | v9/cmd/fsck.c:1103-1123 | Clearing an inode takes away its claims and no others. |
| FsckVolume.TwoClaims | v9/cmd/fsck.c:816-862 | Two inodes with a common block are two claims. |
| FsckFree.FreeList.SalvageThenCheck | v9/cmd/fsck.c:1626-1729 | A fresh check of a salvaged list finds nothing amiss, sees every free block once and no other, and counts as many as were put there. |
| FsckFree.FreeList.Makefree | v9/cmd/fsck.c:1666-1729 | The list built holds exactly the blocks whose bit is clear, each once, chained through full list blocks, higher cylinders before lower ones and each cylinder in the order of addr. |
| FsckFree.OrderNext | v9/cmd/fsck.c:1710-1724 | The next block of a cylinder comes after all blocks taken so far. |
| FsckFree.FreeList.FillCylinder | v9/cmd/fsck.c:1710-1724 | One cylinder adds just its free blocks. |
| FsckFree.FreeList.Push | v9/cmd/fsck.c:1714-1722 | One block goes on the list; a full list block is first written to it. |
| FsckFree.Interleave | v9/cmd/fsck.c:1698-1706 | addr is a permutation of 1 to cyl, in which each entry is the first place left at or after the one step beyond the entry before, going round. |
| FsckFree.FreeList.Freechk | v9/cmd/fsck.c:1626-1663 | On a good list the walk visits its blocks once each, from the last one put there, and ends at the zero link; on any list it ends, and each block visited was counted as free, as out of range or as seen before. |
| FsckFree.FreeList.Pass5 | v9/cmd/fsck.c:952-981 | A block is counted exactly when it is in range and not yet seen; otherwise the list is to be salvaged. |
| FsckFree.NothingMissing | v9/cmd/fsck.c:1626-1663 | A check that found nothing amiss and counted as many blocks as are free saw all of them. |
| FsckFree.ChainSpill | v9/cmd/fsck.c:1715-1722 | Writing a full list to the next block keeps the chain. |
| FsckPool.Pool.Search | v9/cmd/fsck.c:1742-1757 | The list is rearranged only: the buffer of the block, or the least recently used one, comes to the front. |
| FsckPool.Pool.GetBlk | v9/cmd/fsck.c:1513-1534 | Afterwards the first buffer holds the block as last written, whatever was in the pool. |
| FsckPool.Pool.DoMap | v9/cmd/fsck.c:1439-1479 | Setting, testing and clearing a bit act on one flat array: the test gives what was last set. |
| FsckPool.Pool.DoState | v9/cmd/fsck.c:1408-1436 | The same for the two-bit states of inodes. |
| FsckPool.Pool.DoLncnt | v9/cmd/fsck.c:1482-1509 | The same for the 16-bit link counts, which wrap. |
| FsckPool.Refill | v9/cmd/fsck.c:1513-1534 | Writing the last buffer back and reading another block into it changes nothing that can be seen, and no block is in two buffers. |
| FsckPool.BitAfter | v9/cmd/fsck.c:1439-1479 | Changing one bit changes that block's bit and no other. |
| FsckPool.StateAfter | v9/cmd/fsck.c:1408-1436 | Changing one state changes no other. |
| FsckPool.LinkAfter | v9/cmd/fsck.c:1482-1509 | Changing one count changes no other. |
| FsckPool.BitApart | v9/cmd/fsck.c:1408-1509 | The map is apart from states and counts. |
| FsckPool.StateApart | v9/cmd/fsck.c:1408-1509 | So are the states. |
| FsckPool.LinkApart | v9/cmd/fsck.c:1408-1509 | So are the counts. |
| SortQuick.Qsort | v9/cmd/sort.c:1119-1259 | Leaves an ordered rearrangement for every total preorder, touches nothing outside, and nests calls at most log2 n deep. |
| SortQuick.Partition | v9/cmd/sort.c:1204-1258 | Keeps everything before lp below the pivot, lp to hp equal to it and the rest above, and ends: the unknown part shrinks. |
| SortQuick.RightSide | v9/cmd/sort.c:1217-1239 | The right side is taken in until it is used up or two elements changed sides. |
| SortQuick.Setup | v9/cmd/sort.c:1144-1201 | All nine arrangements of first, middle and last leave the middle value as pivot with the parts around it right. |
| SortQuick.Round | v9/cmd/sort.c:1241-1252 | The smaller part is sorted by a call, the larger one is left for the loop. |
| SortQuick.ShiftRight | v9/cmd/sort.c:1225-1229 | The rotation to the right keeps the three parts. |
| SortQuick.ShiftLeft | v9/cmd/sort.c:1255-1257 | So does the one to the left. |
| SortQuick.CrossOver | v9/cmd/sort.c:1231-1234 | An exchange across the middle puts both elements on their sides. |
| SortTree.Row.Insert | v9/cmd/sort.c:536-566 | The row is in order again, whether or not the shortcut for input in order was taken. |
| SortTree.Row.Find | v9/cmd/sort.c:551-556 | Binary search ends at the place, also when it meets an equal record. |
| SortTree.Row.Shift | v9/cmd/sort.c:557-564 | The nodes before the place move down by one and the first goes behind them. |
| SortMerge.Merge | v9/cmd/sort.c:569-636 | Merging runs in order gives all their records in order. |
| SortMerge.Msort | v9/cmd/sort.c:471-529 | The records written are those of the array, in order. |
| SortMerge.Blocks | v9/cmd/sort.c:478-493 | The array is cut into nonempty blocks that cover it, each sorted. |
| SortMerge.BuildBlocks | v9/cmd/sort.c:495-499 | The last record of each block is in the row, and the row is in order. |
| SortMerge.Refill | v9/cmd/sort.c:512-526 | The next record of the source takes the place of the one written. |
| SortFlow.WriteNext | v9/cmd/sort.c:509-522 | Writing the first record and fetching the next one of its source loses nothing and keeps the output in order. |
| SortFlow.FlowDone | v9/cmd/sort.c:609-627 | When the row is empty everything was written, in order. |
| SortSchedule.MergeAll | v9/cmd/sort.c:348-372 | Every run is merged exactly once, at most nway at a time; the result has all records in order; if there were more than nway, every merge but the first takes exactly nway runs. |
| SortSchedule.Leftover | v9/cmd/sort.c:350-359 | The first merge takes so many that all later ones can take nway. |
| SortSchedule.EvenLast | v9/cmd/sort.c:360-372 | From there on the last merge cannot take fewer. |
| DcBlock.Add | v9/cmd/dc/dc.c:1459-1504 | The exact sum; digits stay within 0 to 99 but for a top -1; there is no zero at the top, and no 99 below a top -1 unless the sum is -1. |
| DcBlock.AddColumns | v9/cmd/dc/dc.c:1472-1486 | Digits and carry stand for the sum of the columns. |
| DcBlock.StripZeros | v9/cmd/dc/dc.c:1488-1493 | Zeros at the top go, the value stays. |
| DcBlock.FoldNines | v9/cmd/dc/dc.c:1494-1502 | A row of 99s below a top -1 goes, the value stays. |
| DcBlock.Chsign | v9/cmd/dc/dc.c:1120-1153 | The exact negative, without zeros at the top or 99s below a top -1 if the number had none. |
| DcBlock.Mult | v9/cmd/dc/dc.c:1065-1119 | The exact product, signs included; the running term never passes 9999; no zeros at the top if the factors have none. |
| DcBlock.MultRow | v9/cmd/dc/dc.c:1095-1111 | One digit times one factor is added at its place. |
| DcBlock.Term | v9/cmd/dc/dc.c:1101-1105 | The running term of a column stays within 9999, and its digit and carry within 99. |
| DcBlock.Add0 | v9/cmd/dc/dc.c:1040-1063 | Zeros below: exactly times a power of ten, odd ones through a product with ten. |
| DcStack.Calculator.Eqk | v9/cmd/dc/dc.c:1505-1533 | Two numbers brought to the larger of their scales, their amounts unchanged; nothing popped if there are not two. |
| DcStack.Calculator.Plus | v9/cmd/dc/dc.c:1186-1207 | The amount is the exact sum, at the larger scale, in the one form that add gives it; zero is the empty number. |
| DcStack.Calculator.Subt | v9/cmd/dc/dc.c:1583-1593 | The amount is the exact difference, at the larger scale, in the one form that add gives it; a single number stays, with its sign changed. |
| DcStack.Calculator.Cond | v9/cmd/dc/dc.c:1623-1664 | Each of the six conditions runs the register if and only if the top number has that relation to the one below it. |
| DcStack.SignOfAmount | v9/cmd/dc/dc.c:1629-1658 | A difference is zero exactly when it has no digits, and negative exactly when its top digit is. |
| DcNumber.NormalOnce | v9/cmd/dc/dc.c:1488-1502 | Two numbers in the form that add leaves are the same if their values are. |
| DcNumber.MinusOne | v9/cmd/dc/dc.c:1494-1502 | In that form there is a 99 right below a top -1 if and only if the number is -1. |
| DcNumber.Sign | v9/cmd/dc/dc.c:1120-1153 | A number is negative exactly when its top digit is -1. |
| DcNumber.DropNines | v9/cmd/dc/dc.c:1494-1502 | Taking 99s out below a top -1 keeps the value. |
| Base85Atob.RoundTrip | v9/cmd/compress/atob.c:82-134 | atob gives back what btoa was given if and only if it is at most 2^31 bytes long; of a longer file the result is shorter. |
| Base85.Main85 | v9/cmd/compress/btoa.c:94-116 | The text, without line breaks, encodes the bytes padded to whole words, and each line but the last has 78 characters; the last line has the count, wrapped, and of the padded bytes the parity of each bit, the sum with their number, and the rolling sum, signed. |
| Base85Sums.ChecksumsMore | v9/cmd/compress/btoa.c:36-45 | One byte more: parities, sum and rolling sum are those of the longer sequence. |
| Base85Sums.ChecksumsOnce | v9/cmd/compress/atob.c:122-125 | The bytes determine the three numbers, so comparing them is the test. |
| Base85Sums.TurnedBits | v9/cmd/compress/btoa.c:39-44 | The conditional shift turns the unsigned word by one bit: bit k goes to k + 1 and bit 31 to 0. |
| Base85Atob.MainAtob | v9/cmd/compress/atob.c:111-134 | Accepts exactly the texts that decode to bytes with the checksums of the last line and with the count given twice alike, and gives the first n of these bytes. |
| Base85Atob.Take | v9/cmd/compress/atob.c:30-64 | One character leaves the decoding of the whole text what it was, or the text has none. |
| Base85Atob.CopyOut | v9/cmd/compress/atob.c:129-131 | The counter wraps: the least number copies 2^31 bytes, any other not above zero none. |
| Base85Atob.WordsEncoded | v9/cmd/compress/atob.c:30-64 | The code that btoa writes for whole words decodes to these words. |
| Base85Atob.BodyStripped | v9/cmd/compress/atob.c:111-119 | Skipping line breaks and stopping at the x leaves just the code that was written. |
| Base85Atob.CopiedBack | v9/cmd/compress/atob.c:128-131 | The wrapped count copies the padded bytes back to the original if and only if it had at most 2^31 bytes. |
| Base85.Btoa.Encode | v9/cmd/compress/btoa.c:33-55 | One more byte: checksums, word and text are those of the bytes so far. |
| Base85.Btoa.WordOut | v9/cmd/compress/btoa.c:57-83 | z for a zero word, five characters for any other. |
| Base85.Expand | v9/cmd/compress/btoa.c:63-81 | Signed division after the two conditional subtractions gives the base 85 digits of the unsigned word, each below 85. |
| Base85.Btoa.CharOut | v9/cmd/compress/btoa.c:85-92 | A line break comes after every 78 characters and nowhere else, and nothing else is added. |
| Base85Atob.Atob.Decode | v9/cmd/compress/atob.c:30-64 | The digits are taken in by shifts and sums that wrap; every fifth writes four bytes; a z between digits and any other character are refused. |
| Base85Code.LeadingAll | v9/cmd/compress/btoa.c:57-83 | The five digits determine the word. |
| Base85.TopDigit | v9/cmd/compress/btoa.c:65-73 | After the subtractions the word is not negative and the top digit is off by 32 or 64. |
| Base85Atob.WordSoFar | v9/cmd/compress/atob.c:43-55 | Multiplying by 85 in wrapping arithmetic rebuilds the word digit by digit. |
| Base85Atob.SplitWord | v9/cmd/compress/atob.c:52-60 | Shifting a signed word down gives the four bytes it was made of. |
| EdSession.Session | v9/cmd/ed.c:913-1002 | Over any run of storing and reading from an empty store, each read gives the line that was stored, marked or not; a line is refused exactly when its end, behind the lines accepted so far, would lie beyond block 2046. |
| EdStore.Store.PutLine | v9/cmd/ed.c:930-956 | The line is stored where no other is, all others stay; it fails exactly when its end would lie beyond the file; the next line starts behind it; after a newline linebp tells where the rest begins. |
| EdStore.Store.GetLine | v9/cmd/ed.c:913-928 | The line stored when putline returned this pointer, whether or not its mark bit is set. |
| EdStore.Store.GetBlock | v9/cmd/ed.c:959-992 | The block asked for is in one buffer; the two never hold the same block and none is lost. |
| EdStore.NewLine | v9/cmd/ed.c:942-955 | The new line overlaps none before it. |
| EdStore.Enough | v9/cmd/ed.c:953-954 | The next line starts at a multiple of four bytes, fewer than four after the end of this one. |
| EdStore.Marked | v9/cmd/ed.c:967-968 | The mark bit does not take part in the address. |
| EdRegex.Search | v9/cmd/ed.c:1303-1593 | Compiling and searching succeeds exactly when the pattern, read from its text, matches a part of the line, or a beginning of it after ^; the match found is the leftmost and greediest. |
| EdRegex.Regex.Compile | v9/cmd/ed.c:1303-1438 | Succeeds exactly for a well-formed pattern whose code is shorter than 256; expbuf then holds its code. An empty pattern keeps the old one; an error forgets it. |
| EdRegex.Regex.Set | v9/cmd/ed.c:1395-1426 | A bracketed set is written with its kind, its count as a char keeps it, and its members; fails when it is not closed or too long. |
| EdRegex.Regex.Fill | v9/cmd/ed.c:1403-1424 | The members are those the text lists, ranges spelled out; a hyphen before the end and a bracket at the beginning stand for themselves. |
| EdRegex.Regex.Range | v9/cmd/ed.c:1412-1418 | A range adds the characters after its first up to its last. |
| EdRegex.Regex.Execute | v9/cmd/ed.c:1440-1486 | Finds the leftmost match, by the fast loop for a first character as by the ordinary one; under ^ only at the beginning. |
| EdRegex.Regex.Advance | v9/cmd/ed.c:1488-1593 | Ends, and succeeds exactly when the items match a beginning of what is left; loc2 is where the greediest such match ends. |
| EdRegex.Regex.Star | v9/cmd/ed.c:1580-1588 | Trying from the longest run down to none misses no match. |
| EdRegex.Regex.Span | v9/cmd/ed.c:1559-1578 | The longest run of characters an item accepts, never past the end of the line. |
| EdRegex.Regex.Single | v9/cmd/ed.c:1496-1527 | One item without a star. |
| EdRegex.Regex.Cclass | v9/cmd/ed.c:1608-1621 | Membership in the set, or in its complement; never for the end of the line. |
| EdPattern.GreediestMatches | v9/cmd/ed.c:1488-1593 | The greediest match is a match. |
| EdPattern.GreediestUnique | v9/cmd/ed.c:1488-1593 | There is only one. |
| EdMatch.CodeAt | v9/cmd/ed.c:1488-1527 | Every item of the pattern is found in the code where the one before it ends. |
| EdMatch.ParseProper | v9/cmd/ed.c:1303-1438 | A $ that stands for the end never gets a star, and no item is a NUL: advance cannot run past the end of the line. |
| EdMatch.StarMiss | v9/cmd/ed.c:1580-1588 | If no run leads on, the starred item and the rest do not match at all. |
| EdMatch.FirstCharacter | v9/cmd/ed.c:1465-1477 | Where the first character differs there is no match. |
| EdCode.CodeStarred | v9/cmd/ed.c:1383-1387 | Setting the lowest bit at lastep turns the code of the items into that with a star on the last one. |
| EdCode.ParseGrows | v9/cmd/ed.c:1331-1333 | Code only grows, so giving up when it has reached the limit is giving up on patterns that do not fit. |
| EdCompile.CountKept | v9/cmd/ed.c:1425 | The count of a set survives in a signed char if and only if the set has fewer than 127 members. |
| EdCompile.LongSet | v9/cmd/ed.c:1395-1425 | A pattern that compiles and whose count cell is negative. |
| EdLines.Lines.Move | v9/cmd/ed.c:1239-1279 | The lines are taken out and put after the target, without their marks; refused exactly when the target is one of them. |
| EdCopy.Copy | v9/cmd/ed.c:1239-1279 | The command t: copies of the lines, stored anew under pointers that were none before, stand behind the target and nothing else has changed; it succeeds exactly when the file has room for all of them, and otherwise the copies that fitted are the last lines. |
| EdCopy.Append | v9/cmd/ed.c:763-792 | append(getcopy): one line after the other is read, stored again and put behind the last; it stops at the first that does not fit. |
| EdCopy.CopiesIn | v9/cmd/ed.c:1295-1301 | With the new pointers in their midst the pointers stand for the old text with a copy of the lines in its midst. |
| EdLines.Lines.Insert | v9/cmd/ed.c:773-790 | The new pointer stands behind the current line, all others keep their order; the array grows when it is full. |
| EdLines.Lines.Reverse | v9/cmd/ed.c:1281-1293 | The part is turned around in place and the rest is untouched. |
| EdLines.Lines.Gdelete | v9/cmd/ed.c:891-910 | What is left is exactly the unmarked lines in order, and the current line is behind the last deletion, within the buffer. |
| EdLines.Exchange | v9/cmd/ed.c:1267-1276 | Three reversals exchange two neighbouring blocks. |
| EdLines.MovedKeeps | v9/cmd/ed.c:1239-1279 | Moving loses no line and doubles none. |
| EdLines.KeptUnmarked | v9/cmd/ed.c:891-910 | No marked line is left. |
| EdLines.SeveralDeleted | v9/cmd/ed.c:899-905 | Of several deletions the last one decides where the current line is. |
| EdLines.OneDeleted | v9/cmd/ed.c:895-905 | A single deletion does not move it, except back into the buffer. |
| EdLines.NothingKept | v9/cmd/ed.c:891-910 | The last line is left before the beginning exactly when place 0 and all lines were marked. |

## Left out

- LzwCompress.Compress: the table has the full 69001 slots; the tuning for small files, which can start a probe outside the table, is not modelled.
- LzwDecompress.Decompress: the body must be a stored code stream; what the program does with any other is not modelled, and it does not check it.
- LzwReader.Reader.GetBits: where a code ends with a byte the program reads the byte after it under a mask of no bits; here it is not read.
- compress: a second file in one run (static offsets), the VAX instructions, debugging output, the 16-bit XENIX tables, copying of file status, and the ratio itself, whose fall is a free choice.
- DiffRun.Diff: readhash is any function that is never 0; -b, context, #ifdef listings and the text of the output are not modelled, nor the editor's trouble with a line that is a single period.
- DiffCheck.Check: without -b, under which blanks are skipped.
- DiffCheck.CompareLines: without -b, under which blanks are skipped.
- DiffSort.Sort: called for at least one line only; the gap is not set for none.
- diff: the arrays class, member and file share memory in the program; here they are separate.
- EgrepMatcher.Matcher.Execute: characters are 0 to 126, and newline stands only at the end of a line.
- egrep: the grammar that builds the tree, counts, line numbers and the other output options, and the search for fixed strings.
- FsckBlocks.Fsck.Check: phases 2 and 3 are not modelled; the states they leave are given, as are the answers and the inodes found without links. The inode table can be read, indirect blocks do not change, partly allocated inodes and unknown modes are not cleared. A run that meets a limit gives up instead of asking whether to go on.
- FsckBlocks.Fsck.Phase1: gives up at a limit, as Check does.
- FsckFree.FreeList.Freechk: the list blocks hold 178 entries; the bitmap file system and errors on the device are not modelled.
- FsckPool.Pool.DoLncnt: the low byte of a count comes first; maps that are kept whole in memory, and errors on the scratch file, are not modelled.
- SortQuick.Qsort: without -u, which marks equal records.
- SortMerge.Merge: records are values; reading and cutting of long lines, temporary files, -u, and the keys behind compare are not modelled.
- SortMerge.Msort: without -u, under which equal records are dropped.
- SortSchedule.MergeAll: without the unsafe output file.
- DcStack.Calculator.Plus: scales are at most 127, as a byte holds them.
- DcStack.Calculator.Cond: says whether the register is run; running it is not modelled.
- dc: division, square root, exponentiation, input and output of numbers, the cut of `*` to the scale, and the allocator.
- Base85Atob.MainAtob: the last line is a record of numbers; the search for the first line is not modelled.
- EdStore.Store.PutLine: block input and output do not fail.
- EdRegex.Regex.Compile: the pattern has no \( \) and no back-references; the rest of the input is given, typed as seven-bit characters other than NUL, with no end of input taken for the delimiter.
- EdRegex.Regex.Execute: a first search in a line, not the repeated one from loc2, whose limit locs is left out. Each set has fewer than 127 members.
- EdRegex.Search: as Compile and Execute, one first search with a pattern that they take.
- EdRegex.Regex.Advance: items whose sets have fewer than 127 members; so Star, Span, Single and Cclass below it.
- EdCopy.Copy: the lines to be copied are given by number. When the array of pointers moves while lines are added, the program does not adjust addr1, and reads the pointers from where the array was.
- The arrays of egrep, of fsck, the row of sources in sort, the digits of dc and the buffers of ed's line store are fields that hold sequences; sharing of memory between them is not modelled.
- ed: the command loop, addresses, substitution, files and encryption.
- fgrep, grep, mkfs and the remaining commands.
