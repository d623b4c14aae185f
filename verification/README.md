# Verification of rvsim

rvsim is a RISC-V system simulator with the guest C code it runs. This project models the parts of it
whose correctness is not visible in any one function, and proves what they are for. Every statement is
for all inputs, all runs or all reachable states.

- **Out-of-order rename recovery** (`RobTags`, `RenameModel`, `Checkpoints`, `Robs`, `O3Rename`). A small
  machine that always walks the reorder buffer is the reference. The engine with its ring-buffer ROB,
  wrapping tags, free list and snapshot table is shown to end where that machine ends in every run, so
  the constant-time restore equals the walk.
- **Flattened device tree** (`FdtFormat`, `FdtBuilder`, `DtbBoard`, `DtbReader`, `DtbGenerator`). A parser for chapter 5 of the
  Devicetree Specification (v0.4) is written from the format alone, the order of section 5.4.2 included; exactly which
  trees it reads back from the builder is proved, and the generated board is one of them. What an operating system reads
  in the parsed tree (addresses, interrupts, phandles, console) is what the configuration says.
- **Maze** (`MazeGrid`, `MazeSolver`, `MazeGenerator`). The carving loop yields a spanning tree for every
  random sequence; the reopening A* terminates, is optimal, and marks the path; the two compose.
- **Chess** (`ChessRules`, `ChessSearch`, `ChessMirror`). Generated moves are characterised by rows and columns, and turning
  the board round with the colours negates every value;
  alpha-beta with make and unmake on one board is proved against plain minimax with a fail-soft contract
  that needs no bound on the evaluation.
- **Allocator** (`HeapModel`, `Allocator`, `HeapClient`). `malloc` and `free` over header words in memory,
  a model of blocks that tile the heap, and whole runs of a client program that also writes.
- **LZ77** (`Lz77`). The greedy compressor against a byte-by-byte decoder, and against any decoder.
- **CSRs and interrupts** (`HartSpec`, `HartEffects`, `HartWrites`, `HartProps`, `CpuCsr`). An architectural state in which `sstatus`,
  `sie` and `sip` are views, following sections 3.1.6 to 3.1.9, 4.1.1, 4.1.3 and 4.1.11 of the RISC-V
  Privileged Architecture (v1.12); the simulator's state with its second copy of `sstatus` follows it. Writes
  to `mip` and `stimecmp` are the simulator's own, and lemmas say exactly where they meet the architecture and Sstc.
- **Bus** (`BusModel`, `SystemBus`). The lookup with hints against one without, after every history of accesses.
- **Caches** (`CacheModel`, `HierarchyModel`, `Caches`). Set-associative caches as sets of lines, four levels as one value,
  what an access costs, and exactly when an access, and a run of accesses, keeps the first level inside the second.
- **Immediates** (`Immediates`). Decoders and the encoders of section 2.3 of the Unprivileged ISA undo each other.

The classes keep the source's fields and change them in place; each method is tied to a function on
values, and the theorems are about those functions and the runs built from them.

## Where the code does not meet what one would expect

Each item names the lemma that gives the exact condition, or a concrete input that fails.

- The ROB-walk rebuild and the dispatch update disagree on an instruction with both write flags set
  (`RenameModel.SitesAgree`); the decoder produces none, and runs are stated for instructions with one flag at most.
- Tags more than 2^31 - 2 allocations apart can compare wrongly (`RobTags.OrderIsExact`, `RobTags.WindowIsTight`).
- A checkpoint identifier keeps 8 bits of its slot (`Checkpoints.AllocateThenFree`).
- Physical register numbers keep 16 bits: with more than 65536 registers, register 0 is in the free list at reset
  (`RenameModel.SoundIffNumbered`).
- The builder takes a property after a subnode, which section 5.4.2 of the Devicetree Specification forbids; the blob is
  then refused (`FdtFormat.RoundTrip`, `FdtBuilder.ChildThenProperty`). `generate_dtb` never does this.
- The compressor loses inputs with a byte of 0x80 or more (`Lz77.RoundTrip`), and no other decoder could do without a
  loss: different inputs give equal outputs (`Lz77.OutputsCollide`, `Lz77.NoDecoder`).
- The value of a chess position is the negated value of the mirrored one, except when the search goes on with both kings
  gone: both then lose 20000 (`ChessMirror.MirrorNegates`).
- `malloc` grants requests whose 64-bit sums wrap (`HeapModel.ServedIffSafe`, `HeapModel.HugeRequestSucceeds`).
- `check_interrupts` serves a delegated interrupt before an undelegated one that comes later in its fixed
  order, though section 3.1.9 puts the higher mode first (`HartProps.OrderOfModes`).
- Setting or clearing bits in `mip` latches an external interrupt that only the line holds, though section 3.1.9 keeps
  the two apart (`HartWrites.SetBitsInMip`, `HartWrites.ClearBitsInMip`, `HartWrites.LineIsLatched`).
- A write to `mip` changes STIP while the Sstc comparison is on, and a write to `stimecmp` clears a STIP that software
  set while it is off (`HartWrites.TimerBitInMip`, `HartWrites.TimerBitAndStimecmp`).
- The answer of `find_device` can depend on earlier accesses when two devices share an address outside the host interface:
  it does exactly when a device that shares addresses with an earlier one also answers somewhere, or RAM shares addresses
  with an earlier device and not only the first device answers (`BusModel.HistoriesAreHarmless`,
  `BusModel.OverlapBreaksShortcut`, `BusModel.InnerIsHarmless`).
- `load_binary_at` puts bytes meant for the host interface into the device around it when a blob starts before it
  (`BusModel.LoadIsBytewise`).
- First-level prefetches are not installed in the second level, although the inclusive policy promises a superset
  (`HierarchyModel.StepExact`, `HierarchyModel.RunExact`, `HierarchyModel.TwoAccessesBreak`).

## Model

| member | source | states |
|---|---|---|
| `RobTags.OrderIsExact` | crates/hardware/src/core/pipeline/rob.rs:44-66 | the wrapping tag comparison orders two allocations rightly if and only if their tags lie less than 2^31 apart |
| `RobTags.LiveOrder` | crates/hardware/src/core/pipeline/rob.rs:44-66 | any two tags at most 2^31 - 2 allocations apart compare as their allocations do, wherever the counter stands |
| `RobTags.WindowIsTight` | crates/hardware/src/core/pipeline/rob.rs:44-66 | one allocation more, across the skipped 0, and each of two tags looks older than the other |
| `RobTags.NextTagOf` | crates/hardware/src/core/pipeline/rob.rs:217-274 | the n-th allocation gets the n-th tag of the counter that wraps and skips 0 |
| `RenameModel.SitesAgree` | crates/hardware/src/core/pipeline/backend/o3/mod.rs:188-202 | dispatch, retirement and ROB-walk rebuild update the map alike if and only if an instruction does not set both write flags on a real register |
| `RenameModel.ReplayIsYoungest` | crates/hardware/src/core/pipeline/backend/o3/mod.rs:188-202 | after the walk each register is where its youngest writer in the buffer put it, or where the committed map has it |
| `RenameModel.DispatchInv` | crates/hardware/src/core/pipeline/frontend/rename.rs:53-148 | dispatch keeps the invariant: ordered ROB, old mappings linked, every physical register in exactly one place |
| `RenameModel.CommitInv` | crates/hardware/src/core/pipeline/backend/shared/commit.rs:194-324 | retirement keeps the invariant |
| `RenameModel.FaultInv` | crates/hardware/src/core/pipeline/backend/shared/commit.rs:131-177 | a fault at the head followed by the flush keeps the invariant |
| `RenameModel.FlushInv` | crates/hardware/src/core/pipeline/backend/o3/mod.rs:771-810 | a full flush keeps the invariant |
| `RenameModel.KeepFirstInv` | crates/hardware/src/core/pipeline/backend/o3/mod.rs:642-731 | dropping the tail of the ROB and rebuilding the map keeps the invariant |
| `RenameModel.RunInv` | crates/hardware/src/core/pipeline/backend/o3/mod.rs:206-754 | the invariant holds after every run of dispatches, retirements, faults, flushes and recoveries |
| `RenameModel.NeverAliased` | crates/hardware/src/core/pipeline/rename_map.rs:20-59 | the invariant implies: no two architectural registers share a physical one and no mapped register is free |
| `RenameModel.FlushLeaksNothing` | crates/hardware/src/core/pipeline/backend/o3/mod.rs:771-810 | after a full flush the free registers are exactly those the committed map does not hold, each once, and their number is what the debug assertion demands |
| `RenameModel.DispatchEffect` | crates/hardware/src/core/pipeline/frontend/rename.rs:53-148 | an instruction enters the buffer if and only if there is an entry, a register if it needs one and a slot for a branch; it gets the first free register and remembers the one it hides; otherwise nothing but the order of the free registers changes |
| `RenameModel.CommitEffect` | crates/hardware/src/core/pipeline/backend/shared/commit.rs:194-324 | retirement puts the destination into the committed map and frees exactly the register that map held for it |
| `RenameModel.EveryRunIsSound` | crates/hardware/src/core/pipeline/backend/o3/mod.rs:206-810 | from reset, with a register file that 16 bits can number, every run ends with the speculative map equal to the replay of the ROB over the committed map, each register at its youngest writer, no aliasing, and nothing lost by a flush |
| `RenameModel.SoundIffNumbered` | crates/hardware/src/core/pipeline/free_list.rs:22-29 | no run aliases a register if and only if there are at most 65536; otherwise the register of x0 is free at reset |
| `Checkpoints.CheckpointTable.Allocate` | crates/hardware/src/core/pipeline/checkpoint.rs:60-70 | fails exactly when the table is full, else fills the first empty slot and changes no other; the identifier is the slot cut to 8 bits |
| `Checkpoints.CheckpointTable.FindByTag` | crates/hardware/src/core/pipeline/checkpoint.rs:72-75 | returns the first snapshot taken for the tag, none if and only if there is none |
| `Checkpoints.CheckpointTable.Free` | crates/hardware/src/core/pipeline/checkpoint.rs:77-84 | empties the one slot named, and the count follows |
| `Checkpoints.CheckpointTable.FlushAfter` | crates/hardware/src/core/pipeline/checkpoint.rs:86-96 | keeps exactly the not-newer snapshots, unchanged in place |
| `Checkpoints.CheckpointTable.FlushAll` | crates/hardware/src/core/pipeline/checkpoint.rs:98-103 | empties the table |
| `Checkpoints.AllocateThenFree` | crates/hardware/src/core/pipeline/checkpoint.rs:60-84 | freeing the returned identifier undoes the allocation if and only if the slot is below 256 |
| `Robs.Rob.Allocate` | crates/hardware/src/core/pipeline/rob.rs:217-274 | the ring buffer read in program order gains the entry at its end; fails exactly when full |
| `Robs.Rob.SetCheckpointId` | crates/hardware/src/core/pipeline/rob.rs:393-398 | changes the identifier of the entry with that tag and nothing else |
| `Robs.Rob.CommitHead` | crates/hardware/src/core/pipeline/rob.rs:419-436 | removes the first entry of the program order |
| `Robs.Rob.FlushAfter` | crates/hardware/src/core/pipeline/rob.rs:450-504 | the three loops leave exactly the prefix up to and including the tag; no effect on an unknown tag |
| `Robs.Rob.PrevTagOf` | crates/hardware/src/core/pipeline/rob.rs:569-587 | the tag just before in program order |
| `O3Rename.Engine.Dispatch` | crates/hardware/src/core/pipeline/frontend/rename.rs:53-148 | one instruction ends where the ROB-walk machine ends; with room it stands at the end of the ROB with the next tag, the first free register and the register it hides, and the map follows; without room the ROB and the map stay |
| `O3Rename.Engine.Retire` | crates/hardware/src/core/pipeline/backend/shared/commit.rs:194-324 | matches the machine's commit: the oldest entry leaves, the committed map has its destination, and what that map had there is free |
| `O3Rename.Engine.Flush` | crates/hardware/src/core/pipeline/backend/o3/mod.rs:771-810 | matches the machine's flush: the ROB is empty, the map is the committed one, and all destinations in flight are free |
| `O3Rename.Engine.FaultHead` | crates/hardware/src/core/pipeline/backend/shared/commit.rs:131-177 | matches the machine's fault step: the same with the destination of the faulted head first |
| `O3Rename.Engine.Recover` | crates/hardware/src/core/pipeline/backend/o3/mod.rs:642-731 | keeps exactly the entries through the one with the tag (none if there is none), frees the destinations of the others in order, and the map, from the snapshot or by the walk, has each register at its youngest surviving writer |
| `O3Rename.Engine.Violation` | crates/hardware/src/core/pipeline/backend/o3/mod.rs:343-422 | the same for a memory-order squash, which keeps exactly the entries before the load |
| `O3Rename.Engine.Perform` | crates/hardware/src/core/pipeline/backend/o3/mod.rs:206-810 | each step matches the machine's and leaves the ROB that the step names: one entry more, the first one less, none, the prefix through the tag, or the prefix before it |
| `O3Rename.SnapshotIsReplay` | crates/hardware/src/core/pipeline/checkpoint.rs:3-21 | the snapshot found for the kept branch equals the committed map replayed over the surviving entries up to that branch |
| `O3Rename.OccupancyIsBranches` | crates/hardware/src/core/pipeline/checkpoint.rs:25-58 | as many slots are occupied as branches are in flight |
| `O3Rename.SlotsAreDistinct` | crates/hardware/src/core/pipeline/checkpoint.rs:60-70 | two branches in flight never share a slot |
| `O3Rename.MatchKeepFirst` | crates/hardware/src/core/pipeline/checkpoint.rs:86-96 | flushing by tag keeps slots and surviving branches in one-to-one correspondence |
| `O3Rename.Engine.Execute` | crates/hardware/src/core/pipeline/backend/o3/mod.rs:206-810 | every run of the engine ends in the state of the ROB-walk machine, without aliased registers and with each register at its youngest writer in the ROB |
| `FdtFormat.RoundTrip` | crates/hardware/src/sim/dtb.rs:118-158 | parsing a written tree gives the tree back if and only if no name contains a NUL, in every node the properties precede the subnodes, and the blob is below 4 GiB; a tree that fails only the order is refused |
| `FdtFormat.ParseItemsUndoes` | crates/hardware/src/sim/dtb.rs:35-102 | structure tokens and pooled names of any nesting parse back to the items when they are in order, and are refused when not |
| `FdtFormat.ParseRootUndoes` | crates/hardware/src/sim/dtb.rs:118-130 | the root node with its end markers parses back to itself when every node has its properties first, and is refused when not |
| `FdtFormat.HeaderReads` | crates/hardware/src/sim/dtb.rs:131-152 | every header word but the boot CPU reads back from the blob, modulo 2^32 |
| `FdtFormat.OffsetReads` | crates/hardware/src/sim/dtb.rs:49-60 | the offset of a name in the pooled strings reads back that name, whatever is added later |
| `FdtFormat.BigEndian` | crates/hardware/src/sim/dtb.rs:31-33 | words are written most significant byte first |
| `FdtFormat.KnownStructure` | crates/hardware/src/sim/dtb.rs:35-102 | the 32 bytes of the structure block of a small tree, written out |
| `FdtFormat.KnownHeader` | crates/hardware/src/sim/dtb.rs:131-152 | the 40 bytes of its header, written out |
| `FdtBuilder.OffsetIsStable` | crates/hardware/src/sim/dtb.rs:49-60 | an offset handed out does not move when names are added |
| `FdtBuilder.FdtBuilder.StringOffset` | crates/hardware/src/sim/dtb.rs:49-60 | the offset of the name in the pool, which stores each name once |
| `FdtBuilder.FdtBuilder.BeginNode` | crates/hardware/src/sim/dtb.rs:35-43 | opens a node: the buffer is the layout of the tree so far plus an open node |
| `FdtBuilder.FdtBuilder.EndNode` | crates/hardware/src/sim/dtb.rs:45-47 | closes the innermost open node |
| `FdtBuilder.FdtBuilder.PropU32` | crates/hardware/src/sim/dtb.rs:62-68 | appends a four-byte big-endian property to the innermost node |
| `FdtBuilder.FdtBuilder.PropString` | crates/hardware/src/sim/dtb.rs:70-82 | appends a NUL-terminated property, padded |
| `FdtBuilder.FdtBuilder.PropData` | crates/hardware/src/sim/dtb.rs:84-93 | appends a property with the given bytes, padded to four |
| `FdtBuilder.FdtBuilder.PropEmpty` | crates/hardware/src/sim/dtb.rs:95-102 | appends a property without value |
| `FdtBuilder.FdtBuilder.PropReg22` | crates/hardware/src/sim/dtb.rs:104-112 | appends a reg property of two address and two size cells |
| `FdtBuilder.FdtBuilder.Finalize` | crates/hardware/src/sim/dtb.rs:118-158 | the blob equals header, empty reservation map, structure and strings of the tree built, its 32-bit fields wrapping |
| `FdtBuilder.LayoutPop` | crates/hardware/src/sim/dtb.rs:31-47 | closing a node appends one end token to the bytes of the tree and no name |
| `FdtBuilder.FinishedBlobParses` | crates/hardware/src/sim/dtb.rs:118-158 | whatever the calls, a finished blob of one tree parses back to it if and only if names are NUL-free, properties precede subnodes and the blob is below 4 GiB |
| `FdtBuilder.Build` | crates/hardware/src/sim/dtb.rs:31-158 | every tree can be written through the builder, and parses back under exactly that condition |
| `FdtBuilder.ChildThenProperty` | crates/hardware/src/sim/dtb.rs:35-93 | begin, begin, end, property, end is taken by the builder and refused by the parser, whatever the names and the value |
| `DtbGenerator.GenerateDtb` | crates/hardware/src/sim/dtb.rs:170-354 | for every configuration the blob parses back to the board's tree, in which every device is read where the configuration has it |
| `DtbReader.BoardIsRead` | crates/hardware/src/sim/dtb.rs:170-354 | in the tree: RAM, CLINT, UART, disk, PLIC, syscon and clock each with unit address and one reg of the configured base and size; interrupt lines and their controllers; cell counts; console path, timebase, poweroff and reboot values |
| `DtbReader.HexReads` | crates/hardware/src/sim/dtb.rs:232-236 | a unit address read as a hexadecimal number is the base |
| `DtbGenerator.EmitSoc` | crates/hardware/src/sim/dtb.rs:170-354 | the builder calls of the soc node append exactly that node to the tree |
| `DtbBoard.BoardGood` | crates/hardware/src/sim/dtb.rs:170-354 | in the board's tree each of the phandles 1, 2, 3 is defined once, and every interrupt-parent, regmap and interrupts-extended holds the phandle of the PLIC, the syscon and the hart's interrupt controller |
| `DtbBoard.PhandleOwners` | crates/hardware/src/sim/dtb.rs:170-354 | phandle 1 is held by the hart's interrupt controller node alone, 2 by the PLIC node, 3 by the syscon node |
| `DtbGenerator.BoardIsSmall` | crates/hardware/src/sim/dtb.rs:170-354 | for every configuration the tree meets the condition under which a blob parses: NUL-free names, properties before subnodes, a blob below 2^32 bytes |
| `DtbBoard.RegDecodes` | crates/hardware/src/sim/dtb.rs:104-112 | the cells of a two-cell reg decode to the 64-bit base and size |
| `MazeSolver.HeuristicIsConsistent` | examples/programs/maze.c:34-40 | the heuristic drops by at most one along an edge |
| `MazeSolver.RelaxKeepsSound` | examples/programs/maze.c:178-191 | a relaxation keeps every label the length of a real walk, with parents leading back to the start |
| `MazeSolver.FrontierOnPath` | examples/programs/maze.c:138-195 | on any path to an unsettled cell there is an open cell labelled no more than its distance along the path |
| `MazeSolver.GoalIsOptimal` | examples/programs/maze.c:138-162 | when the goal is selected its label is at most the length of any path, reopening included |
| `MazeSolver.ExhaustedIsUnreachable` | examples/programs/maze.c:149-152 | when no cell is open the goal is unreachable |
| `MazeSolver.SelectLowest` | examples/programs/maze.c:139-147 | the scan returns an open cell of lowest f score, or none only if no open cell scores below the sentinel |
| `MazeSolver.Expand` | examples/programs/maze.c:164-194 | one round of relaxations keeps the invariant and decreases the sum that bounds the loop |
| `MazeSolver.Trace` | examples/programs/maze.c:154-162 | following parents ends at the start along a simple path no longer than the goal's label and marks exactly its cells |
| `MazeSolver.SolveAstar` | examples/programs/maze.c:114-201 | terminates on every wall grid; finds the goal if and only if it is reachable; the cost is then the shortest distance and exactly the cells of such a path are marked |
| `MazeGenerator.CarveKeeps` | examples/programs/maze.c:83-104 | carving into an unvisited neighbour keeps the passages a tree of the visited cells, walls symmetric |
| `MazeGenerator.CarveAddsPassage` | examples/programs/maze.c:83-104 | each carving adds exactly one passage |
| `MazeGenerator.BranchIsPath` | examples/programs/maze.c:47-111 | the branch of tree links from a cell to the first cell is an open path |
| `MazeGenerator.SimplePathIsBranch` | examples/programs/maze.c:47-111 | every simple path to the root is that branch: the passages contain no cycle |
| `MazeGenerator.CarvedIsSpanning` | examples/programs/maze.c:47-111 | a tree over all cells is spanning: total - 1 passages, a unique simple path from any cell, border intact, walls symmetric |
| `MazeGenerator.DoneIsSpanning` | examples/programs/maze.c:61-111 | when the loop ends, by count or by empty stack, the maze is spanning |
| `MazeGenerator.UnvisitedNeighbours` | examples/programs/maze.c:65-75 | lists exactly the directions to unvisited neighbours inside the grid |
| `MazeGenerator.Choose` | examples/programs/maze.c:77-82 | the neighbour taken is the one that the low four bits of the draw leave after subtracting the number of choices |
| `MazeGenerator.GenerateMaze` | examples/programs/maze.c:47-111 | for every sequence of random numbers it terminates with a spanning tree and all cells visited |
| `MazeGenerator.GenerateAndSolve` | examples/programs/maze.c:47-201 | on every generated maze the solver finds and marks the one simple path |
| `ChessRules.PawnIs` | examples/programs/chess.c:109-133 | pawn moves are exactly straight pushes onto empty squares, two from the home row, and diagonal captures of enemies |
| `ChessRules.KnightAndKing` | examples/programs/chess.c:139-158 | knight and king moves are exactly the chess moves by rows and columns onto squares not their own; none wraps round the board |
| `ChessRules.SlidersOnly` | examples/programs/chess.c:159-184 | a sliding piece goes only where it sees along one of its lines, up to the first piece |
| `ChessRules.SlidersAll` | examples/programs/chess.c:159-184 | and to every such square |
| `ChessRules.MovesAre` | examples/programs/chess.c:99-188 | a move is generated if and only if its piece is the side's own, on any square, and may go there by the rules |
| `ChessRules.RayIs` | examples/programs/chess.c:165-183 | the stepping loop of one direction lists exactly the squares seen along the line |
| `ChessRules.MovesAreSensible` | examples/programs/chess.c:99-188 | every generated move takes an own piece to another square not held by its own side |
| `ChessRules.UnapplyRestores` | examples/programs/chess.c:190-199 | putting back the two saved squares undoes a move, promotion included |
| `ChessRules.MoverKeepsMaterial` | examples/programs/chess.c:190-199 | a move changes the two squares only; the target holds the piece moved, or a queen of its side for a pawn on a last row |
| `ChessMirror.MoveChangesMaterial` | examples/programs/chess.c:90-97 | a move changes the evaluation by the piece it captures, and by 800 for the mover if it promotes |
| `ChessSearch.BestIsReached` | examples/programs/chess.c:222-262 | the minimax value is the value of some move |
| `ChessSearch.BestIsBound` | examples/programs/chess.c:222-262 | no move is better than the minimax value |
| `ChessSearch.Game.GenMoves` | examples/programs/chess.c:99-188 | the generator's list is the move relation in its order: exactly the moves that the rules allow the pieces of the side |
| `ChessSearch.Game.Search` | examples/programs/chess.c:201-263 | board and side are restored; the answer is exact inside the window, an upper bound at or below alpha and a lower bound at or above beta; no more positions are visited than by plain minimax |
| `ChessSearch.Game.Maximize` | examples/programs/chess.c:222-243 | white's loop with its cut-off meets the same contract against the best child value |
| `ChessSearch.Game.Minimize` | examples/programs/chess.c:244-262 | black's loop likewise |
| `ChessSearch.FullWindowIsExact` | examples/programs/chess.c:201-263 | with the full window and a value within [-INF, INF] the answer is the minimax value |
| `ChessSearch.ClampedIsExact` | examples/programs/chess.c:201-263 | with the full window the answer is the minimax value up to clamping, for every position |
| `ChessSearch.ValueWithin` | examples/programs/chess.c:201-263 | leaf evaluations within [-INF, INF] keep the minimax value within it |
| `ChessRules.MaterialCanBeHuge` | examples/programs/chess.c:90-97 | a board of one side's full set, pawns promoted, evaluates to 30320, which exceeds INF |
| `ChessMirror.MirrorMoves` | examples/programs/chess.c:99-188 | on the board turned round with colours exchanged the other side has the same moves turned round |
| `ChessMirror.ValueOfEnd` | examples/programs/chess.c:207-221 | without moves the side to move loses 10000; without a king its colour loses 20000, white's looked at first |
| `ChessMirror.MirrorNegates` | examples/programs/chess.c:201-263 | at every depth the value for the other side of the board turned round is the negated value, if and only if the depth is 0, there is no move or a king is on the board |
| `ChessSearch.Game.Shuffle` | examples/programs/chess.c:271-276 | the shuffle keeps the moves, whatever the random numbers |
| `ChessSearch.Game.BestMove` | examples/programs/chess.c:265-304 | returns a legal move, restores the position, and no move has a better clamped value |
| `ChessSearch.BestMoveIsOptimal` | examples/programs/chess.c:265-304 | with leaf evaluations within [-INF, INF] and both kings on the board, that move reaches the minimax value of the position |
| `HeapModel.ServedIffSafe` | software/libc/stdlib.c:51-98 | malloc keeps the heap tiled and grants a fresh live block of at least the size asked if and only if the 64-bit sums do not wrap or the wrapped request is refused too |
| `HeapModel.SafeIsServed` | software/libc/stdlib.c:51-98 | a safe request is granted exactly when a free block fits or the heap can grow below the limit, and refused with the heap unchanged otherwise |
| `HeapModel.GrantIsExact` | software/libc/stdlib.c:51-98 | in exact arithmetic: a grant takes the first free block with room, whole or with the rest left in its place, and only without one moves the top up by just the size needed |
| `HeapModel.UnsafeIsNotServed` | software/libc/stdlib.c:51-98 | a request outside the condition is granted all the same, and never properly |
| `HeapModel.HugeRequestSucceeds` | software/libc/stdlib.c:33-36 | a request of 2^64 - 100 bytes is granted and moves the heap top below its base |
| `HeapModel.SplitTiles` | software/libc/stdlib.c:63-75 | splitting keeps the tiling; both parts hold a header and a word |
| `HeapModel.FreeKeepsSound` | software/libc/stdlib.c:41-49 | free keeps the tiling and makes exactly that block free |
| `HeapModel.FreeThenMalloc` | software/libc/stdlib.c:41-98 | freeing a fresh allocation and asking for the same size again returns the same block and restores the heap |
| `HeapModel.HeapIsTiled` | software/libc/stdlib.c:20-98 | walking the blocks from the base meets each block once and their sizes add up to the extent of the heap |
| `HeapModel.AddressHasOneBlock` | software/libc/stdlib.c:20-98 | every address of the heap lies in exactly one block |
| `Allocator.SplitRepresents` | software/libc/stdlib.c:63-75 | the stores of a split leave sizes and links of the new free list in the headers and touch no live payload |
| `Allocator.UnlinkRepresents` | software/libc/stdlib.c:76-81 | unlinking a block likewise |
| `Allocator.PokeRepresents` | software/libc/stdlib.c:7-10 | a client store inside a live payload misses every header |
| `Allocator.Allocator.Sbrk` | software/libc/stdlib.c:20-39 | aligns the first top, refuses beyond the limit, else moves the top, in 64-bit arithmetic |
| `Allocator.Allocator.Free` | software/libc/stdlib.c:41-49 | header stores match the model's free; other live payloads are unchanged |
| `Allocator.Allocator.Malloc` | software/libc/stdlib.c:51-98 | the list walk, split, unlink and growth match the model on every safe request, take the first free block with room, and change no live payload |
| `HeapClient.StepKeeps` | software/libc/stdlib.c:41-98 | each request, release or write of a lawful program keeps its holdings backed by live blocks of sufficient size |
| `HeapClient.StepHasEffect` | software/libc/stdlib.c:41-98 | a granted request is a new holding of the size asked; a release ends that holding, frees its block alone and spares what was written elsewhere; a write is remembered |
| `HeapClient.HoldingsAreApart` | software/libc/stdlib.c:41-98 | two allocations held at once are aligned, inside the heap and at least a header apart |
| `HeapClient.EveryRunIsSound` | software/libc/stdlib.c:20-98 | over every lawful run holdings are disjoint and block sizes sum to the heap's extent |
| `HeapClient.Execute` | software/libc/stdlib.c:20-98 | every lawful run on the real headers follows the model, and whatever the program wrote and still holds is in memory at the end |
| `Lz77.MatchLength` | examples/benchmarks/complete_prog/lz77_bench.c:33-37 | the inner loop returns the longest repetition at a distance, at most the lookahead |
| `Lz77.FindBestMatch` | examples/benchmarks/complete_prog/lz77_bench.c:29-43 | the window scan returns a longest match, at the greatest distance that has it |
| `Lz77.CopyReproduces` | examples/benchmarks/complete_prog/lz77_bench.c:45-50 | copying a match byte by byte reproduces the input, overlapping itself or not |
| `Lz77.AsciiDecodes` | examples/benchmarks/complete_prog/lz77_bench.c:21-57 | bytes below 0x80 decode back, distance code 0 read as 128 |
| `Lz77.NonAsciiIsLost` | examples/benchmarks/complete_prog/lz77_bench.c:21-57 | an input with a byte of 0x80 or more does not decode back to itself |
| `Lz77.NeverExpands` | examples/benchmarks/complete_prog/lz77_bench.c:21-57 | the output is not longer than the input |
| `Lz77.RoundTrip` | examples/benchmarks/complete_prog/lz77_bench.c:21-57 | decoding the tokens gives the input back if and only if all its bytes are below 0x80 |
| `Lz77.GreedyIsUnique` | examples/benchmarks/complete_prog/lz77_bench.c:21-57 | the greedy tokens, and so the output, are determined by the input |
| `Lz77.OutputsCollide` | examples/benchmarks/complete_prog/lz77_bench.c:21-57 | three different bytes repeated, and the three followed by 0x83 and 3, give the same output |
| `Lz77.NoDecoder` | examples/benchmarks/complete_prog/lz77_bench.c:21-57 | every function on outputs fails to recover some input |
| `Lz77.Compress` | examples/benchmarks/complete_prog/lz77_bench.c:21-57 | fills the buffer with the greedy tokens; they decode to the input if and only if it is ASCII; the rest of the buffer is unchanged |
| `HartSpec.WriteKeepsLegal` | crates/hardware/src/core/cpu/csr.rs:112-287 | any write to any register leaves every legalised field legal: MPP never 2, UXL and SXL constant, delegation and enables within their masks, vector modes 0 or 1, even return addresses, satp Bare or Sv39, fcsr fields in range |
| `HartSpec.TickKeepsLegal` | crates/hardware/src/core/cpu/execution.rs:86-132 | so does sampling the interrupt lines; an interrupt injected by software stays pending |
| `HartSpec.TrapKeepsLegal` | crates/hardware/src/core/cpu/trap.rs:130-205 | so does entering a trap |
| `HartSpec.ReturnsKeepLegal` | crates/hardware/src/core/cpu/trap.rs:208-261 | so do mret and sret |
| `HartSpec.ResetIsLegal` | crates/hardware/src/core/cpu/mod.rs:242-283 | the reset state is legal |
| `HartEffects.TrapIsTaken` | crates/hardware/src/core/cpu/trap.rs:130-205 | bit by bit: delegation, cause with the interrupt bit, return address, trap value, handler address, stacked enables and mode; the other mode's registers and the rest unchanged |
| `HartEffects.MretIsDone` | crates/hardware/src/core/cpu/trap.rs:208-230 | bit by bit: mode, program counter, unstacked enable, previous mode and MPRV after mret; the rest unchanged |
| `HartEffects.SretIsDone` | crates/hardware/src/core/cpu/trap.rs:233-258 | the same after sret |
| `HartEffects.TickIsDone` | crates/hardware/src/core/cpu/execution.rs:86-132 | bit by bit: the pending bits after a sampling, and one cycle more |
| `HartEffects.PlainReadsBack` | crates/hardware/src/core/cpu/csr.rs:112-287 | scratch, cause, trap value, stimecmp, menvcfg and the counters read back as written |
| `HartEffects.ReturnAddress` | crates/hardware/src/core/cpu/csr.rs:112-287 | return addresses read back even |
| `HartEffects.CounterEnables` | crates/hardware/src/core/cpu/csr.rs:112-287 | counter enables read back in three bits |
| `HartEffects.ExceptionDelegation` | crates/hardware/src/core/cpu/csr.rs:112-287 | medeleg reads back without the call from machine mode |
| `HartEffects.InterruptDelegation` | crates/hardware/src/core/cpu/csr.rs:112-287 | mideleg reads back in the supervisor interrupts |
| `HartEffects.InterruptEnables` | crates/hardware/src/core/cpu/csr.rs:112-287 | mie reads back in the six interrupts |
| `HartEffects.VectorsReadBack` | crates/hardware/src/core/cpu/csr.rs:112-287 | vector registers read back with reserved modes turned direct |
| `HartEffects.SatpReadsBack` | crates/hardware/src/core/cpu/csr.rs:112-287 | satp reads back if bare or Sv39, and bare otherwise |
| `HartEffects.PendingReadsBack` | crates/hardware/src/core/cpu/csr.rs:112-287 | a write to mip sets the supervisor's three bits and software's copy of SEIP |
| `HartEffects.SieReadsBack` | crates/hardware/src/core/cpu/csr.rs:207-236 | sie reads back in the delegated interrupts |
| `HartEffects.SipReadsBack` | crates/hardware/src/core/cpu/csr.rs:207-236 | a write to sip sets the delegated software interrupt alone |
| `HartEffects.MstatusReadsBack` | crates/hardware/src/core/cpu/csr.rs:112-287 | mstatus reads back in its writable fields, MPP legalised, SD computed, the rest as it was |
| `HartEffects.SstatusReadsBack` | crates/hardware/src/core/cpu/csr.rs:207-236 | sstatus reads back in the supervisor's fields |
| `HartEffects.FloatReadsBack` | crates/hardware/src/core/cpu/csr.rs:112-287 | fflags, frm and fcsr read back in five, three and eight bits and mark the unit dirty |
| `HartEffects.CountersRead` | crates/hardware/src/core/cpu/csr.rs:23-103 | cycle, instret and time show the machine's counters |
| `HartProps.RunIsLegal` | crates/hardware/src/core/cpu/csr.rs:112-287 | legality over every run of writes, samplings, traps and returns |
| `HartWrites.WriteFrame` | crates/hardware/src/core/cpu/csr.rs:112-287 | a write changes no read of a register that does not show the same state |
| `HartWrites.WriteBack` | crates/hardware/src/core/cpu/csr.rs:23-287 | for every register, writing back the value read leaves the state unchanged if and only if the state is quiet for it: FS dirty for the floating point registers, SEIP not from the line alone for mip, STIP clear for stimecmp |
| `HartWrites.SetBitsInMip` | crates/hardware/src/core/pipeline/backend/o3/execute.rs:657-667 | setting bits in mip through read and write follows the rule for the software bit if and only if the line adds nothing to what was read |
| `HartWrites.ClearBitsInMip` | crates/hardware/src/core/pipeline/backend/o3/execute.rs:657-667 | the same for clearing bits, under the same condition |
| `HartWrites.LineIsLatched` | crates/hardware/src/core/cpu/execution.rs:106-115 | one tick after reset with the supervisor line high, setting the software interrupt keeps the external one pending after the line has gone low |
| `HartWrites.TimerBitInMip` | crates/hardware/src/core/cpu/csr.rs:201-206 | a write to mip leaves STIP alone while the Sstc comparison is on if and only if the comparison is off or the bit written is the one pending |
| `HartWrites.TimerBitAndStimecmp` | crates/hardware/src/core/cpu/csr.rs:262-265 | a write to stimecmp leaves STIP alone if and only if it was clear, and shows the new comparison if and only if the comparand lies ahead |
| `HartProps.RunShowsLines` | crates/hardware/src/core/cpu/execution.rs:86-130 | in every run MTIP, MSIP and MEIP equal the lines last sampled |
| `HartProps.TickSetsSupervisorBits` | crates/hardware/src/core/cpu/execution.rs:106-128 | after a sampling SEIP is line or software bit, STIP the comparison if enabled and untouched if not |
| `HartProps.SupervisorWriteIsConfined` | crates/hardware/src/core/cpu/csr.rs:207-236 | a supervisor write leaves machine registers, status bits outside the supervisor's, undelegated enables and machine pending bits alone |
| `HartProps.ViewIsReads` | crates/hardware/src/core/cpu/csr.rs:56-70 | two states agree on every supervisor read if and only if their supervisor views are equal |
| `HartProps.WriteActsOnView` | crates/hardware/src/core/cpu/csr.rs:207-265 | the view after a supervisor write is a function of the view before |
| `HartProps.NonInterference` | crates/hardware/src/core/cpu/csr.rs:207-265 | states with equal delegation and equal supervisor reads still agree after any common sequence of supervisor writes |
| `HartProps.ThreeRegisters` | crates/hardware/src/core/cpu/csr.rs:56-70 | equal delegation and equal sstatus, sie and sip reads are kept by any common sequence of writes to those three, whatever the rest of the states |
| `HartProps.ReturnUndoesTrap` | crates/hardware/src/core/cpu/trap.rs:130-261 | returning from a trap restores mode, program counter and both interrupt enables |
| `HartProps.TakenInterruptIsMasked` | crates/hardware/src/core/pipeline/backend/shared/commit.rs:698-737 | the interrupt chosen is handled in the mode it was chosen for, never a lower one, and only one for a higher mode can be taken next |
| `HartProps.OrderOfModes` | crates/hardware/src/core/pipeline/backend/shared/commit.rs:698-737 | interrupts for higher modes are taken first, in every legal state and in every state reached from reset, if and only if no delegated supervisor interrupt precedes an undelegated one in the fixed order |
| `HartProps.CheckChooses` | crates/hardware/src/core/pipeline/backend/shared/commit.rs:698-737 | the interrupt chosen is the first in the fixed order that is pending, enabled and either for a higher mode or for this one with interrupts on |
| `HartProps.BadDelegationFails` | crates/hardware/src/core/pipeline/backend/shared/commit.rs:698-737 | for every other delegation, a run from reset to a state in which the lower mode is served first |
| `HartProps.SatpRulesAgree` | crates/hardware/src/core/arch/csr.rs:502-507 | the two copies of the satp rule give the same value for every write |
| `CpuCsr.Cpu.CsrWrite` | crates/hardware/src/core/cpu/csr.rs:112-287 | each branch performs the specified write of that register and keeps the stored sstatus equal to its view of mstatus |
| `CpuCsr.Cpu.CsrRead` | crates/hardware/src/core/cpu/csr.rs:23-103 | each read returns what the architecture shows |
| `CpuCsr.Cpu.PreTick` | crates/hardware/src/core/cpu/execution.rs:86-132 | the step-by-step rebuild of mip is the architecture's sampling, bit by bit |
| `CpuCsr.Cpu.TakeTrap` | crates/hardware/src/core/cpu/trap.rs:130-205 | cause, value, return address, handler, mode and stacked status are, bit by bit, as the architecture has them for any code and any return address, the delegation bit being that of the low six bits of the code; sstatus is kept in step; the state stays legal for even return addresses |
| `CpuCsr.TrapOnView` | crates/hardware/src/core/cpu/trap.rs:158-173 | stacking on the stored sstatus and copying three bits back is stacking on mstatus |
| `CpuCsr.Cpu.DoMret` | crates/hardware/src/core/cpu/trap.rs:208-230 | mret follows the architecture bit by bit, sstatus kept in step |
| `CpuCsr.Cpu.DoSret` | crates/hardware/src/core/cpu/trap.rs:233-258 | sret follows the architecture bit by bit, sstatus kept in step |
| `CpuCsr.Cpu.Execute` | crates/hardware/src/core/cpu/csr.rs:112-287 | every run keeps sstatus the restriction of mstatus and ends in the architecture's state |
| `BusModel.OwnerIsUnique` | crates/hardware/src/soc/interconnect.rs:224-262 | when devices share addresses only inside the host interface, at most one device answers for an address |
| `BusModel.ShortcutIsLookup` | crates/hardware/src/soc/interconnect.rs:240-254 | any shortcut that covers the address outside the host interface names the device of the full lookup |
| `BusModel.HintsAreHarmless` | crates/hardware/src/soc/interconnect.rs:224-262 | find_device gives the hint-free answer for every address and every value of the hint, reachable or not, if and only if every two devices share no address or only addresses of the host interface |
| `BusModel.HistoriesAreHarmless` | crates/hardware/src/soc/interconnect.rs:224-262 | find_device gives the hint-free answer after every history of accesses if and only if every device that shares addresses with an earlier one answers nowhere, and RAM shares none with an earlier one unless only the first device answers |
| `BusModel.FindFromReached` | crates/hardware/src/soc/interconnect.rs:224-262 | on those layouts every hint an access can leave gives the hint-free answer and leaves such a hint again |
| `BusModel.LayoutIsSettled` | crates/hardware/src/soc/interconnect.rs:224-262 | one host interface at most and no other overlap is enough for that |
| `BusModel.OverlapBreaksShortcut` | crates/hardware/src/soc/interconnect.rs:240-245 | two devices that share an address, the second with one to itself: an access to that one changes which of them answers for the shared one |
| `BusModel.InnerIsHarmless` | crates/hardware/src/soc/interconnect.rs:240-262 | a device inside an earlier one overlaps it and never changes an answer |
| `BusModel.SortAfterPush` | crates/hardware/src/soc/interconnect.rs:74-82 | registering keeps the list sorted and moves later devices up by one place |
| `BusModel.InsertIsPlaced` | crates/hardware/src/soc/interconnect.rs:74-82 | the new device stands behind those with a lower or equal base and before all others, which keep their order |
| `BusModel.InsertKeepsLayout` | crates/hardware/src/soc/interconnect.rs:74-82 | registering in order keeps the layout rule |
| `BusModel.InsertSettles` | crates/hardware/src/soc/interconnect.rs:74-82 | a device that fits that rule leaves a layout on which neither hints nor histories do harm |
| `BusModel.LoadIsBytewise` | crates/hardware/src/soc/interconnect.rs:106-117 | loading a blob equals writing its bytes one by one if and only if it does not run into the host interface from another device |
| `BusModel.AppendIs` | crates/hardware/src/soc/interconnect.rs:106-117 | a bulk write arrives byte by byte at consecutive offsets |
| `SystemBus.Bus.AddDevice` | crates/hardware/src/soc/interconnect.rs:74-82 | devices stay sorted and the stored positions stay right, on every registration that leaves a layout on which no history does harm |
| `SystemBus.Bus.FindDevice` | crates/hardware/src/soc/interconnect.rs:224-262 | the branches of the code and the hint left behind, for every hint and layout; device and offset from its base; the hint-free lookup's on the layouts of the two conditions above |
| `SystemBus.Bus.IsValidAddress` | crates/hardware/src/soc/interconnect.rs:128-143 | for every layout, true exactly when the lookup finds a device, that is when some range holds the address |
| `SystemBus.Bus.WriteU8` | crates/hardware/src/soc/interconnect.rs:281-285 | the byte reaches the device of the lookup, at the offset from its base, and no other |
| `SystemBus.Bus.LoadBinaryAt` | crates/hardware/src/soc/interconnect.rs:106-117 | the effect of byte-wise writes on every blob and address that does not cross, device ends and unclaimed space included |
| `SystemBus.Replay` | crates/hardware/src/soc/interconnect.rs:74-285 | over every history of registrations, reads, writes and loads on layouts on which no history does harm, the answers to the reads and the writes received are those of the hint-free lookup |
| `CacheModel.TagOfAddress` | crates/hardware/src/core/units/cache/mod.rs:196-198 | tag and set computed from an address are quotient and remainder of its line number |
| `CacheModel.VictimAddress` | crates/hardware/src/core/units/cache/mod.rs:127-130 | the reconstructed address of a victim lies in the victim's line |
| `CacheModel.InstallIs` | crates/hardware/src/core/units/cache/mod.rs:190-222 | after a fill the cache holds what it held, less the reported victim, plus the new line, none twice |
| `CacheModel.ClearIs` | crates/hardware/src/core/units/cache/mod.rs:442-461 | after an invalidation the line and only the line is gone |
| `HierarchyModel.TouchIs` | crates/hardware/src/core/units/cache/mod.rs:312-354 | an access leaves the old lines less the reported victim plus the line asked for |
| `HierarchyModel.PrefetchIs` | crates/hardware/src/core/units/cache/mod.rs:359-374 | prefetches add at most their targets, report every line they drop, and leave the last target held |
| `HierarchyModel.BelowKeeps` | crates/hardware/src/core/cpu/memory.rs:105-180 | below the first level a line already taken there is let in and evictions are taken back, so only the lines excepted before can be without a copy |
| `HierarchyModel.StepExact` | crates/hardware/src/core/cpu/memory.rs:195-335 | whatever the caches hold and policies and prefetchers choose, an access keeps inclusion if and only if no line of the first level's own prefetches is left there without a copy below |
| `HierarchyModel.OneOnHit` | crates/hardware/src/core/cpu/memory.rs:229-259 | on a hit with one prefetched line: if and only if the second level already has it |
| `HierarchyModel.OneOnMiss` | crates/hardware/src/core/cpu/memory.rs:229-335 | on a miss: if and only if the second level has it, or it is the line asked for, or the third level is asked and gives it up |
| `HierarchyModel.RunExact` | crates/hardware/src/core/cpu/memory.rs:105-335 | a run keeps inclusion after every access if and only if no access lets a line escape |
| `HierarchyModel.NoPrefetchRun` | crates/hardware/src/core/cpu/memory.rs:105-335 | runs without first-level prefetches keep inclusion |
| `HierarchyModel.TwoAccessesBreak` | crates/hardware/src/core/cpu/memory.rs:195-335 | from empty caches, fetching any line and hitting it while the first level prefetches any other loses inclusion |
| `HierarchyModel.MemoryIsLast` | crates/hardware/src/core/cpu/memory.rs:105-180 | the cost of a miss does not depend on the memory latency if and only if the second or third level has the line |
| `HierarchyModel.AgainIsNoDearer` | crates/hardware/src/core/cpu/memory.rs:195-335 | after an access the same one is free while the first level has the line, and after a miss no dearer than before while the second level has it |
| `HierarchyModel.AgainIsFree` | crates/hardware/src/core/cpu/memory.rs:195-335 | without prefetches the line asked for is in the first level afterwards, whatever is back-invalidated |
| `HierarchyModel.MissFills` | crates/hardware/src/core/cpu/memory.rs:105-180 | a miss without prefetches brings the line into every level asked and leaves a third level not asked alone |
| `Caches.Cache.Access` | crates/hardware/src/core/units/cache/mod.rs:312-354 | hit if and only if the line is held; contents and reported victim are those of the model's access |
| `Caches.Cache.InstallPrefetches` | crates/hardware/src/core/units/cache/mod.rs:359-374 | contents and reported lines are those of the model's prefetches, and the last target is held |
| `Caches.Cache.InvalidateLine` | crates/hardware/src/core/units/cache/mod.rs:442-460 | the model's invalidation, and whether the line was there |
| `Caches.Hierarchy.AccessL2` | crates/hardware/src/core/cpu/memory.rs:261-294 | the second level's access, prefetches and back-invalidation of both first-level caches, as in the model |
| `Caches.Hierarchy.BelowL1` | crates/hardware/src/core/cpu/memory.rs:105-180 | second and third level as in the model; the cost is the second level's latency, plus the third's if it is asked, plus the memory's if no cache had the line |
| `Caches.Hierarchy.SimulateMemoryAccess` | crates/hardware/src/core/cpu/memory.rs:195-335 | the model's step, at no cost on a first-level hit and at those costs on a miss |
| `Caches.PerformAll` | crates/hardware/src/core/cpu/memory.rs:105-335 | every sequence of accesses follows the model, and its cycles are the sum of the costs, each in the state the accesses before have left |
| `Caches.Simulate` | crates/hardware/src/core/cpu/memory.rs:105-335 | every sequence of accesses follows the model; from an inclusive state it stays inclusive throughout if and only if no access lets a line escape, in particular without first-level prefetches |
| `Immediates.DecodeEncodedI` | crates/hardware/src/isa/decode.rs:178-180 | decoding an encoded 12-bit immediate returns it |
| `Immediates.DecodeEncodedS` | crates/hardware/src/isa/decode.rs:186-191 | the same for the store format |
| `Immediates.DecodeEncodedB` | crates/hardware/src/isa/decode.rs:197-208 | the same for even 13-bit branch offsets |
| `Immediates.DecodeEncodedU` | crates/hardware/src/isa/decode.rs:214-216 | the same for upper immediates |
| `Immediates.DecodeEncodedJ` | crates/hardware/src/isa/decode.rs:222-245 | the same for even 21-bit jump offsets |
| `Immediates.EncodeDecodedI` | crates/hardware/src/isa/decode.rs:178-180 | encoding what was decoded gives the instruction word back |
| `Immediates.EncodeDecodedS` | crates/hardware/src/isa/decode.rs:186-191 | the same for the store format |
| `Immediates.EncodeDecodedB` | crates/hardware/src/isa/decode.rs:197-208 | the same for the branch format |
| `Immediates.EncodeDecodedU` | crates/hardware/src/isa/decode.rs:214-216 | the same for the upper format |
| `Immediates.EncodeDecodedJ` | crates/hardware/src/isa/decode.rs:222-245 | the same for the jump format |
| `Immediates.DecodedBEven` | crates/hardware/src/isa/decode.rs:197-208 | branch offsets are even |
| `Immediates.DecodedBRange` | crates/hardware/src/isa/decode.rs:197-208 | branch offsets fit 13 signed bits |
| `Immediates.DecodedJEven` | crates/hardware/src/isa/decode.rs:222-245 | jump offsets are even |
| `Immediates.DecodedJRange` | crates/hardware/src/isa/decode.rs:222-245 | jump offsets fit 21 signed bits |
| `Immediates.DecodedIRange` | crates/hardware/src/isa/decode.rs:178-180 | I immediates fit 12 signed bits |
| `Immediates.DecodedSRange` | crates/hardware/src/isa/decode.rs:186-191 | S immediates fit 12 signed bits |
| `Immediates.FieldOfI` | crates/hardware/src/isa/decode.rs:178-180 | the bits of the I immediate come from bits 31 to 20 of the instruction |
| `Immediates.FieldsOfS` | crates/hardware/src/isa/decode.rs:186-191 | those of the S immediate from 31 to 25 and 11 to 7 |
| `Immediates.FieldsOfB` | crates/hardware/src/isa/decode.rs:197-208 | those of the B immediate from 31, 7, 30 to 25 and 11 to 8 |
| `Immediates.FieldsOfU` | crates/hardware/src/isa/decode.rs:214-216 | those of the U immediate from 31 to 12 |
| `Immediates.FieldsOfJ` | crates/hardware/src/isa/decode.rs:222-245 | those of the J immediate from 31, 19 to 12, 20 and 30 to 21 |

## Left out

- Python API, command line, dashboard, statistics, tracing, bindings, configuration, loaders, and the remaining example programs.
- The pipeline around renaming: scoreboard, load and store queues, execution latencies. Which entry completes, faults, mispredicts or violates memory order is a free choice of the run.
- Squash stall cycles and performance counters of the engine.
- O3Rename.Engine.Execute: tags must stay within the comparison's reach of each other, which `RobTags.OrderIsExact` shows to be necessary; a run of more than 2^31 - 2 instructions in flight or between a retired branch and its recovery is excluded.
- O3Rename.Engine.constructor: at most 65536 physical registers and 256 checkpoint slots, which `RenameModel.SoundIffNumbered` and `Checkpoints.AllocateThenFree` show to be necessary.
- Robs: the result, trap and store fields of an entry and the search functions over them, which renaming does not read.
- Printing, input and the random generators of the C programs: random numbers are an arbitrary function.
- ChessSearch.Game.Search: move lists are sequences; positions with more than 128 moves, for which the C buffer overflows, are excluded by `Fits`.
- ChessSearch.Game.BestMove: needs a position with at least one move and a depth of at least 1; the C code reads an unset entry or recurses without end otherwise.
- ChessSearch.BestMoveIsOptimal: material can exceed INF once a king is captured (`ChessRules.MaterialCanBeHuge`), so the range of values is a condition; `ChessSearch.Game.BestMove` states what holds without it.
- Allocator.Allocator.Malloc: memory is addressed in 8-byte words; the message printed on failure is not modelled. On wrapping requests nothing is promised about the headers, see `HeapModel.UnsafeIsNotServed`.
- Allocator.Allocator.constructor: the program image is taken to end below the heap limit, as the linker script and the limit intend.
- HeapClient.Execute: releasing a pointer twice or one not held is outside the C library's contract and not modelled.
- Lz77.Compress: the buffer is assumed at least as long as the input, as the benchmark provides.
- DtbBoard: the strings of the configuration are modelled as their bytes; formatting of numbers other than hexadecimal addresses does not occur.
- CSRs: physical memory protection registers, the panic register, direct mode, and the cache and TLB flushes that follow a write to satp.
- CpuCsr.Cpu.PreTick: the exit and hang checks before the lines are sampled, and the per-mode cycle statistics.
- CpuCsr.Cpu.TakeTrap: the table from trap kinds to cause codes. A code of 64 or more shifts by its low six bits, as in a build without overflow checks.
- Bus: multi-byte accesses, device ticks and interrupt lines; a device is the list of byte writes it received. Address sums are unbounded integers.
- Caches: the NINE and exclusive policies, miss registers, dirty write-back timing, the prefetchers and their filter (their output is arbitrary), flushes, and line sizes that differ between levels.
- Caches.Cache: the flat vector of lines is a sequence of sets of ways.
- MazeSolver: allocation failures and frees of the scratch arrays are not modelled.
- The disassembler, which repeats the decoder's immediate expressions, and compressed instructions.
- MMU, TLB, PMP and DRAM timing.
