# sph: domain decomposition, output reordering and launcher, verified in Dafny

This project models the sequential, non-numeric helpers of the `sph`
smoothed-particle-hydrodynamics solver and its launcher script:

- **MPI.cpp, local steps.** The domain decomposition:
  - splitting the x-boxes among processes and giving each process its x-extent;
  - assigning every particle to the process whose slab holds it;
  - the counts and offsets that drive `MPI_Scatterv` / `MPI_Gatherv`.

  The classification of particles for the halo exchange (`computeOverlapIndex`) and for migration (`computeMigrateIndex`). The reordering of all of a Field's arrays along a sorted index (`sortParticles`). The array surgery (`deleteHalos`, `resizeField`, `insertParticles`) and the type recount. The messages between these steps are inputs: what a neighbour sends arrives as receive buffers.
- **writeField.cpp.** The free-first copy of the Field, the `[start, end)` ranges handed to the ParaView writer and the Matlab file name.
- **CleanUp.cpp.** `boxClear`, `copyField` and `swapField`.
- **run.py.** The derivation of the parameter file, the geometry file and the test name, and the results directory name. The ordered existence checks before `mkdir`, the thread-count environment variable, and the platform-specific executable and MPI command line.

Doubles are modelled as `real`. The helpers only compare positions and copy them around, so exact arithmetic loses nothing they rely on. `struct Field` and `struct SubdomainInfo` are Dafny classes (`Structures.Field`, `Structures.SubdomainInfo`). The functions that take a `Field&` are methods that modify it.

Modules and files:

| module | file | what it holds |
|---|---|---|
| `Structures` | structures.dfy | Field, SubdomainInfo, the particle types, the output modes |
| `ParticleIndex` | particle_index.dfy | the (category, particle) index, its sort, category counts, the gather along an index |
| `MpiField` | mpi_field.dfy | sortParticles, deleteHalos, resizeField, insertParticles, the recount |
| `MpiDecomposition` | mpi_decomposition.dfy | getDomainNumber, computeDomainIndex, offsets, scatter / gather placement, startBoxX, local extents, timeStepUpdate's minimum |
| `MpiExchange` | mpi_exchange.dfy | computeMigrateIndex, computeOverlapIndex, the local steps of shareOverlap and shareMigrate |
| `WriteField` | write_field.dfy | writeField and the Matlab file name |
| `CleanUp` | cleanup.dfy | boxClear, copyField, swapField |
| `Text` | text.dfy | Python's `str.replace`, `str.strip`, `'%d'`, and `setw`/`setfill` padding, on `seq<char>` |
| `Launcher` | launcher.dfy | run.py |

The Field's per-particle arrays are sometimes taken together as one value, `MpiField.Columns` (x, u, y, v, z, w, density, pressure, mass, type, in the order of the send buffers). This lets the exchange steps state "the old particles, with the left buffers in front and the right buffers behind" as one equation.

`run.py:58-59` sets `OMP_NUM_THREADS` on every platform, and the model follows `run.py`.

## Model

| member | source | states |
|---|---|---|
| Structures.Field.constructor | Headers/Structures.h:166-182 | A local Field starts with empty vectors and with nextK and currentTime at 0.0. |
| Structures.SubdomainInfo.constructor | Headers/Structures.h:184-193 | The process id, process count and box size are set; the ranges start at 0. |
| ParticleIndex.SortByKey | CPP_Physics/MPI.cpp:1013-1021 | std::sort with sortFunction: the result is ordered by category and is a permutation of the index. Stability is not promised. |
| ParticleIndex.Insert | CPP_Physics/MPI.cpp:1013-1021 | Inserting into a sorted index keeps it sorted and adds exactly that entry to the multiset. |
| ParticleIndex.KeyBlock | CPP_Physics/MPI.cpp:1018-1021 | In a sorted index the entries of category k form one block: [CountBelow(k), CountBelow(k) + CountKey(k)). |
| ParticleIndex.ThreeBlocks | CPP_Physics/MPI.cpp:11-24 | With categories 0, 1 and 2 the sorted index is three consecutive blocks, the last CountKey(2) entries being category 2. |
| ParticleIndex.CountPermutation | CPP_Physics/MPI.cpp:1021 | Sorting preserves every category's count and every below-k count. |
| ParticleIndex.GatherIsPermutation | CPP_Physics/MPI.cpp:1033-1056 | Moving an array along an index that names each particle once is a permutation of the array. |
| MpiField.Permute | CPP_Physics/MPI.cpp:1033-1034 | The tmp[i] = a[index[i].second] loop yields the array gathered along the index. |
| MpiField.SortParticles | CPP_Physics/MPI.cpp:1018-1057 | The index comes back sorted and permuted. Every array (pos, speed, density, pressure, mass, type) is the old one gathered along it, with the length N kept. The counters, bounds and times are unchanged. |
| MpiField.PermuteCoordinates | CPP_Physics/MPI.cpp:1030-1040 | pos[c] and speed[c] are gathered for c < 3; the other arrays are untouched. |
| MpiField.PermuteOthers | CPP_Physics/MPI.cpp:1041-1056 | The density, pressure, mass and type arrays are gathered; pos and speed are untouched. |
| MpiField.SortKeepsParticles | CPP_Physics/MPI.cpp:1021-1034 | The sorted index has the input's length and names only existing particles. |
| MpiField.SortPermutes | CPP_Physics/MPI.cpp:1018-1057 | Sorting a complete index and moving an array along it gives a permutation of the array: no particle is lost or duplicated. |
| MpiField.SortedBlocks | CPP_Physics/MPI.cpp:11-24 | After the sort the three categories occupy [0, n0), [n0, n0 + n1) and the last n2 places, which is where sending to the right starts. |
| MpiField.Resize | CPP_Physics/MPI.cpp:1059-1078 | std::vector::resize truncates, or pads with zero values, to exactly n entries. |
| MpiField.Cut | CPP_Physics/MPI.cpp:299-300 | resize(end + 1) then erase the first start entries: end + 1 - start entries, equal to old[start..end] when end is inside the array. |
| MpiField.DeleteHalos | CPP_Physics/MPI.cpp:289-317 | Every array becomes its cut to startingParticle .. endingParticle, so the Field is consistent with end + 1 - start particles. The counters, bounds and times are unchanged. |
| MpiField.CutCoordinates | CPP_Physics/MPI.cpp:296-304 | pos[c] and speed[c] are cut for c < 3; the other arrays are untouched. |
| MpiField.ResizeField | CPP_Physics/MPI.cpp:1059-1078 | Every array is resized to size - n, and the Field stays consistent with size - n particles. |
| MpiField.ResizeCoordinates | CPP_Physics/MPI.cpp:1063-1069 | pos[c] and speed[c] are resized for c < 3; the other arrays are untouched. |
| MpiField.ResizeIsPrefix | CPP_Physics/MPI.cpp:1061-1078 | resizeField(n) keeps exactly the first size - n entries. |
| MpiField.Spliced | CPP_Physics/MPI.cpp:360-385 | Insert at end: the old entries, then the received ones. Insert at begin: the received entries, then the old ones. |
| MpiField.InsertParticles | CPP_Physics/MPI.cpp:337-390 | Buffer 2i goes to pos[i], 2i + 1 to speed[i], 6 to density, 7 to pressure, 8 to mass and the type buffer to type, all at the chosen side. Buffers of one length n keep the Field consistent with n more particles. |
| MpiField.InsertCoordinates | CPP_Physics/MPI.cpp:364-368 | The coordinate loop: buffers 2c and 2c + 1 are spliced into pos[c] and speed[c]. |
| MpiField.SplicedSurround | CPP_Physics/MPI.cpp:362-385 | Inserting at begin puts the buffers in front of every array; inserting at end puts them behind. |
| MpiField.SurroundTwice | CPP_Physics/MPI.cpp:664-665 | Inserting the left buffers in front and then the right buffers behind puts both around the old arrays. |
| MpiField.SurroundWindow | CPP_Physics/MPI.cpp:664-669 | After both insertions the old particles are found again, in order, from index \|TL\| for old size entries. |
| MpiField.ResizedSlice | CPP_Physics/MPI.cpp:1059-1078 | Resizing every array to m entries or fewer is taking the first m of each. |
| MpiField.TypeCountsSum | CPP_Physics/MPI.cpp:193-206 | Free, fixed and other-type counts add up to the number of particles. |
| MpiField.Recount | CPP_Physics/MPI.cpp:186-206 | nTotal becomes pos[0].size(). nFree counts type 0, nFixed type 1 and nMoving every other type, over the first nTotal types, and the three add up to nTotal. Nothing else changes. |
| MpiDecomposition.FirstNotBelow | CPP_Physics/MPI.cpp:944-946 | The scan stops at the first index from `from` on whose limit is not below x, or at n. |
| MpiDecomposition.DomainNumber | CPP_Physics/MPI.cpp:941-948 | getDomainNumber as written: a result in [-1, n). x is above every limit up to the result, and at or below the next one. |
| MpiDecomposition.GetDomainNumber | CPP_Physics/MPI.cpp:941-948 | The linear scan returns exactly DomainNumber. |
| MpiDecomposition.DomainNumberMinusOne | CPP_Physics/MPI.cpp:941-948 | The answer is -1 exactly when x <= limits[0], the boundary itself included. |
| MpiDecomposition.BoundaryParticleHasNoDomain | CPP_Physics/MPI.cpp:935-937 | A particle exactly on the global left boundary gets domain -1. |
| MpiDecomposition.OwningDomain | CPP_Physics/MPI.cpp:935-937 | The corrected domain: always in [0, n); x lies in the slab (limits[d], limits[d + 1]], and anything at or left of limits[0] belongs to process 0. |
| MpiDecomposition.OwningDomainUnique | CPP_Physics/MPI.cpp:140-142 | With increasing limits, the owning domain is the only process whose slab contains x. |
| MpiDecomposition.DomainEntries | CPP_Physics/MPI.cpp:933-936 | With the corrected domain `OwningDomain`: one entry per particle, in order of i, naming particle i and a valid domain. A particle at or left of limits[0] is filed under process 0, where the source files it under -1. |
| MpiDecomposition.ComputeDomainIndex | CPP_Physics/MPI.cpp:928-939 | With the corrected domain `OwningDomain`: the index grows by one (domain, i) pair per particle in order of i, and each counter grows by the number of particles mapped to its domain. |
| MpiDecomposition.DomainEntriesCoverOnce | CPP_Physics/MPI.cpp:933-936 | The entries name every particle exactly once. |
| MpiDecomposition.CountsGrowByParticles | CPP_Physics/MPI.cpp:933-938 | Together the counters grow by exactly the number of particles. |
| MpiDecomposition.PrefixSumOfCounts | CPP_Physics/MPI.cpp:145-149 | The first m counters add up to the entries of a domain below m, on top of the initial counters. |
| MpiDecomposition.ComputeOffsets | CPP_Physics/MPI.cpp:144-149 | offset[i] is the sum of all earlier counts, as the loop builds it. The same loop recurs in gatherField (lines 255-263). |
| MpiDecomposition.ScatterHandsOwnParticles | CPP_Physics/MPI.cpp:138-179 | After the sort, the block [offset[d], offset[d] + counts[d]) that MPI_Scatterv sends to process d holds exactly the particles of domain d, and the counts add up to the global size. |
| MpiDecomposition.CountsPrefix | CPP_Physics/MPI.cpp:145-149 | With counters that count each domain, offset[m] is the number of particles in domains below m. |
| MpiDecomposition.ScatterPart | CPP_Physics/MPI.cpp:164-179 | Process p receives counts[p] values starting at offset[p]. |
| MpiDecomposition.ScatterParts | CPP_Physics/MPI.cpp:164-179 | Every process's part lies inside the global array. |
| MpiDecomposition.TilingBounds | CPP_Physics/MPI.cpp:145-149 | Prefix-sum offsets of non-negative counts keep every block inside the global array. |
| MpiDecomposition.ScatterThenGather | CPP_Physics/MPI.cpp:164-179 | Scattering with prefix-sum offsets and laying the parts end to end gives the global array back: the parts tile it. |
| MpiDecomposition.ScatterPrefix | CPP_Physics/MPI.cpp:164-179 | The first m parts laid end to end are the global array's first Sum(counts[..m]) entries. |
| MpiDecomposition.PartIsBlock | CPP_Physics/MPI.cpp:164-179 | Part p is the block between the prefix sums before and after p. |
| MpiDecomposition.GatherPlacesParts | CPP_Physics/MPI.cpp:245-287 | gatherField puts process p's part at offsets[p], the sum of the earlier parts' sizes, and the gathered array is exactly as long as all parts together. |
| MpiDecomposition.ConcatLength | CPP_Physics/MPI.cpp:255-263 | The gathered array's length is the sum of the parts' lengths. |
| MpiDecomposition.SplitBoxes | CPP_Physics/MPI.cpp:72-97 | Fewer than 2 * nTasks boxes is exactly the consistency error, with no split. Otherwise startBoxX has nTasks + 1 entries, startBoxX[i] = nTotalBoxesX * i / nTasks, and the split is well formed. |
| MpiDecomposition.StartBox | CPP_Physics/MPI.cpp:93-97 | startBoxX[i] = nTotalBoxesX * i / nTasks lies among the boxes, and startBoxX[nTasks] is nTotalBoxesX. |
| MpiDecomposition.StartBoxesSplit | CPP_Physics/MPI.cpp:93-97 | startBoxX[0] = 0 and startBoxX[nTasks] = nTotalBoxesX, and consecutive entries are at least two boxes apart. |
| MpiDecomposition.BoxGap | CPP_Physics/MPI.cpp:73-96 | With at least 2 * nTasks boxes every process owns at least two box layers. |
| MpiDecomposition.DivExact | CPP_Physics/MPI.cpp:96 | (q * n) / n == q, so the last process ends at the last box. |
| MpiDecomposition.LocalExtent | CPP_Physics/MPI.cpp:108-130 | Process 0 starts at the global l[0]; any other process starts one box left of its first box. The last process ends at its limit; any other process ends one box beyond it. startingBox is 0 on process 0, and nBoxesY * nBoxesZ (past the halo layer) elsewhere. The owned box range holds (startBoxX[p + 1] - startBoxX[p]) * nBoxesY * nBoxesZ boxes. |
| MpiDecomposition.NeighboursOverlapTwoBoxes | CPP_Physics/MPI.cpp:116-128 | The extents of neighbouring processes overlap by exactly two boxes. |
| MpiDecomposition.MinOf | CPP_Physics/MPI.cpp:921 | The smallest element is in the sequence and no greater than any element. |
| MpiDecomposition.NextKAsWrittenSkipsLast | CPP_Physics/MPI.cpp:921 | As written, with proposals 1.0 and 0.5 the chosen step is 1.0, larger than the second process's proposal. |
| MpiDecomposition.NextKAsWritten | CPP_Physics/MPI.cpp:905-921 | As written: one process keeps its own proposal; otherwise the step is one of the first nTasks - 1 proposals and no larger than any of them. The last proposal takes no part. |
| MpiDecomposition.NextK | CPP_Physics/MPI.cpp:905-926 | The corrected step is one of the proposals and no larger than any of them. |
| MpiExchange.MigrateCategory | CPP_Physics/MPI.cpp:964-977 | Beyond xMax means right; otherwise at or before xMin means left; otherwise stay. Each category holds exactly when its test does. |
| MpiExchange.MigrateEntries | CPP_Physics/MPI.cpp:962-978 | One entry per particle, in order, carrying its migrate category. |
| MpiExchange.ComputeMigrateIndex | CPP_Physics/MPI.cpp:955-979 | Both counters start at 0 and the index grows by MigrateEntries. nMigrate[0] and nMigrate[1] count its left and right entries. |
| MpiExchange.MigratePartition | CPP_Physics/MPI.cpp:955-979 | The migrate entries name every particle once, and the stay, left and right counts add up to all particles. |
| MpiExchange.OverlapCategory | CPP_Physics/MPI.cpp:990-1009 | Right edge first, then left edge, otherwise none. Each category holds exactly when its interval test does. |
| MpiExchange.OverlapEntries | CPP_Physics/MPI.cpp:988-1010 | Only particles that are not strays get an entry, carrying the category of their position. |
| MpiExchange.InRight | CPP_Physics/MPI.cpp:990 | The right-edge test, rightMinX < x <= rightMaxX. Tested first, so OverlapCategory gives RIGHT_OVERLAP exactly when it holds. |
| MpiExchange.InLeft | CPP_Physics/MPI.cpp:995 | The left-edge test, leftMinX < x <= leftMaxX. OverlapCategory gives LEFT_OVERLAP exactly when it holds and the right test does not. |
| MpiExchange.Stray | CPP_Physics/MPI.cpp:1000-1005 | In neither edge and outside [leftMinX, rightMaxX]: the warning branch, which pushes no entry. |
| MpiExchange.OverlapWindowEdges | CPP_Physics/MPI.cpp:515-602 | For the extents scatterField hands out, the two edges are disjoint, and a stray is exactly a particle outside [leftMinX, rightMaxX]. |
| MpiExchange.ComputeOverlapIndex | CPP_Physics/MPI.cpp:981-1011 | Both counters start at 0. The index grows by one entry per non-stray particle, and nOverlap[0] and nOverlap[1] count its left and right entries. |
| MpiExchange.OverlapEntriesExact | CPP_Physics/MPI.cpp:988-1010 | Without strays there is exactly one entry (category, i) per particle, in order. |
| MpiExchange.OverlapCoversOnce | CPP_Physics/MPI.cpp:988-1010 | Without strays the entries name every particle once. |
| MpiExchange.StrayIsDropped | CPP_Physics/MPI.cpp:1000-1005 | A stray particle gets no entry, so the index is shorter than the Field and never names it. |
| MpiExchange.OverlapWindow | CPP_Physics/MPI.cpp:515-602 | The windows shareOverlap passes: no left edge on the first process, no right edge on the last. |
| MpiExchange.MigrateBounds | CPP_Physics/MPI.cpp:706-794 | The bounds shareMigrate passes: l[0] or l[0] + boxSize on the left, u[0] - boxSize or u[0] on the right. MigrateBoundsAreSlab states what they mean. |
| MpiExchange.SlabLimits | CPP_Physics/MPI.cpp:140-142 | scatterField's limits: limits[i] = globall0 + startBoxX[i] * boxSize for each of the nTasks domains. |
| MpiExchange.MigrateBoundsAreSlab | CPP_Physics/MPI.cpp:706-794 | With the extent scatterField gives process p, the stay interval (xMin, xMax] is exactly p's own slab (Limit(p), Limit(p + 1)]. A particle inside the global domain therefore stays exactly when OwningDomain names p. |
| MpiExchange.KeysFollowPositions | CPP_Physics/MPI.cpp:1018-1021 | After the sort, every entry's category is still that of its particle's position. |
| MpiExchange.SelectOverlap | CPP_Physics/MPI.cpp:515-520 | The Field is reordered along a sorted index that names every particle once. The first nOverlap[0] particles are exactly those in the left edge and not the right; those from startOverlapToRight = size - nOverlap[1] on are exactly those in the right edge. |
| MpiExchange.OverlapLayout | CPP_Physics/MPI.cpp:515-606 | After the sort the left-edge block comes first and the right-edge block last, each read off the reordered positions. |
| MpiExchange.InsertNeighbours | CPP_Physics/MPI.cpp:664-665 | The left neighbour's particles go in front and the right neighbour's behind, only where a neighbour exists. The old particles follow the left ones in order. |
| MpiExchange.InsertLeft | CPP_Physics/MPI.cpp:588 | The left buffers go in front when there is a left neighbour. |
| MpiExchange.InsertRight | CPP_Physics/MPI.cpp:537 | The right buffers go behind when there is a right neighbour. |
| MpiExchange.ReceiveOverlap | CPP_Physics/MPI.cpp:536-677 | The owned range becomes [size of the left halo, that + old size - 1]. On a single process this is [0, size - 1]. The slice of every array over that range is the Field from before the insertions. The ids, box size and boxes are unchanged. |
| MpiExchange.MigrateKeysFollowPositions | CPP_Physics/MPI.cpp:1018-1021 | After the sort, every entry's category is still the migrate category of its particle. |
| MpiExchange.SelectMigrants | CPP_Physics/MPI.cpp:706-799 | The Field is reordered along a sorted index that names every particle once. The staying particles come first, then the nMigrate[0] leaving left from startMigrateToLeft, then the nMigrate[1] leaving right from startMigrateToRight, each block read off its position. |
| MpiExchange.MigrantLayout | CPP_Physics/MPI.cpp:736-799 | After the sort on migrate category: stay, left, right blocks, each block exactly the particles its test admits. |
| MpiExchange.ReceiveMigrants | CPP_Physics/MPI.cpp:726-861 | All nMigrate[0] + nMigrate[1] migrants are dropped, keeping the first size - both. Then what came from the left neighbour and what came from the right are appended, in that order, each only where that neighbour exists. |
| MpiExchange.AppendParticles | CPP_Physics/MPI.cpp:729 | Inserting at the end appends the buffers to every array and grows the Field by the buffers' length. |
| WriteField.Positions | CPP_Interface/writeField.cpp:48-78 | One pass visits exactly the particles it takes, in increasing order. |
| WriteField.Select | CPP_Interface/writeField.cpp:48-78 | The values one push_back pass collects. SelectIsGather and PositionsCount state what they are. |
| WriteField.FreeFirst | CPP_Interface/writeField.cpp:48-78 | The free pass followed by the other pass. FreeFirstPermutes and FreeBlock state what it is. |
| WriteField.SelectIsGather | CPP_Interface/writeField.cpp:48-78 | A pass keeps the original order: its k-th value is that of the k-th taken particle. |
| WriteField.PositionsCount | CPP_Interface/writeField.cpp:48-78 | The free pass takes the type-0 count and the other pass the rest. |
| WriteField.FreeFirstPermutes | CPP_Interface/writeField.cpp:48-78 | The two passes together are a permutation of every array and keep its length. |
| WriteField.FreeBlock | CPP_Interface/writeField.cpp:50-61 | In the reordered types, [0, count) is exactly the block of free particles. |
| WriteField.CopyPass | CPP_Interface/writeField.cpp:48-78 | One loop pushes, for each of the nine arrays, the values of the taken particles in order; the free loop counts them. |
| WriteField.FreeFirstCopy | CPP_Interface/writeField.cpp:48-78 | Both loops: every array is its free particles then all others, and count is the number of type-0 particles. |
| WriteField.CopyInto | CPP_Interface/writeField.cpp:26-78 | The counters, bounds and time are copied and every array is filled free-first. nTotal, nextK and type are left as they were. |
| WriteField.CopyHeader | CPP_Interface/writeField.cpp:26-35 | nFree, nFixed, nMoving, l, u and currentTime are copied; nothing else changes. |
| WriteField.Reorder | CPP_Interface/writeField.cpp:21-79 | With output enabled the copy holds the counters, bounds and time, and every array reordered free-first, while type stays empty. Without output nothing is copied and count stays 0. |
| WriteField.ParaviewRanges | CPP_Interface/writeField.cpp:82-121 | Full gives [0, nbp), free gives [0, count), moving-fixed gives [count, nbp); the combined mode emits both, free first. |
| WriteField.ParaviewOutputs | CPP_Interface/writeField.cpp:82-121 | No output exactly when ParaView is off. |
| WriteField.RangesMatchTypes | CPP_Interface/writeField.cpp:99-120 | Every range lies inside the copy. The free range holds exactly the free particles and the moving-fixed range exactly the others. |
| WriteField.NamesDiffer | CPP_Interface/writeField.cpp:103-119 | The three output names are distinct. |
| WriteField.FreeOutputHolds | CPP_Interface/writeField.cpp:107-112 | [0, count) holds exactly the free particles. |
| WriteField.MovingFixedOutputHolds | CPP_Interface/writeField.cpp:115-120 | [count, nbp) holds exactly the moving and fixed particles. |
| WriteField.TruncateToInt | CPP_Interface/writeField.cpp:124 | The double time passed as matlab's int step is truncated toward zero. |
| WriteField.MatlabFileName | CPP_Interface/writeField.cpp:176-177 | "Results/", the file name, "_", the step padded with '0' to width 8, then ".txt". |
| WriteField.MatlabLayout | CPP_Interface/writeField.cpp:177 | Where each piece of the name sits. |
| WriteField.MatlabStepRoundTrip | CPP_Interface/writeField.cpp:177 | For steps 0 .. 99999999 the name has \|filename\| + 21 characters, and the eight characters before ".txt" are digits that read back as the step. |
| WriteField.WriteField | CPP_Interface/writeField.cpp:14-124 | The ParaView ranges are computed over the copy's size and the free count, and the Matlab name is produced only when Matlab output is on. With output, the copy keeps the size and is free-first. |
| CleanUp.BoxClear | CPP_Tools/CleanUp.cpp:5-9 | Every box of the array is emptied. |
| CleanUp.CopyField | CPP_Tools/CleanUp.cpp:25-47 | The target gets the source's counters, nTotal, l, u, mass, type, pressure, density, pos and speed. Its nextK and currentTime are kept, and the source is unchanged. |
| CleanUp.CopyBounds | CPP_Tools/CleanUp.cpp:29-33 | l and u are copied; everything else of the target is kept. |
| CleanUp.CopyCoordinates | CPP_Tools/CleanUp.cpp:44-47 | pos[j] and speed[j] are copied; everything else of the target is kept. |
| CleanUp.FieldPointer.constructor | CPP_Tools/CleanUp.cpp:68 | A Field* holding a given Field. |
| CleanUp.SwapField | CPP_Tools/CleanUp.cpp:68-74 | The two pointers exchange their Fields. |
| CleanUp.SwapFieldTwice | CPP_Tools/CleanUp.cpp:68-74 | Swapping twice restores the original pair. |
| Text.ReplaceAbsent | run.py:17-19 | str.replace with a pattern that does not occur changes nothing. |
| Text.ReplaceAllAfterPrefix | run.py:17-19 | A prefix in which no occurrence starts is kept by str.replace. |
| Text.ReplaceCharRemoves | run.py:29 | Replacing a character by a string without it removes every occurrence. |
| Text.ReplaceAll | run.py:17-19 | str.replace: every non-overlapping occurrence, left to right, is replaced; a replacement as long as the pattern keeps the length. |
| Text.TrimLeft | run.py:19 | Strips the leading copies of c only. |
| Text.TrimRight | run.py:19 | Strips the trailing copies of c only. |
| Text.Strip | run.py:19 | The result neither begins nor ends with c, and is the input with only copies of c cut from both ends. |
| Text.StripKeeps | run.py:19 | A string without c at either end is kept by strip. |
| Text.DecimalString | run.py:59 | '%d': a non-empty string starting with '-' exactly for negative numbers. |
| Text.ParseDigitsOfDigits | run.py:59 | The decimal digits read back as the number. |
| Text.PadLeft | CPP_Interface/writeField.cpp:177 | setw / setfill: the string padded on the left with the fill character to the width. |
| Text.ParseDigitsLeadingZeros | CPP_Interface/writeField.cpp:177 | Leading zeros do not change the value read. |
| Launcher.GeoFile | run.py:17 | geofile is as long as the argument, and an argument naming no parameter file is kept. |
| Launcher.ParFile | run.py:18 | parfile is as long as the argument, and an argument naming no geometry file is kept. |
| Launcher.TestName | run.py:19 | testname never begins or ends with '_'. |
| Launcher.GeometryArgument | run.py:17-19 | For "X_Geom.kzr", where X holds neither suffix: parfile is "X_Para.kzr", geofile is the argument, and testname is X. |
| Launcher.ParameterArgument | run.py:17-18 | For "X_Para.kzr", where X holds neither suffix: geofile is "X_Geom.kzr" and parfile is the argument. |
| Launcher.TwoDigits | run.py:29 | strftime's two-digit fields: two digits that read back as the number. |
| Launcher.DatePart | run.py:29 | "%y%m%d" is six digits. |
| Launcher.TimePart | run.py:29 | "%H%M%S" is six digits. |
| Launcher.Stamp | run.py:29 | "-%y%m%d-%H%M%S" has 14 characters. |
| Launcher.StampLayout | run.py:29 | The stamp is '-', the six date digits, '-' and the six time digits. |
| Launcher.StampRoundTrip | run.py:29 | The stamp reads back as year modulo 100, month, day, hour, minute and second. |
| Launcher.ResDirName | run.py:29 | resdirname holds no os.sep and ends with the 14-character stamp. |
| Launcher.Join | run.py:36-52 | os.path.join with a relative second part: a, at most one separator, then b. The separator is left out exactly when a is empty or ends with one ('\\' or '/' on Windows). |
| Launcher.SplitPath | run.py:33 | os.path.split: the tail holds no separator, the head is a prefix of the path, and only separators lie between them. |
| Launcher.JoinThenSplit | run.py:33-52 | os.path.split undoes os.path.join, for a head not ending with a separator and a tail holding none. |
| Launcher.BuildDir | run.py:33-36 | builddir splits back into the script's directory and "build". |
| Launcher.ExeFile | run.py:39-42 | exefile splits into the Release directory under builddir and "sph.exe" on Windows, and into builddir and "sph" elsewhere. |
| Launcher.ExeFilePath | run.py:33-42 | Spelled out: thisdir/build/sph, or thisdir\build\Release\sph.exe on Windows, with no leading directory for an empty thisdir. |
| Launcher.ResDir | run.py:52 | resdir splits back into "Results" and resdirname, for a name without separators. |
| Launcher.MpiExe | run.py:62-66 | The prefix is its words joined by single spaces: mpiexec -n N on Windows; mpirun -np N -map-by node:PE=J:OVERSUBSCRIBE --bind-to core:overload-allowed elsewhere. |
| Launcher.Cmd | run.py:68 | '%s %s %s %s %s': the prefix, exefile, parfile, geofile and the results prefix, joined by single spaces. |
| Launcher.MpiWordsHaveNoSpace | run.py:62-66 | No word of the prefix holds a space. |
| Launcher.SplitUnwords | run.py:68 | Splitting words joined by a separator none of them holds gives the words back. |
| Launcher.CmdIsWords | run.py:68 | cmd is the prefix's words, then exefile, parfile, geofile and the results prefix, joined by single spaces. |
| Launcher.CmdWords | run.py:68 | The shell sees the prefix's words, then exefile, parfile, geofile and resdirname/p as one word each, when none of them holds a space. |
| Launcher.FirstFailure | run.py:36-55 | The checks in order: builddir, exefile, parfile, geofile, an existing resdir. Then os.mkdir itself fails when Results is missing or a file has the name. None exactly when every check passes, and never the missing-argument failure. |
| Launcher.Host.constructor | run.py:33-71 | The directories, files and environment the script sees, with no command started yet. |
| Launcher.Run | run.py:17-71 | No test file raises at once. Otherwise thisdir is the head of the script's path, and the first failing check raises before anything changes. If none fails, resdir is made, OMP_NUM_THREADS is set to the thread count (on every platform), and cmd is started exactly once. |
| Launcher.Launch | run.py:36-71 | The checks, then mkdir, the environment and the command, with the same outcome over given names. |

## Left out

- **Inter-process communication.** The MPI calls themselves are not modelled: Send, Recv, Bcast, Scatter(v), Gather(v), and `MPI_Send_All`, `MPI_Recv_All`, `MPI_Recv_All_RK2`. Neither is the even/odd ordering of sends and receives in shareOverlap and shareMigrate. The point of those is concurrency; what a neighbour sends is an input buffer of the local steps.
- **shareRKMidpoint.** It writes received midpoint values straight into the Field; it is communication only.
- **processUpdate, shareOverlap and shareMigrate as single procedures.** Their local steps are modelled one by one (DeleteHalos, SelectMigrants, ReceiveMigrants, SelectOverlap, ReceiveOverlap, Recount). The procedures that run them with messages in between are not composed.
- **scatterField beyond the decomposition.** The box size (`boxSizeCalc`) is not computed, and the ceiling of the floating-point box counts is an input (nTotalBoxesX, nBoxesY * nBoxesZ). The broadcast of the moving-boundary parameters is not modelled.
- **timeStepUpdate.** The gather and broadcast are not modelled. Only the choice process 0 makes is.
- **Floating point.** Positions and all doubles are exact reals, and rounding is not modelled.
- **Integer width.** C++ `int` and `unsigned` overflow is not modelled; Dafny integers are unbounded. An example is `nTotalBoxesX * i` in the startBoxX loop.
- **std::sort.** `ParticleIndex.SortByKey` is one particular sort (insertion). Every contract about it and its callers uses only what std::sort promises: ordered by category and a permutation. The order within a category is unspecified in the source and is not relied on.
- **MpiDecomposition.ComputeDomainIndex** (and `MpiDecomposition.DomainEntries`) use the corrected domain. For a particle at or left of limits[0] (the global l[0]), the source pushes (-1, i) and increments nbPartNode[-1], outside the vector (MPI.cpp:935-937). The model files that particle under process 0 instead; `MpiDecomposition.BoundaryParticleHasNoDomain` states the as-written answer. See Findings.
- **MpiField.SortParticles** requires an index with at least N entries whose particles exist. When computeOverlapIndex skips a stray particle (a print-only branch) the index is shorter, and the C++ then reads past its end. That behaviour is undefined and not modelled; `MpiExchange.StrayIsDropped` shows the index gets shorter.
- **MpiExchange.SelectOverlap** requires that no particle is a stray, for the same reason.
- **MpiField.DeleteHalos** requires 0 <= startingParticle <= endingParticle + 1, because an erase beyond the resized end is undefined in C++.
- **MpiField.ResizeField** requires 0 <= n <= size, because a negative final size throws `std::length_error` in C++.
- **MpiField.Recount** requires at least nTotal types, because the C++ reads `type[i]` for every i < nTotal.
- **MpiField.InsertParticles.** The third branch of insertParticles (the "not acceptable" print) cannot be reached, since `enum insertion` has two values; `Insertion` has two constructors.
- **CleanUp.CopyField** requires two distinct Fields. The source documents the target as another, empty Field, and every caller passes two.
- **WriteField.** The ParaView and Matlab writers' output is not modelled: the file contents, `std::chrono`, `asctime`, `getenv` and the memory queries. Neither are the freeing of the copy's vectors (lines 126-144), since the copy is discarded, or the `reserve` calls.
- **WriteField.TruncateToInt** does not model a time outside the range of `int`.
- **run.py.** Argument parsing (`argparse`, with its defaults of 1) and the prints are not modelled. The script's path `__file__` is an input (its `os.path.split` is modelled), and so are the clock, the platform, and the directories and files that exist. `os.mkdir`, the environment write and `subprocess.call` are recorded effects on `Launcher.Host`; the command is recorded, not run.
- **Launcher.Join** models `os.path.join` for a relative second part only. Drive letters are not modelled, and neither are the Windows rules for an absolute second part. Every call in run.py joins a relative name.
- **Launcher.SplitPath** does not model drive letters or UNC prefixes on Windows.
- **Launcher.FirstFailure** models `os.mkdir` failing only when Results is missing or a file already has the name. Permissions and races are not modelled.

## Findings

| source | as written | input that shows it | evidently intended | confidence | as-written member | corrected member |
|---|---|---|---|---|---|---|
| CPP_Physics/MPI.cpp:935-948 | getDomainNumber answers -1 for x <= limits[0], and computeDomainIndex then increments nbPartNode[-1] | a particle with x equal to the global l[0] (limits[0]) | the particle belongs to process 0 | not executed; medium (it depends on particles lying exactly on the left wall) | MpiDecomposition.BoundaryParticleHasNoDomain | MpiDecomposition.OwningDomain |
| CPP_Physics/MPI.cpp:921 | std::min_element over allPropositions.begin() to begin() + nTasks - 1 leaves out the last process's proposal | nTasks = 2 with proposals 1.0 and 0.5 gives nextK = 1.0 | the minimum over all nTasks proposals | not executed; high | MpiDecomposition.NextKAsWrittenSkipsLast | MpiDecomposition.NextK |

The corrected domain, `MpiDecomposition.OwningDomain`, is the one `MpiDecomposition.ComputeDomainIndex` uses. `MpiDecomposition.OwningDomainUnique` proves it is the only process whose slab holds the particle. `MpiDecomposition.NextK` is proved to be one of the proposals and no larger than any of them.
