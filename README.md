# Bounded channel and block-tiled matrix multiplication

This project models two small sequential cores of a set of C++ lab programs.
It proves properties of both models in Dafny.

**`BufferedChannel<T>`** is a bounded FIFO queue with a one-way `closed` flag.
`Send` waits until there is room or the channel is closed. It then throws
"Channel is closed" or appends the value. `Recv` waits until there is an
element or the channel is closed. It then pops the head with `true`, or
returns `T()` with `false`. `Close` sets the flag. The constructor turns a
negative or zero size into capacity 0. `lub4/lub4/lub4.cpp` repeats the class
of `lub4/lub4/buffered_channel.h` line for line, without the comments. One
model covers both files, and the rows below cite either of them.

- `channel.dfy` (module `Channel`) holds two things:
  - the abstract state (`State`) and one step function per operation;
  - the class `BufferedChannel`, whose methods are proved equal to those
    steps.
- Each condition-variable wait is an "enabled" predicate, `CanSend` or
  `CanRecv`. A method requires it: a call completes only in a state where its
  wait is over.
- `channel_properties.dfy` (module `ChannelProperties`) runs whole sequences
  of calls (`Run`). A run in which some call would wait forever has no
  result.
- The run lemmas state the following properties:
  - the capacity bound;
  - FIFO order with no loss and no duplication;
  - that buffered values drain before end of stream;
  - that end of stream is final;
  - that nothing is accepted after `Close` or with capacity 0.
- The demonstration scenarios of `lub4/lub4/main.cpp` are client methods of
  the class.

**Matrix multiplication** (`MatrixMultiplier` in three near-duplicate
programs) computes `C = A × B` in two ways:

- sequentially, with a triple loop;
- block-parallel: the N×N result is cut into `ceil(N / blockSize)²` tiles,
  and one thread per tile fills that tile's cells.

Threads write disjoint cells and are all joined before the result is read. So
the tiled version is modelled as a sequential loop over the tiles, calling the
per-tile worker.

- `tiling.dfy` (module `Tiling`) holds the tile arithmetic:
  - the tile count;
  - the three ways the programs clip a tile's end, which `EndRule` names:
    - `Ternary`: `lub2ulti`;
    - `StdMin`: `matrix_linux`;
    - `Clip`: `lub2`;
  - the partition of `[0,N)×[0,N)`.
- `matrix.dfy` (module `Matrix`) holds the class `MatrixMultiplier`. Its
  matrices are `array2<int>`.
- `block_sizes.dfy` (module `BlockSizes`) holds the list of block sizes that
  `main` builds.

How the three programs map onto the model:

| program | sequential | worker | tile loop | comparison | block sizes |
|---|---|---|---|---|---|
| `lub2ulti/lub2ulti/lub2ulti.cpp` | `multiplySequential` 84-99 | `processBlock` 65-79, `multiplyBlockPthread` 48-63 | `multiplyParallelNative` 101-165, `multiplyParallelStdThread` 168-203 (`Ternary`) | `areMatricesEqual` 206-216 | 302-309 |
| `matrix_linux/MatrixMultiple.cpp` | `multiplySequential` 47-62 | `multiplyBlock` 26-41, the lambda 124-139 | `multiplyParallelPthread` 65-106, `multiplyParallelStdThread` 109-149 (`StdMin`) | `areMatricesEqual` 152-162 | 254-262 |
| `lub2/lub2/lub2.cpp` | `multiplySequential` 41-56 | `multiplyBlock` 24-35 | `multiplyParallel` 59-96 (`Clip`) | `areMatricesEqual` 99-109 | 186-194 |

In every worker the inner bound is `N` or `A.size()`. These are equal for the
N×N inputs the programs use, and the model uses `n`.

## Model

| member | source | states |
|---|---|---|
| `Channel.BufferedChannel.constructor` | lub4/lub4/buffered_channel.h:13 | capacity is the argument when positive, else 0; the buffer is empty and the channel open |
| `Channel.BufferedChannel.Send` | lub4/lub4/buffered_channel.h:15-33 | once the buffer has room or the channel is closed: on a closed channel it reports `ChannelClosed` and the buffer is unchanged; otherwise the value is appended at the tail; the flag never changes and `len(buf) ≤ cap` is kept |
| `Channel.BufferedChannel.Recv` | lub4/lub4/buffered_channel.h:35-56 | once the buffer is non-empty or the channel is closed: a non-empty buffer yields `(head, true)` and loses exactly its head; an empty closed one yields `(T(), false)` and is unchanged |
| `Channel.BufferedChannel.Close` | lub4/lub4/buffered_channel.h:58-65 | sets `closed` and leaves the buffer as it was |
| `Channel.CapacityNormalised` | lub4/lub4/lub4.cpp:13 | a size ≤ 0 gives capacity 0, a positive size gives itself; a new channel is empty and open |
| `Channel.StepsKeepBound` | lub4/lub4/lub4.cpp:18-26 | every enabled step keeps `len(buf) ≤ cap` |
| `Channel.SendOpenAppends` | lub4/lub4/lub4.cpp:18-27 | on an open channel with room, `Send(v)` succeeds and the buffer becomes `buf + [v]` |
| `Channel.SendClosedFails` | lub4/lub4/lub4.cpp:22-24 | on a closed channel `Send` is enabled, fails with `ChannelClosed`, and leaves the state unchanged whatever the occupancy |
| `Channel.RecvTakesHead` | lub4/lub4/lub4.cpp:37-42 | on a non-empty buffer `Recv` returns `(buf[0], true)` and the new buffer is exactly the old one without its head |
| `Channel.RecvDrainedIsTerminal` | lub4/lub4/lub4.cpp:33-45 | on an empty closed channel `Recv` is enabled, returns `(T(), false)` and leaves the state unchanged |
| `Channel.RecvEnabledWhenOpen` | lub4/lub4/buffered_channel.h:39-41 | on an open channel `Recv` can proceed iff the buffer is non-empty |
| `Channel.CloseIdempotent` | lub4/lub4/lub4.cpp:48-54 | `Close` keeps buffer and capacity; closing twice gives the same state as closing once |
| `Channel.ZeroCapacityBlocksSend` | lub4/lub4/buffered_channel.h:19-21 | with capacity 0, `Send` is never enabled while the channel is open |
| `ChannelProperties.RunKeepsBound` | lub4/lub4/buffered_channel.h:19-29 | over any run of calls, `len(buf) ≤ cap` is kept, the capacity is constant and a closed channel stays closed |
| `ChannelProperties.RunConservesOrder` | lub4/lub4/buffered_channel.h:29-51 | over any run, initial buffer ++ accepted values == delivered values ++ final buffer (FIFO, nothing lost, nothing duplicated) |
| `ChannelProperties.NoLossNoDuplication` | lub4/lub4/main.cpp:33-69 | for producers and consumers interleaved in any order, starting and ending empty, the multiset delivered equals the multiset accepted |
| `ChannelProperties.ClosedAcceptsNothing` | lub4/lub4/buffered_channel.h:24-26 | from a closed channel no run accepts any value |
| `ChannelProperties.DrainedStaysDrained` | lub4/lub4/buffered_channel.h:39-55 | from a closed empty channel every run completes, leaves the state unchanged and delivers nothing |
| `ChannelProperties.EndOfStreamIsFinal` | lub4/lub4/buffered_channel.h:44-55 | in any run, after a `Recv` has returned `false` no later `Recv` returns `true` |
| `ChannelProperties.ZeroCapacityAcceptsNothing` | lub4/lub4/buffered_channel.h:13-26 | with capacity 0 no run ever accepts a value: each `Send` waits for `Close` and then fails |
| `ChannelProperties.SendAll` | lub4/lub4/lub4.cpp:26 | sending `vs` one by one on an open channel with room appends `vs` at the tail, all accepted |
| `ChannelProperties.RecvAll` | lub4/lub4/lub4.cpp:37-42 | len(buf) receives hand out the buffer in order, each with `true`, and empty it |
| `ChannelProperties.FifoRoundTrip` | lub4/lub4/main.cpp:9-14 | sending `vs` into an empty open channel that can hold them, then receiving `len(vs)` times, returns `vs` in order and restores the state |
| `ChannelProperties.DrainAfterClose` | lub4/lub4/buffered_channel.h:39-55 | after `Close`, the k buffered values come out with `true` and only the (k+1)-th `Recv` reports `false` |
| `ChannelProperties.SendSendRecvRecv` | lub4/lub4/main.cpp:8-18 | capacity 2, `Send(1); Send(2); Recv(); Recv()` gives `(1,true)`, `(2,true)` |
| `ChannelProperties.SendCloseRecvRecv` | lub4/lub4/main.cpp:21-31 | capacity 2, `Send(1); Close(); Recv(); Recv()` gives `(1,true)`, `(0,false)` |
| `ChannelProperties.ZeroCapacitySend` | lub4/lub4/buffered_channel.h:13-26 | capacity 0: `Send(5)` is not enabled before `Close` and fails after it |
| `Tiling.NumBlocksIsCeiling` | lub2ulti/lub2ulti/lub2ulti.cpp:108-110 | `(N + blockSize - 1) / blockSize` is `ceil(N / blockSize)`: the tiles reach N, the last one starts below N, and there are none iff N = 0 |
| `Tiling.TileEndAgree` | lub2/lub2/lub2.cpp:74-80 | the ternary, `std::min` and clip-after-`(block+1)*blockSize` end formulas all equal `min(start + blockSize, N)` |
| `Tiling.TileBounds` | lub2ulti/lub2ulti/lub2ulti.cpp:119-122 | every visited tile has `0 ≤ start < end ≤ N` |
| `Tiling.TileOfIndex` | matrix_linux/MatrixMultiple.cpp:83-86 | index i < N lies in tile b iff b = i / blockSize |
| `Tiling.TileOfIndexVisited` | matrix_linux/MatrixMultiple.cpp:73-75 | the tile i / blockSize of every index i < N is one the loops visit |
| `Tiling.TilesPartition` | lub2ulti/lub2ulti/lub2ulti.cpp:143-158 | every cell of `[0,N)×[0,N)` lies in a visited tile and in no other tile |
| `Matrix.MatrixMultiplier.constructor` | lub2ulti/lub2ulti/lub2ulti.cpp:82 | stores the matrix size N |
| `Matrix.MatrixMultiplier.MultiplySequential` | lub2ulti/lub2ulti/lub2ulti.cpp:84-99 | returns a new N×N matrix with `C[i][j] = Σ_{k<N} A[i][k]·B[k][j]` |
| `Matrix.MatrixMultiplier.ProcessBlock` | lub2ulti/lub2ulti/lub2ulti.cpp:65-79 | every cell of the tile gets its dot product and every other cell of C is unchanged |
| `Matrix.MatrixMultiplier.MultiplyTiled` | lub2ulti/lub2ulti/lub2ulti.cpp:101-165 | for every end rule and block size ≥ 1, the tiled result equals the product computed by `MultiplySequential`, using `ceil(N/blockSize)²` workers |
| `Matrix.MatrixMultiplier.AreMatricesEqual` | lub2ulti/lub2ulti/lub2ulti.cpp:206-216 | true iff the two N×N matrices agree in every cell |
| `Matrix.MatrixMultiplier.TestBlockSize` | matrix_linux/MatrixMultiple.cpp:197-217 | the run-time correctness check of the tiled result against the sequential one always succeeds |
| `Matrix.NextTile` | matrix_linux/MatrixMultiple.cpp:122-139 | handling tile (r, c) adds exactly that tile's cells to those already handled, in loop order |
| `Matrix.DotBound` | lub2/lub2/lub2.cpp:111-118 | with entries in 0..9, every partial dot-product sum lies in `[0, 81·m]` |
| `Matrix.BenchmarkSumsFitInt32` | matrix_linux/MatrixMultiple.cpp:164-175 | with entries in 0..9 and N ≤ 500, no partial sum leaves the 32-bit `int` range |
| `BlockSizes.BlockSizes` | lub2ulti/lub2ulti/lub2ulti.cpp:302-309 | the list built by the doubling loop and the final append equals `WithSize(size)`: the powers of two ≤ `size` in ascending order, then `size` unless it is already last (whose shape `WithSizeShape` proves) |
| `BlockSizes.WithSizeShape` | matrix_linux/MatrixMultiple.cpp:254-262 | the specified list ends with `size`, is strictly increasing, and holds exactly the powers of two ≤ `size` before its last entry |
| `BlockSizes.PowersComplete` | lub2/lub2/lub2.cpp:186-190 | every power of two 2^k ≤ `size` is in the list, at position k |

## Left out

- Threads, the mutex and the condition variables are not modelled:
  - each channel call is one atomic step, guarded by its wait predicate;
  - a call that would wait forever has no result;
  - `notify_one`/`notify_all` have no effect on the state.
- Fairness among waiting threads and thread interleavings inside one call are
  not modelled. Interleavings of whole calls are modelled: `Run` takes any
  sequence of calls.
- The exception thrown by `Send` is the result value `ChannelClosed`.
- `T()` is not expressible for an arbitrary `T`, so it is the value `zero`,
  given to the constructor.
- Move semantics of `std::move` are not modelled: values are copied.
- The OS threads of the matrix programs (`pthread`, `std::thread`,
  `_beginthreadex`, joins) are not modelled. Tiles are handled in the order
  the loops create their threads.
- A failed `pthread_create` or `_beginthreadex` leaves its tile at 0, and
  the code still joins the handle it never got
  (`lub2ulti/lub2ulti/lub2ulti.cpp:134-137,159-161`,
  `matrix_linux/MatrixMultiple.cpp:101-103`). A null handle makes
  `WaitForMultipleObjects` fail at once, so the function can return while
  other workers are still writing `C`; joining an unset `pthread_t` is
  undefined behaviour. The model assumes thread creation succeeds.
- `multiplyBlockWindows` (`lub2ulti/lub2ulti/lub2ulti.cpp:30-45`) is the same
  loop as `multiplyBlockPthread` and is covered by `ProcessBlock`.
- C++ `int` arithmetic is not modelled; all values are mathematical integers.
  `Matrix.BenchmarkSumsFitInt32` shows that the benchmark's inputs cannot
  overflow. Not modelled:
  - `blockSize *= 2` overflowing for sizes ≥ 2^30;
  - `numBlocksRows * numBlocksCols` overflowing.
- `Matrix.MatrixMultiplier.constructor` takes a `nat`. A negative `N` would
  make the `std::vector` constructors fail in C++.
- `fillMatrixRandom` (random input) is not modelled: `A` and `B` are
  arbitrary inputs of `TestBlockSize`.
- The following are not modelled:
  - timing with `std::chrono`;
  - the `double` speedup;
  - console output, locale setup and `getOSName`.
- The arithmetic wrapper and vector libraries (`vector_project/`,
  `lab1/VectorSystem/`) are not modelled. They are floating-point code and
  dynamic-library loading.
- The capacity-0 channel follows the code: `Send` waits until `Close` and then
  fails. No rendezvous between a sender and a receiver is modelled.
