# Streaming media processor: a verified model

The repository streams RGB video frames from a Go gateway to a processor that
filters them. This project models the parts where most can go wrong and proves
what they promise, for every input and every interleaving:

- the **image filters** in their rival forms: C++ with a memory arena (scalar and
  AVX2), C++ on the heap, and Go (`Convolution`, `GaussianKernel`, `Raster`,
  `Pixels`, `BlurSpec`, `BlurLoops`, `BlurRivals`, `StencilSpec`, `StencilLoops`,
  `Frames`);
- the **memory arena**: a bump allocator with blocks, alignment, reset and
  statistics (`Bits`, `ArenaModel`, `ArenaRuns`, `MemoryArenas`);
- the **C++ server**: the loop of one stream with its reset every ten frames, what its
  recycled buffers show, the atomic statistics shared by all streams, and the worker
  pool (`StreamArenas`, `StreamFits`, `Session`, `StaleBorders`, `SharedStats`,
  `ThreadPools`);
- the **gateway**: the frame splitter, the channel pipeline of a streaming request,
  the choice of a processor and the rate limiter (`Splitter`, `Pipeline`, `Gateway`,
  `ProcessorPools`, `RateLimiters`);
- **tokens and passwords**, with the text encodings under them (`Encodings`, `Tokens`).

`Common` and `Sums` hold shared vocabulary.

## How the model reads

Code that updates buffers, fields or counters in place is written as methods over
arrays and classes, each proved against a specification function; the theorems are
lemmas about those functions. Code whose difficulty is interleaving (goroutines over
channels, atomic counters, worker threads) is a step system: a state, the atomic steps
that are enabled in it, and lemmas over every legal run.

Idealisations:

- `float` is exact `real`; a cast to a byte is the floor; the gray weights are
  0.299, 0.587 and 0.114 exactly. The exponential is any function that is positive
  everywhere. Truncated square roots of Sobel sums are integer square roots.
- Frame dimensions are non-negative and `width * height * 3` fits a 32-bit int, as
  the C++ server computes it.
- `size_t` is 64 bits. Callers of `allocate` pass a positive alignment, and sizes and
  addresses stay below 2^63, so that no sum wraps. Block addresses come from an
  arbitrary `operator new` that never returns overlapping memory and may fail at any time.
- HMAC (section 2 of RFC 2104) and SHA-256 are arbitrary functions on bytes. Salts,
  clocks, client behaviour and the scheduler are inputs.

## Main results

1. **Four blurs, one picture.** The arena blur (scalar and AVX2), the heap blur and the
   Go blur all render the same frame, byte for byte: the truncation of the
   two-dimensional convolution with clamped edges. The kernel is a bell of the given
   radius, positive, symmetric, of sum one and odd size 3 to 31, so no value leaves the
   range of its window, the final clamp is idle, flat pictures are fixed and mirroring
   commutes.
2. **Where the processors really differ.** README.md:280 of the repository says that the
   two C++ modes differ only in the memory strategy. For blur and grayscale this is
   proved, as long as the heap finds memory for its vectors; the results below also
   assume that, or state it as part of their condition. For sharpen and edge detection
   the arena version leaves the one-pixel border of a recycled buffer as it was: the
   answers are equal if and only if that buffer already showed the border the heap
   version writes (`Frames.StaleBorderDiffers` is a frame where it does not). Heap and Go
   agree on everything except sharpen. There they agree if and only if the input border
   is black and either the intensity is positive or every inner sample is one that both
   leave alone; for the gateway, which never sets the intensity, that means 0, 255 or a
   quarter of the sum of the four neighbours (`Frames.UnsetIntensityDiffers` is a
   concrete frame).
3. **Arena safety.** Over every run, live ranges are disjoint, lie inside one block and
   are aligned; the books balance through resets, clears, moves and failed allocations.
   The peak is the maximum use along the lineage of what an arena holds. Move assignment
   overwrites it, so it bounds what the object itself has used if and only if every move
   brings a peak at least that high (`ArenaRuns.MoveLowersPeak`). The bit tricks compute
   the least multiple, and the power-of-two test is exact on positive values (it lets zero
   through).
4. **What reset reuses.** Only the front block. Repeating a batch after each reset gives
   the same addresses and no new block if and only if the batch fits the front block;
   otherwise every repetition appends a block and the bytes held grow without bound,
   although the bytes used do not.
5. **Stream contract.** Answers in order with matching ids, the exact number of resets and
   of counted frames for every way a stream can end, the exact final state of the arena,
   and a bound on its use. A stream crashes only at a frame one of whose own requests was
   refused; its first block alone keeps it from crashing if and only if each of its
   batches of ten fits that block, at the cost of its own filters. A stream whose batches
   do not fit, such as a blurred 640 x 480 one, holds 8 MB more after every ten frames
   while memory lasts; of 512 x 512 edge-detected frames, eight fill the block and the
   ninth does not fit.
   In a stream that fits and repeats its requests every ten frames, resets hand out the
   same buffers again: a sharpened or edge-detected frame is framed by the border of the
   picture ten frames earlier, or, if all were stencils, by the bytes the block held when
   the stream began.
6. **Statistics, pool, pipeline, routing, limiter.** The shared counters are exact under any
   interleaving, and end as if the streams had run one after the other; the worker pool
   is FIFO, runs each task at most once, drains, and once stopped cannot run on or get
   stuck; the pipeline conserves frames, so the HTTP response is always a prefix of the
   answers, its i-th block the i-th frame of the body under the filter asked for, with no
   bytes for what failed; round-robin is fair to within one, past the wrap of its
   counter if and only if the number of clients divides 2^64; the limiter refuses exactly
   when some window ending now is full.
7. **A clean stream may lose its last answers.** The receiver closes the error channel before
   the result channel, and the handler returns on either. A stream of n answered frames
   that ends cleanly can lose exactly its last k answers if and only if k is at most n and
   the 100 slots of the result channel.
8. **Tokens.** Verifying an issued token gives back the user if and only if the name has no
   colon and the expiry second has not passed; another manager accepts it if and only if,
   besides, its secret gives the text the same HMAC. The texts that parse, decode, verify
   or match a password are characterised exactly, with the verdict for each.

## Model

| member | source | states |
|---|---|---|
| Sums.SumSwap | processor-cpp/src/processing/image_processor.cpp:65-76 | nested sums over rows and columns of a window may be exchanged |
| Convolution.SeparableIsConv2D | processor-cpp/src/processing/image_processor.cpp:145-162 | at every sample of every channel, horizontal then vertical pass with clamped edges is the double sum over the square window |
| Convolution.PassesCommute | processor-cpp/src/processing/image_processor.cpp:71-75 | vertical then horizontal gives the same value before the cast |
| Convolution.BlurWithinWindow | processor-cpp/src/processing/image_processor.cpp:234-251 | for a positive kernel of sum one, a blurred sample lies between any bounds of the samples in its window |
| Convolution.ConstantIsFixed | processor-cpp/src/processing/image_processor.cpp:65-76 | a constant channel is a fixed point of the blur |
| Convolution.BlurCommutesWithMirror | processor-cpp/src/processing/image_processor.cpp:145-162 | blur commutes with left-right mirroring |
| Convolution.BlurCommutesWithFlip | processor-cpp/src/processing/image_processor.cpp:234-251 | blur commutes with top-bottom mirroring |
| Convolution.BlurCommutesWithTranspose | processor-cpp/src/processing/image_processor.cpp:65-76 | blur commutes with transposition |
| GaussianKernel.KernelSizeOddAndBounded | processor-cpp/src/processing/image_processor.cpp:38-39 | the size is odd, in 3..31, and between those limits covers six radii with less than two taps to spare |
| GaussianKernel.GaussianIsWeights | processor-cpp/src/processing/image_processor.cpp:19-34 | the kernel is positive, symmetric and sums to one |
| GaussianKernel.GaussianIsBell | processor-cpp/src/processing/image_processor.cpp:22-26 | any two taps are to each other as the exponentials of minus their squared distances from the centre over twice the squared sigma |
| GaussianKernel.GaussianFalls | processor-cpp/src/processing/image_processor.cpp:22-26 | for a strictly increasing exponential the taps fall strictly away from the centre |
| GaussianKernel.GenerateGaussianKernel | processor-cpp/src/processing/image_processor.cpp:19-34 | the two in-place loops leave the normalised Gaussian in the buffer: a bell, any two of its taps being to each other as exp(-d^2 / (2 sigma^2)) of their distances from the centre |
| Raster.OffsetInjective | processor-cpp/src/processing/image_processor.cpp:150-151 | no two samples share a position of the row-major buffer |
| Raster.OffsetInside | processor-cpp/src/processing/image_processor.cpp:157-160 | the three channels of every pixel lie inside the buffer |
| Raster.RendersUnique | processor-cpp/src/server/grpc_server.cpp:406-430 | buffers that render the same image are equal byte for byte |
| Pixels.ClampIdleInRange | processor-go/cmd/server/main.go:273-281 | on 0..255 the C++ and the Go conversions both just truncate |
| Pixels.ClampSaturates | processor-cpp/src/processing/image_processor.cpp:247-249 | below 0 and above 255 the nearest bound, inside the truncated value, in C++ and Go alike |
| Pixels.GrayBounds | processor-cpp/src/processing/image_processor.cpp:329-332 | gray lies between the least and the greatest of the three channels |
| Pixels.PureColours | processor-cpp/src/processing/image_processor.cpp:329-332 | full red is 76, full green 149, full blue 29 |
| BlurSpec.TwoPasses | processor-cpp/src/processing/image_processor.cpp:71-75 | rendering the second pass over a rendered first pass renders the blur |
| BlurSpec.BlurByteIsConvolution | processor-cpp/src/processing/image_processor.cpp:247-249 | an output byte is the truncated 2-D convolution, inside the byte range of its window: the clamp is idle |
| BlurSpec.BlurFrameMirrors | processor-cpp/src/processing/image_processor.cpp:145-162 | blurring a mirrored frame gives the mirrored bytes |
| BlurSpec.ConstantChannelIsFixed | processor-cpp/src/processing/image_processor.cpp:145-162 | a channel of one byte value keeps it exactly |
| BlurLoops.AddTaps | processor-cpp/src/processing/image_processor.cpp:129-135 | the scalar tap loop, from any partial sum, ends with the horizontal sum of all three channels |
| BlurLoops.ConvolveHorizontal | processor-cpp/src/processing/image_processor.cpp:145-162 | the scalar first pass fills the whole buffer with horizontal sums |
| BlurLoops.ConvolveVertical | processor-cpp/src/processing/image_processor.cpp:234-251 | the scalar second pass fills the whole buffer with clamped vertical sums |
| BlurLoops.BlockStep | processor-cpp/src/processing/image_processor.cpp:92-113 | one fused multiply-add on eight lanes adds exactly the next eight terms to the sum of the lanes |
| BlurLoops.HorizontalPixelAvx2 | processor-cpp/src/processing/image_processor.cpp:86-141 | eight lane accumulators plus the tail are the scalar sums, for every kernel size |
| BlurLoops.ConvolveHorizontalAvx2 | processor-cpp/src/processing/image_processor.cpp:84-142 | the AVX2 first pass renders the same image as the scalar one |
| BlurLoops.VerticalColumns | processor-cpp/src/processing/image_processor.cpp:174-205 | lane i of a vertical block carries the scalar sum of column x + i |
| BlurLoops.ConvolveVerticalAvx2 | processor-cpp/src/processing/image_processor.cpp:171-231 | blocks of eight columns plus the tail from width / 8 * 8 render every column as the scalar pass does |
| BlurRivals.ArenaGaussianBlur | processor-cpp/src/processing/image_processor.cpp:36-49 | arena blur, scalar or AVX2, renders the expected blur |
| BlurRivals.HeapGaussianBlur | processor-cpp/src/server/grpc_server.cpp:384-430 | heap blur renders the expected blur |
| BlurRivals.GoGaussianBlur | processor-go/cmd/server/main.go:72-161 | Go blur, with its length guards and own clamp, renders the expected blur |
| BlurRivals.GoRowSum | processor-go/cmd/server/main.go:101-118 | the guarded Go row loop never skips a tap |
| BlurRivals.HeapRowSum | processor-cpp/src/server/grpc_server.cpp:408-415 | the heap row loop gives the horizontal sum of any channel |
| BlurRivals.ExpectedBlurMeaning | processor-cpp/src/server/grpc_server.cpp:384-430 | for every radius the expected byte is the truncated 2-D convolution with a kernel of 3..31 taps that is positive, symmetric, of sum one and a bell of the given radius |
| StencilSpec.GrayscaleIdempotent | processor-cpp/src/processing/image_processor.cpp:324-337 | converting a gray picture again changes nothing |
| StencilLoops.GrayscaleShows | processor-cpp/src/processing/image_processor.cpp:324-337 | each channel of a gray pixel is 299 parts of the red, 587 of the green and 114 of the blue input byte in a thousand, truncated |
| StencilSpec.SharpenFixedPoints | processor-cpp/src/processing/image_processor.cpp:255-282 | intensity zero is the identity, and flat neighbourhoods are fixed at any intensity |
| StencilSpec.SobelBounds | processor-cpp/src/processing/image_processor.cpp:305-314 | both gradients lie in -1020..1020, their squares sum below 2^31, and the result is the truncated root cut off at 255 |
| StencilSpec.GradientSymmetries | processor-cpp/src/processing/image_processor.cpp:286-287 | mirroring negates the horizontal gradient, transposing swaps the two |
| StencilSpec.GradientsAreSmoothedDifferences | processor-cpp/src/processing/image_processor.cpp:286-287 | each gradient is the difference across the centre, smoothed 1 : 2 : 1 along it |
| StencilSpec.GradientsOfOnePixel | processor-cpp/src/processing/image_processor.cpp:303-312 | a single bright pixel gives twice its value along an axis, once at a corner, nothing on itself, with the sign of its side |
| StencilSpec.EdgeCommutesWithMirror | processor-cpp/src/processing/image_processor.cpp:303-321 | interior edges of a mirrored frame are the mirrored edges |
| StencilSpec.EdgeCommutesWithTranspose | processor-cpp/src/processing/image_processor.cpp:303-321 | interior edges of a transposed frame are the transposed edges |
| StencilLoops.Grayscale | processor-cpp/src/processing/image_processor.cpp:324-337 | the in-place loop renders the gray image: every output byte o satisfies 1000 o <= 299 r + 587 g + 114 b < 1000 (o + 1) |
| StencilLoops.GoGrayscale | processor-go/cmd/server/main.go:164-179 | the Go loop renders the same gray image, with the same bounds on every byte |
| StencilLoops.GrayBuffer | processor-cpp/src/processing/image_processor.cpp:293-300 | the separate buffer holds, for every pixel, the byte within those bounds |
| StencilLoops.SharpenSumIsStencil | processor-cpp/src/processing/image_processor.cpp:257-276 | the nine table products are the five-point stencil |
| StencilLoops.SharpenSample | processor-cpp/src/processing/image_processor.cpp:270-278 | the two nested loops compute the clamped stencil |
| StencilLoops.ArenaSharpen | processor-cpp/src/processing/image_processor.cpp:255-282 | interior sharpened, every border byte of the buffer unchanged |
| StencilLoops.HeapSharpen | processor-cpp/src/server/grpc_server.cpp:326-350 | interior sharpened, border copied from the input |
| StencilLoops.GoSharpen | processor-go/cmd/server/main.go:182-210 | interior sharpened, border zero |
| StencilLoops.ProductsAreGradients | processor-cpp/src/processing/image_processor.cpp:286-311 | the nine products with each Sobel table are the two gradients |
| StencilLoops.SobelSample | processor-cpp/src/processing/image_processor.cpp:305-314 | the loops compute the edge magnitude |
| StencilLoops.ArenaEdgeDetect | processor-cpp/src/processing/image_processor.cpp:284-322 | interior edges, every border byte of the buffer unchanged |
| StencilLoops.HeapEdgeDetect | processor-cpp/src/server/grpc_server.cpp:352-382 | interior edges, border zero |
| StencilLoops.GoEdgeDetect | processor-go/cmd/server/main.go:213-253 | interior edges, border zero |
| Frames.ApplyFilterArena | processor-cpp/src/server/grpc_server.cpp:174-215 | parameter defaults and filter choice of the arena path, for every chunk |
| Frames.ApplyFilterHeap | processor-cpp/src/server/grpc_server.cpp:303-431 | parameter defaults and filter choice of the heap path; it throws exactly when one of the filter's own vectors cannot be had |
| Frames.ProcessChunkHeap | processor-cpp/src/server/grpc_server.cpp:245-301 | type and size rejections, a failure reply exactly when an accepted frame lacks memory for one of its vectors, else the heap image, with the chunk's id |
| Frames.HeapReplyKind | processor-cpp/src/server/grpc_server.cpp:252-286 | a heap answer succeeds exactly for accepted chunks whose vectors were all granted, and reports lack of memory exactly for the other accepted ones |
| Frames.ProcessChunkGo | processor-go/cmd/server/main.go:317-393 | type and size rejections, else the Go image, with the chunk's id |
| Frames.AnswersByFilter | processor-cpp/src/server/grpc_server.cpp:174-215 | sample by sample, what each processor shows for the parameters as sent: radius 5 when none is given, blur when the filter is unspecified, its own intensity and its own border |
| Frames.SameOutcomeKind | processor-cpp/src/server/grpc_server.cpp:153-169 | all processors accept and reject the same chunks |
| Frames.ProcessorsAgree | README.md:280 | blur and grayscale answers of arena and Go are equal, and the heap answer equals them exactly when the chunk is rejected or all its vectors could be had; on edges heap and Go agree under the same condition |
| Frames.ArenaMatchesHeapIff | processor-cpp/src/server/grpc_server.cpp:333-363 | sharpen and edge answers of arena and heap are equal exactly when the heap had its vectors and the recycled buffer showed the heap version's border |
| Frames.StaleBorderDiffers | processor-cpp/src/server/grpc_server.cpp:363 | a black one-pixel frame in a buffer of sevens: its edges are sevens from the arena, black from the heap |
| Frames.ArenaInteriorAndBorder | processor-cpp/src/processing/image_processor.cpp:267-281 | in any case the interiors agree and the arena border is the buffer's old one |
| Frames.OverEqualIff | processor-cpp/src/server/grpc_server.cpp:333-348 | frames with the same interior are equal exactly when their borders are |
| Frames.IntensitiesAgreeIff | processor-go/cmd/server/main.go:344-353 | the servers use the same intensity exactly when none was sent or it is positive |
| Frames.HeapMatchesGoIff | processor-go/cmd/server/main.go:182-210 | for every intensity: heap and Go sharpen alike exactly when the heap had its vector, the input border is black and, unless the intensity is positive, every inner sample is one that both leave alone |
| Frames.SharpenedSample | processor-cpp/src/server/grpc_server.cpp:328-347 | a sharpened sample is the sample raised by intensity times four times itself less its neighbours, clamped |
| Frames.GatewayFramesAgreeIff | gateway/internal/http/handlers.go:390-393 | for the frames the gateway sends, whose intensity is never set: alike exactly when the heap had its vector, the border is black and every inner sample is 0, 255 or a quarter of the sum of its four neighbours |
| Frames.UnsetIntensityDiffers | processor-cpp/src/server/grpc_server.cpp:327 | one bright pixel with unset intensity: kept by the C++ server, saturated by the Go one |
| Bits.AlignUpIsLeastMultiple | processor-cpp/src/arena/memory_arena.hpp:111-113 | the mask form is the least multiple of a power of two not below the value, so padding is below the alignment |
| Bits.AlignUpIsRoundUp | processor-cpp/src/arena/memory_arena.hpp:111-113 | the mask form refines the arithmetic definition used by the allocator's specification |
| Bits.AndHighMask | processor-cpp/src/arena/memory_arena.hpp:112 | masking with the complement clears exactly the low digits |
| Bits.PowerTestExact | processor-cpp/src/arena/memory_arena.cpp:55-58 | among positive values the test accepts exactly the powers of two |
| Bits.PowerTestLetsZeroThrough | processor-cpp/src/arena/memory_arena.cpp:55-58 | zero passes the test, is no power of two, and aligns every address to zero |
| ArenaModel.FreshBlockFits | processor-cpp/src/arena/memory_arena.cpp:83-92 | the slow path always fits its fresh block |
| ArenaModel.AllocateValid | processor-cpp/src/arena/memory_arena.cpp:50-103 | every allocation keeps blocks disjoint and both byte counters equal to their sums, also on bad_alloc |
| ArenaModel.AllocateCost | processor-cpp/src/arena/memory_arena.cpp:68-102 | a call charges size plus padding below the alignment, moves the peak with use, and fails only for size zero or bad_alloc, changing nothing |
| ArenaModel.ResetValid | processor-cpp/src/arena/memory_arena.cpp:105-120 | reset keeps the invariant |
| ArenaModel.ClearValid | processor-cpp/src/arena/memory_arena.cpp:122-129 | clear and being moved from keep the invariant |
| ArenaRuns.BumpKeepsLive | processor-cpp/src/arena/memory_arena.cpp:62-79 | a new range starts above every live range of its block |
| ArenaRuns.LiveRangesDisjoint | processor-cpp/src/arena/memory_arena.cpp:50-129 | over every run the ranges handed out since the last reset or clear are pairwise disjoint, inside used memory of one block, and aligned |
| ArenaRuns.LiveAllocationsAreSafe | processor-cpp/src/arena/memory_arena.cpp:8-12 | the same from construction on, with the requested alignment for powers of two and 16 otherwise |
| ArenaRuns.PeakIsMaximum | processor-cpp/src/arena/memory_arena.cpp:73-77 | over every run without moves the peak bounds the bytes used after every prefix and was reached by one of them |
| ArenaRuns.CallsAreCounted | processor-cpp/src/arena/memory_arena.cpp:68-120 | from construction on, the allocation count is the number of addresses handed out and the reset count the number of resets |
| ArenaRuns.BatchInFront | processor-cpp/src/arena/memory_arena.cpp:105-120 | a batch that fits the front block lands at addresses fixed by block and requests and adds no block |
| ArenaRuns.BatchAfterReset | processor-cpp/src/arena/memory_arena.cpp:114-116 | after a reset the other old blocks stay empty and the current block is the front one or a new one |
| ArenaRuns.BatchOverflows | processor-cpp/src/arena/memory_arena.cpp:83-86 | a batch that does not fit the front block appends a block |
| ArenaRuns.FittingReplaysAreFree | processor-cpp/src/arena/memory_arena.cpp:79-84 | any number of replays of a fitting batch gives the same addresses and allocates nothing |
| ArenaRuns.OverflowingReplaysGrow | processor-cpp/src/arena/memory_arena.cpp:84-85 | each replay of an overflowing batch adds a block and at least a block size of held bytes |
| ArenaRuns.ReplaysFreeIffFits | processor-cpp/src/arena/memory_arena.cpp:105-120 | replays add no block exactly when the batch fits the front block |
| ArenaRuns.FitsBySize | processor-cpp/src/arena/memory_arena.cpp:64-68 | sizes beyond the room never fit; sizes that leave an alignment's room per request always do |
| ArenaRuns.AccountingOverRuns | processor-cpp/src/arena/memory_arena.cpp:14-44 | over every run of allocations, resets, clears and moves of two arenas both sets of books balance |
| ArenaRuns.PeakIsMaximumOfLineage | processor-cpp/src/arena/memory_arena.cpp:14-44 | over every run of two arenas, moves included, each peak is the maximum of the used bytes along the lineage of what the arena now holds |
| ArenaRuns.PeakBoundsOwnUseIff | processor-cpp/src/arena/memory_arena.cpp:28-44 | throughout a run each peak bounds what its own object has ever used exactly when every move brings a peak at least as high as anything its target has used |
| ArenaRuns.MoveLowersPeak | processor-cpp/src/arena/memory_arena.cpp:37 | an arena that used 100 bytes and is then assigned an unused one reports a peak of zero |
| MemoryArenas.MemoryArena.constructor | processor-cpp/src/arena/memory_arena.cpp:8-12 | the first block is allocated at once |
| MemoryArenas.MemoryArena.MoveFrom | processor-cpp/src/arena/memory_arena.cpp:14-26 | the new arena is the old one; the old one is empty, keeping its call counts and peak |
| MemoryArenas.MemoryArena.MoveAssign | processor-cpp/src/arena/memory_arena.cpp:28-44 | as move construction; a self-move changes nothing |
| MemoryArenas.MemoryArena.AllocateBlock | processor-cpp/src/arena/memory_arena.cpp:131-144 | appends a current block, or changes nothing on bad_alloc |
| MemoryArenas.MemoryArena.Allocate | processor-cpp/src/arena/memory_arena.cpp:50-103 | the in-place method with its bit tricks refines the arithmetic specification, state and address |
| MemoryArenas.MemoryArena.Reset | processor-cpp/src/arena/memory_arena.cpp:105-120 | the loop empties every block, the front one becomes current, the count rises |
| MemoryArenas.MemoryArena.Clear | processor-cpp/src/arena/memory_arena.cpp:122-129 | no block is left, peak and call counts stay |
| StreamArenas.RefusedIff | processor-cpp/src/arena/memory_arena.cpp:84-86 | a frame meets a null pointer exactly when one of its own requests finds no room in the current block and operator new refuses the block it asks for |
| StreamArenas.FrameNeeds | processor-cpp/src/processing/image_processor.cpp:36-69 | the bytes a frame asks for, by filter: 3 a pixel for sharpen and grayscale, 4 for edges, 15 and the kernel for blurs |
| StreamArenas.HeapNeedsTheSame | processor-cpp/src/server/grpc_server.cpp:352-395 | the heap path takes as many vectors, of the same sizes |
| StreamArenas.GrantedIsCharged | processor-cpp/src/arena/memory_arena.cpp:68-79 | requests that were all granted raise the bytes used by at least the sum of their sizes |
| StreamArenas.RequestsCost | processor-cpp/src/processing/image_processor.cpp:42-69 | a frame asks for at most 15 bytes a pixel, the kernel and padding |
| StreamArenas.GrantAllCost | processor-cpp/src/arena/memory_arena.cpp:68-102 | a list of requests costs at most its sizes and padding, and moves the peak with use |
| StreamArenas.ArenaWithinBudget | processor-cpp/src/server/grpc_server.cpp:117-123 | before every frame the arena has been reset once per ten frames and holds at most what the open batch may cost; its peak never exceeds ten frames' cost |
| StreamFits.NeverStarvesIff | processor-cpp/src/arena/memory_arena.cpp:60-86 | a stream is safe from null pointers on the strength of its first block alone, whoever operator new is, exactly when each of its batches fits that block |
| StreamFits.SmallFramesNeverStarve | processor-cpp/src/server/grpc_server.cpp:79 | when the requests of every batch fit 8 MB at their own cost and the first block was granted, a stream of any length takes no further memory and meets no null pointer |
| StreamFits.CheapByPixels | processor-cpp/src/server/grpc_server.cpp:79-82 | frames of which ten fit 8 MB at the cost of a blur are such streams, whatever their filters |
| StreamFits.FittingStreamKeepsOneBlock | processor-cpp/src/arena/memory_arena.cpp:105-120 | a stream whose batches fit holds exactly its first block at all times |
| StreamFits.OverflowingStreamGrows | processor-cpp/src/arena/memory_arena.cpp:84-85 | when no batch fits and no request is refused, every ten frames add at least 8 MB to what the arena holds |
| StreamFits.DefaultBlurStreamGrows | gateway/internal/http/handlers.go:332-337 | so does every blurred stream of the gateway's default size, 640 x 480 |
| StreamFits.MebibyteEdgesOverflow | processor-cpp/src/processing/image_processor.cpp:290-300 | of 512 x 512 edge-detected frames eight fill the 8 MB block and the ninth finds no room, so such a stream is not safe on its first block alone |
| Session.AllocateArray | processor-cpp/src/arena/memory_arena.hpp:73-77 | the in-place allocation is the specification's grant for this request, state and address |
| Session.AllocateScratch | processor-cpp/src/processing/image_processor.cpp:42-69 | the filter takes exactly its own buffers, in order, and reports a null pointer exactly when one of them was refused |
| Session.ProcessChunkArena | processor-cpp/src/server/grpc_server.cpp:144-243 | rejections, the arena state after the frame's requests, a crash exactly when one of them was refused, else the rendered answer; a granted frame takes at least 3, 4 or 15 bytes a pixel, with the kernel for blurs; the counters of one arena frame |
| Session.ProcessTurnHeap | processor-cpp/src/server/grpc_server.cpp:245-301 | the answer or failure reply and the counters of one heap frame, with the exact vectors and bytes it counts |
| Session.CountedByFilter | processor-cpp/src/server/grpc_server.cpp:252-301 | which vectors reach the heap counters, by filter and by which of them found memory |
| Session.ModeDecides | processor-cpp/src/server/grpc_server.cpp:69-75 | "heap" and "no_arena" select the heap's counters; anything else, or no mode, the arena's |
| Session.ServeTurn | processor-cpp/src/server/grpc_server.cpp:98-109 | one frame in either mode: the arena state, a crash exactly when a request was refused, the peak published |
| Session.FilterIntoBuffer | processor-cpp/src/server/grpc_server.cpp:190-219 | the filter writes, over whatever the recycled output buffer held, exactly the frame the mode promises |
| Session.ServeNext | processor-cpp/src/server/grpc_server.cpp:84-110 | serving turn n takes arena and counters from their state before it to their state after it, or crashes exactly when that turn is starved |
| Session.CloseBatch | processor-cpp/src/server/grpc_server.cpp:120-134 | a full or last batch resets the arena and counts one reset |
| Session.Leave | processor-cpp/src/server/grpc_server.cpp:86-92 | the stream stops counting its arena and, cut short, counts one reset of an arena it does not reset |
| Session.ResetsAt | processor-cpp/src/server/grpc_server.cpp:82-134 | a reset every ten frames adds up to n/10 inside the stream, n/10 + 1 when cut short and ceil(n/10) at a clean end |
| Session.ProcessMediaStream | processor-cpp/src/server/grpc_server.cpp:65-142 | n frames to a clean end give n answers in order and ceil(n/10) resets, cancel or write failure after n answers n/10 + 1; the counters of the stream's mode grow by the processed frames, served but unwritten ones included, the other mode's stay; active arenas return to their number, the published peak is the maximum; the arena ends in exactly the specified state; a crash happens only at a frame one of whose requests was refused, and every frame served before met no refusal |
| Session.EndingWithinBudget | processor-cpp/src/server/grpc_server.cpp:75-142 | however the stream ends, its arena holds at most ten frames' cost and has been reset by full batches and a clean end only |
| Session.RepliesEchoSequenceIds | processor-cpp/src/server/grpc_server.cpp:150 | answers carry the ids of their frames; they succeed exactly for accepted frames, less those whose heap vectors could not be had |
| StaleBorders.PositionsRepeat | processor-cpp/src/server/grpc_server.cpp:119-123 | when batches fit the first block and repeat their requests, every frame finds that block as the frame ten earlier did |
| StaleBorders.NobodyElse | processor-cpp/src/arena/memory_arena.cpp:62-72 | nothing is cut from the place of a frame until the frame ten later |
| StaleBorders.BorderReturns | processor-cpp/src/processing/image_processor.cpp:267-281 | a sharpened or edge-detected frame of such a stream shows on its border what the answer ten frames earlier showed there, whatever filter that was |
| StaleBorders.GrayShowsThrough | processor-cpp/src/processing/image_processor.cpp:324-337 | ten frames after a grayscale one of its size, the border of a sharpened frame is the gray of that frame |
| StaleBorders.BordersShowOldMemory | processor-cpp/src/processing/image_processor.cpp:267-322 | if all the frames that had a buffer were stencils of one size, its border shows the bytes the arena's block held when the stream began, however long ago |
| SharedStats.StepKeepsInv | processor-cpp/src/server/grpc_server.cpp:80-109 | every atomic operation keeps the counters' invariant and never lowers the peak |
| SharedStats.CountersAreExact | processor-cpp/src/server/grpc_server.cpp:222-223 | in every interleaving active arenas is the number of open arena streams and total frames is arena plus heap plus those between their two increments |
| SharedStats.QuietPeakIsMaximum | processor-cpp/src/server/grpc_server.cpp:105-108 | with no compare-exchange loop in progress the peak is the maximum ever published |
| SharedStats.LoopEndsAlone | processor-cpp/src/server/grpc_server.cpp:105-108 | a session left alone leaves its loop after at most two tries that do not fail spuriously, with the peak at the maximum; after any one try, writing nothing, if its value is not above the peak it has seen |
| SharedStats.AllClosed | processor-cpp/src/server/grpc_server.cpp:137-140 | when all streams have ended no arena is counted and every frame has its mode |
| SharedStats.StreamsAddUp | processor-cpp/src/server/grpc_server.cpp:80-142 | in every interleaving, once all streams have closed, the counters are what the same streams leave one after the other, each adding what the contract of a single stream says |
| ThreadPools.StepKeepsInv | processor-cpp/src/server/grpc_server.cpp:16-28 | no step loses, duplicates or reorders a task |
| ThreadPools.FifoAtMostOnce | processor-cpp/src/server/grpc_server.cpp:24-27 | in every run tasks are taken in the order enqueued and each is run at most once |
| ThreadPools.DrainedOnExit | processor-cpp/src/server/grpc_server.cpp:37-45 | when all workers of a non-empty pool have exited, everything enqueued before the stop has run exactly once |
| ThreadPools.ShutdownEnds | processor-cpp/src/server/grpc_server.cpp:16-45 | after the stop the workers can take at most 2 steps for each queued task and worker, and they are stuck exactly when all have exited, so joining them returns |
| ThreadPools.ThreadPool.Enqueue | processor-cpp/src/server/grpc_server.hpp:29-36 | appends one task |
| ThreadPools.ThreadPool.Wake | processor-cpp/src/server/grpc_server.cpp:19-26 | a woken worker exits only when stopped with nothing queued, else takes the front task |
| ThreadPools.ThreadPool.SetStop | processor-cpp/src/server/grpc_server.cpp:37-39 | sets the flag and leaves the queue alone |
| Splitter.ChopExact | gateway/internal/http/handlers.go:365-394 | the frames concatenate to the body without its incomplete tail, each of full size |
| Splitter.SplitFrames | gateway/internal/http/handlers.go:357-402 | the loop with its reused buffer yields exactly those frames, ids counting from one |
| Pipeline.StepKeepsInv | gateway/internal/grpc/client.go:60-107 | every step of every goroutine keeps order, conservation and the channel bounds |
| Pipeline.PipelineIsFifo | gateway/internal/grpc/client.go:56-110 | in every interleaving the stages hold exactly the frames read, in order; channels hold at most 10 and 100; the response is the answers to a prefix, no longer than the server answered |
| Pipeline.ChunkChannelFills | gateway/internal/http/handlers.go:350 | the chunk channel can hold ten frames |
| Pipeline.FailureIsReportedOnce | gateway/internal/grpc/client.go:56-110 | until the handler looks, the error channel holds the one failure there has been, if any; the context is cancelled exactly when the client has gone or the handler has returned |
| Pipeline.FailedOpenReachesWriter | gateway/internal/grpc/client.go:65-69 | a stream that cannot be opened can end the response while both channels are still open |
| Pipeline.BrokenStreamReachesWriter | gateway/internal/grpc/client.go:90-93 | so can a stream that breaks |
| Pipeline.NothingAfterALoss | gateway/internal/grpc/client.go:95-100 | after a dropped answer no further answer is delivered |
| Pipeline.SplitterCanLose | gateway/internal/http/handlers.go:397-401 | a run in which the splitter drops the first frame on cancellation |
| Pipeline.SenderCanLose | gateway/internal/grpc/client.go:74-79 | a run in which a failed send drops it |
| Pipeline.ReceiverCanLose | gateway/internal/grpc/client.go:95-100 | a run in which the receiver drops its answer on cancellation |
| Pipeline.CleanStreamDelivery | gateway/internal/http/handlers.go:409-426 | after a clean end the response lacks exactly what is left in the result channel, at most its 100 slots, and nothing when the writer saw that channel closed |
| Pipeline.CleanStreamCanDeliverAll | gateway/internal/http/handlers.go:409-426 | every stream whose frames are all answered has a legal run that delivers them all without an error |
| Pipeline.CleanStreamMayDropAnswers | gateway/internal/grpc/client.go:61-62 | for any number of frames, all answered, and any k up to it and to 100, a legal run that ends cleanly and never writes the last k answers |
| Pipeline.CleanStreamMayLoseIff | gateway/internal/http/handlers.go:420-424 | a stream of n frames can have all answered, end cleanly and lose exactly k answers if and only if the server answers n and k is at most n and 100 |
| Pipeline.CleanStreamDeliversAllIff | gateway/internal/http/handlers.go:420-424 | with a server that answers every frame, a clean stream is certain to deliver everything if and only if it has no frames |
| Gateway.ResponseIsPrefixOfAnswers | gateway/internal/http/handlers.go:314-427 | the response bytes are the answers to the first k frames of the body, whole and in order |
| Gateway.BlocksAligned | gateway/internal/http/handlers.go:416 | answers of one size stand in the response at its multiples |
| Gateway.ResponseShowsFrames | gateway/internal/http/handlers.go:357-427 | the response holds no more answers than the processor gave; if those that reach it are correct for the frames cut from the body, it has k frame sizes and its i-th block renders the i-th body frame |
| Gateway.RequestIsServed | processor-cpp/src/server/grpc_server.cpp:84-115 | the same for one stream of the C++ server in either mode, when no answer that reaches the response reports lack of memory: the i-th block is the image promised for the i-th frame of the body |
| Gateway.RequestIsFiltered | gateway/internal/http/handlers.go:357-427 | in terms of the filter the client asked for, in either mode of the C++ server: block i of the response is the luminance of body frame i, its blur with the radius asked for or 5, its edges inside the border or, for sharpen, the frame itself inside the border |
| Gateway.ResponseIsCounted | gateway/internal/http/handlers.go:409-418 | whatever fails leaves no bytes: the response is one frame size long for each frame, among those it answers, that the server counts as processed |
| ProcessorPools.SelectionInvariant | gateway/internal/grpc/client.go:181-262 | in every interleaving of Get, SetSticky and Close the sticky index stays in range and the counter's picks are the residues of consecutive values of a wrapping counter |
| ProcessorPools.PinnedPicks | gateway/internal/grpc/client.go:181-192 | a pinned pick is an index some SetSticky asked for and the pool has |
| ProcessorPools.StickyReceivesEveryCall | gateway/internal/grpc/client.go:181-195 | while nobody changes the pin or closes the pool, every new call goes to the pinned client |
| ProcessorPools.RoundRobinIsFair | gateway/internal/grpc/client.go:193-194 | without counter wrap any m consecutive picks give each of n clients m/n of them, rounded down or up, exactly k for m = k n |
| ProcessorPools.UnfairAtWrap | gateway/internal/grpc/client.go:193-194 | when the client count does not divide 2^64, one client is picked twice in one round of picks across the wrap |
| ProcessorPools.WrapKeepsRotationIff | gateway/internal/grpc/client.go:193-194 | every window of every run of any length is fair exactly when the client count divides 2^64 |
| ProcessorPools.ProcessorPool.Get | gateway/internal/grpc/client.go:181-195 | a set sticky index receives the call, else the next residue does; an empty pool is an error |
| ProcessorPools.ProcessorPool.SetSticky | gateway/internal/grpc/client.go:234-247 | negative clears, past the end is refused, else pinned |
| ProcessorPools.ProcessorPool.Close | gateway/internal/grpc/client.go:250-262 | the pool becomes empty |
| RateLimiters.TokensConserved | gateway/internal/metrics/metrics.go:144-158 | tokens are the burst plus accepted refills less allowed requests |
| RateLimiters.TokensAreLeastSlack | gateway/internal/metrics/metrics.go:138-172 | the bucket holds the least slack of all windows ending now |
| RateLimiters.WindowBound | gateway/internal/metrics/metrics.go:165-172 | no window allows more than the burst plus its ticks |
| RateLimiters.RefusedIffWindowFull | gateway/internal/metrics/metrics.go:165-172 | a request is refused exactly when some window ending now is full |
| RateLimiters.IdleRefills | gateway/internal/metrics/metrics.go:153-158 | n idle ticks add n tokens up to the burst |
| RateLimiters.RateLimiter.constructor | gateway/internal/metrics/metrics.go:138-146 | the loop fills the bucket |
| RateLimiters.RateLimiter.Refill | gateway/internal/metrics/metrics.go:153-158 | a tick adds a token unless full |
| RateLimiters.RateLimiter.Allow | gateway/internal/metrics/metrics.go:165-172 | allows exactly when a token is there, and takes it |
| Encodings.JoinSplit | gateway/internal/auth/token.go:46-50 | joining what was split gives the text back |
| Encodings.SplitCount | gateway/internal/auth/token.go:46-49 | splitting gives one part more than there are separators |
| Encodings.IntRoundTrip | gateway/internal/auth/token.go:54-61 | every 64-bit integer is read back from its decimal form, which has no colon |
| Encodings.DecimalIsOrdinary | gateway/internal/auth/token.go:35 | most significant digit first, a minus sign for negative numbers, no plus and no leading zero |
| Encodings.ParseIntIff | gateway/internal/auth/token.go:54-61 | a text parses to a 64-bit integer exactly when it is its decimal form after an optional sign and zeros |
| Encodings.HexRoundTrip | gateway/internal/auth/token.go:79-91 | hex (section 8 of RFC 4648) decodes to what was encoded and has no colon |
| Encodings.HexIsLowerCase | gateway/internal/auth/token.go:113-117 | two digits a byte, the high half first, in lower case |
| Encodings.HexDecodeIff | gateway/internal/auth/token.go:87-94 | a text decodes to exactly the bytes whose hex form it is in either case |
| Encodings.Base64RoundTrip | gateway/internal/auth/token.go:37-42 | unpadded base64url (section 5 of RFC 4648) decodes to what was encoded |
| Encodings.LettersInOrder | gateway/internal/auth/token.go:37 | the letters of the URL-safe alphabet, in order |
| Encodings.Rfc4648Vectors | gateway/internal/auth/token.go:37 | test vectors of section 10 of RFC 4648 |
| Encodings.Decode64Iff | gateway/internal/auth/token.go:42 | a text without line breaks decodes to exactly the bytes whose encoding it is, but for the unused low bits of a last letter |
| Encodings.NewlinesIgnored | gateway/internal/auth/token.go:42 | a line break anywhere changes nothing |
| Tokens.IssueVerify | gateway/internal/auth/token.go:33-66 | an issued token is accepted for its user exactly when the name has no colon and the expiry second has not passed, with the verdict for each failure |
| Tokens.IssuedText | gateway/internal/auth/token.go:33-39 | a token encodes id, colon, name, colon, expiry second, colon and the hex HMAC of what precedes under the issuer's secret |
| Tokens.IssueVerifyAcross | gateway/internal/auth/token.go:41-66 | a token for a colon-free name is accepted by another manager exactly when both secrets give its text the same HMAC and it has not expired; a different HMAC is an invalid signature |
| Tokens.VerdictOfFields | gateway/internal/auth/token.go:46-65 | the verdict on every text of four fields, in the order signature, expiration, expiry, id |
| Tokens.VerdictOfOthers | gateway/internal/auth/token.go:42-49 | an invalid encoding exactly when the text does not decode, an invalid token exactly when it has not three colons |
| Tokens.AcceptedIsSigned | gateway/internal/auth/token.go:41-66 | a token is accepted for a user exactly when it decodes to a text of three fields that say so, a colon and the hex HMAC of that text under the manager's own secret |
| Tokens.PayloadInjective | gateway/internal/auth/token.go:35 | id, name and expiry are recovered uniquely from the payload, colons or not |
| Tokens.PasswordDigest | gateway/internal/auth/token.go:99-111 | the loop computes 10000 salted rounds over the hash of salt and password: the end of a chain of 10001 hashes |
| Tokens.DigestIsStretched | gateway/internal/auth/token.go:99-111 | the digest is exactly what ends such a chain |
| Tokens.HashPassword | gateway/internal/auth/token.go:73-80 | salt and digest in hex, or the random source's failure |
| Tokens.CheckPassword | gateway/internal/auth/token.go:82-97 | malformed hashes are refused; otherwise digests are compared |
| Tokens.HashCheck | gateway/internal/auth/token.go:82-97 | a stored hash accepts a password exactly when its digest under the stored salt is the same, so always its own |
| Tokens.StoredHash | gateway/internal/auth/token.go:73-97 | what is stored is the hex salt, a colon and the hex digest; an attempt passes exactly when it stretches to the same digest |
| Tokens.ChecksIff | gateway/internal/auth/token.go:82-97 | a stored text accepts a password exactly when it is, in either case, the hex of some salt, a colon and the hex of what the password stretches to under it |

## Left out

- Floating-point rounding, fused multiply-add differences and overflow of a huge radius: the model computes over exact reals, so bit-exact equality of float results is not claimed.
- Negative dimensions, and products of dimensions beyond 32 bits: excluded by the types and by `FitsInt`.
- `multiply_add_f32` and `clamp_f32_to_u8`: the server does not call them, and their blocks of eight are those of the passes.
- Buffer reuse by `sync.Pool` in the Go processor and gateway: buffers start fresh in the model; the splitter's buffer is reused within a request.
- The text of error messages, which differs between the servers: rejections are compared by kind.
- Filter codes outside the enumeration: they take the same branch as the unspecified filter.
- The arena's mutex and its inner compare-exchange on the peak: under the mutex the loop runs once, so methods are atomic.
- Allocations that wrap `size + alignment`, and alignment zero beyond what `Bits.PowerTestLetsZeroThrough` says: the allocator's callers never do this.
- The vector a move assignment leaves in its source is taken to be empty, as every standard library leaves it.
- The pointer to the current block is its index in the block list: aliasing of blocks is not modelled.
- A stream whose arena runs out of memory writes through a null pointer: the model ends it with `Crashed`, one arena still counted as active; what the operating system does with the process is not modelled.
- `bad_alloc` outside the arena's blocks and the vectors of the heap path (the reply's own string, the block list), and running out of memory in the Go processor, which ends it.
- What a filter leaves in its scratch buffers: `StaleBorders` lets a turn write anything where it was handed memory.
- Processing-time counters, frame rates, `GetStats` rendering and console output.
- Goroutines, atomics and worker threads are steps on values or single-step methods, not Dafny threads; fairness of the scheduler, hence that an enabled step eventually happens, is not claimed.
- Exceptions thrown by pool tasks.
- ThreadPools.ThreadPool.Wake: models a wake-up whose wait condition already holds; spurious wake-ups change nothing and are not steps.
- Requests larger than the gateway's 640 x 480 read buffer, and its HTTP, WebSocket and JSON handling.
- `ProcessSingleChunk`, `HealthCheck` and connection errors when a pool opens.
- Go library behaviour behind a full 32-bit sticky index: `SetSticky` is modelled for fewer than 2^31 clients.
- Rates of zero or above 10^9 requests per second, for which the limiter cannot start its ticker.
- The strength of HMAC, of the password hash and of default secrets; `HashToken`; storage of sessions.
- `ArenaMarker` and `ThreadLocalArena`: the first restores nothing, the second only forwards.
