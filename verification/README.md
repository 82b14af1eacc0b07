# Verified models of the jfx software filters, event queue and three toy applications

This project models parts of the jfx repository in Dafny and proves what they are for.

* **Decora software filters.** Box blur, box shadow, linear convolution and its shadow variant filter ARGB rows with running
  sums, ring buffers, fixed-point scaling and bilinear taps. Each filter method is proved to write exactly the image given by a
  simple definition (`WindowSum`, `Conv`, `TentSum`), for every stride and size, and to touch nothing else. On these definitions
  rest the cross-filter results: sampled and ring-buffered convolution agree exactly along rows and columns, box blur and uniform
  convolution agree within one, and so do their shadows, the vertical filters are transposes, values obey a maximum principle over any number of blur passes, and alpha is
  monotone over any number of shadow passes. The loops that make the passes are proved to make exactly these.
* **Android event queue.** A linked FIFO under a mutex, and the protocol of its producers and consumer as interleaved steps.
* **Grid mesh, tile layout, text editor.** Index arithmetic, a layout loop and a caret state machine.

| file | contents |
|---|---|
| `Arithmetic.dfy`, `Sums.dfy` | products, digits and truncation; sums of reals |
| `Raster.dfy` | pixels, strided grids, `checkRange`, writing a grid line by line |
| `BoxBlur.dfy`, `BlurPasses.dfy`, `BlurPeer.dfy` | the blur filters; whole pictures and sequences of passes; the loop that makes them |
| `Sampling.dfy`, `LinearConvolve.dfy`, `ConvolveAgreement.dfy` | bilinear samplers; convolution filters; how the filters agree |
| `BoxShadow.dfy`, `ShadowPasses.dfy`, `ShadowColour.dfy`, `ShadowPeer.dfy` | the box shadow filters; sequences of their passes; colours in them; the loop that makes them |
| `ConvolveShadow.dfy`, `ShadowAgreement.dfy` | the convolution shadow; how it agrees with the box shadow |
| `Events.dfy`, `EventProtocol.dfy` | the linked queue; the concurrent protocol |
| `GridMesh.dfy`, `TileLayout.dfy`, `TextEdit.dfy` | the toy applications |

Modelling choices. A pixel is the 32 bits of a `jint` read as an unsigned number. `jfloat` and Java's `float` and `double` are
`real`; a cast to an integer truncates towards zero. Sums of channels are integers with proved 32-bit bounds. Destination and
scratch buffers are arrays changed in place; source pixels and kernels, which are only read, are sequences, so a destination
never aliases a source. Arrays must cover the rows at their scan strides, the blurred direction must not shrink, the window times
255 must fit a `jint`, kernels have 1 to 128 entries and `kvals` is a kernel written twice, spread and colour components lie in
0..1: this is what the Java callers pass. The innermost loop of each filter is a method of its own. In `hide` statements a proof
leaves out definitions it does not use.

In `layoutChildren` a comment says that the remainder is 0 when the last row is filled. The code computes the full row length
instead, and the model follows the code; the placement is the same.

## Model

| member | source | states |
|---|---|---|
| `Raster.CheckRangeExact` | modules/javafx.graphics/src/main/native-decora/SSEUtils.cc:192-206 | `checkRange` lets a call through exactly when all sizes are positive and both areas fit a `jint` and their arrays, although the products are guarded by quotients |
| `Raster.RowsStayInBounds` | modules/javafx.graphics/src/main/native-decora/SSEUtils.cc:192-206 | which calls stay in an array: exactly those with (height - 1) * stride + width at most its length |
| `Raster.UnpaddedStaysInBounds` | modules/javafx.graphics/src/main/native-decora/SSEUtils.cc:192-206 | every call that `checkRange` lets through stays in bounds if its rows have no padding |
| `Raster.GuardIgnoresStride` | modules/javafx.graphics/src/main/native-decora/SSEUtils.cc:192-206 | a call it lets through that leaves the array: 2 by 2 pixels at stride 3 in an array of 4 |
| `Raster.Pack` | modules/javafx.graphics/src/main/native-decora/SSEBoxBlurPeer.cc:79-83 | four bytes packed by shifts come back unchanged from the four shift-and-mask extractions |
| `Raster.PackOfChannels` | modules/javafx.graphics/src/main/native-decora/SSEBoxBlurPeer.cc:68-83 | unpacking and packing is the identity on all 32-bit pixels |
| `Raster.ChannelsAreBits` | modules/javafx.graphics/src/main/native-decora/SSEBoxBlurPeer.cc:68-83 | which bits a channel is: every pixel is alpha times 2^24 plus red times 2^16 plus green times 2^8 plus blue |
| `Raster.PixelOffsets` | modules/javafx.graphics/src/main/native-decora/SSEBoxBlurPeer.cc:60-85 | pixel (x, y) of an image, by rows or by columns, is the array entry y * scan + x |
| `Raster.ColumnsAreTransposedRows` | modules/javafx.graphics/src/main/native-decora/SSEBoxBlurPeer.cc:114-146 | stepping by the scan stride from offset x visits the rows of the transposed image |
| `BoxBlur.FilterHorizontal` | modules/javafx.graphics/src/main/native-decora/SSEBoxBlurPeer.cc:35-91 | refused sizes change nothing; otherwise every row is blurred by the direct window sums, whatever the strides, and no pixel outside the image changes |
| `BoxBlur.BlurRow` | modules/javafx.graphics/src/main/native-decora/SSEBoxBlurPeer.cc:60-85 | the four running sums always are the clipped window sums, their scaled values pack without collision, and only this row is written |
| `BoxBlur.FilterVertical` | modules/javafx.graphics/src/main/native-decora/SSEBoxBlurPeer.cc:93-150 | the transposed result is the horizontal blur of the transposed source |
| `BoxBlur.BlurColumn` | modules/javafx.graphics/src/main/native-decora/SSEBoxBlurPeer.cc:117-145 | the same for one column, with the flat offset test |
| `BoxBlur.FlatTest` | modules/javafx.graphics/src/main/native-decora/SSEBoxBlurPeer.cc:127 | `srcoff >= voff` holds exactly when y >= vsize, for every x below the scan stride |
| `BoxBlur.WindowSumBounds` | modules/javafx.graphics/src/main/native-decora/SSEBoxBlurPeer.cc:68-78 | a window of values between m and M sums to between size times m and size times M |
| `BoxBlur.ScaleIsByte` | modules/javafx.graphics/src/main/native-decora/SSEBoxBlurPeer.cc:57 | no window sum overflows a `jint` when scaled, and the shifted result is 0..255 |
| `BoxBlur.SmallWindowsAreFullScale` | modules/javafx.graphics/src/main/native-decora/SSEBoxBlurPeer.cc:57 | every window up to 33025 has a scale factor of at least 2^23 / size |
| `BoxBlur.FirstDarkeningWindow` | modules/javafx.graphics/src/main/native-decora/SSEBoxBlurPeer.cc:57 | 33026, the next window, has not: it turns a constant 255 into 254 |
| `BoxBlur.ConstantsReproduced` | modules/javafx.graphics/src/main/native-decora/SSEBoxBlurPeer.cc:57-83 | a window holding one positive value is reproduced exactly if and only if the window is of full scale; otherwise it comes out darker |
| `BoxBlur.ScaleIsMean` | modules/javafx.graphics/src/main/native-decora/SSEBoxBlurPeer.cc:57-83 | the scaled sum is the floor of the window's mean, or one more |
| `BlurPasses.WindowsConserve` | modules/javafx.graphics/src/main/native-decora/SSEBoxBlurPeer.cc:60-85 | the raw window sums of a blurred line total the window size times the source total |
| `BlurPasses.BlurOfMirror` | modules/javafx.graphics/src/main/native-decora/SSEBoxBlurPeer.cc:60-85 | blurring a mirrored line gives the mirrored blur |
| `BlurPasses.BlurByOneIsIdentity` | modules/javafx.graphics/src/main/native-decora/SSEBoxBlurPeer.cc:56-87 | a window of one pixel copies every line |
| `BlurPasses.TransposedBlurIsVerticalPass` | modules/javafx.graphics/src/main/native-decora/SSEBoxBlurPeer.cc:114-146 | what `FilterVertical` leaves is one vertical pass over the picture |
| `BlurPasses.PassBounds` | modules/javafx.graphics/src/main/native-decora/SSEBoxBlurPeer.cc:56-87 | one pass keeps every channel between the bounds of its window, with zeros outside the image; the upper bound holds for every window, a positive lower one where the window is of full scale |
| `BlurPasses.RunBounds` | modules/javafx.graphics/src/main/native-decora/SSEBoxBlurPeer.cc:56-146 | the maximum principle for any sequence of horizontal and vertical passes over the rectangle they reach; only a positive lower bound needs windows of full scale |
| `BlurPasses.ConstantInterior` | modules/javafx.graphics/src/main/native-decora/SSEBoxBlurPeer.cc:56-146 | a constant interior comes out of a sequence of passes unchanged if and only if it is zero or every window is of full scale |
| `BlurPasses.RunDarkens` | modules/javafx.graphics/src/main/native-decora/SSEBoxBlurPeer.cc:56-146 | one window that is not of full scale, anywhere in the sequence, leaves a positive constant darker |
| `BlurPasses.RunPremultiplied` | modules/javafx.graphics/src/main/native-decora/SSEBoxBlurPeer.cc:56-146 | premultiplied pictures stay premultiplied through any sequence of passes, for every window |
| `BlurPeer.OnePass` | modules/javafx.graphics/src/main/java/com/sun/scenario/effect/impl/sw/sse/SSEBoxBlurPeer.java:86-110 | one turn of the peer's loop leaves in a fresh buffer, of any stride, the picture after one pass |
| `BlurPeer.Turn` | modules/javafx.graphics/src/main/java/com/sun/scenario/effect/impl/sw/sse/SSEBoxBlurPeer.java:84-90 | turn j grows the image by what is still due, with the window of pass j, and the loop ends exactly when all passes are made |
| `BlurPeer.PassesAddUp` | modules/javafx.graphics/src/main/java/com/sun/scenario/effect/impl/sw/sse/SSEBoxBlurPeer.java:68-71 | the growth is even, at least inc * iterations and at most one more, and the windows of the passes, each less one, add up to it |
| `BlurPeer.Filter` | modules/javafx.graphics/src/main/java/com/sun/scenario/effect/impl/sw/sse/SSEBoxBlurPeer.java:61-113 | the peer's loop, with buffers of any strides, leaves the source after one pass of window inc + 1 per iteration, plus one of window 2 if the growth would be odd; it has grown by an even number, inc * iterations or one more, to which the windows less one add up, half of it on either side of the old bounds; so `RunBounds`, `ConstantInterior` and `RunPremultiplied` apply to it; no iterations give the source back |
| `Sampling.TapsAreTents` | modules/javafx.graphics/src/main/native-decora/SSEUtils.cc:101-134 | for every plane and every real coordinate the four guarded taps are the tent-weighted sum over all pixels |
| `Sampling.GuardIsHarmless` | modules/javafx.graphics/src/main/native-decora/SSEUtils.cc:110-112 | where the guard fails the taps would have contributed nothing |
| `Sampling.AccumulateTaps` | modules/javafx.graphics/src/main/native-decora/SSEUtils.cc:115-133 | the nested guards read only pixels inside the image and add the four weighted pixels, zero outside |
| `Sampling.AccumulateSample` | modules/javafx.graphics/src/main/native-decora/SSEUtils.cc:97-135 | `laccumsample` adds `factor` times the tent-weighted sum over the whole image to each channel |
| `Sampling.Sample` | modules/javafx.graphics/src/main/native-decora/SSEUtils.cc:54-95 | `lsample` gives 1/255 of the same sum at coordinates scaled by the image size, so 255 times `factor` times it is what `laccumsample` adds there |
| `LinearConvolve.SlotIsColumnModSize` | modules/javafx.graphics/src/main/native-decora/SSELinearConvolvePeer.cc:147-159 | the slot due at column c is c mod K |
| `LinearConvolve.RingLoads` | modules/javafx.graphics/src/main/native-decora/SSELinearConvolvePeer.cc:149-155 | loading a column into the oldest slot keeps every slot's age |
| `LinearConvolve.RingSum` | modules/javafx.graphics/src/main/native-decora/SSELinearConvolvePeer.cc:160-170 | with a doubled kernel the sum over the slots, in any rotation, is the direct convolution with zeros outside the row |
| `LinearConvolve.RingSums` | modules/javafx.graphics/src/main/native-decora/SSELinearConvolvePeer.cc:160-170 | the innermost loop yields the convolution of all four channels, every `kvals` index in 1..2K-1 |
| `LinearConvolve.ConvolveRow` | modules/javafx.graphics/src/main/native-decora/SSELinearConvolvePeer.cc:139-178 | a row is written as its direct convolution, with `koff` = K - (c mod K) at column c, and nothing else changes |
| `LinearConvolve.FilterHV` | modules/javafx.graphics/src/main/native-decora/SSELinearConvolvePeer.cc:106-185 | refused calls change nothing; otherwise every line of the strided grid, rows or columns, is the convolution of the source line |
| `LinearConvolve.SampleTaps` | modules/javafx.graphics/src/main/native-decora/SSELinearConvolvePeer.cc:72-85 | one pixel is the weighted sum of samples at evenly spaced points |
| `LinearConvolve.FilterVector` | modules/javafx.graphics/src/main/native-decora/SSELinearConvolvePeer.cc:41-96 | every pixel is the weighted sum of samples along its track, which starts at srcx0 + (r + 1/2) * dxrow + (c + 1/2) * dxcol + offsetx, likewise in y, and goes on by (deltax, deltay) from tap to tap, for every geometry; more than 128 taps change nothing |
| `LinearConvolve.VectorPixels` | modules/javafx.graphics/src/main/native-decora/SSELinearConvolvePeer.cc:62-96 | the same of the image: each pixel samples from its own centre, carried into the source by the steps per row and column |
| `ConvolveAgreement.TentAtCentre` | modules/javafx.graphics/src/main/native-decora/SSEUtils.cc:97-135 | sampling at a pixel centre gives that pixel, or zero outside |
| `ConvolveAgreement.VectorAgreesWithHV` | modules/javafx.graphics/src/main/native-decora/SSELinearConvolvePeer.cc:64-181 | with unit axis-aligned steps and offset -(count - 1), the images that `filterVector` and `filterHV` are proved to write are the same, for every image, size and kernel |
| `ConvolveAgreement.FilterBothWays` | modules/javafx.graphics/src/main/native-decora/SSELinearConvolvePeer.cc:41-185 | calling both filters on two buffers, of any strides, leaves the same image in both |
| `ConvolveAgreement.VectorTransposes` | modules/javafx.graphics/src/main/native-decora/SSELinearConvolvePeer.cc:62-96 | for every geometry, exchanging x and y in the source and in the geometry transposes the result |
| `ConvolveAgreement.VectorAgreesWithColumns` | modules/javafx.graphics/src/main/native-decora/SSELinearConvolvePeer.cc:64-181 | with unit steps down the columns the image of `filterVector`, transposed, is the convolution of the columns |
| `ConvolveAgreement.FilterBothWaysDown` | modules/javafx.graphics/src/main/java/com/sun/scenario/effect/impl/sw/sse/SSELinearConvolvePeer.java:108-146 | calling both filters down the columns, `filterHV` with its increments exchanged, leaves the same image in two buffers |
| `ConvolveAgreement.ToByteNear` | modules/javafx.graphics/src/main/native-decora/SSELinearConvolvePeer.cc:36-39 | between 0 and 255 `fvaltobyte` loses less than one, adds at most 1/32, and keeps whole numbers; it gives 0 exactly below 1 and 255 exactly above 255 - 1/32 |
| `ConvolveAgreement.UnitKernelCopies` | modules/javafx.graphics/src/main/native-decora/SSELinearConvolvePeer.cc:148-178 | convolution with the kernel 1 copies every line |
| `ConvolveAgreement.ImpulseResponse` | modules/javafx.graphics/src/main/native-decora/SSELinearConvolvePeer.cc:148-170 | a single pixel is spread out as the kernel, its last weight first |
| `ConvolveAgreement.UniformConvIsMean` | modules/javafx.graphics/src/main/native-decora/SSELinearConvolvePeer.cc:148-178 | convolution with the kernel 1/K is the mean over the box blur's window |
| `ConvolveAgreement.BoxNearUniform` | modules/javafx.graphics/src/main/native-decora/SSELinearConvolvePeer.cc:148-178 | box blur and uniform convolution differ by at most 1 in every channel of every pixel, clamps included |
| `BoxShadow.AMaxRange` | modules/javafx.graphics/src/main/native-decora/SSEBoxShadowPeer.cc:57-61 | `amax` stays between 255 and 255 times the window for every spread in 0..1 |
| `BoxShadow.AMaxLinear` | modules/javafx.graphics/src/main/native-decora/SSEBoxShadowPeer.cc:58-60 | `amax` goes from 255 times the window to 255 in a straight line in the spread, rounded up |
| `BoxShadow.AlphaMonotone` | modules/javafx.graphics/src/main/native-decora/SSEBoxShadowPeer.cc:76-79 | more source alpha never gives less shadow, across all three branches |
| `BoxShadow.AlphaGrowsWithSpread` | modules/javafx.graphics/src/main/native-decora/SSEBoxShadowPeer.cc:58-79 | more spread never gives less shadow |
| `BoxShadow.FullSpread` | modules/javafx.graphics/src/main/native-decora/SSEBoxShadowPeer.cc:58-79 | at spread 1 the shadow is the smaller of 255 and the window sum |
| `BoxShadow.NoSpread` | modules/javafx.graphics/src/main/native-decora/SSEBoxShadowPeer.cc:58-79 | at spread 0 the shadow equals the box blur's alpha for every sum if and only if (size - 1) * kscale < 2^23 <= size * kscale |
| `BoxShadow.SmallWindowsSameAsBlur` | modules/javafx.graphics/src/main/native-decora/SSEBoxShadowPeer.cc:58-79 | every window up to 256 meets that condition |
| `BoxShadow.FirstDifferingWindow` | modules/javafx.graphics/src/main/native-decora/SSEBoxShadowPeer.cc:58-79 | 257 does not, and its window sum 256 shows the difference |
| `BoxShadow.ShadowIsBlur` | modules/javafx.graphics/src/main/native-decora/SSEBoxShadowPeer.cc:57-83 | for whole lines and windows up to 256 the unspread shadow has the blurred alpha |
| `BoxShadow.ShadowGrowsWithSource` | modules/javafx.graphics/src/main/native-decora/SSEBoxShadowPeer.cc:65-83 | for whole lines, every window and spread, the shadow is monotone in the source's alpha |
| `BoxShadow.BlackEmits` | modules/javafx.graphics/src/main/native-decora/SSEBoxShadowPeer.cc:76-79 | a black shadow pixel has the clamped alpha and no colour |
| `BoxShadow.EmitsPremultiplied` | modules/javafx.graphics/src/main/native-decora/SSEBoxShadowPeer.cc:173-204 | a premultiplied colour paints premultiplied pixels in all three branches |
| `BoxShadow.ScaledField` | modules/javafx.graphics/src/main/native-decora/SSEBoxShadowPeer.cc:199-204 | below saturation every scaled channel is computed without overflow and is a byte |
| `BoxShadow.ColourPixelBits` | modules/javafx.graphics/src/main/native-decora/SSEBoxShadowPeer.cc:180-184 | the number of a colour pixel: each component times n, cut, in its own eight bits |
| `BoxShadow.EmittedBits` | modules/javafx.graphics/src/main/native-decora/SSEBoxShadowPeer.cc:173-204 | the number of every pixel a colour paints, in all three branches, from the window sum and the four components |
| `BoxShadow.FilterHorizontalBlack` | modules/javafx.graphics/src/main/native-decora/SSEBoxShadowPeer.cc:35-87 | every row becomes the clamped shadow of its alpha windows |
| `BoxShadow.FilterVerticalBlack` | modules/javafx.graphics/src/main/native-decora/SSEBoxShadowPeer.cc:89-142 | the same along columns, as the transpose |
| `BoxShadow.FilterVertical` | modules/javafx.graphics/src/main/native-decora/SSEBoxShadowPeer.cc:144-212 | the same along columns, painted in the shadow colour, whose bits `EmittedBits` gives |
| `ShadowPasses.TransposedShadowIsVerticalPass` | modules/javafx.graphics/src/main/native-decora/SSEBoxShadowPeer.cc:89-212 | what the vertical filters leave is one vertical pass over the picture |
| `ShadowPasses.ShadeValue` | modules/javafx.graphics/src/main/native-decora/SSEBoxShadowPeer.cc:63-85 | every value after a pass, at any position, is the painted sum of the alphas in its window, which is nothing outside the grown image |
| `ShadowPasses.ShadowRunMonotone` | modules/javafx.graphics/src/main/java/com/sun/scenario/effect/impl/sw/sse/SSEBoxShadowPeer.java:89-109 | through any sequence of black passes, more source alpha, or more spread in any of the passes, never gives less alpha anywhere |
| `ShadowPasses.ShadowRunInterior` | modules/javafx.graphics/src/main/java/com/sun/scenario/effect/impl/sw/sse/SSEBoxShadowPeer.java:89-109 | opaque interiors stay opaque and empty ones empty through any sequence of black passes, for every window and spread |
| `ShadowPasses.BlackColourIsBlack` | modules/javafx.graphics/src/main/java/com/sun/scenario/effect/impl/sw/sse/SSEBoxShadowPeer.java:113-120 | painting in opaque black equals the black filter that the peer substitutes for it |
| `ShadowPasses.ColouredPassPremultiplied` | modules/javafx.graphics/src/main/java/com/sun/scenario/effect/impl/sw/sse/SSEBoxShadowPeer.java:111-126 | the coloured pass leaves a premultiplied picture whatever came before |
| `ShadowPasses.ColouredInterior` | modules/javafx.graphics/src/main/java/com/sun/scenario/effect/impl/sw/sse/SSEBoxShadowPeer.java:89-126 | after any black passes an opaque interior comes out of the coloured one in exactly the shadow colour |
| `ShadowColour.EmitsComponents` | modules/javafx.graphics/src/main/native-decora/SSEBoxShadowPeer.cc:173-204 | each channel of a coloured pixel depends on its own component alone, through the three-way clamp |
| `ShadowColour.RisingIffNoDrop` | modules/javafx.graphics/src/main/native-decora/SSEBoxShadowPeer.cc:173-204 | a channel grows with the window sum if and only if the last sum before saturation does not paint more than saturation, which scales by 255 and not towards 256 |
| `ShadowColour.DropsByOne` | modules/javafx.graphics/src/main/native-decora/SSEBoxShadowPeer.cc:173-204 | for every window, spread and component, more source alpha takes at most one off a channel |
| `ShadowColour.FullNeverDrops` | modules/javafx.graphics/src/main/native-decora/SSEBoxShadowPeer.cc:173-204 | components of 0 and 1 never drop, so the alpha of an opaque shadow is monotone |
| `ShadowColour.DropAtSaturation` | modules/javafx.graphics/src/main/native-decora/SSEBoxShadowPeer.cc:173-204 | a channel that drops: component 0.9 under a window of 3 paints 230 for the sum 764 and 229 for 765 |
| `ShadowColour.ColouredRunMonotone` | modules/javafx.graphics/src/main/java/com/sun/scenario/effect/impl/sw/sse/SSEBoxShadowPeer.java:89-126 | after any black passes and a coloured one, more source alpha takes at most one off any channel anywhere, and nothing if that component does not drop |
| `ShadowPeer.ShadowTurn` | modules/javafx.graphics/src/main/java/com/sun/scenario/effect/impl/sw/sse/SSEBoxShadowPeer.java:86-93 | turn j makes pass j with its window, the growth is reached exactly by the last one, and without growth there is one turn of window 1 |
| `ShadowPeer.OneShadow` | modules/javafx.graphics/src/main/java/com/sun/scenario/effect/impl/sw/sse/SSEBoxShadowPeer.java:94-126 | one turn leaves in a fresh buffer, of any stride, the picture after one shadow pass: coloured if it is the last vertical one, else black |
| `ShadowPeer.AfterIsBlackRun` | modules/javafx.graphics/src/main/java/com/sun/scenario/effect/impl/sw/sse/SSEBoxShadowPeer.java:101-109 | up to the last vertical pass, and in the horizontal half altogether, the turns are a sequence of black passes |
| `ShadowPeer.AllPassesAddUp` | modules/javafx.graphics/src/main/java/com/sun/scenario/effect/impl/sw/sse/SSEBoxShadowPeer.java:70-73 | as for the blur, with one pass of window 1 where nothing grows |
| `ShadowPeer.MakePasses` | modules/javafx.graphics/src/main/java/com/sun/scenario/effect/impl/sw/sse/SSEBoxShadowPeer.java:80-137 | the loop makes all the passes, in order, each on a buffer of its own, and ends at the full growth |
| `ShadowPeer.Filter` | modules/javafx.graphics/src/main/java/com/sun/scenario/effect/impl/sw/sse/SSEBoxShadowPeer.java:59-141 | the horizontal half is a sequence of black passes, the vertical half one followed by a coloured pass, which is made even without growth; the growth is even, inc * iterations or one more, half of it on either side, and the windows add up to it; every pass has the given spread but the one that evens out the growth, which has none; so `ShadowRunMonotone`, `ShadowRunInterior`, `ColouredInterior` and `ColouredRunMonotone` apply |
| `ConvolveShadow.SelectIsRounding` | modules/javafx.graphics/src/main/native-decora/SSELinearConvolveShadowPeer.cc:173-180 | bias, branches and table pick the colour at the convolution rounded half up and clamped to 0..255, for every real sum |
| `ConvolveShadow.AlphaLoads` | modules/javafx.graphics/src/main/native-decora/SSELinearConvolveShadowPeer.cc:167-172 | the ring of alphas keeps the age of every slot |
| `ConvolveShadow.BiasedSum` | modules/javafx.graphics/src/main/native-decora/SSELinearConvolveShadowPeer.cc:173-176 | the innermost loop is the direct convolution of alpha less one half |
| `ConvolveShadow.FillTable` | modules/javafx.graphics/src/main/native-decora/SSELinearConvolveShadowPeer.cc:134-140 | the table holds the colour scaled by each index |
| `ConvolveShadow.FilterHV` | modules/javafx.graphics/src/main/native-decora/SSELinearConvolveShadowPeer.cc:114-190 | every line becomes the colour table at the rounded, clamped convolution of its alphas; `ColourPixelBits` gives the bits of the colours |
| `ShadowAgreement.RoundsToNearest` | modules/javafx.graphics/src/main/native-decora/SSELinearConvolveShadowPeer.cc:173-180 | that rounding goes to the nearest byte and clamps outside |
| `ShadowAgreement.UnitShadow` | modules/javafx.graphics/src/main/native-decora/SSELinearConvolveShadowPeer.cc:160-185 | the kernel 1 paints each pixel in the colour at its own alpha |
| `ShadowAgreement.ShadowsNear` | modules/javafx.graphics/src/main/native-decora/SSELinearConvolveShadowPeer.cc:160-185 | the black shadow by a uniform kernel and the box shadow without spread differ by at most 1 in alpha, for every line and window |
| `Events.EventQueue.Push` | modules/javafx.graphics/src/dalvik/native/EventLoop.c:35-49 | the links represent the old events followed by the new one |
| `Events.EventQueue.Pop` | modules/javafx.graphics/src/dalvik/native/EventLoop.c:51-65 | the oldest event leaves and the links represent the rest; an empty queue gives null |
| `Events.EventQueue.Drain` | modules/javafx.graphics/src/dalvik/native/EventLoop.c:75-93 | every pending event is taken off, dispatched and freed once, in order, until none is left; each callback is made once for every signal of its kind |
| `Events.CallbacksCounted` | modules/javafx.graphics/src/dalvik/native/activity.c:181-195 | of any events, each of the four callbacks is made as often as there are signals of its kind, 2 to 5, and nothing else is called |
| `Events.CallbacksInOrder` | modules/javafx.graphics/src/dalvik/native/activity.c:181-195 | the callbacks come in the order of their signals, each the one for its kind |
| `Events.EventQueue.NotifyGlassStarted` | modules/javafx.graphics/src/dalvik/native/activity.c:159-162 | a signal of kind 2 is appended |
| `Events.EventQueue.NotifyGlassShutdown` | modules/javafx.graphics/src/dalvik/native/activity.c:164-168 | a signal of kind 3 is appended and the queue stopped |
| `Events.EventQueue.NotifyShowIME` | modules/javafx.graphics/src/dalvik/native/activity.c:170-173 | a signal of kind 4 is appended |
| `Events.EventQueue.NotifyHideIME` | modules/javafx.graphics/src/dalvik/native/activity.c:175-178 | a signal of kind 5 is appended |
| `Events.Deliver` | modules/javafx.graphics/src/dalvik/native/activity.c:159-195 | notifications made before the loop gets the lock lead to the callbacks asked for, in that order; a shutdown among them stops the loop before any |
| `EventProtocol.StepInv` | modules/javafx.graphics/src/dalvik/native/EventLoop.c:35-105 | every step of every thread keeps mutual exclusion, the FIFO equation, the wake-up and stop conditions, and freshness |
| `EventProtocol.RunInv` | modules/javafx.graphics/src/dalvik/native/EventLoop.c:35-105 | the invariant holds after every interleaving |
| `EventProtocol.FifoExactlyOnce` | modules/javafx.graphics/src/dalvik/native/EventLoop.c:35-93 | in every run dispatched, in-flight and pending events together are the pushed sequence, without duplicates, and each dispatched event is freed once |
| `EventProtocol.SignalsKept` | modules/javafx.graphics/src/dalvik/native/EventLoop.c:35-93 | no step of any thread loses a signal, makes one up or turns it into another |
| `EventProtocol.CallbacksOfRun` | modules/javafx.graphics/src/dalvik/native/EventLoop.c:35-93 | in every run each callback was made once for every dispatched signal of its kind, and together with the signals underway that is what was asked for |
| `EventProtocol.ParkedMeansIdle` | modules/javafx.graphics/src/dalvik/native/EventLoop.c:76-78 | a parked consumer with no signal on its way has an empty queue and was not stopped, spurious wake-ups included |
| `EventProtocol.ConsumerCanMove` | modules/javafx.graphics/src/dalvik/native/EventLoop.c:67-98 | with work or a stop and no producer inside, the consumer always has a step |
| `EventProtocol.MutualExclusion` | modules/javafx.graphics/src/dalvik/native/EventLoop.c:35-105 | at most one thread is inside the queue in every run |
| `EventProtocol.NothingAfterStop` | modules/javafx.graphics/src/dalvik/native/EventLoop.c:79-104 | once stopped, nothing more is dispatched or freed however the run goes on |
| `EventProtocol.StopDropsPending` | modules/javafx.graphics/src/dalvik/native/EventLoop.c:100-105 | after any stop in any run, the events never processed are exactly the pending suffix |
| `EventProtocol.WorkDecreases` | modules/javafx.graphics/src/dalvik/native/EventLoop.c:75-93 | while the consumer has the lock its own steps use up the work and no one else changes the queue |
| `EventProtocol.DrainsBeforeReleasing` | modules/javafx.graphics/src/dalvik/native/EventLoop.c:75-93 | holding the lock and running, the consumer processes and frees all that was pending before releasing, in a number of steps fixed in advance |
| `EventProtocol.NeverStuckWithLock` | modules/javafx.graphics/src/dalvik/native/EventLoop.c:75-93 | the consumer always has a step while it holds the lock |
| `EventProtocol.RunOnHeap` | modules/javafx.graphics/src/dalvik/native/EventLoop.c:35-98 | along every run, also from a queue that already holds events, the linked queue represents the pending events and the running flag, and what `Pop` has returned are, in order, the dispatched events and the one in flight |
| `GridMesh.EdgeUnique` | apps/toys/FX8-3DFeatures/src/fx83dfeatures/PNTMeshViewer.java:195-268 | a directed edge occurs in at most one triangle, at one corner |
| `GridMesh.ReverseIffInterior` | apps/toys/FX8-3DFeatures/src/fx83dfeatures/PNTMeshViewer.java:195-268 | the reverse of an edge occurs if and only if the edge is not on the boundary of the grid |
| `GridMesh.OrientedSurface` | apps/toys/FX8-3DFeatures/src/fx83dfeatures/PNTMeshViewer.java:195-268 | both, stated of the faces array, with the reverse occurring exactly once |
| `GridMesh.FillPoints` | apps/toys/FX8-3DFeatures/src/fx83dfeatures/PNTMeshViewer.java:168-186 | the flat points array holds at 3 * (y * (divX + 1) + x) the point of grid position (x, y): scaled coordinates that run from -10 to 10 in equal steps, and the scaled height at them |
| `GridMesh.TriangleMesh.FillFaces` | apps/toys/FX8-3DFeatures/src/fx83dfeatures/PNTMeshViewer.java:189-268 | the 18 entries of every cell: p00, p10, p11 and p11, p01, p00 with their texture coordinates, and normal k at all corners of face k |
| `GridMesh.NormalOfFace` | apps/toys/FX8-3DFeatures/src/fx83dfeatures/PNTMeshViewer.java:202-262 | normal k of a mesh is that of the three points that face k lists, in that order |
| `GridMesh.TriangleMesh.constructor` | apps/toys/FX8-3DFeatures/src/fx83dfeatures/PNTMeshViewer.java:150-289 | a fresh mesh holds the points, normals and faces of the surface |
| `GridMesh.TriangleMesh.Compute` | apps/toys/FX8-3DFeatures/src/fx83dfeatures/PNTMeshViewer.java:82-148 | recomputing in place gives the mesh of the new surface; the assertion on normal indices always holds |
| `GridMesh.Recompute` | apps/toys/FX8-3DFeatures/src/fx83dfeatures/PNTMeshViewer.java:82-289 | a recomputed mesh equals a freshly built one, array by array |
| `TileLayout.FitIsLargest` | apps/toys/LayoutDemo/src/layout/CustomTilePane.java:120-140 | the number of tiles per line fits, and one more would not |
| `TileLayout.OtherIs` | apps/toys/LayoutDemo/src/layout/CustomTilePane.java:115-118 | the number of lines is the child count divided by the line length, rounded up |
| `TileLayout.TilesInside` | apps/toys/LayoutDemo/src/layout/CustomTilePane.java:208-242 | every tile, also of the realigned last line, lies inside the pane along the main axis |
| `TileLayout.TilesDisjoint` | apps/toys/LayoutDemo/src/layout/CustomTilePane.java:229-256 | no two tiles overlap |
| `TileLayout.RowMargins` | apps/toys/LayoutDemo/src/layout/CustomTilePane.java:208-242 | every line of a horizontal pane, also the last, starts at the left edge, ends at the right one, or has equal space on both sides |
| `TileLayout.ColumnMargins` | apps/toys/LayoutDemo/src/layout/CustomTilePane.java:208-242 | the same of the columns of a vertical pane between top and bottom |
| `TileLayout.CrossMargins` | apps/toys/LayoutDemo/src/layout/CustomTilePane.java:208-242 | the first and the last line are aligned so between the edges across |
| `TileLayout.TilesSpaced` | apps/toys/LayoutDemo/src/layout/CustomTilePane.java:229-256 | tiles have the asked size or that of a smaller pane, neighbours in a line and successive lines are exactly one gap apart |
| `TileLayout.TilePane.LayoutChildren` | apps/toys/LayoutDemo/src/layout/CustomTilePane.java:169-257 | child i is placed in cell i mod n of line i / n, with the last line aligned by what it holds |
| `TextEdit.AnchorStaysFixed` | apps/toys/DragDrop/src/dragdrop/SimpleTextEdit.java:171-206 | any run of shifted arrows keeps the text and the anchor it began from |
| `TextEdit.SelectAndDelete` | apps/toys/DragDrop/src/dragdrop/SimpleTextEdit.java:152-206 | deleting such a selection, by either key, removes exactly the text between the first and the last caret |
| `TextEdit.BackSpaceUndoesTyping` | apps/toys/DragDrop/src/dragdrop/SimpleTextEdit.java:136-170 | backspace undoes typing a character |
| `TextEdit.ArrowsMove` | apps/toys/DragDrop/src/dragdrop/SimpleTextEdit.java:171-206 | right and left move the caret by one towards the end and the start, and stop there |
| `TextEdit.ArrowsUndo` | apps/toys/DragDrop/src/dragdrop/SimpleTextEdit.java:152-217 | an arrow undoes the other, delete is right and then backspace, a focus change only ends the selection |
| `TextEdit.TypedOrIgnored` | apps/toys/DragDrop/src/dragdrop/SimpleTextEdit.java:136-150 | a typed key is ignored exactly with a modifier, for a control character, or when 35 characters are there |
| `TextEdit.TypingInserts` | apps/toys/DragDrop/src/dragdrop/SimpleTextEdit.java:136-150 | typing a string puts it in at the caret as far as there is room, with the caret behind it |
| `TextEdit.TextField.SetText` | apps/toys/DragDrop/src/dragdrop/SimpleTextEdit.java:220-234 | the text is cut to 35 characters and the caret kept within it; the selection is left alone, so the invariant survives if and only if nothing is selected or the selection ends within the new text |
| `TextEdit.StaleSelection` | apps/toys/DragDrop/src/dragdrop/SimpleTextEdit.java:220-234 | a run in which it does not: a selected text replaced by an empty one leaves the selection past the end |
| `TextEdit.TextField.Insert` | apps/toys/DragDrop/src/dragdrop/SimpleTextEdit.java:236-243 | the string goes in at the caret, and a selection at or behind the caret shifts |
| `TextEdit.TextField.RemoveSelection` | apps/toys/DragDrop/src/dragdrop/SimpleTextEdit.java:249-262 | the selected text goes, the caret stays with its character, and without a selection nothing changes |
| `TextEdit.TextField.PressKey` | apps/toys/DragDrop/src/dragdrop/SimpleTextEdit.java:136-209 | 0 <= caret <= length <= 35 and the selection between anchor and caret are kept, and the key acts as on the reference editor |
| `TextEdit.TextField.PressKeys` | apps/toys/DragDrop/src/dragdrop/SimpleTextEdit.java:136-217 | so does every run of keys and focus changes |
| `TextEdit.BlockMovePermutes` | apps/toys/DragDrop/src/dragdrop/DndTextEdit.java:90-112 | a block move keeps the length and the multiset of characters |
| `TextEdit.BlockMoveIs` | apps/toys/DragDrop/src/dragdrop/DndTextEdit.java:90-112 | where the block ends up: before what followed the drop position, the rest in its old order |
| `TextEdit.TextField.Dropped` | apps/toys/DragDrop/src/dragdrop/DndTextEdit.java:90-114 | dropping on the selection is refused; dropping it elsewhere in the widget is a block move; a drop from another widget splices in at the drop position, cut to 35 characters, and shifts a selection at or behind it |
| `TextEdit.TextField.DragDone` | apps/toys/DragDrop/src/dragdrop/DndTextEdit.java:116-126 | a completed move removes what is still selected and nothing else; any completed drag ends the selection, and without a drop nothing changes |
| `TextEdit.TextField.DragWithin` | apps/toys/DragDrop/src/dragdrop/DndTextEdit.java:90-126 | drop and drag-done together move the block once |

## Left out

- JNI access to arrays, null arrays, thread attach and detach and their failure paths: foreign calls; arrays are simply available.
- IEEE rounding of floats, and casts of floats too large for an integer: arithmetic is over reals, so no claim is bit-exact.
- Overflow of pixel offsets such as `vsize * srcscan`: offsets are unbounded integers.
- A destination array that is also the source: sources are immutable values here, and the callers allocate each destination.
- `fsample` and `faccum`: the same taps over a float map instead of pixels.
- `filterVector` of the shadow convolution: nearest-pixel sampling without a further law.
- The choice of window and iteration count for an effect and image transforms: the peers' loops are proved for every window and count.
- `eventq_start` before the loop thread exists, and use of the queue after the loop has destroyed its mutex.
- Delivery of the shutdown event: it is pushed before the stop, and the loop may exit first.
- The values of the texture coordinates, smoothing groups and key handling of the mesh viewer; the height function and the normal of a triangle
  are parameters.
- Sorting children by preferred height, margins and pixel snapping: the layout takes the children in order.
- Mouse selection, `selPivot`, letter positions and the rest of the scene graph of the text editor.
- Focus events raised by `requestFocus` in a drop: the toolkit decides when they arrive; `PressKey` covers a focus change as a step of its own.
