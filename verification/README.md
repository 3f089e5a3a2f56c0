# Verification model of the edge application library

A Dafny model of the parts of the library that carry state, arithmetic or a protocol, with proofs of
what they promise. `dafny verify dfyconfig.toml` checks everything.

| module | models |
|---|---|
| `Images` | images as values; outline, crop, paste and bilinear resize as functions, and their laws |
| `DrawBuffers` | packed and planar buffers with a stride; the loops that draw, crop and resize in them |
| `RegionOfInterest` | scaling a region to the raw image and cropping a frame to it |
| `InferenceQueue` | the slots that group inferences per model, and the counter that decides when they are sent |
| `TensorShapes` | the decoders of the shape array and the two ways of cutting the output along it |
| `SlotMap` | the fixed array behind the map of live operations |
| `BlobProtocol` | futures, callbacks and waits of any number of downloads, step by step |
| `Workspace` | file names, suffixes, removal of outdated files, lookup of a model file |
| `ReceiveData` | the verified download with its retries, and the files it leaves |
| `ModelLifetime` | loading and unloading contexts, and when the sensor is stopped |
| `OperationSync` | the flags that keep export operations of many threads apart |
| `StateMachine` | the main loop over the application's states |
| `SwitchDnn` | the sample application that alternates two networks |
| `Normalise` | the strided normalisation of an input tensor |
| `Arithmetic`, `Basics` | facts about quotients and products; machine words and optional values |

Code that updates buffers, slots, flags or counters is modelled by classes and methods over the same
state, and each method is proved equal to a function of the old state (`Outlined`, `Resized`, `Next`,
`Iterated`, `Receive` and so on); the lemmas then say what those functions guarantee, for every input
or every run. The drawing operations are proved against one function of the picture for both formats
(`Shows`: this picture, and the padding bytes as before), so converting a buffer to another format or
stride commutes with each of them (`DrawCommutes`, `CropCommutes`, `ResizeCommutes`). A protocol of several threads is a machine over steps, one per hold of a
mutex; `OperationSync.SharedState` is the code of one thread, and its log of holds is proved to be one
that the machine allows. Answers of the sensor, the export, the file system and the other libraries
are parameters.

## Where the code and its promises differ

- `DrawBuffers.CopyIsResizeIff`: the copy shortcut of the resize copies bytes, so between different
  strides it shows another picture than the resize would.
- `InferenceQueue.HandedOverIff`: of a message with several inferences for a model that already waits,
  all but the first are dropped. The formatter writes one inference per message
  (libs/send_data/src/process_format/process_format.cpp:336), so this loss does not arise through
  `SendDataSyncMeta` today (`HandedOverExactlyOnce`).
- `InferenceQueue.SmallestTimestampIff`: the "smallest timestamp" is that of the first inference of the
  group; it is the smallest iff no message that joins the group begins earlier, and the message that
  made it begins with its earliest inference.
- `InferenceQueue.BatchesOfN`: beyond 100 per message, batches are counted in accepted calls, and calls
  may be refused (`SafeThresholdIff`).
- `TensorShapes.OffsetsAgree64Iff`: with 64-bit sizes the binding's 32-bit offset is right iff the
  count of elements, modulo 2^62, has 32 bits. `TensorShapes.DecodeUnbounded`: two of the three
  decoders leave the array unless every shape is complete.
- `BlobProtocol.SlotsInUse`, `LeaksPerRefusal`: an operation that is refused leaves its slot in use for
  good. `BlobProtocol.FaultlessIffNonePremature`: a main thread that is told to stop frees a future
  that its callback uses iff the callback has not come by then; the code does not look.
- `ReceiveData.OnePerStemIff`: a file is stored beside another one of its name iff that one could not be
  removed. `Workspace.NamesClashIff`: two names share files iff one is a file of the other.
- `ModelLifetime.AllStoppedIff`: only the last context to wait is stopped.
- `OperationSync.RunSoundIff`: a time-out of the callback wait may clear the flag of another thread's
  operation. `OperationSync.RunGuardedIff`: the flag that holds off the main loop is shared by all
  waiting threads, and guards them iff no thread clears it while another one waits or is in its
  operation; a thread that is not guarded can be overlapped (`UnguardedOverlaps`), any two threads can
  come to that (`TwoThreadsDoNot`), and one alone cannot.
- `StateMachine.SettledReportedIff`: a process state that is already the next state is set without a
  notice, so a transition is not always reported; going back from `Applying`, the process state told
  earlier is simply not repeated. The comment in `LoopIterate` takes a failed start for the case that
  the next state has become `Idle`; the model follows the code.
- `SwitchDnn.ProportionalIff`: the scale of a box is kept as a `float` but computed as a quotient of
  integers, so the crop is in proportion to the box iff the sizes divide (or the box is at the origin);
  `DisplacedBox` is one that is not.
- `DrawBuffers.InsideBlockIff`: a buffer whose stride is less than a row passes the validity check, and
  its picture reaches behind the block.

## Model

| member | source | states |
|---|---|---|
| `DrawBuffers.IsValidDrawBuffer` | libs/draw/src/draw.cpp:22-61 | Decides exactly `Accepts` (known format, non-zero sizes, 32-bit size match, memory present) and fills in a missing stride, after which the verdict stays the same |
| `DrawBuffers.AcceptedIff` | libs/draw/src/draw.cpp:32-60 | For a layout that fits, the check asks for memory, a known format, and exactly the size of the layout; a missing stride is that of rows without padding |
| `DrawBuffers.OffsetInPlane` | libs/draw/src/draw.cpp:97-99 | The signed 32-bit pixel offset of a visible pixel is the mathematical one and stays inside the plane |
| `DrawBuffers.IndexInRange` | libs/draw/src/draw.cpp:63-99 | Every component of a visible pixel lies inside the block, in both formats |
| `DrawBuffers.InsideBlockIff` | libs/draw/src/draw.cpp:63-99 | The whole picture lies inside the block iff the stride is at least a row, in both formats and for all non-zero sizes; the validity check does not look at that |
| `DrawBuffers.IndexInjective` | libs/draw/src/draw.cpp:63-99 | No two components of the picture share a byte: (x, y, channel) to byte index is injective in both formats |
| `DrawBuffers.PixelBytes` | libs/draw/src/draw.cpp:63-99 | Which three bytes a pixel is: side by side in packed buffers, a plane apart in planar ones, red first |
| `DrawBuffers.PictureAndPaddingAreAll` | libs/draw/src/draw.cpp:63-99 | A block is determined by the picture it shows and by its padding bytes, so "shows this picture, same padding" fixes every byte |
| `DrawBuffers.PutPixel` | libs/draw/src/draw.cpp:110-116 | Writing one pixel changes that pixel of the picture and nothing else, padding included |
| `DrawBuffers.GetPixel` | libs/draw/src/draw.cpp:148-155 | The bytes read at an offset are the components of that pixel of the picture |
| `DrawBuffers.DrawHorizontals` | libs/draw/src/draw.cpp:118-122 | The horizontal lines of the outline, also when left and right are the wrong way round |
| `DrawBuffers.DrawVerticals` | libs/draw/src/draw.cpp:124-128 | The vertical lines complete the part of the outline drawn so far |
| `DrawBuffers.DrawOutline` | libs/draw/src/draw.cpp:101-130 | The two loops paint exactly the outline pixels and keep padding |
| `DrawBuffers.ClampToImage` | libs/draw/src/draw.cpp:256-260 | The four coordinates are pulled back to the last column or row |
| `Images.ClampedIsNearest` | libs/draw/src/draw.cpp:256-260 | Each side is clamped for itself, to the nearest column or row of the image |
| `DrawBuffers.DrawRectangle` | libs/draw/src/draw.cpp:245-277 | 0 iff the buffer is valid; then the picture is the old one with the outline of the clamped rectangle, in both formats, and padding is unchanged; on -1 no byte changes |
| `Images.Outlined` | libs/draw/src/draw.cpp:118-128 | The outlined image differs from the old one exactly on the lines of the rectangle |
| `Images.OutlineIsBoundary` | libs/draw/src/draw.cpp:118-128 | The outline is what the rectangle covers without its inside; with its sides or edges exchanged only the other pair is left, with both exchanged nothing |
| `Images.CropInsideOutline` | libs/draw/src/draw.cpp:101-158 | Drawing an outline does not change any crop that misses the outline |
| `DrawBuffers.CopyRegion` | libs/draw/src/draw.cpp:132-158 | The crop loops show the cropped region in the top left corner of dst, everything else of dst unchanged, padding included, for any pair of strides |
| `DrawBuffers.CropInto` | libs/draw/src/draw.cpp:313-344 | Dispatch of the crop by format, on valid buffers with room |
| `DrawBuffers.CropRectangle` | libs/draw/src/draw.cpp:313-344 | 0 iff both buffers are valid; then dst shows its old picture with the clamped region of src pasted over its corner; src and padding unchanged |
| `Images.CropOfPasted` | libs/draw/src/draw.cpp:132-158 | Cropping the corner that a crop was pasted into gives the cropped picture back |
| `Images.PastedPixel` | libs/draw/src/draw.cpp:148-157 | Beside and below the pasted patch the image stays as it is |
| `Images.CroppedPixel` | libs/draw/src/draw.cpp:148-157 | A pixel of the crop is that of the image, further right and down by where the crop begins |
| `Images.CropOfCrop` | libs/draw/src/draw.cpp:132-158 | Cropping a crop is cropping once, from the sum of the offsets |
| `Images.CropWhole` | libs/draw/src/draw.cpp:132-158 | Cropping the whole image is the identity |
| `Images.SourcePosRange` | libs/draw/src/draw.cpp:174-192 | The sampled position stays within half a pixel of the source, and mirrored destination pixels sample mirrored positions |
| `Images.GridStep` | libs/draw/src/draw.cpp:174-192 | Neighbouring destination pixels sample positions that are the ratio of the sizes apart |
| `Images.SourcePosIsGrid` | libs/draw/src/draw.cpp:174-192 | The sampled positions are a grid of that distance, the same from either end of the axis |
| `Images.SourcePosIsTheGrid` | libs/draw/src/draw.cpp:174-192 | And the only one: these two laws determine every position (pixel centres) |
| `DrawBuffers.FindTaps` | libs/draw/src/draw.cpp:178-200 | The taps and the weight of one axis, with the branches for negative and clamped indices: those of `TapsOf`, around the one grid of pixel centres (`SourcePosIsTheGrid`, `TapsAreCentred`) |
| `Images.TapsOf` | libs/draw/src/draw.cpp:178-200 | Every sample index lies inside the source, the samples are neighbours, and the weight lies between 0 and 1 |
| `Images.TapsAreCentred` | libs/draw/src/draw.cpp:178-200 | The two taps and the weight interpolate at the pixel centre, clamped to the first and last sample: an independent definition of the sampling |
| `DrawBuffers.ResizePixel` | libs/draw/src/draw.cpp:202-240 | One destination pixel is the rounded bilinear blend of the four source pixels, component by component |
| `DrawBuffers.ResizeAt` | libs/draw/src/draw.cpp:174-243 | One destination pixel of the resize; no other pixel or padding byte changes |
| `DrawBuffers.ResizeInto` | libs/draw/src/draw.cpp:162-243 | The general loop shows exactly `Resized` of the source picture, in both formats and for any strides, and keeps padding |
| `Images.ResizedIsWeighted` | libs/draw/src/draw.cpp:174-240 | What that is, without taps: every component is the sum of all source pixels, weighted on each axis by how near they are to the centre of the destination pixel |
| `Images.QuantizedIsNearest` | libs/draw/src/draw.cpp:213-217 | The byte written is the nearest one, halfway between two the greater |
| `Images.WidenedExample` | libs/draw/src/draw.cpp:174-240 | Two pixels of red 0 and 255 widened to four: 0, 64, 191, 255 |
| `Images.ResizeWithinSamples` | libs/draw/src/draw.cpp:208-240 | Every output value lies between the least and the greatest of its four samples, before and after rounding, so the clamps to 0 and 255 never fire |
| `Images.ResizeToOwnSize` | libs/draw/src/draw.cpp:162-243 | With equal dimensions the general loop gives the source picture back |
| `Images.MirroredTaps` | libs/draw/src/draw.cpp:178-200 | The mirrored destination pixel reads the mirrored samples with exchanged weights, edge branches included |
| `Images.MirroredLerp` | libs/draw/src/draw.cpp:190-212 | One axis: interpolating the flipped line at the mirrored pixel gives the same value |
| `Images.ResizeCommutesWithMirrorX` | libs/draw/src/draw.cpp:162-243 | Resizing commutes with a left-right flip for every image and all sizes, after rounding |
| `Images.ResizeCommutesWithMirrorY` | libs/draw/src/draw.cpp:162-243 | Resizing commutes with a top-bottom flip for every image and all sizes, after rounding |
| `DrawBuffers.CopyBytes` | libs/draw/src/draw.cpp:292-296 | The copy of `src.size` bytes overwrites the front of dst and nothing behind it |
| `DrawBuffers.ResizeBuffers` | libs/draw/src/draw.cpp:298-306 | Dispatch of the resize by format |
| `DrawBuffers.ResizeRectangle` | libs/draw/src/draw.cpp:279-311 | 0 iff both buffers are valid and of one format; equal dimensions copy the bytes, otherwise dst shows the resized picture |
| `DrawBuffers.CopyOnSameGrid` | libs/draw/src/draw.cpp:292-296 | With equal strides the copy shortcut shows what the general loop would show |
| `DrawBuffers.CopyIsResizeIff` | libs/draw/src/draw.cpp:292-296 | For buffers of one format and one size the shortcut shows what the loop shows, whatever the bytes, iff the strides agree or the image is one packed row |
| `DrawBuffers.ConvertedBackIff` | libs/draw/src/draw.cpp:63-99 | Converting a block to another format or stride and back gives it back iff its padding is zero |
| `DrawBuffers.DrawCommutes` | libs/draw/src/draw.cpp:101-130 | Drawing on a converted buffer gives, byte for byte, the converted drawing |
| `DrawBuffers.CropCommutes` | libs/draw/src/draw.cpp:132-158 | Cropping between converted buffers gives, byte for byte, the converted crop |
| `DrawBuffers.ResizeCommutes` | libs/draw/src/draw.cpp:161-243 | Resizing between converted buffers gives, byte for byte, the converted resize |
| `RegionOfInterest.ScaleAxis` | libs/nn/src/edgeapp_core.cpp:329-337 | One axis: start and extent, each scaled with its own floor, still fit, and the full extent scales to the full extent |
| `RegionOfInterest.ScaledRoiInside` | libs/nn/src/edgeapp_core.cpp:325-337 | A region inside the input whose products have 32 bits scales to a region inside the raw image; the whole input to the whole image |
| `RegionOfInterest.ScaledPlaces` | libs/nn/src/edgeapp_core.cpp:325-337 | Each side of the region goes to its own place in the raw image, rounded down, with extents limited to the input first |
| `RegionOfInterest.ClampShrinks` | libs/nn/src/edgeapp_core.cpp:325-356 | For a non-empty region the clamp of the crop never turns it inside out nor makes it larger than the buffer made for it; inside the image it changes nothing |
| `RegionOfInterest.NewPacked` | libs/nn/src/edgeapp_core.cpp:339-352 | The fresh buffer passes the validity check of the crop and has the region's size |
| `RegionOfInterest.CropCorner` | libs/nn/src/edgeapp_core.cpp:339-356 | The crop never writes outside its fresh buffer, whose corner shows the clamped region |
| `RegionOfInterest.CropFresh` | libs/nn/src/edgeapp_core.cpp:339-356 | A region inside the image fills the fresh buffer completely with exactly its pixels |
| `RegionOfInterest.CropToRoi` | libs/nn/src/edgeapp_core.cpp:325-366 | With a scaled region inside the image the fresh buffer is filled completely with exactly those pixels; an empty region falls back to the full frame |
| `InferenceQueue.IndexOf` | libs/send_data/src/send_data.cpp:223-245 | The slot a model's inferences go to: its own, or the first free one |
| `InferenceQueue.GroupsByFirstAppearance` | libs/send_data/src/send_data.cpp:219-248 | The groups are one per distinct model in the order of first appearance |
| `InferenceQueue.GroupsHoldArrivals` | libs/send_data/src/send_data.cpp:219-248 | A group holds its model's inferences in the order of arrival, for messages of one inference |
| `InferenceQueue.AddedKeepsAllIff` | libs/send_data/src/send_data.cpp:231-239 | Appending keeps every inference of a message iff it has one inference or its model has no slot yet: of further ones only the first is kept |
| `InferenceQueue.GroupedKeepsAll` | libs/send_data/src/send_data.cpp:219-248 | The groups hold exactly the waiting inferences, for messages of one inference |
| `InferenceQueue.GroupSizesAddUp` | libs/send_data/src/send_data.cpp:176-216 | The group sizes add up to the number of messages that wait, which is the counter less one, for messages of one inference |
| `InferenceQueue.NextAdds` | libs/send_data/src/send_data.cpp:162-217 | Every accepted call adds exactly what it keeps to what was sent or waits, whether it sends, waits or sends everything |
| `InferenceQueue.HandedOverIff` | libs/send_data/src/send_data.cpp:111-217 | Over every run, with any and changing numbers per message: nothing is handed over or waits that was not accepted, nor twice; and all that was accepted was handed over or waits iff no accepted call brought several inferences for a model already waiting |
| `InferenceQueue.HandedOverExactlyOnce` | libs/send_data/src/send_data.cpp:111-217 | With the formatter's messages of one inference, what was handed over and what waits are together exactly the accepted inferences |
| `InferenceQueue.NeverFull` | libs/send_data/src/send_data.cpp:162-248 | While no number per message exceeds 100, even if it changes between calls, no call is refused and fewer than 100 inferences wait |
| `InferenceQueue.SafeThresholdIff` | libs/send_data/src/send_data.cpp:162-248 | A fixed number per message never meets a full queue, for all runs, iff it is at most 100 |
| `InferenceQueue.BatchesOfN` | libs/send_data/src/send_data.cpp:177-216 | With any fixed number n of at least 2, also beyond 100, the waiting messages are the unfinished batch of accepted ones; each n-th accepted call, and no other call, sends the groups of the last n accepted messages and empties the queue |
| `InferenceQueue.BatchesWithinCapacity` | libs/send_data/src/send_data.cpp:177-216 | For n up to 100 every call is accepted, so each n-th call, and no other, sends the groups of the last n messages |
| `InferenceQueue.BatchDelivered` | libs/send_data/src/send_data.cpp:182-213 | Sending a batch makes one delivery per model, in first-appearance order: its inferences in arrival order, under the timestamp of the first of them (messages of one inference) |
| `InferenceQueue.DirectDelivers` | libs/send_data/src/send_data.cpp:146-160 | With one inference per message the message is delivered at once, under the timestamp of the call, and what waits stays |
| `InferenceQueue.AnswerTells` | libs/send_data/src/send_data.cpp:111-217 | `Failure` iff the call was refused or one of its exports failed, `Enqueued` iff it was accepted and exports nothing, and else `Success` |
| `InferenceQueue.SmallestTimestampIff` | libs/send_data/src/send_data.cpp:185-196 | For all messages: the timestamp each group is sent under is its smallest one iff each message that joins a group begins no earlier than the group, and each message that makes a group begins with its earliest inference |
| `InferenceQueue.DeliveriesSmallestIff` | libs/send_data/src/send_data.cpp:185-202 | The same on what is delivered: each timestamp is the smallest of the delivery iff no message comes too late |
| `InferenceQueue.SmallestTimestampOutOfOrder` | libs/send_data/src/send_data.cpp:185-196 | Two messages of one model in the wrong order are sent under the later timestamp |
| `InferenceQueue.Queue.AppendOutputTensor` | libs/send_data/src/send_data.cpp:219-248 | The occupied slots stay a contiguous prefix holding the groups; false iff all 100 slots belong to other models |
| `InferenceQueue.Queue.SendDataSyncMeta` | libs/send_data/src/send_data.cpp:111-217 | Every call takes the state to `Next` and answers as `Answer` says: invalid input, no memory, unformatted, direct, refused, enqueued, sent, and failed exports |
| `InferenceQueue.Queue.Flush` | libs/send_data/src/send_data.cpp:182-216 | Sends every group once, in slot order, frees the slots, and reports failure iff some export failed |
| `InferenceQueue.Queue.FlushSlots` | libs/send_data/src/send_data.cpp:182-213 | The loop over the slots stops at the first free one and leaves all of them free |
| `TensorShapes.DecodeBounded` | libs/nn/src/edgeapp_core.cpp:526-538 | The decoder with the inner bound terminates and stays in range on every array; it computes `Decoded` iff memory for every announced number of dimensions can be had, and fails otherwise |
| `TensorShapes.CompleteAnnounce` | libs/nn/src/edgeapp_core.cpp:526-538 | With room for 192 dimensions it does not fail on complete shapes |
| `TensorShapes.DecodeUnbounded` | libs/nn/src/edgeapp_core.cpp:575-586 | The decoder without it stays in range iff every shape is complete, and then agrees with the bounded one |
| `TensorShapes.DecodedIff` | libs/nn/src/edgeapp_core.cpp:526-538 | An array is the zero-ended encoding of a list of non-empty shapes iff it is well formed and decodes to that list |
| `TensorShapes.RoundTrip` | libs/py/src/bindings/bind_sensor_frame.cpp:97-107 | Decoding inverts the zero-padded encoding for every list of non-empty shapes that fits into 192 entries |
| `TensorShapes.CountElements` | libs/nn/src/edgeapp_core.cpp:722-758 | The product of the dimensions as the machine computes it |
| `TensorShapes.ElementsMultiply` | libs/nn/src/edgeapp_core.cpp:733-743 | Appending shapes multiplies their numbers of elements |
| `TensorShapes.ElementsOfOne` | libs/nn/src/edgeapp_core.cpp:733-743 | A shape of one dimension has that many elements, and one without dimensions has one |
| `TensorShapes.PlaceInjective` | libs/nn/src/edgeapp_core.cpp:733-743 | No two indices inside a shape have one place in the data |
| `TensorShapes.PlaceBelow` | libs/nn/src/edgeapp_core.cpp:733-743 | Every place is below the number of elements |
| `TensorShapes.IndexAt` | libs/nn/src/edgeapp_core.cpp:733-743 | And every number below it is a place: there are as many elements as indices inside the shape |
| `TensorShapes.OffsetOf` | libs/nn/src/edgeapp_core.cpp:722-758 | The offset recomputed from the first shape on |
| `TensorShapes.GetOutputs` | libs/nn/src/edgeapp_core.cpp:722-758 | One tensor per shape, with offset, size and dimensions of its slice |
| `TensorShapes.RunningOffsets` | libs/py/src/bindings/bind_sensor_frame.cpp:120-130 | The single running offset of the binding, with 32-bit products and sums |
| `TensorShapes.SliceBounds` | libs/nn/src/edgeapp_core.cpp:722-758 | Without overflow a slice is exactly the bytes of its elements |
| `TensorShapes.SliceDims` | libs/nn/src/edgeapp_core.cpp:749-756 | A tensor tells the number of its dimensions and the first four of them |
| `TensorShapes.TwoTensors` | libs/nn/src/edgeapp_core.cpp:722-758 | Shapes of 2 by 5 and 3: 40 bytes at 0, 12 bytes at 40 |
| `TensorShapes.SlicesTile` | libs/nn/src/edgeapp_core.cpp:722-758 | The slices start at 0, are adjacent, and end with four times the number of elements |
| `TensorShapes.SlicesDisjoint` | libs/nn/src/edgeapp_core.cpp:722-758 | Two slices share no byte |
| `TensorShapes.SlicesPartition` | libs/nn/src/edgeapp_core.cpp:722-758 | Every byte of the data is in exactly one slice and no slice holds another byte |
| `TensorShapes.OffsetsAgree32` | libs/py/src/bindings/bind_sensor_frame.cpp:120-130 | With 32-bit sizes the recomputed and the running offset agree for every shape list, overflow included |
| `TensorShapes.OffsetsAgree64Iff` | libs/py/src/bindings/bind_sensor_frame.cpp:120-130 | With 64-bit sizes they agree, for every shape list, iff the number of elements before, modulo the 2^62 elements that 64 bits address, has 32 bits |
| `SlotMap.SlotArray.Set` | libs/common/src/map.cpp:25-38 | Stores into the first free slot, -1 iff there is none |
| `SlotMap.SlotArray.Pop` | libs/common/src/map.cpp:52-63 | Returns and frees the first slot with the key; null if there is none |
| `SlotMap.SlotArray.Remained` | libs/common/src/map.cpp:40-50 | The key of the first slot in use, null iff none is |
| `SlotMap.SlotArray.IsEmpty` | libs/common/src/map.cpp:65-72 | True iff the map is empty |
| `SlotMap.SlotArray.Clear` | libs/common/src/map.cpp:74-79 | Empties every slot |
| `SlotMap.SetAddsKey` | libs/common/src/map.cpp:25-38 | Storing adds one use of the key |
| `SlotMap.PopRemovesKey` | libs/common/src/map.cpp:52-63 | Popping removes one use of the key |
| `SlotMap.FullIff` | libs/common/src/map.cpp:25-38 | The array is full iff as many keys are in use as there are slots |
| `SlotMap.SetExtendsMap` | libs/common/src/map.cpp:25-38 | With distinct keys, storing under an unused key extends the finite map and keeps keys distinct |
| `SlotMap.PopShrinksMap` | libs/common/src/map.cpp:52-63 | With distinct keys, popping returns what the map holds and removes exactly that key |
| `SlotMap.Lookup` | libs/common/src/map.cpp:52-63 | The slots read as a finite map: a key is in it iff it is found |
| `SlotMap.MapSize` | libs/common/src/map.cpp:25-63 | The size of the map is the number of slots in use |
| `BlobProtocol.AllocateKeeps` | libs/receive_data/src/receive_data.cpp:107-121 | A new future keeps the invariant of slots, futures and operations |
| `BlobProtocol.RegisterKeeps` | libs/receive_data/src/receive_data.cpp:222-231 | Registering keeps it, also when the map is full and the future is discarded |
| `BlobProtocol.IssueKeeps` | libs/receive_data/src/receive_data.cpp:233-244 | Issuing keeps it, also when the operation is refused and its slot stays in use |
| `BlobProtocol.CallbackFinds` | libs/receive_data/src/receive_data.cpp:63-105 | A callback pops its own slot and finds its own live future |
| `BlobProtocol.CallbackKeeps` | libs/receive_data/src/receive_data.cpp:63-105 | A callback keeps the invariant |
| `BlobProtocol.StepKeeps` | libs/receive_data/src/receive_data.cpp:63-177 | Every step of any caller, wait, callback or shutdown keeps it, but for a shutdown before the callback |
| `BlobProtocol.ShouldExitFaultsIff` | libs/receive_data/src/receive_data.cpp:130-139 | A main thread told to stop while it processes events frees a future whose operation is outstanding iff the result is still to come; a callback in that window makes the shutdown harmless |
| `BlobProtocol.FaultlessIffNonePremature` | libs/receive_data/src/receive_data.cpp:63-339 | Over every interleaving of any number of callers, with time-outs, shutdowns, a full map and refused operations: each callback finds its own live future and no future is freed before its callback, iff no shutdown was taken while the result was still to come |
| `BlobProtocol.SlotsInUse` | libs/common/src/map.cpp:25-38 | The slots in use are the pending calls and one per refused operation; a call is turned away exactly when that is all of them |
| `BlobProtocol.Quiescence` | libs/receive_data/src/receive_data.cpp:309-323 | With no call in progress nothing is outstanding and every future allocated was freed, exactly once |
| `BlobProtocol.ResultIsDecided` | libs/receive_data/src/receive_data.cpp:63-242 | Over every run, the result of a call is the one given by what last decided on it: `Success` or `Uninitialized` for an early end, `DataTooLarge` for a full map, `Failure` for a refusal, and `Success`, `Denied` or `Failure` for the three reasons of a callback |
| `BlobProtocol.AnswerOfWait` | libs/receive_data/src/receive_data.cpp:123-177 | Over every run, a call leaves its wait only after its callback or an early end, and returns what the reason of the callback or the early end says, or `Timeout` iff its last wait timed out |
| `BlobProtocol.AnswerOfDiscard` | libs/receive_data/src/receive_data.cpp:309-323 | A call is discarded without a wait only for a full map, a refusal, or a callback that is not `Done`, and returns what that says |
| `BlobProtocol.AnswerOfShutdown` | libs/receive_data/src/receive_data.cpp:134-139 | A call told to stop returns `Failure`, whatever the result |
| `BlobProtocol.LeaksPerRefusal` | libs/receive_data/src/receive_data.cpp:237-242 | The slots left in use for good are as many as the operations refused, so none iff none was refused |
| `BlobProtocol.SlotsAreMapIff` | libs/receive_data/src/receive_data.cpp:214-244 | The slots are a finite map from the pending calls to their futures iff no operation was ever refused |
| `Workspace.RealFilenameIff` | libs/receive_data/src/receive_data_utils.cpp:110-122 | For names without a dot, the files of a name are exactly those with that stem |
| `Workspace.NamesClashIff` | libs/receive_data/src/receive_data_utils.cpp:110-122 | Two names have a file in common iff one of them is a file of the other, which never is when neither has a dot |
| `Workspace.SuffixOf` | libs/receive_data/src/receive_data_utils.cpp:32-62 | The suffix is the end from the last dot on, if that is not the first character; otherwise there is none |
| `Workspace.GetSuffixFromUrl` | libs/receive_data/src/receive_data_utils.cpp:32-62 | The backward scan returns that suffix, or nothing |
| `Workspace.SuffixOfExtended` | libs/receive_data/src/receive_data_utils.cpp:32-62 | Of a name with extensions the suffix is the last one, with its dot |
| `Workspace.Directory.RemoveOutdatedFile` | libs/receive_data/src/receive_data_utils.cpp:124-148 | Removes every regular file of the name that can be unlinked and no other, and adds up the code |
| `Workspace.RemovalCodeTells` | libs/receive_data/src/receive_data_utils.cpp:124-148 | The code is 0 iff there was nothing to remove, at most the number of entries if every removal succeeds, and at least 10000 if one fails |
| `Workspace.Directory.FindFilename` | libs/nn/src/edgeapp_core.cpp:75-94 | The lookup of a model returns the first regular file of the name in the listing, or nothing iff there is none or the directory does not open |
| `ReceiveData.Downloader.TargetPath` | libs/receive_data/src/receive_data.cpp:196-206 | The target is the file name with the suffix of the URL |
| `ReceiveData.Downloader.IsFileHashCorrect` | libs/receive_data/src/receive_data_utils.cpp:66-108 | True iff the hash has 64 characters, the file is there and can be read, and its digest is the hash up to the case of the digits; every other way ends in false |
| `ReceiveData.Downloader.CompareIgnoringCase` | libs/receive_data/src/receive_data_utils.cpp:103-107 | The comparison, character by character, differs iff the two texts differ in lower case |
| `ReceiveData.Downloader.DownloadBlob` | libs/receive_data/src/receive_data.cpp:179-245 | One attempt: its result, the files afterwards, and at most one blob operation |
| `ReceiveData.AttemptRequestsIff` | libs/receive_data/src/receive_data.cpp:179-245 | An attempt requests an operation iff there are a workspace and a slot and the file does not already pass the check; an accepted one answers and stores what the operation does |
| `ReceiveData.Downloader.HashCheckAndRetry` | libs/receive_data/src/receive_data.cpp:247-277 | Counts a failed verification, and resets the static counter after a passed one or on request |
| `ReceiveData.Downloader.EdgeAppLibReceiveData` | libs/receive_data/src/receive_data.cpp:290-339 | Terminates, leaves the counter at 0 on every outcome, and returns the result, leaves the files and requests the operations that `Receive` says; started with the counter at 0 at most three operations |
| `ReceiveData.SuccessIff` | libs/receive_data/src/receive_data.cpp:309-339 | A download succeeds iff one of three attempts does: all up to it answer `Success`, none before it passes the check, and it does; its files and operations are those of the download, at most three operations |
| `ReceiveData.FailsAfterThree` | libs/receive_data/src/receive_data.cpp:325-333 | Three attempts that answer `Success` and fail the check make the download fail, with the files of the third |
| `ReceiveData.OtherAnswerEnds` | libs/receive_data/src/receive_data.cpp:325-338 | An attempt that answers anything else ends the download with that answer |
| `ReceiveData.ReceiveEnds` | libs/receive_data/src/receive_data.cpp:290-339 | Every download ends at one attempt, with its files, its answer or the outcome of the check, and the operations up to it |
| `ReceiveData.SuccessIsVerified` | libs/receive_data/src/receive_data.cpp:290-339 | Success means that the target file passed the last hash check |
| `ReceiveData.AttemptKeepsOthers` | libs/receive_data/src/receive_data.cpp:196-219 | An attempt leaves files of other names as they are, and makes no file new but the target |
| `ReceiveData.ReceiveKeepsOthers` | libs/receive_data/src/receive_data.cpp:290-339 | A whole download leaves files of other names as they are |
| `ReceiveData.ReceiveKeepsOnePerStem` | libs/receive_data/src/receive_data.cpp:196-219 | A receive with working removal keeps at most one file per name |
| `ReceiveData.WorkspaceKeepsOnePerStem` | libs/receive_data/src/receive_data.cpp:196-219 | So does every sequence of receives from an empty workspace |
| `ReceiveData.LookupIsUnique` | libs/nn/src/edgeapp_core.cpp:75-94 | Then at most one file matches each dot-free name |
| `ReceiveData.LookupFindsVerified` | libs/nn/src/edgeapp_core.cpp:75-110 | After a successful receive the files that the lookup may return are exactly the verified target, with or without a suffix |
| `ReceiveData.OnePerStemIff` | libs/receive_data/src/receive_data.cpp:179-245 | From one file per name, an attempt under a dot-free name keeps one file per name iff it does not store a file while another one of the name is not removed |
| `ModelLifetime.EdgeAppCore.LoadModel` | libs/nn/src/edgeapp_core.cpp:112-231 | Success iff the parameters and every call are in order; then the context is counted and flagged, otherwise nothing changes and the context is blank again |
| `ModelLifetime.OpenSensor` | libs/nn/src/edgeapp_core.cpp:145-188 | The sensor side of a load, with the clean-up of every failure |
| `ModelLifetime.OpenGraph` | libs/nn/src/edgeapp_core.cpp:190-225 | The host side of a load, with the clean-up of every failure |
| `ModelLifetime.EdgeAppCore.Enter` | libs/nn/src/edgeapp_core.cpp:183-228 | The loaded context takes the count as its index, and the count goes up |
| `ModelLifetime.EdgeAppCore.UnloadModel` | libs/nn/src/edgeapp_core.cpp:878-928 | Takes the books from one state to `Next`: the context leaves, and the last one stops and closes the sensor that waits |
| `ModelLifetime.EdgeAppCore.Leave` | libs/nn/src/edgeapp_core.cpp:880-904 | Counts a context down exactly once, on either side, and makes an on-sensor context wait |
| `ModelLifetime.EdgeAppCore.Stop` | libs/nn/src/edgeapp_core.cpp:906-925 | Stops and closes the waiting sensor and clears its pointers |
| `ModelLifetime.RunConsistent` | libs/nn/src/edgeapp_core.cpp:112-928 | Over every run of loads and unloads the running sensors are those of loaded contexts, the waiting one, and those that lost their place; nothing waits when nothing is loaded |
| `ModelLifetime.LostIffDisplaced` | libs/nn/src/edgeapp_core.cpp:878-889 | A context loses its place iff another on-sensor context is unloaded while it waits |
| `ModelLifetime.AllStoppedIff` | libs/nn/src/edgeapp_core.cpp:878-928 | Once every context is unloaded every sensor is stopped iff no unload took another's place |
| `ModelLifetime.SingleSensorNeverDisplaces` | libs/nn/src/edgeapp_core.cpp:878-928 | With one on-sensor context none does |
| `ModelLifetime.SingleSensorRuns` | libs/nn/src/edgeapp_core.cpp:112-928 | With one on-sensor context its sensor runs exactly while it is loaded or waits for the others |
| `ModelLifetime.RunBalanced` | libs/nn/src/edgeapp_core.cpp:112-928 | Every start is matched by one stop, but for a running sensor, and every stop by one close |
| `ModelLifetime.RunOrderly` | libs/nn/src/edgeapp_core.cpp:183-924 | Over every run and at every moment of it, a sensor is never stopped more often than started, nor closed more often than stopped |
| `ModelLifetime.StartedOncePerLoad` | libs/nn/src/edgeapp_core.cpp:183-188 | The sensor is started once per load of its context |
| `ModelLifetime.StoppedOncePerLoad` | libs/nn/src/edgeapp_core.cpp:906-925 | With one on-sensor context, whatever the unload order: once all are unloaded it was stopped and closed exactly as often as loaded |
| `ModelLifetime.StopsAtLastUnload` | libs/nn/src/edgeapp_core.cpp:906-925 | A call stops the sensor iff it unloads the last loaded context while the sensor runs |
| `ModelLifetime.TwoSensorsLoseOne` | libs/nn/src/edgeapp_core.cpp:878-889 | Two on-sensor contexts unloaded one after the other: the first one's sensor is never stopped |
| `OperationSync.SharedState.WaitForOperationsToComplete` | libs/py/src/py_data_export.cpp:340-365 | Reserves the operation at the first hold that finds the others done; gives up iff none does in time; all in holds that the protocol allows |
| `OperationSync.SharedState.WaitForCallbackCompletion` | libs/py/src/py_data_export.cpp:368-387 | Succeeds iff a hold finds the callback made in time, and abandons the wait otherwise |
| `OperationSync.SharedState.RunSynchronizedOperation` | libs/py/src/py_data_export.cpp:481-537 | Makes exactly the holds that the protocol allows a thread; succeeds iff the others are done in time, the operation is accepted, no exit is requested, and the callback is seen in time; and its last hold tells which of these failed first |
| `OperationSync.ReserveSound` | libs/py/src/py_data_export.cpp:340-365 | Reserving keeps the protocol for every other thread |
| `OperationSync.IssueSound` | libs/py/src/py_data_export.cpp:492-500 | So do acceptance and the clean-up after a refused operation |
| `OperationSync.CallbackSound` | libs/py/src/py_data_export.cpp:390-413 | So do the two callbacks |
| `OperationSync.StepSoundIff` | libs/py/src/py_data_export.cpp:340-537 | From a sound state a step keeps the protocol iff it does not clear the flag (time-out of the callback wait, exit) while an operation is open |
| `OperationSync.RunSoundIff` | libs/py/src/py_data_export.cpp:340-537 | For any number of threads and every interleaving the protocol holds throughout iff no such step is ever taken |
| `OperationSync.OneOperation` | libs/py/src/py_data_export.cpp:340-537 | Then the flag is set iff exactly one operation is reserved and neither failed nor called back, and at most one callback is due |
| `OperationSync.TimeoutLetsTwoIn` | libs/py/src/py_data_export.cpp:368-387 | Of any three threads, the first, timing out on the operation of the second, lets the third in: two callbacks are due at once |
| `OperationSync.StepGuardedIff` | libs/py/src/py_data_export.cpp:340-537 | While the flag guards every thread that waits or is in its operation, a step keeps it so iff no thread clears the flag while another one waits or is in its operation |
| `OperationSync.RunGuardedIff` | libs/py/src/py_data_export.cpp:340-537 | For any number of threads and every interleaving the flag guards them throughout iff no such step is ever taken |
| `OperationSync.GuardExcludesDispatch` | libs/sm/src/states/running.cpp:68-96 | Then the main loop dispatches no events while any operation runs |
| `OperationSync.UnguardedOverlaps` | libs/sm/src/states/running.cpp:68-96 | The guard is needed: every run that leaves a thread unguarded goes on, without forgetting an operation, to one in which the main loop dispatches during that thread's operation |
| `OperationSync.OneThreadExcludesDispatch` | libs/sm/src/states/running.cpp:68-96 | With one client thread the flag is never taken, and the main loop never dispatches during an operation |
| `OperationSync.TwoThreadsDoNot` | libs/py/src/py_data_export.cpp:517-523 | Of any two threads the first to finish may clear the flag that the second one relies on: a run in which the loop dispatches during its operation |
| `StateMachine.StateMachineContext.UpdateProcessState` | libs/sm/src/sm_configurator.cpp:25-48 | Changes the next state and gives notice iff the request differs from it and is feasible; an infeasible one is refused |
| `StateMachine.StateMachineContext.SetProcessState` | libs/sm/src/dtdl_model/objects/common_settings.cpp:184-197 | A request that is not refused sets the process state if that is reportable |
| `StateMachine.RequestTells` | libs/sm/src/dtdl_model/objects/common_settings.cpp:184-198 | A request changes the next state iff it is another one and feasible; it is then noticed, and set as process state if it is `Idle` or `Running` |
| `StateMachine.FeasibleTo` | libs/sm/src/states/state_utils.cpp:27-40 | The transition table, read by the states it leads to |
| `StateMachine.StateMachineContext.SetCurrentState` | libs/sm/src/sm_context.cpp:40-58 | The destructor runs first; then the state is entered and becomes the next one unless the machine is to be destroyed |
| `StateMachine.StateMachineContext.Transition` | libs/sm/src/sm_core.cpp:47-59 | Enters the requested state, or `Idle` when `Running` failed to start |
| `StateMachine.StateMachineContext.LoopIterate` | libs/sm/src/sm_core.cpp:34-69 | One iteration is `Iterated`, status included |
| `StateMachine.StateMachineContext.Run` | libs/sm/src/sm_core.cpp:71-82 | Runs the loop to its end; it ends in `Destroying` only |
| `StateMachine.IterationSettles` | libs/sm/src/sm_core.cpp:34-69 | Whatever the states do: the loop ends iff the state is `Destroying`, which is not left; after every other iteration the next state is the current one or `Destroying` and no notice is pending |
| `StateMachine.EnteredIs` | libs/sm/src/sm_core.cpp:47-59 | The state after an iteration: the requested one, or `Idle` iff `Running` was requested and its constructor asked for `Idle` |
| `StateMachine.LeftInSequence` | libs/sm/src/sm_core.cpp:50-58 | In a transition the constructor of the next state works first, then, after a failed start, its destructor and the constructor of `Idle`, and last the destructor of the old state |
| `StateMachine.DestroyingIsKept` | libs/sm/src/sm_context.cpp:40-57 | A state that asks for `Destroying` in whatever it does during a transition is heard |
| `StateMachine.QuietReportedIff` | libs/sm/src/sm_core.cpp:61-66 | Without a transition the process state is reported iff a notice is pending |
| `StateMachine.NoStateIff` | libs/sm/src/states/state_factory.cpp:26-44 | The machine is left without a state iff a state other than `Destroying` asks for `Exiting` |
| `StateMachine.EnteredReportable` | libs/sm/src/sm_context.cpp:48-56 | Entering `Idle` or `Running` makes it the process state, with a notice iff both the process state and the next state differed |
| `StateMachine.SettledReportedIff` | libs/sm/src/sm_core.cpp:47-66 | A transition that settles in `Idle` or `Running` leaves that process state; the iteration reports it iff a notice was pending or both states differed |
| `StateMachine.SilentTransition` | libs/sm/src/states/applying.cpp:100-104 | `Applying` goes back to the process state without a notice, which is then not reported again |
| `StateMachine.RequestsAreFeasible` | libs/sm/src/sm_configurator.cpp:25-48 | States that only make requests are left along feasible transitions |
| `StateMachine.EnteredFeasibly` | libs/sm/src/sm_core.cpp:47-59 | The state entered is then the one requested and feasible, or `Idle` after a failed start |
| `StateMachine.RunInvariant` | libs/sm/src/sm_core.cpp:71-82 | The same over every run |
| `StateMachine.DestroyingIsLast` | libs/sm/src/sm_core.cpp:41-45 | Once `Destroying` is current the next iteration is the last, whatever follows |
| `SwitchDnn.GetCropIc` | sample_apps/switch_dnn/src/sm.cpp:173-218 | The first marked detection, scaled; nothing iff none is marked |
| `SwitchDnn.BoxCropsInside` | sample_apps/switch_dnn/src/sm.cpp:199-210 | A box inside the input tensor gives a crop inside the camera image, non-empty iff the box is and the image is not smaller than the tensor |
| `SwitchDnn.ProportionalIff` | sample_apps/switch_dnn/src/sm.cpp:203-210 | The crop is the box in proportion to the image iff on each axis the tensor's size divides the image's, or the box begins and ends at the origin |
| `SwitchDnn.ScaledExactlyIff` | sample_apps/switch_dnn/src/sm.cpp:203-210 | How far a scaled coordinate falls short of its place, and when it does not |
| `SwitchDnn.DisplacedBox` | sample_apps/switch_dnn/src/sm.cpp:203-210 | A box that reaches the edge of a 320 pixel tensor gives a crop that ends at 960 of 1279 pixels |
| `SwitchDnn.Application.IsUsable` | sample_apps/switch_dnn/src/sm.cpp:539-576 | Checks network, crop and raw data of the frame; a stray crop is set again to that of the mode |
| `SwitchDnn.Application.NextCrop` | sample_apps/switch_dnn/src/sm.cpp:626-651 | The crop of the mode that follows: that of the detection, the fixed one when forced, or the camera image |
| `SwitchDnn.Application.SendAndSwitch` | sample_apps/switch_dnn/src/sm.cpp:621-675 | Sends the data of the mode and passes it iff crop and network of the other one are set |
| `SwitchDnn.Application.TakeFrame` | sample_apps/switch_dnn/src/sm.cpp:526-620 | The frame is got, its image sent, and it is found usable and analysed or not |
| `SwitchDnn.Application.GiveBack` | sample_apps/switch_dnn/src/sm.cpp:676-684 | An image sent is awaited and cleaned up, then the frame is released |
| `SwitchDnn.Application.HandleFrame` | sample_apps/switch_dnn/src/sm.cpp:517-689 | Every frame got is released last in the same try, its image awaited first; a stray crop is set again; the mode is passed iff every condition holds |
| `SwitchDnn.Application.OnIterate` | sample_apps/switch_dnn/src/sm.cpp:495-694 | At most ten tries, calls in order, no frame held in the end; finished iff a frame passes the detection and a later one the classification before a sensor error |
| `SwitchDnn.ModeAfterIff` | sample_apps/switch_dnn/src/sm.cpp:517-694 | The mode reached after n tries in terms of the frames alone |
| `SwitchDnn.ReleasedOnce` | sample_apps/switch_dnn/src/sm.cpp:681-684 | In every order of calls an iteration may make, a frame is got at most once and released as often, unless still held |
| `SwitchDnn.ImageAwaitedOnce` | sample_apps/switch_dnn/src/sm.cpp:676-684 | An image is sent at most once per frame, and awaited and cleaned up as often by the time the frame is released |
| `SwitchDnn.SendsAreOrdered` | sample_apps/switch_dnn/src/sm.cpp:621-675 | The successful sends are detections and then classifications, and a finished iteration ends with a classification |
| `SwitchDnn.SwitchesOnce` | sample_apps/switch_dnn/src/sm.cpp:665-672 | The mode changes at most once to the classification and once to the end |
| `Normalise.ProductIsElements` | libs/nn/src/nn.cpp:102-106 | The element count does not depend on the order of the factors |
| `Normalise.StrideFitsIff` | libs/nn/src/nn.cpp:116-117 | No increment of the loops wraps around 32 bits iff the elements and one more stride fit |
| `Normalise.IndexInTensor` | libs/nn/src/nn.cpp:114-122 | A sample's index lies in the tensor and its remainder by the channel count is its channel |
| `Normalise.NormalisedInvertible` | libs/nn/src/nn.cpp:117-121 | The sample can be computed back from its normalised value |
| `Normalise.Normaliser.NormaliseChannel` | libs/nn/src/nn.cpp:117-121 | The inner loop writes the samples of one channel and no others |
| `Normalise.Normaliser.NormaliseInto` | libs/nn/src/nn.cpp:116-122 | Every element is written exactly once, with the value normalised by its channel's mean and norm |
| `Normalise.Normaliser.SetInput` | libs/nn/src/nn.cpp:89-137 | The new tensor holds, at every image, row, column and channel, the normalised sample |

## Left out

- Floating-point rounding: interpolation, normalisation and crop scales are computed over reals or integers, and no bit-exact result is claimed.
- DrawBuffers.DrawRectangle: requires `Sound` (rows do not overlap, offsets fit a signed 32-bit number, as much memory as the size says), which the code does not check; `InsideBlockIff` says that on a smaller stride the picture does not lie inside the block.
- DrawBuffers.CropRectangle: additionally requires equal formats, room in dst and a clamped rectangle that is not inside out, which the code does not check.
- DrawBuffers.ResizeRectangle: additionally requires, for equal dimensions, that src has no more bytes than dst, since the shortcut copies `src.size` bytes.
- Cropping or resizing a buffer into itself, or between buffers that share memory.
- RegionOfInterest.CropToRoi: sizes whose products overflow 32 bits in the allocation, and a failed allocation, are left out.
- InferenceQueue.Queue.SendDataSyncMeta: one call at a time; the counter is read outside the mutex, and interleaved calls are not modelled. A message without a model identifier or with an empty array of inferences is left out.
- InferenceQueue.HandedOverExactlyOnce: for messages with one inference, which is what the formatter makes; `HandedOverIff` is about all messages.
- Timestamps in text and their conversion, base64 and JSON: a message is its model and its inferences.
- SendDataSyncImage: one export per image, nothing spanning calls.
- TensorShapes.DecodeUnbounded: what a read behind the array returns is not modelled, only that it happens.
- BlobProtocol.FaultlessIffNonePremature: the model does not tell which caller is the main thread, so it has more interleavings than the code. A callback is one step, each operation that was issued calls back once, and the unlocked read of the result is one step.
- SlotMap.SlotArray.Set: null keys and null values are left out; no caller passes them.
- ReceiveData.Downloader.DownloadBlob: the wait for the operation is its answer; the interleaving of waits and callbacks is in `BlobProtocol`. A failed allocation of the future, paths over the length limit, and file names with a slash are left out.
- ReceiveData.Downloader.IsFileHashCorrect: the computation of SHA-256 is a function of the content; its header, which defines the length of the text, is not part of this model.
- ReceiveData.LookupFindsVerified: files that others put into the workspace, and operations that store elsewhere.
- ModelLifetime.EdgeAppCore.LoadModel: for a context that is not in use; a context in use would be overwritten. Two to the power of 32 loaded contexts, the error state sent when the stream does not open, the closing of a stream that did not start, and the warning for a long name are left out.
- ModelLifetime.EdgeAppCore.UnloadModel: for a loaded context; a second unload of one context would count twice. The temporary input buffer is left out.
- OperationSync.SharedState.RunSynchronizedOperation: the condition variable wakes a waiting thread at any time, and a wait that does not end is not a run; liveness is not stated.
- StateMachine.StateMachineContext.LoopIterate: what threads of the application do to the context while the loop works on it counts as done by the state in between; allocation of states and the pending configuration are left out.
- SwitchDnn.Application.OnIterate: the analysers, the content of the data sent and the failed export of data, which changes nothing in the loop, are left out.
- SwitchDnn.GetCropIc: the size of the input tensor is not zero; a box with its corners exchanged gives a negative size here and an arbitrary one in the code.
- Normalise.Normaliser.SetInput: requires that the element count and one more stride fit 32 bits; beyond, the count or the index wraps around (`StrideFitsIff`), and what the loops then write is left out.
- The ownership of processed frames, property dispatch, sensor channels, the Python command line, the brokers and servers of the tools, and the other sample applications.
- The individual states of the machine: they are any sequence of operations on the context.
