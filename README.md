# TextRecoginizer: tensor packing and top-label selection

This project models the two algorithmic parts of `TextRecoginizer`, the
Android camera app's bridge to an image classifier:

- **Tensor packing** (`convertBitmapToByteBuffer`). The scaled 224 x 224
  bitmap's pixels arrive as packed 32-bit ARGB Kotlin `Int`s in `intValues`.
  They are written, in array order, into a direct byte buffer of
  `DIM_BATCH_SIZE * DIM_IMG_SIZE_X * DIM_IMG_SIZE_Y * DIM_PIXEL_SIZE` =
  150528 bytes, three bytes (red, green, blue) per pixel; alpha is dropped.
  Module `TensorEncoder`: the method `ConvertBitmapToByteBuffer` keeps the
  Kotlin code's nested loops, its running `pixel` counter and the buffer's put
  position. It is proved equal to the specification function `Encode`.
  Lemmas then say what `Encode` produces: byte `3p + c` is channel `c` of
  pixel `p`. Kotlin's `shr` and `and 0xFF` on a signed `Int` pick out exactly
  the bits of the 32-bit pattern, also for negative pixels. Packing bytes
  into a pixel and extracting them again is a round trip in both directions,
  and the alpha byte never reaches the buffer.
- **Top-label selection** (`getTopLabels`). Each label's score is its output
  byte read as unsigned (`toInt() and 0xff`). Every `(label, score)` pair is
  added to a `java.util.PriorityQueue` ordered by score. The queue's minimum
  is polled whenever it holds more than `RESULTS_TO_SHOW` = 3 entries.
  Afterwards the queue is drained by `poll` into the result. Module
  `TopLabels`: `LabelQueue` models the priority queue (`add`, `poll`);
  `TextRecognizer` holds the label list and the shared queue. Its
  `GetTopLabels` keeps the first loop and calls `DrainSortedLabels` for the
  second, the drain. Its contract states:
  - the result is a top-3 by score of the entries offered (`IsTopK`: drawn from them,
    `min(3, n)` entries, nothing evicted scores above anything kept);
  - the result is in ascending score order;
  - the shared queue is empty afterwards;
  - it fails exactly when the output row is shorter than the label list.

Scores are compared as the unsigned byte values 0..255. getTopLabels divides
them by 255 into floats, and that map is strictly increasing, so it orders
entries the same way. `java.util.PriorityQueue` gives no order among equal
scores. The model's queue polls the first minimal entry it holds, but no
contract depends on which of several tied entries is chosen.
`TopKDifferOnlyInTies` states that two admissible selections differ only
among equal scores.

Points of the code's behaviour worth stating:

- The result is in **ascending** score order, because the drain polls the
  minimum first.
- Every call that completes empties the shared queue, because the drain
  polls `size` times. Entries carry over only after a call that was
  aborted. That happens when the output row is shorter than the label
  list: `labelProbArray[0][i]` throws part way through, and the queue keeps a top-3 of what was read so far.
  `GetTopLabels` models this as `Failure(IndexOutOfBounds(...))`, and its
  contract covers a queue that is not empty on entry.
  `SecondCallIgnoresFirst` shows that after a successful call the next
  call's result depends on its own input only.
- The number of results is the constant `RESULTS_TO_SHOW`, not a parameter.
  The tensor dimensions are constants. There is therefore no invalid-argument
  or invalid-dimension error.
- The result holds `(label, score)` entries, not the `"label:score"` strings
  the code builds.

## Model

| member | source | states |
|---|---|---|
| TensorEncoder.Unsigned32 | Application/src/main/java/com/example/android/camera2basic/TextRecoginizer.kt:137 | the 32-bit pattern of a signed pixel Int, as the unique value in 0..2^32-1 congruent to it modulo 2^32 |
| TensorEncoder.Red | Application/src/main/java/com/example/android/camera2basic/TextRecoginizer.kt:138 | `val shr 16 and 0xFF` is always within 0..255 |
| TensorEncoder.Green | Application/src/main/java/com/example/android/camera2basic/TextRecoginizer.kt:139 | `val shr 8 and 0xFF` is always within 0..255 |
| TensorEncoder.Blue | Application/src/main/java/com/example/android/camera2basic/TextRecoginizer.kt:140 | `val and 0xFF` is always within 0..255 |
| TensorEncoder.Alpha | Application/src/main/java/com/example/android/camera2basic/TextRecoginizer.kt:137-140 | the high (alpha) byte of a pixel, within 0..255; used to show it is the byte the packing drops |
| TensorEncoder.Argb | Application/src/main/java/com/example/android/camera2basic/TextRecoginizer.kt:131-132 | the packed ARGB Int whose 32-bit pattern is a, r, g, b from high byte to low |
| TensorEncoder.Encode | Application/src/main/java/com/example/android/camera2basic/TextRecoginizer.kt:134-142 | the bytes put for a pixel sequence, three per pixel |
| TensorEncoder.ChannelsAreBitFields | Application/src/main/java/com/example/android/camera2basic/TextRecoginizer.kt:137-140 | arithmetic shift plus mask gives bits 16-23, 8-15 and 0-7 of the unsigned 32-bit pattern, also for negative Ints |
| TensorEncoder.ArgbChannels | Application/src/main/java/com/example/android/camera2basic/TextRecoginizer.kt:137-140 | extracting from a packed pixel returns its r, g, b bytes whatever its alpha, including an alpha that makes the Int negative |
| TensorEncoder.ChannelsArgb | Application/src/main/java/com/example/android/camera2basic/TextRecoginizer.kt:137-140 | every Int is the packing of its alpha, red, green and blue bytes, so the extraction loses only alpha |
| TensorEncoder.EncodeAt | Application/src/main/java/com/example/android/camera2basic/TextRecoginizer.kt:134-140 | byte 3p, 3p+1, 3p+2 of the encoding is red, green, blue of pixel p |
| TensorEncoder.EncodeStep | Application/src/main/java/com/example/android/camera2basic/TextRecoginizer.kt:137-140 | each visited pixel appends exactly its three bytes after those of the pixels before it |
| TensorEncoder.ConvertBitmapToByteBuffer | Application/src/main/java/com/example/android/camera2basic/TextRecoginizer.kt:122-144 | allocates a fresh buffer of exactly 1*224*224*3 bytes and fills it completely with the encoding of all of intValues in index order, without gaps or overflow |
| TopLabels.UnsignedScore | Application/src/main/java/com/example/android/camera2basic/TextRecoginizer.kt:150 | `toInt() and 0xff` reads a signed byte as unsigned: itself when non-negative, plus 256 when negative |
| TopLabels.MinIndex | Application/src/main/java/com/example/android/camera2basic/TextRecoginizer.kt:36-38 | an index of an entry whose score is no larger than any other's, the head of the score-ordered queue |
| TopLabels.RemoveAt | Application/src/main/java/com/example/android/camera2basic/TextRecoginizer.kt:152 | removing that head removes exactly one occurrence of it from the queue's multiset |
| TopLabels.LabelQueue.constructor | Application/src/main/java/com/example/android/camera2basic/TextRecoginizer.kt:36-38 | the queue starts empty |
| TopLabels.LabelQueue.Add | Application/src/main/java/com/example/android/camera2basic/TextRecoginizer.kt:149-150 | `add` puts one more entry in the queue and changes nothing else |
| TopLabels.LabelQueue.Poll | Application/src/main/java/com/example/android/camera2basic/TextRecoginizer.kt:152 | `poll` returns null on an empty queue; otherwise it removes and returns one entry of least score |
| TopLabels.EntriesStep | Application/src/main/java/com/example/android/camera2basic/TextRecoginizer.kt:148-150 | each iteration offers exactly one new entry, for label i |
| TopLabels.AddKeepsTopK | Application/src/main/java/com/example/android/camera2basic/TextRecoginizer.kt:149-151 | adding to a queue below capacity, with no poll, keeps it a top-3 of everything offered |
| TopLabels.AddPollKeepsTopK | Application/src/main/java/com/example/android/camera2basic/TextRecoginizer.kt:149-153 | adding to a full queue and polling its minimum keeps it a top-3 of everything offered: nothing evicted outscores anything kept |
| TopLabels.TopKDifferOnlyInTies | Application/src/main/java/com/example/android/camera2basic/TextRecoginizer.kt:36-38 | two top-k selections from the same entries can differ only by exchanging entries of equal score |
| TopLabels.TextRecognizer.constructor | Application/src/main/java/com/example/android/camera2basic/TextRecoginizer.kt:35-42 | a recognizer over a label list and a shared queue holding at most RESULTS_TO_SHOW entries |
| TopLabels.TextRecognizer.AddBounded | Application/src/main/java/com/example/android/camera2basic/TextRecoginizer.kt:149-153 | the add-then-poll-if-over step draws the new queue from the old one plus the entry (exactly that below capacity, three entries at capacity), keeps it within RESULTS_TO_SHOW and a top-3 of all entries offered so far |
| TopLabels.TextRecognizer.DrainSortedLabels | Application/src/main/java/com/example/android/camera2basic/TextRecoginizer.kt:155-160 | polling size times returns exactly the queue's entries (as a multiset) in ascending score order and leaves the queue empty |
| TopLabels.TextRecognizer.GetTopLabels | Application/src/main/java/com/example/android/camera2basic/TextRecoginizer.kt:146-162 | fails exactly when the output row is shorter than the label list; on success it returns a top-3 of the entries (min(3, labels) of them from an empty queue) in ascending score order and empties the queue; on failure the queue keeps a top-3 of the entries read |
| TopLabels.SecondCallIgnoresFirst | Application/src/main/java/com/example/android/camera2basic/TextRecoginizer.kt:156-160 | after one successful call, the next call's result is a top-3 of its own entries only |

## Left out

- `initCustomModel` (Firebase model registration, download conditions, interpreter construction): configuration of an external library. The label list and the shared queue are constructor parameters instead.
- `loadLabelList`: reading the labels asset is file I/O; the label list is given as a sequence of strings.
- `runTextRecognition` and `runModelInference`: calls into the OCR and inference services and the coroutine bridging around them. The interpreter's output is a parameter of `GetTopLabels`.
- `Bitmap.createScaledBitmap` and `getPixels`: Android image scaling is a foreign call. `intValues` is taken as already filled with the scaled bitmap's pixels.
- The division by 255.0f and the `label + ":" + value` formatting: floating point and `Float.toString`. Scores stay as the unsigned bytes 0..255, which order entries the same way, and results are entries.
- `@Synchronized` and the sharing of the companion object's `intValues` array and queue between instances and threads: concurrency is not modelled; each call runs alone.
- `ByteOrder.nativeOrder()` and `rewind()`: only single bytes are written, and a fresh buffer is already at position 0. The buffer's position after the puts is not modelled.
- The heap inside `java.util.PriorityQueue`: the queue is modelled by its contents only, and which tied entry `poll` returns is left unspecified in every contract.
- The `lateinit` label list being read before `initCustomModel` has run: the model's label list is always set.
- Only row 0 of the interpreter's output is read, as the code does. An output with no row at all behaves like an empty row.
