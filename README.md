# HomeObjectController recognition engine in Dafny

HomeObjectController is an Android app. It shows the camera feed, lets the
object detector find objects in each frame, and lets the user give an object
a custom name ("my mug"). It stores one record per named object: the
detector's category, the custom name and a colour fingerprint of the cropped
object. In later frames it recognises the object again in one of two ways:

- through a cache keyed by the detector's tracking id;
- failing that, by comparing the crop's fingerprint with every stored record
  of the same category and taking the most similar one, provided its
  similarity is strictly above 0.85.

This project models that engine and proves properties of the model.

| file | module | models |
|---|---|---|
| `wrappers.dfy` | `Wrappers` | `Option`, for Kotlin's nullable values |
| `graphics.dfy` | `Graphics` | Kotlin `Int` (`Int32`, with `Wrap32` for wrap-around), `Rect`, `Bitmap` (its ARGB pixels) |
| `feature_extractor.dfy` | `FeatureExtractor` | `extractColorHistogram`: a 64-bin RGB histogram, four bins per channel, normalised by the pixel count; `cosineSimilarity` |
| `custom_label_dao.dfy` | `CustomLabelDao` | the `custom_labels` table: REPLACE-on-conflict insert with an auto-generated id, select by category, select all, delete by id |
| `object_detector_analyzer.dfy` | `ObjectDetectorAnalyzer` | crop-rectangle clamping, the "Unknown" label default, mapping detector results (an empty list on failure), NV21 buffer assembly |
| `main_activity.dfy` | `MainActivity` | the recognition cache, `processDetections`, `findMatchingCustomLabel`, the label dialog's `existingId`, `saveCustomLabel`, `deleteCustomLabel` |

Code that computes values is written as functions and lemmas. The loops and
the mutable state keep their imperative form:

- The histogram is built in a fresh `array<real>` by the same two loops as
  the source. It is proved equal to the specification `Histogram`.
- `CosineSimilarity` is one accumulating loop, proved equal to `Cosine`.
- `BufferGet` copies into the NV21 `array` element by element.
- The table is a class `Table` whose `rows` and `lastId` the methods update.
- The activity is a class `Recognizer` holding `recognitionCache` and the
  table.
- `FindMatchingCustomLabel` and `ProcessDetections` are the source's loops.
  Each is proved equal to a function (`Match`, `Process`), and the
  properties are proved about that function.

Numbers and storage are modelled as follows:

- **Floating point.** Kotlin `Float` is modelled as exact `real`. The square
  root is a parameter, constrained by `IsSqrt` where a lemma needs it.
- **Pixels.** A pixel is a Kotlin `Int`. `(p shr k) and 0xFF` is written
  `(p / 2^k) % 256`, which is exact under Dafny's Euclidean division, negative
  pixels included.
- **JSON.** Gson encoding and decoding of feature vectors are function
  parameters (`encode`, `decode`).
- **Ids.** Room declares the primary key auto-generated, so SQLite gives a
  record inserted with id 0 one more than the largest id the table has ever
  held (`lastId`). A record with any other id keeps it and replaces a stored
  row with the same id.
- **Row order.** The queries have no `ORDER BY`, so SQL promises no order.
  The model fixes the order SQLite uses to scan this table, which has no
  index: ascending id. `Match` keeps the first of equally similar
  candidates, so which tied record wins depends on that choice.

## Model

Source paths are relative to the repository root.

| member | source | states |
|---|---|---|
| Graphics.Wrap32 | app/src/main/java/com/homeobjectcontroller/ObjectDetectorAnalyzer.kt:117-118 | Kotlin `Int` subtraction: the result is congruent to the exact difference modulo 2^32 and equals it when it fits in 32 bits |
| FeatureExtractor.Red | app/src/main/java/com/homeobjectcontroller/util/FeatureExtractor.kt:28 | `(pixel shr 16) and 0xFF` is a channel value in 0..255 for every pixel, negative ones included |
| FeatureExtractor.Green | app/src/main/java/com/homeobjectcontroller/util/FeatureExtractor.kt:29 | `(pixel shr 8) and 0xFF` is in 0..255 |
| FeatureExtractor.Blue | app/src/main/java/com/homeobjectcontroller/util/FeatureExtractor.kt:30 | `pixel and 0xFF` is in 0..255 |
| FeatureExtractor.Bin | app/src/main/java/com/homeobjectcontroller/util/FeatureExtractor.kt:25-34 | a channel's bin is in 0..3 and equals `channel / 64`, so the `coerceAtMost(3)` never changes it |
| FeatureExtractor.BinIndex | app/src/main/java/com/homeobjectcontroller/util/FeatureExtractor.kt:36 | the flat index is in 0..63 and its base-4 digits are the red, green and blue bins, so it is always a valid histogram index |
| FeatureExtractor.SameBinIffSameChannelBins | app/src/main/java/com/homeobjectcontroller/util/FeatureExtractor.kt:32-36 | two pixels fall in the same flat bin if and only if all three channel bins agree (the flat index is injective) |
| FeatureExtractor.ExtractColorHistogram | app/src/main/java/com/homeobjectcontroller/util/FeatureExtractor.kt:18-49 | the counting loop followed by the normalising loop returns a fresh array holding exactly `Histogram(pixels)` |
| FeatureExtractor.CountsTotal | app/src/main/java/com/homeobjectcontroller/util/FeatureExtractor.kt:27-38 | every pixel is counted exactly once: the counts add up to the pixel count |
| FeatureExtractor.CountsAreBinMultiplicities | app/src/main/java/com/homeobjectcontroller/util/FeatureExtractor.kt:27-38 | bin k's count is the number of pixels whose flat bin is k |
| FeatureExtractor.HistogramSumsToOne | app/src/main/java/com/homeobjectcontroller/util/FeatureExtractor.kt:13-17 | the documented promise: for an image with at least one pixel the histogram entries sum to 1 |
| FeatureExtractor.HistogramEntriesAreFractions | app/src/main/java/com/homeobjectcontroller/util/FeatureExtractor.kt:40-46 | for a non-empty image each entry is the fraction of pixels in that bin, hence in [0, 1] |
| FeatureExtractor.EmptyImageHistogram | app/src/main/java/com/homeobjectcontroller/util/FeatureExtractor.kt:41-42 | with no pixels the division is skipped: the histogram is all zeros and sums to 0, not 1 |
| FeatureExtractor.SingleColourHistogram | app/src/main/java/com/homeobjectcontroller/util/FeatureExtractor.kt:27-46 | a non-empty image of one colour has weight 1 in that colour's bin and 0 elsewhere |
| FeatureExtractor.CosineSimilarity | app/src/main/java/com/homeobjectcontroller/util/FeatureExtractor.kt:55-70 | vectors of different length give 0; otherwise the single accumulating loop returns exactly `Cosine`: the dot product over the product of the norms, or 0 when that product is not positive |
| FeatureExtractor.CosineSymmetric | app/src/main/java/com/homeobjectcontroller/util/FeatureExtractor.kt:55-70 | similarity does not depend on argument order |
| FeatureExtractor.CosineOfZeroVector | app/src/main/java/com/homeobjectcontroller/util/FeatureExtractor.kt:68-69 | the zero-denominator guard: an all-zero vector on either side gives 0, never a division by zero |
| FeatureExtractor.CosineSelf | app/src/main/java/com/homeobjectcontroller/util/FeatureExtractor.kt:55-70 | every vector with a non-zero entry has similarity exactly 1 with itself |
| FeatureExtractor.CosineOfOneHots | app/src/main/java/com/homeobjectcontroller/util/FeatureExtractor.kt:55-70 | two one-bin fingerprints have similarity 1 when the bins coincide and 0 otherwise |
| FeatureExtractor.HistogramSelfSimilar | app/src/main/java/com/homeobjectcontroller/util/FeatureExtractor.kt:18-70 | the fingerprint of any non-empty image has similarity exactly 1 with itself |
| FeatureExtractor.SingleColourSimilarity | app/src/main/java/com/homeobjectcontroller/util/FeatureExtractor.kt:18-70 | two non-empty single-colour images score 1 when their colours share a bin and 0 otherwise, so they match or not with nothing in between |
| CustomLabelDao.AssignedId | app/src/main/java/com/homeobjectcontroller/data/CustomLabel.kt:8-9 | a non-zero id is kept; id 0 is replaced by an id above every id the table has held; the stored id is never 0 |
| CustomLabelDao.WithoutId | app/src/main/java/com/homeobjectcontroller/data/CustomLabelDao.kt:19-20 | the rows left are exactly the rows whose id differs, still in ascending id order |
| CustomLabelDao.WithoutIdSize | app/src/main/java/com/homeobjectcontroller/data/CustomLabelDao.kt:19-20 | a delete removes one row when the id is present, and changes nothing when it is absent |
| CustomLabelDao.InsertSorted | app/src/main/java/com/homeobjectcontroller/data/CustomLabelDao.kt:10-11 | a row under a new id is added once, in id order, with every other row kept |
| CustomLabelDao.Upsert | app/src/main/java/com/homeobjectcontroller/data/CustomLabelDao.kt:10-11 | REPLACE: afterwards the table holds the new row and every old row with a different id, in id order; the size grows only when the id was new |
| CustomLabelDao.WithCategory | app/src/main/java/com/homeobjectcontroller/data/CustomLabelDao.kt:13-14 | exactly the stored rows of the category, in table order |
| CustomLabelDao.AscendingUnique | app/src/main/java/com/homeobjectcontroller/data/CustomLabelDao.kt:16-17 | a scan's result is determined by the set of stored rows: two id-ordered tables with the same rows are equal |
| CustomLabelDao.DeleteUndoesFreshInsert | app/src/main/java/com/homeobjectcontroller/data/CustomLabelDao.kt:10-20 | deleting the id of a record just inserted under a new id gives back the table as it was |
| CustomLabelDao.UpsertIdempotent | app/src/main/java/com/homeobjectcontroller/data/CustomLabelDao.kt:10-11 | inserting the same record twice leaves the table as inserting it once |
| CustomLabelDao.Table.constructor | app/src/main/java/com/homeobjectcontroller/data/CustomLabel.kt:6-7 | a new table is empty and has never held an id |
| CustomLabelDao.Table.Insert | app/src/main/java/com/homeobjectcontroller/data/CustomLabelDao.kt:10-11 | returns the id the record is stored under; a generated id belongs to no stored record; the rows become the REPLACE upsert of the record under that id; the sequence rises to the largest id held |
| CustomLabelDao.Table.GetAllByCategory | app/src/main/java/com/homeobjectcontroller/data/CustomLabelDao.kt:13-14 | exactly the stored records of that category, in id order |
| CustomLabelDao.Table.GetAll | app/src/main/java/com/homeobjectcontroller/data/CustomLabelDao.kt:16-17 | every stored record once, in id order |
| CustomLabelDao.Table.DeleteById | app/src/main/java/com/homeobjectcontroller/data/CustomLabelDao.kt:19-20 | exactly the row with that id goes; an absent id changes nothing; the id sequence is kept, so a deleted id is not generated again |
| ObjectDetectorAnalyzer.ClampCrop | app/src/main/java/com/homeobjectcontroller/ObjectDetectorAnalyzer.kt:113-118 | origin clamped to at least 0; a region whose clamped extent is positive ends at the clamped far edge, inside the bitmap; a non-positive extent of at least -2^31 gets size 1; below that the `Int` subtraction wraps |
| ObjectDetectorAnalyzer.ClampCropInside | app/src/main/java/com/homeobjectcontroller/ObjectDetectorAnalyzer.kt:113-118 | a box already inside the bitmap, with positive size, is cropped to exactly that box |
| ObjectDetectorAnalyzer.CropBitmap | app/src/main/java/com/homeobjectcontroller/ObjectDetectorAnalyzer.kt:111-123 | the result is the library's crop (`None` where it throws) of a region with a non-negative origin and a positive size; a box inside the bitmap is cropped as it is |
| ObjectDetectorAnalyzer.ToInfo | app/src/main/java/com/homeobjectcontroller/ObjectDetectorAnalyzer.kt:57-68 | the info for one object keeps its box and tracking id, has non-empty labels (its texts when there are any), no crop without a converted frame, and otherwise the crop of its box |
| ObjectDetectorAnalyzer.DefaultLabels | app/src/main/java/com/homeobjectcontroller/ObjectDetectorAnalyzer.kt:58 | the classifier's label texts when there are any, else exactly `["Unknown"]`; never empty |
| ObjectDetectorAnalyzer.AnalyzeResults | app/src/main/java/com/homeobjectcontroller/ObjectDetectorAnalyzer.kt:55-73 | a failed detection reports an empty list; a successful one reports one entry per object with its box and tracking id, non-empty labels, and no crop when the frame could not be converted |
| ObjectDetectorAnalyzer.MapToInfo | app/src/main/java/com/homeobjectcontroller/ObjectDetectorAnalyzer.kt:57-68 | the `map` over detected objects: same length, entry i built from object i |
| ObjectDetectorAnalyzer.BufferGet | app/src/main/java/com/homeobjectcontroller/ObjectDetectorAnalyzer.kt:90-92 | `ByteBuffer.get(dst, offset, length)` copies the plane into `dst` at `offset` and leaves the rest of `dst` unchanged |
| ObjectDetectorAnalyzer.PlanesToNv21 | app/src/main/java/com/homeobjectcontroller/ObjectDetectorAnalyzer.kt:85-92 | the NV21 buffer is the Y plane, then the V plane, then the U plane, with nothing lost or overlapping |
| MainActivity.Scan | app/src/main/java/com/homeobjectcontroller/MainActivity.kt:169-181 | the scan's best index, when there is one, points at a candidate and its similarity is the bar; with none the bar is still the 0.85 threshold |
| MainActivity.ScanSelects | app/src/main/java/com/homeobjectcontroller/MainActivity.kt:169-181 | the scan finds nothing if and only if no score exceeds 0.85; otherwise it finds a highest score above 0.85, the first of any ties |
| MainActivity.SelectionUnique | app/src/main/java/com/homeobjectcontroller/MainActivity.kt:175-178 | the strict `>` update selects at most one candidate |
| MainActivity.MatchSelects | app/src/main/java/com/homeobjectcontroller/MainActivity.kt:161-182 | no crop gives no match; otherwise there is a match if and only if some candidate's similarity exceeds 0.85, and it is the first candidate with the highest similarity |
| MainActivity.SavedCropIsMatched | app/src/main/java/com/homeobjectcontroller/MainActivity.kt:161-182 | once a record is stored for a non-empty crop whose fingerprint decodes back, matching the same crop in its category finds a record |
| MainActivity.CategoryOf | app/src/main/java/com/homeobjectcontroller/MainActivity.kt:120 | the category is the first label when there is one, else "Unknown" |
| MainActivity.CategoryOfAnalyzedLabels | app/src/main/java/com/homeobjectcontroller/MainActivity.kt:185 | for labels produced by the analyzer the category is the classifier's first text, or "Unknown" when it gave none |
| MainActivity.Recognise | app/src/main/java/com/homeobjectcontroller/MainActivity.kt:119-154 | each overlay keeps the detection's box, tracking id and info; an overlay without a custom name shows the category, and the cache is left unchanged |
| MainActivity.RecogniseCache | app/src/main/java/com/homeobjectcontroller/MainActivity.kt:124-137 | one detection only adds to the cache. A new entry is keyed by its tracking id and names a stored record (id and custom name). A custom name shown for a tracked object is the one cached for it |
| MainActivity.CacheHit | app/src/main/java/com/homeobjectcontroller/MainActivity.kt:124-132 | a cached tracking id shows the cached name as a custom label, leaves the cache alone and does not consult the table at all |
| MainActivity.CacheMiss | app/src/main/java/com/homeobjectcontroller/MainActivity.kt:133-153 | on a miss the object shows a custom name if and only if the matcher finds a record (stored, of the detection's category), which is then cached under the tracking id; otherwise it shows its category and nothing is cached |
| MainActivity.ProcessShape | app/src/main/java/com/homeobjectcontroller/MainActivity.kt:119-155 | one overlay per detection, in order, with that detection's box, tracking id and info |
| MainActivity.ProcessOnlyAdds | app/src/main/java/com/homeobjectcontroller/MainActivity.kt:119-155 | a frame never removes or changes a cache entry; each new entry is keyed by the tracking id of one of the frame's detections and names a stored record |
| MainActivity.CustomOverlaysAreCached | app/src/main/java/com/homeobjectcontroller/MainActivity.kt:119-155 | after a frame, every tracked object shown with a custom name has that name in the cache |
| MainActivity.SavedObjectIsRecognised | app/src/main/java/com/homeobjectcontroller/MainActivity.kt:119-155 | after a record is saved for a crop, a detection of that category with that crop is shown with a custom name, cached or not |
| MainActivity.Recognizer.constructor | app/src/main/java/com/homeobjectcontroller/MainActivity.kt:38-39 | the recognition cache starts empty |
| MainActivity.Recognizer.FindMatchingCustomLabel | app/src/main/java/com/homeobjectcontroller/MainActivity.kt:161-182 | the scan over `getAllByCategory` returns exactly `Match` of the crop against the stored records of the category; a result is a stored record of that category |
| MainActivity.Recognizer.ProcessDetections | app/src/main/java/com/homeobjectcontroller/MainActivity.kt:109-159 | the overlays and the cache after the frame are exactly those of `Process` from the cache before it; the empty frame leaves the cache alone |
| MainActivity.Recognizer.ShowLabelDialog | app/src/main/java/com/homeobjectcontroller/MainActivity.kt:184-190 | the dialog's category is the first label or "Unknown"; it has an existing name if and only if the overlay is custom; it has an existing id if and only if the tracking id is cached, and then it is the cached record id |
| MainActivity.Recognizer.SaveCustomLabel | app/src/main/java/com/homeobjectcontroller/MainActivity.kt:204-220 | without a crop nothing changes; otherwise the table becomes the REPLACE upsert of the crop's encoded fingerprint under the existing id (or a new id), and the tracking id is cached with that name and id; the id sequence rises to the stored id when it is larger and never falls |
| MainActivity.Recognizer.DeleteCustomLabel | app/src/main/java/com/homeobjectcontroller/MainActivity.kt:232-235 | the record with that id leaves the table, and only the given tracking id leaves the cache; the id sequence is kept |
| MainActivity.Recognizer.OnDelete | app/src/main/java/com/homeobjectcontroller/MainActivity.kt:197-199 | the dialog's delete acts only when a record id was cached for the object, and then deletes that record and the object's cache entry, keeping the id sequence so the deleted id is not generated again |

## Left out

- Camera, preview, permission handling, the overlay drawing
  (`ObjectOverlayView`), the info bar text, toasts and `onDestroy` are not
  modelled. They are I/O and user interface.
- Coroutines and threads are not modelled. `processDetections`,
  `saveCustomLabel` and `deleteCustomLabel` run their bodies on other
  dispatchers, and the shared `recognitionCache` can race. Here each
  operation runs to completion, one after another.
- The ML Kit detector is not modelled; its output is the `Detection`
  parameter. `mediaImageToBitmap`'s JPEG compression, decoding and rotation
  are not modelled; the converted frame is the `fullBitmap` parameter, `None`
  where conversion fails. `Bitmap.createBitmap` is the `createBitmap`
  parameter, `None` where it throws.
- `analyze`'s early return when the proxy has no image is not modelled,
  because no callback is made in that case.
- `Bitmap.getPixels` is taken as given: `Bitmap.pixels` stands for the
  `width * height` pixels it fills in.
- Floating point is not modelled. Entries and similarities are exact reals,
  so rounding in the histogram and in the comparison against 0.85 is not
  captured. Counts above 2^24, where `Float` increments stop being exact, are
  not captured either.
- `sqrt` is a parameter. The lemmas that need it assume only that it is the
  square root.
- FeatureExtractor.CosineSimilarity: the documented range "between 0 and 1"
  is not stated. It holds only for vectors without negative entries and
  needs the Cauchy–Schwarz inequality. The lemmas prove only the
  self-similarity, zero-vector and single-colour cases.
- Gson serialisation is not modelled: `encode` and `decode` are parameters.
  No round-trip law is assumed. The lemmas that need one
  (`SavedCropIsMatched`, `SavedObjectIsRecognised`) take it as a hypothesis.
- A stored fingerprint that fails to decode makes Gson throw, which aborts
  the whole scan. The model does not represent that exception: `decode` is
  total, and a malformed vector of the wrong length simply scores 0 through
  the length guard. The code does not catch the exception.
- Ids are unbounded integers. Kotlin `Long` overflow and SQLite's
  `SQLITE_FULL` at the largest rowid are not modelled.
- ObjectDetectorAnalyzer.PlanesToNv21: the `Int` sum `ySize + uSize +
  vSize` is taken as exact. The planes of a camera frame are far below 2^31
  bytes.
- `createdAt` defaults to `System.currentTimeMillis()`. Here the clock is the
  `createdAt` parameter of `SaveCustomLabel`.
- The label dialog itself (`LabelDialogFragment`) is not modelled: it trims
  the name and refuses an empty one. `SaveCustomLabel` accepts any name it
  is given.
- `AppDatabase`'s singleton construction is not modelled. A `Recognizer` is
  given its `Table`.
- The cache's declared value type is nullable, but no code stores a null.
  The model's cache holds plain entries, and a missing key stands for both.
- The overlay's `label` field is called `labelText`, because `label` is a
  keyword in Dafny.
- Deleting a record leaves the entries of other tracking ids that name it in
  the cache. This is faithful to the code; nothing invalidates them.
