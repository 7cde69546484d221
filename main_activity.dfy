/**
 * The recognition logic of the main screen: for each detected object, reuse
 * the name cached for its tracking id, or else look for a stored record of
 * the same category whose colour fingerprint is similar enough; and the
 * save and delete actions of the label dialog, which write the table and
 * the cache.
 *
 * Similarity is over `real`, with the square root and the JSON decoding and
 * encoding of feature vectors as parameters.
 */
module MainActivity {
  import opened Wrappers
  import opened Graphics
  import opened CustomLabelDao
  import opened ObjectDetectorAnalyzer
  import FeatureExtractor

  /** A candidate is accepted only with a similarity strictly above this (`0.85f`). */
  const SimilarityThreshold: real := 0.85

  // ---------------------------------------------------------------------------
  // The selection policy

  /** No score exceeds the threshold. */
  predicate NoneAbove(scores: seq<real>) {
    forall j :: 0 <= j < |scores| ==> scores[j] <= SimilarityThreshold
  }

  /**
   * Candidate `k` is the one to pick: above the threshold, no lower than any
   * other, and strictly higher than every earlier one (ties go to the first).
   */
  predicate IsSelected(scores: seq<real>, k: int) {
    && 0 <= k < |scores|
    && scores[k] > SimilarityThreshold
    && (forall j :: 0 <= j < |scores| ==> scores[j] <= scores[k])
    && (forall j :: 0 <= j < k ==> scores[j] < scores[k])
  }

  /** The state of the running-maximum scan: the best candidate so far and the bar to beat. */
  datatype Best = Best(index: Option<nat>, similarity: real)

  /**
   * The scan of `findMatchingCustomLabel` over `scores`: the bar starts at
   * the threshold and a candidate replaces the best one only when it beats
   * the bar strictly.
   */
  function Scan(scores: seq<real>): (best: Best)
    ensures best.index.Some? ==> best.index.value < |scores| && best.similarity == scores[best.index.value]
    ensures best.index.None? ==> best.similarity == SimilarityThreshold
    decreases |scores|
  {
    if scores == [] then Best(None, SimilarityThreshold)
    else
      var n := |scores| - 1;
      var previous := Scan(scores[..n]);
      if scores[n] > previous.similarity then Best(Some(n), scores[n]) else previous
  }

  /** The scan finds nothing exactly when no score beats the threshold, and otherwise finds the selected candidate. */
  lemma {:induction false} ScanSelects(scores: seq<real>)
    ensures Scan(scores).similarity >= SimilarityThreshold
    ensures forall j :: 0 <= j < |scores| ==> scores[j] <= Scan(scores).similarity
    ensures Scan(scores).index.None? <==> NoneAbove(scores)
    ensures Scan(scores).index.Some? ==> IsSelected(scores, Scan(scores).index.value)
    decreases |scores|
  {
    if scores != [] {
      var n := |scores| - 1;
      var prefix := scores[..n];
      ScanSelects(prefix);
      assert forall j :: 0 <= j < n ==> scores[j] == prefix[j];
    }
  }

  /** One step of the scan: the next score replaces the best only when it beats the bar. */
  lemma ScanStep(scores: seq<real>, i: nat)
    requires i < |scores|
    ensures Scan(scores[..i + 1])
         == if scores[i] > Scan(scores[..i]).similarity then Best(Some(i), scores[i]) else Scan(scores[..i])
  {
    assert scores[..i + 1][..i] == scores[..i];
  }

  /** At most one candidate is selected. */
  lemma SelectionUnique(scores: seq<real>, k1: int, k2: int)
    requires IsSelected(scores, k1) && IsSelected(scores, k2)
    ensures k1 == k2
  {
  }

  // ---------------------------------------------------------------------------
  // Matching a crop against the stored records

  /** How similar the crop's fingerprint is to the one stored in `candidate`. */
  function Similarity(crop: Bitmap, candidate: CustomLabel, decode: string -> seq<real>, sqrt: real -> real): real {
    FeatureExtractor.Cosine(FeatureExtractor.Histogram(crop.pixels), decode(candidate.featureVector), sqrt)
  }

  function Scores(crop: Bitmap, candidates: seq<CustomLabel>, decode: string -> seq<real>, sqrt: real -> real): (scores: seq<real>)
    ensures |scores| == |candidates|
  {
    seq(|candidates|, j requires 0 <= j < |candidates| => Similarity(crop, candidates[j], decode, sqrt))
  }

  /** What `findMatchingCustomLabel` returns: nothing without a crop, else the candidate the scan settles on. */
  function Match(crop: Option<Bitmap>, candidates: seq<CustomLabel>, decode: string -> seq<real>, sqrt: real -> real): (m: Option<CustomLabel>)
    ensures m.Some? ==> m.value in candidates
  {
    if crop.None? then None
    else
      var best := Scan(Scores(crop.value, candidates, decode, sqrt));
      if best.index.Some? then Some(candidates[best.index.value]) else None
  }

  /**
   * The matcher's answer in terms of similarities alone: none without a crop
   * or when no candidate scores strictly above the threshold; otherwise the
   * earliest of the candidates with the highest score.
   */
  lemma MatchSelects(crop: Option<Bitmap>, candidates: seq<CustomLabel>, decode: string -> seq<real>, sqrt: real -> real)
    ensures crop.None? ==> Match(crop, candidates, decode, sqrt) == None
    ensures crop.Some? ==>
      (Match(crop, candidates, decode, sqrt).Some? <==>
        exists j :: 0 <= j < |candidates| && Similarity(crop.value, candidates[j], decode, sqrt) > SimilarityThreshold)
    ensures crop.Some? && Match(crop, candidates, decode, sqrt).Some? ==>
      exists k :: IsSelected(Scores(crop.value, candidates, decode, sqrt), k)
               && Match(crop, candidates, decode, sqrt) == Some(candidates[k])
  {
    if crop.Some? {
      var scores := Scores(crop.value, candidates, decode, sqrt);
      ScanSelects(scores);
      if Scan(scores).index.Some? {
        var k := Scan(scores).index.value;
        assert Similarity(crop.value, candidates[k], decode, sqrt) == scores[k];
      } else {
        forall j | 0 <= j < |candidates|
          ensures Similarity(crop.value, candidates[j], decode, sqrt) <= SimilarityThreshold
        {
          assert Similarity(crop.value, candidates[j], decode, sqrt) == scores[j];
        }
      }
    }
  }

  /**
   * A record saved from a non-empty crop is found again for the same crop:
   * the crop is similar to its own stored fingerprint with similarity 1,
   * provided the stored JSON decodes back to the fingerprint.
   */
  lemma SavedCropIsMatched(
    rows: seq<CustomLabel>, row: CustomLabel, crop: Bitmap,
    decode: string -> seq<real>, sqrt: real -> real)
    requires IdsAscending(rows)
    requires FeatureExtractor.IsSqrt(sqrt)
    requires |crop.pixels| > 0
    requires decode(row.featureVector) == FeatureExtractor.Histogram(crop.pixels)
    ensures Match(Some(crop), WithCategory(Upsert(rows, row), row.mlKitCategory), decode, sqrt).Some?
  {
    var candidates := WithCategory(Upsert(rows, row), row.mlKitCategory);
    assert row in candidates;
    var j :| 0 <= j < |candidates| && candidates[j] == row;
    FeatureExtractor.HistogramSelfSimilar(crop.pixels, sqrt);
    assert Similarity(crop, candidates[j], decode, sqrt) == 1.0;
    MatchSelects(Some(crop), candidates, decode, sqrt);
  }

  // ---------------------------------------------------------------------------
  // The per-detection decision

  /** A cached recognition: the custom name and the id of its stored record. */
  datatype CacheEntry = CacheEntry(name: string, labelId: int)

  /** What the overlay draws for one detection. */
  datatype OverlayObject = OverlayObject(
    boundingBox: Rect,
    labelText: string,
    isCustomLabel: bool,
    trackingId: Option<Int32>,
    detectedInfo: DetectedObjectInfo)

  /** The detector's category for a detection: its first label, or "Unknown". */
  function CategoryOf(labels: seq<string>): (category: string)
    ensures labels != [] ==> category == labels[0] && category in labels
    ensures labels == [] ==> category == UnknownLabel
  {
    if labels == [] then UnknownLabel else labels[0]
  }

  /** For the analyzer's labels the category is the classifier's first text, or "Unknown" when it gave none. */
  lemma CategoryOfAnalyzedLabels(texts: seq<string>)
    ensures CategoryOf(DefaultLabels(texts)) == if texts == [] then UnknownLabel else texts[0]
  {
  }

  /** A detection whose tracking id has a cache entry. */
  predicate IsCached(cache: map<Int32, CacheEntry>, d: DetectedObjectInfo) {
    d.trackingId.Some? && d.trackingId.value in cache
  }

  /** The overlay for one detection and the cache after it. */
  function Recognise(
    cache: map<Int32, CacheEntry>, d: DetectedObjectInfo, rows: seq<CustomLabel>,
    decode: string -> seq<real>, sqrt: real -> real): (out: (OverlayObject, map<Int32, CacheEntry>))
    requires IdsAscending(rows)
    ensures out.0.boundingBox == d.boundingBox && out.0.trackingId == d.trackingId && out.0.detectedInfo == d
    ensures !out.0.isCustomLabel ==> out.0.labelText == CategoryOf(d.labels) && out.1 == cache
  {
    var category := CategoryOf(d.labels);
    if IsCached(cache, d) then
      (OverlayObject(d.boundingBox, cache[d.trackingId.value].name, true, d.trackingId, d), cache)
    else
      var m := Match(d.croppedBitmap, WithCategory(rows, category), decode, sqrt);
      if m.Some? then
        var cache' := if d.trackingId.Some? then cache[d.trackingId.value := CacheEntry(m.value.customName, m.value.id)] else cache;
        (OverlayObject(d.boundingBox, m.value.customName, true, d.trackingId, d), cache')
      else
        (OverlayObject(d.boundingBox, category, false, d.trackingId, d), cache)
  }

  /**
   * One detection only adds to the cache: existing entries stay, a new entry
   * is keyed by the detection's tracking id and names a stored record, and a
   * custom name shown for a tracked object is the one cached for it.
   */
  lemma RecogniseCache(
    cache: map<Int32, CacheEntry>, d: DetectedObjectInfo, rows: seq<CustomLabel>,
    decode: string -> seq<real>, sqrt: real -> real)
    requires IdsAscending(rows)
    ensures var out := Recognise(cache, d, rows, decode, sqrt);
      && (forall t :: t in cache ==> t in out.1 && out.1[t] == cache[t])
      && (forall t :: t in out.1 && t !in cache ==>
            d.trackingId == Some(t) && exists x :: x in rows && x.id == out.1[t].labelId && x.customName == out.1[t].name)
      && (out.0.isCustomLabel && d.trackingId.Some? ==>
            d.trackingId.value in out.1 && out.1[d.trackingId.value].name == out.0.labelText)
  {
  }

  /** A cache hit uses the cached name and leaves the cache as it was, whatever the table holds. */
  lemma CacheHit(
    cache: map<Int32, CacheEntry>, d: DetectedObjectInfo, rows: seq<CustomLabel>, otherRows: seq<CustomLabel>,
    decode: string -> seq<real>, sqrt: real -> real)
    requires IdsAscending(rows) && IdsAscending(otherRows)
    requires IsCached(cache, d)
    ensures Recognise(cache, d, rows, decode, sqrt).0.labelText == cache[d.trackingId.value].name
    ensures Recognise(cache, d, rows, decode, sqrt).0.isCustomLabel
    ensures Recognise(cache, d, rows, decode, sqrt).1 == cache
    ensures Recognise(cache, d, rows, decode, sqrt) == Recognise(cache, d, otherRows, decode, sqrt)
  {
  }

  /**
   * A cache miss: the detection is labelled with a custom name exactly when
   * the matcher finds a record, which is then cached under its tracking id;
   * without a match it keeps its category and nothing is cached.
   */
  lemma CacheMiss(
    cache: map<Int32, CacheEntry>, d: DetectedObjectInfo, rows: seq<CustomLabel>,
    decode: string -> seq<real>, sqrt: real -> real)
    requires IdsAscending(rows)
    requires !IsCached(cache, d)
    ensures var m := Match(d.croppedBitmap, WithCategory(rows, CategoryOf(d.labels)), decode, sqrt);
      && (Recognise(cache, d, rows, decode, sqrt).0.isCustomLabel <==> m.Some?)
      && (m.Some? ==>
            && Recognise(cache, d, rows, decode, sqrt).0.labelText == m.value.customName
            && m.value in rows && m.value.mlKitCategory == CategoryOf(d.labels)
            && Recognise(cache, d, rows, decode, sqrt).1
               == if d.trackingId.Some? then cache[d.trackingId.value := CacheEntry(m.value.customName, m.value.id)] else cache)
      && (m.None? ==> Recognise(cache, d, rows, decode, sqrt).1 == cache)
  {
  }

  /** The result of processing a list of detections: the overlays, and the cache afterwards. */
  datatype Processed = Processed(overlays: seq<OverlayObject>, cache: map<Int32, CacheEntry>)

  /** `processDetections`: the detections in order, each seeing the cache the previous ones left. */
  function Process(
    cache: map<Int32, CacheEntry>, detections: seq<DetectedObjectInfo>, rows: seq<CustomLabel>,
    decode: string -> seq<real>, sqrt: real -> real): Processed
    requires IdsAscending(rows)
    decreases |detections|
  {
    if detections == [] then Processed([], cache)
    else
      var n := |detections| - 1;
      var previous := Process(cache, detections[..n], rows, decode, sqrt);
      var step := Recognise(previous.cache, detections[n], rows, decode, sqrt);
      Processed(previous.overlays + [step.0], step.1)
  }

  /** One overlay per detection, in the same order, carrying that detection's box and tracking id. */
  lemma {:induction false} ProcessShape(
    cache: map<Int32, CacheEntry>, detections: seq<DetectedObjectInfo>, rows: seq<CustomLabel>,
    decode: string -> seq<real>, sqrt: real -> real)
    requires IdsAscending(rows)
    ensures var out := Process(cache, detections, rows, decode, sqrt).overlays;
      && |out| == |detections|
      && forall i :: 0 <= i < |detections| ==>
           out[i].boundingBox == detections[i].boundingBox
           && out[i].trackingId == detections[i].trackingId
           && out[i].detectedInfo == detections[i]
    decreases |detections|
  {
    if detections != [] {
      var n := |detections| - 1;
      var prefix := detections[..n];
      ProcessShape(cache, prefix, rows, decode, sqrt);
      var previous := Process(cache, prefix, rows, decode, sqrt);
      var step := Recognise(previous.cache, detections[n], rows, decode, sqrt);
      var out := previous.overlays + [step.0];
      assert |previous.overlays| == n;
      assert Process(cache, detections, rows, decode, sqrt).overlays == out;
      forall i | 0 <= i < |detections|
        ensures out[i].boundingBox == detections[i].boundingBox
        ensures out[i].trackingId == detections[i].trackingId
        ensures out[i].detectedInfo == detections[i]
      {
        if i < n {
          assert out[i] == previous.overlays[i] && prefix[i] == detections[i];
        } else {
          assert out[i] == step.0;
        }
      }
    }
  }

  /**
   * Processing only adds to the cache: existing entries stay as they were,
   * and every new entry is keyed by a detection's tracking id and names a
   * stored record.
   */
  lemma {:induction false} ProcessOnlyAdds(
    cache: map<Int32, CacheEntry>, detections: seq<DetectedObjectInfo>, rows: seq<CustomLabel>,
    decode: string -> seq<real>, sqrt: real -> real)
    requires IdsAscending(rows)
    ensures var after := Process(cache, detections, rows, decode, sqrt).cache;
      && (forall t :: t in cache ==> t in after && after[t] == cache[t])
      && (forall t :: t in after && t !in cache ==>
            (exists i :: 0 <= i < |detections| && detections[i].trackingId == Some(t))
            && exists x :: x in rows && x.id == after[t].labelId && x.customName == after[t].name)
    decreases |detections|
  {
    if detections != [] {
      var n := |detections| - 1;
      ProcessOnlyAdds(cache, detections[..n], rows, decode, sqrt);
      var middle := Process(cache, detections[..n], rows, decode, sqrt).cache;
      RecogniseCache(middle, detections[n], rows, decode, sqrt);
      var after := Process(cache, detections, rows, decode, sqrt).cache;
      forall t | t in after && t !in cache
        ensures exists i :: 0 <= i < |detections| && detections[i].trackingId == Some(t)
      {
        if t in middle {
          var i :| 0 <= i < n && detections[..n][i].trackingId == Some(t);
          assert detections[i].trackingId == Some(t);
        } else {
          assert detections[n].trackingId == Some(t);
        }
      }
    }
  }

  /** Every overlay shown with a custom name and a tracking id leaves that name in the cache. */
  lemma {:induction false} CustomOverlaysAreCached(
    cache: map<Int32, CacheEntry>, detections: seq<DetectedObjectInfo>, rows: seq<CustomLabel>,
    decode: string -> seq<real>, sqrt: real -> real)
    requires IdsAscending(rows)
    ensures var out := Process(cache, detections, rows, decode, sqrt);
      forall i :: 0 <= i < |out.overlays| && out.overlays[i].isCustomLabel && out.overlays[i].trackingId.Some? ==>
        out.overlays[i].trackingId.value in out.cache
        && out.cache[out.overlays[i].trackingId.value].name == out.overlays[i].labelText
    decreases |detections|
  {
    if detections != [] {
      var n := |detections| - 1;
      CustomOverlaysAreCached(cache, detections[..n], rows, decode, sqrt);
      ProcessShape(cache, detections[..n], rows, decode, sqrt);
      RecogniseCache(Process(cache, detections[..n], rows, decode, sqrt).cache, detections[n], rows, decode, sqrt);
    }
  }

  /**
   * After a record is saved from a non-empty crop, a later detection of the
   * same category with that crop is shown with a custom name, whether or not
   * its tracking id is cached.
   */
  lemma SavedObjectIsRecognised(
    cache: map<Int32, CacheEntry>, d: DetectedObjectInfo, rows: seq<CustomLabel>, row: CustomLabel,
    decode: string -> seq<real>, sqrt: real -> real)
    requires IdsAscending(rows)
    requires FeatureExtractor.IsSqrt(sqrt)
    requires d.croppedBitmap.Some? && |d.croppedBitmap.value.pixels| > 0
    requires row.mlKitCategory == CategoryOf(d.labels)
    requires decode(row.featureVector) == FeatureExtractor.Histogram(d.croppedBitmap.value.pixels)
    ensures Recognise(cache, d, Upsert(rows, row), decode, sqrt).0.isCustomLabel
  {
    if !IsCached(cache, d) {
      SavedCropIsMatched(rows, row, d.croppedBitmap.value, decode, sqrt);
    }
  }

  // ---------------------------------------------------------------------------
  // The label dialog

  /** The values the label dialog captures when it opens. */
  datatype LabelDialog = LabelDialog(
    obj: OverlayObject,
    category: string,
    existingLabel: Option<string>,
    existingId: Option<int>)

  // ---------------------------------------------------------------------------
  // The activity's state

  class Recognizer {
    /** `recognitionCache`: tracking id to the name and record id recognised for it. */
    var recognitionCache: map<Int32, CacheEntry>
    const dao: Table
    /** Gson decoding and encoding of feature vectors. */
    const decode: string -> seq<real>
    const encode: seq<real> -> string
    /** The square root used by the similarity. */
    const sqrt: real -> real

    ghost predicate Valid()
      reads this, dao
    {
      dao.Valid()
    }

    constructor (dao: Table, decode: string -> seq<real>, encode: seq<real> -> string, sqrt: real -> real)
      requires dao.Valid()
      ensures Valid() && recognitionCache == map[]
      ensures this.dao == dao && this.decode == decode && this.encode == encode && this.sqrt == sqrt
    {
      recognitionCache := map[];
      this.dao := dao;
      this.decode := decode;
      this.encode := encode;
      this.sqrt := sqrt;
    }

    /**
     * `findMatchingCustomLabel`: scores the crop against every stored record
     * of `category` and keeps the first strictly best one above the
     * threshold.
     */
    method FindMatchingCustomLabel(detection: DetectedObjectInfo, category: string) returns (m: Option<CustomLabel>)
      requires Valid()
      ensures m == Match(detection.croppedBitmap, WithCategory(dao.rows, category), decode, sqrt)
      ensures m.Some? ==> m.value in dao.rows && m.value.mlKitCategory == category
    {
      if detection.croppedBitmap.None? {
        return None;
      }
      var bitmap := detection.croppedBitmap.value;
      var features := FeatureExtractor.ExtractColorHistogram(bitmap);
      var storedLabels := dao.GetAllByCategory(category);
      ghost var histogram := FeatureExtractor.Histogram(bitmap.pixels);
      ghost var scores := Scores(bitmap, storedLabels, decode, sqrt);
      var bestMatch: Option<CustomLabel> := None;
      var bestSimilarity := SimilarityThreshold;
      for i := 0 to |storedLabels|
        invariant features[..] == histogram
        invariant bestSimilarity == Scan(scores[..i]).similarity
        invariant bestMatch == if Scan(scores[..i]).index.Some? then Some(storedLabels[Scan(scores[..i]).index.value]) else None
      {
        var storedFeatures := decode(storedLabels[i].featureVector);
        var similarity := FeatureExtractor.CosineSimilarity(features[..], storedFeatures, sqrt);
        assert scores[i] == similarity;
        ScanStep(scores, i);
        if similarity > bestSimilarity {
          bestSimilarity := similarity;
          bestMatch := Some(storedLabels[i]);
        }
      }
      assert scores[..|storedLabels|] == scores;
      assert storedLabels == WithCategory(dao.rows, category);
      m := bestMatch;
    }

    /** `processDetections`: the overlays for `detections`, reading and filling the cache. */
    method ProcessDetections(detections: seq<DetectedObjectInfo>) returns (overlayObjects: seq<OverlayObject>)
      requires Valid()
      modifies this
      ensures Valid()
      ensures Process(old(recognitionCache), detections, dao.rows, decode, sqrt) == Processed(overlayObjects, recognitionCache)
    {
      overlayObjects := [];
      for i := 0 to |detections|
        invariant Valid()
        invariant Process(old(recognitionCache), detections[..i], dao.rows, decode, sqrt) == Processed(overlayObjects, recognitionCache)
      {
        var detection := detections[i];
        var category := CategoryOf(detection.labels);
        var trackingId := detection.trackingId;
        var overlay;
        if trackingId.Some? && trackingId.value in recognitionCache {
          overlay := OverlayObject(detection.boundingBox, recognitionCache[trackingId.value].name, true, trackingId, detection);
        } else {
          var found := FindMatchingCustomLabel(detection, category);
          if found.Some? {
            if trackingId.Some? {
              recognitionCache := recognitionCache[trackingId.value := CacheEntry(found.value.customName, found.value.id)];
            }
            overlay := OverlayObject(detection.boundingBox, found.value.customName, true, trackingId, detection);
          } else {
            overlay := OverlayObject(detection.boundingBox, category, false, trackingId, detection);
          }
        }
        assert detections[..i + 1][..i] == detections[..i];
        overlayObjects := overlayObjects + [overlay];
      }
      assert detections[..|detections|] == detections;
    }

    /** `showLabelDialog`: the category, the name shown, and the record id cached for the object's tracking id. */
    function ShowLabelDialog(obj: OverlayObject): (dialog: LabelDialog)
      reads this
      ensures dialog.obj == obj && dialog.category == CategoryOf(obj.detectedInfo.labels)
      ensures dialog.existingLabel.Some? <==> obj.isCustomLabel
      ensures dialog.existingLabel.Some? ==> dialog.existingLabel.value == obj.labelText
      ensures dialog.existingId.Some? <==> obj.trackingId.Some? && obj.trackingId.value in recognitionCache
      ensures dialog.existingId.Some? ==> dialog.existingId.value == recognitionCache[obj.trackingId.value].labelId
    {
      var existingLabel := if obj.isCustomLabel then Some(obj.labelText) else None;
      var existingId := if obj.trackingId.Some? && obj.trackingId.value in recognitionCache
        then Some(recognitionCache[obj.trackingId.value].labelId) else None;
      LabelDialog(obj, CategoryOf(obj.detectedInfo.labels), existingLabel, existingId)
    }

    /**
     * `saveCustomLabel`: without a crop nothing happens; otherwise the
     * crop's fingerprint is stored under `existingId`, or under a new id when
     * there is none, and the object's tracking id is cached with that id.
     */
    method SaveCustomLabel(obj: OverlayObject, category: string, customName: string, existingId: Option<int>, createdAt: int)
      requires Valid()
      modifies this, dao
      ensures Valid()
      ensures obj.detectedInfo.croppedBitmap.None? ==>
        recognitionCache == old(recognitionCache) && dao.rows == old(dao.rows) && dao.lastId == old(dao.lastId)
      ensures obj.detectedInfo.croppedBitmap.Some? ==>
        var id := AssignedId(existingId.GetOr(0), old(dao.lastId));
        var features := FeatureExtractor.Histogram(obj.detectedInfo.croppedBitmap.value.pixels);
        && dao.rows == Upsert(old(dao.rows), CustomLabel(id, category, customName, encode(features), createdAt))
        && recognitionCache == (if obj.trackingId.Some? then old(recognitionCache)[obj.trackingId.value := CacheEntry(customName, id)] else old(recognitionCache))
        && dao.lastId == (if id > old(dao.lastId) then id else old(dao.lastId))
    {
      if obj.detectedInfo.croppedBitmap.None? {
        return;
      }
      var features := FeatureExtractor.ExtractColorHistogram(obj.detectedInfo.croppedBitmap.value);
      var featureJson := encode(features[..]);
      var record := CustomLabel(existingId.GetOr(0), category, customName, featureJson, createdAt);
      var id := dao.Insert(record);
      if obj.trackingId.Some? {
        recognitionCache := recognitionCache[obj.trackingId.value := CacheEntry(customName, id)];
      }
    }

    /**
     * `deleteCustomLabel`: the record goes from the table and the object's
     * tracking id from the cache; other cache entries, even ones naming the
     * same record, stay.
     */
    method DeleteCustomLabel(labelId: int, trackingId: Option<Int32>)
      requires Valid()
      modifies this, dao
      ensures Valid()
      ensures dao.rows == WithoutId(old(dao.rows), labelId) && dao.lastId == old(dao.lastId)
      ensures recognitionCache == if trackingId.Some? then old(recognitionCache) - {trackingId.value} else old(recognitionCache)
    {
      dao.DeleteById(labelId);
      if trackingId.Some? {
        recognitionCache := recognitionCache - {trackingId.value};
      }
    }

    /** The dialog's delete button (shown only for a custom label): deletes only when a record id was cached. */
    method OnDelete(dialog: LabelDialog)
      requires Valid()
      requires dialog.existingLabel.Some?
      modifies this, dao
      ensures Valid()
      ensures dialog.existingId.None? ==>
        recognitionCache == old(recognitionCache) && dao.rows == old(dao.rows) && dao.lastId == old(dao.lastId)
      ensures dialog.existingId.Some? ==>
        && dao.rows == WithoutId(old(dao.rows), dialog.existingId.value)
        && dao.lastId == old(dao.lastId)
        && recognitionCache == (if dialog.obj.trackingId.Some? then old(recognitionCache) - {dialog.obj.trackingId.value} else old(recognitionCache))
    {
      if dialog.existingId.Some? {
        DeleteCustomLabel(dialog.existingId.value, dialog.obj.trackingId);
      }
    }
  }
}
