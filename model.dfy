/** The prediction clients: a base client that owns a normalised endpoint and
    posts an image to it, a YOLOv5 detection variant that filters the
    service's detections by confidence, and a Keras classification variant
    that filters by score, sorts by descending score and keeps the top n.
    The network call with its JSON decoding (`post`) and the image
    re-encoding (`encode`) are external and passed in as functions. */
module BioModel {
  import opened Wrappers
  import opened Endpoint
  import opened PostProcess

  type Bytes = seq<bv8>

  /** A classification record: its score and the class name, passed through unchanged. */
  datatype Classification = Classification(score: real, name: string)

  /** A detection record: its confidence, and the class name and box, passed through unchanged. */
  datatype Detection = Detection(confidence: real, name: string, box: seq<real>)

  function Score(c: Classification): real { c.score }

  function Confidence(d: Detection): real { d.confidence }

  /** The decoded JSON response; `result` is the list under the key 'result', if any. */
  datatype Response<T> = Response(result: Option<seq<T>>)

  /** `response['result']`: a missing key raises KeyError. */
  function ResultList<T>(resp: Response<T>): (r: Result<seq<T>>)
    ensures r.Err? <==> resp.result.None?
    ensures r.Err? ==> r.error == KeyError("result")
    ensures resp.result.Some? ==> r == Ok(resp.result.value)
  {
    match resp.result
    case None => Err(KeyError("result"))
    case Some(rs) => Ok(rs)
  }

  /** Lines 82-85 of the classification client: the records with
      score >= threshold, stably sorted by descending score. */
  function Ranked(results: seq<Classification>, threshold: real): (r: seq<Classification>)
    ensures forall i :: 0 <= i < |r| ==> r[i].score >= threshold
    ensures SortedDesc(r, Score)
  {
    var kept := KeepAtLeast(results, Score, threshold);
    SortKeepsBound(kept, Score, threshold);
    StableSortDesc(kept, Score)
  }

  /** Lines 82-88 of the classification client: rank, then keep `[:topN]`. */
  function Rank(results: seq<Classification>, threshold: real, topN: int): (r: seq<Classification>)
    ensures forall i :: 0 <= i < |r| ==> r[i].score >= threshold
    ensures topN >= 0 ==> |r| <= topN
  {
    Take(Ranked(results, threshold), topN)
  }

  /** The classification result is sorted by descending score; it is the first
      records of the full ranking, as many as the slice `[:topN]` allows (for
      a negative topN, all but the last |topN|), and no record it drops
      outscores one it keeps. */
  lemma RankIsTopN(results: seq<Classification>, threshold: real, topN: int)
    ensures var ranked := Ranked(results, threshold);
            var r := Rank(results, threshold, topN);
            && SortedDesc(r, Score)
            && r <= ranked
            && |ranked| == |KeepAtLeast(results, Score, threshold)|
            && (topN >= 0 ==> |r| == if topN < |ranked| then topN else |ranked|)
            && (topN < 0 ==> |r| == if |ranked| + topN > 0 then |ranked| + topN else 0)
            && (forall i, j :: 0 <= i < |r| <= j < |ranked| ==> r[i].score >= ranked[j].score)
  {
    var ranked := Ranked(results, threshold);
    var r := Rank(results, threshold, topN);
    assert r == ranked[..|r|];
  }

  /** Records of equal score in the classification result are the earliest
      qualifying ones, in response order. */
  lemma RankKeepsTies(results: seq<Classification>, threshold: real, topN: int, v: real)
    ensures Tied(Rank(results, threshold, topN), Score, v) <= Tied(KeepAtLeast(results, Score, threshold), Score, v)
  {
    var kept := KeepAtLeast(results, Score, threshold);
    var ranked := Ranked(results, threshold);
    var r := Rank(results, threshold, topN);
    assert r == ranked[..|r|];
    TiedOfPrefix(ranked, |r|, Score, v);
    StableSortKeepsTies(kept, Score, v);
  }

  /** Every classification returned was in the response, at most as often. */
  lemma RankFromResponse(results: seq<Classification>, threshold: real, topN: int, x: Classification)
    ensures multiset(Rank(results, threshold, topN))[x] <= multiset(results)[x]
  {
    var ranked := Ranked(results, threshold);
    var r := Rank(results, threshold, topN);
    assert ranked == r + ranked[|r|..];
    assert multiset(ranked) == multiset(r) + multiset(ranked[|r|..]);
    KeepAtLeastCount(results, Score, threshold, x);
  }

  /** A top-0 request returns nothing. */
  lemma RankZero(results: seq<Classification>, threshold: real)
    ensures Rank(results, threshold, 0) == []
  {
  }

  /** The detection filter of line 60 returns exactly the detections with
      confidence >= threshold, each as often as the response holds it, in
      response order and without re-sorting. */
  lemma FilterDetections(results: seq<Detection>, threshold: real)
    ensures var r := KeepAtLeast(results, Confidence, threshold);
            && (forall d :: d in r <==> d in results && d.confidence >= threshold)
            && (forall d :: multiset(r)[d] == if d.confidence >= threshold then multiset(results)[d] else 0)
            && Subsequence(r, results)
  {
    var r := KeepAtLeast(results, Confidence, threshold);
    forall d: Detection ensures multiset(r)[d] == if d.confidence >= threshold then multiset(results)[d] else 0 {
      KeepAtLeastCount(results, Confidence, threshold, d);
    }
    KeepAtLeastSubsequence(results, Confidence, threshold);
  }

  /** The base client. */
  class FastAPIBaseModel {
    const endpoint: string

    /** The endpoint is normalised once, at construction, and never changes. */
    constructor (endpoint: string)
      ensures this.endpoint == Normalize(endpoint)
      ensures EndsWithSlash(this.endpoint)
    {
      this.endpoint := Normalize(endpoint);
    }

    /** `predict_bytes(image_bytes)` called with `positionalArgs` positional
        arguments: Python raises TypeError before the body runs unless there
        is exactly one; otherwise the image is posted to the endpoint once and
        the decoded body (or the transport or decoding error) is returned. */
    function PredictBytes<T>(post: (string, Bytes) -> Result<Response<T>>, image: Bytes,
                             positionalArgs: nat): (r: Result<Response<T>>)
      ensures positionalArgs != 1 ==> r == Err(TypeError)
      ensures positionalArgs == 1 ==> r == post(endpoint, image)
    {
      if positionalArgs != 1 then Err(TypeError) else post(endpoint, image)
    }
  }

  /** The YOLOv5 detection client. */
  class YOLOv5 {
    const base: FastAPIBaseModel

    constructor (endpoint: string)
      ensures base.endpoint == Normalize(endpoint)
    {
      base := new FastAPIBaseModel(endpoint);
    }

    /** `predict_file` as written: the image is encoded, then the base
        `predict_bytes` is called with two positional arguments (the image
        and the threshold), which raises TypeError, so no request is sent
        and the filter is never reached. */
    function PredictFileAsWritten(encode: string -> Result<Bytes>,
                                  post: (string, Bytes) -> Result<Response<Detection>>,
                                  path: string, threshold: real): (r: Result<seq<Detection>>)
      ensures r.Err?
      ensures encode(path).Err? ==> r == Err(encode(path).error)
      ensures encode(path).Ok? ==> r == Err(TypeError)
    {
      match encode(path)
      case Err(e) => Err(e)
      case Ok(image) =>
        match base.PredictBytes(post, image, 2)
        case Err(e) => Err(e)
        case Ok(resp) =>
          match ResultList(resp)
          case Err(e) => Err(e)
          case Ok(results) => Ok(KeepAtLeast(results, Confidence, threshold))
    }

    /** `predict_file` as intended: encode the image, post it once, and keep
        the detections with confidence >= threshold in response order. An
        image that cannot be loaded fails before any request. */
    function PredictFile(encode: string -> Result<Bytes>,
                         post: (string, Bytes) -> Result<Response<Detection>>,
                         path: string, threshold: real): (r: Result<seq<Detection>>)
      ensures encode(path).Err? ==> r == Err(encode(path).error)
      ensures encode(path).Ok? && post(base.endpoint, encode(path).value).Err?
              ==> r == Err(post(base.endpoint, encode(path).value).error)
      ensures encode(path).Ok? && post(base.endpoint, encode(path).value).Ok?
              && post(base.endpoint, encode(path).value).value.result.None?
              ==> r == Err(KeyError("result"))
      ensures r.Ok? <==> encode(path).Ok? && post(base.endpoint, encode(path).value).Ok?
                         && post(base.endpoint, encode(path).value).value.result.Some?
      ensures r.Ok? ==> r.value == KeepAtLeast(post(base.endpoint, encode(path).value).value.result.value,
                                               Confidence, threshold)
      ensures r.Ok? ==> forall i :: 0 <= i < |r.value| ==> r.value[i].confidence >= threshold
    {
      match encode(path)
      case Err(e) => Err(e)
      case Ok(image) =>
        match base.PredictBytes(post, image, 1)
        case Err(e) => Err(e)
        case Ok(resp) =>
          match ResultList(resp)
          case Err(e) => Err(e)
          case Ok(results) => Ok(KeepAtLeast(results, Confidence, threshold))
    }
  }

  /** The Keras classification client. */
  class KClassify {
    const base: FastAPIBaseModel

    constructor (endpoint: string)
      ensures base.endpoint == Normalize(endpoint)
    {
      base := new FastAPIBaseModel(endpoint);
    }

    /** `predict_bytes(image_bytes, threshold, top_n)`: one request; a
        transport or decoding error, or a response without 'result', is
        raised; otherwise the records are ranked. No cap on top_n applies. */
    function PredictBytes(post: (string, Bytes) -> Result<Response<Classification>>,
                          image: Bytes, threshold: real, topN: int): (r: Result<seq<Classification>>)
      ensures post(base.endpoint, image).Err? ==> r == Err(post(base.endpoint, image).error)
      ensures post(base.endpoint, image).Ok? && post(base.endpoint, image).value.result.None?
              ==> r == Err(KeyError("result"))
      ensures post(base.endpoint, image).Ok? && post(base.endpoint, image).value.result.Some?
              ==> r == Ok(Rank(post(base.endpoint, image).value.result.value, threshold, topN))
      ensures r.Ok? ==> r.value == Rank(post(base.endpoint, image).value.result.value, threshold, topN)
      ensures r.Ok? ==> forall i :: 0 <= i < |r.value| ==> r.value[i].score >= threshold
      ensures r.Ok? && topN >= 0 ==> |r.value| <= topN
    {
      match base.PredictBytes(post, image, 1)
      case Err(e) => Err(e)
      case Ok(resp) =>
        match ResultList(resp)
        case Err(e) => Err(e)
        case Ok(results) => Ok(Rank(results, threshold, topN))
    }

    /** `predict_file(image_path, threshold, top_n)`: encode the image, then
        as `predict_bytes`; an image that cannot be loaded fails before any request. */
    function PredictFile(encode: string -> Result<Bytes>,
                         post: (string, Bytes) -> Result<Response<Classification>>,
                         path: string, threshold: real, topN: int): (r: Result<seq<Classification>>)
      ensures encode(path).Err? ==> r == Err(encode(path).error)
      ensures encode(path).Ok? ==> r == PredictBytes(post, encode(path).value, threshold, topN)
    {
      match encode(path)
      case Err(e) => Err(e)
      case Ok(image) => PredictBytes(post, image, threshold, topN)
    }
  }

  /** The fixed response of two classifications, 0.9 for "A" and 0.4 for "B",
      ranked with threshold 0.5 and top 5, and with threshold 0.0 and top 1,
      gives just the "A" record. */
  lemma RankExamples()
    ensures Rank([Classification(0.9, "A"), Classification(0.4, "B")], 0.5, 5) == [Classification(0.9, "A")]
    ensures Rank([Classification(0.9, "A"), Classification(0.4, "B")], 0.0, 1) == [Classification(0.9, "A")]
  {
    var a, b := Classification(0.9, "A"), Classification(0.4, "B");
    assert KeepAtLeast([a, b], Score, 0.5) == [a] by {
      assert [a, b][1..] == [b];
    }
    assert KeepAtLeast([a, b], Score, 0.0) == [a, b] by {
      assert [a, b][1..] == [b];
    }
    assert Ranked([a, b], 0.0) == [a, b] by {
      assert [a, b][1..] == [b];
      assert StableSortDesc([b], Score) == [b];
    }
  }
}
