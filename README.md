# Prediction clients of the biodiversity model trainer, in Dafny

This project models the client library in `bio/model/__init__.py`. The library
sends images to machine-learning services served over HTTP and post-processes
what they return:

- `FastAPIBaseModel` stores the service endpoint. A `/` is appended when the
  address does not already end with one. Its `predict_bytes` posts the image
  once and returns the decoded JSON body.
- `YOLOv5.predict_file` (detection) is meant to keep the detections whose
  `confidence` is at least the threshold, in the service's order (line 60).
  As written it always raises TypeError before that line; see "## Findings".
- `KClassify.predict_bytes` and `predict_file` (classification) keep the
  records whose `score` is at least the threshold. They stably sort them by
  descending score and return the Python slice `[:top_n]`.

Files:

- `wrappers.dfy` (module `Wrappers`): `Option`, `Result` and the errors the
  client raises.
- `endpoint.dfy` (module `Endpoint`): endpoint normalisation.
- `postprocess.dfy` (module `PostProcess`): the three list steps, written
  generically over a record type and a key function:
  - the threshold filter `KeepAtLeast`;
  - the stable descending sort `StableSortDesc`, an insertion sort;
  - Python's slice `[:n]`, as `Take`.
- `model.dfy` (module `BioModel`): the response records and the three client
  classes. Python inheritance becomes composition: each variant holds its
  base client in `base`. The endpoint is a `const` field, set once by the
  constructor.

The network call with its JSON decoding is the parameter `post`. The PIL image
re-encoding is the parameter `encode`. Both return a `Result`, so their
failures (`TransportError`, `DecodeError`, `ImageLoadError`) reach the caller
unchanged. A response without the key `'result'` raises `KeyError`.

The model follows the code:

- An empty endpoint is accepted and becomes `"/"`. It is not rejected.
- A negative `top_n` does not give an empty list. As in Python, `[:-k]` drops
  the last `k` ranked records (`PostProcess.TakeNegative`).
- The docstrings of `predict_bytes` and `predict_file` say "up to 5", but
  no cap on `top_n` is applied.

Stability is stated with `Tied(s, key, v)`, the subsequence of records whose
key is exactly `v`. `StableSortCharacterized` proves that `StableSortDesc(s)`
is the only sequence that is sorted by descending key and leaves every such
subsequence as it was in `s`. That is the contract of Python's
`sorted(..., reverse=True)`.

## Model

| member | source | states |
|---|---|---|
| `Endpoint.Normalize` | bio/model/__init__.py:29-33 | the stored endpoint ends with '/', extends the given one by at most one character, and equals it exactly when it already ends with '/' |
| `Endpoint.NormalizeIdempotent` | bio/model/__init__.py:30-31 | normalising an already normalised endpoint leaves it unchanged |
| `Endpoint.NormalizeShortest` | bio/model/__init__.py:30-31 | the normalised endpoint is the shortest string that extends the given one and ends with '/', and the only one of that length |
| `Endpoint.NormalizeExamples` | bio/model/__init__.py:27-31 | the docstring's address "localhost:3000/predict_to_json" gains a '/', the same address with a '/' is kept, "" becomes "/" |
| `BioModel.FastAPIBaseModel.constructor` | bio/model/__init__.py:24-33 | the endpoint field is the normalised argument and ends with '/' |
| `BioModel.FastAPIBaseModel.PredictBytes` | bio/model/__init__.py:35-42 | a call with other than exactly one positional argument raises TypeError; otherwise one request to the stored endpoint, whose decoded body or error is returned |
| `BioModel.ResultList` | bio/model/__init__.py:82 | looking up 'result' fails with KeyError exactly when the response lacks it, and otherwise gives the list stored under it |
| `PostProcess.KeepAtLeast` | bio/model/__init__.py:82 | the filter returns no more records than it receives, and every one has key >= threshold |
| `PostProcess.KeepAtLeastCount` | bio/model/__init__.py:82 | each record occurs in the filter's result as often as in its input when its key is >= threshold, and not at all otherwise |
| `PostProcess.KeepAtLeastAppend` | bio/model/__init__.py:82 | the filter distributes over concatenation, so it decides record by record |
| `PostProcess.KeepAtLeastSubsequence` | bio/model/__init__.py:60 | the filter's result is an order-preserving subsequence of its input |
| `PostProcess.KeepAtLeastIdempotent` | bio/model/__init__.py:82 | filtering twice with one threshold equals filtering once |
| `PostProcess.Insert` | bio/model/__init__.py:85 | inserting adds exactly the one record to the multiset and one to the length |
| `PostProcess.InsertSorted` | bio/model/__init__.py:85 | inserting into a descending sequence keeps it descending |
| `PostProcess.StableSortDesc` | bio/model/__init__.py:85 | the sort's result is in non-increasing key order and is a permutation of its input |
| `PostProcess.SortKeepsBound` | bio/model/__init__.py:82-85 | sorting keeps every record at or above the threshold |
| `PostProcess.StableSortKeepsTies` | bio/model/__init__.py:85 | the sort is stable: the records of each key value come out in input order |
| `PostProcess.TiedOfPrefix` | bio/model/__init__.py:88 | truncating a sequence truncates each group of equal-key records to a prefix of that group |
| `PostProcess.SortedTiesUnique` | bio/model/__init__.py:85 | two descending sequences with the same groups of equal-key records in the same orders are equal |
| `PostProcess.StableSortCharacterized` | bio/model/__init__.py:85 | a sequence is the sort's result if and only if it is descending and keeps every group of ties in input order |
| `PostProcess.SliceEnd` | bio/model/__init__.py:88 | the slice end never exceeds the length |
| `PostProcess.Take` | bio/model/__init__.py:88 | `s[:n]` is a prefix of s, of length min(n, len s) for n >= 0 and max(0, len s + n) for n < 0 |
| `PostProcess.TakeNegative` | bio/model/__init__.py:88 | `s[:n]` with negative n is `s[:len s + n]`, or empty when -n exceeds len s |
| `BioModel.Ranked` | bio/model/__init__.py:82-85 | the filtered, sorted records all have score >= threshold and are in descending score order |
| `BioModel.Rank` | bio/model/__init__.py:82-88 | every classification returned has score >= threshold, and for top_n >= 0 there are at most top_n of them |
| `BioModel.RankIsTopN` | bio/model/__init__.py:82-88 | the result is descending, is a prefix of the full ranking, has the length the slice gives for either sign of top_n, and no dropped record outscores a kept one |
| `BioModel.RankKeepsTies` | bio/model/__init__.py:82-88 | the returned records of one score are the earliest qualifying ones of that score, in response order |
| `BioModel.RankFromResponse` | bio/model/__init__.py:82-88 | no record is returned more often than the response holds it |
| `BioModel.RankZero` | bio/model/__init__.py:88 | top_n = 0 returns nothing |
| `BioModel.RankExamples` | bio/model/__init__.py:71-90 | scores 0.9 "A" and 0.4 "B" give just "A" for threshold 0.5 with top 5, and for threshold 0.0 with top 1 |
| `BioModel.FilterDetections` | bio/model/__init__.py:60 | the detection filter returns exactly the detections with confidence >= threshold, with their multiplicities and in response order, with no re-sort |
| `BioModel.YOLOv5.constructor` | bio/model/__init__.py:46-48 | the base client holds the normalised endpoint |
| `BioModel.YOLOv5.PredictFileAsWritten` | bio/model/__init__.py:50-62 | predict_file as written always fails: an unloadable image fails with its error; any other image raises TypeError and no request is sent |
| `BioModel.YOLOv5.PredictFile` | bio/model/__init__.py:50-62 | corrected predict_file: an image error comes first, a transport or decoding error of the request is passed on unchanged, a missing 'result' raises KeyError; it succeeds exactly when the request succeeds and the response has 'result', and then returns the confidence filter of that list |
| `BioModel.KClassify.constructor` | bio/model/__init__.py:67-69 | the base client holds the normalised endpoint |
| `BioModel.KClassify.PredictBytes` | bio/model/__init__.py:71-90 | transport or decoding errors propagate unchanged, a missing 'result' raises KeyError; when the request succeeds and 'result' is present it succeeds with the ranking of that list, all at or above the threshold, at most top_n long for top_n >= 0 |
| `BioModel.KClassify.PredictFile` | bio/model/__init__.py:92-106 | an unloadable image fails before any request; otherwise the result is predict_bytes on the encoded image |

## Findings

| source | as written | input that shows it | evidently intended | confidence | as-written member | corrected member |
|---|---|---|---|---|---|---|
| bio/model/__init__.py:56 | `YOLOv5.predict_file` passes the image and the threshold to the base `predict_bytes`, which takes only the image (line 35) | any path to a loadable image, any threshold: Python raises TypeError before the request | post the image alone, then filter the detections by confidence (line 60) | high; not executed | `BioModel.YOLOv5.PredictFileAsWritten` | `BioModel.YOLOv5.PredictFile` |

## Left out

- The HTTP POST (`requests.post`) and `response.json()` are not modelled. They are the parameter `post`, whose result is the decoded response or a `TransportError` or `DecodeError`.
- The PIL image loading and JPEG re-encoding (`Image.open`, `save`, `BytesIO`, `seek`) are not modelled. They are the parameter `encode`, which returns the bytes or an `ImageLoadError`.
- `image.close()` is not modelled. Releasing the image handle is not modelled, so the model does not show that an exception after `Image.open` leaves the handle open.
- The `info` and `debug` logging calls are left out. They are side effects only.
- Records are typed: `Classification` has a `score` and `Detection` has a `confidence`. A record missing that field would raise KeyError in Python, and the model does not capture that.
- A JSON body that is not an object is not modelled. Python would raise TypeError on `results['result']`.
- The value under `'result'` is assumed to be a list of records. A `null`, number or string there would make Python raise TypeError at lines 60 and 82; the typed `Response` does not capture that.
- Scores and thresholds are `real`. IEEE floating point, NaN included, is not modelled.
- The record fields other than the score or confidence are reduced to a name and a box. They are passed through unchanged.
- The command-line tool `bio.py` is not part of this model. It covers argument parsing, dotenv loading, timing and the dataset download through the `tator` SDK.
