/** Normalisation of a prediction service's endpoint address: the address
    always ends with a '/', so that file uploads are routed correctly. */
module Endpoint {

  predicate EndsWithSlash(s: string) {
    |s| > 0 && s[|s| - 1] == '/'
  }

  /** The endpoint as the client stores it: unchanged when it already ends
      with '/', otherwise with exactly one '/' appended. */
  function Normalize(e: string): (r: string)
    ensures EndsWithSlash(r)
    ensures e <= r && |r| <= |e| + 1
    ensures EndsWithSlash(e) <==> r == e
  {
    if EndsWithSlash(e) then e else e + "/"
  }

  /** Normalising twice is normalising once. */
  lemma NormalizeIdempotent(e: string)
    ensures Normalize(Normalize(e)) == Normalize(e)
  {
  }

  /** Normalize(e) is the shortest string that extends e and ends with '/',
      and the only one of that length. */
  lemma NormalizeShortest(e: string, s: string)
    requires e <= s && EndsWithSlash(s)
    ensures |Normalize(e)| <= |s|
    ensures |s| == |Normalize(e)| ==> s == Normalize(e)
  {
    if !EndsWithSlash(e) {
      assert s != e;
      if |s| == |e| + 1 {
        assert s == e + "/";
      }
    } else if |s| == |e| {
      assert s == e;
    }
  }

  /** Example addresses: the one the client's docstring gives gains a '/',
      one that already ends with '/' is kept, and the empty one becomes "/". */
  lemma NormalizeExamples()
    ensures Normalize("localhost:3000/predict_to_json") == "localhost:3000/predict_to_json/"
    ensures Normalize("localhost:3000/predict_to_json/") == "localhost:3000/predict_to_json/"
    ensures Normalize("") == "/"
  {
  }
}
