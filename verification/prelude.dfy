/** Failure-carrying values shared by every module of the model.
    Python raises exceptions; the model returns them as values. */
module Prelude {

  datatype Option<+T> = None | Some(value: T) {
    function GetOr(default: T): T {
      match this
      case Some(v) => v
      case None => default
    }
  }

  /** Why a sentence could not be matched against the transcript's words
      (the `reason` carried by `SentenceMatchError`). */
  datatype MatchReason =
    | StartNotFound
    | RanPastTarget(got: string, target: string)
    | NoMatchingSequence

  /** The exceptions the modelled Python code can raise. */
  datatype Error =
    | SentenceMatch(sentence: string, originalText: string, reason: MatchReason)
    | ValueError(message: string)
    | IndexError
    | KeyError(key: string)
    | NameError(name: string)
    | AttributeError
    | TypeError

  datatype Result<+T> = Ok(value: T) | Err(error: Error)

  /** Draining a generator that yields `f(x)` for each `x` in turn: the first exception
      propagates and nothing after it is produced. */
  function Collect<A, B>(f: A -> Result<B>, xs: seq<A>): (r: Result<seq<B>>)
    ensures r.Ok? <==> forall i :: 0 <= i < |xs| ==> f(xs[i]).Ok?
    ensures r.Ok? ==> |r.value| == |xs| && forall i :: 0 <= i < |xs| ==> r.value[i] == f(xs[i]).value
    ensures r.Err? ==> exists i :: 0 <= i < |xs| && f(xs[i]) == Err(r.error)
                                  && forall j :: 0 <= j < i ==> f(xs[j]).Ok?
    decreases |xs|
  {
    if |xs| == 0 then Ok([])
    else
      var rest := Collect(f, xs[1..]);
      assert forall i :: 1 <= i < |xs| ==> xs[i] == xs[1..][i - 1];
      match f(xs[0])
      case Err(e) => Err(e)
      case Ok(y) =>
        match rest
        case Err(e) =>
          var i :| 0 <= i < |xs[1..]| && f(xs[1..][i]) == Err(e) && forall j :: 0 <= j < i ==> f(xs[1..][j]).Ok?;
          assert f(xs[i + 1]) == Err(e);
          Err(e)
        case Ok(ys) => Ok([y] + ys)
  }

  lemma CollectPair<A, B>(f: A -> Result<B>, a: A, b: A)
    requires f(a).Ok? && f(b).Ok?
    ensures Collect(f, [a, b]) == Ok([f(a).value, f(b).value])
  {
    var r := Collect(f, [a, b]);
    assert r.Ok? && |r.value| == 2;
    assert r.value[0] == f(a).value && r.value[1] == f(b).value;
    assert r.value == [f(a).value, f(b).value];
  }}
