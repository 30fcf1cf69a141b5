/** `upload`: hands one batch to every configured backend in order and stops
    at the first backend whose `Put` fails. */
module Uploader {
  import opened Wrappers

  /** A configured backend, known to the watcher only through its `ID()`. */
  datatype Backend = Backend(id: string)

  /** What one call of `Put` returned: nil, or an error with its text. */
  datatype PutAnswer = Stored | Refused(reason: string)

  /** The answers the backends give during one upload: `answer(j)` is what the
      j-th configured backend's `Put` returns if it is called. */
  type PutOracle = nat -> PutAnswer

  /** One call of `Put`: which backend received which items. */
  datatype Call<T> = Call(backend: string, items: T)

  /** The error `upload` returns: the failing backend's ID and its reason. */
  datatype UploadError = UploadError(backend: string, reason: string)

  /** The text of the wrapped error, as `fmt.Errorf` renders it. */
  function ErrorMessage(e: UploadError): (m: string)
    ensures |m| == |ErrorPrefix| + |e.backend| + 2 + |e.reason|
    ensures m[..|ErrorPrefix|] == ErrorPrefix
    ensures m[|ErrorPrefix|..|ErrorPrefix| + |e.backend|] == e.backend
    ensures m[|ErrorPrefix| + |e.backend|..|ErrorPrefix| + |e.backend| + 2] == ": "
    ensures m[|m| - |e.reason|..] == e.reason
  {
    ErrorPrefix + e.backend + ": " + e.reason
  }

  const ErrorPrefix: string := "Error uploading to backend "

  /** The observable effect of one upload: the calls made, in order, and the
      error returned (None for Go's nil). */
  datatype Delivery<T> = Delivery(calls: seq<Call<T>>, error: Option<UploadError>)

  /** Every backend from position `i` on stores the batch. */
  ghost predicate AllStoredFrom(backends: seq<Backend>, answer: PutOracle, i: nat)
  {
    forall j :: i <= j < |backends| ==> answer(j).Stored?
  }

  /** The calls `upload` makes to backends `lo` (inclusive) to `hi`
      (exclusive), each receiving `items`. */
  function CallsTo<T>(items: T, backends: seq<Backend>, lo: nat, hi: nat): (cs: seq<Call<T>>)
    requires lo <= hi <= |backends|
    ensures |cs| == hi - lo
    ensures forall j :: 0 <= j < |cs| ==> cs[j] == Call(backends[lo + j].id, items)
    decreases hi - lo
  {
    if lo == hi then [] else [Call(backends[lo].id, items)] + CallsTo(items, backends, lo + 1, hi)
  }

  /** The remainder of the loop of `upload`, starting at backend `i`. */
  function UploadFrom<T>(items: T, backends: seq<Backend>, answer: PutOracle, i: nat): (d: Delivery<T>)
    requires i <= |backends|
    ensures |d.calls| <= |backends| - i
    ensures forall j :: 0 <= j < |d.calls| ==> d.calls[j] == Call(backends[i + j].id, items)
    ensures d.error.None? <==> AllStoredFrom(backends, answer, i)
    ensures d.error.None? ==> |d.calls| == |backends| - i
    ensures d.error.Some? ==>
              && 1 <= |d.calls|
              && var k := i + |d.calls| - 1;
              && answer(k).Refused?
              && d.error.value == UploadError(backends[k].id, answer(k).reason)
              && forall j :: i <= j < k ==> answer(j).Stored?
    decreases |backends| - i
  {
    if i == |backends| then
      Delivery([], None)
    else
      match answer(i)
      case Refused(reason) =>
        Delivery([Call(backends[i].id, items)], Some(UploadError(backends[i].id, reason)))
      case Stored =>
        var rest := UploadFrom(items, backends, answer, i + 1);
        Delivery([Call(backends[i].id, items)] + rest.calls, rest.error)
  }

  /** `upload(ctx, items, backends)` with the backends' answers supplied. */
  function Upload<T>(items: T, backends: seq<Backend>, answer: PutOracle): (d: Delivery<T>)
    ensures |d.calls| <= |backends|
    ensures forall j :: 0 <= j < |d.calls| ==> d.calls[j] == Call(backends[j].id, items)
    ensures d.error.None? <==> AllStoredFrom(backends, answer, 0)
    ensures d.error.None? ==> |d.calls| == |backends|
    ensures d.error.Some? ==>
              && var k := |d.calls| - 1;
              && 0 <= k && answer(k).Refused?
              && d.error.value == UploadError(backends[k].id, answer(k).reason)
              && forall j :: 0 <= j < k ==> answer(j).Stored?
  {
    UploadFrom(items, backends, answer, 0)
  }

  /** The position of the first backend that refuses, if any. */
  function FirstRefusal(backends: seq<Backend>, answer: PutOracle, i: nat): (k: Option<nat>)
    requires i <= |backends|
    ensures k.None? <==> AllStoredFrom(backends, answer, i)
    ensures k.Some? ==> i <= k.value < |backends| && answer(k.value).Refused?
                        && forall j :: i <= j < k.value ==> answer(j).Stored?
    decreases |backends| - i
  {
    if i == |backends| then None
    else if answer(i).Refused? then Some(i)
    else FirstRefusal(backends, answer, i + 1)
  }

  /** Reference description of `upload`: without a refusal every backend is
      called once, in order, and nil is returned; otherwise the backends up to
      and including the first refusing one are called, in order, and the error
      names that backend. */
  lemma {:induction false} UploadMatchesFirstRefusal<T>(items: T, backends: seq<Backend>, answer: PutOracle)
    ensures var d := Upload(items, backends, answer);
            match FirstRefusal(backends, answer, 0)
            case None =>
              d == Delivery(CallsTo(items, backends, 0, |backends|), None)
            case Some(k) =>
              d == Delivery(CallsTo(items, backends, 0, k + 1),
                            Some(UploadError(backends[k].id, answer(k).reason)))
  {
    match FirstRefusal(backends, answer, 0)
    case None =>
      AllStoredDeliversOnceEach(items, backends, answer);
    case Some(k) =>
      StopsAtFirstRefusal(items, backends, answer, k);
  }

  /** With calls recorded by position, a backend receives the items only if
      it comes no later than the first refusing backend `k`: the calls stop
      at `k`, and the error names backend `k`. */
  lemma StopsAtFirstRefusal<T>(items: T, backends: seq<Backend>, answer: PutOracle, k: nat)
    requires k < |backends| && answer(k).Refused?
    requires forall j :: 0 <= j < k ==> answer(j).Stored?
    ensures var d := Upload(items, backends, answer);
            && d.calls == CallsTo(items, backends, 0, k + 1)
            && d.error == Some(UploadError(backends[k].id, answer(k).reason))
  {
    var d := Delivery(CallsTo(items, backends, 0, k + 1), Some(UploadError(backends[k].id, answer(k).reason)));
    assert !AllStoredFrom(backends, answer, 0);
    assert IsDelivery(items, backends, answer, d);
    DeliveryDetermined(items, backends, answer, d);
  }

  /** When every backend stores the batch, each one is called exactly once,
      with exactly the items, and nil is returned. */
  lemma AllStoredDeliversOnceEach<T>(items: T, backends: seq<Backend>, answer: PutOracle)
    requires AllStoredFrom(backends, answer, 0)
    ensures var d := Upload(items, backends, answer);
            && d.error.None?
            && d.calls == CallsTo(items, backends, 0, |backends|)
  {
    var d := Delivery(CallsTo(items, backends, 0, |backends|), None);
    assert IsDelivery(items, backends, answer, d);
    DeliveryDetermined(items, backends, answer, d);
  }

  /** What `upload` promises about its calls and its error, stated without
      reference to how the loop is written. */
  ghost predicate IsDelivery<T>(items: T, backends: seq<Backend>, answer: PutOracle, d: Delivery<T>)
  {
    && |d.calls| <= |backends|
    && (forall j :: 0 <= j < |d.calls| ==> d.calls[j] == Call(backends[j].id, items))
    && (d.error.None? <==> AllStoredFrom(backends, answer, 0))
    && (d.error.None? ==> |d.calls| == |backends|)
    && (d.error.Some? ==>
          && 1 <= |d.calls|
          && answer(|d.calls| - 1).Refused?
          && d.error.value == UploadError(backends[|d.calls| - 1].id, answer(|d.calls| - 1).reason)
          && forall j :: 0 <= j < |d.calls| - 1 ==> answer(j).Stored?)
  }

  /** The description above admits exactly one delivery: the one `Upload`
      computes. */
  lemma DeliveryDetermined<T>(items: T, backends: seq<Backend>, answer: PutOracle, d: Delivery<T>)
    requires IsDelivery(items, backends, answer, d)
    ensures d == Upload(items, backends, answer)
  {
    var u := Upload(items, backends, answer);
    if d.error.Some? {
      var k, m := |d.calls| - 1, |u.calls| - 1;
      assert answer(k).Refused? && answer(m).Refused?;
      assert k == m;
    }
    assert |d.calls| == |u.calls|;
    forall j | 0 <= j < |d.calls|
      ensures d.calls[j] == u.calls[j]
    {
    }
    assert d.calls == u.calls;
  }

  /** The loop of `upload` as written: walk the backends in order, return the
      wrapped error of the first failing `Put`, else nil. */
  method UploadLoop<T>(items: T, backends: seq<Backend>, answer: PutOracle) returns (d: Delivery<T>)
    ensures IsDelivery(items, backends, answer, d)
    ensures d == Upload(items, backends, answer)
  {
    var calls: seq<Call<T>> := [];
    var i := 0;
    while i < |backends|
      invariant i <= |backends|
      invariant |calls| == i
      invariant forall j :: 0 <= j < i ==> calls[j] == Call(backends[j].id, items)
      invariant forall j :: 0 <= j < i ==> answer(j).Stored?
    {
      calls := calls + [Call(backends[i].id, items)];
      if answer(i).Refused? {
        d := Delivery(calls, Some(UploadError(backends[i].id, answer(i).reason)));
        DeliveryDetermined(items, backends, answer, d);
        return;
      }
      i := i + 1;
    }
    d := Delivery(calls, None);
    DeliveryDetermined(items, backends, answer, d);
  }
}
