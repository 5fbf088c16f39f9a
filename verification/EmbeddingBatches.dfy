/** BatchedEmbeddingModel.Embed (inference/embedding.go): texts are embedded in consecutive batches. The transport's
    k-th answer and the canonicalisation of a vector are parameters. */
module EmbeddingBatches {
  import opened Wrappers
  import opened Usage
  import Embedding

  type RawVector = seq<Embedding.Float>
  type Vector = seq<real>

  datatype ProviderResult = ProviderResult(inputs: seq<string>, document: bool, embeddings: seq<RawVector>, usage: Usage)

  /** What the transport answers to its k-th call, counting from zero; None is a failed call. */
  type Transport = (nat, seq<string>) -> Option<ProviderResult>

  /** canonicalEmbedding for the profile's dimension and normalisation. */
  type Canon = RawVector -> Option<Vector>

  /** `vectors` are the canonical forms of `embeddings`, each of which has one. */
  predicate Canonicalises(canon: Canon, embeddings: seq<RawVector>, vectors: seq<Vector>) {
    |vectors| == |embeddings| && forall i | 0 <= i < |embeddings| :: canon(embeddings[i]) == Some(vectors[i])
  }

  /** The answer echoes the batch as documents, with one canonicalisable vector per text. */
  predicate ValidAnswer(canon: Canon, batch: seq<string>, result: ProviderResult) {
    && result.document && result.inputs == batch && |result.embeddings| == |batch|
    && forall i | 0 <= i < |batch| :: canon(result.embeddings[i]).Some?
  }

  method ValidateBatch(canon: Canon, batch: seq<string>, result: ProviderResult) returns (r: Option<seq<Vector>>)
    ensures r.Some? <==>
              && result.document && result.inputs == batch && |result.embeddings| == |batch|
              && forall i | 0 <= i < |batch| :: canon(result.embeddings[i]).Some?
    ensures r.Some? <==> ValidAnswer(canon, batch, result)
    ensures r.Some? ==> Canonicalises(canon, result.embeddings, r.value)
  {
    if !result.document || result.inputs != batch || |result.embeddings| != |batch| {
      return None;
    }
    var vectors := [];
    for n := 0 to |batch|
      invariant |vectors| == n && forall i | 0 <= i < n :: canon(result.embeddings[i]) == Some(vectors[i])
    {
      var canonical := canon(result.embeddings[n]);
      if canonical.None? {
        return None;
      }
      vectors := vectors + [canonical.value];
    }
    return Some(vectors);
  }

  // ---------- batches ----------

  /** The texts cut into consecutive batches of `size`, the last possibly shorter. */
  function Batches(texts: seq<string>, size: nat): seq<seq<string>>
    requires size >= 1
    decreases |texts|
  {
    if texts == [] then []
    else if |texts| <= size then [texts]
    else [texts[..size]] + Batches(texts[size..], size)
  }

  function Flatten<T>(parts: seq<seq<T>>): seq<T> {
    if parts == [] then [] else parts[0] + Flatten(parts[1..])
  }

  /** The batches tile the texts; none is empty, none longer than `size`, and all but the last are full. */
  lemma {:induction false} BatchesTile(texts: seq<string>, size: nat)
    requires size >= 1
    ensures Flatten(Batches(texts, size)) == texts
    ensures forall k | 0 <= k < |Batches(texts, size)| :: 1 <= |Batches(texts, size)[k]| <= size
    ensures forall k | 0 <= k < |Batches(texts, size)| - 1 :: |Batches(texts, size)[k]| == size
    decreases |texts|
  {
    if |texts| > size {
      BatchesTile(texts[size..], size);
      assert Batches(texts, size)[1..] == Batches(texts[size..], size);
      assert texts == texts[..size] + texts[size..];
    } else if texts != [] {
      assert Flatten([texts]) == texts by { assert [texts][1..] == []; }
    }
  }

  /** There are ceil(|texts| / size) batches. */
  lemma {:induction false} BatchesCount(texts: seq<string>, size: nat)
    requires size >= 1
    ensures var n := |Batches(texts, size)|; (n - 1) * size < |texts| <= n * size
    decreases |texts|
  {
    if |texts| > size {
      BatchesCount(texts[size..], size);
      OneMore(|Batches(texts[size..], size)|, size);
    }
  }

  lemma OneMore(n: int, size: int)
    ensures (n + 1) * size == n * size + size && (n - 1) * size == n * size - size
  {}

  // ---------- embedding ----------

  /** Each of these calls was answered, validly. */
  predicate Answered(transport: Transport, canon: Canon, calls: seq<seq<string>>) {
    forall k | 0 <= k < |calls| :: transport(k, calls[k]).Some? && ValidAnswer(canon, calls[k], transport(k, calls[k]).value)
  }

  /** The embeddings the transport returned, call by call. */
  function Collected(transport: Transport, calls: seq<seq<string>>): seq<RawVector>
    requires forall k | 0 <= k < |calls| :: transport(k, calls[k]).Some?
  {
    if calls == [] then []
    else Collected(transport, calls[..|calls| - 1]) + transport(|calls| - 1, calls[|calls| - 1]).value.embeddings
  }

  function CallUsages(transport: Transport, calls: seq<seq<string>>): seq<Usage>
    requires forall k | 0 <= k < |calls| :: transport(k, calls[k]).Some?
  { seq(|calls|, k requires 0 <= k < |calls| => transport(k, calls[k]).value.usage) }

  lemma CollectedSnoc(transport: Transport, calls: seq<seq<string>>, batch: seq<string>)
    requires forall k | 0 <= k < |calls| :: transport(k, calls[k]).Some?
    requires transport(|calls|, batch).Some?
    ensures forall k | 0 <= k < |calls + [batch]| :: transport(k, (calls + [batch])[k]).Some?
    ensures Collected(transport, calls + [batch]) == Collected(transport, calls) + transport(|calls|, batch).value.embeddings
    ensures CallUsages(transport, calls + [batch]) == CallUsages(transport, calls) + [transport(|calls|, batch).value.usage]
  {
    assert (calls + [batch])[..|calls|] == calls;
  }

  datatype EmbeddingResult = EmbeddingResult(vectors: seq<Vector>, usage: Usage)

  function Min(a: int, b: int): int { if a < b then a else b }

  lemma NextBatch(texts: seq<string>, size: nat, start: nat, end: nat)
    requires size >= 1 && start < |texts| && end == Min(start + size, |texts|)
    ensures Batches(texts[start..], size) == [texts[start..end]] + Batches(texts[end..], size)
  {
    var rest := texts[start..];
    if |rest| > size {
      assert rest[..size] == texts[start..end] && rest[size..] == texts[end..];
    } else {
      assert rest == texts[start..end] && texts[end..] == [];
    }
  }

  /** Embed before its next batch: everything up to `start` is embedded, the rest is still to be cut. */
  ghost predicate Progress(transport: Transport, canon: Canon, size: nat, texts: seq<string>, start: nat,
                           calls: seq<seq<string>>, result: EmbeddingResult)
    requires size >= 1
  {
    && calls + Batches(texts[Min(start, |texts|)..], size) == Batches(texts, size)
    && Answered(transport, canon, calls)
    && Canonicalises(canon, Collected(transport, calls), result.vectors)
    && result.usage == Fold(CallUsages(transport, calls))
  }

  lemma AnsweredSnoc(transport: Transport, canon: Canon, calls: seq<seq<string>>, batch: seq<string>)
    requires Answered(transport, canon, calls)
    ensures Answered(transport, canon, calls + [batch]) <==>
              transport(|calls|, batch).Some? && ValidAnswer(canon, batch, transport(|calls|, batch).value)
  {
    var all := calls + [batch];
    assert all[|calls|] == batch;
    assert forall k | 0 <= k < |calls| :: all[k] == calls[k];
  }

  lemma TilingStep(texts: seq<string>, size: nat, start: nat, batch: seq<string>, calls: seq<seq<string>>)
    requires size >= 1 && start < |texts| && batch == texts[start..Min(start + size, |texts|)]
    requires calls + Batches(texts[start..], size) == Batches(texts, size)
    ensures calls + [batch] + Batches(texts[Min(start + size, |texts|)..], size) == Batches(texts, size)
  {
    NextBatch(texts, size, start, Min(start + size, |texts|));
    var next := Batches(texts[Min(start + size, |texts|)..], size);
    assert calls + [batch] + next == calls + ([batch] + next);
  }

  lemma CanonicalConcat(canon: Canon, a: seq<RawVector>, v: seq<Vector>, b: seq<RawVector>, w: seq<Vector>)
    requires Canonicalises(canon, a, v) && Canonicalises(canon, b, w)
    ensures Canonicalises(canon, a + b, v + w)
  {}

  lemma EmbedStep(transport: Transport, canon: Canon, size: nat, texts: seq<string>, start: nat, batch: seq<string>,
                  calls: seq<seq<string>>, result: EmbeddingResult, vectors: seq<Vector>)
    requires size >= 1 && start < |texts| && batch == texts[start..Min(start + size, |texts|)]
    requires Progress(transport, canon, size, texts, start, calls, result)
    requires transport(|calls|, batch).Some? && ValidAnswer(canon, batch, transport(|calls|, batch).value)
    requires Canonicalises(canon, transport(|calls|, batch).value.embeddings, vectors)
    ensures Progress(transport, canon, size, texts, start + size, calls + [batch],
                     EmbeddingResult(result.vectors + vectors, AddRequestUsage(result.usage, transport(|calls|, batch).value.usage)))
  {
    TilingStep(texts, size, start, batch, calls);
    AnsweredSnoc(transport, canon, calls, batch);
    CollectedSnoc(transport, calls, batch);
    CanonicalConcat(canon, Collected(transport, calls), result.vectors, transport(|calls|, batch).value.embeddings, vectors);
    FoldSnoc(CallUsages(transport, calls), transport(|calls|, batch).value.usage);
  }

  /** Every batch was answered validly, and `result` is what the answers canonicalise to. */
  ghost predicate Completed(transport: Transport, canon: Canon, batches: seq<seq<string>>, calls: seq<seq<string>>, result: EmbeddingResult) {
    && calls == batches && Answered(transport, canon, calls)
    && Canonicalises(canon, Collected(transport, calls), result.vectors)
    && result.usage == Fold(CallUsages(transport, calls))
  }

  /** The last call made is the first batch that failed or was answered invalidly. */
  ghost predicate Stopped(transport: Transport, canon: Canon, batches: seq<seq<string>>, calls: seq<seq<string>>) {
    && calls != [] && calls <= batches
    && Answered(transport, canon, calls[..|calls| - 1]) && !Answered(transport, canon, calls)
  }

  lemma EmbedStops(transport: Transport, canon: Canon, size: nat, texts: seq<string>, start: nat, batch: seq<string>,
                   calls: seq<seq<string>>, result: EmbeddingResult)
    requires size >= 1 && start < |texts| && batch == texts[start..Min(start + size, |texts|)]
    requires Progress(transport, canon, size, texts, start, calls, result)
    requires transport(|calls|, batch).None? || !ValidAnswer(canon, batch, transport(|calls|, batch).value)
    ensures Stopped(transport, canon, Batches(texts, size), calls + [batch])
  {
    var rest := Batches(texts[Min(start + size, |texts|)..], size);
    TilingStep(texts, size, start, batch, calls);
    StopsAt(transport, canon, Batches(texts, size), calls, batch, rest);
  }

  lemma StopsAt(transport: Transport, canon: Canon, batches: seq<seq<string>>, calls: seq<seq<string>>, batch: seq<string>,
                rest: seq<seq<string>>)
    requires (calls + [batch]) + rest == batches && Answered(transport, canon, calls)
    requires transport(|calls|, batch).None? || !ValidAnswer(canon, batch, transport(|calls|, batch).value)
    ensures Stopped(transport, canon, batches, calls + [batch])
  {
    AnsweredSnoc(transport, canon, calls, batch);
    assert (calls + [batch])[..|calls|] == calls;
  }

  lemma EmbedCompletes(transport: Transport, canon: Canon, size: nat, texts: seq<string>, start: nat,
                       calls: seq<seq<string>>, result: EmbeddingResult)
    requires size >= 1 && start >= |texts|
    requires Progress(transport, canon, size, texts, start, calls, result)
    ensures Completed(transport, canon, Batches(texts, size), calls, result)
  {
    assert texts[|texts|..] == [];
  }

  /** Embed: the calls are the batches in order, up to the first that fails or is answered invalidly; if none does, each
      vector is the canonical form of what the transport returned for its text. */
  method Embed(transport: Transport, canon: Canon, batchSize: nat, texts: seq<string>)
    returns (r: Option<EmbeddingResult>, calls: seq<seq<string>>)
    requires batchSize >= 1
    ensures r.Some? ==> Completed(transport, canon, Batches(texts, batchSize), calls, r.value)
    ensures r.None? ==> Stopped(transport, canon, Batches(texts, batchSize), calls)
  {
    calls := [];
    r := Some(EmbeddingResult([], NO_USAGE));
    if texts == [] {
      return;
    }
    var vectors: seq<Vector> := [];
    var usage := NO_USAGE;
    var start := 0;
    assert texts[0..] == texts;
    while start < |texts|
      invariant Progress(transport, canon, batchSize, texts, start, calls, EmbeddingResult(vectors, usage))
    {
      var batch := texts[start..Min(start + batchSize, |texts|)];
      var result := transport(|calls|, batch);
      ghost var before, sofar := calls, EmbeddingResult(vectors, usage);
      calls := calls + [batch];
      if result.None? {
        EmbedStops(transport, canon, batchSize, texts, start, batch, before, sofar);
        return None, calls;
      }
      var validated := ValidateBatch(canon, batch, result.value);
      if validated.None? {
        EmbedStops(transport, canon, batchSize, texts, start, batch, before, sofar);
        return None, calls;
      }
      EmbedStep(transport, canon, batchSize, texts, start, batch, before, sofar, validated.value);
      vectors := vectors + validated.value;
      usage := AddRequestUsage(usage, result.value.usage);
      start := start + batchSize;
    }
    EmbedCompletes(transport, canon, batchSize, texts, start, calls, EmbeddingResult(vectors, usage));
    r := Some(EmbeddingResult(vectors, usage));
  }

  // ---------- pointwise transports ----------

  function MapEmbed(f: string -> RawVector, texts: seq<string>): seq<RawVector> {
    seq(|texts|, i requires 0 <= i < |texts| => f(texts[i]))
  }

  /** Every call succeeds and embeds each text by itself. */
  ghost predicate Pointwise(transport: Transport, f: string -> RawVector) {
    forall k: nat, batch: seq<string> :: PointwiseAnswer(transport(k, batch), f, batch)
  }

  ghost predicate PointwiseAnswer(answer: Option<ProviderResult>, f: string -> RawVector, batch: seq<string>) {
    answer.Some? && answer.value.document && answer.value.inputs == batch && answer.value.embeddings == MapEmbed(f, batch)
  }

  lemma {:induction false} FlattenSnoc<T>(parts: seq<seq<T>>, part: seq<T>)
    ensures Flatten(parts + [part]) == Flatten(parts) + part
  {
    if parts == [] {
      assert (parts + [part])[1..] == [];
    } else {
      FlattenSnoc(parts[1..], part);
      assert (parts + [part])[1..] == parts[1..] + [part];
    }
  }

  lemma MapEmbedConcat(f: string -> RawVector, a: seq<string>, b: seq<string>)
    ensures MapEmbed(f, a + b) == MapEmbed(f, a) + MapEmbed(f, b)
  {}

  /** What the calls return, put together, is what one call for all their texts would return. */
  lemma {:induction false} CollectedIsMap(transport: Transport, f: string -> RawVector, calls: seq<seq<string>>)
    requires Pointwise(transport, f)
    ensures forall k | 0 <= k < |calls| :: transport(k, calls[k]).Some?
    ensures Collected(transport, calls) == MapEmbed(f, Flatten(calls))
  {
    forall k | 0 <= k < |calls| ensures transport(k, calls[k]).Some? {
      assert PointwiseAnswer(transport(k, calls[k]), f, calls[k]);
    }
    if calls != [] {
      var last := |calls| - 1;
      CollectedIsMap(transport, f, calls[..last]);
      assert PointwiseAnswer(transport(last, calls[last]), f, calls[last]);
      assert calls == calls[..last] + [calls[last]];
      FlattenSnoc(calls[..last], calls[last]);
      MapEmbedConcat(f, Flatten(calls[..last]), calls[last]);
    }
  }

  lemma {:induction false} FlattenMembers<T>(parts: seq<seq<T>>, x: T)
    ensures x in Flatten(parts) <==> exists k | 0 <= k < |parts| :: x in parts[k]
  {
    if parts != [] {
      FlattenMembers(parts[1..], x);
      if k :| 0 <= k < |parts| && x in parts[k] {
        if k > 0 { assert parts[1..][k - 1] == parts[k]; }
      }
      if k :| 0 <= k < |parts[1..]| && x in parts[1..][k] {
        assert parts[k + 1] == parts[1..][k];
      }
    }
  }

  lemma PointwiseAnswerValid(transport: Transport, canon: Canon, f: string -> RawVector, k: nat, batch: seq<string>)
    requires Pointwise(transport, f)
    ensures transport(k, batch).Some?
    ensures ValidAnswer(canon, batch, transport(k, batch).value) <==> forall t | t in batch :: canon(f(t)).Some?
  {
    assert PointwiseAnswer(transport(k, batch), f, batch);
    var e := transport(k, batch).value.embeddings;
    assert forall i | 0 <= i < |batch| :: e[i] == f(batch[i]);
  }

  /** Over a pointwise transport every batch is answered validly exactly when every text has a canonical vector, so
      whether Embed succeeds does not depend on the batch size either. */
  lemma SuccessIsPointwise(transport: Transport, canon: Canon, f: string -> RawVector, size: nat, texts: seq<string>)
    requires Pointwise(transport, f) && size >= 1
    ensures Answered(transport, canon, Batches(texts, size)) <==> forall t | t in texts :: canon(f(t)).Some?
  {
    var calls := Batches(texts, size);
    BatchesTile(texts, size);
    forall k | 0 <= k < |calls|
      ensures transport(k, calls[k]).Some?
      ensures ValidAnswer(canon, calls[k], transport(k, calls[k]).value) <==> forall t | t in calls[k] :: canon(f(t)).Some?
    {
      PointwiseAnswerValid(transport, canon, f, k, calls[k]);
    }
    if Answered(transport, canon, calls) {
      forall t | t in texts ensures canon(f(t)).Some? {
        FlattenMembers(calls, t);
      }
    }
    if forall t | t in texts :: canon(f(t)).Some? {
      forall k, t | 0 <= k < |calls| && t in calls[k] ensures canon(f(t)).Some? {
        FlattenMembers(calls, t);
      }
    }
  }

  /** So a successful Embed is the plain map of canonicalisation over the texts, whatever the batch size. */
  lemma BatchingIsInvisible(transport: Transport, canon: Canon, f: string -> RawVector, size: nat, texts: seq<string>, vectors: seq<Vector>)
    requires Pointwise(transport, f) && size >= 1
    ensures forall k | 0 <= k < |Batches(texts, size)| :: transport(k, Batches(texts, size)[k]).Some?
    ensures Canonicalises(canon, Collected(transport, Batches(texts, size)), vectors) <==>
              |vectors| == |texts| && forall i | 0 <= i < |texts| :: canon(f(texts[i])) == Some(vectors[i])
  {
    var calls := Batches(texts, size);
    BatchesTile(texts, size);
    CollectedIsMap(transport, f, calls);
    assert forall i | 0 <= i < |texts| :: MapEmbed(f, texts)[i] == f(texts[i]);
  }

  /** Every text embeds, and `vectors` are the canonical forms in order. */
  ghost predicate IsMap(canon: Canon, f: string -> RawVector, texts: seq<string>, vectors: seq<Vector>) {
    |vectors| == |texts| && forall i | 0 <= i < |texts| :: canon(f(texts[i])) == Some(vectors[i])
  }

  /** What Embed promises of its result, whichever way it ends. */
  ghost predicate Embedded(transport: Transport, canon: Canon, batches: seq<seq<string>>, calls: seq<seq<string>>,
                           r: Option<EmbeddingResult>) {
    match r
    case Some(result) => Completed(transport, canon, batches, calls, result)
    case None => Stopped(transport, canon, batches, calls)
  }

  /** Over a pointwise transport Embed succeeds exactly when every text has a canonical vector, and then returns the map,
      having made one request per batch. */
  lemma EmbedIsMap(transport: Transport, canon: Canon, f: string -> RawVector, size: nat, texts: seq<string>,
                   calls: seq<seq<string>>, r: Option<EmbeddingResult>)
    requires Pointwise(transport, f) && size >= 1 && Embedded(transport, canon, Batches(texts, size), calls, r)
    ensures r.Some? <==> forall t | t in texts :: canon(f(t)).Some?
    ensures r.Some? ==> IsMap(canon, f, texts, r.value.vectors) && r.value.usage.requests == |Batches(texts, size)|
  {
    SuccessIsPointwise(transport, canon, f, size, texts);
    if r.Some? {
      BatchingIsInvisible(transport, canon, f, size, texts, r.value.vectors);
      FoldIsTotal(CallUsages(transport, calls));
    } else {
      StoppedIsUnanswered(transport, canon, Batches(texts, size), calls);
    }
  }

  lemma StoppedIsUnanswered(transport: Transport, canon: Canon, batches: seq<seq<string>>, calls: seq<seq<string>>)
    requires Stopped(transport, canon, batches, calls)
    ensures !Answered(transport, canon, batches)
  {
    if Answered(transport, canon, batches) {
      assert forall k | 0 <= k < |calls| :: calls[k] == batches[k];
    }
  }

  /** `vector` is the canonical form of `raw` for a profile: the same numbers or, with unit normalisation, a positive
      multiple of them whose squares sum to one. */
  ghost predicate IsCanonical(raw: RawVector, dimension: int, unit: bool, vector: Vector) {
    && |raw| == dimension == |vector| && Embedding.AllFinite(raw)
    && if unit then
         && Embedding.SumSquares(vector) == 1.0
         && exists c :: Embedding.IsMultiple(vector, c, Embedding.Reals(raw))
       else forall i | 0 <= i < |raw| :: vector[i] == raw[i].value
  }

  /** The provider's vector is acceptable: of the profile's dimension, finite and, if it is to be normalised, not zero. */
  predicate Acceptable(raw: RawVector, dimension: int, unit: bool) {
    && dimension >= 1 && |raw| == dimension && Embedding.AllFinite(raw)
    && (unit ==> exists i | 0 <= i < |raw| :: raw[i].value != 0.0)
  }

  lemma CanonicalForm(root: Embedding.Root, raw: RawVector, dimension: int, unit: bool)
    requires Embedding.IsSquareRoot(root)
    ensures var r := Embedding.Canonical(root, raw, dimension, unit);
            (r.Some? <==> Acceptable(raw, dimension, unit)) && (r.Some? ==> IsCanonical(raw, dimension, unit, r.value))
  {
    if unit {
      var c := Embedding.UnitNormalisation(root, raw, dimension);
      if Embedding.Canonical(root, raw, dimension, unit).Some? {
        assert Embedding.IsMultiple(Embedding.Canonical(root, raw, dimension, unit).value, c, Embedding.Reals(raw));
      }
    } else {
      Embedding.NoNormalisation(root, raw, dimension);
    }
  }

  /** Embed with the canonical form of a profile: over a pointwise transport it succeeds exactly when every vector is
      acceptable, and returns their canonical forms in order. */
  method EmbedProfile(transport: Transport, root: Embedding.Root, dimension: int, unit: bool, batchSize: nat,
                      texts: seq<string>, ghost f: string -> RawVector)
    returns (r: Option<EmbeddingResult>)
    requires batchSize >= 1 && Embedding.IsSquareRoot(root)
    ensures Pointwise(transport, f) ==> (r.Some? <==> forall t | t in texts :: Acceptable(f(t), dimension, unit))
    ensures Pointwise(transport, f) && r.Some? ==>
              && |r.value.vectors| == |texts|
              && forall i | 0 <= i < |texts| :: IsCanonical(f(texts[i]), dimension, unit, r.value.vectors[i])
  {
    var canon: Canon := raw => Embedding.Canonical(root, raw, dimension, unit);
    var result, calls := Embed(transport, canon, batchSize, texts);
    if Pointwise(transport, f) {
      EmbedIsMap(transport, canon, f, batchSize, texts, calls, result);
      forall t | t in texts
        ensures canon(f(t)).Some? <==> Acceptable(f(t), dimension, unit)
        ensures canon(f(t)).Some? ==> IsCanonical(f(t), dimension, unit, canon(f(t)).value)
      {
        CanonicalForm(root, f(t), dimension, unit);
      }
    }
    r := result;
  }
}
