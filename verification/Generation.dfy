/** PromptedGenerator.Generate of inference/prompted.go: ask, decode, and on invalid output ask again with the whole
    transcript. The model's k-th answer, the codec and the fence stripping are parameters. */
module Generation {
  import opened Wrappers
  import opened Usage

  datatype Role = User | Assistant

  datatype Message = Message(role: Role, content: string, identity: Option<string>)

  datatype TextRequest = TextRequest(instructions: seq<string>, messages: seq<Message>)

  datatype TextResponse = TextResponse(content: string, usage: Usage, identity: Option<string>)

  /** What the model answers to its k-th call, counting from zero. */
  type Model = (nat, TextRequest) -> Result<TextResponse, string>

  /** `decode` includes stripping Markdown fences; `feedback` renders a decoding error for the model. */
  datatype Codec<!I, !O, !E> = Codec(encode: I -> Option<string>, decode: string -> Result<O, E>, feedback: E -> string)

  datatype GenerationError = Unserializable | CallFailed(error: string) | InvalidOutput

  datatype GenerationResult<O> = GenerationResult(output: O, usage: Usage)

  /** The message pair a failed attempt adds to the transcript. */
  function Retry<I, O, E>(codec: Codec<I, O, E>, response: TextResponse, error: E): seq<Message> {
    [Message(Assistant, response.content, response.identity), Message(User, codec.feedback(error), None)]
  }

  /** The k-th attempt was answered with something that does not decode, and `next` continues its transcript. */
  predicate Continues<I, O, E>(model: Model, codec: Codec<I, O, E>, k: nat, request: TextRequest, next: TextRequest) {
    var reply := model(k, request);
    && reply.Success? && codec.decode(reply.value.content).Failure?
    && next == request.(messages := request.messages + Retry(codec, reply.value, codec.decode(reply.value.content).error))
  }

  /** The requests of a run so far: the first carries the prompt, each later one continues its predecessor. */
  predicate IsTranscript<I, O, E>(model: Model, codec: Codec<I, O, E>, first: TextRequest, requests: seq<TextRequest>) {
    && (requests != [] ==> requests[0] == first)
    && forall k | 0 < k < |requests| :: Continues(model, codec, k - 1, requests[k - 1], requests[k])
  }

  predicate Alternates(messages: seq<Message>) {
    forall i | 0 <= i < |messages| :: messages[i].role == if i % 2 == 0 then User else Assistant
  }

  /** Request k, counting from one, carries 2k-1 messages, alternating from user to user, and extends its
      predecessor. */
  lemma {:induction false} TranscriptShape<I, O, E>(model: Model, codec: Codec<I, O, E>, first: TextRequest, requests: seq<TextRequest>, k: nat)
    requires IsTranscript(model, codec, first, requests) && k < |requests|
    requires |first.messages| == 1 && first.messages[0].role == User
    ensures |requests[k].messages| == 2 * k + 1 && Alternates(requests[k].messages)
    ensures requests[k].instructions == first.instructions && first.messages <= requests[k].messages
    ensures k > 0 ==> requests[k - 1].messages <= requests[k].messages
  {
    if k > 0 {
      TranscriptShape(model, codec, first, requests, k - 1);
      assert Continues(model, codec, k - 1, requests[k - 1], requests[k]);
    }
  }

  /** Request k, counting from zero, repeats the conversation so far: the prompt, then for each earlier attempt what the
      model answered, under the identity of that answer, and what was wrong with it. */
  ghost predicate IsConversation<I, O, E>(model: Model, codec: Codec<I, O, E>, prompt: string, requests: seq<TextRequest>, k: nat)
    requires k < |requests|
  {
    var messages := requests[k].messages;
    && |messages| == 2 * k + 1 && messages[0] == Message(User, prompt, None)
    && forall j | 1 <= j <= k :: IsExchange(model, codec, requests, messages, j)
  }

  /** Messages 2j-1 and 2j are the answer to attempt j-1 and the complaint about it. */
  ghost predicate IsExchange<I, O, E>(model: Model, codec: Codec<I, O, E>, requests: seq<TextRequest>, messages: seq<Message>, j: nat)
    requires 1 <= j && j - 1 < |requests| && 2 * j < |messages|
  {
    var reply := model(j - 1, requests[j - 1]);
    && reply.Success? && codec.decode(reply.value.content).Failure?
    && messages[2 * j - 1].role == Assistant
    && messages[2 * j - 1].content == reply.value.content && messages[2 * j - 1].identity == reply.value.identity
    && messages[2 * j].role == User
    && messages[2 * j].content == codec.feedback(codec.decode(reply.value.content).error)
    && messages[2 * j].identity == None
  }

  lemma {:induction false} TranscriptConverses<I, O, E>(model: Model, codec: Codec<I, O, E>, instructions: seq<string>, prompt: string,
                                                        requests: seq<TextRequest>, k: nat)
    requires IsTranscript(model, codec, TextRequest(instructions, [Message(User, prompt, None)]), requests) && k < |requests|
    ensures requests[k].instructions == instructions && IsConversation(model, codec, prompt, requests, k)
  {
    if k > 0 {
      TranscriptConverses(model, codec, instructions, prompt, requests, k - 1);
      assert Continues(model, codec, k - 1, requests[k - 1], requests[k]);
      var before, messages := requests[k - 1].messages, requests[k].messages;
      forall j | 1 <= j <= k ensures IsExchange(model, codec, requests, messages, j) {
        if j < k {
          assert IsExchange(model, codec, requests, before, j);
        }
      }
    }
  }

  /** The usage reported by the answers to these requests. */
  function Usages(model: Model, requests: seq<TextRequest>): seq<Usage>
    requires forall k | 0 <= k < |requests| :: model(k, requests[k]).Success?
  { seq(|requests|, k requires 0 <= k < |requests| => model(k, requests[k]).value.usage) }

  predicate AllAnswered(model: Model, requests: seq<TextRequest>) {
    forall k | 0 <= k < |requests| :: model(k, requests[k]).Success?
  }

  /** An answered request adds its usage to the total. */
  lemma UsageGrows(model: Model, requests: seq<TextRequest>, request: TextRequest)
    requires AllAnswered(model, requests) && model(|requests|, request).Success?
    ensures AllAnswered(model, requests + [request])
    ensures Fold(Usages(model, requests + [request])) ==
            AddRequestUsage(Fold(Usages(model, requests)), model(|requests|, request).value.usage)
  {
    var usage := model(|requests|, request).value.usage;
    assert Usages(model, requests + [request]) == Usages(model, requests) + [usage];
    FoldSnoc(Usages(model, requests), usage);
  }

  lemma TranscriptGrows<I, O, E>(model: Model, codec: Codec<I, O, E>, first: TextRequest, requests: seq<TextRequest>, next: TextRequest)
    requires requests != [] && IsTranscript(model, codec, first, requests)
    requires Continues(model, codec, |requests| - 1, requests[|requests| - 1], next)
    ensures IsTranscript(model, codec, first, requests + [next])
  {
    var all := requests + [next];
    forall k | 0 < k < |all| ensures Continues(model, codec, k - 1, all[k - 1], all[k]) {
      if k < |requests| {
        assert Continues(model, codec, k - 1, requests[k - 1], requests[k]);
      }
    }
  }

  /** How a run that made these requests ends. */
  ghost predicate Ends<I, O, E>(model: Model, codec: Codec<I, O, E>, maxRequests: nat, requests: seq<TextRequest>,
                               r: Result<GenerationResult<O>, GenerationError>)
    requires requests != []
  {
    var last := |requests| - 1;
    var reply := model(last, requests[last]);
    if reply.Failure? then r == Failure(CallFailed(reply.error))
    else if codec.decode(reply.value.content).Success? then
      && AllAnswered(model, requests)
      && r == Success(GenerationResult(codec.decode(reply.value.content).value, Fold(Usages(model, requests))))
    else |requests| == maxRequests && r == Failure(InvalidOutput)
  }

  /** Generate: at most maxRequests calls, each continuing the last; the result is the first answer that decodes. The
      panic after the loop is unreachable. */
  method Generate<I, O, E>(model: Model, codec: Codec<I, O, E>, instructions: seq<string>, maxRequests: nat, value: I)
    returns (r: Result<GenerationResult<O>, GenerationError>, requests: seq<TextRequest>)
    requires maxRequests >= 1
    ensures codec.encode(value).None? ==> r == Failure(Unserializable) && requests == []
    ensures codec.encode(value).Some? ==>
              && 1 <= |requests| <= maxRequests
              && IsTranscript(model, codec, TextRequest(instructions, [Message(User, codec.encode(value).value, None)]), requests)
              && Ends(model, codec, maxRequests, requests, r)
    ensures codec.encode(value).Some? ==>
              forall k | 0 <= k < |requests| ::
                requests[k].instructions == instructions && IsConversation(model, codec, codec.encode(value).value, requests, k)
  {
    r, requests := Attempt(model, codec, instructions, maxRequests, value);
    if codec.encode(value).Some? {
      forall k | 0 <= k < |requests|
        ensures requests[k].instructions == instructions && IsConversation(model, codec, codec.encode(value).value, requests, k)
      {
        TranscriptConverses(model, codec, instructions, codec.encode(value).value, requests, k);
      }
    }
  }

  /** The request loop. */
  method Attempt<I, O, E>(model: Model, codec: Codec<I, O, E>, instructions: seq<string>, maxRequests: nat, value: I)
    returns (r: Result<GenerationResult<O>, GenerationError>, requests: seq<TextRequest>)
    requires maxRequests >= 1
    ensures codec.encode(value).None? ==> r == Failure(Unserializable) && requests == []
    ensures codec.encode(value).Some? ==>
              && 1 <= |requests| <= maxRequests
              && IsTranscript(model, codec, TextRequest(instructions, [Message(User, codec.encode(value).value, None)]), requests)
              && Ends(model, codec, maxRequests, requests, r)
  {
    requests := [];
    r := Failure(Unserializable);
    var prompt := codec.encode(value);
    if prompt.None? {
      return;
    }
    var messages := [Message(User, prompt.value, None)];
    ghost var first := TextRequest(instructions, messages);
    var usage := NO_USAGE;
    var requestNumber := 1;
    while requestNumber <= maxRequests
      invariant 1 <= requestNumber <= maxRequests && |requests| == requestNumber - 1
      invariant IsTranscript(model, codec, first, requests + [TextRequest(instructions, messages)])
      invariant AllAnswered(model, requests) && usage == Fold(Usages(model, requests))
      decreases maxRequests - requestNumber
    {
      var request := TextRequest(instructions, messages);
      var reply := model(requestNumber - 1, request);
      if reply.Success? {
        UsageGrows(model, requests, request);
      }
      requests := requests + [request];
      if reply.Failure? {
        r := Failure(CallFailed(reply.error));
        return;
      }
      usage := AddRequestUsage(usage, reply.value.usage);
      var decoded := codec.decode(reply.value.content);
      if decoded.Success? {
        r := Success(GenerationResult(decoded.value, usage));
        return;
      }
      if requestNumber == maxRequests {
        r := Failure(InvalidOutput);
        return;
      }
      messages := messages + Retry(codec, reply.value, decoded.error);
      ghost var next := TextRequest(instructions, messages);
      TranscriptGrows(model, codec, first, requests, next);
      requestNumber := requestNumber + 1;
    }
    assert false;
  }
}
