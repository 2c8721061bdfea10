/** The optional in-browser language model: its capability status with the
    re-entrancy guard of `initLLM`, and the advice text `generateAdvice`
    keeps from the model's reply. Loading the library, creating the engine
    and the chat completion itself are outcomes supplied from outside. */
module Advisor {
  import opened JsValues
  import opened JsStrings
  import opened Options

  datatype LlmStatus = Idle | Loading | Ready | Failed

  /** The status shown in the header, the last initialisation error, and
      whether an engine has been stored. */
  datatype Llm = Llm(status: LlmStatus, error: Option<string>, engine: bool)

  const InitialLlm: Llm := Llm(Idle, None, false)

  /** The message the source throws when the library loads without an
      engine factory. */
  const LibraryMissing: string := "WebLLM library not available in this environment"

  /** How an initialisation attempt ends: the dynamic import fails with a
      message, the module loads without `CreateMLCEngine`, the factory
      fails with a message, or an engine is created. A failure's message
      stands for the text the source derives from the thrown value. */
  datatype InitOutcome = ImportFailed(message: string) | NoEngineFactory | EngineFailed(message: string) | EngineCreated

  /** The status invariant: an engine is stored exactly when the status is
      ready, and an error is recorded exactly when the status is failed. */
  predicate Consistent(l: Llm) {
    && (l.engine <==> l.status == Ready)
    && (l.error.Some? <==> l.status == Failed)
  }

  /** The synchronous start of `initLLM`: nothing happens while loading or
      once ready (the second result says whether an attempt started);
      otherwise the status becomes loading and the error is cleared. */
  function BeginInit(l: Llm): (r: (Llm, bool))
    ensures !r.1 <==> l.status == Loading || l.status == Ready
    ensures !r.1 ==> r.0 == l
    ensures r.1 ==> r.0 == Llm(Loading, None, l.engine)
    ensures Consistent(l) && r.1 ==> !r.0.engine && r.0.error.None?
  {
    if l.status == Loading || l.status == Ready then (l, false)
    else (l.(status := Loading, error := None), true)
  }

  /** The end of an attempt: ready with the engine stored, or failed with
      the error message recorded (the stored engine, if any, is kept). */
  function EndInit(l: Llm, outcome: InitOutcome): (r: Llm)
    ensures outcome.EngineCreated? ==> r == Llm(Ready, l.error, true)
    ensures outcome.NoEngineFactory? ==> r == l.(status := Failed, error := Some(LibraryMissing))
    ensures outcome.ImportFailed? || outcome.EngineFailed? ==>
              r == l.(status := Failed, error := Some(outcome.message))
  {
    match outcome
    case EngineCreated => l.(status := Ready, engine := true)
    case NoEngineFactory => l.(status := Failed, error := Some(LibraryMissing))
    case ImportFailed(m) => l.(status := Failed, error := Some(m))
    case EngineFailed(m) => l.(status := Failed, error := Some(m))
  }

  /** A whole call of `initLLM` whose attempt ends with `outcome`: a no-op
      while loading or once ready; from idle or failed it ends ready exactly
      when an engine was created and failed otherwise, with the error
      recorded exactly in the failed case. The status invariant is kept. */
  function InitLlm(l: Llm, outcome: InitOutcome): (r: Llm)
    ensures l.status == Loading || l.status == Ready ==> r == l
    ensures l.status == Idle || l.status == Failed ==>
              && (r.status == Ready <==> outcome.EngineCreated?)
              && (r.status == Failed <==> !outcome.EngineCreated?)
              && (r.error.Some? <==> !outcome.EngineCreated?)
              && (outcome.EngineCreated? ==> r.engine)
    ensures Consistent(l) ==> Consistent(r)
  {
    var (started, go) := BeginInit(l);
    if go then EndInit(started, outcome) else l
  }

  /** Ready is final: once an engine exists no sequence of `initLLM` calls
      changes anything, whatever their outcomes would have been. */
  lemma {:induction false} ReadyIsFinal(l: Llm, outcomes: seq<InitOutcome>)
    requires l.status == Ready
    ensures InitMany(l, outcomes) == l
    decreases |outcomes|
  {
    if outcomes != [] {
      ReadyIsFinal(InitLlm(l, outcomes[0]), outcomes[1..]);
    }
  }

  /** From any state that satisfies it, a sequence of `initLLM` calls keeps
      the status invariant. */
  lemma {:induction false} InitManyKeepsConsistency(l: Llm, outcomes: seq<InitOutcome>)
    requires Consistent(l)
    ensures Consistent(InitMany(l, outcomes))
    decreases |outcomes|
  {
    if outcomes != [] {
      InitManyKeepsConsistency(InitLlm(l, outcomes[0]), outcomes[1..]);
    }
  }

  /** Calls of `initLLM` that never overlap end with an engine exactly when
      one was there already or some attempt created one; the status never
      rests at loading. */
  lemma {:induction false} EngineIffSomeAttemptSucceeded(l: Llm, outcomes: seq<InitOutcome>)
    requires l.status != Loading
    ensures InitMany(l, outcomes).status == Ready <==> l.status == Ready || EngineCreated in outcomes
    ensures InitMany(l, outcomes).status != Loading
    decreases |outcomes|
  {
    if outcomes != [] {
      if l.status == Ready {
        ReadyIsFinal(l, outcomes);
      } else {
        var next := InitLlm(l, outcomes[0]);
        EngineIffSomeAttemptSucceeded(next, outcomes[1..]);
        assert outcomes == [outcomes[0]] + outcomes[1..];
        assert EngineCreated in outcomes <==> outcomes[0] == EngineCreated || EngineCreated in outcomes[1..];
      }
    }
  }

  /** From the state the page starts in, the status invariant holds after
      any calls, and the header shows "AI ready" exactly when some attempt
      created an engine. */
  lemma FromStartReadyIffEngineCreated(outcomes: seq<InitOutcome>)
    ensures Consistent(InitMany(InitialLlm, outcomes))
    ensures InitMany(InitialLlm, outcomes).status == Ready <==> EngineCreated in outcomes
  {
    InitManyKeepsConsistency(InitialLlm, outcomes);
    EngineIffSomeAttemptSucceeded(InitialLlm, outcomes);
  }

  /** Repeated calls of `initLLM`, each ending with the next outcome. */
  function InitMany(l: Llm, outcomes: seq<InitOutcome>): Llm
    decreases |outcomes|
  {
    if outcomes == [] then l else InitMany(InitLlm(l, outcomes[0]), outcomes[1..])
  }

  /** What the advice panel shows and whether the model is thinking.
      `advice` is the same page state as `WeatherFetch.FetchState.advice`:
      the forecast fetch only clears it, and `GenerateAdvice` only writes
      it, so each module keeps the part it touches. */
  datatype AdviceState = AdviceState(advice: string, thinking: bool)

  /** How the chat completion ends: the call throws, or it returns `reply`
      (`undefined` when the engine lacks the completion API). */
  datatype ReplyOutcome = ReplyFailed | Replied(reply: JsValue)

  /** `v?.[key]`: `undefined` on `null` or `undefined`, the property
      otherwise. */
  function Member(v: JsValue, key: string): (r: JsValue)
    ensures IsNullish(v) ==> r == Undefined
    ensures !IsNullish(v) ==> r == Get(v, key)
  {
    if IsNullish(v) then Undefined else Get(v, key)
  }

  /** `v?.[0]`: the first element of an array, the property "0" of an
      object, `undefined` otherwise. (A string is indexable too, but a
      one-character string has no `message`, so the chain below ends the
      same way.) */
  function FirstElement(v: JsValue): (r: JsValue)
    ensures v.Arr? && |v.items| > 0 ==> r == v.items[0]
    ensures v.Obj? ==> r == Get(v, "0")
    ensures !v.Arr? && !v.Obj? ==> r == Undefined
  {
    match v
    case Arr(items) => if |items| > 0 then items[0] else Undefined
    case Obj(_) => Get(v, "0")
    case _ => Undefined
  }

  /** The content of the first choice's message in a reply. */
  function ReplyContent(reply: JsValue): JsValue {
    Member(Member(FirstElement(Member(reply, "choices")), "message"), "content")
  }

  /** `reply?.choices?.[0]?.message?.content?.trim?.() || ""`: the trimmed
      content when it is a string, and the empty string otherwise (only
      strings have a `trim` method; a JSON value under the name `trim` is
      not callable and the call throws, which the source also turns into
      the empty string). */
  function AdviceText(reply: JsValue): (text: string)
    ensures text != "" ==> ReplyContent(reply).Str? && text == Trim(ReplyContent(reply).s)
    ensures ReplyContent(reply).Str? && !AllWhitespace(ReplyContent(reply).s) ==> text != ""
    ensures text != "" ==> !IsJsWhitespace(text[0]) && !IsJsWhitespace(text[|text| - 1])
  {
    match ReplyContent(reply)
    case Str(s) => Trim(s)
    case _ => ""
  }

  /** `generateAdvice`: without an engine nothing changes; with one, the
      advice becomes the text of the reply (empty when the call throws) and
      the thinking indicator is off again. */
  function GenerateAdvice(st: AdviceState, engine: bool, outcome: ReplyOutcome): (r: AdviceState)
    ensures !engine ==> r == st
    ensures engine ==> !r.thinking
    ensures engine && outcome.ReplyFailed? ==> r.advice == ""
    ensures engine && outcome.Replied? ==> r.advice == AdviceText(outcome.reply)
  {
    if !engine then st
    else match outcome
      case ReplyFailed => AdviceState("", false)
      case Replied(reply) => AdviceState(AdviceText(reply), false)
  }

  /** The advice shown is already trimmed: trimming it again changes nothing. */
  lemma AdviceIsTrimmed(st: AdviceState, engine: bool, outcome: ReplyOutcome)
    requires engine
    ensures Trim(GenerateAdvice(st, engine, outcome).advice) == GenerateAdvice(st, engine, outcome).advice
  {
    if outcome.Replied? {
      var c := ReplyContent(outcome.reply);
      if c.Str? {
        TrimIdempotent(c.s);
      }
    }
  }

  /** A reply in the shape the chat API documents yields its message text,
      trimmed. */
  lemma WellFormedReply(content: string)
    ensures AdviceText(Obj(map["choices" := Arr([Obj(map["message" := Obj(map["content" := Str(content)])])])]))
            == Trim(content)
  {
    var message := Obj(map["content" := Str(content)]);
    var choice := Obj(map["message" := message]);
    var reply := Obj(map["choices" := Arr([choice])]);
    assert Member(reply, "choices") == Arr([choice]);
    assert FirstElement(Arr([choice])) == choice;
    assert Member(choice, "message") == message;
    assert Member(message, "content") == Str(content);
    assert ReplyContent(reply) == Str(content);
  }
}
