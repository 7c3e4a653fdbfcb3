/** The `POST /api/analyze` handler as a pure function of what its
    collaborators answer. Every outside call it makes is recorded, in order,
    so that what happens before a rejection can be stated. */
module AnalyzeRoute {
  import opened Wrappers
  import opened AnalysisTypes
  import opened Sentiment
  import opened KeywordFilter
  import opened Text

  /** The body message of the 400 answer. */
  const InvalidUrlMessage: string := "Invalid YouTube URL"

  /** The message used when the thrown error has an empty message. */
  const FallbackMessage: string := "Analysis failed"

  /** The fixed instruction placed before each comment's text. */
  const PromptPrefix: string :=
    "Analyze this YouTube comment and classify its sentiment ONLY as one of these exact words: "
    + "agree(if the comment is good), disagree(if the comment is bad), or neutral. \n  Comment: "

  datatype Body = Record(analysis: Analysis) | Error(message: string)

  datatype Response = Response(status: int, body: Body)

  /** An outside call the handler makes. */
  datatype Call =
    | FetchComments(videoId: string)
    | Generate(prompt: string)
    | Save(analysis: Analysis)

  /** The handler's answer together with the outside calls it made. */
  datatype Handled = Handled(response: Response, calls: seq<Call>)

  /** The handler's collaborators: the comment thread fetch for a video id, the
      language model's reply to a prompt, the TF-IDF term ranking of the first
      of the given documents, and the store's save. */
  datatype Services = Services(
    fetch: string -> Result<seq<RawComment>>,
    generate: string -> Result<string>,
    rank: seq<string> -> seq<string>,
    save: Analysis -> Outcome)

  /** The prompt for one comment: the fixed instruction, then the comment's
      text verbatim. */
  function Prompt(text: string): string {
    PromptPrefix + text
  }

  /** Different comment texts are sent as different prompts. */
  lemma PromptInjective(a: string, b: string)
    ensures Prompt(a) == Prompt(b) ==> a == b
  {
    if Prompt(a) == Prompt(b) {
      assert a == Prompt(a)[|PromptPrefix|..];
      assert b == Prompt(b)[|PromptPrefix|..];
    }
  }

  /** The `!videoId` test on the `v` parameter, a string or null: true for
      null and for the empty string, the only falsy values of that type. */
  predicate MissingVideoId(v: Option<string>) {
    v.None? || v.value == ""
  }

  /** The catch block's answer to a thrown error. */
  function ServerError(message: string): (r: Response)
    ensures r.status == 500 && r.body.Error?
    ensures r.body.message != ""
    ensures message != "" ==> r.body.message == message
    ensures message == "" ==> r.body.message == FallbackMessage
  {
    Response(500, Error(if message == "" then FallbackMessage else message))
  }

  /** One retrieved comment with the sentiment read from the model's reply. */
  function Classify(raw: RawComment, reply: string): (r: Comment)
    ensures r.text == raw.text && r.date == raw.date
    ensures r.sentiment == "agree" <==> Includes(Lower(reply), "agree")
    ensures r.sentiment == "neutral" <==> !Includes(Lower(reply), "agree")
  {
    Comment(raw.text, Label(Normalise(reply)), raw.date)
  }

  /** The `Promise.all` over the comments, taken in order: every comment gets
      its reply's label, keeping its text and date, or the whole step fails. */
  function ClassifyAll(raw: seq<RawComment>, generate: string -> Result<string>): (r: Result<seq<Comment>>)
    ensures r.Success? <==> forall i :: 0 <= i < |raw| ==> generate(Prompt(raw[i].text)).Success?
    ensures r.Success? ==> |r.value| == |raw|
    ensures r.Success? ==> forall i :: 0 <= i < |raw| ==>
      r.value[i] == Classify(raw[i], generate(Prompt(raw[i].text)).value)
  {
    if |raw| == 0 then Success([])
    else
      match generate(Prompt(raw[0].text))
      case Failure(m) => Failure(m)
      case Success(reply) =>
        assert forall i :: 1 <= i < |raw| ==> raw[1..][i - 1] == raw[i];
        match ClassifyAll(raw[1..], generate)
        case Failure(m) => Failure(m)
        case Success(rest) => Success([Classify(raw[0], reply)] + rest)
  }

  /** A failed classification reports the error of the first failing reply. */
  lemma {:induction false} ClassifyAllFailure(raw: seq<RawComment>, generate: string -> Result<string>)
    requires ClassifyAll(raw, generate).Failure?
    ensures exists i :: (0 <= i < |raw| && SucceededBefore(raw, generate, i)
      && generate(Prompt(raw[i].text)) == Failure(ClassifyAll(raw, generate).message))
  {
    if generate(Prompt(raw[0].text)).Success? {
      ClassifyAllFailure(raw[1..], generate);
      var i :| (0 <= i < |raw[1..]| && SucceededBefore(raw[1..], generate, i)
        && generate(Prompt(raw[1..][i].text)) == Failure(ClassifyAll(raw[1..], generate).message));
      assert forall j :: 1 <= j <= i + 1 ==> raw[1..][j - 1] == raw[j];
      assert SucceededBefore(raw, generate, i + 1);
    } else {
      assert SucceededBefore(raw, generate, 0);
    }
  }

  /** Every reply before position `i` succeeded. */
  predicate SucceededBefore(raw: seq<RawComment>, generate: string -> Result<string>, i: int) {
    0 <= i <= |raw| && forall j :: 0 <= j < i ==> generate(Prompt(raw[j].text)).Success?
  }

  /** The comment texts, in retrieval order, as added to the TF-IDF corpus. */
  function Texts(raw: seq<RawComment>): seq<string> {
    seq(|raw|, i requires 0 <= i < |raw| => raw[i].text)
  }

  /** One model call per comment, all issued before any is awaited. */
  function GenerateCalls(raw: seq<RawComment>): seq<Call> {
    seq(|raw|, i requires 0 <= i < |raw| => Generate(Prompt(raw[i].text)))
  }

  /** The handler. `query` is the outcome of reading the body's `url` and
      looking up its `v` parameter: the parameter's value if any, or the
      message of the error that parsing threw. The answer is 400 exactly when
      the parameter is absent or empty, and the handler then makes no outside
      call at all; every other failure is a 500 with a non-empty message. A
      parse failure answers with the parse error and makes no outside call; a
      failed fetch answers with the fetch error and makes no further call. */
  function Analyze(query: Result<Option<string>>, svc: Services): (h: Handled)
    ensures h.response.status in {200, 400, 500}
    ensures h.response.status == 200 <==> h.response.body.Record?
    ensures h.response.body.Error? ==> h.response.body.message != ""
    ensures h.response.status == 400 <==> query == Success(None) || query == Success(Some(""))
    ensures h.response.status == 400 ==>
      h.calls == [] && h.response.body == Error(InvalidUrlMessage)
    ensures query.Success? && !MissingVideoId(query.value) ==>
      |h.calls| >= 1 && h.calls[0] == FetchComments(query.value.value)
    ensures query.Failure? ==> h.response == ServerError(query.message) && h.calls == []
    ensures query.Success? && !MissingVideoId(query.value) && svc.fetch(query.value.value).Failure? ==>
      && h.response == ServerError(svc.fetch(query.value.value).message)
      && h.calls == [FetchComments(query.value.value)]
  {
    match query
    case Failure(m) => Handled(ServerError(m), [])
    case Success(v) =>
      if MissingVideoId(v) then Handled(Response(400, Error(InvalidUrlMessage)), [])
      else
        var id := v.value;
        match svc.fetch(id)
        case Failure(m) => Handled(ServerError(m), [FetchComments(id)])
        case Success(raw) =>
          var asked := [FetchComments(id)] + GenerateCalls(raw);
          match ClassifyAll(raw, svc.generate)
          case Failure(m) => Handled(ServerError(m), asked)
          case Success(comments) =>
            var record := Analysis(id, comments, Keywords(svc.rank(Texts(raw))));
            match svc.save(record)
            case Fail(m) => Handled(ServerError(m), asked + [Save(record)])
            case Pass => Handled(Response(200, Record(record)), asked + [Save(record)])
  }

  /** A successful answer holds the requested video's comments in retrieval
      order, each with its text and date unchanged and its reply's label
      added, and the keywords of the ranking; it is answered after the fetch,
      one model call per comment and the save. */
  lemma SuccessShape(query: Result<Option<string>>, svc: Services)
    requires Analyze(query, svc).response.status == 200
    ensures query.Success? && query.value.Some?
    ensures
      var id := query.value.value;
      var h := Analyze(query, svc);
      var record := h.response.body.analysis;
      && id != ""
      && record.videoId == id
      && svc.fetch(id).Success?
      && var raw := svc.fetch(id).value;
      && |record.comments| == |raw|
      && (forall i :: 0 <= i < |raw| ==>
            && svc.generate(Prompt(raw[i].text)).Success?
            && record.comments[i] == Classify(raw[i], svc.generate(Prompt(raw[i].text)).value))
      && record.keywords == Keywords(svc.rank(Texts(raw)))
      && svc.save(record) == Pass
      && h.calls == [FetchComments(id)] + GenerateCalls(raw) + [Save(record)]
  {
    var h := Analyze(query, svc);
    var id := query.value.value;
    var raw := svc.fetch(id).value;
    var comments := ClassifyAll(raw, svc.generate).value;
    forall i | 0 <= i < |raw|
      ensures comments[i] == Classify(raw[i], svc.generate(Prompt(raw[i].text)).value)
    {
    }
  }

  /** No stored comment is ever labelled "disagree": each label is "agree" or
      "neutral". */
  lemma NeverStoresDisagree(query: Result<Option<string>>, svc: Services)
    requires Analyze(query, svc).response.status == 200
    ensures forall c :: c in Analyze(query, svc).response.body.analysis.comments ==>
      c.sentiment in {"agree", "neutral"}
  {
  }

  /** When a model call fails, the answer is a 500 carrying the error of a
      failing reply, every reply before which succeeded; all the model calls
      were issued and nothing was saved. */
  lemma FailedReplyAnswer(id: string, svc: Services)
    requires id != ""
    requires svc.fetch(id).Success?
    requires exists i :: (0 <= i < |svc.fetch(id).value|
      && svc.generate(Prompt(svc.fetch(id).value[i].text)).Failure?)
    ensures
      var raw := svc.fetch(id).value;
      var h := Analyze(Success(Some(id)), svc);
      && h.calls == [FetchComments(id)] + GenerateCalls(raw)
      && exists i :: (0 <= i < |raw| && SucceededBefore(raw, svc.generate, i)
           && svc.generate(Prompt(raw[i].text)).Failure?
           && h.response == ServerError(svc.generate(Prompt(raw[i].text)).message))
  {
    var raw := svc.fetch(id).value;
    ClassifyAllFailure(raw, svc.generate);
  }

  /** When the store rejects the record, the answer is a 500 carrying the
      store's error, after the fetch, every model call and the save attempt. */
  lemma FailedSaveAnswer(id: string, svc: Services)
    requires id != ""
    requires svc.fetch(id).Success?
    requires ClassifyAll(svc.fetch(id).value, svc.generate).Success?
    requires
      var raw := svc.fetch(id).value;
      svc.save(Analysis(id, ClassifyAll(raw, svc.generate).value, Keywords(svc.rank(Texts(raw))))).Fail?
    ensures
      var raw := svc.fetch(id).value;
      var record := Analysis(id, ClassifyAll(raw, svc.generate).value, Keywords(svc.rank(Texts(raw))));
      var h := Analyze(Success(Some(id)), svc);
      && h.response == ServerError(svc.save(record).message)
      && h.calls == [FetchComments(id)] + GenerateCalls(raw) + [Save(record)]
  {
  }

  /** With the id present, the handler answers 200 exactly when the fetch,
      every model call and the save of the one record it builds succeed. */
  lemma SucceedsIff(id: string, svc: Services)
    requires id != ""
    ensures Analyze(Success(Some(id)), svc).response.status == 200 <==>
      && svc.fetch(id).Success?
      && (forall i :: 0 <= i < |svc.fetch(id).value| ==>
            svc.generate(Prompt(svc.fetch(id).value[i].text)).Success?)
      && var raw := svc.fetch(id).value;
      && svc.save(Analysis(id, ClassifyAll(raw, svc.generate).value, Keywords(svc.rank(Texts(raw))))) == Pass
  {
  }

  /** When the id is present and the fetch, every model call and the save of
      the record built from them answer, the handler succeeds. */
  lemma SucceedsWhenServicesDo(id: string, svc: Services)
    requires id != ""
    requires svc.fetch(id).Success?
    requires forall i :: 0 <= i < |svc.fetch(id).value| ==>
      svc.generate(Prompt(svc.fetch(id).value[i].text)).Success?
    requires
      var raw := svc.fetch(id).value;
      svc.save(Analysis(id, ClassifyAll(raw, svc.generate).value, Keywords(svc.rank(Texts(raw))))) == Pass
    ensures Analyze(Success(Some(id)), svc).response.status == 200
  {
    SucceedsIff(id, svc);
  }

  /** A video without comments is still analysed and stored, with no comments
      and, when the ranking of an empty corpus is empty, no keywords. */
  lemma EmptyVideo(id: string, svc: Services)
    requires id != ""
    requires svc.fetch(id) == Success([])
    requires svc.rank([]) == []
    requires svc.save(Analysis(id, [], [])) == Pass
    ensures Analyze(Success(Some(id)), svc).response
      == Response(200, Record(Analysis(id, [], [])))
  {
    assert Texts([]) == [];
  }
}
