/** The `POST` handler of src/app/api/bullets/route.ts as a decision function: the in-memory
    limiter is consulted first, then the request body, the processed input and the result
    of `generateBullets` decide the status code and the JSON body. The results of the
    collaborators that are not modelled here (the JSON parser, `generateBullets`,
    `cache.getStats()` and the environment) are parameters. */
module BulletsRoute {
  import opened Strings
  import opened Types
  import opened RateLimit
  import opened ProcessInput

  /** Fewest characters the cleaned input may have. */
  const MinChars: nat := 10

  /** The `input` field of a parsed JSON body. */
  datatype InputField = Absent | Text(s: string) | NonText

  /** What `await req.json()` produces: a parse error, `null` (whose destructuring throws),
      or a value whose `input` field is read. A non-object value has no `input` field. */
  datatype RequestBody = Unparseable | Null | Parsed(input: InputField)

  /** The reasons the handler answers with an error body. */
  datatype RouteError = RateLimitExceeded | InvalidInputFormat | InputTooShort | InternalError | AiFailed(text: string)

  /** The `error` text of each reason. */
  function Message(e: RouteError): string
  {
    match e
    case RateLimitExceeded => "Rate limit exceeded. Please try again later."
    case InvalidInputFormat => "Invalid input format"
    case InputTooShort => "Input too short. Please provide at least 10 characters."
    case InternalError => "Internal server error"
    case AiFailed(text) => text
  }

  /** The status code that goes with each reason. */
  function Status(e: RouteError): nat
  {
    match e
    case RateLimitExceeded => 429
    case InvalidInputFormat => 400
    case InputTooShort => 400
    case InternalError => 500
    case AiFailed(_) => 500
  }

  /** The JSON body of a successful answer. */
  datatype Summary = Summary(bullets: seq<string>, truncated: bool, originalLength: nat, processedLength: nat,
    cacheStats: Option<CacheStats>)

  /** The response: an error body `{ error }` with its status, or the summary with 200. */
  datatype HttpResponse = Refused(error: RouteError) | Ok(summary: Summary)

  function StatusOf(r: HttpResponse): nat
  {
    if r.Refused? then Status(r.error) else 200
  }

  /** `req.headers.get('x-forwarded-for') || 'unknown'`: an absent or empty header falls
      back to the shared identity "unknown". */
  function CallerIp(forwardedFor: Option<string>): string
  {
    if forwardedFor.Some? && forwardedFor.value != "" then forwardedFor.value else "unknown"
  }

  /** `if (result.error)`: an absent or empty error text is falsy. */
  predicate HasError(ai: AIResponse)
  {
    ai.error.Some? && ai.error.value != ""
  }

  /** `!input || typeof input !== 'string'` fails exactly for a non-empty text. */
  predicate IsValidInput(field: InputField)
  {
    field.Text? && field.s != ""
  }

  /** What the handler answers once `processUserInput` has produced `p`: `ai` is what
      `generateBullets(p.cleaned)` resolves to, `development` whether `NODE_ENV` is
      "development", and `stats` what `cache.getStats()` returns. */
  function Respond(p: ProcessedInput, ai: AIResponse, development: bool, stats: CacheStats): HttpResponse
  {
    if |p.cleaned| < MinChars then Refused(InputTooShort)
    else if HasError(ai) then Refused(AiFailed(ai.error.value))
    else Ok(Summary(ai.bullets, p.tooLong, p.originalLength, |p.cleaned|, if development then Some(stats) else None))
  }

  /** The part of the handler inside `try`, once the limiter has let the request through. */
  function Handle(body: RequestBody, ai: AIResponse, development: bool, stats: CacheStats): HttpResponse
  {
    match body
    case Unparseable => Refused(InternalError)
    case Null => Refused(InternalError)
    case Parsed(field) =>
      if !IsValidInput(field) then Refused(InvalidInputFormat)
      else Respond(ProcessUserInput(field.s), ai, development, stats)
  }

  /** `POST(req)` at time `now` against the limiter's records `windows`: the records
      afterwards and the response. */
  function Post(windows: map<string, Window>, forwardedFor: Option<string>, now: int, body: RequestBody,
    ai: AIResponse, development: bool, stats: CacheStats): (map<string, Window>, HttpResponse)
  {
    var (after, verdict) := Step(windows, CallerIp(forwardedFor), now);
    (after, if verdict.success then Handle(body, ai, development, stats) else Refused(RateLimitExceeded))
  }

  /** Whether a request gets as far as `generateBullets`. */
  predicate ReachesAi(windows: map<string, Window>, forwardedFor: Option<string>, now: int, body: RequestBody)
  {
    Step(windows, CallerIp(forwardedFor), now).1.success && body.Parsed? && IsValidInput(body.input)
    && |Clean(body.input.s)| >= MinChars
  }

  /** An admitted request is answered by `Handle`. */
  lemma PostAdmitted(windows: map<string, Window>, forwardedFor: Option<string>, now: int, body: RequestBody,
    ai: AIResponse, development: bool, stats: CacheStats)
    requires Step(windows, CallerIp(forwardedFor), now).1.success
    ensures Post(windows, forwardedFor, now, body, ai, development, stats)
      == (Step(windows, CallerIp(forwardedFor), now).0, Handle(body, ai, development, stats))
  {
  }

  /** A non-empty text input is answered from its processed form. */
  lemma HandleText(s: string, ai: AIResponse, development: bool, stats: CacheStats)
    requires s != ""
    ensures Handle(Parsed(Text(s)), ai, development, stats) == Respond(ProcessUserInput(s), ai, development, stats)
  {
  }

  /** The handler's own answers never claim a rate limit. */
  lemma HandleNeverRateLimits(body: RequestBody, ai: AIResponse, development: bool, stats: CacheStats)
    ensures Handle(body, ai, development, stats) != Refused(RateLimitExceeded)
  {
    match body
    case Unparseable =>
    case Null =>
    case Parsed(field) =>
      if IsValidInput(field) {
        HandleText(field.s, ai, development, stats);
        RespondNeverRateLimits(ProcessUserInput(field.s), ai, development, stats);
      }
  }

  lemma RespondNeverRateLimits(p: ProcessedInput, ai: AIResponse, development: bool, stats: CacheStats)
    ensures Respond(p, ai, development, stats) != Refused(RateLimitExceeded)
  {
  }

  /** Requests with no usable `x-forwarded-for` header all count against one shared
      identity; any other header value is used as it is. */
  lemma AnonymousCallersShareOneLimit(forwardedFor: Option<string>)
    ensures CallerIp(forwardedFor) == "unknown" <==> forwardedFor.None? || forwardedFor.value in {"", "unknown"}
    ensures forwardedFor.Some? && forwardedFor.value != "" ==> KeyFor(CallerIp(forwardedFor)) == KeyFor(forwardedFor.value)
  {
  }

  /** A refused request gets 429 whatever its body, without the body being looked at, and
      leaves the limiter's records as they were. */
  lemma RateLimitComesFirst(windows: map<string, Window>, forwardedFor: Option<string>, now: int,
    body: RequestBody, ai: AIResponse, development: bool, stats: CacheStats)
    requires !Step(windows, CallerIp(forwardedFor), now).1.success
    ensures Post(windows, forwardedFor, now, body, ai, development, stats) == (windows, Refused(RateLimitExceeded))
  {
  }

  /** Every admitted request is counted by the limiter, whatever happens to it afterwards. */
  lemma AdmittedRequestIsCounted(windows: map<string, Window>, forwardedFor: Option<string>, now: int,
    body: RequestBody, ai: AIResponse, development: bool, stats: CacheStats)
    requires Step(windows, CallerIp(forwardedFor), now).1.success
    ensures var (after, r) := Post(windows, forwardedFor, now, body, ai, development, stats);
      KeyFor(CallerIp(forwardedFor)) in after && r != Refused(RateLimitExceeded)
      && after[KeyFor(CallerIp(forwardedFor))].count
        == (if Expired(windows, KeyFor(CallerIp(forwardedFor)), now) then 1
            else windows[KeyFor(CallerIp(forwardedFor))].count + 1)
  {
    PostAdmitted(windows, forwardedFor, now, body, ai, development, stats);
    HandleNeverRateLimits(body, ai, development, stats);
  }

  /** The status is one of 200, 400, 429 and 500, and the body carries bullets exactly when
      the status is 200. */
  lemma StatusAndPayloadAgree(windows: map<string, Window>, forwardedFor: Option<string>, now: int,
    body: RequestBody, ai: AIResponse, development: bool, stats: CacheStats)
    ensures var r := Post(windows, forwardedFor, now, body, ai, development, stats).1;
      StatusOf(r) in {200, 400, 429, 500} && (StatusOf(r) == 200 <==> r.Ok?)
  {
  }

  /** A body that cannot be parsed, or is `null`, gets 500 "Internal server error". */
  lemma BrokenBodyIsServerError(body: RequestBody, ai: AIResponse, development: bool, stats: CacheStats)
    requires body.Unparseable? || body.Null?
    ensures Handle(body, ai, development, stats) == Refused(InternalError)
  {
  }

  /** A missing, empty or non-text `input` gets 400 "Invalid input format". */
  lemma InvalidInputIsRejected(field: InputField, ai: AIResponse, development: bool, stats: CacheStats)
    requires field.Absent? || field.NonText? || field == Text("")
    ensures Handle(Parsed(field), ai, development, stats) == Refused(InvalidInputFormat)
  {
  }

  /** The processed text is shorter than 10 characters exactly when the cleaned input is;
      truncation never makes it short. */
  lemma ProcessedShortIffCleanShort(s: string)
    ensures |ProcessUserInput(s).cleaned| < MinChars <==> |Clean(s)| < MinChars
  {
    var p := ProcessUserInput(s);
    if p.tooLong {
      assert |p.cleaned| == MaxChars + 3 && |Clean(s)| > MaxChars;
    } else {
      assert p.cleaned == Clean(s);
    }
  }

  /** A non-empty text input whose cleaned form has fewer than 10 characters gets 400
      "Input too short", and only such an input does. */
  lemma ShortInputIsRejected(s: string, ai: AIResponse, development: bool, stats: CacheStats)
    requires s != ""
    ensures Handle(Parsed(Text(s)), ai, development, stats) == Refused(InputTooShort) <==> |Clean(s)| < MinChars
  {
    HandleText(s, ai, development, stats);
    ProcessedShortIffCleanShort(s);
    RespondShortIff(ProcessUserInput(s), ai, development, stats);
  }

  /** `Respond` refuses a processed text as too short exactly when it is. */
  lemma RespondShortIff(p: ProcessedInput, ai: AIResponse, development: bool, stats: CacheStats)
    ensures Respond(p, ai, development, stats) == Refused(InputTooShort) <==> |p.cleaned| < MinChars
  {
  }

  /** A request that does not reach `generateBullets` gets the same answer whatever that call
      would have produced. */
  lemma AiOnlyConsultedForUsableInput(windows: map<string, Window>, forwardedFor: Option<string>, now: int,
    body: RequestBody, ai1: AIResponse, ai2: AIResponse, development: bool, stats: CacheStats)
    requires !ReachesAi(windows, forwardedFor, now, body)
    ensures Post(windows, forwardedFor, now, body, ai1, development, stats)
      == Post(windows, forwardedFor, now, body, ai2, development, stats)
  {
    if Step(windows, CallerIp(forwardedFor), now).1.success {
      PostAdmitted(windows, forwardedFor, now, body, ai1, development, stats);
      PostAdmitted(windows, forwardedFor, now, body, ai2, development, stats);
      match body
      case Unparseable =>
      case Null =>
      case Parsed(field) =>
        if IsValidInput(field) {
          var p := ProcessUserInput(field.s);
          HandleText(field.s, ai1, development, stats);
          HandleText(field.s, ai2, development, stats);
          ProcessedShortIffCleanShort(field.s);
          assert |p.cleaned| < MinChars;
          ShortAnswerIgnoresAi(p, ai1, ai2, development, stats);
        }
    }
  }

  /** A processed text that is too short is refused before `generateBullets` is called. */
  lemma ShortAnswerIgnoresAi(p: ProcessedInput, ai1: AIResponse, ai2: AIResponse, development: bool, stats: CacheStats)
    requires |p.cleaned| < MinChars
    ensures Respond(p, ai1, development, stats) == Respond(p, ai2, development, stats) == Refused(InputTooShort)
  {
  }

  /** An error reported by `generateBullets` is passed on with status 500. */
  lemma AiErrorIsPassedOn(windows: map<string, Window>, forwardedFor: Option<string>, now: int,
    body: RequestBody, ai: AIResponse, development: bool, stats: CacheStats)
    requires ReachesAi(windows, forwardedFor, now, body) && HasError(ai)
    ensures Post(windows, forwardedFor, now, body, ai, development, stats).1
      == Refused(AiFailed(ai.error.value))
  {
    PostAdmitted(windows, forwardedFor, now, body, ai, development, stats);
    HandleText(body.input.s, ai, development, stats);
    ProcessedShortIffCleanShort(body.input.s);
  }

  /** A successful answer carries the bullets of `generateBullets`; `truncated` is whether the
      cleaned input exceeded 1000 characters (not the flag the AI result carries); the lengths
      are of the raw input and of the processed text, which holds at most 1003 characters;
      the cache statistics are there exactly in development. */
  lemma SuccessReportsProcessing(windows: map<string, Window>, forwardedFor: Option<string>, now: int,
    body: RequestBody, ai: AIResponse, development: bool, stats: CacheStats)
    requires ReachesAi(windows, forwardedFor, now, body) && !HasError(ai)
    ensures var r := Post(windows, forwardedFor, now, body, ai, development, stats).1;
      var s := body.input.s;
      r.Ok? && r.summary.bullets == ai.bullets
      && (r.summary.truncated <==> |Clean(s)| > MaxChars)
      && r.summary.originalLength == |s|
      && MinChars <= r.summary.processedLength <= MaxChars + 3
      && (r.summary.cacheStats.Some? <==> development)
      && (development ==> r.summary.cacheStats == Some(stats))
  {
    var s := body.input.s;
    PostAdmitted(windows, forwardedFor, now, body, ai, development, stats);
    HandleText(s, ai, development, stats);
    ProcessedShortIffCleanShort(s);
    ProcessedTextIsTidy(s);
  }
}
