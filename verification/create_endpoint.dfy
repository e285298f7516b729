/**
 * The post-creation handler, server/api/admin/posts/index.post.ts:
 * authentication, validation, the call to `createTempPost`, and the
 * mapping of what is thrown to an HTTP status.
 */
module CreateEndpoint {
  import opened Common
  import opened Text
  import opened Posts
  import opened Slug
  import opened Validation
  import opened DraftStore

  /** What reaches the handler's `catch`: an error built with `createError` (it has a `statusCode`), or a plain `Error`. */
  datatype Thrown =
    | Structured(status: int, message: string, errors: seq<string>)
    | Plain(message: string)

  datatype Reply =
    | Created(post: TempPost)
    | HttpError(status: int, message: string, errors: seq<string>)

  const ConflictMessage: string := "Post with this title already exists. Please choose a different title."
  const ServerMessage: string := "Internal Server Error: Failed to create post."

  /**
   * What `validatePostInput` throws when the request has no body: reading
   * `data.title` off `undefined` is a `TypeError`, a plain error without a
   * status code. It is written in pieces so that facts about each piece
   * can be checked separately.
   */
  const NoBodyMessage: string := "Cannot read " + "properties " + "of undefined " + "(reading " + "'title')"

  /** The `TypeError` of an absent body does not mention the title conflict, which starts with a capital A. */
  lemma NoBodyNotConflict()
    ensures !Contains(NoBodyMessage, Conflict)
  {
    assert 'A' !in NoBodyMessage;
    MissingFirstChar(NoBodyMessage, Conflict);
  }

  /**
   * The `catch` block: a structured error is re-thrown unchanged; a plain
   * error mentioning the title conflict becomes 409; anything else 500.
   */
  function Catch(t: Thrown): (r: Reply)
    ensures r.HttpError?
    ensures t.Structured? ==> r == HttpError(t.status, t.message, t.errors)
    ensures t.Plain? ==> (r.status == 409 <==> Contains(t.message, Conflict))
    ensures t.Plain? ==> r.status == 409 || r.status == 500
  {
    match t
    case Structured(status, message, errors) => HttpError(status, message, errors)
    case Plain(message) =>
      if Contains(message, Conflict) then HttpError(409, ConflictMessage, [])
      else HttpError(500, ServerMessage, [])
  }

  /**
   * The handler. Without a session user it answers 401 before reading the
   * body. `body` is `None` when the request has none; the validator then
   * throws a `TypeError`, which the handler answers with 500. An invalid
   * body is a 400 carrying the validator's messages and no store call; a
   * valid body is created once.
   */
  function HandleCreate(st: Store, user: bool, body: Option<Body>, validDate: string -> bool,
                        id: string, now: string, io: CreateIo): (out: (Store, Reply))
    ensures !user ==> out == (st, HttpError(401, "Unauthorized", []))
    ensures user && body.None? ==> out == (st, HttpError(500, ServerMessage, []))
    ensures user && body.Some? && !Validate(body.value, validDate).valid ==>
      out == (st, HttpError(400, "Invalid input", Validate(body.value, validDate).errors))
    ensures out.1.Created? <==>
      (user && body.Some? && Validate(body.value, validDate).valid && io.write.Done?
       && !(io.lookup.Done? && GenerateSlug(body.value.title.s) in st.kv))
    ensures out.0 != st ==> out.1.Created?
  {
    if !user then (st, HttpError(401, "Unauthorized", []))
    else if body.None? then
      NoBodyNotConflict();
      (st, Catch(Plain(NoBodyMessage)))
    else
      var body := body.value;
      var verdict := Validate(body, validDate);
      if !verdict.valid then (st, Catch(Structured(400, "Invalid input", verdict.errors)))
      else
        ValidIsWellTyped(body, validDate);
        var (st', r) := Create(st, ToInput(body), id, now, io);
        match r
        case Ok(post) => (st', Created(post))
        case Err(message) => (st', Catch(Plain(message)))
  }

  /** A valid body whose slug is already stored gives 409, and the store is untouched. */
  lemma ConflictIs409(st: Store, body: Body, validDate: string -> bool, id: string, now: string, io: CreateIo)
    requires Validate(body, validDate).valid
    requires io.lookup.Done? && GenerateSlug(body.title.s) in st.kv
    ensures HandleCreate(st, true, Some(body), validDate, id, now, io) == (st, HttpError(409, ConflictMessage, []))
  {
    ValidIsWellTyped(body, validDate);
    CreateConflict(st, ToInput(body), id, now, io);
  }

  /** A failed record write whose message does not mention the conflict gives 500 and writes nothing. */
  lemma WriteFailureIs500(st: Store, body: Body, validDate: string -> bool, id: string, now: string, io: CreateIo)
    requires Validate(body, validDate).valid
    requires !(io.lookup.Done? && GenerateSlug(body.title.s) in st.kv)
    requires io.write.Fail? && !Contains(CreatePrefix + Reason(io.write.message), Conflict)
    ensures HandleCreate(st, true, Some(body), validDate, id, now, io) == (st, HttpError(500, ServerMessage, []))
  {
    ValidIsWellTyped(body, validDate);
  }

  /** A created post is the fresh draft `createTempPost` stores for the body. */
  lemma CreatedIsNewDraft(st: Store, body: Body, validDate: string -> bool, id: string, now: string, io: CreateIo)
    requires HandleCreate(st, true, Some(body), validDate, id, now, io).1.Created?
    ensures var (st', reply) := HandleCreate(st, true, Some(body), validDate, id, now, io);
      && WellTyped(body)
      && reply.post == NewPost(ToInput(body), id, now)
      && reply.post.status == Draft
      && st'.kv == st.kv[reply.post.slug := reply.post]
  {
    ValidIsWellTyped(body, validDate);
  }
}
