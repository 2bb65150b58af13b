/**
 * The authentication controller: registration with a username-uniqueness
 * check, login, and the guard in front of the image-generation proxy.
 *
 * Password checking and token signing are not modelled: `matchPassword`
 * and `sign` (the controller's `generateToken`) are parameters about which
 * nothing is assumed, and so is the upstream text-to-image call.
 */
module Auth {

  import opened Http
  import opened Users

  type Token = string

  datatype Registered = Registered(id: UserId, username: string, token: Token)

  datatype LoggedIn = LoggedIn(
    id: UserId,
    username: string,
    bio: Option<string>,
    profilePicture: Option<string>,
    token: Token)

  /** Some stored user is called `name`. */
  ghost predicate NameTaken(users: map<UserId, User>, name: string)
  {
    exists k :: k in users && users[k].username == name
  }

  /**
   * `registerUser`: a taken username is refused with 400 and the directory
   * is left alone; otherwise exactly one user is added and its id, name and
   * a token signed for that id come back with 201.
   */
  method RegisterUser(dir: UserDirectory, username: string, password: string, sign: UserId -> Token)
    returns (reply: Reply<Registered>)
    requires dir.Valid()
    modifies dir
    ensures dir.Valid()
    ensures NameTaken(old(dir.users), username) ==>
      reply == Reply(StatusBadRequest, Msg("User already exists")) && dir.users == old(dir.users)
    ensures !NameTaken(old(dir.users), username) ==>
      && reply.status == StatusCreated && reply.body.Doc?
      && var id := reply.body.doc.id;
      && id !in old(dir.users)
      && dir.users == old(dir.users)[id := User(id, username, password, None, None, [], [])]
      && reply.body.doc == Registered(id, username, sign(id))
  {
    var userExists := FindByUsername(dir.users, dir.nextId, username);
    if userExists.Some? {
      return Reply(StatusBadRequest, Msg("User already exists"));
    }
    var user := dir.Create(username, password);
    reply := Reply(StatusCreated, Doc(Registered(user.id, user.username, sign(user.id))));
  }

  /**
   * `loginUser`: the first user with the given name whose password matches
   * gets its public fields and a token signed for its own id; every other
   * request gets 401. The directory is only read.
   */
  function LoginUser(
    users: map<UserId, User>, n: nat, username: string, password: string,
    matchPassword: (User, string) -> bool, sign: UserId -> Token): (reply: Reply<LoggedIn>)
    requires forall k :: k in users ==> k < n
    ensures reply.status == StatusOk || reply == Reply(StatusUnauthorized, Msg("Invalid username or password"))
    ensures !NameTaken(users, username) ==> reply.status == StatusUnauthorized
    ensures reply.status == StatusOk ==>
      && reply.body.Doc?
      && var id := reply.body.doc.id;
      && id in users && users[id].username == username && matchPassword(users[id], password)
      && reply.body.doc == LoggedIn(id, username, users[id].bio, users[id].profilePicture, sign(id))
  {
    match FindByUsername(users, n, username)
    case Some(k) =>
      var user := users[k];
      if matchPassword(user, password) then
        Reply(StatusOk, Doc(LoggedIn(k, user.username, user.bio, user.profilePicture, sign(k))))
      else
        Reply(StatusUnauthorized, Msg("Invalid username or password"))
    case None =>
      Reply(StatusUnauthorized, Msg("Invalid username or password"))
  }

  /** A stored username whose password does not match is refused, whatever the tokens would have been. */
  lemma LoginWrongPassword(
    users: map<UserId, User>, n: nat, username: string, password: string,
    matchPassword: (User, string) -> bool, sign: UserId -> Token)
    requires forall k :: k in users ==> k < n
    requires forall k :: k in users && users[k].username == username ==> !matchPassword(users[k], password)
    ensures LoginUser(users, n, username, password, matchPassword, sign).status == StatusUnauthorized
  {
  }

  /**
   * Only the first user with the name is checked: when its password does not
   * match, the request is refused even if a later user of the same name
   * would have matched.
   */
  lemma LoginFirstHolderFails(
    users: map<UserId, User>, n: nat, username: string, password: string,
    matchPassword: (User, string) -> bool, sign: UserId -> Token, k: UserId)
    requires forall j :: j in users ==> j < n
    requires FindByUsername(users, n, username) == Some(k) && !matchPassword(users[k], password)
    ensures LoginUser(users, n, username, password, matchPassword, sign)
         == Reply(StatusUnauthorized, Msg("Invalid username or password"))
  {
  }

  /**
   * The first user with the name (the one `findOne` returns) logs in when
   * its password matches: it gets its public fields and a token for its id.
   */
  lemma LoginKnownUser(
    users: map<UserId, User>, n: nat, username: string, password: string,
    matchPassword: (User, string) -> bool, sign: UserId -> Token, k: UserId)
    requires forall j :: j in users ==> j < n
    requires FindByUsername(users, n, username) == Some(k) && matchPassword(users[k], password)
    ensures LoginUser(users, n, username, password, matchPassword, sign)
         == Reply(StatusOk, Doc(LoggedIn(k, username, users[k].bio, users[k].profilePicture, sign(k))))
  {
  }

  /** A login succeeds exactly when the first user with the name has a matching password. */
  lemma LoginSucceedsIff(
    users: map<UserId, User>, n: nat, username: string, password: string,
    matchPassword: (User, string) -> bool, sign: UserId -> Token)
    requires forall j :: j in users ==> j < n
    ensures var first := FindByUsername(users, n, username);
      LoginUser(users, n, username, password, matchPassword, sign).status == StatusOk
      <==> first.Some? && matchPassword(users[first.value], password)
  {
  }

  // ---------------------------------------------------------------------
  // Image generation

  const ImageModel := "stabilityai/stable-diffusion-2"
  const NegativePrompt := "blurry, ugly, deformed"

  /** What is sent to the text-to-image service. */
  datatype ImageJob = ImageJob(model: string, inputs: string, negativePrompt: string)

  /** What the text-to-image service answers: an image blob, or a failure with its message. */
  datatype Upstream = Generated(mimeType: string, base64: string) | UpstreamError(message: string)

  datatype ImageBody = Image(image: string) | ImageFailure(message: string, error: string)

  /** The outcome of the prompt check: refused at once, or a job to send. */
  datatype Guarded = Refused(reply: Reply<ImageBody>) | Forward(job: ImageJob)

  /** The prompt check: a missing or empty prompt is refused with 400 before any job exists. */
  function ImageJobFor(prompt: Option<string>): (r: Guarded)
    ensures r.Refused? <==> !Truthy(prompt)
    ensures r.Refused? ==> r.reply == Reply(StatusBadRequest, Msg("Prompt is required"))
    ensures r.Forward? ==> r.job == ImageJob(ImageModel, prompt.value, NegativePrompt)
  {
    if !Truthy(prompt) then Refused(Reply(StatusBadRequest, Msg("Prompt is required")))
    else Forward(ImageJob(ImageModel, prompt.value, NegativePrompt))
  }

  /** The reply built from the service's answer: a data URI, or 500 with the upstream message. */
  function ImageReply(answer: Upstream): (reply: Reply<ImageBody>)
    ensures answer.Generated? ==>
      reply == Reply(StatusOk, Doc(Image("data:" + answer.mimeType + ";base64," + answer.base64)))
    ensures answer.UpstreamError? ==>
      reply == Reply(StatusServerError, Doc(ImageFailure("Failed to generate image", answer.message)))
  {
    match answer
    case Generated(mimeType, base64) => Reply(StatusOk, Doc(Image("data:" + mimeType + ";base64," + base64)))
    case UpstreamError(message) => Reply(StatusServerError, Doc(ImageFailure("Failed to generate image", message)))
  }

  /** `generateImage`, given the text-to-image service as `textToImage`. */
  function GenerateImage(prompt: Option<string>, textToImage: ImageJob -> Upstream): (reply: Reply<ImageBody>)
    ensures !Truthy(prompt) ==> reply == Reply(StatusBadRequest, Msg("Prompt is required"))
    ensures Truthy(prompt) ==> reply == ImageReply(textToImage(ImageJob(ImageModel, prompt.value, NegativePrompt)))
  {
    match ImageJobFor(prompt)
    case Refused(reply) => reply
    case Forward(job) => ImageReply(textToImage(job))
  }

  /** A refused prompt gets the same reply whatever the service would have answered: it is never consulted. */
  lemma RefusedPromptIgnoresService(prompt: Option<string>, service1: ImageJob -> Upstream, service2: ImageJob -> Upstream)
    requires !Truthy(prompt)
    ensures GenerateImage(prompt, service1) == GenerateImage(prompt, service2)
  {
  }
}
